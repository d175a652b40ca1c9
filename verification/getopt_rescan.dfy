/** Scanning a second time the arguments a first scan has put in order. */
module GetoptRescan {
  import opened Wrappers
  import opened GetoptScan

  /** What follows an option matters only if it needs an argument, and then only the next one. */
  lemma WhatFollows(elem: string, after: seq<string>, after': seq<string>, next: string, spec: Spec)
    requires !NonOption(elem) && next != ""
    ensures var d, d' := Decode(elem, after, next, spec), Decode(elem, after', next, spec);
            if Wants(elem, next, spec) then
              && d.next == "" && d.used == (if after == [] then 1 else 2)
              && d.ev.optarg == (if after == [] then None else Some(after[0]))
              && (after != [] && after' != [] && after[0] == after'[0] ==> d == d')
              && (after == after' ==> d == d')
            else d == d' && d.used <= 1
  {
    if spec.longs.Some? && elem[1] == '-' {
      WhatFollowsLong(after, after', next, spec);
    } else {
      WhatFollowsShort(after, after', next, spec.short);
    }
  }

  lemma WhatFollowsLong(after: seq<string>, after': seq<string>, next: string, spec: Spec)
    requires spec.longs.Some?
    ensures var d, d' := DecodeLong(after, next, spec.short, spec.longs.value), DecodeLong(after', next, spec.short, spec.longs.value);
            if WantsLong(next, spec.longs.value) then
              && d.next == "" && d.used == (if after == [] then 1 else 2)
              && d.ev.optarg == (if after == [] then None else Some(after[0]))
              && (after != [] && after' != [] && after[0] == after'[0] ==> d == d')
            else d == d' && d.used <= 1
  {
    hide MatchLong, NameEnd;
  }

  lemma WhatFollowsShort(after: seq<string>, after': seq<string>, next: string, short: string)
    requires next != ""
    ensures var d, d' := DecodeShort(after, next, short), DecodeShort(after', next, short);
            if WantsShort(next, short) then
              && d.next == "" && d.used == (if after == [] then 1 else 2)
              && d.ev.optarg == (if after == [] then None else Some(after[0]))
              && (after != [] && after' != [] && after[0] == after'[0] ==> d == d')
            else d == d' && d.used <= 1
  {
    hide IndexOf;
  }

  /** Where the option at hand stands, and the text it is read from */
  function Place(cur: Cursor): nat {
    if cur.next != "" then 0 else Operands(cur.args)
  }

  function Text(cur: Cursor, spec: Spec): string
    requires Ready(cur) && spec.ordering.Permute? && Step(cur, spec).Go?
  {
    if cur.next != "" then cur.next else Opening(cur.args[Place(cur)], spec)
  }

  /** The last option of the command line needs an argument, and there is none left. */
  predicate Starves(cur: Cursor, spec: Spec)
    requires Ready(cur) && spec.ordering.Permute?
    decreases |cur.args|, InFirst(cur)
  {
    StepAdvances(cur, spec);
    Step(cur, spec).Go? &&
    (StarvesHere(cur, spec) || Starves(Step(cur, spec).rest, spec))
  }

  predicate StarvesHere(cur: Cursor, spec: Spec)
    requires Ready(cur) && spec.ordering.Permute? && Step(cur, spec).Go?
  {
    Place(cur) + 1 == |cur.args| && Wants(cur.args[Place(cur)], Text(cur, spec), spec)
  }

  predicate NoOptions(x: seq<string>) {
    forall k :: 0 <= k < |x| ==> NonOption(x[k])
  }

  /** The arguments as a scan of `cur` would leave them, with more operands in front of its own */
  function Ordered(cur: Cursor, x: seq<string>, spec: Spec): Cursor
    requires Ready(cur)
  {
    var t := Scan(cur, spec);
    Cursor(t.options + (x + t.operands), cur.next)
  }

  lemma OrderedOf(cur: Cursor, x: seq<string>, spec: Spec)
    requires Ready(cur) && spec.ordering.Permute?
    ensures var t := Scan(cur, spec); Ordered(cur, x, spec) == Cursor(t.options + (x + t.operands), cur.next)
  {
  }

  /** What a step finds is what decoding finds at its place. */
  lemma StepIsDecode(cur: Cursor, spec: Spec)
    requires Ready(cur) && spec.ordering.Permute? && Step(cur, spec).Go?
    ensures Ready(Step(cur, spec).rest)
    ensures var m, j, next := Step(cur, spec), Place(cur), Text(cur, spec);
            && j < |cur.args| && !NonOption(cur.args[j]) && next != "" && NoOptions(m.skipped)
            && var d := Decode(cur.args[j], cur.args[j + 1..], next, spec);
               m == Go(d.ev, cur.args[..j], cur.args[j..j + d.used], Cursor(cur.args[j + d.used..], d.next))
  {
    hide Decode, Opening;
  }

  lemma InsideGoes(cur: Cursor, spec: Spec)
    requires Ready(cur) && spec.ordering.Permute? && cur.next != ""
    ensures Step(cur, spec).Go?
  {
  }

  /** Inside an option, that option is the next the scan takes. */
  lemma {:induction false} InsideTakesFirst(cur: Cursor, spec: Spec)
    requires Ready(cur) && spec.ordering.Permute? && cur.next != ""
    ensures Scan(cur, spec).options != [] && Scan(cur, spec).options[0] == cur.args[0]
    decreases |cur.next|
  {
    hide Decode, Step, Scan;
    InsideGoes(cur, spec);
    StepIsDecode(cur, spec);
    ScanStep(cur, spec);
    var m := Step(cur, spec);
    if m.used == [] {
      InsideTakesFirst(m.rest, spec);
    }
  }

  lemma FirstTaken(cur: Cursor, spec: Spec)
    requires Ready(cur) && spec.ordering.Permute? && Step(cur, spec).Go?
    ensures Scan(cur, spec).options != [] && Scan(cur, spec).options[0] == cur.args[Place(cur)]
  {
    hide Decode, Step, Scan;
    StepIsDecode(cur, spec);
    ScanStep(cur, spec);
    var m := Step(cur, spec);
    if m.used == [] {
      InsideTakesFirst(m.rest, spec);
    }
  }

  /** A step at the front of the ordered arguments */
  lemma StepAtFront(c: Cursor, cur: Cursor, spec: Spec)
    requires Ready(cur) && spec.ordering.Permute? && Step(cur, spec).Go?
    requires c.args != [] && c.args[0] == cur.args[Place(cur)] && c.next == cur.next
    ensures Ready(c) && Step(c, spec).Go? && Place(c) == 0 && Text(c, spec) == Text(cur, spec)
  {
    hide Decode;
    StepIsDecode(cur, spec);
  }

  lemma OrderedEnd(cur: Cursor, x: seq<string>, spec: Spec)
    requires Ready(cur) && spec.ordering.Permute? && Step(cur, spec).Stop? && NoOptions(x)
    ensures Ready(Ordered(cur, x, spec))
    ensures var t := Scan(cur, spec); Scan(Ordered(cur, x, spec), spec) == Trace(t.events, t.options, x + t.operands)
  {
    var t := Scan(cur, spec);
    var args := Ordered(cur, x, spec).args;
    if t.options == [] {
      assert args == x + t.operands && NoOptions(args);
    } else {
      assert args[0] == "--" && args[1..] == x + t.operands && args[..0] + args[1..] == x + t.operands;
    }
  }

  /** The ordered arguments, taken apart where the first step ends */
  lemma OrderedParts(cur: Cursor, x: seq<string>, spec: Spec)
    requires Ready(cur) && spec.ordering.Permute? && Step(cur, spec).Go? && Ready(Step(cur, spec).rest)
    ensures var m := Step(cur, spec);
            var rest := Scan(m.rest, spec);
            Ordered(cur, x, spec).args == m.used + (rest.options + ((x + m.skipped) + rest.operands))
  {
    hide Step, Scan;
    ScanStep(cur, spec);
  }

  lemma OrderedFirst(cur: Cursor, x: seq<string>, spec: Spec)
    requires Ready(cur) && spec.ordering.Permute? && Step(cur, spec).Go?
    ensures var c := Ordered(cur, x, spec);
            && c.args != [] && c.args[0] == cur.args[Place(cur)] && c.next == cur.next
            && Ready(c) && Step(c, spec).Go? && Place(c) == 0 && Text(c, spec) == Text(cur, spec)
  {
    hide Step, Scan, Text, Place;
    FirstTaken(cur, spec);
    StepAtFront(Ordered(cur, x, spec), cur, spec);
  }

  /** An option that does not starve is decoded alike in both scans. */
  lemma OrderedStep(cur: Cursor, x: seq<string>, spec: Spec)
    requires Ready(cur) && spec.ordering.Permute? && Step(cur, spec).Go? && !StarvesHere(cur, spec)
    ensures var c, m := Ordered(cur, x, spec), Step(cur, spec);
            && Ready(m.rest) && Ready(c)
            && Step(c, spec) == Go(m.ev, [], m.used, Ordered(m.rest, x + m.skipped, spec))
  {
    hide Decode, Step, Scan, Wants, Text, Place, Ordered;
    var c, m := Ordered(cur, x, spec), Step(cur, spec);
    StepIsDecode(cur, spec);
    OrderedFirst(cur, x, spec);
    StepIsDecode(c, spec);
    OrderedParts(cur, x, spec);
    var j, next := Place(cur), Text(cur, spec);
    var rest := Scan(m.rest, spec);
    var more := rest.options + ((x + m.skipped) + rest.operands);
    WhatFollows(cur.args[j], cur.args[j + 1..], c.args[1..], next, spec);
    if Wants(cur.args[j], next, spec) {
      assert m.used == [cur.args[j], cur.args[j + 1]];
      assert c.args[1..][0] == (m.used + more)[1] == cur.args[j + 1..][0];
    }
    assert c.args[..0] == [] && c.args[0..|m.used|] == m.used && c.args[|m.used|..] == more;
    OrderedOf(m.rest, x + m.skipped, spec);
  }

  /** One that starves is decoded otherwise when there are operands, and is the last. */
  lemma StarvedStep(cur: Cursor, x: seq<string>, spec: Spec)
    requires Ready(cur) && spec.ordering.Permute? && Step(cur, spec).Go? && StarvesHere(cur, spec)
    ensures var c, m := Ordered(cur, x, spec), Step(cur, spec);
            && Ready(c) && Step(c, spec).Go? && m.rest == Cursor([], "")
            && if x + m.skipped != [] then Step(c, spec).ev != m.ev else c == cur
  {
    hide Decode, Step, Scan, Wants, Text, Place, Ordered;
    var c, m := Ordered(cur, x, spec), Step(cur, spec);
    StepIsDecode(cur, spec);
    var j, next := Place(cur), Text(cur, spec);
    OrderedFirst(cur, x, spec);
    WhatFollows(cur.args[j], [], c.args[1..], next, spec);
    assert cur.args[j + 1..] == [];
    OrderedParts(cur, x, spec);
    NothingLeft(spec);
    StepIsDecode(c, spec);
    WhatFollows(cur.args[j], c.args[1..], [], next, spec);
    assert m.used == [cur.args[j]];
    assert c.args[1..] == x + m.skipped;
    assert cur.args == m.skipped + m.used;
  }

  lemma ScanStep(cur: Cursor, spec: Spec)
    requires Ready(cur) && spec.ordering.Permute? && Step(cur, spec).Go?
    ensures var m, t := Step(cur, spec), Scan(cur, spec);
            var rest := Scan(m.rest, spec);
            t == Trace([m.ev] + rest.events, m.used + rest.options, m.skipped + rest.operands)
  {
    hide Step;
  }

  lemma NothingLeft(spec: Spec)
    requires spec.ordering.Permute?
    ensures Scan(Cursor([], ""), spec) == Trace([], [], []) && !Starves(Cursor([], ""), spec)
  {
  }

  /** The second scan finds what the first did, in the same order, unless the last option
      starved in the first and finds an operand in the second. */
  lemma {:induction false} OrderedScan(cur: Cursor, x: seq<string>, spec: Spec)
    requires Ready(cur) && spec.ordering.Permute? && NoOptions(x)
    ensures var c, t := Ordered(cur, x, spec), Scan(cur, spec);
            && Ready(c)
            && if Starves(cur, spec) && x + t.operands != []
               then Scan(c, spec).events != t.events
               else Scan(c, spec) == Trace(t.events, t.options, x + t.operands)
    decreases |cur.args|, InFirst(cur)
  {
    hide Step, Decode, Scan, Ordered, StarvesHere, Operands;
    StepAdvances(cur, spec);
    var c, m := Ordered(cur, x, spec), Step(cur, spec);
    if m.Stop? {
      OrderedEnd(cur, x, spec);
    } else if StarvesHere(cur, spec) {
      StarvedStep(cur, x, spec);
      StarvedScan(cur, x, spec);
    } else {
      OrderedStep(cur, x, spec);
      Skipped(cur, x, spec);
      OrderedScan(m.rest, x + m.skipped, spec);
      ScanStep(cur, spec);
      ScanStep(c, spec);
      var t, rest := Scan(cur, spec), Scan(m.rest, spec);
      assert (x + m.skipped) + rest.operands == x + (m.skipped + rest.operands);
      assert t.events[1..] == rest.events && Scan(c, spec).events[1..] == Scan(Step(c, spec).rest, spec).events;
    }
  }

  lemma Skipped(cur: Cursor, x: seq<string>, spec: Spec)
    requires Ready(cur) && spec.ordering.Permute? && Step(cur, spec).Go? && NoOptions(x)
    ensures NoOptions(x + Step(cur, spec).skipped)
  {
    hide Step, Decode;
    StepIsDecode(cur, spec);
  }

  lemma StarvedScan(cur: Cursor, x: seq<string>, spec: Spec)
    requires Ready(cur) && spec.ordering.Permute? && Step(cur, spec).Go? && Step(cur, spec).rest == Cursor([], "")
    requires var c, m := Ordered(cur, x, spec), Step(cur, spec);
             && Ready(c) && Step(c, spec).Go?
             && if x + m.skipped != [] then Step(c, spec).ev != m.ev else c == cur
    ensures var c, t := Ordered(cur, x, spec), Scan(cur, spec);
            if x + t.operands != [] then Scan(c, spec).events != t.events
            else Scan(c, spec) == Trace(t.events, t.options, x + t.operands)
  {
    hide Step, Decode, Scan, Ordered;
    var c, m, t := Ordered(cur, x, spec), Step(cur, spec), Scan(cur, spec);
    ScanStep(cur, spec);
    NothingLeft(spec);
    assert t.operands == m.skipped;
    if x + m.skipped != [] {
      GoIsReady(c, spec);
      ScanStep(c, spec);
      assert Scan(c, spec).events[0] != t.events[0];
    } else {
      assert x + t.operands == t.operands == [];
    }
  }

  lemma GoIsReady(cur: Cursor, spec: Spec)
    requires Ready(cur) && spec.ordering.Permute? && Step(cur, spec).Go?
    ensures Ready(Step(cur, spec).rest)
  {
    hide Step, Decode;
    StepIsDecode(cur, spec);
  }

  /** Scanning the permuted arguments again reports the same options with the same arguments and
      leaves them as they are, exactly if the last option did not go without its argument while
      there were operands: the second scan would take the first operand for it. */
  lemma Rescan(args: seq<string>, optstring: string, longs: Option<seq<Long>>)
    ensures var first, later := FirstSpec(optstring, longs), LaterSpec(optstring, longs);
            var t := ScanFrom(Cursor(args, ""), first, later);
            ScanFrom(Cursor(t.options + t.operands, ""), first, later) == t <==>
            (later.ordering.Permute? ==> !Starves(Cursor(args, ""), later) || t.operands == [])
  {
    hide Scan, Starves, ScanFrom;
    var first, later := FirstSpec(optstring, longs), LaterSpec(optstring, longs);
    var cur := Cursor(args, "");
    var t := ScanFrom(cur, first, later);
    if later.ordering.Permute? {
      OrderedScan(cur, [], later);
      ScanIsUniform(cur, later);
      ScanIsUniform(Cursor(t.options + t.operands, ""), later);
      assert [] + t.operands == t.operands;
    } else {
      NothingMovesFrom(cur, first, later);
    }
  }

  /** The option -o, which needs an argument */
  function NeedsOne(): Spec { LaterSpec("o:", None) }

  lemma ScanEnds(spec: Spec)
    ensures Scan(Cursor([], ""), spec) == Trace([], [], [])
  {
  }

  lemma NameIsFound()
    ensures IndexOf("o:", 'o') == 0
  {
  }

  lemma OptionAlone(x: string)
    requires NonOption(x)
    ensures Step(Cursor([x, "-o"], ""), NeedsOne()) == Go(Fault(UNKNOWN, 'o' as int), [x], ["-o"], Cursor([], ""))
    ensures StarvesHere(Cursor([x, "-o"], ""), NeedsOne())
  {
    hide IndexOf;
    NameIsFound();
    var args := [x, "-o"];
    assert args[1..] == ["-o"];
    assert Operands(args[1..]) == 0;
    assert Opening("-o", NeedsOne()) == "o";
    assert args[..1] == [x] && args[2..] == [];
  }

  lemma OptionAndOperand(x: string)
    ensures Step(Cursor(["-o", x], ""), NeedsOne()) == Go(Plain('o' as int, Some(x)), [], ["-o", x], Cursor([], ""))
  {
    hide IndexOf;
    NameIsFound();
    var args := ["-o", x];
    assert Opening("-o", NeedsOne()) == "o";
    assert args[1..] == [x] && args[2..] == [] && args[0..2] == args && args[..0] == [];
  }

  /** "x -o", when -o needs an argument: the first scan complains and keeps "x" as an operand,
      the second reports -o with the argument "x". */
  lemma SecondScanDiffers(x: string)
    requires NonOption(x)
    ensures var t := Scan(Cursor([x, "-o"], ""), NeedsOne());
            && Starves(Cursor([x, "-o"], ""), NeedsOne())
            && t == Trace([Fault(UNKNOWN, 'o' as int)], ["-o"], [x])
            && Scan(Cursor(t.options + t.operands, ""), NeedsOne()) == Trace([Plain('o' as int, Some(x))], ["-o", x], [])
  {
    hide Step, StarvesHere;
    OptionAlone(x);
    OptionAndOperand(x);
    ScanEnds(NeedsOne());
    assert ["-o"] + [x] == ["-o", x];
  }
}
