/** What it changes that only the first call of a scan skips the '+' or '-' that the optstring begins
    with. */
module GetoptCalls {
  import opened Wrappers
  import opened GetoptScan

  /** What an optstring says of a character */
  datatype Kind = Unknown | Flag | Required | Optional

  function KindOf(short: string, c: char): Kind {
    var i := IndexOf(short, c);
    if i == |short| || c == ':' then Unknown
    else if !CharAt(short, i + 1, ':') then Flag
    else if CharAt(short, i + 2, ':') then Optional
    else Required
  }

  /** The code of an option that is unknown or lacks its argument */
  function FaultCode(k: Kind, short: string): int {
    if k.Unknown? then UNKNOWN else Missing(short)
  }

  /** Two optstrings make the same of an option. An argument that is needed and one that may be left
      out differ only if it is left out; if it is, one that may be and none are the same; and so
      may be the lack of it and an unknown option. */
  predicate ShortAlike(after: seq<string>, next: string, a: string, b: string)
    requires next != ""
  {
    var k, l := KindOf(a, next[0]), KindOf(b, next[0]);
    if |next| > 1 then k == l || (k in {Required, Optional} && l in {Required, Optional})
    else if after != [] then k == l || (k in {Flag, Optional} && l in {Flag, Optional})
    else
      || (k in {Flag, Optional} && l in {Flag, Optional})
      || (k in {Unknown, Required} && l in {Unknown, Required} && FaultCode(k, a) == FaultCode(l, b))
  }

  /** A long option is read otherwise only if it lacks its argument. */
  predicate LongAlike(after: seq<string>, next: string, a: string, b: string, longs: seq<Long>) {
    (after == [] && WantsLong(next, longs)) ==> Missing(a) == Missing(b)
  }

  lemma ShortReadAlike(after: seq<string>, next: string, a: string, b: string)
    requires next != ""
    ensures ShortAlike(after, next, a, b) <==> DecodeShort(after, next, a) == DecodeShort(after, next, b)
    ensures DecodeShort(after, next, a).ev == DecodeShort(after, next, b).ev ==> ShortAlike(after, next, a, b)
  {
    hide IndexOf;
  }

  lemma LongReadAlike(after: seq<string>, next: string, a: string, b: string, longs: seq<Long>)
    ensures LongAlike(after, next, a, b, longs) <==> DecodeLong(after, next, a, longs) == DecodeLong(after, next, b, longs)
    ensures DecodeLong(after, next, a, longs).ev == DecodeLong(after, next, b, longs).ev ==> LongAlike(after, next, a, b, longs)
  {
    hide MatchLong, NameEnd;
  }

  // ----- A character in front -----

  lemma IndexBehind(p: char, s: string, c: char)
    requires c != p
    ensures IndexOf([p] + s, c) == 1 + IndexOf(s, c)
  {
    assert ([p] + s)[1..] == s;
  }

  /** What an optstring says of the other options does not change with a '+' or '-' in front of it. */
  lemma KindBehind(p: char, s: string, c: char)
    requires c != p
    ensures KindOf([p] + s, c) == KindOf(s, c)
  {
    hide IndexOf;
    IndexBehind(p, s, c);
    var i := IndexOf(s, c);
    assert CharAt([p] + s, i + 2, ':') == CharAt(s, i + 1, ':') && CharAt([p] + s, i + 3, ':') == CharAt(s, i + 2, ':');
  }

  /** A short option is read otherwise by later calls than by the first one exactly if it has no
      argument and needs one, and ':' stands behind the '+' or '-': then ':' is returned by the
      first call, and '?' by those after it. */
  lemma LaterCallsDiffer(after: seq<string>, next: string, p: char, s: string)
    requires next != "" && p != ':' && next[0] != p
    ensures DecodeShort(after, next, [p] + s) == DecodeShort(after, next, s) <==>
            !(after == [] && WantsShort(next, s) && s != "" && s[0] == ':')
  {
    hide IndexOf;
    KindBehind(p, s, next[0]);
    ShortReadAlike(after, next, [p] + s, s);
  }

  /** And so is a long one. */
  lemma LaterCallsDifferLong(after: seq<string>, next: string, p: char, s: string, longs: seq<Long>)
    requires p != ':'
    ensures DecodeLong(after, next, [p] + s, longs) == DecodeLong(after, next, s, longs) <==>
            !(after == [] && WantsLong(next, longs) && s != "" && s[0] == ':')
  {
    hide MatchLong, NameEnd;
    LongReadAlike(after, next, [p] + s, s, longs);
  }

  /** The '+' or '-' itself is an option for later calls, with an argument if ':' stands behind it. For
      the first call it is one only if it stands a second time in the optstring. */
  lemma PrefixIsAnOption(p: char, s: string)
    requires p != ':'
    ensures KindOf([p] + s, p) == if !CharAt(s, 0, ':') then Flag else if CharAt(s, 1, ':') then Optional else Required
    ensures KindOf(s, p) == Unknown <==> p !in s
  {
    assert IndexOf([p] + s, p) == 0;
    assert CharAt([p] + s, 1, ':') == CharAt(s, 0, ':') && CharAt([p] + s, 2, ':') == CharAt(s, 1, ':');
    InString(s, p);
  }

  lemma InString(s: string, c: char)
    ensures IndexOf(s, c) == |s| <==> c !in s
  {
  }

  // ----- Whole scans -----

  predicate OptionAlike(elem: string, after: seq<string>, next: string, a: Spec, b: Spec)
    requires !NonOption(elem) && next != ""
  {
    if a.longs.Some? && elem[1] == '-' then LongAlike(after, next, a.short, b.short, a.longs.value)
    else ShortAlike(after, next, a.short, b.short)
  }

  /** The option a step takes is read alike. */
  predicate StepAlike(cur: Cursor, a: Spec, b: Spec)
    requires Ready(cur)
  {
    if cur.next != "" then OptionAlike(cur.args[0], cur.args[1..], cur.next, a, b)
    else
      var j := Passed(cur.args, a.ordering);
      AtEnd(cur.args, j) || NonOption(cur.args[j]) || OptionAlike(cur.args[j], cur.args[j + 1..], Opening(cur.args[j], a), a, b)
  }

  /** Every option of the scan is read alike. */
  predicate ScansAlike(cur: Cursor, a: Spec, b: Spec)
    requires Ready(cur)
    decreases |cur.args|, InFirst(cur)
  {
    StepAdvances(cur, a);
    StepAlike(cur, a, b) && (Step(cur, a).Go? ==> ScansAlike(Step(cur, a).rest, a, b))
  }

  lemma OptionReadAlike(elem: string, after: seq<string>, next: string, a: Spec, b: Spec)
    requires !NonOption(elem) && next != "" && a.longs == b.longs
    ensures OptionAlike(elem, after, next, a, b) <==> Decode(elem, after, next, a) == Decode(elem, after, next, b)
    ensures Decode(elem, after, next, a).ev == Decode(elem, after, next, b).ev ==> OptionAlike(elem, after, next, a, b)
  {
    hide ShortAlike, LongAlike, DecodeShort, DecodeLong;
    if a.longs.Some? && elem[1] == '-' {
      LongReadAlike(after, next, a.short, b.short, a.longs.value);
    } else {
      ShortReadAlike(after, next, a.short, b.short);
    }
  }

  lemma ActReadAlike(args: seq<string>, j: nat, next: string, a: Spec, b: Spec)
    requires j < |args| && !NonOption(args[j]) && next != "" && a.longs == b.longs
    ensures OptionAlike(args[j], args[j + 1..], next, a, b) ==> Act(args, j, next, a) == Act(args, j, next, b)
    ensures !OptionAlike(args[j], args[j + 1..], next, a, b) ==> Act(args, j, next, a).ev != Act(args, j, next, b).ev
  {
    hide OptionAlike, Decode;
    OptionReadAlike(args[j], args[j + 1..], next, a, b);
  }

  lemma OpeningAlike(elem: string, a: Spec, b: Spec)
    requires !NonOption(elem) && elem != "--" && a.longs == b.longs
    ensures Opening(elem, a) == Opening(elem, b)
  {
  }

  lemma StepReadAlike(cur: Cursor, a: Spec, b: Spec)
    requires Ready(cur) && a.ordering == b.ordering && a.longs == b.longs
    ensures StepAlike(cur, a, b) ==> Step(cur, a) == Step(cur, b)
    ensures !StepAlike(cur, a, b) ==> Step(cur, a).Go? && Step(cur, b).Go? && Step(cur, a).ev != Step(cur, b).ev
  {
    hide OptionAlike, Act, Opening, InPlace, EndOptions, EndOperands, Passed;
    if cur.next != "" {
      ActReadAlike(cur.args, 0, cur.next, a, b);
    } else {
      var j := Passed(cur.args, a.ordering);
      if !AtEnd(cur.args, j) && !NonOption(cur.args[j]) {
        OpeningAlike(cur.args[j], a, b);
        ActReadAlike(cur.args, j, Opening(cur.args[j], a), a, b);
      }
    }
  }

  lemma {:induction false} ScansAgree(cur: Cursor, a: Spec, b: Spec)
    requires Ready(cur) && a.ordering == b.ordering && a.longs == b.longs
    ensures Scan(cur, a) == Scan(cur, b) <==> ScansAlike(cur, a, b)
    decreases |cur.args|, InFirst(cur)
  {
    hide Step, StepAlike, Scan;
    StepAdvances(cur, a);
    StepReadAlike(cur, a, b);
    ScanUnfolded(cur, a);
    ScanUnfolded(cur, b);
    if !StepAlike(cur, a, b) {
      assert Scan(cur, a).events[0] != Scan(cur, b).events[0];
    } else if Step(cur, a).Go? {
      var m := Step(cur, a);
      ScansAgree(m.rest, a, b);
      Cancelled(m, Scan(m.rest, a), Scan(m.rest, b));
    }
  }

  lemma ScanUnfolded(cur: Cursor, spec: Spec)
    requires Ready(cur)
    ensures var m := Step(cur, spec);
            && (m.Stop? ==> Scan(cur, spec) == Trace([], m.options, m.operands))
            && (m.Go? ==> Ready(m.rest) && Scan(cur, spec) == Before(m, Scan(m.rest, spec)))
  {
    StepAdvances(cur, spec);
  }

  function Before(m: Move, t: Trace): Trace
    requires m.Go?
  {
    Trace([m.ev] + t.events, m.used + t.options, m.skipped + t.operands)
  }

  lemma Cancelled(m: Move, t: Trace, u: Trace)
    requires m.Go?
    ensures Before(m, t) == Before(m, u) <==> t == u
  {
    assert ([m.ev] + t.events)[1..] == t.events && ([m.ev] + u.events)[1..] == u.events;
    assert (m.used + t.options)[|m.used|..] == t.options && (m.used + u.options)[|m.used|..] == u.options;
    assert (m.skipped + t.operands)[|m.skipped|..] == t.operands && (m.skipped + u.operands)[|m.skipped|..] == u.operands;
  }

  /** A scan finds what it would find if all calls skipped the '+' or '-' exactly if, behind the first
      call, every option is read alike. */
  lemma FirstCallOnly(cur: Cursor, optstring: string, longs: Option<seq<Long>>)
    requires Ready(cur)
    ensures var first, later := FirstSpec(optstring, longs), LaterSpec(optstring, longs);
            ScanFrom(cur, first, later) == Scan(cur, first) <==>
            (Step(cur, first).Go? ==> ScansAlike(Step(cur, first).rest, first, later))
  {
    hide Step, Scan, ScansAlike;
    var first, later := FirstSpec(optstring, longs), LaterSpec(optstring, longs);
    ScanUnfolded(cur, first);
    var m := Step(cur, first);
    if m.Go? {
      ScansAgree(m.rest, first, later);
      Cancelled(m, Scan(m.rest, later), Scan(m.rest, first));
    }
  }

  // ----- Two scans that are read otherwise -----

  lemma OneStep(elem: string, args: seq<string>, spec: Spec, ev: Event)
    requires !NonOption(elem) && elem != "--" && spec.longs.None? && args != [] && args[0] == elem
    requires DecodeShort(args[1..], elem[1..], spec.short) == Decoded(ev, 1, "")
    ensures Step(Cursor(args, ""), spec) == Go(ev, [], [elem], Cursor(args[1..], ""))
  {
    assert args[..0] == [] && args[0..1] == [elem];
  }

  lemma LastScan(elem: string, spec: Spec, ev: Event)
    requires !NonOption(elem) && elem != "--" && spec.longs.None?
    requires DecodeShort([], elem[1..], spec.short) == Decoded(ev, 1, "")
    ensures Scan(Cursor([elem], ""), spec) == Trace([ev], [elem], [])
  {
    hide DecodeShort;
    assert [elem][1..] == [];
    OneStep(elem, [elem], spec, ev);
    ScanUnfolded(Cursor([elem], ""), spec);
    assert Scan(Cursor([], ""), spec) == Trace([], [], []);
  }

  /** "-a" and one more option, which the first call and later ones do not read alike */
  lemma TwoOptions(elem: string, optstring: string, one: Event, other: Event)
    requires !NonOption(elem) && elem != "--" && one != other
    requires var first, later := FirstSpec(optstring, None), LaterSpec(optstring, None);
             && DecodeShort([elem], "a", first.short) == Decoded(Plain('a' as int, None), 1, "")
             && DecodeShort([], elem[1..], first.short) == Decoded(one, 1, "")
             && DecodeShort([], elem[1..], later.short) == Decoded(other, 1, "")
    ensures var cur, first, later := Cursor(["-a", elem], ""), FirstSpec(optstring, None), LaterSpec(optstring, None);
            && Scan(cur, first).events == [Plain('a' as int, None), one]
            && ScanFrom(cur, first, later).events == [Plain('a' as int, None), other]
  {
    hide DecodeShort, Step, Scan;
    var args, first, later := ["-a", elem], FirstSpec(optstring, None), LaterSpec(optstring, None);
    assert args[1..] == [elem] && "-a"[1..] == "a";
    OneStep("-a", args, first, Plain('a' as int, None));
    LastScan(elem, first, one);
    LastScan(elem, later, other);
    ScanUnfolded(Cursor(args, ""), first);
  }

  /** "-a -o" with the optstring "+:ao:": the lack of an argument is reported by '?', and not by ':'. */
  lemma ColonIsForgotten()
    ensures var cur, first, later := Cursor(["-a", "-o"], ""), FirstSpec("+:ao:", None), LaterSpec("+:ao:", None);
            && Scan(cur, first).events == [Plain('a' as int, None), Fault(':' as int, 'o' as int)]
            && ScanFrom(cur, first, later).events == [Plain('a' as int, None), Fault(UNKNOWN, 'o' as int)]
  {
    assert "+:ao:"[1..] == ":ao:" && "-o"[1..] == "o";
    assert IndexOf(":ao:", 'a') == 1 && IndexOf(":ao:", 'o') == 2 && IndexOf("+:ao:", 'o') == 3;
    TwoOptions("-o", "+:ao:", Fault(':' as int, 'o' as int), Fault(UNKNOWN, 'o' as int));
  }

  /** "-a -+" with the optstring "+a": '+' is taken for an option. */
  lemma PrefixIsTaken()
    ensures var cur, first, later := Cursor(["-a", "-+"], ""), FirstSpec("+a", None), LaterSpec("+a", None);
            && Scan(cur, first).events == [Plain('a' as int, None), Fault(UNKNOWN, '+' as int)]
            && ScanFrom(cur, first, later).events == [Plain('a' as int, None), Plain('+' as int, None)]
  {
    assert "+a"[1..] == "a" && "-+"[1..] == "+";
    assert IndexOf("a", 'a') == 0 && IndexOf("a", '+') == 1 && IndexOf("+a", '+') == 0;
    TwoOptions("-+", "+a", Fault(UNKNOWN, '+' as int), Plain('+' as int, None));
  }
}
