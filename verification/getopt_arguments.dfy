/** What a scan reports of each kind of argument, told from its text. */
module GetoptArguments {
  import opened Sequences
  import opened Wrappers
  import opened GetoptScan
  import opened GetoptCalls

  // ----- What the optstring says -----

  /** `c` stands first at `i`, and `n` colons or more behind it, up to two. */
  predicate StandsAt(short: string, c: char, i: nat, n: nat) {
    && i < |short| && short[i] == c && c !in short[..i] && c != ':'
    && (n == 0 <==> !(i + 1 < |short| && short[i + 1] == ':'))
    && (n == 2 <==> i + 2 < |short| && short[i + 1] == ':' && short[i + 2] == ':')
    && n <= 2
  }

  /** An option without argument */
  predicate IsFlag(short: string, c: char) {
    exists i :: 0 <= i < |short| && StandsAt(short, c, i, 0)
  }

  predicate NeedsArgument(short: string, c: char) {
    exists i :: 0 <= i < |short| && StandsAt(short, c, i, 1)
  }

  predicate MayHaveArgument(short: string, c: char) {
    exists i :: 0 <= i < |short| && StandsAt(short, c, i, 2)
  }

  lemma FirstPlace(short: string, c: char, j: nat, n: nat)
    requires StandsAt(short, c, j, n)
    ensures j == IndexOf(short, c)
  {
    hide IndexOf;
    assert forall i :: 0 <= i < j ==> short[..j][i] == short[i];
  }

  lemma KindIsTold(short: string, c: char)
    ensures IsFlag(short, c) <==> KindOf(short, c) == Flag
    ensures NeedsArgument(short, c) <==> KindOf(short, c) == Required
    ensures MayHaveArgument(short, c) <==> KindOf(short, c) == Optional
    ensures c !in short || c == ':' <==> KindOf(short, c) == Unknown
  {
    var i := IndexOf(short, c);
    InString(short, c);
    forall j: nat, n | StandsAt(short, c, j, n) ensures j == i { FirstPlace(short, c, j, n); }
    if i < |short| && c != ':' {
      var n := if !CharAt(short, i + 1, ':') then 0 else if CharAt(short, i + 2, ':') then 2 else 1;
      assert StandsAt(short, c, i, n);
    }
  }

  /** The code for an argument that is lacking: ':' if the optstring begins with it */
  function Lacking(short: string): int {
    if |short| > 0 && short[0] == ':' then 58 else 63
  }

  // ----- Short options -----

  /** An argument that holds short options, from `text` on */
  predicate IsShort(text: string, spec: Spec) {
    text != "" && text != "-" && (text[0] == '-' ==> spec.longs.None?)
  }

  /** The scan reports one event and goes on behind `n` arguments. */
  predicate Reports(args: seq<string>, spec: Spec, ev: Event, n: nat) {
    && n <= |args|
    && Step(Cursor(args, ""), spec) == Go(ev, [], args[..n], Cursor(args[n..], ""))
    && Scan(Cursor(args, ""), spec) == Before(Step(Cursor(args, ""), spec), Scan(Cursor(args[n..], ""), spec))
  }

  lemma ShortStep(text: string, more: seq<string>, spec: Spec, ev: Event, n: nat)
    requires IsShort(text, spec) && 1 <= n <= 1 + |more|
    requires DecodeShort(more, text, spec.short) == Decoded(ev, n, "")
    ensures Reports(["-" + text] + more, spec, ev, n)
  {
    hide DecodeShort;
    var args := ["-" + text] + more;
    assert args[0] == "-" + text && args[0][1..] == text && args[1..] == more;
    assert args[..0] == [] && args[0..n] == args[..n];
    ScanUnfolded(Cursor(args, ""), spec);
  }

  /** "-oarg": what stands behind the letter is the argument. */
  lemma AttachedArgument(c: char, arg: string, more: seq<string>, spec: Spec)
    requires IsShort([c] + arg, spec) && arg != "" && (NeedsArgument(spec.short, c) || MayHaveArgument(spec.short, c))
    ensures Reports(["-" + ([c] + arg)] + more, spec, Plain(c as int, Some(arg)), 1)
  {
    hide IndexOf;
    KindIsTold(spec.short, c);
    assert ([c] + arg)[1..] == arg;
    ShortStep([c] + arg, more, spec, Plain(c as int, Some(arg)), 1);
  }

  /** "-o arg": if one is needed, the next argument is, whatever it looks like. */
  lemma SeparateArgument(c: char, arg: string, more: seq<string>, spec: Spec)
    requires IsShort([c], spec) && NeedsArgument(spec.short, c)
    ensures Reports(["-" + [c]] + ([arg] + more), spec, Plain(c as int, Some(arg)), 2)
  {
    hide IndexOf;
    KindIsTold(spec.short, c);
    assert ([arg] + more)[0] == arg;
    ShortStep([c], [arg] + more, spec, Plain(c as int, Some(arg)), 2);
  }

  /** So both are reported alike. */
  lemma BothForms(c: char, arg: string, more: seq<string>, spec: Spec)
    requires IsShort([c] + arg, spec) && IsShort([c], spec) && arg != "" && NeedsArgument(spec.short, c)
    ensures Scan(Cursor(["-" + ([c] + arg)] + more, ""), spec).events == Scan(Cursor(["-" + [c]] + ([arg] + more), ""), spec).events
  {
    AttachedArgument(c, arg, more, spec);
    SeparateArgument(c, arg, more, spec);
    assert (["-" + ([c] + arg)] + more)[1..] == more;
    assert (["-" + [c]] + ([arg] + more))[2..] == more;
  }

  /** The last argument of all lacks one; a letter that may do without reports none. */
  lemma NoArgument(c: char, more: seq<string>, spec: Spec)
    requires IsShort([c], spec)
    ensures NeedsArgument(spec.short, c) ==> Reports(["-" + [c]] + [], spec, Fault(Lacking(spec.short), c as int), 1)
    ensures MayHaveArgument(spec.short, c) || IsFlag(spec.short, c) ==> Reports(["-" + [c]] + more, spec, Plain(c as int, None), 1)
    ensures c !in spec.short || c == ':' ==> Reports(["-" + [c]] + more, spec, Fault(63, c as int), 1)
  {
    hide IndexOf;
    KindIsTold(spec.short, c);
    if KindOf(spec.short, c) == Required {
      ShortStep([c], [], spec, Fault(Lacking(spec.short), c as int), 1);
    } else if KindOf(spec.short, c) == Unknown {
      ShortStep([c], more, spec, Fault(63, c as int), 1);
    } else {
      ShortStep([c], more, spec, Plain(c as int, None), 1);
    }
  }

  /** What is reported of letters without arguments, one by one: those the optstring does not know are
      faults. */
  function LetterEvents(text: string, short: string): (evs: seq<Event>)
    ensures |evs| == |text|
    ensures forall i :: 0 <= i < |text| ==>
      evs[i] == if text[i] in short && text[i] != ':' then Plain(text[i] as int, None) else Fault(63, text[i] as int)
  {
    seq(|text|, i requires 0 <= i < |text| =>
      if text[i] in short && text[i] != ':' then Plain(text[i] as int, None) else Fault(63, text[i] as int))
  }

  predicate AllLetters(text: string, short: string) {
    forall i :: 0 <= i < |text| ==> IsFlag(short, text[i]) || text[i] !in short || text[i] == ':'
  }

  lemma LetterRead(text: string, more: seq<string>, short: string)
    requires text != "" && (IsFlag(short, text[0]) || text[0] !in short || text[0] == ':')
    ensures DecodeShort(more, text, short) == Decoded(LetterEvents(text, short)[0], if |text| == 1 then 1 else 0, text[1..])
  {
    hide IndexOf;
    KindIsTold(short, text[0]);
  }

  /** "-abc", inside an argument: one event for each letter, in order, and then what `rest` is read as */
  lemma {:induction false} ClusterFrom(elem: string, text: string, more: seq<string>, spec: Spec)
    requires !NonOption(elem) && (elem[1] == '-' ==> spec.longs.None?) && text != "" && AllLetters(text, spec.short)
    ensures var t := Scan(Cursor([elem] + more, text), spec);
            && t.events == LetterEvents(text, spec.short) + Scan(Cursor(more, ""), spec).events
            && t.options == [elem] + Scan(Cursor(more, ""), spec).options
            && t.operands == Scan(Cursor(more, ""), spec).operands
    decreases |text|
  {
    hide DecodeShort, Scan;
    var args := [elem] + more;
    LetterRead(text, more, spec.short);
    assert args[1..] == more && args[0..0] == [] && args[..0] == [] && args[0..1] == [elem] && args[0..] == args;
    ScanUnfolded(Cursor(args, text), spec);
    var evs := LetterEvents(text, spec.short);
    if |text| > 1 {
      ClusterFrom(elem, text[1..], more, spec);
      assert evs == [evs[0]] + LetterEvents(text[1..], spec.short);
      Grouped(evs[0], LetterEvents(text[1..], spec.short), Scan(Cursor(more, ""), spec).events);
    } else {
      assert text[1..] == "" && evs == [evs[0]];
    }
  }

  lemma Grouped(a: Event, b: seq<Event>, c: seq<Event>)
    ensures [a] + (b + c) == ([a] + b) + c
  {
  }

  /** "-abc" */
  lemma Cluster(text: string, more: seq<string>, spec: Spec)
    requires IsShort(text, spec) && AllLetters(text, spec.short)
    ensures var t := Scan(Cursor(["-" + text] + more, ""), spec);
            && t.events == LetterEvents(text, spec.short) + Scan(Cursor(more, ""), spec).events
            && t.options == ["-" + text] + Scan(Cursor(more, ""), spec).options
            && t.operands == Scan(Cursor(more, ""), spec).operands
  {
    hide Scan, DecodeShort;
    var args := ["-" + text] + more;
    OpenedFirst("-" + text, text, more, spec);
    ClusterFrom("-" + text, text, more, spec);
  }

  /** The scan of an argument is the scan from behind its dash. */
  lemma OpenedFirst(elem: string, text: string, more: seq<string>, spec: Spec)
    requires elem == "-" + text && IsShort(text, spec)
    ensures Scan(Cursor([elem] + more, ""), spec) == Scan(Cursor([elem] + more, text), spec)
  {
    hide Decode;
    assert elem[1..] == text && ([elem] + more)[0] == elem;
    ScanUnfolded(Cursor([elem] + more, ""), spec);
    ScanUnfolded(Cursor([elem] + more, text), spec);
  }

  // ----- Long options -----

  /** What is reported of the k-th long option: its value, or that a flag was set to it */
  function LongEvent(p: Long, k: nat, arg: Option<string>): Event {
    match p.flag
    case None => Event(p.val, arg, None, Some(k), None)
    case Some(f) => Event(0, arg, None, Some(k), Some((f, p.val)))
  }

  lemma NameEnds(name: string, rest: string)
    requires '=' !in name && (rest == "" || rest[0] == '=')
    ensures NameEnd(name + rest) == |name| && (name + rest)[..|name|] == name
  {
    hide NameEnd;
    var s := name + rest;
    assert forall i :: 0 <= i < |name| ==> s[i] == name[i];
    assert rest != "" ==> s[|name|] == rest[0];
  }

  lemma LongStep(text: string, more: seq<string>, spec: Spec, ev: Event, n: nat)
    requires spec.longs.Some? && text != "" && 1 <= n <= 1 + |more|
    requires DecodeLong(more, text, spec.short, spec.longs.value) == Decoded(ev, n, "")
    ensures Reports(["--" + text] + more, spec, ev, n)
  {
    hide DecodeLong;
    var args := ["--" + text] + more;
    assert args[0] == "--" + text && args[0][2..] == text && args[1..] == more;
    assert args[..0] == [] && args[0..n] == args[..n];
    ScanUnfolded(Cursor(args, ""), spec);
  }

  /** "--name=value": the text behind the first '=' is the argument; an option without one is a fault. */
  lemma LongWithValue(name: string, value: string, k: nat, more: seq<string>, spec: Spec)
    requires spec.longs.Some? && '=' !in name && MatchLong(spec.longs.value, name) == Found(k)
    ensures var p := spec.longs.value[k];
            Reports(["--" + (name + ("=" + value))] + more, spec,
                    if p.hasArg == 0 then Fault(63, p.val) else LongEvent(p, k, Some(value)), 1)
  {
    hide MatchLong, NameEnd;
    var p := spec.longs.value[k];
    var text := name + ("=" + value);
    NameEnds(name, "=" + value);
    assert text[|name| + 1..] == value;
    LongStep(text, more, spec, if p.hasArg == 0 then Fault(63, p.val) else LongEvent(p, k, Some(value)), 1);
  }

  /** "--name": if an argument is needed, the next one is, whatever it looks like, and it is a fault if
      there is none; else there is no argument. */
  lemma LongAlone(name: string, k: nat, more: seq<string>, spec: Spec)
    requires spec.longs.Some? && '=' !in name && name != "" && MatchLong(spec.longs.value, name) == Found(k)
    ensures var p := spec.longs.value[k];
            if p.hasArg != 1 then Reports(["--" + name] + more, spec, LongEvent(p, k, None), 1)
            else if more != [] then Reports(["--" + name] + more, spec, LongEvent(p, k, Some(more[0])), 2)
            else Reports(["--" + name] + more, spec, Fault(Lacking(spec.short), p.val), 1)
  {
    hide MatchLong, NameEnd;
    var p := spec.longs.value[k];
    NameEnds(name, "");
    assert name + "" == name;
    if p.hasArg != 1 {
      LongStep(name, more, spec, LongEvent(p, k, None), 1);
    } else if more != [] {
      LongStep(name, more, spec, LongEvent(p, k, Some(more[0])), 2);
    } else {
      LongStep(name, more, spec, Fault(Lacking(spec.short), p.val), 1);
    }
  }

  /** Both forms of an argument that is needed are reported alike. */
  lemma BothLongForms(name: string, value: string, k: nat, more: seq<string>, spec: Spec)
    requires spec.longs.Some? && '=' !in name && name != "" && MatchLong(spec.longs.value, name) == Found(k)
    requires spec.longs.value[k].hasArg == 1
    ensures Scan(Cursor(["--" + (name + ("=" + value))] + more, ""), spec).events ==
            Scan(Cursor(["--" + name] + ([value] + more), ""), spec).events
  {
    hide MatchLong, Scan, Step;
    LongWithValue(name, value, k, more, spec);
    LongAlone(name, k, [value] + more, spec);
    assert (["--" + (name + ("=" + value))] + more)[1..] == more;
    assert (["--" + name] + ([value] + more))[2..] == more;
  }

  /** A name that is no option's, or abbreviates several, is a fault. */
  lemma LongUnknown(name: string, rest: string, more: seq<string>, spec: Spec)
    requires spec.longs.Some? && '=' !in name && (rest == "" || rest[0] == '=') && name + rest != ""
    requires !MatchLong(spec.longs.value, name).Found?
    ensures Reports(["--" + (name + rest)] + more, spec, Fault(63, 0), 1)
  {
    hide MatchLong, NameEnd;
    NameEnds(name, rest);
    LongStep(name + rest, more, spec, Fault(63, 0), 1);
  }

  // ----- Operands, and the end -----

  /** What is no option: nothing behind a dash, or no dash */
  predicate IsOperand(x: string) {
    x == "" || x == "-" || x[0] != '-'
  }

  lemma NoArguments(spec: Spec)
    ensures Scan(Cursor([], ""), spec) == Trace([], [], [])
  {
  }

  /** "--": all that follows are operands. */
  lemma DashesEnd(more: seq<string>, spec: Spec)
    ensures Scan(Cursor(["--"] + more, ""), spec) == Trace([], ["--"], more)
  {
    var args := ["--"] + more;
    assert args[..0] + args[1..] == more;
    ScanUnfolded(Cursor(args, ""), spec);
  }

  /** An operand is passed over, ends the scan, or is reported, as the ordering says. */
  lemma OperandRead(x: string, more: seq<string>, spec: Spec)
    requires IsOperand(x)
    ensures var t, rest := Scan(Cursor([x] + more, ""), spec), Scan(Cursor(more, ""), spec);
            match spec.ordering
            case Permute => t == Trace(rest.events, rest.options, [x] + rest.operands)
            case RequireOrder => t == Trace([], [], [x] + more)
            case ReturnInOrder => t == Trace([Plain(1, Some(x))] + rest.events, [x] + rest.options, rest.operands)
  {
    if spec.ordering.Permute? {
      OperandPassed(x, more, spec);
    } else {
      OperandStays(x, more, spec);
    }
  }

  lemma OperandStays(x: string, more: seq<string>, spec: Spec)
    requires IsOperand(x) && !spec.ordering.Permute?
    ensures var t, rest := Scan(Cursor([x] + more, ""), spec), Scan(Cursor(more, ""), spec);
            if spec.ordering.RequireOrder? then t == Trace([], [], [x] + more)
            else t == Trace([Plain(1, Some(x))] + rest.events, [x] + rest.options, rest.operands)
  {
    hide Act, Scan;
    var args := [x] + more;
    assert args[0] == x && args[1..] == more && args[..1] == [x];
    assert Step(Cursor(args, ""), spec) == InPlace(args, spec.ordering);
    ScanUnfolded(Cursor(args, ""), spec);
  }

  lemma OperandPassed(x: string, more: seq<string>, spec: Spec)
    requires IsOperand(x) && spec.ordering.Permute?
    ensures var t, rest := Scan(Cursor([x] + more, ""), spec), Scan(Cursor(more, ""), spec);
            t == Trace(rest.events, rest.options, [x] + rest.operands)
  {
    hide Step, Scan;
    OnePassed(x, more, spec);
    ScanUnfolded(Cursor([x] + more, ""), spec);
    ScanUnfolded(Cursor(more, ""), spec);
    var m := Step(Cursor(more, ""), spec);
    if m.Go? {
      assert ([x] + m.skipped) + Scan(m.rest, spec).operands == [x] + (m.skipped + Scan(m.rest, spec).operands);
    }
  }

  lemma ActPassed(x: string, more: seq<string>, j: nat, next: string, spec: Spec)
    requires j < |more| && !NonOption(more[j]) && next != ""
    ensures var m := Act(more, j, next, spec);
            ([x] + more)[j + 1] == more[j] && Act([x] + more, j + 1, next, spec) == Go(m.ev, [x] + m.skipped, m.used, m.rest)
  {
    hide Decode;
    var args := [x] + more;
    var d := Decode(more[j], more[j + 1..], next, spec);
    OneBefore(x, more, j, j + d.used);
    OneBefore(x, more, j + 1, j + 1);
    OneBefore(x, more, j + d.used, j + d.used);
  }

  lemma OnePassed(x: string, more: seq<string>, spec: Spec)
    requires IsOperand(x) && spec.ordering.Permute?
    ensures match Step(Cursor(more, ""), spec)
            case Stop(options, operands) => Step(Cursor([x] + more, ""), spec) == Stop(options, [x] + operands)
            case Go(ev, skipped, used, rest) => Step(Cursor([x] + more, ""), spec) == Go(ev, [x] + skipped, used, rest)
  {
    hide Act, Opening;
    var args := [x] + more;
    assert args[1..] == more;
    var j := Operands(more);
    assert Operands(args) == j + 1;
    OneBefore(x, more, j, j);
    if j < |more| {
      OneBefore(x, more, j + 1, j + 1);
      if !AtEnd(more, j) {
        ActPassed(x, more, j, Opening(more[j], spec), spec);
      } else {
        Regrouped([x], more[..j], more[j + 1..]);
      }
    }
  }
}
