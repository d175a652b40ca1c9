/** What getopt.c reads out of a command line, said without moving any argument: one step of
    a scan from left to right, and the whole scan. */
module GetoptScan {
  import opened Wrappers

  // ----- Options -----

  const NO_ARGUMENT := 0
  const REQUIRED_ARGUMENT := 1

  /** struct pj_getopt_option; `flag` names the variable that takes the value, if any. */
  datatype Long = Long(name: string, hasArg: nat, flag: Option<nat>, val: int)

  datatype Ordering = Permute | RequireOrder | ReturnInOrder

  /** What becomes of operands before options; the optstring; and the long options if there are any */
  datatype Spec = Spec(ordering: Ordering, short: string, longs: Option<seq<Long>>)

  /** The first character of the optstring may choose another ordering ... */
  function OrderingOf(optstring: string): Ordering {
    if optstring != "" && optstring[0] == '-' then ReturnInOrder
    else if optstring != "" && optstring[0] == '+' then RequireOrder
    else Permute
  }

  /** ... and is no option then: in the first call. */
  function Behind(optstring: string): string {
    if OrderingOf(optstring) == Permute then optstring else optstring[1..]
  }

  /** What the optstring means in the first call, and in those after it, which read it from its
      beginning */
  function FirstSpec(optstring: string, longs: Option<seq<Long>>): Spec {
    Spec(OrderingOf(optstring), Behind(optstring), longs)
  }

  function LaterSpec(optstring: string, longs: Option<seq<Long>>): Spec {
    Spec(OrderingOf(optstring), optstring, longs)
  }

  /** What a call reports: the returned code, pj_optarg, and what it stores in pj_optopt, in
      *longind and through a flag. */
  datatype Event = Event(code: int, optarg: Option<string>, optopt: Option<int>, longind: Option<nat>,
                         store: Option<(nat, int)>)

  const UNKNOWN := '?' as int

  /** The code for a missing argument */
  function Missing(short: string): int {
    if short != "" && short[0] == ':' then ':' as int else UNKNOWN
  }

  function Plain(code: int, optarg: Option<string>): Event {
    Event(code, optarg, None, None, None)
  }

  function Fault(code: int, optopt: int): Event {
    Event(code, None, Some(optopt), None, None)
  }

  /** Neither an option nor "--" */
  predicate NonOption(s: string) {
    |s| < 2 || s[0] != '-'
  }

  // ----- Long options -----

  /** The name in `next` ends at the first '=' or at the end. */
  function NameEnd(next: string): (n: nat)
    ensures n <= |next| && (n < |next| ==> next[n] == '=')
    ensures forall i :: 0 <= i < n ==> next[i] != '='
  {
    if next == "" || next[0] == '=' then 0 else 1 + NameEnd(next[1..])
  }

  datatype Match = Nothing | Ambiguous | Found(index: nat)

  /** The first long option at or behind `i` that is called `name`, or |longs| */
  function FirstExact(longs: seq<Long>, name: string, i: nat): (k: nat)
    requires i <= |longs|
    ensures i <= k <= |longs|
    ensures k < |longs| ==> longs[k].name == name
    ensures forall j :: i <= j < k ==> longs[j].name != name
    decreases |longs| - i
  {
    if i == |longs| || longs[i].name == name then i else FirstExact(longs, name, i + 1)
  }

  /** The first long option at or behind `i` that `name` abbreviates, or |longs| */
  function FirstPartial(longs: seq<Long>, name: string, i: nat): (k: nat)
    requires i <= |longs|
    ensures i <= k <= |longs|
    ensures k < |longs| ==> name <= longs[k].name
    ensures forall j :: i <= j < k ==> !(name <= longs[j].name)
    decreases |longs| - i
  {
    if i == |longs| || name <= longs[i].name then i else FirstPartial(longs, name, i + 1)
  }

  /** An exact match wins; otherwise an abbreviation must be the only one. */
  function MatchLong(longs: seq<Long>, name: string): (m: Match)
    ensures m.Found? ==> m.index < |longs|
  {
    var exact := FirstExact(longs, name, 0);
    var first := FirstPartial(longs, name, 0);
    if exact < |longs| then Found(exact)
    else if first == |longs| then Nothing
    else if FirstPartial(longs, name, first + 1) < |longs| then Ambiguous
    else Found(first)
  }

  /** A name stands for an option if it is the option's own, the first one's of that name, or
      if it is nobody's own and abbreviates that option alone. */
  lemma MatchIsExactOrUnique(longs: seq<Long>, name: string, k: nat)
    requires k < |longs|
    ensures MatchLong(longs, name) == Found(k) <==>
            if exists j :: 0 <= j < |longs| && longs[j].name == name
            then longs[k].name == name && forall j :: 0 <= j < k ==> longs[j].name != name
            else name <= longs[k].name && forall j :: 0 <= j < |longs| && j != k ==> !(name <= longs[j].name)
    ensures MatchLong(longs, name) == Nothing <==> forall j :: 0 <= j < |longs| ==> !(name <= longs[j].name)
  {
    var exact, first := FirstExact(longs, name, 0), FirstPartial(longs, name, 0);
    if first < |longs| {
      var second := FirstPartial(longs, name, first + 1);
      assert second < |longs| ==> name <= longs[second].name;
    }
    if exact < |longs| {
      assert name <= longs[exact].name;
    }
  }

  // ----- Decoding -----

  /** What a call reports, how many arguments it uses up, and what is left of the one it is in */
  datatype Decoded = Decoded(ev: Event, used: nat, next: string)

  function Taken(longs: seq<Long>, k: nat, optarg: Option<string>): Event
    requires k < |longs|
  {
    var p := longs[k];
    match p.flag
    case Some(f) => Event(0, optarg, None, Some(k), Some((f, p.val)))
    case None => Event(p.val, optarg, None, Some(k), None)
  }

  /** `next` is the text behind the two dashes, `after` the arguments behind this one. */
  function DecodeLong(after: seq<string>, next: string, short: string, longs: seq<Long>): Decoded {
    var n := NameEnd(next);
    match MatchLong(longs, next[..n])
    case Found(k) =>
      if n < |next| then
        Decoded(if longs[k].hasArg != NO_ARGUMENT then Taken(longs, k, Some(next[n + 1..])) else Fault(UNKNOWN, longs[k].val), 1, "")
      else if longs[k].hasArg != REQUIRED_ARGUMENT then Decoded(Taken(longs, k, None), 1, "")
      else if after != [] then Decoded(Taken(longs, k, Some(after[0])), 2, "")
      else Decoded(Fault(Missing(short), longs[k].val), 1, "")
    case _ => Decoded(Fault(UNKNOWN, 0), 1, "")
  }

  /** my_index; |s| for the null pointer */
  function IndexOf(s: string, c: char): (i: nat)
    ensures i <= |s| && (i < |s| ==> s[i] == c)
    ensures forall j :: 0 <= j < i ==> s[j] != c
  {
    if s == "" || s[0] == c then 0 else 1 + IndexOf(s[1..], c)
  }

  predicate CharAt(s: string, i: nat, c: char) {
    i < |s| && s[i] == c
  }

  function DecodeShort(after: seq<string>, next: string, short: string): Decoded
    requires next != ""
  {
    var c, rest := next[0], next[1..];
    var i := IndexOf(short, c);
    if i == |short| || c == ':' then Decoded(Fault(UNKNOWN, c as int), if rest == "" then 1 else 0, rest)
    else if !CharAt(short, i + 1, ':') then Decoded(Plain(c as int, None), if rest == "" then 1 else 0, rest)
    else if rest != "" then Decoded(Plain(c as int, Some(rest)), 1, "")
    else if CharAt(short, i + 2, ':') then Decoded(Plain(c as int, None), 1, "")
    else if after != [] then Decoded(Plain(c as int, Some(after[0])), 2, "")
    else Decoded(Fault(Missing(short), c as int), 1, "")
  }

  function Decode(elem: string, after: seq<string>, next: string, spec: Spec): (d: Decoded)
    requires !NonOption(elem) && next != ""
    ensures d.used <= 1 + |after| && (d.next != "" <==> d.used == 0) && |d.next| < |next|
  {
    if spec.longs.Some? && elem[1] == '-' then DecodeLong(after, next, spec.short, spec.longs.value)
    else DecodeShort(after, next, spec.short)
  }

  /** The option read from `next` needs an argument and holds none itself. */
  predicate Wants(elem: string, next: string, spec: Spec)
    requires !NonOption(elem) && next != ""
  {
    if spec.longs.Some? && elem[1] == '-' then WantsLong(next, spec.longs.value) else WantsShort(next, spec.short)
  }

  predicate WantsLong(next: string, longs: seq<Long>) {
    var m := MatchLong(longs, next[..NameEnd(next)]);
    m.Found? && NameEnd(next) == |next| && longs[m.index].hasArg == REQUIRED_ARGUMENT
  }

  predicate WantsShort(next: string, short: string)
    requires next != ""
  {
    var i := IndexOf(short, next[0]);
    |next| == 1 && i < |short| && next[0] != ':' && CharAt(short, i + 1, ':') && !CharAt(short, i + 2, ':')
  }

  // ----- The scan -----

  /** How many arguments at the front are no options */
  function Operands(args: seq<string>): (n: nat)
    ensures n <= |args| && (n < |args| ==> !NonOption(args[n]))
    ensures forall i :: 0 <= i < n ==> NonOption(args[i])
  {
    if args == [] || !NonOption(args[0]) then 0 else 1 + Operands(args[1..])
  }

  /** Where decoding begins in an option: behind the dash, or both dashes of a long option */
  function Opening(elem: string, spec: Spec): (next: string)
    requires !NonOption(elem) && elem != "--"
    ensures next != "" && |next| < |elem|
  {
    if spec.longs.Some? && elem[1] == '-' then elem[2..] else elem[1..]
  }

  /** The arguments not scanned yet, and what is left of the first of them ("": all of it). */
  datatype Cursor = Cursor(args: seq<string>, next: string)

  predicate Ready(cur: Cursor) {
    cur.next != "" ==> cur.args != [] && !NonOption(cur.args[0])
  }

  /** One call: the end, with the arguments that are options and operands; or an event, with
      the operands skipped before it, the arguments it used, and where the scan stands now. */
  datatype Move =
    | Stop(options: seq<string>, operands: seq<string>)
    | Go(ev: Event, skipped: seq<string>, used: seq<string>, rest: Cursor)

  function Act(args: seq<string>, j: nat, next: string, spec: Spec): (m: Move)
    requires j < |args| && !NonOption(args[j]) && next != ""
    ensures m.Go? && m.skipped == args[..j] && args == m.skipped + m.used + m.rest.args && Ready(m.rest)
  {
    var d := Decode(args[j], args[j + 1..], next, spec);
    Go(d.ev, args[..j], args[j..j + d.used], Cursor(args[j + d.used..], d.next))
  }

  /** After `j` operands, nothing is left, or a "--" follows. */
  predicate AtEnd(args: seq<string>, j: nat) {
    j >= |args| || args[j] == "--"
  }

  function EndOptions(args: seq<string>, j: nat): seq<string> {
    if j < |args| then ["--"] else []
  }

  function EndOperands(args: seq<string>, j: nat): seq<string> {
    if j < |args| then args[..j] + args[j + 1..] else args
  }

  /** How many operands are passed over before the next option: all that stand there, or none */
  function Passed(args: seq<string>, ordering: Ordering): (n: nat)
    ensures n <= |args|
    ensures ordering.Permute? && n < |args| ==> !NonOption(args[n])
    ensures forall i :: 0 <= i < n ==> NonOption(args[i])
  {
    if ordering.Permute? then Operands(args) else 0
  }

  /** An operand that is not passed over ends the scan, or is reported like an option. */
  function InPlace(args: seq<string>, ordering: Ordering): (m: Move)
    requires args != [] && NonOption(args[0])
    ensures m.Go? ==> m.skipped == [] && args == m.used + m.rest.args && m.rest.next == "" && m.used == args[..1]
  {
    if ordering.RequireOrder? then Stop([], args)
    else Go(Plain(1, Some(args[0])), [], args[..1], Cursor(args[1..], ""))
  }

  function Step(cur: Cursor, spec: Spec): Move
    requires Ready(cur)
  {
    if cur.next != "" then Act(cur.args, 0, cur.next, spec)
    else
      var j := Passed(cur.args, spec.ordering);
      if AtEnd(cur.args, j) then Stop(EndOptions(cur.args, j), EndOperands(cur.args, j))
      else if NonOption(cur.args[j]) then InPlace(cur.args, spec.ordering)
      else Act(cur.args, j, Opening(cur.args[j], spec), spec)
  }

  /** The events of a whole scan, and the arguments it takes for options and for operands */
  datatype Trace = Trace(events: seq<Event>, options: seq<string>, operands: seq<string>)

  function InFirst(cur: Cursor): nat {
    if cur.next != "" then |cur.next| else if cur.args == [] then 0 else |cur.args[0]|
  }

  lemma StepAdvances(cur: Cursor, spec: Spec)
    requires Ready(cur)
    ensures Step(cur, spec).Go? ==>
              var t := Step(cur, spec).rest; |t.args| < |cur.args| || (|t.args| == |cur.args| && InFirst(t) < InFirst(cur))
  {
  }

  function Scan(cur: Cursor, spec: Spec): Trace
    requires Ready(cur)
    decreases |cur.args|, InFirst(cur)
  {
    StepAdvances(cur, spec);
    match Step(cur, spec)
    case Stop(options, operands) => Trace([], options, operands)
    case Go(ev, skipped, used, next) =>
      var rest := Scan(next, spec);
      Trace([ev] + rest.events, used + rest.options, skipped + rest.operands)
  }

  /** A whole scan, the first call of which may read the optstring otherwise */
  function ScanFrom(cur: Cursor, first: Spec, later: Spec): Trace
    requires Ready(cur)
  {
    match Step(cur, first)
    case Stop(options, operands) => Trace([], options, operands)
    case Go(ev, skipped, used, next) =>
      var rest := Scan(next, later);
      Trace([ev] + rest.events, used + rest.options, skipped + rest.operands)
  }

  lemma ScanIsUniform(cur: Cursor, spec: Spec)
    requires Ready(cur)
    ensures ScanFrom(cur, spec, spec) == Scan(cur, spec)
  {
    StepAdvances(cur, spec);
  }

  // ----- What the scan does to the arguments -----

  /** `s` is `a` and `b` merged, each in its own order. */
  predicate Merged<T(==)>(s: seq<T>, a: seq<T>, b: seq<T>)
    decreases |s|
  {
    if s == [] then a == [] && b == []
    else (a != [] && a[0] == s[0] && Merged(s[1..], a[1..], b)) || (b != [] && b[0] == s[0] && Merged(s[1..], a, b[1..]))
  }

  lemma {:induction false} AllLeft<T>(s: seq<T>)
    ensures Merged(s, s, [])
    decreases |s|
  {
    if s != [] {
      AllLeft(s[1..]);
    }
  }

  lemma {:induction false} AllRight<T>(s: seq<T>)
    ensures Merged(s, [], s)
    decreases |s|
  {
    if s != [] {
      AllRight(s[1..]);
    }
  }

  lemma {:induction false} MergedAppend<T>(s: seq<T>, a: seq<T>, b: seq<T>, s': seq<T>, a': seq<T>, b': seq<T>)
    requires Merged(s, a, b) && Merged(s', a', b')
    ensures Merged(s + s', a + a', b + b')
    decreases |s|
  {
    if s == [] {
      assert s + s' == s' && a + a' == a' && b + b' == b';
    } else {
      assert (s + s')[1..] == s[1..] + s';
      if a != [] && a[0] == s[0] && Merged(s[1..], a[1..], b) {
        MergedAppend(s[1..], a[1..], b, s', a', b');
        assert (a + a')[1..] == a[1..] + a';
      } else {
        MergedAppend(s[1..], a, b[1..], s', a', b');
        assert (b + b')[1..] == b[1..] + b';
      }
    }
  }

  lemma {:induction false} MergedCounts<T>(s: seq<T>, a: seq<T>, b: seq<T>)
    requires Merged(s, a, b)
    ensures multiset(s) == multiset(a) + multiset(b) && |s| == |a| + |b|
    decreases |s|
  {
    if s != [] {
      assert s == [s[0]] + s[1..];
      if a != [] && a[0] == s[0] && Merged(s[1..], a[1..], b) {
        MergedCounts(s[1..], a[1..], b);
        assert a == [a[0]] + a[1..];
      } else {
        MergedCounts(s[1..], a, b[1..]);
        assert b == [b[0]] + b[1..];
      }
    }
  }

  /** Some operands and then some options */
  lemma OperandsFirst<T>(x: seq<T>, y: seq<T>)
    ensures Merged(x + y, y, x)
  {
    AllRight(x);
    AllLeft(y);
    MergedAppend(x, [], x, y, y, []);
    assert [] + y == y && x + [] == x;
  }

  lemma StopSplits(cur: Cursor, spec: Spec)
    requires Ready(cur) && Step(cur, spec).Stop?
    ensures Merged(cur.args, Step(cur, spec).options, Step(cur, spec).operands)
  {
    var args := cur.args;
    var j := Passed(args, spec.ordering);
    AllRight(args);
    if AtEnd(args, j) && j < |args| {
      var back := args[j + 1..];
      OperandsFirst(args[..j], [args[j]]);
      AllRight(back);
      MergedAppend(args[..j] + [args[j]], [args[j]], args[..j], back, [], back);
      assert [args[j]] + [] == [args[j]];
      assert args[..j] + [args[j]] + back == args;
    }
  }

  /** The scan splits the arguments into options, with their arguments and a "--", and
      operands, and keeps the order of both. */
  lemma {:induction false} ScanSplits(cur: Cursor, spec: Spec)
    requires Ready(cur)
    ensures Merged(cur.args, Scan(cur, spec).options, Scan(cur, spec).operands)
    decreases |cur.args|, InFirst(cur)
  {
    StepAdvances(cur, spec);
    match Step(cur, spec)
    case Stop(_, _) => StopSplits(cur, spec);
    case Go(_, skipped, used, next) =>
      var rest := Scan(next, spec);
      ScanSplits(next, spec);
      OperandsFirst(skipped, used);
      MergedAppend(skipped + used, used, skipped, next.args, rest.options, rest.operands);
  }

  lemma SplitsFrom(cur: Cursor, first: Spec, later: Spec)
    requires Ready(cur)
    ensures var t := ScanFrom(cur, first, later); Merged(cur.args, t.options, t.operands)
  {
    match Step(cur, first)
    case Stop(_, _) => StopSplits(cur, first);
    case Go(_, skipped, used, next) =>
      var rest := Scan(next, later);
      ScanSplits(next, later);
      OperandsFirst(skipped, used);
      MergedAppend(skipped + used, used, skipped, next.args, rest.options, rest.operands);
  }

  /** In the other orderings nothing is moved, ... */
  lemma {:induction false} NothingMoves(cur: Cursor, spec: Spec)
    requires Ready(cur) && !spec.ordering.Permute?
    ensures Scan(cur, spec).options + Scan(cur, spec).operands == cur.args
    decreases |cur.args|, InFirst(cur)
  {
    hide Step;
    StepAdvances(cur, spec);
    StepKeeps(cur, spec);
    var m := Step(cur, spec);
    if m.Go? {
      NothingMoves(m.rest, spec);
      var rest := Scan(m.rest, spec);
      assert m.used + rest.options + rest.operands == m.used + (rest.options + rest.operands);
    }
  }

  lemma StepKeeps(cur: Cursor, spec: Spec)
    requires Ready(cur) && !spec.ordering.Permute?
    ensures match Step(cur, spec)
            case Stop(options, operands) => options + operands == cur.args
            case Go(_, skipped, used, next) => Ready(next) && skipped == [] && cur.args == used + next.args
  {
    hide Decode;
  }

  /** ... not by the first call either. */
  lemma NothingMovesFrom(cur: Cursor, first: Spec, later: Spec)
    requires Ready(cur) && !first.ordering.Permute? && !later.ordering.Permute?
    ensures var t := ScanFrom(cur, first, later); t.options + t.operands == cur.args
  {
    hide Step, Scan;
    StepKeeps(cur, first);
    var m := Step(cur, first);
    if m.Go? {
      NothingMoves(m.rest, later);
      var rest := Scan(m.rest, later);
      assert m.used + rest.options + rest.operands == m.used + (rest.options + rest.operands);
    }
  }
}
