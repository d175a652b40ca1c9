/** getopt.c as it runs: the state between calls, and argv permuted in place. */
module Getopt {
  import opened Sequences
  import opened Wrappers
  import opened GetoptScan

  // ----- exchange -----

  /** Where the element comes from that a rotation of [bottom, top) puts at `k` */
  function Origin(k: int, bottom: int, middle: int, top: int): int {
    if k < bottom || top <= k then k
    else if k < bottom + (top - middle) then k + (middle - bottom)
    else k - (top - middle)
  }

  /** The blocks [bottom, middle) and [middle, top) with the upper one first, the rest as it is */
  function Rotated<T>(s: seq<T>, bottom: nat, middle: nat, top: nat): (r: seq<T>)
    requires bottom <= middle <= top <= |s|
    ensures |r| == |s|
  {
    seq(|s|, k requires 0 <= k < |s| => s[Origin(k, bottom, middle, top)])
  }

  /** A rotation is the old right block followed by the old left block, both in order. */
  lemma RotatedBlocks<T>(s: seq<T>, bottom: nat, middle: nat, top: nat)
    requires bottom <= middle <= top <= |s|
    ensures Rotated(s, bottom, middle, top) == s[..bottom] + s[middle..top] + s[bottom..middle] + s[top..]
  {
  }

  lemma RotatedSlices<T>(s: seq<T>, bottom: nat, middle: nat, top: nat, at: nat)
    requires bottom <= middle <= top <= |s| && at <= bottom
    ensures var r, m := Rotated(s, bottom, middle, top), bottom + (top - middle);
            && r[..at] == s[..at] && r[at..m] == s[at..bottom] + s[middle..top] && r[m..top] == s[bottom..middle]
            && r[m..] == s[bottom..middle] + s[top..] && r[top..] == s[top..]
  {
    hide Rotated;
    RotatedBlocks(s, bottom, middle, top);
    FourBlocks(s[..bottom], s[middle..top], s[bottom..middle], s[top..], at);
    assert s[..bottom][..at] == s[..at] && s[..bottom][at..] == s[at..bottom];
  }

  lemma FourBlocks<T>(a: seq<T>, b: seq<T>, c: seq<T>, d: seq<T>, at: nat)
    requires at <= |a|
    ensures var r, m := a + b + c + d, |a| + |b|;
            && r[..at] == a[..at] && r[at..m] == a[at..] + b && r[m..m + |c|] == c && r[m..] == c + d && r[m + |c|..] == d
  {
  }

  /** Where the element comes from that swapping the `n` elements at `a` and `b` puts at `k` */
  function Partner(k: int, a: int, b: int, n: int): int {
    if a <= k < a + n then k - a + b else if b <= k < b + n then k - b + a else k
  }

  function Swapped<T>(s: seq<T>, a: nat, b: nat, n: nat): (r: seq<T>)
    requires a + n <= b && b + n <= |s|
    ensures |r| == |s|
  {
    seq(|s|, k requires 0 <= k < |s| => s[Partner(k, a, b, n)])
  }

  method SwapBlocks<T>(argv: array<T>, a: nat, b: nat, n: nat)
    requires a + n <= b && b + n <= argv.Length
    modifies argv
    ensures argv[..] == Swapped(old(argv[..]), a, b, n)
  {
    for i := 0 to n
      invariant forall k :: 0 <= k < argv.Length ==> argv[k] == old(argv[Partner(k, a, b, i)])
    {
      argv[a + i], argv[b + i] := argv[b + i], argv[a + i];
    }
  }

  lemma BottomPlaced<T>(s: seq<T>, bottom: nat, middle: nat, top: nat)
    requires bottom <= middle <= top <= |s| && top - middle > middle - bottom
    ensures var t := Swapped(s, bottom, top - (middle - bottom), middle - bottom);
            Rotated(t, bottom, middle, top - (middle - bottom)) == Rotated(s, bottom, middle, top)
  {
    var t := Swapped(s, bottom, top - (middle - bottom), middle - bottom);
    var r, r' := Rotated(s, bottom, middle, top), Rotated(t, bottom, middle, top - (middle - bottom));
    forall k | 0 <= k < |s| ensures r[k] == r'[k] {
      var j := Origin(k, bottom, middle, top - (middle - bottom));
      assert r'[k] == t[j] == s[Partner(j, bottom, top - (middle - bottom), middle - bottom)];
    }
  }

  lemma TopPlaced<T>(s: seq<T>, bottom: nat, middle: nat, top: nat)
    requires bottom <= middle <= top <= |s| && top - middle <= middle - bottom
    ensures var t := Swapped(s, bottom, middle, top - middle);
            Rotated(t, bottom + (top - middle), middle, top) == Rotated(s, bottom, middle, top)
  {
    var t := Swapped(s, bottom, middle, top - middle);
    var r, r' := Rotated(s, bottom, middle, top), Rotated(t, bottom + (top - middle), middle, top);
    forall k | 0 <= k < |s| ensures r[k] == r'[k] {
      var j := Origin(k, bottom + (top - middle), middle, top);
      assert r'[k] == t[j] == s[Partner(j, bottom, middle, top - middle)];
    }
  }

  lemma NothingToRotate<T>(s: seq<T>, bottom: nat, middle: nat, top: nat)
    requires bottom <= middle <= top <= |s| && (bottom == middle || middle == top)
    ensures Rotated(s, bottom, middle, top) == s
  {
  }

  /** The loop of exchange: rotate argv[bottom0..top0) so that what starts at `middle` comes
      first. Each round puts the shorter block into its place. */
  method RotateBlocks<T>(argv: array<T>, bottom0: nat, middle: nat, top0: nat)
    requires bottom0 <= middle <= top0 <= argv.Length
    modifies argv
    ensures argv[..] == Rotated(old(argv[..]), bottom0, middle, top0)
  {
    hide Rotated, Swapped;
    var bottom, top := bottom0, top0;
    while top > middle && middle > bottom
      invariant 0 <= bottom <= middle <= top <= top0
      invariant Rotated(argv[..], bottom, middle, top) == Rotated(old(argv[..]), bottom0, middle, top0)
      decreases top - bottom
    {
      ghost var s := argv[..];
      if top - middle > middle - bottom {
        var len := middle - bottom;
        SwapBlocks(argv, bottom, top - (middle - bottom), len);
        BottomPlaced(s, bottom, middle, top);
        top := top - len;
      } else {
        var len := top - middle;
        SwapBlocks(argv, bottom, middle, len);
        TopPlaced(s, bottom, middle, top);
        bottom := bottom + len;
      }
    }
    NothingToRotate(argv[..], bottom, middle, top);
  }

  // ----- The state between calls -----

  /** argv as the scan sees it: what lies before it, the options and the operands passed so
      far, and where the scan stands. */
  datatype View = View(front: seq<string>, options: seq<string>, operands: seq<string>, cur: Cursor)

  predicate InOrder(s: seq<string>, start: nat, first: nat, last: nat, optind: nat) {
    start <= first <= last <= optind <= |s|
  }

  /** The operands found so far are argv[first..last); around them, from `start` to `optind`,
      are the options. */
  function ViewOf(s: seq<string>, start: nat, first: nat, last: nat, optind: nat, next: string): View
    requires InOrder(s, start, first, last, optind)
  {
    View(s[..start], s[start..first] + s[last..optind], s[first..last], Cursor(s[optind..], next))
  }

  /** The view when some more operands have been found */
  function WithOperands(v: View, j: nat, next: string): View
    requires j <= |v.cur.args|
  {
    View(v.front, v.options, v.operands + v.cur.args[..j], Cursor(v.cur.args[j..], next))
  }

  /** The view when everything has been scanned but a "--" and what is behind it */
  function WithDashes(v: View): View
    requires v.cur.args != []
  {
    View(v.front, v.options + ["--"], v.operands + v.cur.args[1..], Cursor([], ""))
  }

  /** The view when some arguments have been used up for an option */
  function WithOption(v: View, n: nat, next: string): View
    requires n <= |v.cur.args|
  {
    View(v.front, v.options + v.cur.args[..n], v.operands, Cursor(v.cur.args[n..], next))
  }

  lemma ViewCursor(s: seq<string>, start: nat, first: nat, last: nat, optind: nat, next: string)
    requires InOrder(s, start, first, last, optind)
    ensures var cur := ViewOf(s, start, first, last, optind, next).cur;
            && cur.next == next && |cur.args| == |s| - optind
            && (optind < |s| ==> cur.args[0] == s[optind] && cur.args[1..] == s[optind + 1..])
            && (forall k :: 0 <= k < |cur.args| ==> cur.args[k] == s[optind + k])
  {
  }

  lemma ExchangedView(s: seq<string>, start: nat, first: nat, last: nat, optind: nat, next: string)
    requires InOrder(s, start, first, last, optind)
    ensures ViewOf(Rotated(s, first, last, optind), start, first + (optind - last), optind, optind, next) ==
            ViewOf(s, start, first, last, optind, next)
  {
    hide Rotated;
    var t, m := Rotated(s, first, last, optind), first + (optind - last);
    RotatedSlices(s, first, last, optind, start);
    assert t[start..m] + t[optind..optind] == t[start..m];
  }

  lemma NothingBetween(s: seq<string>, start: nat, first: nat, optind: nat, next: string)
    requires InOrder(s, start, first, first, optind)
    ensures ViewOf(s, start, optind, optind, optind, next) == ViewOf(s, start, first, first, optind, next)
  {
    assert s[start..optind] + s[optind..optind] == s[start..first] + s[first..optind];
    assert s[optind..optind] == s[first..first];
  }

  lemma SkippedView(s: seq<string>, start: nat, first: nat, last: nat, i: nat)
    requires InOrder(s, start, first, last, last) && last <= i <= |s|
    ensures ViewOf(s, start, first, i, i, "") == WithOperands(ViewOf(s, start, first, last, last, ""), i - last, "")
  {
    assert s[start..first] + s[i..i] == s[start..first] + s[last..last];
    assert s[first..i] == s[first..last] + s[last..][..i - last];
    assert s[i..] == s[last..][i - last..];
  }

  /** With the "--" before the operands, all that is left is operands. */
  lemma DashesView(s: seq<string>, start: nat, first: nat, last: nat)
    requires InOrder(s, start, first, last, last) && last < |s| && s[last] == "--"
    ensures ViewOf(Rotated(s, first, last, last + 1), start, first + 1, |s|, |s|, "") ==
            WithDashes(ViewOf(s, start, first, last, last, ""))
  {
    hide Rotated;
    var t := Rotated(s, first, last, last + 1);
    RotatedSlices(s, first, last, last + 1, start);
    assert s[last..last + 1] == ["--"] && s[last..last] == [] && s[last + 1..] == s[last..][1..];
    assert t[start..first + 1] + t[|s|..|s|] == s[start..first] + s[last..last] + ["--"];
    assert t[first + 1..|s|] == t[first + 1..] && t[|s|..] == [];
  }

  lemma OptionView(s: seq<string>, start: nat, first: nat, last: nat, optind: nat, next: string, n: nat, next': string)
    requires InOrder(s, start, first, last, optind) && optind + n <= |s|
    ensures ViewOf(s, start, first, last, optind + n, next') ==
            WithOption(ViewOf(s, start, first, last, optind, next), n, next')
  {
    assert s[start..first] + s[last..optind + n] == s[start..first] + s[last..optind] + s[optind..][..n];
    assert s[optind + n..] == s[optind..][n..];
  }

  lemma EndView(s: seq<string>, start: nat, first: nat, last: nat)
    requires InOrder(s, start, first, last, |s|) && last == |s|
    ensures var v := ViewOf(s, start, first, last, |s|, "");
            s == v.front + v.options + v.operands && first == |v.front| + |v.options|
  {
  }

  lemma ReopenedView(s: seq<string>, start: nat, first: nat, last: nat, optind: nat, was: View, j: nat)
    requires InOrder(s, start, first, last, optind) && j <= |was.cur.args|
    requires ViewOf(s, start, first, last, optind, "") == WithOperands(was, j, "")
    ensures optind == |s| <==> j == |was.cur.args|
    ensures j < |was.cur.args| ==> s[optind] == was.cur.args[j] == was.cur.args[j..][0]
    ensures forall next :: ViewOf(s, start, first, last, optind, next) == WithOperands(was, j, next)
  {
    assert s[optind..] == was.cur.args[j..];
    if j < |was.cur.args| {
      assert s[optind..][0] == was.cur.args[j..][0];
    }
  }

  lemma JoinedOperands(options: seq<string>, operands: seq<string>, args: seq<string>, j: nat)
    requires j <= |args|
    ensures j == |args| ==> options + [] == options && operands + args[..j] == operands + args
    ensures j < |args| ==> (operands + args[..j]) + args[j..][1..] == operands + (args[..j] + args[j + 1..])
  {
  }

  lemma NothingPassed(v: View)
    requires v.cur.next == ""
    ensures WithOperands(v, 0, "") == v
  {
    assert v.operands + v.cur.args[..0] == v.operands && v.cur.args[0..] == v.cur.args;
  }

  /** The scan ends at an operand, and no operand has been passed over. */
  lemma OperandEnds(s: seq<string>, start: nat, first: nat, optind: nat)
    requires InOrder(s, start, first, first, optind)
    ensures var v := ViewOf(s, start, first, first, optind, "");
            s == v.front + (v.options + []) + (v.operands + v.cur.args) && optind == |v.front| + |v.options + []|
  {
    assert s[start..first] + s[first..optind] == s[start..optind];
    assert s[first..first] + s[optind..] == s[optind..];
    assert s[..start] + s[start..optind] + s[optind..] == s;
  }

  lemma OptionReady(v: View, spec: Spec)
    requires v.cur.args != [] && !NonOption(v.cur.args[0]) && v.cur.next != ""
    ensures var d := Decode(v.cur.args[0], v.cur.args[1..], v.cur.next, spec);
            d.used <= |v.cur.args| && Ready(WithOption(v, d.used, d.next).cur)
  {
  }

  lemma ActBehind(was: View, j: nat, next: string, spec: Spec)
    requires j < |was.cur.args| && !NonOption(was.cur.args[j]) && next != ""
    ensures var v := WithOperands(was, j, next);
            var d := Decode(v.cur.args[0], v.cur.args[1..], next, spec);
            var m := Act(was.cur.args, j, next, spec);
            && m.ev == d.ev && d.used <= |v.cur.args|
            && WithOption(v, d.used, d.next) == View(was.front, was.options + m.used, was.operands + m.skipped, m.rest)
  {
    var args := was.cur.args;
    var rest := args[j..];
    assert rest[0] == args[j] && rest[1..] == args[j + 1..];
    var d := Decode(args[j], args[j + 1..], next, spec);
    assert rest[..d.used] == args[j..j + d.used] && rest[d.used..] == args[j + d.used..];
  }

  lemma ActHere(was: View, spec: Spec)
    requires Ready(was.cur) && was.cur.next != ""
    ensures var d := Decode(was.cur.args[0], was.cur.args[1..], was.cur.next, spec);
            var m := Act(was.cur.args, 0, was.cur.next, spec);
            && m.ev == d.ev && d.used <= |was.cur.args|
            && WithOption(was, d.used, d.next) == View(was.front, was.options + m.used, was.operands + m.skipped, m.rest)
  {
    assert was.operands + was.cur.args[..0] == was.operands;
  }

  /** The loop over the operands */
  method FirstOption(argv: array<string>, optind: nat) returns (i: nat)
    requires optind <= argv.Length
    ensures optind <= i <= argv.Length && (i < argv.Length ==> !NonOption(argv[i]))
    ensures forall k :: optind <= k < i ==> NonOption(argv[k])
  {
    i := optind;
    while i < argv.Length && NonOption(argv[i])
      invariant optind <= i <= argv.Length
      invariant forall k :: optind <= k < i ==> NonOption(argv[k])
    {
      i := i + 1;
    }
  }

  lemma {:induction false} OperandsAre(args: seq<string>, j: nat)
    requires j <= |args| && (forall i :: 0 <= i < j ==> NonOption(args[i])) && (j < |args| ==> !NonOption(args[j]))
    ensures GetoptScan.Operands(args) == j
  {
  }

  // ----- The loops of the decoder -----

  method EndOfName(next: string) returns (n: nat)
    ensures n == NameEnd(next)
  {
    n := 0;
    while n < |next| && next[n] != '='
      invariant n <= |next| && forall i :: 0 <= i < n ==> next[i] != '='
    {
      n := n + 1;
    }
    NameEndIs(next, n);
  }

  lemma {:induction false} NameEndIs(next: string, n: nat)
    requires n <= |next| && (n < |next| ==> next[n] == '=') && forall i :: 0 <= i < n ==> next[i] != '='
    ensures NameEnd(next) == n
  {
  }

  /** my_index */
  method FindChar(s: string, c: char) returns (i: nat)
    ensures i == IndexOf(s, c)
  {
    i := 0;
    while i < |s| && s[i] != c
      invariant i <= |s| && forall j :: 0 <= j < i ==> s[j] != c
    {
      i := i + 1;
    }
    IndexIs(s, c, i);
  }

  lemma {:induction false} IndexIs(s: string, c: char, i: nat)
    requires i <= |s| && (i < |s| ==> s[i] == c) && forall j :: 0 <= j < i ==> s[j] != c
    ensures IndexOf(s, c) == i
  {
  }

  /** The loop over the long options: it stops at an exact match, and remembers the first
      abbreviated one and whether there was another. */
  method SearchLong(longs: seq<Long>, name: string) returns (m: Match)
    ensures m == MatchLong(longs, name)
  {
    var found, exact, ambiguous := |longs|, false, false;
    var i := 0;
    while i < |longs|
      invariant i <= |longs| && FirstExact(longs, name, 0) == FirstExact(longs, name, i)
      invariant FirstPartial(longs, name, 0) == if found < |longs| then found else FirstPartial(longs, name, i)
      invariant found < i || found == |longs|
      invariant found < |longs| ==>
                  (FirstPartial(longs, name, found + 1) < |longs| <==> ambiguous || FirstPartial(longs, name, i) < |longs|)
      invariant ambiguous ==> found < |longs|
    {
      if name <= longs[i].name {
        if |name| == |longs[i].name| {
          assert longs[i].name == name;
          return Found(i);
        } else if found == |longs| {
          found := i;
        } else {
          ambiguous := true;
        }
      }
      i := i + 1;
    }
    m := if ambiguous then Ambiguous else if found < |longs| then Found(found) else Nothing;
  }

  function AtMost(limit: nat, n: nat): nat {
    if n > limit then limit else n
  }

  class Parser {
    const argv: array<string>
    var optind: nat
    var firstNonopt: nat
    var lastNonopt: nat
    var nextchar: string
    var initialized: bool
    var ordering: Ordering
    var optarg: Option<string>
    var optopt: int
    var longind: Option<nat>
    var flags: map<nat, int>
    /** Where the scan began */
    ghost var start: nat

    /** The next call will set up the state. */
    predicate Fresh()
      reads `optind, `initialized
    {
      optind == 0 || !initialized
    }

    ghost predicate Bounded()
      reads `optind, `firstNonopt, `lastNonopt, `initialized, `ordering, `start, argv
    {
      && 1 <= argv.Length && optind <= argv.Length
      && (!Fresh() ==> 1 <= start && InOrder(argv[..], start, firstNonopt, lastNonopt, optind)
                       && (ordering.Permute? || firstNonopt == lastNonopt))
    }

    ghost function Now(): View
      requires Bounded()
      reads `optind, `firstNonopt, `lastNonopt, `nextchar, `initialized, `ordering, `start, argv
    {
      if Fresh() then
        var s := if optind == 0 then 1 else optind;
        ViewOf(argv[..], s, s, s, s, "")
      else ViewOf(argv[..], start, firstNonopt, lastNonopt, optind, nextchar)
    }

    ghost predicate Valid()
      reads `optind, `firstNonopt, `lastNonopt, `nextchar, `initialized, `ordering, `start, argv
    {
      Bounded() && Ready(Now().cur)
    }

    /** pj_optind may have been set by the caller: 0 or 1 to scan everything. */
    constructor (argv: array<string>, optind: nat)
      requires 1 <= argv.Length && optind <= argv.Length
      ensures Valid() && this.argv == argv && optopt == UNKNOWN && flags == map[]
      ensures var s := if optind == 0 then 1 else optind;
              Now() == View(argv[..s], [], [], Cursor(argv[s..], ""))
    {
      this.argv := argv;
      this.optind := optind;
      firstNonopt, lastNonopt, nextchar, initialized, ordering := 0, 0, "", false, Permute;
      optarg, optopt, longind, flags := None, UNKNOWN, None, map[];
    }

    /** What the optstring means to the next call ... */
    ghost function Meant(optstring: string, longs: Option<seq<Long>>): Spec
      reads `optind, `initialized, `ordering
    {
      if Fresh() then FirstSpec(optstring, longs) else Spec(ordering, optstring, longs)
    }

    /** ... and to those after it */
    ghost function MeantLater(optstring: string, longs: Option<seq<Long>>): Spec
      reads `optind, `initialized, `ordering
    {
      if Fresh() then LaterSpec(optstring, longs) else Spec(ordering, optstring, longs)
    }

    /** _getopt_initialize: the optstring as this call is to read it */
    method Initialize(optstring: string) returns (short: string)
      requires Valid() && Fresh()
      modifies `optind, `firstNonopt, `lastNonopt, `nextchar, `initialized, `ordering, `start
      ensures Valid() && !Fresh() && nextchar == "" && Now() == old(Now())
      ensures ordering == OrderingOf(optstring) && short == Behind(optstring)
    {
      hide ViewOf;
      if optind == 0 {
        optind := 1;
      }
      firstNonopt, lastNonopt := optind, optind;
      nextchar := "";
      short := optstring;
      if optstring != "" && optstring[0] == '-' {
        ordering := ReturnInOrder;
        short := optstring[1..];
      } else if optstring != "" && optstring[0] == '+' {
        ordering := RequireOrder;
        short := optstring[1..];
      } else {
        ordering := Permute;
      }
      initialized := true;
      start := optind;
    }

    /** Bring the options behind the skipped operands in front of them. */
    method Exchange()
      requires firstNonopt <= lastNonopt <= optind <= argv.Length
      modifies `firstNonopt, `lastNonopt, argv
      ensures argv[..] == Rotated(old(argv[..]), old(firstNonopt), old(lastNonopt), optind)
      ensures firstNonopt == old(firstNonopt) + (optind - old(lastNonopt)) && lastNonopt == optind
    {
      RotateBlocks(argv, firstNonopt, lastNonopt, optind);
      firstNonopt := firstNonopt + (optind - lastNonopt);
      lastNonopt := optind;
    }

    /** If options have been passed since the operands were skipped, exchange them. */
    method Collect()
      requires Valid() && !Fresh() && nextchar == ""
      modifies `firstNonopt, `lastNonopt, argv
      ensures Valid() && Now() == old(Now()) && lastNonopt == optind
    {
      hide ViewOf, Rotated;
      ghost var s := argv[..];
      if firstNonopt != lastNonopt && lastNonopt != optind {
        Exchange();
        ExchangedView(s, start, old(firstNonopt), old(lastNonopt), optind, nextchar);
      } else if lastNonopt != optind {
        NothingBetween(s, start, firstNonopt, optind, nextchar);
        firstNonopt := optind;
        lastNonopt := optind;
      }
    }

    /** Pass over the operands at the front of what is not scanned yet. */
    method SkipOperands()
      requires Valid() && !Fresh() && ordering.Permute? && lastNonopt == optind && nextchar == ""
      modifies `optind, `lastNonopt
      ensures Valid() && !Fresh() && lastNonopt == optind
      ensures var was := old(Now()); Now() == WithOperands(was, GetoptScan.Operands(was.cur.args), "")
    {
      hide ViewOf;
      var i := FirstOption(argv, optind);
      ViewCursor(argv[..], start, firstNonopt, optind, optind, "");
      OperandsAre(Now().cur.args, i - optind);
      SkippedView(argv[..], start, firstNonopt, optind, i);
      optind := i;
      lastNonopt := optind;
    }

    /** No option stands between the operands passed over and where the scan is, or no operand has
        been passed over. */
    ghost predicate Settled()
      reads `firstNonopt, `lastNonopt, `optind
    {
      lastNonopt == optind || firstNonopt == lastNonopt
    }

    /** Bring the operands together, and go on to the next option. */
    method Gather()
      requires Valid() && !Fresh() && nextchar == ""
      modifies `optind, `firstNonopt, `lastNonopt, argv
      ensures Valid() && !Fresh() && Settled()
      ensures var was := old(Now()); Now() == WithOperands(was, Passed(was.cur.args, ordering), "")
    {
      hide ViewOf;
      lastNonopt, firstNonopt := AtMost(optind, lastNonopt), AtMost(optind, firstNonopt);
      if ordering.Permute? {
        Collect();
        SkipOperands();
      } else {
        ViewCursor(argv[..], start, firstNonopt, lastNonopt, optind, nextchar);
        NothingPassed(Now());
      }
    }

    /** The "--" ends the options: it is moved in front of the operands, like an option, and
        all that follows is operands. */
    method PassDashes()
      requires Valid() && !Fresh() && Settled() && nextchar == ""
      requires optind < argv.Length && argv[optind] == "--"
      modifies `optind, `firstNonopt, `lastNonopt, argv
      ensures optind == lastNonopt == argv.Length && InOrder(argv[..], start, firstNonopt, lastNonopt, optind)
      ensures ViewOf(argv[..], start, firstNonopt, lastNonopt, optind, "") == WithDashes(old(Now()))
    {
      hide ViewOf, Rotated, WithDashes;
      ghost var s, last := argv[..], optind;
      ghost var first := if firstNonopt == lastNonopt then optind else firstNonopt;
      if firstNonopt == lastNonopt {
        NothingBetween(s, start, firstNonopt, optind, "");
      }
      DashesView(s, start, first, last);
      optind := optind + 1;
      if firstNonopt != lastNonopt && lastNonopt != optind {
        Exchange();
      } else if firstNonopt == lastNonopt {
        NothingToRotate(s, first, last, optind);
        firstNonopt := optind;
      }
      assert argv[..] == Rotated(s, first, last, last + 1) && firstNonopt == first + 1;
      lastNonopt := argv.Length;
      optind := argv.Length;
    }

    /** The options found, then the operands, both in the order they were given; pj_optind is
        the first operand. */
    ghost predicate Finished(front: seq<string>, options: seq<string>, operands: seq<string>)
      reads `optind, argv
    {
      argv[..] == front + options + operands && optind == |front| + |options|
    }

    /** Everything has been scanned, or a "--" ends the options. */
    method Finish()
      requires Valid() && !Fresh() && Settled() && nextchar == ""
      requires optind < argv.Length ==> argv[optind] == "--"
      modifies `optind, `firstNonopt, `lastNonopt, argv
      ensures var v := if old(optind) < argv.Length then WithDashes(old(Now())) else old(Now());
              Finished(v.front, v.options, v.operands)
    {
      hide ViewOf, WithDashes;
      if optind != argv.Length && argv[optind] == "--" {
        PassDashes();
      }
      if firstNonopt == lastNonopt {
        NothingBetween(argv[..], start, firstNonopt, optind, "");
        EndView(argv[..], start, optind, optind);
      } else {
        EndView(argv[..], start, firstNonopt, lastNonopt);
      }
      if firstNonopt != lastNonopt {
        optind := firstNonopt;
      }
    }

    // ----- Decoding -----

    /** What a call leaves in the variables it shares with its caller */
    twostate predicate Reported(ev: Event)
      reads `optarg, `optopt, `longind, `flags
    {
      && optarg == ev.optarg
      && optopt == (match ev.optopt case Some(v) => v case None => old(optopt))
      && longind == (if ev.longind.Some? then ev.longind else old(longind))
      && flags == (match ev.store case Some((f, v)) => old(flags)[f := v] case None => old(flags))
    }

    /** Leave an option with an error code. */
    method Fail(v: int)
      modifies `optopt, `nextchar
      ensures optopt == v && nextchar == ""
    {
      optopt := v;
      nextchar := "";
    }

    method TakeLong(p: Long, k: nat) returns (c: int)
      modifies `nextchar, `longind, `flags
      ensures nextchar == "" && longind == Some(k)
      ensures match p.flag
              case Some(f) => c == 0 && flags == old(flags)[f := p.val]
              case None => c == p.val && flags == old(flags)
    {
      nextchar := "";
      longind := Some(k);
      if p.flag.Some? {
        flags := flags[p.flag.value := p.val];
        return 0;
      }
      c := p.val;
    }

    method DecodeLongOption(spec: Spec) returns (c: int)
      requires optind < argv.Length && spec.longs.Some? && optarg == None
      modifies `optind, `nextchar, `optarg, `optopt, `longind, `flags
      ensures var d := DecodeLong(old(argv[optind + 1..]), old(nextchar), spec.short, spec.longs.value);
              && c == d.ev.code && optind == old(optind) + d.used && nextchar == d.next && Reported(d.ev)
    {
      hide MatchLong, NameEnd;
      var longs := spec.longs.value;
      var nameend := EndOfName(nextchar);
      var found := SearchLong(longs, nextchar[..nameend]);
      optind := optind + 1;
      match found {
        case Found(k) =>
          if nameend < |nextchar| {
            if longs[k].hasArg == NO_ARGUMENT {
              Fail(longs[k].val);
              return UNKNOWN;
            }
            optarg := Some(nextchar[nameend + 1..]);
          } else if longs[k].hasArg == REQUIRED_ARGUMENT {
            if optind == argv.Length {
              Fail(longs[k].val);
              return Missing(spec.short);
            }
            optarg := Some(argv[optind]);
            optind := optind + 1;
          }
          c := TakeLong(longs[k], k);
        case _ =>
          Fail(0);
          c := UNKNOWN;
      }
    }

    method DecodeShortOption(spec: Spec) returns (c: int)
      requires optind < argv.Length && nextchar != "" && optarg == None
      modifies `optind, `nextchar, `optarg, `optopt
      ensures var d := DecodeShort(old(argv[optind + 1..]), old(nextchar), spec.short);
              && c == d.ev.code && optind == old(optind) + d.used && nextchar == d.next && Reported(d.ev)
    {
      hide IndexOf;
      var ch := nextchar[0];
      c := ch as int;
      nextchar := nextchar[1..];
      var temp := FindChar(spec.short, ch);
      if nextchar == "" {
        optind := optind + 1;
      }
      if temp == |spec.short| || ch == ':' {
        optopt := c;
        return UNKNOWN;
      }
      if !CharAt(spec.short, temp + 1, ':') {
        return c;
      }
      if nextchar != "" {
        optarg := Some(nextchar);
        optind := optind + 1;
      } else if !CharAt(spec.short, temp + 2, ':') {
        if optind == argv.Length {
          optopt := c;
          c := Missing(spec.short);
        } else {
          optarg := Some(argv[optind]);
          optind := optind + 1;
        }
      }
      nextchar := "";
    }

    /** Decode the option the scan stands in. */
    method DecodeNext(spec: Spec) returns (c: int)
      requires Valid() && !Fresh() && nextchar != "" && optarg == None
      modifies `optind, `nextchar, `optarg, `optopt, `longind, `flags
      ensures Valid() && !Fresh()
      ensures var was := old(Now());
              var d := Decode(was.cur.args[0], was.cur.args[1..], was.cur.next, spec);
              c == d.ev.code && Reported(d.ev) && Now() == WithOption(was, d.used, d.next)
    {
      hide ViewOf, DecodeLong, DecodeShort;
      ViewCursor(argv[..], start, firstNonopt, lastNonopt, optind, nextchar);
      ghost var d := Decode(argv[optind], argv[optind + 1..], nextchar, spec);
      OptionView(argv[..], start, firstNonopt, lastNonopt, optind, nextchar, d.used, d.next);
      OptionReady(Now(), spec);
      if spec.longs.Some? && argv[optind][1] == '-' {
        c := DecodeLongOption(spec);
      } else {
        c := DecodeShortOption(spec);
      }
    }

    // ----- A call -----

    /** What one step of the scan makes of `was`: at the end, argv and pj_optind say what is an
        operand; else the call reports the event and the scan stands where the step left it. */
    twostate predicate Stepped(was: View, m: Move, c: int)
      reads this, argv
    {
      match m
      case Stop(options, operands) =>
        c == -1 && optarg == None && Finished(was.front, was.options + options, was.operands + operands)
      case Go(ev, skipped, used, rest) =>
        && c == ev.code && Reported(ev) && Valid() && !Fresh()
        && Now() == View(was.front, was.options + used, was.operands + skipped, rest)
    }

    /** An operand that was not passed over ends the scan, or is reported. */
    method TakeOperand() returns (c: int)
      requires Valid() && !Fresh() && !ordering.Permute? && nextchar == "" && optarg == None
      requires optind < argv.Length && NonOption(argv[optind]) && Now().cur.args != [] && argv[optind] == Now().cur.args[0]
      modifies `optind, `optarg
      ensures Stepped(old(Now()), InPlace(old(Now()).cur.args, ordering), c)
    {
      hide ViewOf;
      ViewCursor(argv[..], start, firstNonopt, lastNonopt, optind, "");
      OperandEnds(argv[..], start, firstNonopt, optind);
      OptionView(argv[..], start, firstNonopt, lastNonopt, optind, "", 1, "");
      NothingMore(Now().operands);
      if ordering == RequireOrder {
        return -1;
      }
      optarg := Some(argv[optind]);
      optind := optind + 1;
      c := 1;
    }

    /** One call does what one step of the scan does, on arguments that nobody has moved. */
    method Next(optstring: string, longs: Option<seq<Long>>) returns (c: int)
      requires Valid()
      modifies this, argv
      ensures var m := Step(old(Now()).cur, old(Meant(optstring, longs)));
              Stepped(old(Now()), m, c) && (m.Go? ==> Meant(optstring, longs) == old(MeantLater(optstring, longs)))
    {
      hide ViewOf, Step;
      optarg := None;
      var short := optstring;
      if Fresh() {
        short := Initialize(optstring);
      }
      c := Continue(Spec(ordering, short, longs));
    }

    method Continue(spec: Spec) returns (c: int)
      requires Valid() && !Fresh() && optarg == None && spec.ordering == ordering
      modifies `optind, `firstNonopt, `lastNonopt, `nextchar, `optarg, `optopt, `longind, `flags, argv
      ensures Stepped(old(Now()), Step(old(Now()).cur, spec), c)
    {
      hide ViewOf, Decode, Act, WithOption;
      ViewCursor(argv[..], start, firstNonopt, lastNonopt, optind, nextchar);
      if nextchar == "" {
        c := NextElement(spec);
      } else {
        ActHere(Now(), spec);
        c := DecodeNext(spec);
      }
    }

    /** `j` operands have been passed over since the scan stood as in `was`. */
    ghost predicate Gathered(was: View, j: nat)
      reads `optind, `firstNonopt, `lastNonopt, `nextchar, `initialized, `ordering, `start, argv
    {
      && Valid() && !Fresh() && Settled() && nextchar == "" && was.cur.next == ""
      && j == Passed(was.cur.args, ordering) && Now() == WithOperands(was, j, "")
    }

    /** Go on to the next option, and decode it. At the end, let pj_optind say where the operands begin. */
    method NextElement(spec: Spec) returns (c: int)
      requires Valid() && !Fresh() && nextchar == "" && Now().cur.next == "" && optarg == None && spec.ordering == ordering
      modifies `optind, `firstNonopt, `lastNonopt, `nextchar, `optarg, `optopt, `longind, `flags, argv
      ensures Stepped(old(Now()), Step(old(Now()).cur, spec), c)
    {
      hide ViewOf, Step, WithOperands;
      ghost var was := Now();
      ghost var j := Passed(was.cur.args, ordering);
      Gather();
      ReopenedView(argv[..], start, firstNonopt, lastNonopt, optind, was, j);
      if optind == argv.Length || argv[optind] == "--" {
        StepEnds(was.cur, spec);
        c := StopHere(was, j);
      } else if NonOption(argv[optind]) {
        StepStays(was.cur, spec);
        NothingPassed(was);
        ViewCursor(argv[..], start, firstNonopt, lastNonopt, optind, "");
        c := TakeOperand();
      } else {
        StepActs(was.cur, spec);
        c := DecodeElement(spec, was, j);
      }
    }

    method StopHere(ghost was: View, ghost j: nat) returns (c: int)
      requires Gathered(was, j) && AtEnd(was.cur.args, j) && optarg == None
      modifies `optind, `firstNonopt, `lastNonopt, argv
      ensures Stepped(was, Stop(EndOptions(was.cur.args, j), EndOperands(was.cur.args, j)), c)
    {
      hide ViewOf, WithOperands, WithDashes, EndOptions, EndOperands;
      ReopenedView(argv[..], start, firstNonopt, lastNonopt, optind, was, j);
      EndOfView(was, j);
      Finish();
      c := -1;
    }

    method DecodeElement(spec: Spec, ghost was: View, ghost j: nat) returns (c: int)
      requires Gathered(was, j) && !AtEnd(was.cur.args, j) && !NonOption(was.cur.args[j]) && optarg == None
      modifies `optind, `nextchar, `optarg, `optopt, `longind, `flags
      ensures Stepped(was, Act(was.cur.args, j, Opening(was.cur.args[j], spec), spec), c)
    {
      hide ViewOf, Decode, Opening, Act, WithOption;
      ReopenedView(argv[..], start, firstNonopt, lastNonopt, optind, was, j);
      nextchar := FirstChars(spec);
      ViewCursor(argv[..], start, firstNonopt, lastNonopt, optind, nextchar);
      ActBehind(was, j, nextchar, spec);
      c := DecodeNext(spec);
    }

    /** Skip the initial punctuation. */
    method FirstChars(spec: Spec) returns (next: string)
      requires optind < argv.Length && !NonOption(argv[optind]) && argv[optind] != "--"
      ensures next == Opening(argv[optind], spec) && next != ""
    {
      next := if spec.longs.Some? && argv[optind][1] == '-' then argv[optind][2..] else argv[optind][1..];
    }
  }

  lemma StepEnds(cur: Cursor, spec: Spec)
    requires Ready(cur) && cur.next == "" && AtEnd(cur.args, Passed(cur.args, spec.ordering))
    ensures var j := Passed(cur.args, spec.ordering); Step(cur, spec) == Stop(EndOptions(cur.args, j), EndOperands(cur.args, j))
  {
  }

  lemma StepStays(cur: Cursor, spec: Spec)
    requires Ready(cur) && cur.next == ""
    requires var j := Passed(cur.args, spec.ordering); !AtEnd(cur.args, j) && NonOption(cur.args[j])
    ensures Passed(cur.args, spec.ordering) == 0 && !spec.ordering.Permute? && Step(cur, spec) == InPlace(cur.args, spec.ordering)
  {
    hide InPlace;
  }

  lemma StepActs(cur: Cursor, spec: Spec)
    requires Ready(cur) && cur.next == ""
    requires var j := Passed(cur.args, spec.ordering); !AtEnd(cur.args, j) && !NonOption(cur.args[j])
    ensures var j := Passed(cur.args, spec.ordering); Step(cur, spec) == Act(cur.args, j, Opening(cur.args[j], spec), spec)
  {
    hide Act, Opening;
  }

  /** The view at the end of the scan */
  lemma EndOfView(was: View, j: nat)
    requires j <= |was.cur.args| && AtEnd(was.cur.args, j)
    ensures var v := WithOperands(was, j, "");
            var e := if j < |was.cur.args| then WithDashes(v) else v;
            && e.front == was.front && e.options == was.options + EndOptions(was.cur.args, j)
            && e.operands == was.operands + EndOperands(was.cur.args, j)
  {
    JoinedOperands(was.options, was.operands, was.cur.args, j);
  }

  lemma NothingMore(operands: seq<string>)
    ensures operands + [] == operands
  {
  }

  // ----- All calls up to the first -1 -----

  /** What a caller gets from a call: the code and pj_optarg */
  function Heard(events: seq<Event>): (h: seq<(int, Option<string>)>)
    ensures |h| == |events| && forall i :: 0 <= i < |h| ==> h[i] == (events[i].code, events[i].optarg)
  {
    seq(|events|, i requires 0 <= i < |events| => (events[i].code, events[i].optarg))
  }

  /** No long option returns -1, the code for the end. */
  predicate Distinguishable(longs: Option<seq<Long>>) {
    longs.Some? ==> forall i :: 0 <= i < |longs.value| ==> longs.value[i].val != -1
  }

  lemma LongCodes(after: seq<string>, next: string, short: string, longs: seq<Long>)
    requires forall i :: 0 <= i < |longs| ==> longs[i].val != -1
    ensures DecodeLong(after, next, short, longs).ev.code != -1
  {
  }

  lemma CodesAreNotTheEnd(elem: string, after: seq<string>, next: string, spec: Spec)
    requires !NonOption(elem) && next != "" && Distinguishable(spec.longs)
    ensures Decode(elem, after, next, spec).ev.code != -1
  {
    if spec.longs.Some? {
      LongCodes(after, next, spec.short, spec.longs.value);
    }
  }

  lemma EventsAreNotTheEnd(cur: Cursor, spec: Spec)
    requires Ready(cur) && Distinguishable(spec.longs) && Step(cur, spec).Go?
    ensures Step(cur, spec).ev.code != -1
  {
    hide Decode, Opening;
    var j := if cur.next != "" then 0 else Passed(cur.args, spec.ordering);
    if !NonOption(cur.args[j]) {
      var next := if cur.next != "" then cur.next else Opening(cur.args[j], spec);
      CodesAreNotTheEnd(cur.args[j], cur.args[j + 1..], next, spec);
    }
  }

  /** What has been passed and what the scan will still find make up what it was to find. */
  ghost predicate OnTheWay(was: View, whole: Trace, now: View, rest: Trace, heard: seq<(int, Option<string>)>) {
    && now.front == was.front
    && Heard(whole.events) == heard + Heard(rest.events)
    && was.options + whole.options == now.options + rest.options
    && was.operands + whole.operands == now.operands + rest.operands
  }

  lemma ScanUnfolds(cur: Cursor, first: Spec, later: Spec)
    requires Ready(cur) && Step(cur, first).Go?
    ensures var m := Step(cur, first);
            var rest, after := ScanFrom(cur, first, later), Scan(m.rest, later);
            && Heard(rest.events) == [(m.ev.code, m.ev.optarg)] + Heard(after.events)
            && rest.options == m.used + after.options && rest.operands == m.skipped + after.operands
  {
    hide Step;
  }

  lemma OneStepOn(was: View, whole: Trace, now: View, first: Spec, later: Spec, heard: seq<(int, Option<string>)>)
    requires Ready(now.cur) && Step(now.cur, first).Go?
    requires OnTheWay(was, whole, now, ScanFrom(now.cur, first, later), heard)
    ensures var m := Step(now.cur, first);
            OnTheWay(was, whole, View(now.front, now.options + m.used, now.operands + m.skipped, m.rest),
                     ScanFrom(m.rest, later, later), heard + [(m.ev.code, m.ev.optarg)])
  {
    hide Scan, ScanFrom, Heard, Decode, Opening;
    var m := Step(now.cur, first);
    var after := Scan(m.rest, later);
    ScanUnfolds(now.cur, first, later);
    ScanIsUniform(m.rest, later);
    Regrouped(heard, [(m.ev.code, m.ev.optarg)], Heard(after.events));
    Regrouped(now.options, m.used, after.options);
    Regrouped(now.operands, m.skipped, after.operands);
  }

  lemma ScanFromHere(was: View, whole: Trace)
    ensures OnTheWay(was, whole, was, whole, [])
  {
    hide Heard;
    assert [] + Heard(whole.events) == Heard(whole.events);
  }

  lemma AtTheEnd(was: View, whole: Trace, now: View, first: Spec, later: Spec, heard: seq<(int, Option<string>)>)
    requires Ready(now.cur) && Step(now.cur, first).Stop?
    requires OnTheWay(was, whole, now, ScanFrom(now.cur, first, later), heard)
    ensures var m := Step(now.cur, first);
            && heard == Heard(whole.events)
            && now.options + m.options == was.options + whole.options
            && now.operands + m.operands == was.operands + whole.operands
  {
    assert ScanFrom(now.cur, first, later).events == [];
  }

  lemma EndIsHeard(cur: Cursor, spec: Spec, c: int)
    requires Ready(cur) && Distinguishable(spec.longs) && c == -1
    requires Step(cur, spec).Go? ==> c == Step(cur, spec).ev.code
    ensures Step(cur, spec).Stop?
  {
    if Step(cur, spec).Go? {
      EventsAreNotTheEnd(cur, spec);
    }
  }

  /** Call until -1 comes back: the caller hears what a scan of the arguments in their first
      order finds, and argv ends as the options and then the operands, each in that order. */
  method ScanAll(p: Parser, optstring: string, longs: Option<seq<Long>>) returns (heard: seq<(int, Option<string>)>)
    requires p.Valid() && Distinguishable(longs)
    modifies p, p.argv
    ensures var was := old(p.Now());
            var whole := ScanFrom(was.cur, old(p.Meant(optstring, longs)), old(p.MeantLater(optstring, longs)));
            && heard == Heard(whole.events)
            && p.Finished(was.front, was.options + whole.options, was.operands + whole.operands)
  {
    hide Scan, ScanFrom, Step, ViewOf, Heard;
    heard := [];
    ghost var was, later := p.Now(), p.MeantLater(optstring, longs);
    ghost var whole := ScanFrom(was.cur, p.Meant(optstring, longs), later);
    ScanFromHere(was, whole);
    while true
      invariant p.Valid() && p.MeantLater(optstring, longs) == later
      invariant OnTheWay(was, whole, p.Now(), ScanFrom(p.Now().cur, p.Meant(optstring, longs), later), heard)
      decreases |p.Now().cur.args|, InFirst(p.Now().cur)
    {
      ghost var now, spec := p.Now(), p.Meant(optstring, longs);
      StepAdvances(now.cur, spec);
      var c := p.Next(optstring, longs);
      if c == -1 {
        EndIsHeard(now.cur, spec, c);
        AtTheEnd(was, whole, now, spec, later, heard);
        return;
      }
      OneStepOn(was, whole, now, spec, later, heard);
      heard := heard + [(c, p.optarg)];
    }
  }
}
