/** How srv_resolver.c chooses among SRV records: by priority, and within a priority by weight
    ("The format of the SRV RR" in RFC 2782). */
module Srv {
  import opened DnsPacket

  const MAX_ADDR := 8

  /** struct srv_target, without the running sum, which is kept beside it while it is used */
  datatype Entry = Entry(target: Name, port: nat, priority: nat, weight: nat)

  // ----- The records -----

  predicate Usable(rr: RR) {
    rr.rtype == TYPE_SRV && rr.rdata.Service? && |rr.rdata.target| <= MAX_HOSTNAME
  }

  function EntryOf(rr: RR): Entry
    requires Usable(rr)
  {
    Entry(rr.rdata.target, rr.rdata.port, rr.rdata.prio, rr.rdata.weight)
  }

  /** The entries of the usable records, in order */
  function Entries(ans: seq<RR>): seq<Entry> {
    if ans == [] then []
    else if Usable(ans[0]) then [EntryOf(ans[0])] + Entries(ans[1..])
    else Entries(ans[1..])
  }

  /** At most the first eight of them */
  function FirstEntries(ans: seq<RR>): (e: seq<Entry>)
    ensures |e| <= MAX_ADDR
  {
    var all := Entries(ans);
    if |all| > MAX_ADDR then all[..MAX_ADDR] else all
  }

  // ----- Election -----

  predicate Sorted(s: seq<Entry>) {
    forall i, j :: 0 <= i < j < |s| ==> s[i].priority <= s[j].priority
  }

  /** How many entries at the front have the first one's priority */
  function GroupSize(s: seq<Entry>): (n: nat)
    requires s != []
    ensures 1 <= n <= |s|
    ensures forall i :: 0 <= i < n ==> s[i].priority == s[0].priority
    ensures n < |s| ==> s[n].priority != s[0].priority
  {
    if |s| == 1 || s[1].priority != s[0].priority then 1 else 1 + GroupSize(s[1..])
  }

  /** The sum of the first `n` weights */
  function RunningSum(g: seq<Entry>, n: nat): nat
    requires n <= |g|
  {
    if n == 0 then 0 else RunningSum(g, n - 1) + g[n - 1].weight
  }

  /** The first entry whose running sum reaches `r` */
  function Pick(g: seq<Entry>, r: nat, from: nat): (j: nat)
    requires from <= |g|
    ensures from <= j <= |g|
    ensures j < |g| ==> RunningSum(g, j + 1) >= r
    ensures forall i :: from < i <= j ==> RunningSum(g, i) < r
    decreases |g| - from
  {
    if from == |g| || RunningSum(g, from + 1) >= r then from else Pick(g, r, from + 1)
  }

  lemma {:induction false} SumsGrow(g: seq<Entry>, i: nat, j: nat)
    requires i <= j <= |g|
    ensures RunningSum(g, i) <= RunningSum(g, j)
    decreases j
  {
    if i < j {
      SumsGrow(g, i, j - 1);
    }
  }

  /** The draw for a group: any number up to the sum of its weights, inclusive */
  function Draw(g: seq<Entry>, random: nat): nat {
    random % (RunningSum(g, |g|) + 1)
  }

  /** The election always finds an entry. */
  lemma PickFinds(g: seq<Entry>, random: nat)
    requires g != []
    ensures Pick(g, Draw(g, random), 0) < |g|
  {
    assert Draw(g, random) <= RunningSum(g, |g|);
  }

  /** The elected entry of a group; a group of one takes no random number. */
  function Elected(g: seq<Entry>, random: nat): (e: Entry)
    requires g != []
    ensures e in g
  {
    if |g| == 1 then g[0]
    else
      PickFinds(g, random);
      g[Pick(g, Draw(g, random), 0)]
  }

  /** One entry for every group of a sorted list. `rand(k)` is the k-th random number. */
  function Elect(s: seq<Entry>, rand: nat -> nat, k: nat): seq<Entry>
    decreases |s|
  {
    if s == [] then []
    else
      var n := GroupSize(s);
      [Elected(s[..n], rand(k))] + Elect(s[n..], rand, if n > 1 then k + 1 else k)
  }

  // ----- What is elected -----

  predicate HasPriority(s: seq<Entry>, p: nat) {
    exists i :: 0 <= i < |s| && s[i].priority == p
  }

  /** Entries of the list, in strictly increasing priority, one for each priority there is */
  lemma {:induction false} OneForEachPriority(s: seq<Entry>, rand: nat -> nat, k: nat)
    requires Sorted(s)
    ensures var r := Elect(s, rand, k);
            && (forall i, j :: 0 <= i < j < |r| ==> r[i].priority < r[j].priority)
            && (forall e :: e in r ==> e in s)
            && (forall p :: HasPriority(r, p) <==> HasPriority(s, p))
    decreases |s|
  {
    hide Elected, GroupSize, HasPriority, Sorted;
    if s != [] {
      var n := GroupSize(s);
      var e, rest := Elected(s[..n], rand(k)), s[n..];
      var k' := if n > 1 then k + 1 else k;
      var t := Elect(rest, rand, k');
      RestIsHigher(s, n);
      OneForEachPriority(rest, rand, k');
      assert e in s[..n] && e.priority == s[0].priority;
      forall p ensures HasPriority([e] + t, p) <==> HasPriority(s, p) {
        FirstOrRest(e, t, p);
        GroupOrRest(s, n, p);
      }
      forall x | x in t ensures x in s && x.priority > e.priority {
        assert x in rest;
      }
      Ahead(e, t);
    }
  }

  lemma Ahead(e: Entry, t: seq<Entry>)
    requires forall i, j :: 0 <= i < j < |t| ==> t[i].priority < t[j].priority
    requires forall x :: x in t ==> x.priority > e.priority
    ensures var r := [e] + t; forall i, j :: 0 <= i < j < |r| ==> r[i].priority < r[j].priority
  {
  }

  lemma RestIsHigher(s: seq<Entry>, n: nat)
    requires Sorted(s) && s != [] && n == GroupSize(s)
    ensures Sorted(s[n..]) && forall x :: x in s[n..] ==> x.priority > s[0].priority
  {
    forall i | n <= i < |s| ensures s[i].priority > s[0].priority {
      assert s[n].priority > s[0].priority;
    }
  }

  lemma FirstOrRest(e: Entry, t: seq<Entry>, p: nat)
    ensures HasPriority([e] + t, p) <==> e.priority == p || HasPriority(t, p)
  {
    var r := [e] + t;
    if e.priority == p {
      assert r[0].priority == p;
    }
    if HasPriority(t, p) {
      var i :| 0 <= i < |t| && t[i].priority == p;
      assert r[i + 1].priority == p;
    }
  }

  lemma GroupOrRest(s: seq<Entry>, n: nat, p: nat)
    requires s != [] && n == GroupSize(s)
    ensures HasPriority(s, p) <==> s[0].priority == p || HasPriority(s[n..], p)
  {
    hide GroupSize;
    if HasPriority(s[n..], p) {
      var i :| 0 <= i < |s[n..]| && s[n..][i].priority == p;
      assert s[n + i].priority == p;
    }
    if HasPriority(s, p) {
      var i :| 0 <= i < |s| && s[i].priority == p;
      if i >= n {
        assert s[n..][i - n].priority == p;
      }
    }
  }

  // ----- How often an entry is elected -----

  /** The draws that elect entry `j`, out of the sum of the weights plus one */
  function Draws(g: seq<Entry>, j: nat): set<nat> {
    set r: nat | 0 <= r <= RunningSum(g, |g|) && Pick(g, r, 0) == j
  }

  lemma PickedExactly(g: seq<Entry>, j: nat, r: nat)
    requires j < |g| && r <= RunningSum(g, |g|)
    ensures Pick(g, r, 0) == j <==> (if j == 0 then 0 else RunningSum(g, j) + 1) <= r <= RunningSum(g, j + 1)
  {
    var p := Pick(g, r, 0);
    if j > 0 && p > j {
      assert RunningSum(g, j + 1) < r;
    }
    if p < j {
      SumsGrow(g, p + 1, j);
    }
    if p == j && j > 0 {
      assert RunningSum(g, j) < r;
    }
  }

  /** The numbers from `lo` up to `hi`, exclusive */
  function Interval(lo: nat, hi: nat): (s: set<nat>)
    requires lo <= hi
    ensures forall r: nat :: r in s <==> lo <= r < hi
    ensures |s| == hi - lo
    decreases hi
  {
    if lo == hi then {} else Interval(lo, hi - 1) + {hi - 1}
  }

  /** An entry is elected by as many draws as its weight says, the first one by one more. */
  lemma ElectedByWeight(g: seq<Entry>, j: nat)
    requires j < |g|
    ensures |Draws(g, j)| == g[j].weight + (if j == 0 then 1 else 0)
  {
    var lo := if j == 0 then 0 else RunningSum(g, j) + 1;
    SumsGrow(g, j + 1, |g|);
    forall r: nat ensures r in Draws(g, j) <==> r in Interval(lo, RunningSum(g, j + 1) + 1) {
      if r <= RunningSum(g, |g|) {
        PickedExactly(g, j, r);
      }
    }
    assert Draws(g, j) == Interval(lo, RunningSum(g, j + 1) + 1);
  }

  // ----- The answer the entries come from -----

  /** An SRV record (type 33) with a target of at most 128 bytes */
  predicate IsService(rr: RR) {
    rr.rtype == 33 && rr.rdata.Service? && |rr.rdata.target| <= 128
  }

  /** How many of the first `i` records are services */
  function Services(ans: seq<RR>, i: nat): nat
    requires i <= |ans|
  {
    if i == 0 then 0 else Services(ans, i - 1) + (if IsService(ans[i - 1]) then 1 else 0)
  }

  /** One of the first eight services of the answer */
  predicate IsCandidate(ans: seq<RR>, i: nat) {
    i < |ans| && IsService(ans[i]) && Services(ans, i) < 8
  }

  predicate Describes(e: Entry, rr: RR) {
    && rr.rdata.Service? && e.target == rr.rdata.target && e.port == rr.rdata.port
    && e.priority == rr.rdata.prio && e.weight == rr.rdata.weight
  }

  lemma {:induction false} EntriesAre(ans: seq<RR>, n: nat)
    requires n <= |ans|
    ensures |Entries(ans[..n])| == Services(ans, n)
    ensures n > 0 ==> Entries(ans[..n]) == Entries(ans[..n - 1]) + (if IsService(ans[n - 1]) then [EntryOf(ans[n - 1])] else [])
    decreases n
  {
    if n > 0 {
      EntriesAre(ans, n - 1);
      assert ans[..n] == ans[..n - 1] + [ans[n - 1]];
      EntriesAppend(ans[..n - 1], ans[n - 1]);
    } else {
      assert ans[..0] == [];
    }
  }

  lemma {:induction false} EntriesAppend(ans: seq<RR>, rr: RR)
    ensures Entries(ans + [rr]) == Entries(ans) + (if IsService(rr) then [EntryOf(rr)] else [])
    decreases |ans|
  {
    var all := ans + [rr];
    if ans == [] {
      assert all[1..] == [];
    } else {
      assert all[1..] == ans[1..] + [rr];
      EntriesAppend(ans[1..], rr);
    }
  }

  lemma {:induction false} CandidateAt(ans: seq<RR>, n: nat, i: nat)
    requires i < n <= |ans| && IsService(ans[i])
    ensures Services(ans, i) < |Entries(ans[..n])| && Describes(Entries(ans[..n])[Services(ans, i)], ans[i])
    decreases n
  {
    hide Entries;
    EntriesAre(ans, n);
    EntriesAre(ans, n - 1);
    if i < n - 1 {
      CandidateAt(ans, n - 1, i);
    }
  }

  lemma {:induction false} CandidateOf(ans: seq<RR>, n: nat, k: nat) returns (i: nat)
    requires n <= |ans| && k < |Entries(ans[..n])|
    ensures i < n && IsService(ans[i]) && Services(ans, i) == k && Describes(Entries(ans[..n])[k], ans[i])
    decreases n
  {
    hide Entries;
    EntriesAre(ans, n);
    assert n > 0;
    EntriesAre(ans, n - 1);
    if k < |Entries(ans[..n - 1])| {
      i := CandidateOf(ans, n - 1, k);
    } else {
      i := n - 1;
    }
  }

  /** The entry describes the `k`-th of the first eight services. */
  ghost predicate HasRecord(ans: seq<RR>, e: Entry, k: nat) {
    exists i: nat :: IsCandidate(ans, i) && Services(ans, i) == k && Describes(e, ans[i])
  }

  /** The entries are the first eight services, one for one and in order. */
  lemma EntriesOfAnswer(ans: seq<RR>)
    ensures forall i: nat :: IsCandidate(ans, i) ==>
              Services(ans, i) < |FirstEntries(ans)| && Describes(FirstEntries(ans)[Services(ans, i)], ans[i])
    ensures forall k: nat :: k < |FirstEntries(ans)| ==> HasRecord(ans, FirstEntries(ans)[k], k)
  {
    hide Entries, Describes;
    assert ans[..|ans|] == ans;
    forall i: nat | IsCandidate(ans, i)
      ensures Services(ans, i) < |FirstEntries(ans)| && Describes(FirstEntries(ans)[Services(ans, i)], ans[i])
    {
      CandidateAt(ans, |ans|, i);
    }
    forall k: nat | k < |FirstEntries(ans)|
      ensures HasRecord(ans, FirstEntries(ans)[k], k)
    {
      var i := CandidateOf(ans, |ans|, k);
      assert FirstEntries(ans)[k] == Entries(ans)[k] && IsCandidate(ans, i);
    }
  }

  /** The entries `r` are records of the answer, the only ones of their priority, in increasing
      priority, and every priority of its first eight services is there. */
  ghost predicate ChosenFrom(r: seq<Entry>, ans: seq<RR>) {
    && (forall e :: e in r ==> exists i: nat :: IsCandidate(ans, i) && Describes(e, ans[i]))
    && (forall i, j :: 0 <= i < j < |r| ==> r[i].priority < r[j].priority)
    && (forall i: nat :: IsCandidate(ans, i) ==> exists k :: 0 <= k < |r| && r[k].priority == ans[i].rdata.prio)
  }

  lemma ChosenFromAnswer(r: seq<Entry>, ans: seq<RR>)
    requires OnePerPriority(r, FirstEntries(ans))
    ensures ChosenFrom(r, ans)
  {
    hide FirstEntries, Services;
    EntriesOfAnswer(ans);
    var all := FirstEntries(ans);
    forall e | e in r ensures exists i: nat :: IsCandidate(ans, i) && Describes(e, ans[i]) {
      var k: nat :| k < |all| && all[k] == e;
      assert HasRecord(ans, all[k], k);
    }
    forall i: nat | IsCandidate(ans, i) ensures exists k :: 0 <= k < |r| && r[k].priority == ans[i].rdata.prio {
      assert HasPriority(all, ans[i].rdata.prio);
    }
  }

  /** Whatever group of the entries it is in, the draws that elect an entry are as many as the weight of
      its record, and one more for the first of the group. */
  lemma DrawsOfRecord(ans: seq<RR>, g: seq<Entry>, j: nat) returns (i: nat)
    requires j < |g| && g[j] in FirstEntries(ans)
    ensures IsCandidate(ans, i) && Describes(g[j], ans[i])
    ensures |Draws(g, j)| == ans[i].rdata.weight + (if j == 0 then 1 else 0)
  {
    hide FirstEntries, Services, Draws;
    EntriesOfAnswer(ans);
    ElectedByWeight(g, j);
    var k: nat :| k < |FirstEntries(ans)| && FirstEntries(ans)[k] == g[j];
    assert HasRecord(ans, FirstEntries(ans)[k], k);
    i :| IsCandidate(ans, i) && Describes(g[j], ans[i]);
  }

  // ----- build_server_entries, in place -----

  method Collect(ans: seq<RR>, srv: array<Entry>) returns (cnt: nat)
    requires srv.Length == MAX_ADDR
    modifies srv
    ensures cnt <= srv.Length && srv[..cnt] == FirstEntries(ans)
  {
    cnt := 0;
    var i := 0;
    assert ans[0..] == ans;
    assert [] + Entries(ans) == Entries(ans);
    while i < |ans| && cnt < MAX_ADDR
      invariant 0 <= i <= |ans| && 0 <= cnt <= MAX_ADDR
      invariant srv[..cnt] + Entries(ans[i..]) == Entries(ans)
    {
      EntriesStep(srv[..cnt], ans, i);
      if ans[i].rtype == TYPE_SRV && Usable(ans[i]) {
        srv[cnt] := EntryOf(ans[i]);
        cnt := cnt + 1;
        assert srv[..cnt] == srv[..cnt - 1] + [EntryOf(ans[i])];
      }
      i := i + 1;
    }
    assert i == |ans| ==> Entries(ans[i..]) == [];
    assert srv[..cnt] == (srv[..cnt] + Entries(ans[i..]))[..cnt];
  }

  lemma EntriesStep(front: seq<Entry>, ans: seq<RR>, i: nat)
    requires i < |ans|
    ensures front + Entries(ans[i..]) ==
            (if Usable(ans[i]) then front + [EntryOf(ans[i])] else front) + Entries(ans[i + 1..])
  {
    assert ans[i..][0] == ans[i] && ans[i..][1..] == ans[i + 1..];
    if Usable(ans[i]) {
      assert front + ([EntryOf(ans[i])] + Entries(ans[i + 1..])) == (front + [EntryOf(ans[i])]) + Entries(ans[i + 1..]);
    }
  }

  function Swapped(s: seq<Entry>, i: nat, j: nat): (t: seq<Entry>)
    requires i < |s| && j < |s|
    ensures |t| == |s| && multiset(t) == multiset(s)
  {
    SwapKeeps(s, i, j);
    s[i := s[j]][j := s[i]]
  }

  lemma SwapKeeps(s: seq<Entry>, i: nat, j: nat)
    requires i < |s| && j < |s|
    ensures multiset(s[i := s[j]][j := s[i]]) == multiset(s)
  {
  }

  /** The first place of the lowest priority behind `i` */
  method FindLowest(srv: array<Entry>, i: nat, cnt: nat) returns (min: nat)
    requires i < cnt <= srv.Length
    ensures i <= min < cnt && forall k :: i <= k < cnt ==> srv[min].priority <= srv[k].priority
  {
    min := i;
    for j := i + 1 to cnt
      invariant i <= min < j && forall k :: i <= k < j ==> srv[min].priority <= srv[k].priority
    {
      if srv[j].priority < srv[min].priority {
        min := j;
      }
    }
  }

  /** The entries up to `i` are in order, and none behind them is lower. */
  predicate SortedUpTo(s: seq<Entry>, i: nat)
    requires i <= |s|
  {
    forall j, k :: 0 <= j < i && j < k < |s| ==> s[j].priority <= s[k].priority
  }

  lemma OneMoreSorted(s: seq<Entry>, i: nat, min: nat)
    requires i <= min < |s| && SortedUpTo(s, i) && forall k :: i <= k < |s| ==> s[min].priority <= s[k].priority
    ensures SortedUpTo(Swapped(s, i, min), i + 1)
  {
  }

  /** The first pass: a selection sort */
  method SortByPriority(srv: array<Entry>, cnt: nat)
    requires 1 <= cnt <= srv.Length
    modifies srv
    ensures Sorted(srv[..cnt]) && multiset(srv[..cnt]) == multiset(old(srv[..cnt]))
  {
    for i := 0 to cnt - 1
      invariant SortedUpTo(srv[..cnt], i)
      invariant multiset(srv[..cnt]) == multiset(old(srv[..cnt]))
    {
      var min := FindLowest(srv, i, cnt);
      OneMoreSorted(srv[..cnt], i, min);
      SwapEntries(srv, cnt, i, min);
    }
  }

  method SwapEntries(srv: array<Entry>, ghost cnt: nat, i: nat, j: nat)
    requires i < cnt <= srv.Length && j < cnt
    modifies srv
    ensures srv[..cnt] == Swapped(old(srv[..cnt]), i, j)
  {
    srv[i], srv[j] := srv[j], srv[i];
  }

  /** pj_array_erase */
  method EraseAt(srv: array<Entry>, cnt: nat, pos: nat)
    requires pos < cnt <= srv.Length
    modifies srv
    ensures srv[..cnt - 1] == old(srv[..pos] + srv[pos + 1..cnt])
  {
    for k := pos to cnt - 1
      invariant forall m :: 0 <= m < pos ==> srv[m] == old(srv[m])
      invariant forall m :: pos <= m < k ==> srv[m] == old(srv[m + 1])
      invariant forall m :: k <= m < cnt ==> srv[m] == old(srv[m])
    {
      srv[k] := srv[k + 1];
    }
  }

  /** The running sums of the group that begins at `i`, and its size */
  method SumWeights(srv: array<Entry>, i: nat, cnt: nat, sums: array<nat>) returns (count: nat, sum: nat)
    requires i < cnt <= srv.Length == sums.Length
    modifies sums
    ensures count == GroupSize(srv[i..cnt]) && i + count <= cnt
    ensures sum == RunningSum(srv[i..cnt][..count], count)
    ensures forall k :: i <= k < i + count ==> sums[k] == RunningSum(srv[i..cnt][..count], k - i + 1)
  {
    hide RunningSum, GroupSize;
    count, sum := 1, srv[i].weight;
    sums[i] := sum;
    ghost var s := srv[i..cnt];
    SumOfOne(s);
    while i + count < cnt && srv[i + count].priority == srv[i].priority
      invariant 1 <= count && i + count <= cnt && srv[i..cnt] == s
      invariant sum == RunningSum(s, count)
      invariant forall m :: 0 <= m < count ==> s[m].priority == s[0].priority
      invariant forall k :: i <= k < i + count ==> sums[k] == RunningSum(s, k - i + 1)
    {
      assert s[count] == srv[i + count];
      SumOfMore(s, count);
      sum := sum + srv[i + count].weight;
      sums[i + count] := sum;
      count := count + 1;
    }
    GroupIs(s, count);
    SumOfPrefix(s, count, count);
    forall k | i <= k < i + count ensures sums[k] == RunningSum(s[..count], k - i + 1) {
      SumOfPrefix(s, count, k - i + 1);
    }
  }

  lemma SumOfOne(s: seq<Entry>)
    requires s != []
    ensures RunningSum(s, 1) == s[0].weight
  {
    assert RunningSum(s, 0) == 0;
  }

  lemma SumOfMore(s: seq<Entry>, n: nat)
    requires n < |s|
    ensures RunningSum(s, n + 1) == RunningSum(s, n) + s[n].weight
  {
  }

  lemma {:induction false} GroupIs(s: seq<Entry>, n: nat)
    requires 1 <= n <= |s| && (forall i :: 0 <= i < n ==> s[i].priority == s[0].priority)
    requires n < |s| ==> s[n].priority != s[0].priority
    ensures GroupSize(s) == n
  {
  }

  lemma {:induction false} SumOfPrefix(s: seq<Entry>, n: nat, m: nat)
    requires m <= n <= |s|
    ensures RunningSum(s[..n], m) == RunningSum(s, m)
    decreases m
  {
    if m > 0 {
      SumOfPrefix(s, n, m - 1);
    }
  }

  /** One round of the second pass: the elected entry comes to `i`, the rest of its group goes. */
  method ElectAt(srv: array<Entry>, i: nat, cnt: nat, sums: array<nat>, random: nat) returns (newCnt: nat, drawn: bool)
    requires i < cnt <= srv.Length == sums.Length
    modifies srv, sums
    ensures var s := old(srv[i..cnt]);
            var n := GroupSize(s);
            && drawn == (n > 1) && newCnt == cnt - (n - 1)
            && srv[..newCnt] == old(srv[..i]) + ([Elected(s[..n], random)] + s[n..])
  {
    hide Pick, RunningSum, GroupSize, Elected;
    var count, sum := SumWeights(srv, i, cnt, sums);
    newCnt, drawn := cnt - (count - 1), count > 1;
    assert srv[i..cnt][count..] == srv[i + count..cnt];
    if count > 1 {
      var j := FindElected(srv, i, cnt, count, sums, sum, random);
      PutInFront(srv, i, cnt, count, j);
    } else {
      ElectedAlone(srv[i..cnt], random);
      assert srv[..cnt] == srv[..i] + srv[i..cnt];
    }
  }

  method FindElected(srv: array<Entry>, i: nat, cnt: nat, count: nat, sums: array<nat>, sum: nat, random: nat)
    returns (j: nat)
    requires 1 < count && i + count <= cnt <= srv.Length == sums.Length
    requires sum == RunningSum(srv[i..cnt][..count], count)
    requires forall k :: i <= k < i + count ==> sums[k] == RunningSum(srv[i..cnt][..count], k - i + 1)
    ensures i <= j < i + count && srv[j] == Elected(srv[i..cnt][..count], random)
  {
    hide Pick, RunningSum, Elected;
    ghost var g := srv[i..cnt][..count];
    PickFinds(g, random);
    j := FindReached(srv, i, count, sums, random % (sum + 1), g);
    ElectedAt(g, random, j - i, sum);
    assert srv[j] == g[j - i];
  }

  lemma ElectedAlone(s: seq<Entry>, random: nat)
    requires s != []
    ensures [Elected(s[..1], random)] + s[1..] == s
  {
  }

  lemma ElectedAt(g: seq<Entry>, random: nat, k: nat, sum: nat)
    requires |g| > 1 && sum == RunningSum(g, |g|) && k == Pick(g, random % (sum + 1), 0) < |g|
    ensures Elected(g, random) == g[k]
  {
    hide Pick, RunningSum;
  }

  lemma Rejoined(t: seq<Entry>, i: nat)
    requires i < |t|
    ensures t[..i] + ([t[i]] + t[i + 1..]) == t
  {
  }

  /** The loop that looks for the first running sum that reaches the draw */
  method FindReached(srv: array<Entry>, i: nat, count: nat, sums: array<nat>, r: nat, ghost g: seq<Entry>) returns (j: nat)
    requires i + count <= srv.Length == sums.Length && |g| == count && Pick(g, r, 0) < count
    requires forall k :: i <= k < i + count ==> sums[k] == RunningSum(g, k - i + 1)
    ensures j == i + Pick(g, r, 0)
  {
    j := i;
    while j < i + count
      invariant i <= j <= i + count && Pick(g, r, 0) == Pick(g, r, j - i)
    {
      if sums[j] >= r {
        return;
      }
      j := j + 1;
    }
  }

  /** Swap the elected entry to the front of its group, and erase the others one by one. */
  method PutInFront(srv: array<Entry>, i: nat, cnt: nat, count: nat, j: nat)
    requires i + count <= cnt <= srv.Length && i <= j < i + count
    modifies srv
    ensures srv[..cnt - (count - 1)] == old(srv[..i]) + (old([srv[j]]) + old(srv[i + count..cnt]))
  {
    srv[i], srv[j] := srv[j], srv[i];
    assert srv[..i] == old(srv[..i]) && srv[i + count..cnt] == old(srv[i + count..cnt]);
    EraseRest(srv, i, cnt, count);
  }

  method EraseRest(srv: array<Entry>, i: nat, cnt: nat, count: nat)
    requires 1 <= count && i + count <= cnt <= srv.Length
    modifies srv
    ensures srv[..cnt - (count - 1)] == old(srv[..i]) + (old([srv[i]]) + old(srv[i + count..cnt]))
  {
    ghost var all := srv[..cnt];
    var left, end := count, cnt;
    while left > 1
      invariant 1 <= left <= count && end == cnt - (count - left)
      invariant srv[..end][..i + 1] == all[..i + 1] && srv[..end][i + left..] == all[i + count..]
    {
      Erased(srv[..end], i + 1, i + left);
      EraseAt(srv, end, i + 1);
      left := left - 1;
      end := end - 1;
    }
    FrontKept(srv[..end], all, i);
    Rejoined(srv[..end], i);
  }

  lemma FrontKept(s: seq<Entry>, t: seq<Entry>, i: nat)
    requires i < |s| && i < |t| && s[..i + 1] == t[..i + 1]
    ensures s[..i] == t[..i] && s[i] == t[i]
  {
    assert s[..i] == s[..i + 1][..i] && s[i] == s[..i + 1][i];
  }

  lemma Erased(s: seq<Entry>, pos: nat, q: nat)
    requires pos < q <= |s|
    ensures var t := s[..pos] + s[pos + 1..]; t[..pos] == s[..pos] && t[q - 1..] == s[q..]
  {
  }

  /** The second pass */
  method ElectAll(srv: array<Entry>, cnt: nat, rand: nat -> nat) returns (newCnt: nat)
    requires cnt <= srv.Length
    modifies srv
    ensures newCnt <= srv.Length && srv[..newCnt] == Elect(old(srv[..cnt]), rand, 0)
  {
    hide Elect, Elected, GroupSize;
    var sums := new nat[srv.Length];
    var i, k := 0, 0;
    newCnt := cnt;
    ghost var want := Elect(srv[..cnt], rand, 0);
    while i < newCnt
      invariant 0 <= i <= newCnt <= srv.Length && k >= 0
      invariant want == srv[..i] + Elect(srv[i..newCnt], rand, k)
      decreases newCnt - i
    {
      ghost var s, front := srv[i..newCnt], srv[..i];
      var drawn;
      newCnt, drawn := ElectAt(srv, i, newCnt, sums, rand(k));
      ghost var n := GroupSize(s);
      ElectStep(s, rand, k, front);
      Parts(front, Elected(s[..n], rand(k)), s[n..], srv[..newCnt]);
      assert srv[..i + 1] == srv[..newCnt][..i + 1] && srv[i + 1..newCnt] == srv[..newCnt][i + 1..];
      i := i + 1;
      k := if drawn then k + 1 else k;
    }
    ElectNothing(srv[i..newCnt], rand, k);
  }

  lemma Parts(front: seq<Entry>, e: Entry, rest: seq<Entry>, all: seq<Entry>)
    requires all == front + ([e] + rest)
    ensures all[..|front| + 1] == front + [e] && all[|front| + 1..] == rest
  {
  }

  lemma ElectNothing(none: seq<Entry>, rand: nat -> nat, k: nat)
    requires none == []
    ensures Elect(none, rand, k) == []
  {
  }

  lemma ElectStep(s: seq<Entry>, rand: nat -> nat, k: nat, front: seq<Entry>)
    requires s != []
    ensures var n := GroupSize(s);
            front + Elect(s, rand, k) ==
            (front + [Elected(s[..n], rand(k))]) + Elect(s[n..], rand, if n > 1 then k + 1 else k)
  {
    hide Elected, GroupSize;
    var n := GroupSize(s);
    var e, rest := [Elected(s[..n], rand(k))], Elect(s[n..], rand, if n > 1 then k + 1 else k);
    assert front + (e + rest) == (front + e) + rest;
  }

  /** `r` holds entries of `all`, one for each priority, in increasing priority. */
  ghost predicate OnePerPriority(r: seq<Entry>, all: seq<Entry>) {
    && (forall i, j :: 0 <= i < j < |r| ==> r[i].priority < r[j].priority)
    && (forall e :: e in r ==> e in all)
    && (forall p :: HasPriority(r, p) <==> HasPriority(all, p))
  }

  /** The entries of a response: of the usable records, the first eight, sorted, and of every
      priority the elected one. */
  method BuildServerEntries(ans: seq<RR>, rand: nat -> nat, srv: array<Entry>) returns (cnt: nat)
    requires srv.Length == MAX_ADDR
    modifies srv
    ensures cnt <= srv.Length && OnePerPriority(srv[..cnt], FirstEntries(ans)) && ChosenFrom(srv[..cnt], ans)
    ensures exists s :: Sorted(s) && multiset(s) == multiset(FirstEntries(ans)) && srv[..cnt] == Elect(s, rand, 0)
  {
    hide Elect, Sorted, FirstEntries, OnePerPriority, ChosenFrom;
    cnt := Collect(ans, srv);
    ghost var all := FirstEntries(ans);
    ElectNothing([], rand, 0);
    NothingSorted();
    if cnt == 0 {
      assert srv[..cnt] == [];
      Chosen([], all, rand);
      ChosenFromAnswer([], ans);
      return;
    }
    SortByPriority(srv, cnt);
    ghost var s := srv[..cnt];
    Chosen(s, all, rand);
    cnt := ElectAll(srv, cnt, rand);
    ChosenFromAnswer(srv[..cnt], ans);
  }

  lemma NothingSorted()
    ensures Sorted([])
  {
  }

  lemma Chosen(s: seq<Entry>, all: seq<Entry>, rand: nat -> nat)
    requires Sorted(s) && multiset(s) == multiset(all)
    ensures OnePerPriority(Elect(s, rand, 0), all)
  {
    SamePriorities(s, all);
    OneForEachPriority(s, rand, 0);
  }

  lemma SamePriorities(a: seq<Entry>, b: seq<Entry>)
    requires multiset(a) == multiset(b)
    ensures forall e :: e in a <==> e in b
    ensures forall p :: HasPriority(a, p) <==> HasPriority(b, p)
  {
    forall e ensures e in a <==> e in b {
      assert e in a <==> e in multiset(a);
      assert e in b <==> e in multiset(b);
    }
    forall p ensures HasPriority(a, p) <==> HasPriority(b, p) {
      if HasPriority(a, p) {
        var i :| 0 <= i < |a| && a[i].priority == p;
        assert a[i] in b;
      }
      if HasPriority(b, p) {
        var i :| 0 <= i < |b| && b[i].priority == p;
        assert b[i] in a;
      }
    }
  }
}
