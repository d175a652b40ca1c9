/** The nameserver table of the resolver: selection, state changes, reports. */
module Nameservers {
  import opened DnsPacket
  import opened Wrappers

  /** Times are milliseconds: pj_time_val is a normalised (sec, msec) pair, and the
      PJ_TIME_VAL_* comparisons order such pairs as the milliseconds they stand for. */
  type Time = int

  const MAX_NS := 16
  const UINT32 := 0x1_0000_0000

  datatype NsState = Probing | Active | Bad
  datatype Endpoint = Endpoint(host: nat, port: nat)
  datatype Nameserver =
    Nameserver(address: Endpoint, state: NsState, expiry: Time, rtDelay: Time, qid: nat, sentTime: Time)

  datatype Settings =
    Settings(qretrDelay: nat, qretrCount: nat, cacheMaxTtl: nat, goodNsTtl: nat, badNsTtl: nat)

  const RCODE_SERVFAIL := 2
  const RCODE_REFUSED := 5
  const RCODE_NOTAUTH := 9

  // ----- set_nameserver_state -----

  /** How long a state lasts, in seconds of unsigned 32-bit arithmetic. */
  function StateSeconds(s: Settings, state: NsState): nat {
    match state
    case Probing => (((s.qretrCount + 2) * s.qretrDelay) % UINT32) / 1000
    case Active => s.goodNsTtl
    case Bad => s.badNsTtl
  }

  function SetState(s: Settings, n: Nameserver, state: NsState, now: Time): Nameserver {
    n.(state := state, expiry := now + 1000 * StateSeconds(s, state))
  }

  // ----- select_nameservers -----

  /** `i` is the Active server with the least response time, the first one on ties. */
  ghost predicate IsBest(ns: seq<Nameserver>, i: nat) {
    && i < |ns| && ns[i].state.Active?
    && (forall j :: 0 <= j < |ns| && ns[j].state.Active? ==> ns[i].rtDelay <= ns[j].rtDelay)
    && (forall j :: 0 <= j < i && ns[j].state.Active? ==> ns[i].rtDelay < ns[j].rtDelay)
  }

  /** The index the first scan leaves in `min`. */
  function Best(ns: seq<Nameserver>): (b: int)
    ensures b == -1 ==> forall i :: 0 <= i < |ns| ==> !ns[i].state.Active?
    ensures b != -1 ==> 0 <= b && IsBest(ns, b)
  {
    if ns == [] then -1
    else
      var last := |ns| - 1;
      var b := Best(ns[..last]);
      if !ns[last].state.Active? then b
      else if b == -1 || ns[last].rtDelay < ns[b].rtDelay then last
      else b
  }

  /** What the second scan makes of one server: an expired Probing server turns Bad, any
      other expired server is probed again. */
  function Refresh(s: Settings, n: Nameserver, now: Time): Nameserver {
    if n.expiry > now then n
    else if n.state.Probing? then SetState(s, n, Bad, now)
    else SetState(s, n, Probing, now)
  }

  function RefreshAll(s: Settings, ns: seq<Nameserver>, now: Time): (r: seq<Nameserver>)
    ensures |r| == |ns|
    ensures forall i :: 0 <= i < |ns| ==> r[i] == Refresh(s, ns[i], now)
  {
    seq(|ns|, i requires 0 <= i < |ns| => Refresh(s, ns[i], now))
  }

  /** The indexes below `k`, other than `best`, that are Probing in `ns`, in order. */
  function ProbingBelow(ns: seq<Nameserver>, best: int, k: nat): (r: seq<nat>)
    requires k <= |ns|
    ensures |r| <= k && (0 <= best < k ==> |r| < k)
    ensures forall i :: 0 <= i < |r| ==> r[i] < k
    ensures forall i, j :: 0 <= i < j < |r| ==> r[i] < r[j]
    ensures forall i :: i in r <==> 0 <= i < k && i != best && ns[i].state.Probing?
  {
    if k == 0 then []
    else
      var r := ProbingBelow(ns, best, k - 1);
      if k - 1 != best && ns[k - 1].state.Probing? then r + [k - 1] else r
  }

  /** The servers a query goes to. */
  function Selected(s: Settings, ns: seq<Nameserver>, now: Time): seq<nat> {
    var b := Best(ns);
    (if b == -1 then [] else [b]) + ProbingBelow(RefreshAll(s, ns, now), b, |ns|)
  }

  lemma SelectedMembers(s: Settings, ns: seq<Nameserver>, now: Time, i: nat)
    ensures i in Selected(s, ns, now) <==> i < |ns| && (RefreshAll(s, ns, now)[i].state.Probing? || i == Best(ns))
  {
    hide ProbingBelow, Best, RefreshAll;
    var b := Best(ns);
    var rest := ProbingBelow(RefreshAll(s, ns, now), b, |ns|);
    var r := Selected(s, ns, now);
    if b != -1 {
      assert r[0] == b && r[1..] == rest;
      assert r == [b] + rest;
    } else {
      assert r == rest;
    }
  }

  lemma BestIsUnique(ns: seq<Nameserver>, i: nat)
    ensures IsBest(ns, i) <==> i == Best(ns)
  {
  }

  lemma SelectedOnce(s: Settings, ns: seq<Nameserver>, now: Time)
    ensures var r := Selected(s, ns, now); forall i, j :: 0 <= i < j < |r| ==> r[i] != r[j]
  {
    var b := Best(ns);
    var rest := ProbingBelow(RefreshAll(s, ns, now), b, |ns|);
    assert b !in rest;
  }

  /** A query goes to each server once: to the Active server with least response time, and
      to every server that ends the selection Probing. It goes nowhere exactly when every
      server ends Bad, and every server whose Active or Bad time has run out is probed. */
  lemma SelectionIsRight(s: Settings, ns: seq<Nameserver>, now: Time)
    ensures var r, after := Selected(s, ns, now), RefreshAll(s, ns, now);
            && (forall i, j :: 0 <= i < j < |r| ==> r[i] != r[j])
            && (forall i: nat :: i in r <==> i < |ns| && (after[i].state.Probing? || IsBest(ns, i)))
            && (r == [] <==> forall i :: 0 <= i < |ns| ==> after[i].state.Bad?)
            && (forall i: nat :: i < |ns| && ns[i].expiry <= now && !ns[i].state.Probing?
                                 ==> i in r && after[i].state.Probing?)
  {
    var r, after, b := Selected(s, ns, now), RefreshAll(s, ns, now), Best(ns);
    SelectedOnce(s, ns, now);
    forall i: nat
      ensures i in r <==> i < |ns| && (after[i].state.Probing? || IsBest(ns, i))
    {
      SelectedMembers(s, ns, now, i);
      BestIsUnique(ns, i);
    }
    if r == [] {
      forall i | 0 <= i < |ns| ensures after[i].state.Bad? {
        assert i !in r;
      }
    } else {
      assert r[0] in r;
      assert !after[r[0]].state.Bad?;
    }
  }

  /** Marks the servers a query was sent to, for measuring their response time. */
  function MarkSent(ns: seq<Nameserver>, servers: seq<nat>, qid: nat, now: Time): (r: seq<Nameserver>)
    requires forall i :: 0 <= i < |servers| ==> servers[i] < |ns|
    ensures |r| == |ns|
    ensures forall i :: 0 <= i < |r| ==>
      r[i] == if i in servers && ns[i].qid == 0 then ns[i].(qid := qid, sentTime := now) else ns[i]
  {
    seq(|ns|, i requires 0 <= i < |ns| =>
      if i in servers && ns[i].qid == 0 then ns[i].(qid := qid, sentTime := now) else ns[i])
  }

  // ----- report_nameserver_status -----

  /** A response is bad when it does not parse or has one of three status codes. */
  predicate GoodReport(pkt: Option<Packet>) {
    pkt.Some? && Rcode(pkt.value.flags) !in {RCODE_SERVFAIL, RCODE_REFUSED, RCODE_NOTAUTH}
  }

  function Report(s: Settings, ns: seq<Nameserver>, from: Endpoint, pkt: Option<Packet>, now: Time): (r: seq<Nameserver>)
    ensures |r| == |ns|
  {
    if ns == [] then []
    else if ns[0].address == from then
      var timed :=
        if pkt.Some? && pkt.value.id == ns[0].qid then ns[0].(rtDelay := now - ns[0].sentTime, qid := 0)
        else ns[0];
      [SetState(s, timed, if GoodReport(pkt) then Active else Bad, now)] + ns[1..]
    else [ns[0]] + Report(s, ns[1..], from, pkt, now)
  }

  /** `i` is the first server with the address. */
  ghost predicate IsSender(ns: seq<Nameserver>, from: Endpoint, i: nat) {
    i < |ns| && ns[i].address == from && forall j :: 0 <= j < i ==> ns[j].address != from
  }

  lemma SenderStep(ns: seq<Nameserver>, from: Endpoint, i: nat)
    requires ns != [] && ns[0].address != from && i < |ns|
    ensures IsSender(ns, from, i) <==> i > 0 && IsSender(ns[1..], from, i - 1)
  {
    if i > 0 && IsSender(ns[1..], from, i - 1) {
      forall j | 0 <= j < i ensures ns[j].address != from {
        assert j > 0 ==> ns[j] == ns[1..][j - 1];
      }
    }
    if i > 0 && IsSender(ns, from, i) {
      forall j | 0 <= j < i - 1 ensures ns[1..][j].address != from {
        assert ns[1..][j] == ns[j + 1];
      }
    }
  }

  /** Only the first server with the address of the response is reported on: it is as good as
      the response from now on, for as long as that state lasts, and if it was timing this very
      query, the time it took is its response time and it is free to time another one. */
  lemma {:induction false} ReportIsRight(s: Settings, ns: seq<Nameserver>, from: Endpoint, pkt: Option<Packet>, now: Time, i: nat)
    requires i < |ns|
    ensures var n, r := ns[i], Report(s, ns, from, pkt, now)[i];
            if !IsSender(ns, from, i) then r == n
            else
              && r.address == from && r.state == (if GoodReport(pkt) then Active else Bad)
              && r.expiry == now + 1000 * (if GoodReport(pkt) then s.goodNsTtl else s.badNsTtl)
              && r.sentTime == n.sentTime
              && (if pkt.Some? && pkt.value.id == n.qid then r.rtDelay == now - n.sentTime && r.qid == 0
                  else r.rtDelay == n.rtDelay && r.qid == n.qid)
  {
    if ns[0].address != from {
      SenderStep(ns, from, i);
      if i > 0 {
        ReportIsRight(s, ns[1..], from, pkt, now, i - 1);
      }
    } else if i > 0 {
      assert !IsSender(ns, from, i);
    }
  }

  // ----- The same on the table in place -----

  method FindBest(ns: array<Nameserver>, n: nat) returns (min: int)
    requires n <= ns.Length
    ensures min == Best(ns[..n])
  {
    min := -1;
    for i := 0 to n
      invariant min == Best(ns[..i])
    {
      assert ns[..i + 1][..i] == ns[..i];
      if ns[i].state.Active? && (min == -1 || ns[i].rtDelay < ns[min].rtDelay) {
        min := i;
      }
    }
  }

  /** One turn of the second scan: refreshes server `i`, and says whether to contact it. */
  method Visit(s: Settings, ns: array<Nameserver>, i: nat, now: Time) returns (probing: bool)
    requires i < ns.Length
    modifies ns
    ensures ns[..] == old(ns[..])[i := Refresh(s, old(ns[i]), now)]
    ensures probing == Refresh(s, old(ns[i]), now).state.Probing?
  {
    var server := ns[i];
    if server.expiry <= now {
      if server.state.Probing? {
        ns[i] := SetState(s, server, Bad, now);
        probing := false;
      } else {
        ns[i] := SetState(s, server, Probing, now);
        probing := true;
      }
    } else {
      probing := server.state.Probing?;
    }
  }

  /** The second scan, appending to the first `start` places of `servers`. */
  method Scan(s: Settings, ns: array<Nameserver>, n: nat, now: Time, min: int, servers: array<nat>, start: nat)
    returns (count: nat)
    requires n + start <= ns.Length == servers.Length
    modifies ns, servers
    ensures ns[..n] == RefreshAll(s, old(ns[..n]), now)
    ensures count <= servers.Length && servers[..count] == old(servers[..start]) + ProbingBelow(ns[..n], min, n)
  {
    ghost var before, after := ns[..n], RefreshAll(s, ns[..n], now);
    ghost var first := servers[..start];
    count := start;
    var i := 0;
    while i < n && count < servers.Length
      invariant i <= n && start <= count <= i + start
      invariant forall k :: 0 <= k < i ==> ns[k] == after[k]
      invariant forall k :: i <= k < n ==> ns[k] == before[k]
      invariant servers[..count] == first + ProbingBelow(after, min, i)
    {
      var probing := Visit(s, ns, i, now);
      assert forall k :: 0 <= k < n ==> ns[k] == ns[..][k];
      if probing && i != min {
        servers[count] := i;
        count := count + 1;
      }
      i := i + 1;
    }
    assert ns[..n] == after;
  }

  /** select_nameservers, for a table with room left in it: `servers` has a place for
      every server of the table. */
  method SelectNameservers(s: Settings, ns: array<Nameserver>, n: nat, now: Time, servers: array<nat>) returns (count: nat)
    requires n < ns.Length == servers.Length
    modifies ns, servers
    ensures count <= servers.Length && servers[..count] == Selected(s, old(ns[..n]), now)
    ensures ns[..n] == RefreshAll(s, old(ns[..n]), now)
  {
    var min := FindBest(ns, n);
    count := 0;
    if min != -1 {
      servers[0] := min;
      count := 1;
    }
    count := Scan(s, ns, n, now, min, servers, count);
  }

  /** The loop of transmit_query that notes when each server was first asked. */
  method RecordSent(ns: array<Nameserver>, n: nat, servers: array<nat>, count: nat, qid: nat, now: Time)
    requires n <= ns.Length && count <= servers.Length
    requires forall i :: 0 <= i < count ==> servers[i] < n
    modifies ns
    ensures ns[..n] == MarkSent(old(ns[..n]), servers[..count], qid, now)
  {
    ghost var before := ns[..n];
    for i := 0 to count
      invariant forall k :: 0 <= k < n ==>
        ns[k] == if k in servers[..i] && before[k].qid == 0 then before[k].(qid := qid, sentTime := now) else before[k]
    {
      var k := servers[i];
      assert servers[..i + 1] == servers[..i] + [k];
      if ns[k].qid == 0 {
        ns[k] := ns[k].(qid := qid, sentTime := now);
      }
    }
  }

  /** report_nameserver_status */
  method ReportStatus(s: Settings, ns: array<Nameserver>, n: nat, from: Endpoint, pkt: Option<Packet>, now: Time)
    requires n <= ns.Length
    modifies ns
    ensures ns[..n] == Report(s, old(ns[..n]), from, pkt, now)
  {
    hide Report, SetState;
    ghost var before := ns[..n];
    var i := 0;
    while i < n
      invariant i <= n && ns[..n] == before
      invariant Report(s, before, from, pkt, now) == before[..i] + Report(s, before[i..], from, pkt, now)
    {
      var server := ns[i];
      ReportRound(s, before, i, from, pkt, now);
      if server.address == from {
        if pkt.Some? && pkt.value.id == server.qid {
          server := server.(rtDelay := now - server.sentTime, qid := 0);
        }
        assert ns[..n] == before;
        ns[i] := SetState(s, server, if GoodReport(pkt) then Active else Bad, now);
        UpdatedAt(before, i, ns[i], ns[..n]);
        return;
      }
      i := i + 1;
    }
    ReportNobody(s, before, from, pkt, now);
  }

  lemma UpdatedAt(before: seq<Nameserver>, i: nat, x: Nameserver, after: seq<Nameserver>)
    requires i < |before| == |after| && after[i] == x
    requires forall k :: 0 <= k < |before| && k != i ==> after[k] == before[k]
    ensures after == before[..i] + ([x] + before[i + 1..])
  {
  }

  lemma ReportNobody(s: Settings, ns: seq<Nameserver>, from: Endpoint, pkt: Option<Packet>, now: Time)
    ensures ns[..|ns|] + Report(s, ns[|ns|..], from, pkt, now) == ns
  {
  }

  lemma ReportRound(s: Settings, ns: seq<Nameserver>, i: nat, from: Endpoint, pkt: Option<Packet>, now: Time)
    requires i < |ns|
    ensures var server := ns[i];
            var updated := if pkt.Some? && pkt.value.id == server.qid
                           then server.(rtDelay := now - server.sentTime, qid := 0) else server;
            ns[..i] + Report(s, ns[i..], from, pkt, now) ==
              if server.address == from
              then ns[..i] + ([SetState(s, updated, if GoodReport(pkt) then Active else Bad, now)] + ns[i + 1..])
              else ns[..i + 1] + Report(s, ns[i + 1..], from, pkt, now)
  {
    assert ns[i..][0] == ns[i] && ns[i..][1..] == ns[i + 1..];
    assert ns[..i + 1] == ns[..i] + [ns[i]];
  }
}
