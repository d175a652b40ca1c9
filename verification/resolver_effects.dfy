/** What each step of the resolver does, told from the state before it and the times, settings and
    packets at hand. */
module ResolverEffects {
  import opened DnsPacket
  import opened Wrappers
  import opened Nameservers
  import opened ResolverCache
  import opened ResolverModel
  import opened ResolverSafety
  import opened ResolverRuns

  // ----- Sending -----

  /** A server is left out: it has been bad, and not for long enough, or has not answered a probe in
      time. */
  predicate Useless(n: Nameserver, now: Time) {
    (n.state.Bad? && now < n.expiry) || (n.state.Probing? && n.expiry <= now)
  }

  predicate SomeServer(ns: seq<Nameserver>, now: Time) {
    exists i :: 0 <= i < |ns| && !Useless(ns[i], now)
  }

  /** The servers a query goes to: those being probed, and the best of those that answer */
  ghost predicate IsAsked(ns: seq<Nameserver>, i: nat, now: Time) {
    i < |ns| && ((ns[i].state.Probing? && now < ns[i].expiry) || (!ns[i].state.Probing? && ns[i].expiry <= now) || IsBest(ns, i))
  }

  /** When a query is sent out, each server is as it was while its state lasts; then it is probed, for
      the time of all retransmissions, or is bad, if that was its probe. One that is asked, and was
      timing no other query, times this one. */
  ghost predicate Asked(settings: Settings, before: seq<Nameserver>, after: seq<Nameserver>, i: nat, sent: bool, id: nat, now: Time)
    requires i < |before| == |after|
  {
    var n, m := before[i], after[i];
    && m.address == n.address && m.rtDelay == n.rtDelay
    && (if now < n.expiry then m.state == n.state && m.expiry == n.expiry
        else if n.state.Probing? then m.state == Bad && m.expiry == now + 1000 * settings.badNsTtl
        else m.state == Probing && m.expiry == now + (settings.qretrCount + 2) * settings.qretrDelay % 0x1_0000_0000 / 1000 * 1000)
    && (if sent && IsAsked(before, i, now) && n.qid == 0 then m.qid == id && m.sentTime == now
        else m.qid == n.qid && m.sentTime == n.sentTime)
  }

  ghost predicate AllAsked(settings: Settings, before: seq<Nameserver>, after: seq<Nameserver>, sent: bool, id: nat, now: Time) {
    |before| == |after| && forall i :: 0 <= i < |before| ==> Asked(settings, before, after, i, sent, id, now)
  }

  lemma RefreshIsRight(settings: Settings, n: Nameserver, now: Time)
    ensures var m := Refresh(settings, n, now);
            && (m.state.Bad? <==> Useless(n, now))
            && (m.state.Probing? <==> (n.state.Probing? && now < n.expiry) || (!n.state.Probing? && n.expiry <= now))
            && (if now < n.expiry then m == n
                else if n.state.Probing? then m == n.(state := Bad, expiry := now + 1000 * settings.badNsTtl)
                else m == n.(state := Probing,
                             expiry := now + (settings.qretrCount + 2) * settings.qretrDelay % 0x1_0000_0000 / 1000 * 1000))
  {
  }

  /** How a transmission ends, and what it leaves */
  lemma TransmitEffects(s: State, n: nat, now: Time, timerOk: bool)
    requires n < |s.nodes|
    ensures var (status, t) := Transmit(s, n, now, timerOk);
            && (status == NoNameserver <==> s.ns == [])
            && (status == NoWorkingNameserver <==> s.ns != [] && !SomeServer(s.ns, now))
            && (status == TimerFailed <==> SomeServer(s.ns, now) && !timerOk)
            && (status == Success <==> SomeServer(s.ns, now) && timerOk)
            && AllAsked(s.settings, s.ns, t.ns, status == Success, s.nodes[n].id, now)
            && t.nodes == s.nodes[n := s.nodes[n].(armed := t.nodes[n].armed, transmitCnt := t.nodes[n].transmitCnt)]
            && t.nodes[n].armed == (s.nodes[n].armed || SomeServer(s.ns, now))
            && t.nodes[n].transmitCnt == s.nodes[n].transmitCnt + (if status == Success then 1 else 0)
  {
    hide Selected, RefreshAll, MarkSent, IsBest, Refresh, AllAsked, SomeServer, Transmit;
    TransmitOutcome(s, n, now, timerOk);
    ServersLeft(s.settings, s.ns, now);
    ServersAsked(s, n, now, timerOk);
    NodeSent(s, n, now, timerOk);
  }

  lemma NodeSent(s: State, n: nat, now: Time, timerOk: bool)
    requires n < |s.nodes|
    ensures var (status, t) := Transmit(s, n, now, timerOk);
            && t.nodes == s.nodes[n := s.nodes[n].(armed := t.nodes[n].armed, transmitCnt := t.nodes[n].transmitCnt)]
            && t.nodes[n].armed == (s.nodes[n].armed || status == TimerFailed || status == Success)
  {
    hide Selected, RefreshAll, MarkSent;
  }

  lemma ServersLeft(settings: Settings, ns: seq<Nameserver>, now: Time)
    ensures SomeServer(ns, now) <==> exists i :: 0 <= i < |ns| && !RefreshAll(settings, ns, now)[i].state.Bad?
  {
    hide Refresh;
    forall i | 0 <= i < |ns| ensures RefreshAll(settings, ns, now)[i].state.Bad? <==> Useless(ns[i], now) {
      RefreshIsRight(settings, ns[i], now);
    }
  }

  lemma ServersAsked(s: State, n: nat, now: Time, timerOk: bool)
    requires n < |s.nodes|
    ensures var (status, t) := Transmit(s, n, now, timerOk);
            AllAsked(s.settings, s.ns, t.ns, status == Success, s.nodes[n].id, now)
  {
    hide Selected, RefreshAll, MarkSent, IsBest, Refresh;
    SelectionIsRight(s.settings, s.ns, now);
    TransmitEffect(s, n, now, timerOk);
    var (status, t) := Transmit(s, n, now, timerOk);
    var sent, id := status == Success, s.nodes[n].id;
    forall i | 0 <= i < |s.ns| ensures Asked(s.settings, s.ns, t.ns, i, sent, id, now) {
      RefreshIsRight(s.settings, s.ns[i], now);
    }
  }

  // ----- The timer -----

  /** The query is sent again: it stays pending, and one more transmission is counted. */
  ghost predicate SentAgain(s: State, t: State, n: nat)
    requires n < |s.nodes|
  {
    var q := s.nodes[n];
    && t == s.(ns := t.ns, nodes := s.nodes[n := q.(armed := true, transmitCnt := q.transmitCnt + 1)])
    && q.id in t.byId && t.byId[q.id] == n && q.key in t.byRes && t.byRes[q.key] == n
  }

  /** The query is over: out of both indexes, and to tell the application, and then those that joined,
      that it has timed out. A timer that could not be scheduled is marked as running all the same. */
  ghost predicate GivenUp(s: State, t: State, n: nat, now: Time)
    requires n < |s.nodes| == |s.roles|
  {
    var q := s.nodes[n];
    && t.roles == s.roles[n := Draining]
    && t.drains == s.drains[n := Drain(TimedOut, None, [n] + q.children)]
    && t.byId == s.byId - {q.id} && t.byRes == s.byRes - {q.key}
    && t.nodes == s.nodes[n := q.(armed := q.transmitCnt < s.settings.qretrCount && SomeServer(s.ns, now))]
    && t == s.(ns := t.ns, nodes := t.nodes, byId := t.byId, byRes := t.byRes, roles := t.roles, drains := t.drains)
  }

  predicate SentOnceMore(s: State, n: nat, timerOk: bool, now: Time)
    requires n < |s.nodes|
  {
    s.nodes[n].transmitCnt < s.settings.qretrCount && timerOk && SomeServer(s.ns, now)
  }

  /** The firing of the timer of a pending query sends it again while it has been sent fewer times
      than is configured and can be sent. If not, it is over. */
  lemma FiringIsRight(s: State, n: nat, timerOk: bool, now: Time)
    requires Inv(s) && n < |s.nodes| && s.roles[n].Pending?
    ensures var t := Step(s, Fire(n, timerOk), now);
            if SentOnceMore(s, n, timerOk, now) then SentAgain(s, t, n) else GivenUp(s, t, n, now)
  {
    hide Transmit, SomeServer, AllAsked, Roster, Ids, Ledger;
    assert NodeIndexed(s, n);
    var s1 := s.(nodes := s.nodes[n := s.nodes[n].(armed := false)]);
    TransmitEffects(s1, n, now, timerOk);
  }

  lemma FiringAsks(s: State, n: nat, timerOk: bool, now: Time)
    requires Inv(s) && n < |s.nodes| && s.roles[n].Pending?
    ensures var t := Step(s, Fire(n, timerOk), now);
            if s.nodes[n].transmitCnt < s.settings.qretrCount
            then AllAsked(s.settings, s.ns, t.ns, SentOnceMore(s, n, timerOk, now), s.nodes[n].id, now)
            else t.ns == s.ns
  {
    hide Transmit, SomeServer, AllAsked, Roster, Ids, Ledger;
    assert NodeIndexed(s, n);
    TransmitEffects(s.(nodes := s.nodes[n := s.nodes[n].(armed := false)]), n, now, timerOk);
  }

  /** A timer that fires when its query is over does nothing. */
  lemma LateFiring(s: State, n: nat, timerOk: bool, now: Time)
    requires n < |s.nodes| == |s.roles| && s.nodes[n].id !in s.byId
    ensures Timeout(s, n, timerOk, now) == s
  {
  }

  /** In every run, a query that the firing of its timer ends had been sent as often as is configured,
      and at least once; or it could not be sent again. */
  lemma SentUntilTheEnd(settings: Settings, ns: seq<Nameserver>, clock: Time, acts: seq<Timed>, s: State, n: nat, timerOk: bool, now: Time)
    requires Run(Initial(settings, ns), clock, acts, s) && n < |s.nodes| == |s.roles| && s.roles[n].Pending?
    ensures Shape(s)
    ensures Step(s, Fire(n, timerOk), now).roles[n].Pending? <==>
            s.nodes[n].transmitCnt < s.settings.qretrCount && timerOk && SomeServer(s.ns, now)
    ensures !Step(s, Fire(n, timerOk), now).roles[n].Pending? ==>
              || s.nodes[n].transmitCnt == (if s.settings.qretrCount == 0 then 1 else s.settings.qretrCount)
              || !timerOk || !SomeServer(s.ns, now)
  {
    hide Inv, Step, SomeServer, Asked;
    InitialInv(settings, ns);
    RunInv(Initial(settings, ns), clock, acts, s);
    SentAtMost(s, n);
    FiringIsRight(s, n, timerOk, now);
  }

  lemma SentAtMost(s: State, n: nat)
    requires Inv(s) && n < |s.nodes| && s.roles[n].Pending?
    ensures 1 <= s.nodes[n].transmitCnt <= (if s.settings.qretrCount == 0 then 1 else s.settings.qretrCount) && Shape(s)
  {
    assert NodeAged(s, n);
  }

  // ----- Responses -----

  /** The status told for a response: its lower four flag bits */
  predicate IsStatusOf(status: Status, flags: nat) {
    if flags % 16 == 0 then status == Success else status == DnsRcode(flags % 16)
  }

  /** A response to a pending query ends it: out of both indexes, its timer off, and the application
      and then those that joined are to be told the response. Any other changes the servers only. */
  lemma ReceiptIsRight(s: State, from: Endpoint, pkt: Option<Packet>, now: Time)
    requires Inv(s)
    ensures var t := Step(s, Packets(from, pkt), now);
            if pkt.None? || pkt.value.id !in s.byId then t == s.(ns := t.ns)
            else
              var n := s.byId[pkt.value.id];
              var q := s.nodes[n];
              && q.id == pkt.value.id && n in t.drains && IsStatusOf(t.drains[n].status, pkt.value.flags)
              && t.drains == s.drains[n := Drain(t.drains[n].status, pkt, [n] + q.children)]
              && t.roles == s.roles[n := Draining] && t.nodes == s.nodes[n := q.(armed := false)]
              && t.byId == s.byId - {q.id} && t.byRes == s.byRes - {q.key}
              && t == s.(ns := t.ns, nodes := t.nodes, byId := t.byId, byRes := t.byRes, roles := t.roles, drains := t.drains)
  {
    hide Report, Roster, Ids, Ledger;
    if pkt.Some? {
      assert IdIndexed(s, pkt.value.id);
    }
  }

  /** The servers, when a packet comes in: the first one with its address is as good as the packet,
      for as long as is configured; a packet is bad that is none, or says that the server failed (2), refused
      (5) or has no authority (9). */
  lemma ReportedServers(s: State, from: Endpoint, pkt: Option<Packet>, now: Time, i: nat)
    requires Shape(s) && i < |s.ns|
    ensures var t := Step(s, Packets(from, pkt), now);
            var good := pkt.Some? && pkt.value.flags % 16 !in {2, 5, 9};
            && |t.ns| == |s.ns|
            && if !IsSender(s.ns, from, i) then t.ns[i] == s.ns[i]
               else
                 && t.ns[i].address == from && t.ns[i].state == (if good then Active else Bad)
                 && t.ns[i].expiry == now + 1000 * (if good then s.settings.goodNsTtl else s.settings.badNsTtl)
                 && (if pkt.Some? && pkt.value.id == s.ns[i].qid
                     then t.ns[i].rtDelay == now - s.ns[i].sentTime && t.ns[i].qid == 0
                     else t.ns[i].rtDelay == s.ns[i].rtDelay && t.ns[i].qid == s.ns[i].qid)
  {
    hide Report, IsSender;
    ReportIsRight(s.settings, s.ns, from, pkt, now, i);
  }

  /** One callback more of a handler: the next one is told what the handler has to tell. */
  lemma NotifyIsRight(s: State, q: nat, now: Time)
    requires Shape(s) && Possible(s, CallNext(q))
    ensures var t, d := Step(s, CallNext(q), now), s.drains[q];
            && t.drains == s.drains[q := Drain(d.status, d.pkt, d.todo[1..])]
            && t == s.(drains := t.drains, calls := t.calls, owed := t.owed)
            && match s.nodes[d.todo[0]].cb
               case None => t.calls == s.calls && t.owed == s.owed
               case Some(r) => t.calls == s.calls + [Call(r, d.status, d.pkt)] && t.owed == s.owed - {r}
  {
    hide Shape;
    NotifyEffect(s, q);
  }

  lemma CancelIsRight(s: State, n: nat, notify: bool, now: Time)
    requires Inv(s) && Possible(s, CancelQuery(n, notify))
    ensures var t, q := Step(s, CancelQuery(n, notify), now), s.nodes[n];
            && t.nodes == s.nodes[n := q.(cb := None)]
            && t.calls == (if notify then s.calls + [Call(q.cb.value, Cancelled, None)] else s.calls)
            && t == s.(nodes := t.nodes, calls := t.calls, owed := t.owed, silenced := t.silenced)
            && (q.cb.Some? && Waiting(s, n) ==>
                  t.owed == s.owed - {q.cb.value} && t.silenced == (if notify then s.silenced else s.silenced + {q.cb.value}))
  {
    assert Owed(s, n);
  }

  // ----- The cache -----

  /** How long a response is kept: below the configured maximum and every time to live of its answers;
      or below 60 seconds, if it has none or is an error. Times are in milliseconds. */
  predicate StillKept(settings: Settings, error: bool, pkt: Packet, age: Time) {
    && age < 1000 * settings.cacheMaxTtl
    && (if pkt.ans == [] || error then age < 60000 else forall i :: 0 <= i < |pkt.ans| ==> age < 1000 * pkt.ans[i].ttl)
  }

  /** The packet up to letter case in names, without its last two sections */
  predicate SameAnswer(a: Packet, b: Packet) {
    && b.id == a.id && b.flags == a.flags && b.ns == [] && b.ar == []
    && SameQueries(a.q, b.q) && SameRecords(a.ans, b.ans)
  }

  predicate Wide(pkt: Packet) {
    forall i :: 0 <= i < |pkt.ans| ==> pkt.ans[i].ttl <= 0xFFFF_FFFF
  }

  /** What is filed under `k` in `t`, at `now`, is `pkt`, and is found as long as it should be. */
  ghost predicate Filed(s: State, t: State, k: Key, error: bool, pkt: Packet, now: Time) {
    && (forall later :: now <= later ==>
          (Lookup(t.cache, k, later).Some? <==> StillKept(s.settings, error, pkt, later - now)))
    && (forall later :: Lookup(t.cache, k, later).Some? ==> SameAnswer(pkt, Lookup(t.cache, k, later).value.pkt))
    && (forall x, later :: x != k ==> Lookup(t.cache, x, later) == Lookup(s.cache, x, later))
  }

  lemma UpdateAt(s: State, k: Key, success: bool, pkt: Packet, now: Time, later: Time)
    requires Wide(pkt) && now <= later
    ensures var t := UpdateCache(s, k, success, true, pkt, now);
            Lookup(t.cache, k, later).Some? <==> StillKept(s.settings, !success, pkt, later - now)
  {
    hide Dup, MinTtl;
    if pkt.ans != [] {
      LeastTtlDecides(pkt.ans, later - now);
    }
  }

  lemma UpdateKeepsPacket(s: State, k: Key, success: bool, setExpiry: bool, pkt: Packet, now: Time, later: Time)
    ensures var t := UpdateCache(s, k, success, setExpiry, pkt, now);
            Lookup(t.cache, k, later).Some? ==> SameAnswer(pkt, Lookup(t.cache, k, later).value.pkt)
  {
    hide MinTtl;
  }

  lemma UpdateIsRight(s: State, k: Key, success: bool, pkt: Packet, now: Time)
    requires Wide(pkt)
    ensures Filed(s, UpdateCache(s, k, success, true, pkt, now), k, !success, pkt, now)
  {
    hide Dup, MinTtl, SameAnswer, StillKept;
    var t := UpdateCache(s, k, success, true, pkt, now);
    forall later | now <= later ensures Lookup(t.cache, k, later).Some? <==> StillKept(s.settings, !success, pkt, later - now) {
      UpdateAt(s, k, success, pkt, now, later);
    }
    forall later | Lookup(t.cache, k, later).Some? ensures SameAnswer(pkt, Lookup(t.cache, k, later).value.pkt) {
      UpdateKeepsPacket(s, k, success, true, pkt, now, later);
    }
  }

  /** Of a drain: a response is told with its own status, and anything else is a timeout. */
  ghost predicate TruthTold(s: State, q: nat) {
    q in s.drains ==>
      match s.drains[q].pkt
      case Some(pkt) => IsStatusOf(s.drains[q].status, pkt.flags)
      case None => s.drains[q].status == TimedOut
  }

  /** The end of the handler of a response files the packet, as the callbacks left it, under the key of
      the query: from then on it is found exactly as long as it should be. No other key changes. */
  lemma ClosingIsRight(s: State, q: nat, saved: Packet, now: Time)
    requires Shape(s) && Possible(s, Close(q, saved)) && Wide(saved) && TruthTold(s, q)
    ensures var t := Step(s, Close(q, saved), now);
            match s.drains[q].pkt
            case Some(pkt) => Filed(s, t, s.nodes[q].key, pkt.flags % 16 != 0, saved, now)
            case None => t.cache == s.cache
    ensures var t, n := Step(s, Close(q, saved), now), s.nodes[q];
            && t.drains == s.drains - {q} && t.free == s.free + n.children + [q] && t.nodes == s.nodes[q := n.(armed := false)]
            && |t.roles| == |s.roles|
            && (forall m :: 0 <= m < |s.roles| ==> t.roles[m] == if m == q || m in n.children then Free else s.roles[m])
            && t == s.(nodes := t.nodes, free := t.free, roles := t.roles, drains := t.drains, cache := t.cache, log := t.log)
  {
    hide Filed, Put, EntryOf;
    if s.drains[q].pkt.Some? {
      UpdateIsRight(s, s.nodes[q].key, s.drains[q].status.Success?, saved, now);
      Refiled(s, UpdateCache(s, s.nodes[q].key, s.drains[q].status.Success?, true, saved, now), Finish(s, q, saved, now),
              s.nodes[q].key, s.drains[q].pkt.value.flags % 16 != 0, saved, now);
    }
  }

  lemma Refiled(s: State, t: State, u: State, k: Key, error: bool, pkt: Packet, now: Time)
    requires Filed(s, t, k, error, pkt, now) && u.cache == t.cache
    ensures Filed(s, u, k, error, pkt, now)
  {
  }

  lemma {:induction false} TruthIsTold(s: State, clock: Time, acts: seq<Timed>, t: State)
    requires Inv(s) && Run(s, clock, acts, t) && forall q :: TruthTold(s, q)
    ensures forall q :: TruthTold(t, q)
    decreases |acts|
  {
    hide Inv, Step, TruthTold, Possible, FreshId, InTime;
    if acts != [] {
      StepTellsTruth(s, acts[0].action, acts[0].now);
      StepInv(s, acts[0].action, acts[0].now);
      TruthIsTold(Step(s, acts[0].action, acts[0].now), acts[0].now, acts[1..], t);
    }
  }

  lemma StepTellsTruth(s: State, a: Action, now: Time)
    requires Inv(s) && Enabled(s, a, now) && forall q :: TruthTold(s, q)
    ensures forall q :: TruthTold(Step(s, a, now), q)
  {
    hide Inv, StartQuery, Cancel, Timeout, Receive, Notify, Finish, TruthTold;
    AnyShape(s);
    var t := Step(s, a, now);
    forall q ensures TruthTold(t, q) {
      assert TruthTold(s, q);
      match a
      case Start(name, qtype, hasCb, timerOk) => SameDrains(s, name, qtype, hasCb, timerOk, now); SameTruth(s, t, q);
      case CancelQuery(n, notify) => CancelEffect(s, n, notify); SameTruth(s, t, q);
      case Fire(n, timerOk) => FiringTruth(s, n, timerOk, now, q);
      case Packets(from, pkt) => ReceiptTruth(s, from, pkt, now, q);
      case CallNext(p) => NotifyTruth(s, p, now, q);
      case Close(p, saved) => ClosingTruth(s, p, saved, now, q);
      case Inject(pkt, setTtl) => SameTruth(s, t, q);
      case Nameservers(addresses) => SameTruth(s, t, q);
    }
  }

  lemma SameTruth(s: State, t: State, q: nat)
    requires TruthTold(s, q) && t.drains == s.drains
    ensures TruthTold(t, q)
  {
  }

  lemma SameDrains(s: State, name: Name, qtype: int, hasCb: bool, timerOk: bool, now: Time)
    requires Inv(s)
    ensures StartQuery(s, name, qtype, hasCb, timerOk, now).s.drains == s.drains
  {
    hide StartParent, StartChild, InitKey, Inv;
    AnyShape(s);
  }

  lemma AnyShape(s: State)
    requires Inv(s)
    ensures Shape(s) && Roster(s)
  {
  }

  lemma FiringTruth(s: State, n: nat, timerOk: bool, now: Time, q: nat)
    requires Inv(s) && Enabled(s, Fire(n, timerOk), now) && TruthTold(s, q)
    ensures TruthTold(Timeout(s, n, timerOk, now), q)
  {
    hide Timeout, SomeServer, TruthTold, GivenUp, SentAgain, Ledger, Ids;
    var t := Timeout(s, n, timerOk, now);
    if s.roles[n].Pending? {
      FiringIsRight(s, n, timerOk, now);
      if SentOnceMore(s, n, timerOk, now) { SentTruth(s, t, n, q); } else { GivenUpTruth(s, t, n, now, q); }
    } else {
      LateFiring(s, n, timerOk, now);
    }
  }

  lemma SentTruth(s: State, t: State, n: nat, q: nat)
    requires n < |s.nodes| && SentAgain(s, t, n) && TruthTold(s, q)
    ensures TruthTold(t, q)
  {
  }

  lemma GivenUpTruth(s: State, t: State, n: nat, now: Time, q: nat)
    requires n < |s.nodes| == |s.roles| && GivenUp(s, t, n, now) && TruthTold(s, q)
    ensures TruthTold(t, q)
  {
    hide SomeServer;
  }

  lemma ReceiptTruth(s: State, from: Endpoint, pkt: Option<Packet>, now: Time, q: nat)
    requires Inv(s) && TruthTold(s, q)
    ensures TruthTold(Receive(s, from, pkt, now), q)
  {
    hide Receive, IsStatusOf;
    ReceiptIsRight(s, from, pkt, now);
  }

  lemma NotifyTruth(s: State, p: nat, now: Time, q: nat)
    requires Shape(s) && Possible(s, CallNext(p)) && TruthTold(s, q)
    ensures TruthTold(Notify(s, p), q)
  {
    hide Notify, IsStatusOf;
    NotifyIsRight(s, p, now);
  }

  lemma ClosingTruth(s: State, p: nat, saved: Packet, now: Time, q: nat)
    requires Shape(s) && Possible(s, Close(p, saved)) && TruthTold(s, q)
    ensures TruthTold(Finish(s, p, saved, now), q)
  {
    hide FreeRoles, Put, EntryOf, IsStatusOf;
  }

  /** In every run, when the callbacks for a response have been made, it is filed as it should be, and
      when those for a timeout have been made, nothing is. */
  lemma ResponsesAreFiled(settings: Settings, ns: seq<Nameserver>, clock: Time, acts: seq<Timed>, s: State, q: nat, saved: Packet, now: Time)
    requires Run(Initial(settings, ns), clock, acts, s) && Wide(saved)
    requires q in s.drains && q < |s.nodes| && s.drains[q].todo == []
    ensures Shape(s)
    ensures var t := Step(s, Close(q, saved), now);
            match s.drains[q].pkt
            case Some(pkt) => Filed(s, t, s.nodes[q].key, pkt.flags % 16 != 0, saved, now)
            case None => t.cache == s.cache
  {
    hide Inv, Step, Filed, TruthTold;
    var s0 := Initial(settings, ns);
    InitialInv(settings, ns);
    RunInv(s0, clock, acts, s);
    AnyShape(s);
    NothingTold(settings, ns);
    TruthIsTold(s0, clock, acts, s);
    ClosingIsRight(s, q, saved, now);
  }

  lemma NothingTold(settings: Settings, ns: seq<Nameserver>)
    ensures forall q :: TruthTold(Initial(settings, ns), q)
  {
  }

  // ----- Entries from outside -----

  /** A response with an answer or a question, whose first name is short enough */
  predicate Acceptable(pkt: Packet) {
    && pkt.flags / 0x8000 % 2 == 1 && (pkt.ans != [] || pkt.q != [])
    && |if pkt.ans != [] then pkt.ans[0].name else pkt.q[0].name| < 128
  }

  /** An acceptable packet is filed under its first answer or, without one, its first question: for its
      time to live or for good, if that is asked for. */
  lemma InjectionIsRight(s: State, pkt: Packet, setTtl: bool, now: Time)
    requires Wide(pkt) && Shape(s)
    ensures var t := Step(s, Inject(pkt, setTtl), now);
            && t == s.(cache := t.cache, log := t.log)
            && if !Acceptable(pkt) then t == s
               else
                 var k := if pkt.ans != [] then InitKey(pkt.ans[0].rtype, pkt.ans[0].name) else InitKey(pkt.q[0].qtype, pkt.q[0].name);
                 if setTtl then Filed(s, t, k, false, pkt, now)
                 else
                   && (forall later :: Lookup(t.cache, k, later).Some? <==> s.settings.cacheMaxTtl > 0 && later < 1000 * 0x7FFF_FFFF)
                   && (forall later :: Lookup(t.cache, k, later).Some? ==> SameAnswer(pkt, Lookup(t.cache, k, later).value.pkt))
                   && (forall x, later :: x != k ==> Lookup(t.cache, x, later) == Lookup(s.cache, x, later))
  {
    hide Filed, InitKey, SameAnswer, Dup;
    if Acceptable(pkt) {
      var k := EntryKey(pkt);
      var t := UpdateCache(s, k, true, setTtl, pkt, now);
      if setTtl {
        UpdateIsRight(s, k, true, pkt, now);
      } else {
        forall later | Lookup(t.cache, k, later).Some? ensures SameAnswer(pkt, Lookup(t.cache, k, later).value.pkt) {
          UpdateKeepsPacket(s, k, true, setTtl, pkt, now, later);
        }
      }
    }
  }

  // ----- Starting a query -----

  predicate Accepted(name: Name, qtype: int) {
    0 < |name| < 128 && 0 < qtype < 0xFFFF
  }

  /** A cached response is told at once. */
  lemma StartFromCache(s: State, name: Name, qtype: int, hasCb: bool, timerOk: bool, now: Time)
    requires Shape(s) && Accepted(name, qtype) && Lookup(s.cache, InitKey(qtype, name), now).Some?
    ensures var r := StartQuery(s, name, qtype, hasCb, timerOk, now);
            var pkt := Lookup(s.cache, InitKey(qtype, name), now).value.pkt;
            && r.status == Success && r.handle == None
            && (!hasCb ==> r.s == s)
            && (hasCb ==>
                  && r.s == s.(requests := s.requests + 1, calls := r.s.calls) && |r.s.calls| == |s.calls| + 1 && s.calls <= r.s.calls
                  && var call := r.s.calls[|s.calls|];
                     call.request == s.requests && IsStatusOf(call.status, pkt.flags) && call.pkt == Some(pkt))
  {
    hide InitKey;
    var key := InitKey(qtype, name);
    assert Evict(s.cache, key, now) == s.cache && s.(cache := s.cache) == s;
  }

  /** The node a request is given: the oldest of the free ones, or a new one */
  function NextNode(s: State): nat {
    if s.free != [] then s.free[0] else |s.nodes|
  }

  /** The request waits in `n`, or there is nobody to call back. */
  ghost predicate Registered(s: State, t: State, hasCb: bool, n: nat) {
    && n < |t.nodes| && t.nodes[n].cb == (if hasCb then Some(s.requests) else None)
    && (if hasCb then t.requests == s.requests + 1 && t.owed == s.owed[s.requests := n]
        else t.requests == s.requests && t.owed == s.owed)
  }

  /** It joins the query in `p`, last of all, and nothing is sent. */
  ghost predicate Joins(s: State, t: State, hasCb: bool, p: nat) {
    var n := NextNode(s);
    && p < |s.nodes| <= |t.nodes| && n < |t.nodes| == |t.roles| && n != p && |s.roles| == |s.nodes|
    && Registered(s, t, hasCb, n) && t.nodes[n].children == [] && !t.nodes[n].armed && t.roles[n] == Child(p)
    && t.nodes[p] == s.nodes[p].(children := s.nodes[p].children + [n])
    && (forall m :: 0 <= m < |s.nodes| && m != n && m != p ==> t.nodes[m] == s.nodes[m])
    && (forall m :: 0 <= m < |s.nodes| && m != n ==> t.roles[m] == s.roles[m])
    && t.free == (if s.free != [] then s.free[1..] else [])
    && t.ns == s.ns && t.byId == s.byId && t.byRes == s.byRes && t.drains == s.drains && t.calls == s.calls
  }

  /** The node is taken, and stands in `role`; all others are as they were. */
  ghost predicate Taken(s: State, t: State, role: Role, node: Node) {
    var n := NextNode(s);
    && |s.roles| == |s.nodes| <= |t.nodes| == |t.roles| && n < |t.nodes| && t.nodes[n] == node && t.roles[n] == role
    && (forall m :: 0 <= m < |s.nodes| && m != n ==> t.nodes[m] == s.nodes[m] && t.roles[m] == s.roles[m])
    && t.free == (if s.free != [] then s.free[1..] else [])
  }

  lemma AllocRight(s: State, role: Role, cb: Option<nat>)
    requires Inv(s)
    ensures var (n, t) := AllocNode(s, role, cb);
            n == NextNode(s) && Taken(s, t, role, Node(0, NO_KEY, 0, false, cb, [])) && (n < |s.nodes| ==> s.roles[n].Free?)
  {
    hide Ledger, Indexed, Ids;
    AllocKeeps(s, role, cb);
    if s.free != [] {
      assert Placed(s, s.free[0]);
    }
    var (n, t) := AllocNode(s, role, cb);
    forall m: nat | m < |s.nodes| && m != n ensures t.roles[m] == s.roles[m] { assert SameNode(s, t, n, m); }
  }

  lemma ChildJoins(s: State, p: nat, hasCb: bool)
    requires Inv(s) && p < |s.nodes| && s.roles[p].Pending?
    ensures Joins(s, StartChild(s, p, if hasCb then Some(s.requests) else None), hasCb, p)
  {
    hide Inv, AllocNode;
    AnyShape(s);
    AllocRight(s, Child(p), if hasCb then Some(s.requests) else None);
  }

  lemma StartJoins(s: State, name: Name, qtype: int, hasCb: bool, timerOk: bool, now: Time)
    requires Inv(s) && Accepted(name, qtype)
    requires var k := InitKey(qtype, name); Lookup(s.cache, k, now).None? && k in s.byRes
    ensures var r := StartQuery(s, name, qtype, hasCb, timerOk, now);
            r.status == Success && r.handle == None && Joins(s, r.s, hasCb, s.byRes[InitKey(qtype, name)])
  {
    hide InitKey, StartChild, Ids, Ledger, Roster;
    var key := InitKey(qtype, name);
    assert KeyIndexed(s, key);
    var s0 := s.(cache := Evict(s.cache, key, now));
    FrameInv(s, s0);
    ChildJoins(s0, s.byRes[key], hasCb);
    Uncached(s, s0, StartChild(s0, s.byRes[key], if hasCb then Some(s.requests) else None), hasCb, s.byRes[key]);
  }

  lemma Uncached(s: State, s0: State, t: State, hasCb: bool, p: nat)
    requires Joins(s0, t, hasCb, p) && s0 == s.(cache := s0.cache)
    ensures Joins(s, t, hasCb, p)
  {
  }

  /** A query of its own, under the next id: it is sent, and pending in both indexes. */
  ghost predicate Sent(s: State, t: State, key: Key, hasCb: bool) {
    var n := NextNode(s);
    && Registered(s, t, hasCb, n) && |s.roles| == |s.nodes| <= |t.nodes| == |t.roles|
    && t.nodes[n] == Node(s.lastId, key, 1, true, t.nodes[n].cb, []) && t.roles[n] == Pending
    && t.byId == s.byId[s.lastId := n] && t.byRes == s.byRes[key := n]
    && (forall m :: 0 <= m < |s.nodes| && m != n ==> t.nodes[m] == s.nodes[m] && t.roles[m] == s.roles[m])
    && t.free == (if s.free != [] then s.free[1..] else []) && t.drains == s.drains && t.calls == s.calls
  }

  /** It is not sent: nobody is called back, and the node is free again. */
  ghost predicate NotSent(s: State, t: State) {
    && t.byId == s.byId && t.byRes == s.byRes && t.owed == s.owed && t.requests == s.requests
    && t.drains == s.drains && t.calls == s.calls && |s.roles| == |s.nodes| <= |t.nodes| == |t.roles|
    && (forall m :: 0 <= m < |s.nodes| && m != NextNode(s) ==> t.nodes[m] == s.nodes[m] && t.roles[m] == s.roles[m])
    && t.free == (if s.free != [] then s.free[1..] else []) + [NextNode(s)]
  }

  /** How starting a query of its own ends, why, and what it leaves */
  ghost predicate StartedRight(s: State, r: StartResult, key: Key, hasCb: bool, timerOk: bool, now: Time) {
    && (r.status == NoNameserver <==> s.ns == [])
    && (r.status == NoWorkingNameserver <==> s.ns != [] && !SomeServer(s.ns, now))
    && (r.status == TimerFailed <==> SomeServer(s.ns, now) && !timerOk)
    && (r.status == Success <==> SomeServer(s.ns, now) && timerOk)
    && AllAsked(s.settings, s.ns, r.s.ns, r.status == Success, s.lastId, now)
    && r.s.lastId == (if s.lastId == 65535 then 1 else s.lastId + 1)
    && (if r.status == Success then r.handle == Some(NextNode(s)) && Sent(s, r.s, key, hasCb)
        else r.handle == None && NotSent(s, r.s))
  }

  lemma PreparedRight(s: State, key: Key, cb: Option<nat>)
    requires Inv(s)
    ensures var (n, t) := Prepare(s, key, cb);
            && n == NextNode(s) && Taken(s, t, Free, Node(s.lastId, key, 0, false, cb, []))
            && t == s.(free := t.free, nodes := t.nodes, roles := t.roles, births := t.births, lastId := t.lastId, allocs := t.allocs)
            && t.lastId == (if s.lastId == 65535 then 1 else s.lastId + 1)
  {
    hide Inv, AllocNode;
    AnyShape(s);
    AllocRight(s, Free, cb);
    LastIdFits(s);
  }

  lemma LastIdFits(s: State)
    requires Inv(s)
    ensures 1 <= s.lastId <= 65535
  {
  }

  lemma SentRight(s: State, t: State, key: Key, hasCb: bool)
    requires var cb := if hasCb then Some(s.requests) else None; Taken(s, t, Free, Node(s.lastId, key, 1, true, cb, []))
    requires t == s.(free := t.free, nodes := t.nodes, roles := t.roles, births := t.births, ns := t.ns,
                     lastId := t.lastId, allocs := t.allocs)
    requires Shape(t)
    ensures Sent(s, Register(t, NextNode(s)), key, hasCb)
    ensures Register(t, NextNode(s)).ns == t.ns && Register(t, NextNode(s)).lastId == t.lastId
  {
  }

  lemma NotSentRight(s: State, t: State, node: Node)
    requires Taken(s, t, Free, node)
    requires t == s.(free := t.free, nodes := t.nodes, roles := t.roles, births := t.births, ns := t.ns,
                     lastId := t.lastId, allocs := t.allocs)
    ensures NotSent(s, t.(free := t.free + [NextNode(s)]))
  {
  }

  lemma TransmitTakes(s: State, t: State, node: Node, timerOk: bool, now: Time)
    requires Taken(s, t, Free, node) && t.ns == s.ns && t.settings == s.settings
    ensures var n := NextNode(s);
            var (status, u) := Transmit(t, n, now, timerOk);
            && u == t.(ns := u.ns, nodes := u.nodes) && n < |u.nodes|
            && Taken(s, u, Free, if status == Success then node.(armed := true, transmitCnt := node.transmitCnt + 1) else u.nodes[n])
            && (status == NoNameserver <==> s.ns == [])
            && (status == NoWorkingNameserver <==> s.ns != [] && !SomeServer(s.ns, now))
            && (status == TimerFailed <==> SomeServer(s.ns, now) && !timerOk)
            && (status == Success <==> SomeServer(s.ns, now) && timerOk)
            && AllAsked(s.settings, s.ns, u.ns, status == Success, node.id, now)
  {
    hide Transmit, AllAsked, SomeServer;
    TransmitEffects(t, NextNode(s), now, timerOk);
  }

  lemma ParentStarts(s: State, key: Key, hasCb: bool, timerOk: bool, now: Time)
    requires Inv(s)
    ensures StartedRight(s, StartParent(s, key, if hasCb then Some(s.requests) else None, timerOk, now), key, hasCb, timerOk, now)
  {
    hide Inv, Prepare, Transmit, Register, AllAsked, SomeServer, Sent, NotSent, Taken, StartedRight;
    AnyShape(s);
    var cb := if hasCb then Some(s.requests) else None;
    PreparedRight(s, key, cb);
    var (n, s1) := Prepare(s, key, cb);
    TransmitTakes(s, s1, Node(s.lastId, key, 0, false, cb, []), timerOk, now);
    var (status, s2) := Transmit(s1, n, now, timerOk);
    if status == Success {
      SentRight(s, s2, key, hasCb);
    } else {
      NotSentRight(s, s2, s2.nodes[n]);
    }
    Assembled(s, StartParent(s, key, cb, timerOk, now), key, hasCb, timerOk, now);
  }

  lemma Assembled(s: State, r: StartResult, key: Key, hasCb: bool, timerOk: bool, now: Time)
    requires r.status == NoNameserver <==> s.ns == []
    requires r.status == NoWorkingNameserver <==> s.ns != [] && !SomeServer(s.ns, now)
    requires r.status == TimerFailed <==> SomeServer(s.ns, now) && !timerOk
    requires r.status == Success <==> SomeServer(s.ns, now) && timerOk
    requires AllAsked(s.settings, s.ns, r.s.ns, r.status == Success, s.lastId, now)
    requires r.s.lastId == if s.lastId == 65535 then 1 else s.lastId + 1
    requires if r.status == Success then r.handle == Some(NextNode(s)) && Sent(s, r.s, key, hasCb) else r.handle == None && NotSent(s, r.s)
    ensures StartedRight(s, r, key, hasCb, timerOk, now)
  {
  }

  lemma StartsNew(s: State, name: Name, qtype: int, hasCb: bool, timerOk: bool, now: Time)
    requires Inv(s) && Accepted(name, qtype)
    requires var k := InitKey(qtype, name); Lookup(s.cache, k, now).None? && k !in s.byRes
    ensures StartedRight(s, StartQuery(s, name, qtype, hasCb, timerOk, now), InitKey(qtype, name), hasCb, timerOk, now)
  {
    hide InitKey, StartParent, Inv, AllAsked, SomeServer;
    AnyShape(s);
    var key := InitKey(qtype, name);
    var s0 := s.(cache := Evict(s.cache, key, now));
    FrameInv(s, s0);
    ParentStarts(s0, key, hasCb, timerOk, now);
  }

  /** Anything else is refused: type 0 first, then bad names, then other bad types. */
  lemma StartRefused(s: State, name: Name, qtype: int, hasCb: bool, timerOk: bool, now: Time)
    requires Shape(s) && !Accepted(name, qtype)
    ensures StartQuery(s, name, qtype, hasCb, timerOk, now) ==
            StartResult(s, if qtype != 0 && (|name| == 0 || |name| >= 128) then NameTooLong else InvalidArgument, None)
  {
  }

  /** A start takes an id exactly if it is accepted, not in the cache, and asks what no pending query does. */
  lemma IdIsTaken(s: State, name: Name, qtype: int, hasCb: bool, timerOk: bool, now: Time)
    requires Inv(s)
    ensures TakesId(s, name, qtype, now) <==>
            Accepted(name, qtype) && (var k := InitKey(qtype, name); Lookup(s.cache, k, now).None? && k !in s.byRes)
    ensures StartQuery(s, name, qtype, hasCb, timerOk, now).s.lastId ==
            if !TakesId(s, name, qtype, now) then s.lastId else if s.lastId == 65535 then 1 else s.lastId + 1
  {
    hide InitKey, Inv, Lookup, StartChild, StartParent;
    AnyShape(s);
    if Accepted(name, qtype) {
      var key := InitKey(qtype, name);
      if Lookup(s.cache, key, now).None? && key !in s.byRes {
        StartsNew(s, name, qtype, hasCb, timerOk, now);
      }
    } else {
      StartRefused(s, name, qtype, hasCb, timerOk, now);
    }
  }

  /** The servers that are set are all active and due to be probed, taken to answer in ten seconds. */
  lemma ServersAreSet(s: State, addresses: seq<Option<Endpoint>>, now: Time)
    requires Shape(s)
    ensures var t := Step(s, Nameservers(addresses), now);
            && t == s.(ns := t.ns)
            && if |addresses| == 0 || |addresses| >= 16 then t.ns == s.ns
               else if exists i :: 0 <= i < |addresses| && addresses[i].None? then t.ns == []
               else
                 && |t.ns| == |addresses|
                 && forall i :: 0 <= i < |t.ns| ==> t.ns[i] == Nameserver(addresses[i].value, Active, now, 10000, 0, 0)
  {
  }
}
