/** What holds over every run of the resolver. */
module ResolverRuns {
  import opened DnsPacket
  import opened Wrappers
  import opened Nameservers
  import opened ResolverCache
  import opened ResolverModel
  import opened ResolverSafety

  datatype Action =
    | Start(name: Name, qtype: int, hasCb: bool, timerOk: bool)
    | CancelQuery(handle: nat, notify: bool)
    | Fire(node: nat, timerOk: bool)
    | Packets(from: Endpoint, pkt: Option<Packet>)
    | CallNext(drain: nat)
    | Close(drain: nat, saved: Packet)
    | Inject(entry: Packet, setTtl: bool)
    | Nameservers(addresses: seq<Option<Endpoint>>)

  /** When the environment may take an action. No run goes on after a null pointer has been called
      (CallbackIsGone says when one is). */
  ghost predicate Possible(s: State, a: Action)
    requires Shape(s)
  {
    match a
    case Start(_, _, _, _) => true
    case CancelQuery(n, notify) => n < |s.nodes| && Parent(s.roles[n]) && !CallsNull(s, n, notify)
    case Fire(n, _) => n < |s.nodes| && (s.roles[n].Pending? || s.nodes[n].id !in s.byId)
    case Packets(_, _) => true
    case CallNext(q) => q in s.drains && s.drains[q].todo != [] && s.drains[q].todo[0] < |s.nodes|
    case Close(q, _) => q in s.drains && q < |s.nodes| && s.drains[q].todo == []
    case Inject(_, _) => true
    case Nameservers(_) => true
  }

  /** Nobody asks to be notified of the cancellation of a query that has been called back. The
      source does not test this: NotifiedTwice says what happens then, and LateCallsAreExtra that
      nothing else does. */
  ghost predicate InTime(s: State, a: Action)
    requires Shape(s)
  {
    a.CancelQuery? && a.notify ==> Waiting(s, a.handle)
  }

  ghost predicate Permitted(s: State, a: Action)
    requires Shape(s)
  {
    Possible(s, a) && InTime(s, a)
  }

  /** No id is handed out while a query still holds it. The source does not test this:
      YoungRunsAreRuns says when it holds, ReusedIdBreaksTheIndex what it is needed for, and
      IdComesRound that it may fail. */
  ghost predicate FreshId(s: State, a: Action, now: Time) {
    a.Start? && TakesId(s, a.name, a.qtype, now) ==> s.lastId !in s.byId
  }

  ghost predicate Enabled(s: State, a: Action, now: Time)
    requires Shape(s)
  {
    Permitted(s, a) && FreshId(s, a, now)
  }

  ghost function Step(s: State, a: Action, now: Time): State
    requires Shape(s) && Possible(s, a)
  {
    match a
    case Start(name, qtype, hasCb, timerOk) => StartQuery(s, name, qtype, hasCb, timerOk, now).s
    case CancelQuery(n, notify) => Cancel(s, n, notify)
    case Fire(n, timerOk) => Timeout(s, n, timerOk, now)
    case Packets(from, pkt) => Receive(s, from, pkt, now)
    case CallNext(q) => Notify(s, q)
    case Close(q, saved) => Finish(s, q, saved, now)
    case Inject(pkt, setTtl) => AddEntry(s, pkt, setTtl, now)
    case Nameservers(addresses) => SetNs(s, addresses, now)
  }

  datatype Timed = At(now: Time, action: Action)

  /** `t` is reached from `s` by the actions, each enabled in its turn, the clock never
      going back from `clock`. */
  ghost predicate Run(s: State, clock: Time, acts: seq<Timed>, t: State)
    decreases |acts|
  {
    if acts == [] then t == s
    else
      && clock <= acts[0].now && Shape(s) && Enabled(s, acts[0].action, acts[0].now)
      && Run(Step(s, acts[0].action, acts[0].now), acts[0].now, acts[1..], t)
  }

  lemma StepInv(s: State, a: Action, now: Time)
    requires Inv(s) && Enabled(s, a, now)
    ensures Inv(Step(s, a, now))
  {
    hide Roster, Indexed, Ids, Ledger, StartQuery, Cancel, Timeout, Receive, Notify, Finish, AddEntry, SetNs;
    match a
    case Start(name, qtype, hasCb, timerOk) => StartQueryInv(s, name, qtype, hasCb, timerOk, now);
    case CancelQuery(n, notify) => CancelInv(s, n, notify);
    case Fire(n, timerOk) => TimeoutInv(s, n, timerOk, now);
    case Packets(from, pkt) => ReceiveInv(s, from, pkt, now);
    case CallNext(q) => NotifyInv(s, q);
    case Close(q, saved) => FinishInv(s, q, saved, now);
    case Inject(pkt, setTtl) => AddEntryInv(s, pkt, setTtl, now);
    case Nameservers(addresses) => SetNsInv(s, addresses, now);
  }

  lemma AddEntryInv(s: State, pkt: Packet, setTtl: bool, now: Time)
    requires Inv(s)
    ensures Inv(AddEntry(s, pkt, setTtl, now))
  {
    hide Inv;
    FrameInv(s, AddEntry(s, pkt, setTtl, now));
  }

  lemma SetNsInv(s: State, addresses: seq<Option<Endpoint>>, now: Time)
    requires Inv(s)
    ensures Inv(SetNs(s, addresses, now))
  {
    hide Inv;
    FrameInv(s, SetNs(s, addresses, now));
  }

  lemma InitialInv(settings: Settings, ns: seq<Nameserver>)
    ensures Inv(Initial(settings, ns))
  {
    var s := Initial(settings, ns);
    forall n: nat ensures Placed(s, n) {}
    forall n ensures NodeIndexed(s, n) && NodeAged(s, n) {}
    forall n ensures Owed(s, n) && Spent(s, n) {}
  }

  lemma {:induction false} RunInv(s: State, clock: Time, acts: seq<Timed>, t: State)
    requires Inv(s) && Run(s, clock, acts, t)
    ensures Inv(t)
    decreases |acts|
  {
    if acts != [] {
      StepInv(s, acts[0].action, acts[0].now);
      RunInv(Step(s, acts[0].action, acts[0].now), acts[0].now, acts[1..], t);
    }
  }

  // ----- Callbacks -----

  /** In every run each accepted request is called back at most once, and at any moment it
      is either answered, or cancelled in silence, or waiting in exactly one node: a
      pending query, a child of one, or a member of a drain whose turn has not come. */
  lemma EveryRequestIsAccountedFor(settings: Settings, ns: seq<Nameserver>, clock: Time, acts: seq<Timed>, t: State)
    requires Run(Initial(settings, ns), clock, acts, t)
    ensures Shape(t) && AtMostOnce(t.calls)
    ensures t.requests == |t.calls| + |t.silenced| + |t.owed|
    ensures forall r: nat :: r in t.owed ==> r < t.requests && !Answered(t.calls, r) && r !in t.silenced
    ensures forall r: nat :: r in t.silenced ==> r < t.requests && !Answered(t.calls, r)
    ensures forall i :: 0 <= i < |t.calls| ==> t.calls[i].request < t.requests
    ensures forall r: nat, n: nat :: r in t.owed && t.owed[r] == n <==> Waiting(t, n) && t.nodes[n].cb == Some(r)
  {
    InitialInv(settings, ns);
    RunInv(Initial(settings, ns), clock, acts, t);
    forall r: nat | r in t.owed
      ensures r < t.requests && !Answered(t.calls, r) && r !in t.silenced
    {
      assert Owes(t, r) && Silent(t, r);
      forall i | 0 <= i < |t.calls| ensures t.calls[i].request != r { assert Called(t, i); }
    }
    forall r: nat | r in t.silenced
      ensures r < t.requests && !Answered(t.calls, r)
    {
      assert Silent(t, r);
      forall i | 0 <= i < |t.calls| ensures t.calls[i].request != r { assert Called(t, i); }
    }
    forall i | 0 <= i < |t.calls| ensures t.calls[i].request < t.requests { assert Called(t, i); }
    forall r: nat, n: nat
      ensures r in t.owed && t.owed[r] == n <==> Waiting(t, n) && t.nodes[n].cb == Some(r)
    {
      assert Owes(t, r) && Owed(t, n);
    }
  }

  /** Cancelling a query leaves the callback of every other node as it was, the children of
      the cancelled one included. */
  lemma CancelSparesOthers(s: State, n: nat, notify: bool, m: nat)
    requires Inv(s) && Enabled(s, CancelQuery(n, notify), 0) && m != n
    requires Waiting(s, m) && s.nodes[m].cb.Some?
    ensures var t := Cancel(s, n, notify);
            Shape(t) && Waiting(t, m) && t.nodes[m].cb == s.nodes[m].cb
            && s.nodes[m].cb.value in t.owed && s.nodes[m].cb.value !in t.silenced
  {
    hide Roster, Indexed, Ids, Cancel;
    CancelInv(s, n, notify);
    CancelEffect(s, n, notify);
    var t := Cancel(s, n, notify);
    assert Owed(t, m) && Silent(t, s.nodes[m].cb.value);
  }

  /** A notified cancellation calls back for the first time exactly when the query's
      callback still lies ahead. */
  lemma NotifiedTwice(s: State, n: nat)
    requires Inv(s) && n < |s.nodes| && Parent(s.roles[n]) && s.nodes[n].cb.Some?
    ensures AtMostOnce(Cancel(s, n, true).calls) <==> Waiting(s, n)
  {
    if Waiting(s, n) {
      CancelInv(s, n, true);
    } else {
      assert Spent(s, n);
      var r := s.nodes[n].cb.value;
      var i :| 0 <= i < |s.calls| && s.calls[i].request == r;
      var calls := Cancel(s, n, true).calls;
      assert calls[i].request == calls[|s.calls|].request;
    }
  }

  // ----- Errors -----

  /** start_query refuses names that are empty or too long and types out of range, without a
      trace. A query that cannot be sent is forgotten: only when the status is Success is a
      callback promised or made, and only when a query was sent is there a handle to it. */
  lemma StartOutcome(s: State, name: Name, qtype: int, hasCb: bool, timerOk: bool, now: Time)
    requires Inv(s)
    ensures var r := StartQuery(s, name, qtype, hasCb, timerOk, now);
            && (r.status == NameTooLong <==> qtype != 0 && !(0 < |name| < MAX_HOSTNAME))
            && (r.status == InvalidArgument <==> qtype == 0 || (0 < |name| < MAX_HOSTNAME && !(0 < qtype < 0xFFFF)))
            && (r.status in {NameTooLong, InvalidArgument} ==> r.s == s)
            && r.s.requests == s.requests + (if hasCb && r.status == Success then 1 else 0)
            && (r.status != Success ==> r.s.calls == s.calls && r.s.owed == s.owed && r.s.byId == s.byId && r.s.byRes == s.byRes)
            && (r.handle.Some? ==> r.status == Success && IsPending(r.s, r.handle.value) && r.s.lastId != s.lastId)
  {
    hide StartParent, StartChild, InitKey, Inv;
    if 0 < |name| < MAX_HOSTNAME && 0 < qtype < 0xFFFF {
      var key := InitKey(qtype, name);
      var s0 := s.(cache := Evict(s.cache, key, now));
      if Lookup(s.cache, key, now).None? {
        var cb := if hasCb then Some(s.requests) else None;
        SameShape(s, s0);
        if key in s.byRes {
          ChildOutcome(s0, s.byRes[key], cb);
        } else {
          ParentOutcome(s0, key, cb, timerOk, now);
        }
      }
    }
  }

  lemma SameShape(s: State, t: State)
    requires Inv(s) && t == s.(cache := t.cache)
    ensures Shape(t)
  {
  }

  lemma ChildOutcome(s: State, parent: nat, cb: Option<nat>)
    requires Shape(s) && parent < |s.nodes|
    ensures StartChild(s, parent, cb).requests == s.requests + (if cb.Some? then 1 else 0)
  {
  }

  lemma ParentOutcome(s: State, key: Key, cb: Option<nat>, timerOk: bool, now: Time)
    requires Shape(s)
    ensures var r := StartParent(s, key, cb, timerOk, now);
            && r.status !in {NameTooLong, InvalidArgument}
            && r.s.requests == s.requests + (if cb.Some? && r.status == Success then 1 else 0)
            && r.s.lastId == NextId(s.lastId) && r.s.calls == s.calls
            && (r.status != Success ==> r.s.owed == s.owed && r.s.byId == s.byId && r.s.byRes == s.byRes)
            && (r.handle.Some? <==> r.status == Success)
            && (r.handle.Some? ==> s.lastId in r.s.byId && r.s.byId[s.lastId] == r.handle.value)
  {
    hide Selected, RefreshAll, MarkSent;
  }

  /** A transmission fails for want of nameservers, or of any that does not end Bad, or of the
      timer; it is sent, and counted, otherwise. */
  lemma TransmitOutcome(s: State, n: nat, now: Time, timerOk: bool)
    requires n < |s.nodes|
    ensures var (status, t) := Transmit(s, n, now, timerOk);
            var after := RefreshAll(s.settings, s.ns, now);
            && (status == NoNameserver <==> s.ns == [])
            && (status == NoWorkingNameserver <==> s.ns != [] && forall i :: 0 <= i < |s.ns| ==> after[i].state.Bad?)
            && (status == TimerFailed <==> !timerOk && exists i :: 0 <= i < |s.ns| && !after[i].state.Bad?)
            && (status == Success <==> timerOk && exists i :: 0 <= i < |s.ns| && !after[i].state.Bad?)
            && t.nodes[n].transmitCnt == s.nodes[n].transmitCnt + (if status == Success then 1 else 0)
            && (forall m :: 0 <= m < |s.nodes| && m != n ==> t.nodes[m] == s.nodes[m])
  {
    hide Selected, RefreshAll, MarkSent;
    SelectionIsRight(s.settings, s.ns, now);
  }

  // ----- Places and indexes -----

  ghost predicate IsPending(s: State, n: nat) {
    exists i :: i in s.byId && s.byId[i] == n
  }

  ghost predicate IsChildOf(s: State, n: nat, p: nat) {
    p < |s.nodes| && (IsPending(s, p) || p in s.drains) && n in s.nodes[p].children
  }

  ghost predicate IsChild(s: State, n: nat) {
    exists p: nat :: IsChildOf(s, n, p)
  }

  function Count(b: bool): nat {
    if b then 1 else 0
  }

  /** Every node is free, pending, a child of one query, or being drained, and only one of
      these; and the two indexes hold the same queries. */
  lemma OnePlaceEach(s: State, n: nat)
    requires Inv(s) && n < |s.nodes|
    ensures Count(n in s.free) + Count(IsPending(s, n)) + Count(IsChild(s, n)) + Count(n in s.drains) == 1
    ensures forall p: nat, q: nat :: IsChildOf(s, n, p) && IsChildOf(s, n, q) ==> p == q
    ensures IsPending(s, n) <==> exists k :: k in s.byRes && s.byRes[k] == n
    ensures IsPending(s, n) ==> && s.nodes[n].id in s.byId && s.byId[s.nodes[n].id] == n
                                && s.nodes[n].key in s.byRes && s.byRes[s.nodes[n].key] == n
  {
    assert Placed(s, n) && NodeIndexed(s, n);
    PendingByRole(s, n);
    forall p: nat | IsChildOf(s, n, p) ensures s.roles[n] == Child(p) {
      PendingByRole(s, p);
      assert Placed(s, p);
    }
    if s.roles[n].Child? {
      var p := s.roles[n].parent;
      PendingByRole(s, p);
      assert Placed(s, p);
      assert IsChildOf(s, n, p);
    }
    forall k | k in s.byRes && s.byRes[k] == n ensures IsPending(s, n) { assert KeyIndexed(s, k); }
  }

  lemma PendingByRole(s: State, n: nat)
    requires Inv(s) && n < |s.nodes|
    ensures IsPending(s, n) <==> s.roles[n].Pending?
    ensures IsPending(s, n) ==> s.nodes[n].id in s.byId && s.byId[s.nodes[n].id] == n && s.nodes[n].key in s.byRes
  {
    assert NodeIndexed(s, n);
    forall i | i in s.byId && s.byId[i] == n ensures s.roles[n].Pending? { assert IdIndexed(s, i); }
  }

  /** Ids are never 0, and 65535 allocations in a row hand out different ones. */
  lemma IdsAreDistinct(a: nat, b: nat)
    ensures 1 <= IdOf(a) <= LAST_ID && NextId(IdOf(a)) == IdOf(a + 1)
    ensures a < b < a + LAST_ID ==> IdOf(a) != IdOf(b)
  {
    if a < b < a + LAST_ID {
      assert b % LAST_ID == (a % LAST_ID + (b - a)) % LAST_ID by {
        assert b == LAST_ID * (a / LAST_ID) + (a % LAST_ID + (b - a));
      }
    }
  }

  /** No pending query is older than 65534 allocations. */
  ghost predicate Young(s: State)
    requires Shape(s)
  {
    forall n :: 0 <= n < |s.nodes| && s.roles[n].Pending? ==> s.allocs < s.births[n] + LAST_ID
  }

  lemma IdsStayFresh(s: State)
    requires Inv(s) && Young(s)
    ensures s.lastId !in s.byId
  {
    if s.lastId in s.byId {
      assert IdIndexed(s, s.lastId);
      var n := s.byId[s.lastId];
      assert NodeAged(s, n);
      IdsAreDistinct(s.births[n], s.allocs);
    }
  }

  /** A run in which nothing is asked of the ids, but no query ever grows that old */
  ghost predicate YoungRun(s: State, clock: Time, acts: seq<Timed>, t: State)
    decreases |acts|
  {
    if acts == [] then t == s
    else
      && clock <= acts[0].now && Shape(s) && Young(s) && Permitted(s, acts[0].action)
      && YoungRun(Step(s, acts[0].action, acts[0].now), acts[0].now, acts[1..], t)
  }

  /** If no query outlives 65534 later allocations, every id that is handed out is free: all that
      holds over runs holds, whatever is started. */
  lemma {:induction false} YoungRunsAreRuns(s: State, clock: Time, acts: seq<Timed>, t: State)
    requires Inv(s) && YoungRun(s, clock, acts, t)
    ensures Run(s, clock, acts, t) && Inv(t)
    decreases |acts|
  {
    hide Inv, Step, Possible, InTime, TakesId;
    if acts != [] {
      IdsStayFresh(s);
      StepInv(s, acts[0].action, acts[0].now);
      YoungRunsAreRuns(Step(s, acts[0].action, acts[0].now), acts[0].now, acts[1..], t);
    }
  }

  /** Registering a query keeps the two indexes in agreement exactly when its id is free. */
  lemma ReusedIdBreaksTheIndex(s: State, key: Key, cb: Option<nat>, timerOk: bool, now: Time)
    requires Inv(s) && key !in s.byRes && (cb == None || cb == Some(s.requests))
    requires StartParent(s, key, cb, timerOk, now).status == Success
    ensures var t := StartParent(s, key, cb, timerOk, now).s;
            Shape(t) && (Indexed(t) <==> s.lastId !in s.byId)
  {
    hide Ids, Ledger, Roster, Prepare, Transmit;
    if s.lastId !in s.byId {
      StartParentInv(s, key, cb, timerOk, now);
    } else {
      PrepareEffect(s, key, cb);
      var (n, s1) := Prepare(s, key, cb);
      TransmitEffect(s1, n, now, timerOk);
      var (_, s2) := Transmit(s1, n, now, timerOk);
      var t := Register(s2, n);
      assert IdIndexed(s, s.lastId);
      var other := s.byId[s.lastId];
      TransmitEnters(s, s1, s2, n);
      assert SameNode(s, s2, n, other);
      assert other != n && t.roles[other].Pending? && t.nodes[other].id == s.lastId && t.byId[s.lastId] == n;
      assert !NodeIndexed(t, other);
    }
  }

  // ----- Transmissions -----

  /** The query with the birth `b` is pending in node `n`. */
  predicate Lives(s: State, n: nat, b: nat) {
    n < |s.nodes| && |s.roles| == |s.births| == |s.nodes| && s.roles[n].Pending? && s.births[n] == b
  }

  function Firing(a: Action, n: nat): nat {
    if a.Fire? && a.node == n then 1 else 0
  }

  function Fires(acts: seq<Timed>, n: nat): nat {
    if acts == [] then 0 else Firing(acts[0].action, n) + Fires(acts[1..], n)
  }

  /** What a step does to the count of the query with birth `b`: it ends it, or counts the
      firings of its timer; and a query that is over never comes back. */
  ghost predicate Counts(s: State, t: State, n: nat, b: nat, fires: nat) {
    && s.allocs <= t.allocs && t.settings == s.settings
    && (!Lives(s, n, b) ==> !Lives(t, n, b))
    && (Lives(s, n, b) && Lives(t, n, b) ==> t.nodes[n].transmitCnt == s.nodes[n].transmitCnt + fires)
  }

  lemma FireCounts(s: State, m: nat, timerOk: bool, now: Time, n: nat, b: nat)
    requires Inv(s) && Enabled(s, Fire(m, timerOk), now)
    ensures Counts(s, Timeout(s, m, timerOk, now), n, b, if m == n then 1 else 0)
  {
    hide Ids, Ledger, Roster, Transmit;
    assert NodeIndexed(s, m) && NodeIndexed(s, n);
    var s1 := s.(nodes := s.nodes[m := s.nodes[m].(armed := false)]);
    TransmitEffect(s1, m, now, timerOk);
  }

  lemma ChildCounts(s: State, p: nat, cb: Option<nat>, n: nat, b: nat)
    requires Inv(s) && p < |s.nodes|
    ensures Counts(s, StartChild(s, p, cb), n, b, 0)
  {
    hide Ids, Indexed, Ledger, AllocNode;
    AllocEnters(s, Child(p), cb);
    var (m, t) := AllocNode(s, Child(p), cb);
    assert SameNode(s, t, m, n);
  }

  lemma ParentCounts(s: State, key: Key, cb: Option<nat>, timerOk: bool, now: Time, n: nat, b: nat)
    requires Inv(s) && b < s.allocs
    ensures Counts(s, StartParent(s, key, cb, timerOk, now).s, n, b, 0)
  {
    hide Ids, Indexed, Ledger, Prepare, Transmit;
    PrepareEffect(s, key, cb);
    var (m, s1) := Prepare(s, key, cb);
    TransmitEffect(s1, m, now, timerOk);
    var (status, s2) := Transmit(s1, m, now, timerOk);
    TransmitEnters(s, s1, s2, m);
    NewBirth(s, s2, m, n, b);
  }

  lemma NewBirth(s: State, t: State, m: nat, n: nat, b: nat)
    requires Shape(s) && Shape(t) && Enters(s, t, m) && b < s.allocs && t.settings == s.settings
    requires t.births[m] == s.allocs && t.allocs == s.allocs + 1 && t.roles[m].Free?
    ensures Counts(s, t, n, b, 0) && Counts(s, Register(t, m), n, b, 0)
    ensures Counts(s, t.(free := t.free + [m]), n, b, 0)
  {
    assert SameNode(s, t, m, n);
  }

  lemma StartCounts(s: State, name: Name, qtype: int, hasCb: bool, timerOk: bool, now: Time, n: nat, b: nat)
    requires Inv(s) && b < s.allocs
    ensures Counts(s, StartQuery(s, name, qtype, hasCb, timerOk, now).s, n, b, 0)
  {
    hide StartChild, StartParent, Ids, Indexed, Roster, Ledger, InitKey;
    if 0 < |name| < MAX_HOSTNAME && 0 < qtype < 0xFFFF {
      var key := InitKey(qtype, name);
      if Lookup(s.cache, key, now).None? {
        var s0 := s.(cache := Evict(s.cache, key, now));
        var cb := if hasCb then Some(s.requests) else None;
        FrameInv(s, s0);
        if key in s.byRes {
          ChildCounts(s0, s.byRes[key], cb, n, b);
        } else {
          ParentCounts(s0, key, cb, timerOk, now, n, b);
        }
      }
    }
  }

  lemma StepTransmits(s: State, a: Action, now: Time, n: nat, b: nat)
    requires Inv(s) && Enabled(s, a, now) && b < s.allocs
    ensures Counts(s, Step(s, a, now), n, b, Firing(a, n))
  {
    hide Roster, Indexed, Ids, Ledger;
    match a
    case Start(name, qtype, hasCb, timerOk) => StartCounts(s, name, qtype, hasCb, timerOk, now, n, b);
    case CancelQuery(m, notify) => CancelCounts(s, m, notify, n, b);
    case Fire(m, timerOk) => FireCounts(s, m, timerOk, now, n, b);
    case Packets(from, pkt) => ReceiveCounts(s, from, pkt, now, n, b);
    case CallNext(q) => CallCounts(s, q, n, b);
    case Close(q, saved) => CloseCounts(s, q, saved, now, n, b);
    case Inject(pkt, setTtl) =>
    case Nameservers(addresses) =>
  }

  lemma CancelCounts(s: State, m: nat, notify: bool, n: nat, b: nat)
    requires Inv(s) && Enabled(s, CancelQuery(m, notify), 0)
    ensures Counts(s, Cancel(s, m, notify), n, b, 0)
  {
    hide Roster, Indexed, Ids, Ledger;
  }

  lemma CallCounts(s: State, q: nat, n: nat, b: nat)
    requires Inv(s) && Enabled(s, CallNext(q), 0)
    ensures Counts(s, Notify(s, q), n, b, 0)
  {
  }

  lemma ReceiveCounts(s: State, from: Endpoint, pkt: Option<Packet>, now: Time, n: nat, b: nat)
    requires Inv(s)
    ensures Counts(s, Receive(s, from, pkt, now), n, b, 0)
  {
    hide Ids, Ledger, Roster, Report;
    if pkt.Some? {
      assert IdIndexed(s, pkt.value.id);
    }
  }

  lemma CloseCounts(s: State, q: nat, saved: Packet, now: Time, n: nat, b: nat)
    requires Inv(s) && Enabled(s, Close(q, saved), now)
    ensures Counts(s, Finish(s, q, saved, now), n, b, 0)
  {
    assert Placed(s, q);
  }

  lemma {:induction false} Gone(s: State, clock: Time, acts: seq<Timed>, t: State, n: nat, b: nat)
    requires Inv(s) && Run(s, clock, acts, t) && b < s.allocs && !Lives(s, n, b)
    ensures !Lives(t, n, b)
    decreases |acts|
  {
    if acts != [] {
      StepTransmits(s, acts[0].action, acts[0].now, n, b);
      StepInv(s, acts[0].action, acts[0].now);
      Gone(Step(s, acts[0].action, acts[0].now), acts[0].now, acts[1..], t, n, b);
    }
  }

  /** A query that is pending at both ends of a run was transmitted once for every firing of
      its timer in between, and never more than max(1, qretr_count) times in all: so it is
      over after that many firings. */
  lemma {:induction false} TransmittedBoundedly(s: State, clock: Time, acts: seq<Timed>, t: State, n: nat)
    requires Inv(s) && Run(s, clock, acts, t)
    requires n < |s.nodes| && s.roles[n].Pending? && Lives(t, n, s.births[n])
    ensures t.nodes[n].transmitCnt == s.nodes[n].transmitCnt + Fires(acts, n) <= MaxTransmits(s.settings)
    decreases |acts|
  {
    assert NodeAged(s, n);
    if acts != [] {
      var a := acts[0];
      StepTransmits(s, a.action, a.now, n, s.births[n]);
      StepInv(s, a.action, a.now);
      LaterTransmits(s, Step(s, a.action, a.now), a.now, acts[1..], t, n);
      TransmittedBoundedly(Step(s, a.action, a.now), a.now, acts[1..], t, n);
    }
  }

  lemma LaterTransmits(s: State, u: State, clock: Time, acts: seq<Timed>, t: State, n: nat)
    requires Inv(u) && Run(u, clock, acts, t) && n < |s.nodes| && |s.births| == |s.nodes|
    requires Lives(t, n, s.births[n]) && s.births[n] < s.allocs <= u.allocs
    ensures Lives(u, n, s.births[n])
  {
    if !Lives(u, n, s.births[n]) {
      Gone(u, clock, acts, t, n, s.births[n]);
    }
  }

  // ----- The cache -----

  ghost predicate CacheInv(s: State, clock: Time) {
    Refines(s.settings.cacheMaxTtl, s.cache, s.log, clock)
  }

  lemma LaterCache(s: State, clock: Time, now: Time)
    requires CacheInv(s, clock) && clock <= now
    ensures CacheInv(s, now)
  {
    EvictRefines(s.settings.cacheMaxTtl, s.cache, s.log, clock, NO_KEY, now);
  }

  lemma StepCache(s: State, a: Action, clock: Time, now: Time)
    requires Shape(s) && Enabled(s, a, now) && CacheInv(s, clock) && clock <= now
    ensures CacheInv(Step(s, a, now), now)
  {
    hide CacheInv, StartQuery, Cancel, Notify, Timeout, Receive, Finish, AddEntry;
    LaterCache(s, clock, now);
    match a
    case Start(name, qtype, hasCb, timerOk) => StartCache(s, name, qtype, hasCb, timerOk, clock, now);
    case CancelQuery(n, notify) => CancelEffect(s, n, notify); SameCache(s, Cancel(s, n, notify), now);
    case Fire(n, timerOk) => SameCache(s, Timeout(s, n, timerOk, now), now);
    case Packets(from, pkt) => SameCache(s, Receive(s, from, pkt, now), now);
    case CallNext(q) => NotifyEffect(s, q); SameCache(s, Notify(s, q), now);
    case Close(q, saved) => CloseCache(s, q, saved, now);
    case Inject(pkt, setTtl) => InjectCache(s, pkt, setTtl, now);
    case Nameservers(addresses) => SameCache(s, SetNs(s, addresses, now), now);
  }

  lemma NotifyEffect(s: State, q: nat)
    requires q in s.drains && s.drains[q].todo != [] && s.drains[q].todo[0] < |s.nodes|
    ensures var t := Notify(s, q); t == s.(drains := t.drains, calls := t.calls, owed := t.owed)
  {
  }

  lemma SameCache(s: State, t: State, now: Time)
    requires CacheInv(s, now) && t.cache == s.cache && t.log == s.log && t.settings == s.settings
    ensures CacheInv(t, now)
  {
  }

  lemma CloseCache(s: State, q: nat, saved: Packet, now: Time)
    requires CacheInv(s, now) && q in s.drains && q < |s.nodes|
    ensures CacheInv(Finish(s, q, saved, now), now)
  {
    UpdateKeeps(s, s.nodes[q].key, s.drains[q].status.Success?, true, saved, now);
  }

  lemma InjectCache(s: State, pkt: Packet, setTtl: bool, now: Time)
    requires CacheInv(s, now)
    ensures CacheInv(AddEntry(s, pkt, setTtl, now), now)
  {
    if EntryStatus(pkt) == Success {
      UpdateKeeps(s, EntryKey(pkt), true, setTtl, pkt, now);
    }
  }

  lemma UpdateKeeps(s: State, key: Key, success: bool, setExpiry: bool, pkt: Packet, now: Time)
    requires CacheInv(s, now)
    ensures CacheInv(UpdateCache(s, key, success, setExpiry, pkt, now), now)
  {
    PutRefines(s.settings.cacheMaxTtl, s.cache, s.log, now, Event(key, success, setExpiry, pkt, now));
  }

  lemma StartCache(s: State, name: Name, qtype: int, hasCb: bool, timerOk: bool, clock: Time, now: Time)
    requires Shape(s) && CacheInv(s, clock) && clock <= now
    ensures CacheInv(StartQuery(s, name, qtype, hasCb, timerOk, now).s, now)
  {
    EvictRefines(s.settings.cacheMaxTtl, s.cache, s.log, clock, if 0 < qtype then InitKey(qtype, name) else NO_KEY, now);
    StartKeepsCache(s, name, qtype, hasCb, timerOk, now);
  }

  lemma StartKeepsCache(s: State, name: Name, qtype: int, hasCb: bool, timerOk: bool, now: Time)
    requires Shape(s)
    ensures var t := StartQuery(s, name, qtype, hasCb, timerOk, now).s;
            && t.log == s.log && t.settings == s.settings
            && (t.cache == s.cache || (0 < qtype && t.cache == Evict(s.cache, InitKey(qtype, name), now)))
  {
    if 0 < |name| < MAX_HOSTNAME && 0 < qtype < 0xFFFF {
      var key := InitKey(qtype, name);
      if Lookup(s.cache, key, now).None? {
        var s0 := s.(cache := Evict(s.cache, key, now));
        var cb := if hasCb then Some(s.requests) else None;
        if key !in s.byRes {
          ParentKeepsCache(s0, key, cb, timerOk, now);
        }
      }
    }
  }

  lemma ParentKeepsCache(s: State, key: Key, cb: Option<nat>, timerOk: bool, now: Time)
    requires Shape(s)
    ensures var t := StartParent(s, key, cb, timerOk, now).s;
            t.log == s.log && t.cache == s.cache && t.settings == s.settings && t.calls == s.calls
  {
  }

  /** The time of the last action */
  function EndOf(clock: Time, acts: seq<Timed>): Time {
    if acts == [] then clock else acts[|acts| - 1].now
  }

  lemma {:induction false} RunCache(s: State, clock: Time, acts: seq<Timed>, t: State)
    requires CacheInv(s, clock) && Run(s, clock, acts, t)
    ensures CacheInv(t, EndOf(clock, acts))
    decreases |acts|
  {
    hide Step, Refines;
    if acts != [] {
      StepCache(s, acts[0].action, clock, acts[0].now);
      RunCache(Step(s, acts[0].action, acts[0].now), acts[0].now, acts[1..], t);
    }
  }

  lemma CacheServes(t: State, clock: Time, name: Name, qtype: int, timerOk: bool, now: Time)
    requires Shape(t) && CacheInv(t, clock) && clock <= now
    requires 0 < |name| < MAX_HOSTNAME && 0 < qtype < 0xFFFF
    ensures var hit := LookupLog(t.settings.cacheMaxTtl, t.log, InitKey(qtype, name), now);
            StartQuery(t, name, qtype, true, timerOk, now).s.calls ==
              if hit.None? then t.calls
              else t.calls + [Call(t.requests, FromRcode(Rcode(hit.value.pkt.flags)), Some(hit.value.pkt))]
  {
    var key := InitKey(qtype, name);
    EvictRefines(t.settings.cacheMaxTtl, t.cache, t.log, clock, key, now);
    if Lookup(t.cache, key, now).None? {
      var s0 := t.(cache := Evict(t.cache, key, now));
      var u := if key in t.byRes then StartChild(s0, t.byRes[key], Some(t.requests))
               else StartParent(s0, key, Some(t.requests), timerOk, now).s;
      assert u.calls == s0.calls;
    }
  }

  /** In every run a request is answered from the cache exactly when the last update for its
      key, whatever was evicted since, kept its response and has not expired; the answer is
      that response. */
  lemma CacheAnswersFromTheLog(settings: Settings, ns: seq<Nameserver>, clock: Time, acts: seq<Timed>, t: State,
                               name: Name, qtype: int, timerOk: bool, now: Time)
    requires Run(Initial(settings, ns), clock, acts, t) && EndOf(clock, acts) <= now
    requires 0 < |name| < MAX_HOSTNAME && 0 < qtype < 0xFFFF
    ensures Shape(t)
    ensures var hit := LookupLog(t.settings.cacheMaxTtl, t.log, InitKey(qtype, name), now);
            StartQuery(t, name, qtype, true, timerOk, now).s.calls ==
              if hit.None? then t.calls
              else t.calls + [Call(t.requests, FromRcode(Rcode(hit.value.pkt.flags)), Some(hit.value.pkt))]
  {
    var s := Initial(settings, ns);
    InitialInv(settings, ns);
    RunInv(s, clock, acts, t);
    forall k ensures RefinesAt(settings.cacheMaxTtl, s.cache, s.log, clock, k) {}
    RunCache(s, clock, acts, t);
    CacheServes(t, EndOf(clock, acts), name, qtype, timerOk, now);
  }

  /** Whenever a response matches a query, the query's timer is running: what the source
      asserts before it cancels the timer. */
  lemma TimerIsArmed(s: State, id: nat)
    requires Inv(s) && id in s.byId
    ensures s.nodes[s.byId[id]].armed && s.roles[s.byId[id]].Pending?
  {
    assert IdIndexed(s, id) && NodeAged(s, s.byId[id]);
  }

  // ----- The order of callbacks -----

  /** The callbacks of a list of nodes, in order; a node with none is passed over. */
  function CallsOf(nodes: seq<Node>, todo: seq<nat>, status: Status, pkt: Option<Packet>): seq<Call> {
    if todo == [] then []
    else CallOf(nodes, todo[0], status, pkt) + CallsOf(nodes, todo[1..], status, pkt)
  }

  function CallOf(nodes: seq<Node>, n: nat, status: Status, pkt: Option<Packet>): seq<Call> {
    if n < |nodes| && nodes[n].cb.Some? then [Call(nodes[n].cb.value, status, pkt)] else []
  }

  /** A drain run to its end with nothing in between */
  ghost function NotifyAll(s: State, q: nat): (t: State)
    requires Inv(s) && q in s.drains
    ensures Inv(t) && q in t.drains && t.drains[q] == s.drains[q].(todo := []) && t.nodes == s.nodes
    ensures t.settings == s.settings && q < |t.nodes|
    decreases |if q in s.drains then s.drains[q].todo else []|
  {
    TodoOf(s, q);
    if s.drains[q].todo == [] then s
    else
      assert s.drains[q].todo[0] in s.drains[q].todo;
      NotifyInv(s, q);
      NotifyAll(Notify(s, q), q)
  }

  lemma NotifyCalls(s: State, q: nat)
    requires Inv(s) && q in s.drains && s.drains[q].todo != [] && s.drains[q].todo[0] < |s.nodes|
    ensures var d, t := s.drains[q], Notify(s, q);
            && t.calls == s.calls + CallOf(s.nodes, d.todo[0], d.status, d.pkt)
            && q in t.drains && t.drains[q] == d.(todo := d.todo[1..]) && t.nodes == s.nodes
  {
  }

  lemma {:induction false} NotifyAllCalls(s: State, q: nat)
    requires Inv(s) && q in s.drains
    ensures var d := s.drains[q]; NotifyAll(s, q).calls == s.calls + CallsOf(s.nodes, d.todo, d.status, d.pkt)
    decreases |s.drains[q].todo|
  {
    hide Ids, Indexed, Ledger, CallOf, Notify;
    var d := s.drains[q];
    if d.todo != [] {
      TodoOf(s, q);
      assert d.todo[0] in d.todo;
      NotifyInv(s, q);
      NotifyCalls(s, q);
      NotifyAllCalls(Notify(s, q), q);
    }
  }

  /** What a timeout has to save in the cache: nothing is done with it. */
  const NO_PACKET := Packet(0, 0, [], [], [], [])

  /** A whole on_timeout with nothing in between its callbacks */
  ghost function TimeoutAll(s: State, n: nat, timerOk: bool, now: Time): (t: State)
    requires Inv(s) && Enabled(s, Fire(n, timerOk), now)
    ensures Inv(t)
  {
    TimeoutInv(s, n, timerOk, now);
    var t := Timeout(s, n, timerOk, now);
    if s.nodes[n].id in s.byId && n in t.drains then DrainAll(t, n, NO_PACKET, now) else t
  }

  ghost function DrainAll(s: State, q: nat, saved: Packet, now: Time): (t: State)
    requires Inv(s) && q in s.drains
    ensures Inv(t)
  {
    FinishInv(NotifyAll(s, q), q, saved, now);
    Finish(NotifyAll(s, q), q, saved, now)
  }

  /** A response to a pending query is told to the query first and then to its children in
      the order they joined, all with the same status and packet. */
  lemma ResponseReachesTheFamily(s: State, from: Endpoint, pkt: Packet, now: Time)
    requires Inv(s) && pkt.id in s.byId
    ensures var q := s.byId[pkt.id];
            var t := Receive(s, from, Some(pkt), now);
            && q < |s.nodes| && Inv(t) && q in t.drains
            && NotifyAll(t, q).calls ==
                 s.calls + CallsOf(s.nodes, [q] + s.nodes[q].children, FromRcode(Rcode(pkt.flags)), Some(pkt))
  {
    hide Ids, Ledger, Report;
    var q := s.byId[pkt.id];
    var t := Receive(s, from, Some(pkt), now);
    assert IdIndexed(s, pkt.id) && Placed(s, q);
    ReceiveInv(s, from, Some(pkt), now);
    NotifyAllCalls(t, q);
    SameCalls(t.nodes, s.nodes, [q] + s.nodes[q].children, FromRcode(Rcode(pkt.flags)), Some(pkt));
  }

  lemma {:induction false} SameCalls(a: seq<Node>, b: seq<Node>, todo: seq<nat>, status: Status, pkt: Option<Packet>)
    requires |a| == |b| && forall i :: 0 <= i < |a| ==> a[i].cb == b[i].cb
    ensures CallsOf(a, todo, status, pkt) == CallsOf(b, todo, status, pkt)
  {
    if todo != [] {
      SameCalls(a, b, todo[1..], status, pkt);
    }
  }

  // ----- What the source does not prevent -----

  /** Whatever query with a callback is pending: its response comes in, its callback is
      made, and a notified cancellation before the handler takes the lock back makes the
      application hear of the same request twice. */
  lemma CalledBackTwice(s: State, from: Endpoint, pkt: Packet, now: Time)
    requires Inv(s) && pkt.id in s.byId && s.nodes[s.byId[pkt.id]].cb.Some?
    ensures var q := s.byId[pkt.id];
            var t := Receive(s, from, Some(pkt), now);
            && Shape(t) && Enabled(t, CallNext(q), now)
            && var u := Notify(t, q);
               Shape(u) && q < |u.nodes| && u.roles[q].Draining? && u.nodes[q].cb.Some? && !AtMostOnce(Cancel(u, q, true).calls)
  {
    var q := s.byId[pkt.id];
    var t := Receive(s, from, Some(pkt), now);
    assert IdIndexed(s, pkt.id);
    ReceiveInv(s, from, Some(pkt), now);
    NotifyInv(t, q);
    NotifyRoster(t, Notify(t, q), q);
    NotifyWaiting(t, Notify(t, q), q, q);
    NotifiedTwice(Notify(t, q), q);
  }
}
