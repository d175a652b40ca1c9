/** When a query has lost its callback, so that a notified cancellation calls a null pointer. */
module ResolverNull {
  import opened Bytes
  import opened DnsPacket
  import opened Wrappers
  import opened Nameservers
  import opened ResolverCache
  import opened ResolverModel
  import opened ResolverSafety
  import opened ResolverRuns
  import opened ResolverIds
  import opened ResolverLate

  predicate Cancels(a: Action, n: nat) {
    a.CancelQuery? && a.handle == n
  }

  /** The query in `n` was cancelled before. */
  predicate CancelledIn(acts: seq<Timed>, n: nat) {
    exists i :: 0 <= i < |acts| && Cancels(acts[i].action, n)
  }

  /** The handle stays good: the query is pending, or being told its result. */
  ghost predicate InUse(s: State, acts: seq<Timed>, n: nat)
    decreases |acts|
  {
    && n < |s.nodes| == |s.roles| && Parent(s.roles[n])
    && (acts != [] ==>
          && Shape(s) && Enabled(s, acts[0].action, acts[0].now)
          && InUse(Step(s, acts[0].action, acts[0].now), acts[1..], n))
  }

  /** The callback of a query in use, after a step */
  ghost predicate Keeps(s: State, t: State, n: nat) {
    n < |s.nodes| && n < |t.nodes| && t.nodes[n].cb == s.nodes[n].cb
  }

  lemma ChildKeeps(s: State, p: nat, cb: Option<nat>, n: nat)
    requires Inv(s) && p < |s.nodes| && n < |s.nodes| && Parent(s.roles[n])
    ensures Keeps(s, StartChild(s, p, cb), n)
  {
    hide Ids, Indexed, Ledger, AllocNode;
    AllocKeeps(s, Child(p), cb);
  }

  lemma ParentKeeps(s: State, key: Key, cb: Option<nat>, timerOk: bool, now: Time, n: nat)
    requires Inv(s) && n < |s.nodes| && Parent(s.roles[n])
    ensures Keeps(s, StartParent(s, key, cb, timerOk, now).s, n)
  {
    hide Ids, Indexed, Ledger, Prepare, Transmit;
    PrepareEffect(s, key, cb);
    var (m, s1) := Prepare(s, key, cb);
    assert SameNode(s, s1, m, n);
    TransmitEffect(s1, m, now, timerOk);
  }

  lemma StartKeeps(s: State, name: Name, qtype: int, hasCb: bool, timerOk: bool, now: Time, n: nat)
    requires Inv(s) && n < |s.nodes| && Parent(s.roles[n])
    ensures Keeps(s, StartQuery(s, name, qtype, hasCb, timerOk, now).s, n)
  {
    hide StartParent, StartChild, InitKey, Inv;
    RosterOf(s);
    if 0 < |name| < MAX_HOSTNAME && 0 < qtype < 0xFFFF {
      var key := InitKey(qtype, name);
      var s0 := s.(cache := Evict(s.cache, key, now));
      FrameInv(s, s0);
      if Lookup(s.cache, key, now).None? {
        var cb := if hasCb then Some(s.requests) else None;
        if key in s.byRes {
          ChildKeeps(s0, s.byRes[key], cb, n);
        } else {
          ParentKeeps(s0, key, cb, timerOk, now, n);
        }
      }
    }
  }

  lemma FireKeeps(s: State, m: nat, timerOk: bool, now: Time, n: nat)
    requires Shape(s) && m < |s.nodes| && n < |s.nodes|
    ensures Keeps(s, Timeout(s, m, timerOk, now), n)
  {
    hide Transmit;
    TransmitEffect(s.(nodes := s.nodes[m := s.nodes[m].(armed := false)]), m, now, timerOk);
  }

  lemma ReceiveKeeps(s: State, from: Endpoint, pkt: Option<Packet>, now: Time, n: nat)
    requires Shape(s) && n < |s.nodes|
    ensures Keeps(s, Receive(s, from, pkt, now), n)
  {
    hide Report;
  }

  lemma NotifyKeeps(s: State, q: nat, n: nat)
    requires q in s.drains && s.drains[q].todo != [] && s.drains[q].todo[0] < |s.nodes| && n < |s.nodes|
    ensures Keeps(s, Notify(s, q), n)
  {
  }

  lemma FinishKeeps(s: State, q: nat, saved: Packet, now: Time, n: nat)
    requires q < |s.nodes| && q in s.drains && n < |s.nodes|
    ensures Keeps(s, Finish(s, q, saved, now), n)
  {
    hide FreeRoles, Put, EntryOf;
  }

  lemma CancelKeeps(s: State, m: nat, notify: bool, n: nat)
    requires m < |s.nodes| && n < |s.nodes| && !CallsNull(s, m, notify)
    ensures var t := Cancel(s, m, notify); n < |t.nodes| && t.nodes[n].cb == if m == n then None else s.nodes[n].cb
  {
    CancelEffect(s, m, notify);
  }

  lemma StepKeepsCallback(s: State, a: Action, now: Time, n: nat)
    requires Inv(s) && Enabled(s, a, now) && n < |s.nodes| && Parent(s.roles[n])
    ensures var t := Step(s, a, now); n < |t.nodes| && t.nodes[n].cb == if Cancels(a, n) then None else s.nodes[n].cb
  {
    hide Inv, StartQuery, Cancel, Timeout, Receive, Notify, Finish;
    RosterOf(s);
    match a
    case Start(name, qtype, hasCb, timerOk) => StartKeeps(s, name, qtype, hasCb, timerOk, now, n);
    case CancelQuery(m, notify) => CancelKeeps(s, m, notify, n);
    case Fire(m, timerOk) => FireKeeps(s, m, timerOk, now, n);
    case Packets(from, pkt) => ReceiveKeeps(s, from, pkt, now, n);
    case CallNext(q) => NotifyKeeps(s, q, n);
    case Close(q, saved) => FinishKeeps(s, q, saved, now, n);
    case Inject(_, _) =>
    case Nameservers(_) =>
  }

  /** A query has no callback exactly if it had none when the run began, or has been cancelled in it:
      a notified cancellation then calls a null pointer. */
  lemma {:induction false} CallbackIsGone(s: State, clock: Time, acts: seq<Timed>, t: State, n: nat)
    requires Inv(s) && Run(s, clock, acts, t) && InUse(s, acts, n)
    ensures n < |t.nodes| && (CallsNull(t, n, true) <==> s.nodes[n].cb.None? || CancelledIn(acts, n))
    decreases |acts|
  {
    hide Inv, Step, Possible, FreshId;
    if acts != [] {
      var a, now := acts[0].action, acts[0].now;
      StepKeepsCallback(s, a, now, n);
      StepInv(s, a, now);
      CallbackIsGone(Step(s, a, now), now, acts[1..], t, n);
      CancelledSplit(acts, n);
    }
  }

  lemma CancelledSplit(acts: seq<Timed>, n: nat)
    requires acts != []
    ensures CancelledIn(acts, n) <==> Cancels(acts[0].action, n) || CancelledIn(acts[1..], n)
  {
    var rest := acts[1..];
    if CancelledIn(rest, n) {
      var i :| 0 <= i < |rest| && Cancels(rest[i].action, n);
      assert Cancels(acts[i + 1].action, n);
    }
    if CancelledIn(acts, n) {
      var i :| 0 <= i < |acts| && Cancels(acts[i].action, n);
      assert i > 0 ==> Cancels(rest[i - 1].action, n);
    }
  }

  /** And when a query is started it has a callback exactly if one was given. */
  lemma StartedWith(s: State, name: Name, qtype: int, hasCb: bool, timerOk: bool, now: Time)
    requires Inv(s)
    ensures var r := StartQuery(s, name, qtype, hasCb, timerOk, now);
            r.handle.Some? ==> r.handle.value < |r.s.nodes| && (r.s.nodes[r.handle.value].cb.Some? <==> hasCb)
  {
    hide StartParent, StartChild, InitKey, Inv;
    if 0 < |name| < MAX_HOSTNAME && 0 < qtype < 0xFFFF {
      var key := InitKey(qtype, name);
      var s0 := s.(cache := Evict(s.cache, key, now));
      FrameInv(s, s0);
      if Lookup(s.cache, key, now).None? && key !in s.byRes {
        RosterOf(s0);
        HandleHasCallback(s0, key, if hasCb then Some(s.requests) else None, timerOk, now);
      }
    }
  }

  lemma HandleHasCallback(s: State, key: Key, cb: Option<nat>, timerOk: bool, now: Time)
    requires Inv(s)
    ensures var r := StartParent(s, key, cb, timerOk, now);
            r.handle.Some? ==> r.handle.value < |r.s.nodes| && r.s.nodes[r.handle.value].cb == cb
  {
    hide Ids, Indexed, Ledger, Prepare, Transmit;
    PrepareEffect(s, key, cb);
    var (m, s1) := Prepare(s, key, cb);
    TransmitEffect(s1, m, now, timerOk);
  }

  /** A query that is started without a callback, and then cancelled with notification */
  lemma NullIsCalled() returns (t: State, n: nat)
    ensures Run(Initial(SETTINGS, [SERVER]), 0, [First()], t) && IsPending(t, n) && n < |t.nodes| && CallsNull(t, n, true)
  {
    hide Inv, StartQuery, StartParent, TakesId, InitKey;
    FirstStart();
    var s := Initial(SETTINGS, [SERVER]);
    RosterOf(s);
    t := Step(s, First().action, 0);
    StartsNew(s, Waiter(), true);
    FirstIsSent();
    CallbackKept(s, KeyOf(Waiter()), None);
    n := t.byId[s.lastId];
    RunOfOne(s, First(), t);
  }

  lemma RunOfOne(s: State, first: Timed, t: State)
    requires first.now == 0 && Shape(s) && Enabled(s, first.action, 0) && t == Step(s, first.action, 0)
    ensures Run(s, 0, [first], t)
  {
    hide Step, Enabled;
    assert [first][1..] == [];
  }

  /** A response about a name of 128 bytes */
  function LongAnswer(): Packet {
    Packet(1, 0x8000, [], [RR(seq<byte>(MAX_HOSTNAME, i => 97), TYPE_A, CLASS_IN, 60, HostAddress([1, 2, 3, 4]))], [], [])
  }

  /** With it pj_dns_resolver_add_entry keeps the lock. */
  lemma LockIsKept()
    ensures EntryStatus(LongAnswer()) == NameTooLong
  {
  }
}
