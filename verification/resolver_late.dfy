/** Runs in which the application may ask to be notified of a cancellation at any time, also when
    the query has been called back. */
module ResolverLate {
  import opened DnsPacket
  import opened Wrappers
  import opened Nameservers
  import opened ResolverCache
  import opened ResolverModel
  import opened ResolverSafety
  import opened ResolverRuns
  import opened ResolverIds

  /** A run in which cancellations may come late, and ids are free when they are handed out, or no query
      has grown too old */
  ghost predicate FreeRun(s: State, clock: Time, acts: seq<Timed>, t: State)
    decreases |acts|
  {
    if acts == [] then t == s
    else
      && clock <= acts[0].now && Shape(s) && Possible(s, acts[0].action)
      && (FreshId(s, acts[0].action, acts[0].now) || Young(s))
      && FreeRun(Step(s, acts[0].action, acts[0].now), acts[0].now, acts[1..], t)
  }

  /** The action, with no notification asked for if it comes late */
  ghost function Hushed(s: State, a: Action): Action
    requires Shape(s)
  {
    if InTime(s, a) then a else CancelQuery(a.handle, false)
  }

  /** `all` is `once` with more callbacks in it, each of them saying to a request that has been
      called back that it is cancelled. */
  ghost predicate Repeats(all: seq<Call>, once: seq<Call>)
    decreases |all|
  {
    if all == [] then once == []
    else
      var most, last := all[..|all| - 1], all[|all| - 1];
      || (once != [] && once[|once| - 1] == last && Repeats(most, once[..|once| - 1]))
      || (Answered(once, last.request) && last == Call(last.request, Cancelled, None) && Repeats(most, once))
  }

  lemma RepeatsBoth(all: seq<Call>, once: seq<Call>, call: Call)
    requires Repeats(all, once)
    ensures Repeats(all + [call], once + [call])
  {
    assert (all + [call])[..|all|] == all && (once + [call])[..|once|] == once;
  }

  lemma RepeatsOne(all: seq<Call>, once: seq<Call>, request: nat)
    requires Repeats(all, once) && Answered(once, request)
    ensures Repeats(all + [Call(request, Cancelled, None)], once)
  {
    assert (all + [Call(request, Cancelled, None)])[..|all|] == all;
  }

  lemma {:induction false} SameAnswered(all: seq<Call>, once: seq<Call>, r: nat)
    requires Repeats(all, once)
    ensures Answered(all, r) <==> Answered(once, r)
    decreases |all|
  {
    if all != [] {
      var most, last := all[..|all| - 1], all[|all| - 1];
      assert all == most + [last];
      if once != [] && once[|once| - 1] == last && Repeats(most, once[..|once| - 1]) {
        assert once == once[..|once| - 1] + [last];
        SameAnswered(most, once[..|once| - 1], r);
        AnsweredSplit(most, last, r);
        AnsweredSplit(once[..|once| - 1], last, r);
      } else {
        SameAnswered(most, once, r);
        AnsweredSplit(most, last, r);
      }
    }
  }

  lemma AnsweredSplit(calls: seq<Call>, last: Call, r: nat)
    ensures Answered(calls + [last], r) <==> Answered(calls, r) || last.request == r
  {
    var all := calls + [last];
    assert all[|calls|] == last;
    if Answered(calls, r) {
      var i :| 0 <= i < |calls| && calls[i].request == r;
      assert all[i].request == r;
    }
  }

  lemma LastIsNew(once: seq<Call>)
    requires once != [] && AtMostOnce(once)
    ensures !Answered(once[..|once| - 1], once[|once| - 1].request)
  {
  }

  /** Only the first callback of a request is not the notification of a cancellation. */
  lemma {:induction false} FirstIsTheOne(all: seq<Call>, once: seq<Call>, i: nat, j: nat)
    requires Repeats(all, once) && AtMostOnce(once) && i < j < |all| && all[i].request == all[j].request
    ensures all[j] == Call(all[j].request, Cancelled, None)
    decreases |all|
  {
    var most, last := all[..|all| - 1], all[|all| - 1];
    if once != [] && once[|once| - 1] == last && Repeats(most, once[..|once| - 1]) {
      var before := once[..|once| - 1];
      if j < |all| - 1 {
        FirstIsTheOne(most, before, i, j);
      } else {
        assert most[i].request == last.request;
        SameAnswered(most, before, last.request);
        LastIsNew(once);
        assert false;
      }
    } else if j < |all| - 1 {
      FirstIsTheOne(most, once, i, j);
    }
  }

  // ----- What has happened does not matter to what happens -----

  /** The state with other callbacks behind it */
  function With(s: State, calls: seq<Call>): State {
    s.(calls := calls)
  }

  ghost predicate StepAlike(s: State, s': State, calls: seq<Call>, t': State) {
    && s.calls <= s'.calls && |s'.calls| <= |s.calls| + 1
    && t' == With(s', calls + s'.calls[|s.calls|..])
  }

  lemma Quiet(s: State, s': State, calls: seq<Call>, t': State)
    requires s'.calls == s.calls && t' == With(s', calls)
    ensures StepAlike(s, s', calls, t')
  {
    assert calls + s'.calls[|s.calls|..] == calls;
  }

  lemma OneCall(s: State, s': State, calls: seq<Call>, t': State, call: Call)
    requires s'.calls == s.calls + [call] && t' == With(s', calls + [call])
    ensures StepAlike(s, s', calls, t')
  {
  }

  lemma TransmitAlike(s: State, calls: seq<Call>, n: nat, now: Time, timerOk: bool)
    requires n < |s.nodes|
    ensures var r := Transmit(s, n, now, timerOk); Transmit(With(s, calls), n, now, timerOk) == (r.0, With(r.1, calls))
  {
    hide Selected, RefreshAll, MarkSent;
  }

  lemma AllocAlike(s: State, calls: seq<Call>, role: Role, cb: Option<nat>)
    requires Shape(s)
    ensures Shape(With(s, calls))
    ensures var r := AllocNode(s, role, cb); AllocNode(With(s, calls), role, cb) == (r.0, With(r.1, calls))
  {
  }

  lemma PrepareAlike(s: State, calls: seq<Call>, key: Key, cb: Option<nat>)
    requires Shape(s)
    ensures Shape(With(s, calls))
    ensures var r := Prepare(s, key, cb); Prepare(With(s, calls), key, cb) == (r.0, With(r.1, calls))
  {
    hide AllocNode;
    AllocAlike(s, calls, Free, cb);
  }

  lemma RegisterAlike(s: State, calls: seq<Call>, n: nat)
    requires Shape(s) && n < |s.nodes|
    ensures Shape(With(s, calls)) && Register(With(s, calls), n) == With(Register(s, n), calls)
  {
  }

  lemma ParentAlike(s: State, calls: seq<Call>, key: Key, cb: Option<nat>, timerOk: bool, now: Time)
    requires Shape(s)
    ensures Shape(With(s, calls))
    ensures var r := StartParent(s, key, cb, timerOk, now);
            StartParent(With(s, calls), key, cb, timerOk, now) == r.(s := With(r.s, calls)) && r.s.calls == s.calls
  {
    hide Transmit, Prepare, Register;
    PrepareAlike(s, calls, key, cb);
    var (n, s1) := Prepare(s, key, cb);
    TransmitAlike(s1, calls, n, now, timerOk);
    RegisterAlike(Transmit(s1, n, now, timerOk).1, calls, n);
  }

  lemma AdoptAlike(s: State, calls: seq<Call>, parent: nat, n: nat)
    requires Shape(s) && parent < |s.nodes| && n < |s.nodes|
    ensures Shape(With(s, calls)) && Adopt(With(s, calls), parent, n) == With(Adopt(s, parent, n), calls)
  {
  }

  lemma ChildAlike(s: State, calls: seq<Call>, parent: nat, cb: Option<nat>)
    requires Shape(s) && parent < |s.nodes|
    ensures Shape(With(s, calls)) && StartChild(With(s, calls), parent, cb) == With(StartChild(s, parent, cb), calls)
  {
    hide AllocNode, Adopt;
    AllocAlike(s, calls, Child(parent), cb);
    var (n, t) := AllocNode(s, Child(parent), cb);
    AdoptAlike(t, calls, parent, n);
  }

  lemma StartAlike(s: State, calls: seq<Call>, name: Name, qtype: int, hasCb: bool, timerOk: bool, now: Time)
    requires Shape(s)
    ensures Shape(With(s, calls))
    ensures StepAlike(s, StartQuery(s, name, qtype, hasCb, timerOk, now).s, calls,
                      StartQuery(With(s, calls), name, qtype, hasCb, timerOk, now).s)
  {
    hide StartParent, StartChild, InitKey, StepAlike, Shape;
    ShapeAlike(s, calls);
    var s' := StartQuery(s, name, qtype, hasCb, timerOk, now).s;
    var t' := StartQuery(With(s, calls), name, qtype, hasCb, timerOk, now).s;
    if !(0 < |name| < MAX_HOSTNAME && 0 < qtype < 0xFFFF) {
      Quiet(s, s', calls, t');
    } else {
      var key := InitKey(qtype, name);
      var s0 := s.(cache := Evict(s.cache, key, now));
      var hit := Lookup(s.cache, key, now);
      if hit.Some? {
        if hasCb {
          OneCall(s, s', calls, t', Call(s.requests, FromRcode(Rcode(hit.value.pkt.flags)), Some(hit.value.pkt)));
        } else {
          Quiet(s, s', calls, t');
        }
      } else {
        var cb := if hasCb then Some(s.requests) else None;
        CachedShape(s, s0);
        if key in s.byRes {
          ChildAlike(s0, calls, s.byRes[key], cb);
        } else {
          ParentAlike(s0, calls, key, cb, timerOk, now);
        }
        Quiet(s, s', calls, t');
      }
    }
  }

  lemma ShapeAlike(s: State, calls: seq<Call>)
    requires Shape(s)
    ensures Shape(With(s, calls))
  {
  }

  lemma CachedShape(s: State, t: State)
    requires Shape(s) && t == s.(cache := t.cache)
    ensures Shape(t)
    ensures forall k :: k in s.byRes ==> s.byRes[k] < |s.nodes|
  {
  }

  lemma FireAlike(s: State, calls: seq<Call>, n: nat, timerOk: bool, now: Time)
    requires n < |s.nodes| == |s.roles|
    ensures StepAlike(s, Timeout(s, n, timerOk, now), calls, Timeout(With(s, calls), n, timerOk, now))
  {
    hide Transmit, StepAlike;
    var s1 := s.(nodes := s.nodes[n := s.nodes[n].(armed := false)]);
    TransmitAlike(s1, calls, n, now, timerOk);
    Quiet(s, Timeout(s, n, timerOk, now), calls, Timeout(With(s, calls), n, timerOk, now));
  }

  lemma PacketsAlike(s: State, calls: seq<Call>, from: Endpoint, pkt: Option<Packet>, now: Time)
    requires Shape(s)
    ensures Shape(With(s, calls))
    ensures StepAlike(s, Receive(s, from, pkt, now), calls, Receive(With(s, calls), from, pkt, now))
  {
    hide StepAlike, Report;
    Quiet(s, Receive(s, from, pkt, now), calls, Receive(With(s, calls), from, pkt, now));
  }

  lemma NotifyAlike(s: State, calls: seq<Call>, q: nat)
    requires q in s.drains && s.drains[q].todo != [] && s.drains[q].todo[0] < |s.nodes|
    ensures StepAlike(s, Notify(s, q), calls, Notify(With(s, calls), q))
  {
    hide StepAlike;
    var d := s.drains[q];
    var cb := s.nodes[d.todo[0]].cb;
    if cb.Some? {
      OneCall(s, Notify(s, q), calls, Notify(With(s, calls), q), Call(cb.value, d.status, d.pkt));
    } else {
      Quiet(s, Notify(s, q), calls, Notify(With(s, calls), q));
    }
  }

  lemma CancelAlike(s: State, calls: seq<Call>, n: nat, notify: bool)
    requires n < |s.nodes| && (notify ==> s.nodes[n].cb.Some?)
    ensures StepAlike(s, Cancel(s, n, notify), calls, Cancel(With(s, calls), n, notify))
  {
    hide StepAlike;
    if notify {
      OneCall(s, Cancel(s, n, notify), calls, Cancel(With(s, calls), n, notify), Call(s.nodes[n].cb.value, Cancelled, None));
    } else {
      Quiet(s, Cancel(s, n, notify), calls, Cancel(With(s, calls), n, notify));
    }
  }

  lemma CloseAlike(s: State, calls: seq<Call>, q: nat, saved: Packet, now: Time)
    requires q < |s.nodes| && q in s.drains
    ensures StepAlike(s, Finish(s, q, saved, now), calls, Finish(With(s, calls), q, saved, now))
  {
    hide StepAlike, Put, EntryOf;
    Quiet(s, Finish(s, q, saved, now), calls, Finish(With(s, calls), q, saved, now));
  }

  lemma InjectAlike(s: State, calls: seq<Call>, pkt: Packet, setTtl: bool, now: Time)
    ensures StepAlike(s, AddEntry(s, pkt, setTtl, now), calls, AddEntry(With(s, calls), pkt, setTtl, now))
  {
    hide StepAlike, Put, EntryOf, EntryKey;
    Quiet(s, AddEntry(s, pkt, setTtl, now), calls, AddEntry(With(s, calls), pkt, setTtl, now));
  }

  lemma SetNsAlike(s: State, calls: seq<Call>, addresses: seq<Option<Endpoint>>, now: Time)
    ensures SetNs(With(s, calls), addresses, now) == With(SetNs(s, addresses, now), calls)
    ensures SetNs(s, addresses, now).calls == s.calls
  {
    hide ServersAfter;
  }

  lemma ServersAlike(s: State, calls: seq<Call>, addresses: seq<Option<Endpoint>>, now: Time)
    ensures StepAlike(s, SetNs(s, addresses, now), calls, SetNs(With(s, calls), addresses, now))
  {
    hide StepAlike, SetNs;
    SetNsAlike(s, calls, addresses, now);
    Quiet(s, SetNs(s, addresses, now), calls, SetNs(With(s, calls), addresses, now));
  }

  lemma StepsAlike(s: State, calls: seq<Call>, a: Action, now: Time)
    requires Shape(s) && Possible(s, a)
    ensures Shape(With(s, calls)) && Possible(With(s, calls), a)
    ensures StepAlike(s, Step(s, a, now), calls, Step(With(s, calls), a, now))
  {
    hide StepAlike, StartQuery, Cancel, Timeout, Receive, Notify, Finish, AddEntry, SetNs;
    match a
    case Start(name, qtype, hasCb, timerOk) => StartAlike(s, calls, name, qtype, hasCb, timerOk, now);
    case CancelQuery(n, notify) => CancelAlike(s, calls, n, notify);
    case Fire(n, timerOk) => FireAlike(s, calls, n, timerOk, now);
    case Packets(from, pkt) => PacketsAlike(s, calls, from, pkt, now);
    case CallNext(q) => NotifyAlike(s, calls, q);
    case Close(q, saved) => CloseAlike(s, calls, q, saved, now);
    case Inject(pkt, setTtl) => InjectAlike(s, calls, pkt, setTtl, now);
    case Nameservers(addresses) => ServersAlike(s, calls, addresses, now);
  }

  lemma GuardsAlike(s: State, calls: seq<Call>, a: Action, now: Time)
    requires Shape(s) && Shape(With(s, calls))
    ensures Possible(With(s, calls), a) <==> Possible(s, a)
    ensures InTime(With(s, calls), a) <==> InTime(s, a)
    ensures FreshId(With(s, calls), a, now) <==> FreshId(s, a, now)
    ensures Young(With(s, calls)) <==> Young(s)
  {
    hide TakesId;
    assert a.Start? ==> (TakesId(With(s, calls), a.name, a.qtype, now) <==> TakesId(s, a.name, a.qtype, now)) by {
      if a.Start? { TakesAlike(s, calls, a.name, a.qtype, now); }
    }
  }

  lemma TakesAlike(s: State, calls: seq<Call>, name: Name, qtype: int, now: Time)
    ensures TakesId(With(s, calls), name, qtype, now) <==> TakesId(s, name, qtype, now)
  {
    hide InitKey;
  }

  /** A late notification, and the same cancellation without it */
  lemma LateCancel(s: State, n: nat)
    requires Inv(s) && n < |s.nodes| && Parent(s.roles[n]) && s.nodes[n].cb.Some? && !Waiting(s, n)
    ensures var r := s.nodes[n].cb.value;
            Answered(s.calls, r) && Cancel(s, n, false).calls == s.calls
            && Cancel(s, n, true) == With(Cancel(s, n, false), s.calls + [Call(r, Cancelled, None)])
  {
    var r := s.nodes[n].cb.value;
    assert Spent(s, n);
    var i :| 0 <= i < |s.calls| && s.calls[i].request == r;
    assert Called(s, i);
    assert s.owed - {r} == s.owed;
  }

  // ----- Runs -----

  lemma OneMore(a: seq<Call>, b: seq<Call>)
    requires a <= b && |b| == |a| + 1
    ensures b[|a|..] == [b[|a|]] && b == a + [b[|a|]]
  {
  }

  /** One step of a free run, and the step of a run beside it */
  lemma LateStep(s: State, calls: seq<Call>, a: Action, now: Time)
    requires Inv(s) && Repeats(calls, s.calls) && Possible(s, a) && FreshId(s, a, now)
    ensures var h := Hushed(s, a);
            && Enabled(s, h, now) && Shape(With(s, calls)) && Possible(With(s, calls), a)
            && Step(With(s, calls), a, now) == With(Step(s, h, now), Step(With(s, calls), a, now).calls)
            && Repeats(Step(With(s, calls), a, now).calls, Step(s, h, now).calls)
  {
    hide Step, Roster, Indexed, Ids, Ledger, Repeats;
    StepsAlike(s, calls, a, now);
    var s', t' := Step(s, a, now), Step(With(s, calls), a, now);
    if InTime(s, a) {
      if |s'.calls| == |s.calls| {
        assert calls + s'.calls[|s.calls|..] == calls && s'.calls == s.calls;
      } else {
        RepeatsBoth(calls, s.calls, s'.calls[|s.calls|]);
        OneMore(s.calls, s'.calls);
      }
    } else {
      LateIsCancel(s, a, now);
      RepeatsOne(calls, s.calls, s.nodes[a.handle].cb.value);
      assert s'.calls[|s.calls|..] == [Call(s.nodes[a.handle].cb.value, Cancelled, None)];
    }
  }

  lemma LateIsCancel(s: State, a: Action, now: Time)
    requires Inv(s) && Possible(s, a) && !InTime(s, a)
    ensures Enabled(s, Hushed(s, a), now) && Answered(s.calls, s.nodes[a.handle].cb.value)
    ensures var h := Step(s, Hushed(s, a), now);
            h.calls == s.calls && Step(s, a, now) == With(h, s.calls + [Call(s.nodes[a.handle].cb.value, Cancelled, None)])
  {
    hide Cancel, Inv;
    LateCancel(s, a.handle);
  }

  /** A run with late cancellations is a run without notifying them but for the callbacks they
      add: each says to a request that has been called back that it is cancelled. */
  lemma {:induction false} LateCallsAreExtra(s: State, calls: seq<Call>, clock: Time, acts: seq<Timed>, t: State)
    returns (acts': seq<Timed>, t': State)
    requires Inv(s) && Repeats(calls, s.calls) && FreeRun(With(s, calls), clock, acts, t)
    ensures Run(s, clock, acts', t') && |acts'| == |acts| && Inv(t')
    ensures t == With(t', t.calls) && Repeats(t.calls, t'.calls)
    decreases |acts|
  {
    hide Step, Inv, Repeats, Possible, InTime, FreshId, Young;
    if acts == [] {
      return [], s;
    }
    var a, now := acts[0].action, acts[0].now;
    AnyShape(s);
    ShapeAlike(s, calls);
    GuardsAlike(s, calls, a, now);
    if Young(s) {
      YoungIsFresh(s, a, now);
    }
    LateStep(s, calls, a, now);
    var h := Hushed(s, a);
    StepInv(s, h, now);
    var rest;
    rest, t' := LateCallsAreExtra(Step(s, h, now), Step(With(s, calls), a, now).calls, now, acts[1..], t);
    acts' := [At(now, h)] + rest;
  }

  lemma YoungIsFresh(s: State, a: Action, now: Time)
    requires Inv(s) && Young(s)
    ensures FreshId(s, a, now)
  {
    hide Inv, Young, TakesId;
    IdsStayFresh(s);
  }

  lemma AnyShape(s: State)
    requires Inv(s)
    ensures Shape(s)
  {
  }

  // ----- Accounting -----

  ghost function RequestsOf(calls: seq<Call>): set<nat> {
    set i | 0 <= i < |calls| :: calls[i].request
  }

  lemma {:induction false} OneEach(calls: seq<Call>)
    requires AtMostOnce(calls)
    ensures |RequestsOf(calls)| == |calls|
    decreases |calls|
  {
    if calls != [] {
      var most, last := calls[..|calls| - 1], calls[|calls| - 1];
      OneEach(most);
      assert RequestsOf(calls) == RequestsOf(most) + {last.request};
      assert last.request !in RequestsOf(most);
    }
  }

  lemma InRequests(calls: seq<Call>, r: nat)
    ensures r in RequestsOf(calls) <==> Answered(calls, r)
  {
  }

  function Below(n: nat): set<nat> {
    if n == 0 then {} else Below(n - 1) + {n - 1}
  }

  lemma {:induction false} InBelow(n: nat, r: nat)
    ensures r in Below(n) <==> r < n
  {
    if n > 0 {
      InBelow(n - 1, r);
    }
  }

  lemma {:induction false} BelowSize(n: nat)
    ensures |Below(n)| == n
  {
    if n > 0 {
      BelowSize(n - 1);
      InBelow(n - 1, n - 1);
    }
  }

  lemma SameSize(a: set<nat>, b: set<nat>)
    requires a <= b && |a| == |b|
    ensures a == b
  {
    assert b == a + (b - a);
  }

  lemma Parts(a: set<nat>, b: set<nat>, c: set<nat>, n: nat)
    requires a !! b && a !! c && b !! c && |a| + |b| + |c| == n
    requires forall r :: r in a || r in b || r in c ==> r < n
    ensures forall r: nat :: r < n <==> r in a || r in b || r in c
  {
    hide Below;
    BelowSize(n);
    forall r: nat ensures r in Below(n) <==> r < n { InBelow(n, r); }
    assert |a + b + c| == n;
    SameSize(a + b + c, Below(n));
  }

  /** Every request that was accepted is called back, or cancelled in silence, or waiting. */
  lemma AllAccountedFor(t: State)
    requires Inv(t)
    ensures forall r: nat :: r < t.requests <==> Answered(t.calls, r) || r in t.silenced || r in t.owed
    ensures forall r: nat :: Answered(t.calls, r) ==> r !in t.silenced && r !in t.owed
    ensures forall r: nat :: r in t.silenced ==> r !in t.owed
  {
    hide Roster, Indexed, Ids;
    var a := RequestsOf(t.calls);
    OneEach(t.calls);
    forall r: nat ensures r in a <==> Answered(t.calls, r) { InRequests(t.calls, r); }
    forall r: nat | r in a ensures r < t.requests && r !in t.silenced && r !in t.owed {
      var i :| 0 <= i < |t.calls| && t.calls[i].request == r;
      assert Called(t, i);
    }
    forall r: nat | r in t.owed ensures r < t.requests && r !in t.silenced { assert Owes(t, r) && Silent(t, r); }
    forall r: nat | r in t.silenced ensures r < t.requests { assert Silent(t, r); }
    assert |t.owed.Keys| == |t.owed|;
    Parts(a, t.silenced, t.owed.Keys, t.requests);
  }

  /** Whenever cancellations come, and whatever ids are handed out as long as no query grows too old:
      every accepted request is called back, or cancelled in silence,
      or still waiting, and only one of these; and of the callbacks of a request all but the
      first say that it is cancelled. */
  lemma AccountedForAlways(settings: Settings, ns: seq<Nameserver>, clock: Time, acts: seq<Timed>, t: State)
    requires FreeRun(Initial(settings, ns), clock, acts, t)
    ensures Shape(t)
    ensures forall r: nat :: r < t.requests <==> Answered(t.calls, r) || r in t.silenced || r in t.owed
    ensures forall r: nat :: Answered(t.calls, r) ==> r !in t.silenced && r !in t.owed
    ensures forall r: nat :: r in t.silenced ==> r !in t.owed
    ensures forall r: nat, n: nat :: r in t.owed && t.owed[r] == n <==> Waiting(t, n) && t.nodes[n].cb == Some(r)
    ensures forall i, j :: 0 <= i < j < |t.calls| && t.calls[i].request == t.calls[j].request ==>
              t.calls[j] == Call(t.calls[i].request, Cancelled, None)
  {
    hide Inv, FreeRun, Run, Waiting, Repeats, Answered;
    var s := Initial(settings, ns);
    InitialInv(settings, ns);
    assert Repeats([], []) by { NoRepeats(); }
    assert With(s, []) == s;
    var acts', u := LateCallsAreExtra(s, [], clock, acts, t);
    AllAccountedFor(u);
    forall r: nat ensures Answered(t.calls, r) <==> Answered(u.calls, r) { SameAnswered(t.calls, u.calls, r); }
    WaitingIsOwed(u, t);
    forall i, j | 0 <= i < j < |t.calls| && t.calls[i].request == t.calls[j].request
      ensures t.calls[j] == Call(t.calls[i].request, Cancelled, None)
    {
      OnlyOnce(u);
      FirstIsTheOne(t.calls, u.calls, i, j);
    }
  }

  lemma NoRepeats()
    ensures Repeats([], [])
  {
  }

  lemma OnlyOnce(s: State)
    requires Inv(s)
    ensures AtMostOnce(s.calls)
  {
  }

  lemma WaitingIsOwed(s: State, t: State)
    requires Inv(s) && t == With(s, t.calls)
    ensures Shape(t)
    ensures forall r: nat, n: nat :: r in t.owed && t.owed[r] == n <==> Waiting(t, n) && t.nodes[n].cb == Some(r)
  {
    hide Roster, Indexed, Ids;
    forall r: nat, n: nat
      ensures r in t.owed && t.owed[r] == n <==> Waiting(t, n) && t.nodes[n].cb == Some(r)
    {
      assert Owes(s, r) && Owed(s, n);
      assert Waiting(s, n) <==> Waiting(t, n);
    }
  }

  // ----- A request that is called back twice -----

  lemma CallbackKept(s: State, key: Key, cb: Option<nat>)
    requires Inv(s) && StartParent(s, key, cb, true, 0).status == Success
    ensures var t := StartParent(s, key, cb, true, 0).s;
            s.lastId in t.byId && t.byId[s.lastId] < |t.nodes| && t.nodes[t.byId[s.lastId]].cb == cb
  {
    hide Transmit, AllocNode, Prepare, Inv;
    assert Shape(s) && Roster(s) by { RosterOf(s); }
    PrepareEffect(s, key, cb);
    var (n, s1) := Prepare(s, key, cb);
    TransmitKeeps(s1, n, true);
  }

  lemma RosterOf(s: State)
    requires Inv(s)
    ensures Shape(s) && Roster(s)
  {
  }

  function Asked(): Timed { At(0, Start(Waiter(), 1, true, true)) }
  function Response(): Packet { Packet(1, 0x8000, [], [], [], []) }

  /** The query is sent, with a callback. */
  lemma AskedStep()
    ensures var s := Initial(SETTINGS, [SERVER]);
            && Inv(s) && Enabled(s, Asked().action, 0)
            && var t := Step(s, Asked().action, 0); Inv(t) && 1 in t.byId && t.byId[1] < |t.nodes| && t.nodes[t.byId[1]].cb.Some?
  {
    hide Transmit, StartParent, Roster, Indexed, Ids, Ledger, InitKey;
    var s := Initial(SETTINGS, [SERVER]);
    InitialInv(SETTINGS, [SERVER]);
    StepInv(s, Asked().action, 0);
    var cb: Option<nat> := Some(0);
    assert Evict(s.cache, KeyOf(Waiter()), 0) == s.cache && s.(cache := s.cache) == s;
    AskedIsSent();
    CallbackKept(s, KeyOf(Waiter()), cb);
  }

  lemma AskedIsSent()
    ensures StartParent(Initial(SETTINGS, [SERVER]), KeyOf(Waiter()), Some(0), true, 0).status == Success
  {
    hide InitKey;
    var s := Initial(SETTINGS, [SERVER]);
    var (m, s1) := Prepare(s, KeyOf(Waiter()), Some(0));
    TransmitOutcome(s1, m, 0, true);
    assert !RefreshAll(SETTINGS, [SERVER], 0)[0].state.Bad?;
  }

  lemma FreeStep(s: State, first: Timed, rest: seq<Timed>, t: State)
    requires first.now == 0 && Shape(s) && Possible(s, first.action) && FreshId(s, first.action, 0)
    requires FreeRun(Step(s, first.action, 0), 0, rest, t)
    ensures FreeRun(s, 0, [first] + rest, t)
  {
    hide Step, Possible, FreshId, Shape;
    assert ([first] + rest)[1..] == rest;
  }

  /** A query is sent, its response comes in and is told, and a cancellation is notified while the
      handler is still at it: the request is called back twice. */
  lemma HeardTwice() returns (acts: seq<Timed>, t: State)
    ensures FreeRun(Initial(SETTINGS, [SERVER]), 0, acts, t) && |acts| == 4 && !AtMostOnce(t.calls)
  {
    hide Inv, StartQuery, Receive, Notify, Cancel, AtMostOnce, TakesId, FreeRun;
    AskedStep();
    var s0 := Initial(SETTINGS, [SERVER]);
    var s1 := Step(s0, Asked().action, 0);
    var q := s1.byId[1];
    CalledBackTwice(s1, SERVER.address, Response(), 0);
    var packets, next, cancel := At(0, Packets(SERVER.address, Some(Response()))), At(0, CallNext(q)), At(0, CancelQuery(q, true));
    AnyShape(s1);
    var s2 := Receive(s1, SERVER.address, Some(Response()), 0);
    var s3 := Notify(s2, q);
    t := Cancel(s3, q, true);
    NoSteps(t);
    FreeStep(s3, cancel, [], t);
    FreeStep(s2, next, [cancel] + [], t);
    FreeStep(s1, packets, [next] + ([cancel] + []), t);
    acts := [Asked()] + ([packets] + ([next] + ([cancel] + [])));
    AnyShape(s0);
    FreeStep(s0, Asked(), [packets] + ([next] + ([cancel] + [])), t);
  }

  lemma NoSteps(t: State)
    ensures FreeRun(t, 0, [], t)
  {
  }
}
