/** Every step of the resolver keeps its invariants. */
module ResolverSafety {
  import opened DnsPacket
  import opened Wrappers
  import opened Nameservers
  import opened ResolverCache
  import opened ResolverModel

  // ----- What a step leaves alone -----

  lemma FrameRoster(s: State, t: State)
    requires Shape(s) && Shape(t) && Roster(s)
    requires |t.nodes| == |s.nodes| && t.free == s.free && t.roles == s.roles && t.drains == s.drains
    requires forall i :: 0 <= i < |s.nodes| ==> t.nodes[i].children == s.nodes[i].children
    ensures Roster(t)
  {
    forall n: nat ensures Placed(t, n) {
      assert Placed(s, n);
    }
  }

  lemma FrameIndexed(s: State, t: State)
    requires Shape(s) && Shape(t) && Indexed(s)
    requires |t.nodes| == |s.nodes| && t.roles == s.roles && t.byId == s.byId && t.byRes == s.byRes
    requires forall i :: 0 <= i < |s.nodes| ==> t.nodes[i].id == s.nodes[i].id && t.nodes[i].key == s.nodes[i].key
    ensures Indexed(t)
  {
    forall i ensures IdIndexed(t, i) { assert IdIndexed(s, i); }
    forall k ensures KeyIndexed(t, k) { assert KeyIndexed(s, k); }
    forall n ensures NodeIndexed(t, n) { assert NodeIndexed(s, n); }
  }

  lemma FrameIds(s: State, t: State)
    requires Shape(s) && Shape(t) && Ids(s)
    requires |t.nodes| == |s.nodes| && t.settings == s.settings && t.roles == s.roles
    requires t.lastId == s.lastId && t.allocs == s.allocs && t.births == s.births
    requires forall i :: 0 <= i < |s.nodes| ==>
      t.nodes[i].id == s.nodes[i].id && t.nodes[i].armed == s.nodes[i].armed && t.nodes[i].transmitCnt == s.nodes[i].transmitCnt
    ensures Ids(t)
  {
    forall n ensures NodeAged(t, n) { assert NodeAged(s, n); }
  }

  lemma FrameLedger(s: State, t: State)
    requires Shape(s) && Shape(t) && Ledger(s)
    requires |t.nodes| == |s.nodes| && t.roles == s.roles && t.drains == s.drains
    requires t.requests == s.requests && t.owed == s.owed && t.silenced == s.silenced && t.calls == s.calls
    requires forall i :: 0 <= i < |s.nodes| ==> t.nodes[i].cb == s.nodes[i].cb
    ensures Ledger(t)
  {
    forall r ensures Owes(t, r) { assert Owes(s, r); }
    forall n ensures Owed(t, n) && Spent(t, n) { assert Owed(s, n) && Spent(s, n); }
    forall r ensures Silent(t, r) { assert Silent(s, r); }
    forall i ensures Called(t, i) { assert Called(s, i); }
  }

  // ----- A node enters use -----

  /** Of another node than `n`, at most the list of children differs. */
  ghost predicate SameNode(s: State, t: State, n: nat, m: nat)
    requires Shape(s) && Shape(t)
  {
    m < |t.nodes| && m != n ==>
      && m < |s.nodes| && t.roles[m] == s.roles[m] && t.births[m] == s.births[m]
      && t.nodes[m].(children := s.nodes[m].children) == s.nodes[m]
  }

  /** `n` was free or is new, and of the other nodes only lists of children may differ. */
  ghost predicate Enters(s: State, t: State, n: nat)
    requires Shape(s) && Shape(t)
  {
    && n < |t.nodes| && |s.nodes| <= |t.nodes|
    && (n < |s.nodes| ==> s.roles[n].Free?)
    && (forall m: nat :: SameNode(s, t, n, m))
  }

  ghost predicate SameChildren(a: seq<Node>, b: seq<Node>, m: nat) {
    m < |a| && m < |b| ==> b[m].children == a[m].children
  }

  lemma AllocKeeps(s: State, role: Role, cb: Option<nat>)
    requires Shape(s) && Roster(s)
    ensures var (n, t) := AllocNode(s, role, cb);
            && Enters(s, t, n)
            && t.roles[n] == role && t.nodes[n] == Node(0, NO_KEY, 0, false, cb, [])
            && (forall m: nat :: m < |t.nodes| && m != n ==> t.nodes[m] == s.nodes[m])
  {
    hide Distinct;
    var (n, t) := AllocNode(s, role, cb);
    assert Placed(s, n);
    if s.free != [] {
      assert n in s.free;
    }
    forall m: nat ensures SameNode(s, t, n, m) {}
  }

  lemma AllocTakes(s: State, role: Role, cb: Option<nat>)
    requires Shape(s) && Roster(s)
    ensures var (n, t) := AllocNode(s, role, cb);
            Distinct(t.free) && (forall m: nat :: m in t.free <==> m in s.free && m != n) && n !in s.drains
  {
    var (n, t) := AllocNode(s, role, cb);
    assert Placed(s, n);
    if s.free != [] {
      assert n in s.free;
      assert s.free == [n] + t.free;
    }
  }

  /** alloc_qnode hands out a node that no list holds, and otherwise changes nothing. */
  lemma AllocEnters(s: State, role: Role, cb: Option<nat>)
    requires Shape(s) && Roster(s)
    ensures var (n, t) := AllocNode(s, role, cb);
            && Enters(s, t, n) && Distinct(t.free)
            && (forall m: nat :: m in t.free <==> m in s.free && m != n)
            && t.roles[n] == role && t.nodes[n] == Node(0, NO_KEY, 0, false, cb, [])
            && (forall m: nat :: m < |t.nodes| && m != n ==> t.nodes[m] == s.nodes[m])
            && n !in s.drains
            && t == s.(free := t.free, nodes := t.nodes, roles := t.roles, births := t.births)
  {
    hide AllocNode, Roster, Enters, Distinct;
    AllocKeeps(s, role, cb);
    AllocTakes(s, role, cb);
  }

  lemma EnterFamily(s: State, t: State, n: nat, m: nat)
    requires Shape(s) && Shape(t) && Enters(s, t, n) && m < |s.nodes| && Placed(s, m) && Parent(s.roles[m])
    ensures Family(t.roles, m, s.nodes[m].children)
  {
    forall c | c in s.nodes[m].children ensures c < |t.roles| && t.roles[c] == Child(m) {
      assert SameNode(s, t, n, c);
    }
  }

  lemma EnterRosterChild(s: State, t: State, n: nat, p: nat)
    requires Shape(s) && Shape(t) && Roster(s) && Enters(s, t, n)
    requires p < |s.nodes| && s.roles[p].Pending? && t.roles[n] == Child(p)
    requires t.drains == s.drains && Distinct(t.free) && forall m: nat :: m in t.free <==> m in s.free && m != n
    requires forall m: nat :: m != n && m != p ==> SameChildren(s.nodes, t.nodes, m)
    requires t.nodes[p].children == s.nodes[p].children + [n]
    ensures Roster(t)
  {
    assert Placed(s, n) && Placed(s, p) && SameNode(s, t, n, p);
    forall m: nat ensures Placed(t, m) {
      assert Placed(s, m);
      assert SameNode(s, t, n, m);
      assert SameChildren(s.nodes, t.nodes, m) || m == n || m == p;
      if m < |s.nodes| && Parent(s.roles[m]) { EnterFamily(s, t, n, m); }
      if m < |s.nodes| && s.roles[m].Child? {
        var q := s.roles[m].parent;
        assert Placed(s, q) && SameNode(s, t, n, q) && (SameChildren(s.nodes, t.nodes, q) || q == p);
      }
    }
  }

  lemma EnterRosterParent(s: State, t: State, n: nat)
    requires Shape(s) && Shape(t) && Roster(s) && Enters(s, t, n)
    requires t.roles[n].Pending? && t.nodes[n].children == []
    requires t.drains == s.drains && Distinct(t.free) && forall m: nat :: m in t.free <==> m in s.free && m != n
    requires forall m: nat :: m != n ==> SameChildren(s.nodes, t.nodes, m)
    ensures Roster(t)
  {
    assert Placed(s, n);
    forall m: nat ensures Placed(t, m) {
      assert Placed(s, m);
      assert SameNode(s, t, n, m);
      assert SameChildren(s.nodes, t.nodes, m) || m == n;
      if m < |s.nodes| && Parent(s.roles[m]) { EnterFamily(s, t, n, m); }
      if m < |s.nodes| && s.roles[m].Child? {
        var q := s.roles[m].parent;
        assert Placed(s, q) && SameNode(s, t, n, q) && SameChildren(s.nodes, t.nodes, q);
      }
    }
  }

  lemma EnterRosterFailed(s: State, t: State, n: nat)
    requires Shape(s) && Shape(t) && Roster(s) && Enters(s, t, n)
    requires t.roles[n].Free? && t.drains == s.drains && Distinct(t.free) && forall m: nat :: m in t.free <==> m in s.free || m == n
    requires forall m: nat :: m != n ==> SameChildren(s.nodes, t.nodes, m)
    ensures Roster(t)
  {
    assert Placed(s, n);
    forall m: nat ensures Placed(t, m) {
      assert Placed(s, m);
      assert SameNode(s, t, n, m);
      assert SameChildren(s.nodes, t.nodes, m) || m == n;
      if m < |s.nodes| && Parent(s.roles[m]) { EnterFamily(s, t, n, m); }
      if m < |s.nodes| && s.roles[m].Child? {
        var q := s.roles[m].parent;
        assert Placed(s, q) && SameNode(s, t, n, q) && SameChildren(s.nodes, t.nodes, q);
      }
    }
  }

  lemma EnterIndexed(s: State, t: State, n: nat)
    requires Shape(s) && Shape(t) && Indexed(s) && Enters(s, t, n)
    requires !t.roles[n].Pending? && t.byId == s.byId && t.byRes == s.byRes
    ensures Indexed(t)
  {
    forall i ensures IdIndexed(t, i) { assert IdIndexed(s, i) && (i in s.byId ==> SameNode(s, t, n, s.byId[i])); }
    forall k ensures KeyIndexed(t, k) { assert KeyIndexed(s, k) && (k in s.byRes ==> SameNode(s, t, n, s.byRes[k])); }
    forall m ensures NodeIndexed(t, m) { assert NodeIndexed(s, m) && SameNode(s, t, n, m); }
  }

  lemma EnterIndexedParent(s: State, t: State, n: nat)
    requires Shape(s) && Shape(t) && Indexed(s) && Enters(s, t, n)
    requires t.roles[n].Pending?
    requires t.nodes[n].id !in s.byId && t.byId == s.byId[t.nodes[n].id := n]
    requires t.nodes[n].key !in s.byRes && t.byRes == s.byRes[t.nodes[n].key := n]
    ensures Indexed(t)
  {
    forall i ensures IdIndexed(t, i) { assert IdIndexed(s, i) && (i in s.byId ==> SameNode(s, t, n, s.byId[i])); }
    forall k ensures KeyIndexed(t, k) { assert KeyIndexed(s, k) && (k in s.byRes ==> SameNode(s, t, n, s.byRes[k])); }
    forall m ensures NodeIndexed(t, m) { assert NodeIndexed(s, m) && SameNode(s, t, n, m); }
  }

  lemma EnterIds(s: State, t: State, n: nat)
    requires Shape(s) && Shape(t) && Ids(s) && Enters(s, t, n)
    requires t.settings == s.settings && t.allocs >= s.allocs && t.lastId == IdOf(t.allocs)
    requires NodeAged(t, n)
    ensures Ids(t)
  {
    forall m ensures NodeAged(t, m) { assert NodeAged(s, m) && SameNode(s, t, n, m); }
  }

  lemma EnterWaiting(s: State, t: State, n: nat, m: nat)
    requires Shape(s) && Shape(t) && Roster(s) && Enters(s, t, n) && t.drains == s.drains && m != n
    ensures Waiting(t, m) <==> Waiting(s, m)
  {
    assert Placed(s, m) && SameNode(s, t, n, m);
    if m < |s.nodes| && s.roles[m].Child? {
      assert Placed(s, s.roles[m].parent) && s.roles[m].parent != n && SameNode(s, t, n, s.roles[m].parent);
    }
  }

  lemma EnterLedger(s: State, t: State, n: nat)
    requires Shape(s) && Shape(t) && Roster(s) && Ledger(s) && Enters(s, t, n)
    requires t.drains == s.drains && t.silenced == s.silenced && t.calls == s.calls
    requires t.roles[n].Free? || Waiting(t, n)
    requires Waiting(t, n) && t.nodes[n].cb.Some? ==>
      t.nodes[n].cb.value == s.requests && t.requests == s.requests + 1 && t.owed == s.owed[s.requests := n]
    requires !(Waiting(t, n) && t.nodes[n].cb.Some?) ==> t.requests == s.requests && t.owed == s.owed
    ensures Ledger(t)
  {
    assert Placed(s, n) && Owes(s, s.requests);
    forall r ensures Owes(t, r) {
      assert Owes(s, r);
      if r in s.owed {
        EnterWaiting(s, t, n, s.owed[r]);
        assert SameNode(s, t, n, s.owed[r]);
      }
    }
    forall m ensures Owed(t, m) && Spent(t, m) {
      assert Owed(s, m) && Spent(s, m) && SameNode(s, t, n, m);
      if m != n { EnterWaiting(s, t, n, m); }
    }
    forall r ensures Silent(t, r) { assert Silent(s, r); }
    forall i ensures Called(t, i) { assert Called(s, i); }
  }

  // ----- start_query -----

  lemma ChildStep(s: State, t: State, n: nat, p: nat)
    requires Inv(s) && Shape(t) && Enters(s, t, n) && p < |s.nodes| && s.roles[p].Pending?
    requires t.roles[n] == Child(p) && t.nodes[p].children == s.nodes[p].children + [n]
    requires forall m: nat :: m != n && m != p ==> SameChildren(s.nodes, t.nodes, m)
    requires Distinct(t.free) && forall m: nat :: m in t.free <==> m in s.free && m != n
    requires t.byId == s.byId && t.byRes == s.byRes && t.drains == s.drains
    requires t.silenced == s.silenced && t.calls == s.calls && t.settings == s.settings
    requires t.allocs == s.allocs && t.lastId == s.lastId
    requires t.nodes[n].cb.Some? ==>
      t.nodes[n].cb.value == s.requests && t.requests == s.requests + 1 && t.owed == s.owed[s.requests := n]
    requires t.nodes[n].cb.None? ==> t.requests == s.requests && t.owed == s.owed
    ensures Inv(t)
  {
    hide Roster, Indexed, Ledger;
    assert SameNode(s, t, n, p);
    EnterRosterChild(s, t, n, p);
    EnterIndexed(s, t, n);
    EnterIds(s, t, n);
    EnterLedger(s, t, n);
  }

  lemma AdoptInv(s: State, t: State, n: nat, p: nat)
    requires Inv(s) && Shape(t) && Enters(s, t, n) && p < |s.nodes| && s.roles[p].Pending?
    requires t.roles[n] == Child(p) && (t.nodes[n].cb == None || t.nodes[n].cb == Some(s.requests))
    requires forall m: nat :: m < |s.nodes| && m != n ==> t.nodes[m] == s.nodes[m]
    requires Distinct(t.free) && forall m: nat :: m in t.free <==> m in s.free && m != n
    requires t == s.(free := t.free, nodes := t.nodes, roles := t.roles, births := t.births)
    ensures Inv(Adopt(t, p, n))
  {
    var u := Adopt(t, p, n);
    forall m: nat ensures SameNode(s, u, n, m) { assert SameNode(s, t, n, m); }
    ChildStep(s, u, n, p);
  }

  lemma StartChildInv(s: State, p: nat, cb: Option<nat>)
    requires Inv(s) && p < |s.nodes| && s.roles[p].Pending? && (cb == None || cb == Some(s.requests))
    ensures Inv(StartChild(s, p, cb))
  {
    AllocEnters(s, Child(p), cb);
    var (n, t) := AllocNode(s, Child(p), cb);
    AdoptInv(s, t, n, p);
  }

  lemma ParentStep(s: State, t: State, n: nat)
    requires Inv(s) && Shape(t) && Enters(s, t, n)
    requires t.roles[n].Pending? && t.nodes[n].children == []
    requires forall m: nat :: m != n ==> SameChildren(s.nodes, t.nodes, m)
    requires Distinct(t.free) && forall m: nat :: m in t.free <==> m in s.free && m != n
    requires t.nodes[n].id !in s.byId && t.byId == s.byId[t.nodes[n].id := n]
    requires t.nodes[n].key !in s.byRes && t.byRes == s.byRes[t.nodes[n].key := n]
    requires t.drains == s.drains && t.silenced == s.silenced && t.calls == s.calls && t.settings == s.settings
    requires t.allocs == s.allocs + 1 && t.lastId == IdOf(t.allocs) && NodeAged(t, n)
    requires t.nodes[n].cb.Some? ==>
      t.nodes[n].cb.value == s.requests && t.requests == s.requests + 1 && t.owed == s.owed[s.requests := n]
    requires t.nodes[n].cb.None? ==> t.requests == s.requests && t.owed == s.owed
    ensures Inv(t)
  {
    hide Roster, Indexed, Ids, Ledger;
    EnterRosterParent(s, t, n);
    EnterIndexedParent(s, t, n);
    EnterIds(s, t, n);
    EnterLedger(s, t, n);
  }

  lemma FailedStep(s: State, t: State, n: nat)
    requires Inv(s) && Shape(t) && Enters(s, t, n)
    requires t.roles[n].Free? && forall m: nat :: m != n ==> SameChildren(s.nodes, t.nodes, m)
    requires Distinct(t.free) && forall m: nat :: m in t.free <==> m in s.free || m == n
    requires t.byId == s.byId && t.byRes == s.byRes && t.drains == s.drains
    requires t.silenced == s.silenced && t.calls == s.calls && t.settings == s.settings
    requires t.requests == s.requests && t.owed == s.owed
    requires t.allocs == s.allocs + 1 && t.lastId == IdOf(t.allocs)
    ensures Inv(t)
  {
    hide Roster, Indexed, Ids, Ledger;
    EnterRosterFailed(s, t, n);
    EnterIndexed(s, t, n);
    EnterIds(s, t, n);
    EnterLedger(s, t, n);
  }

  lemma NextIdOf(k: nat)
    ensures NextId(IdOf(k)) == IdOf(k + 1)
  {
  }

  /** What transmit_query may change: the servers, and whether and how often `n` was sent. */
  lemma TransmitEffect(s: State, n: nat, now: Time, timerOk: bool)
    requires n < |s.nodes|
    ensures var (status, t) := Transmit(s, n, now, timerOk);
            && t == s.(ns := t.ns, nodes := t.nodes) && |t.nodes| == |s.nodes| && |t.ns| == |s.ns|
            && (forall m :: 0 <= m < |s.nodes| && m != n ==> t.nodes[m] == s.nodes[m])
            && t.nodes[n] == s.nodes[n].(armed := t.nodes[n].armed, transmitCnt := t.nodes[n].transmitCnt)
            && (status == Success ==> t.nodes[n].armed && t.nodes[n].transmitCnt == s.nodes[n].transmitCnt + 1)
  {
  }

  lemma PrepareEffect(s: State, key: Key, cb: Option<nat>)
    requires Shape(s) && Roster(s)
    ensures var (n, t) := Prepare(s, key, cb);
            && Enters(s, t, n) && Distinct(t.free)
            && (forall m: nat :: m in t.free <==> m in s.free && m != n)
            && t.roles[n] == Free && t.nodes[n] == Node(s.lastId, key, 0, false, cb, []) && t.births[n] == s.allocs
            && (forall m: nat :: m != n ==> SameChildren(s.nodes, t.nodes, m))
            && n !in s.drains
            && t == s.(free := t.free, nodes := t.nodes, roles := t.roles, births := t.births,
                       lastId := NextId(s.lastId), allocs := s.allocs + 1)
  {
    hide AllocNode, Distinct;
    AllocEnters(s, Free, cb);
    var (n, t0) := AllocNode(s, Free, cb);
    forall m: nat ensures SameNode(s, Prepare(s, key, cb).1, n, m) { assert SameNode(s, t0, n, m); }
  }

  lemma RegisterInv(s: State, t: State, n: nat)
    requires Inv(s) && Shape(t) && Enters(s, t, n)
    requires t.roles[n].Free? && t.nodes[n].children == []
    requires forall m: nat :: m != n ==> SameChildren(s.nodes, t.nodes, m)
    requires Distinct(t.free) && forall m: nat :: m in t.free <==> m in s.free && m != n
    requires t.nodes[n].id !in s.byId && t.nodes[n].key !in s.byRes
    requires t == s.(free := t.free, nodes := t.nodes, roles := t.roles, births := t.births, ns := t.ns,
                     lastId := NextId(s.lastId), allocs := s.allocs + 1)
    requires t.births[n] == s.allocs && t.nodes[n].id == s.lastId && t.nodes[n].armed && t.nodes[n].transmitCnt == 1
    requires t.nodes[n].cb == None || t.nodes[n].cb == Some(s.requests)
    ensures Inv(Register(t, n))
  {
    var u := Register(t, n);
    NextIdOf(s.allocs);
    forall m: nat ensures SameNode(s, u, n, m) { assert SameNode(s, t, n, m); }
    forall m: nat | m != n ensures SameChildren(s.nodes, u.nodes, m) {
      assert SameChildren(s.nodes, t.nodes, m);
    }
    ParentStep(s, u, n);
  }

  lemma AppendFree(s: State, t: State, n: nat)
    requires Shape(s) && Shape(t) && Distinct(t.free) && n < |t.nodes|
    requires forall m: nat :: m in t.free <==> m in s.free && m != n
    ensures var u := t.(free := t.free + [n]);
            Shape(u) && Distinct(u.free) && forall m: nat :: m in u.free <==> m in s.free || m == n
  {
    assert forall i :: 0 <= i < |t.free| ==> t.free[i] in t.free;
  }

  lemma FailInv(s: State, t: State, n: nat)
    requires Inv(s) && Shape(t) && Enters(s, t, n)
    requires t.roles[n].Free? && forall m: nat :: m != n ==> SameChildren(s.nodes, t.nodes, m)
    requires Distinct(t.free) && forall m: nat :: m in t.free <==> m in s.free && m != n
    requires t == s.(free := t.free, nodes := t.nodes, roles := t.roles, births := t.births, ns := t.ns,
                     lastId := NextId(s.lastId), allocs := s.allocs + 1)
    ensures Inv(t.(free := t.free + [n]))
  {
    NextIdOf(s.allocs);
    AppendFree(s, t, n);
    var u := t.(free := t.free + [n]);
    forall m: nat ensures SameNode(s, u, n, m) { assert SameNode(s, t, n, m); }
    FailedStep(s, u, n);
  }

  lemma TransmitEnters(s: State, s1: State, s2: State, n: nat)
    requires Shape(s) && Shape(s1) && Shape(s2) && Enters(s, s1, n)
    requires s2 == s1.(ns := s2.ns, nodes := s2.nodes) && |s2.nodes| == |s1.nodes|
    requires forall m :: 0 <= m < |s1.nodes| && m != n ==> s2.nodes[m] == s1.nodes[m]
    requires forall m: nat :: m != n ==> SameChildren(s.nodes, s1.nodes, m)
    ensures Enters(s, s2, n) && forall m: nat :: m != n ==> SameChildren(s.nodes, s2.nodes, m)
  {
    forall m: nat ensures SameNode(s, s2, n, m) { assert SameNode(s, s1, n, m); }
    forall m: nat | m != n ensures SameChildren(s.nodes, s2.nodes, m) {
      assert SameChildren(s.nodes, s1.nodes, m);
    }
  }

  lemma StartParentInv(s: State, key: Key, cb: Option<nat>, timerOk: bool, now: Time)
    requires Inv(s) && key !in s.byRes && s.lastId !in s.byId && (cb == None || cb == Some(s.requests))
    ensures Inv(StartParent(s, key, cb, timerOk, now).s)
  {
    PrepareEffect(s, key, cb);
    var (n, s1) := Prepare(s, key, cb);
    TransmitEffect(s1, n, now, timerOk);
    var (status, s2) := Transmit(s1, n, now, timerOk);
    TransmitEnters(s, s1, s2, n);
    if status == Success {
      RegisterInv(s, s2, n);
    } else {
      FailInv(s, s2, n);
    }
  }

  /** A cached answer is one callback, on the spot. */
  lemma AnswerAtOnce(s: State, t: State, status: Status, pkt: Option<Packet>)
    requires Inv(s) && t == s.(cache := t.cache, requests := s.requests + 1, calls := s.calls + [Call(s.requests, status, pkt)])
    ensures Inv(t)
  {
    FrameRoster(s, t);
    FrameIndexed(s, t);
    FrameIds(s, t);
    assert Owes(s, s.requests) && Silent(s, s.requests);
    AnsweredStays(s.calls, t.calls);
    forall r ensures Owes(t, r) { assert Owes(s, r); }
    forall n ensures Owed(t, n) && Spent(t, n) { assert Owed(s, n) && Spent(s, n); }
    forall r ensures Silent(t, r) { assert Silent(s, r); }
    forall i ensures Called(t, i) { assert Called(s, i); }
    forall i, j | 0 <= i < j < |t.calls| ensures t.calls[i].request != t.calls[j].request {
      assert Called(s, i);
    }
  }

  /** Steps that touch neither nodes nor history */
  lemma FrameInv(s: State, t: State)
    requires Inv(s) && t == s.(ns := t.ns, cache := t.cache, log := t.log)
    ensures Inv(t)
  {
    FrameRoster(s, t);
    FrameIndexed(s, t);
    FrameIds(s, t);
    FrameLedger(s, t);
  }

  lemma StartQueryInv(s: State, name: Name, qtype: int, hasCb: bool, timerOk: bool, now: Time)
    requires Inv(s) && (TakesId(s, name, qtype, now) ==> s.lastId !in s.byId)
    ensures Inv(StartQuery(s, name, qtype, hasCb, timerOk, now).s)
  {
    hide Roster, Ids, Ledger, StartChild, StartParent;
    if 0 < |name| < MAX_HOSTNAME && 0 < qtype < 0xFFFF {
      var key := InitKey(qtype, name);
      var s0 := s.(cache := Evict(s.cache, key, now));
      FrameInv(s, s0);
      var hit := Lookup(s.cache, key, now);
      if hit.Some? {
        if hasCb {
          var pkt := hit.value.pkt;
          AnswerAtOnce(s, StartQuery(s, name, qtype, hasCb, timerOk, now).s, FromRcode(Rcode(pkt.flags)), Some(pkt));
        }
      } else {
        var cb := if hasCb then Some(s.requests) else None;
        if key in s.byRes {
          assert KeyIndexed(s, key);
          StartChildInv(s0, s.byRes[key], cb);
        } else {
          StartParentInv(s0, key, cb, timerOk, now);
        }
      }
    }
  }

  // ----- Drains -----

  lemma DrainRoster(s: State, n: nat, status: Status, pkt: Option<Packet>)
    requires Shape(s) && Roster(s) && n < |s.nodes| && s.roles[n].Pending?
    ensures var t := StartDrain(s, n, status, pkt); Shape(t) && Roster(t)
  {
    var t := StartDrain(s, n, status, pkt);
    assert Placed(s, n);
    forall m: nat ensures Placed(t, m) {
      assert Placed(s, m);
    }
  }

  lemma DrainIndexed(s: State, n: nat, status: Status, pkt: Option<Packet>)
    requires Shape(s) && Indexed(s) && n < |s.nodes| && s.roles[n].Pending?
    ensures var t := StartDrain(s, n, status, pkt); Shape(t) && Indexed(t)
  {
    var t := StartDrain(s, n, status, pkt);
    assert NodeIndexed(s, n);
    forall i ensures IdIndexed(t, i) { assert IdIndexed(s, i); }
    forall k ensures KeyIndexed(t, k) { assert KeyIndexed(s, k); }
    forall m ensures NodeIndexed(t, m) { assert NodeIndexed(s, m); }
  }

  /** The ids are in order, but for what a node that is about to be drained says of itself. */
  ghost predicate AgedBut(s: State, n: nat)
    requires Shape(s)
  {
    s.lastId == IdOf(s.allocs) && forall m :: m != n ==> NodeAged(s, m)
  }

  lemma DrainIds(s: State, n: nat, status: Status, pkt: Option<Packet>)
    requires Shape(s) && AgedBut(s, n) && n < |s.nodes|
    requires Shape(StartDrain(s, n, status, pkt))
    ensures Ids(StartDrain(s, n, status, pkt))
  {
    forall m ensures NodeAged(StartDrain(s, n, status, pkt), m) { assert m != n ==> NodeAged(s, m); }
  }

  lemma DrainWaiting(s: State, n: nat, status: Status, pkt: Option<Packet>, m: nat)
    requires Shape(s) && Roster(s) && n < |s.nodes| && s.roles[n].Pending?
    requires Shape(StartDrain(s, n, status, pkt))
    ensures Waiting(StartDrain(s, n, status, pkt), m) <==> Waiting(s, m)
  {
    assert Placed(s, m) && Placed(s, n);
  }

  lemma DrainLedger(s: State, n: nat, status: Status, pkt: Option<Packet>)
    requires Shape(s) && Roster(s) && Ledger(s) && n < |s.nodes| && s.roles[n].Pending?
    requires Shape(StartDrain(s, n, status, pkt))
    ensures Ledger(StartDrain(s, n, status, pkt))
  {
    var t := StartDrain(s, n, status, pkt);
    forall r ensures Owes(t, r) {
      assert Owes(s, r);
      if r in s.owed { DrainWaiting(s, n, status, pkt, s.owed[r]); }
    }
    forall m ensures Owed(t, m) && Spent(t, m) {
      assert Owed(s, m) && Spent(s, m);
      DrainWaiting(s, n, status, pkt, m);
    }
    forall r ensures Silent(t, r) { assert Silent(s, r); }
    forall i ensures Called(t, i) { assert Called(s, i); }
  }

  lemma DrainInv(s: State, n: nat, status: Status, pkt: Option<Packet>)
    requires Shape(s) && Roster(s) && Indexed(s) && Ledger(s) && n < |s.nodes| && s.roles[n].Pending?
    requires AgedBut(s, n)
    ensures Inv(StartDrain(s, n, status, pkt))
  {
    hide Roster, Indexed, Ledger, AgedBut, Ids;
    DrainRoster(s, n, status, pkt);
    DrainIds(s, n, status, pkt);
    DrainIndexed(s, n, status, pkt);
    DrainLedger(s, n, status, pkt);
  }

  /** The invariants but for what a disarmed timer breaks */
  lemma DisarmFrame(s: State, t: State, n: nat)
    requires Inv(s) && n < |s.nodes| && s.roles[n].Pending? && Shape(t)
    requires t == s.(ns := t.ns, nodes := t.nodes) && |t.nodes| == |s.nodes|
    requires forall m :: 0 <= m < |s.nodes| && m != n ==> t.nodes[m] == s.nodes[m]
    requires t.nodes[n] == s.nodes[n].(armed := t.nodes[n].armed, transmitCnt := t.nodes[n].transmitCnt)
    ensures Roster(t) && Indexed(t) && Ledger(t)
    ensures NodeAged(t, n) ==> Ids(t)
    ensures AgedBut(t, n)
  {
    FrameRoster(s, t);
    FrameIndexed(s, t);
    FrameLedger(s, t);
    forall m | m != n ensures NodeAged(t, m) { assert NodeAged(s, m); }
  }

  function Disarmed(s: State, n: nat): State
    requires n < |s.nodes|
  {
    s.(nodes := s.nodes[n := s.nodes[n].(armed := false)])
  }

  lemma ResendInv(s: State, n: nat, timerOk: bool, now: Time)
    requires Inv(s) && n < |s.nodes| && s.roles[n].Pending? && s.nodes[n].transmitCnt < s.settings.qretrCount
    ensures var (status, t) := Transmit(Disarmed(s, n), n, now, timerOk);
            if status == Success then Inv(t) else Inv(StartDrain(t, n, TimedOut, None))
  {
    hide Roster, Ledger, Transmit;
    assert NodeAged(s, n) && NodeIndexed(s, n);
    TransmitEffect(Disarmed(s, n), n, now, timerOk);
    var (status, t) := Transmit(Disarmed(s, n), n, now, timerOk);
    DisarmFrame(s, t, n);
    if status != Success {
      DrainInv(t, n, TimedOut, None);
    }
  }

  lemma GiveUpInv(s: State, n: nat)
    requires Inv(s) && n < |s.nodes| && s.roles[n].Pending?
    ensures Inv(StartDrain(Disarmed(s, n), n, TimedOut, None))
  {
    hide Roster, Ledger;
    DisarmFrame(s, Disarmed(s, n), n);
    DrainInv(Disarmed(s, n), n, TimedOut, None);
  }

  lemma TimeoutInv(s: State, n: nat, timerOk: bool, now: Time)
    requires Inv(s) && n < |s.nodes| && (s.roles[n].Pending? || s.nodes[n].id !in s.byId)
    ensures Inv(Timeout(s, n, timerOk, now))
  {
    hide Inv, Transmit, StartDrain;
    if s.nodes[n].id in s.byId {
      if s.nodes[n].transmitCnt < s.settings.qretrCount {
        ResendInv(s, n, timerOk, now);
      } else {
        GiveUpInv(s, n);
      }
    }
  }

  lemma ReceiveInv(s: State, from: Endpoint, pkt: Option<Packet>, now: Time)
    requires Inv(s)
    ensures Inv(Receive(s, from, pkt, now))
  {
    hide Report, Ids, Ledger, Roster;
    var s1 := s.(ns := Report(s.settings, s.ns, from, pkt, now));
    FrameInv(s, s1);
    if pkt.Some? && pkt.value.id in s.byId {
      var n := s.byId[pkt.value.id];
      assert IdIndexed(s, pkt.value.id);
      var s2 := s1.(nodes := s1.nodes[n := s1.nodes[n].(armed := false)]);
      DisarmFrame(s1, s2, n);
      DrainInv(s2, n, FromRcode(Rcode(pkt.value.flags)), pkt);
    }
  }

  lemma SuffixDistinct(a: seq<nat>, b: seq<nat>)
    requires Suffix(a, b) && Distinct(b)
    ensures Distinct(a) && forall i :: 0 <= i < |a| ==> a[i] in b
  {
    assert forall i :: 0 <= i < |a| ==> a[i] == b[|b| - |a| + i];
  }

  lemma ConsDistinct(x: nat, xs: seq<nat>)
    requires x !in xs && Distinct(xs)
    ensures Distinct([x] + xs)
  {
  }

  /** The callbacks ahead in a drain are of distinct nodes of that drain. */
  lemma TodoOf(s: State, q: nat)
    requires Shape(s) && Roster(s) && q in s.drains
    ensures var todo := s.drains[q].todo;
            && q < |s.nodes| && s.roles[q].Draining? && Distinct(todo)
            && forall m: nat :: m in todo ==> m < |s.nodes| && Waiting(s, m) && (m == q || s.roles[m] == Child(q))
  {
    hide Distinct, Suffix;
    assert Placed(s, q);
    var todo, children := s.drains[q].todo, s.nodes[q].children;
    ConsDistinct(q, children);
    SuffixDistinct(todo, [q] + children);
    forall m: nat | m in todo ensures m < |s.nodes| && Waiting(s, m) && (m == q || s.roles[m] == Child(q)) {
      assert m in [q] + children;
    }
  }

  lemma SuffixTail(a: seq<nat>, b: seq<nat>)
    requires Suffix(a, b) && a != []
    ensures Suffix(a[1..], b)
  {
    assert a[1..] == b[|b| - |a| + 1..];
  }

  /** `t` is `s` with the first callback of the drain of `q` behind it, but for the ledger. */
  ghost predicate Advances(s: State, t: State, q: nat) {
    && q in s.drains && s.drains[q].todo != []
    && t == s.(drains := s.drains[q := s.drains[q].(todo := s.drains[q].todo[1..])], calls := t.calls, owed := t.owed)
  }

  lemma NotifyRoster(s: State, t: State, q: nat)
    requires Shape(s) && Roster(s) && Shape(t) && Advances(s, t, q)
    ensures Roster(t)
  {
    forall m: nat ensures Placed(t, m) {
      assert Placed(s, m);
      if m == q {
        SuffixTail(s.drains[q].todo, [q] + s.nodes[q].children);
      }
    }
  }

  lemma NotifyWaiting(s: State, t: State, q: nat, m: nat)
    requires Shape(s) && Roster(s) && Shape(t) && Advances(s, t, q)
    ensures Waiting(t, m) <==> Waiting(s, m) && m != s.drains[q].todo[0]
  {
    TodoOf(s, q);
    var todo := s.drains[q].todo;
    assert todo == [todo[0]] + todo[1..];
    assert todo[0] !in todo[1..];
    assert todo[0] in todo;
    assert Placed(s, m);
  }

  /** `t` is `s` with the request `r` of `n` no longer waiting. */
  ghost predicate Settles(s: State, t: State, n: nat, r: nat)
    requires Shape(s) && Shape(t)
  {
    && |t.nodes| == |s.nodes| && t.roles == s.roles && t.requests == s.requests && t.owed == s.owed - {r}
    && Waiting(s, n) && s.nodes[n].cb == Some(r)
    && (forall m :: 0 <= m < |s.nodes| && m != n ==> t.nodes[m].cb == s.nodes[m].cb)
    && (forall m: nat {:trigger Waiting(t, m)} :: m != n ==> (Waiting(t, m) <==> Waiting(s, m)))
    && (t.nodes[n].cb == None || (t.nodes[n].cb == Some(r) && !Waiting(t, n)))
  }

  lemma SettleOwed(s: State, t: State, n: nat, r: nat)
    requires Shape(s) && Shape(t) && Ledger(s) && Settles(s, t, n, r)
    ensures forall x :: Owes(t, x)
    ensures forall m :: Owed(t, m)
    ensures r in s.owed && r < s.requests && !Answered(s.calls, r) && r !in s.silenced
  {
    assert Owed(s, n) && Owes(s, r) && Silent(s, r);
    forall x ensures Owes(t, x) {
      assert Owes(s, x);
      assert x in t.owed ==> s.owed[x] != n && (Waiting(t, s.owed[x]) <==> Waiting(s, s.owed[x]));
    }
    forall m ensures Owed(t, m) { assert Owed(s, m); }
    forall i | 0 <= i < |s.calls| ensures s.calls[i].request != r { assert Called(s, i); }
  }

  lemma SettleSpent(s: State, t: State, n: nat, r: nat)
    requires Shape(s) && Shape(t) && Ledger(s) && Settles(s, t, n, r) && s.calls <= t.calls
    requires Answered(t.calls, r) || t.nodes[n].cb == None
    ensures forall m :: Spent(t, m)
  {
    AnsweredStays(s.calls, t.calls);
    forall m ensures Spent(t, m) { assert Spent(s, m); }
  }

  lemma AnsweredStays(a: seq<Call>, b: seq<Call>)
    requires a <= b
    ensures forall r :: Answered(a, r) ==> Answered(b, r)
  {
    forall r | Answered(a, r) ensures Answered(b, r) {
      var i :| 0 <= i < |a| && a[i].request == r;
      assert b[i].request == r;
    }
  }

  lemma CallBack(s: State, t: State, n: nat, r: nat, call: Call)
    requires Shape(s) && Shape(t) && Ledger(s) && Settles(s, t, n, r)
    requires call.request == r && t.calls == s.calls + [call] && t.silenced == s.silenced
    ensures Ledger(t)
  {
    SettleOwed(s, t, n, r);
    assert t.calls[|s.calls|].request == r;
    SettleSpent(s, t, n, r);
    forall x ensures Silent(t, x) { assert Silent(s, x); }
    forall i ensures Called(t, i) { assert Called(s, i); }
    assert forall i :: 0 <= i < |s.calls| ==> t.calls[i] == s.calls[i] && s.calls[i].request != r;
  }

  lemma Silence(s: State, t: State, n: nat, r: nat)
    requires Shape(s) && Shape(t) && Ledger(s) && Settles(s, t, n, r)
    requires t.nodes[n].cb == None && t.calls == s.calls && t.silenced == s.silenced + {r}
    ensures Ledger(t)
  {
    SettleOwed(s, t, n, r);
    SettleSpent(s, t, n, r);
    forall x ensures Silent(t, x) { assert Silent(s, x); }
    forall i: nat ensures Called(t, i) {
      assert Called(s, i);
      assert i < |s.calls| ==> s.calls[i].request != r;
    }
  }

  lemma NotifyLedger(s: State, q: nat)
    requires Shape(s) && Roster(s) && Ledger(s)
    requires q in s.drains && s.drains[q].todo != [] && s.drains[q].todo[0] < |s.nodes|
    requires Shape(Notify(s, q))
    ensures Ledger(Notify(s, q))
  {
    var t := Notify(s, q);
    var n := s.drains[q].todo[0];
    TodoOf(s, q);
    assert n in s.drains[q].todo;
    forall m: nat ensures Waiting(t, m) <==> Waiting(s, m) && m != n {
      NotifyWaiting(s, t, q, m);
    }
    if s.nodes[n].cb.Some? {
      var d := s.drains[q];
      CallBack(s, t, n, s.nodes[n].cb.value, Call(s.nodes[n].cb.value, d.status, d.pkt));
    } else {
      forall r ensures Owes(t, r) { assert Owes(s, r); }
      forall m ensures Owed(t, m) && Spent(t, m) { assert Owed(s, m) && Spent(s, m); }
      forall r ensures Silent(t, r) { assert Silent(s, r); }
      forall i ensures Called(t, i) { assert Called(s, i); }
    }
  }

  lemma NotifyInv(s: State, q: nat)
    requires Inv(s) && q in s.drains && s.drains[q].todo != [] && s.drains[q].todo[0] < |s.nodes|
    ensures Inv(Notify(s, q))
  {
    NotifyRoster(s, Notify(s, q), q);
    FrameIndexed(s, Notify(s, q));
    FrameIds(s, Notify(s, q));
    NotifyLedger(s, q);
  }

  // ----- Cancelling -----

  lemma CancelEffect(s: State, n: nat, notify: bool)
    requires n < |s.nodes| && (notify ==> s.nodes[n].cb.Some?)
    ensures var t := Cancel(s, n, notify);
            t == s.(nodes := s.nodes[n := s.nodes[n].(cb := None)], calls := t.calls, owed := t.owed, silenced := t.silenced)
  {
  }

  lemma CancelFrame(s: State, n: nat, notify: bool)
    requires Inv(s) && n < |s.nodes| && (notify ==> s.nodes[n].cb.Some?)
    ensures var t := Cancel(s, n, notify); Shape(t) && Roster(t) && Indexed(t) && Ids(t)
  {
    hide Roster, Indexed, Ids, Ledger, Cancel;
    var t := Cancel(s, n, notify);
    CancelEffect(s, n, notify);
    FrameRoster(s, t);
    FrameIndexed(s, t);
    FrameIds(s, t);
  }

  /** Cancelling a query with no callback, or one whose callback has been made */
  lemma CancelSpent(s: State, n: nat)
    requires Inv(s) && n < |s.nodes| && (s.nodes[n].cb == None || !Waiting(s, n))
    requires Shape(Cancel(s, n, false))
    ensures Ledger(Cancel(s, n, false))
  {
    var t := Cancel(s, n, false);
    assert s.nodes[n].cb.Some? ==> Owes(s, s.nodes[n].cb.value);
    forall m: nat ensures Waiting(t, m) <==> Waiting(s, m) {}
    forall r ensures Owes(t, r) { assert Owes(s, r); }
    forall m ensures Owed(t, m) && Spent(t, m) { assert Owed(s, m) && Spent(s, m); }
    forall r ensures Silent(t, r) { assert Silent(s, r); }
    forall i ensures Called(t, i) { assert Called(s, i); }
  }

  lemma CancelInv(s: State, n: nat, notify: bool)
    requires Inv(s) && n < |s.nodes| && (notify ==> s.nodes[n].cb.Some? && Waiting(s, n))
    ensures Inv(Cancel(s, n, notify))
  {
    CancelFrame(s, n, notify);
    var t := Cancel(s, n, notify);
    var cb := s.nodes[n].cb;
    if cb.Some? && Waiting(s, n) {
      assert Owed(s, n);
      if notify {
        CallBack(s, t, n, cb.value, Call(cb.value, Cancelled, None));
      } else {
        Silence(s, t, n, cb.value);
      }
    } else {
      CancelSpent(s, n);
    }
  }

  // ----- The end of a handler -----

  lemma Recycled(free: seq<nat>, children: seq<nat>, q: nat)
    requires Distinct(free) && Distinct(children) && q !in free && q !in children
    requires forall c :: c in children ==> c !in free
    ensures Distinct(free + children + [q])
    ensures forall m :: m in free + children + [q] <==> m in free || m in children || m == q
  {
    assert forall i :: 0 <= i < |free| ==> free[i] in free;
    assert forall i :: 0 <= i < |children| ==> children[i] in children;
  }

  /** `t` is `s` with the query `q` and its children recycled, but for the cache. */
  ghost predicate Finishes(s: State, t: State, q: nat) {
    && q < |s.nodes| == |s.roles| && q in s.drains && s.drains[q].todo == []
    && t == s.(nodes := s.nodes[q := s.nodes[q].(armed := false)],
               free := s.free + s.nodes[q].children + [q],
               roles := FreeRoles(s.roles, q, s.nodes[q].children),
               drains := s.drains - {q},
               cache := t.cache, log := t.log)
  }

  lemma FinishPlaced(s: State, t: State, q: nat, m: nat)
    requires Shape(s) && Shape(t) && Roster(s) && Finishes(s, t, q)
    requires m in t.free <==> m in s.free || m in s.nodes[q].children || m == q
    ensures Placed(t, m)
  {
    assert Placed(s, q) && Placed(s, m);
    if m < |s.nodes| && s.roles[m].Child? {
      assert Placed(s, s.roles[m].parent);
    }
  }

  lemma FinishRoster(s: State, t: State, q: nat)
    requires Shape(s) && Roster(s) && Finishes(s, t, q)
    ensures Shape(t) && Roster(t)
  {
    assert Placed(s, q);
    forall c | c in s.nodes[q].children ensures c !in s.free && c != q { assert Placed(s, c); }
    Recycled(s.free, s.nodes[q].children, q);
    forall m: nat ensures Placed(t, m) {
      FinishPlaced(s, t, q, m);
    }
  }

  lemma FinishRest(s: State, t: State, q: nat)
    requires Inv(s) && Finishes(s, t, q) && Shape(t)
    ensures Indexed(t) && Ids(t)
  {
    assert Placed(s, q);
    forall i ensures IdIndexed(t, i) { assert IdIndexed(s, i); }
    forall k ensures KeyIndexed(t, k) { assert KeyIndexed(s, k); }
    forall n ensures NodeIndexed(t, n) { assert NodeIndexed(s, n); }
    forall n ensures NodeAged(t, n) { assert NodeAged(s, n); }
  }

  lemma FinishWaiting(s: State, t: State, q: nat, m: nat)
    requires Shape(s) && Roster(s) && Finishes(s, t, q) && Shape(t)
    ensures Waiting(t, m) <==> Waiting(s, m)
  {
    assert Placed(s, q) && Placed(s, m);
    if m < |s.nodes| && s.roles[m].Child? && s.roles[m].parent != q {
      assert Placed(s, s.roles[m].parent);
    }
  }

  lemma FinishLedger(s: State, t: State, q: nat)
    requires Shape(s) && Roster(s) && Ledger(s) && Finishes(s, t, q) && Shape(t)
    ensures Ledger(t)
  {
    forall r ensures Owes(t, r) {
      assert Owes(s, r);
      if r in s.owed { FinishWaiting(s, t, q, s.owed[r]); }
    }
    forall m ensures Owed(t, m) && Spent(t, m) {
      assert Owed(s, m) && Spent(s, m);
      FinishWaiting(s, t, q, m);
    }
    forall r ensures Silent(t, r) { assert Silent(s, r); }
    forall i ensures Called(t, i) { assert Called(s, i); }
  }

  lemma FinishInv(s: State, q: nat, saved: Packet, now: Time)
    requires Inv(s) && q < |s.nodes| && q in s.drains && s.drains[q].todo == []
    ensures Inv(Finish(s, q, saved, now))
  {
    var t := Finish(s, q, saved, now);
    FinishRoster(s, t, q);
    FinishRest(s, t, q);
    FinishLedger(s, t, q);
  }
}
