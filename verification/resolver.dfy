/** The resolver as the source runs it: one object, updated in place. */
module Resolver {
  import opened DnsPacket
  import opened Wrappers
  import opened Nameservers
  import opened ResolverCache
  import opened ResolverModel
  import opened ResolverSafety
  import opened ResolverRuns

  class DnsResolver {
    const settings: Settings
    const nsTable: array<Nameserver>
    var nsCount: nat
    var lastId: nat
    var nodes: seq<Node>
    var freeNodes: seq<nat>
    var queryById: map<nat, nat>
    var queryByRes: map<Key, nat>
    var resCache: Cache
    var drains: map<nat, Drain>
    ghost var roles: seq<Role>
    ghost var births: seq<nat>
    ghost var allocs: nat
    var requests: nat
    ghost var owed: map<nat, nat>
    ghost var silenced: set<nat>
    ghost var calls: seq<Call>
    ghost var log: seq<Event>

    ghost predicate Valid()
      reads this
    {
      nsTable.Length == MAX_NS && nsCount < MAX_NS
    }

    ghost function Model(): State
      requires Valid()
      reads this, nsTable
    {
      State(settings, nsTable[..nsCount], lastId, nodes, freeNodes, queryById, queryByRes, resCache, drains,
            roles, births, allocs, requests, owed, silenced, calls, log)
    }

    /** pj_dns_resolver_create: no nameservers yet */
    constructor (settings: Settings)
      ensures Valid() && fresh(nsTable) && Model() == Initial(settings, []) && Inv(Model())
    {
      this.settings := settings;
      var blank := Nameserver(Endpoint(0, 0), Probing, 0, 0, 0, 0);
      nsTable := new Nameserver[MAX_NS](i => blank);
      nsCount := 0;
      lastId := 1;
      nodes, freeNodes, queryById, queryByRes, resCache, drains := [], [], map[], map[], map[], map[];
      roles, births, allocs, requests, owed, silenced, calls, log := [], [], 0, 0, map[], {}, [], [];
      new;
      InitialInv(settings, nsTable[..nsCount]);
    }

    /** pj_dns_resolver_set_ns */
    method SetNameservers(addresses: seq<Option<Endpoint>>, now: Time) returns (status: Status)
      requires Valid()
      modifies `nsCount, nsTable
      ensures Valid() && Model() == SetNs(old(Model()), addresses, now)
      ensures status == InvalidArgument <==> |addresses| == 0 || |addresses| >= MAX_NS
      ensures status == BadNsAddress <==> 0 < |addresses| < MAX_NS && None in addresses
      ensures status in {Success, InvalidArgument, BadNsAddress}
    {
      if |addresses| == 0 || |addresses| >= MAX_NS {
        return InvalidArgument;
      }
      nsCount := 0;
      for i := 0 to |addresses|
        modifies nsTable
        invariant forall k :: 0 <= k < i ==>
                    addresses[k].Some? && nsTable[k] == Nameserver(addresses[k].value, Active, now, 10000, 0, 0)
      {
        if addresses[i].None? {
          assert addresses[i] in addresses && nsTable[..nsCount] == [];
          return BadNsAddress;
        }
        nsTable[i] := Nameserver(addresses[i].value, Active, now, 10000, 0, 0);
      }
      nsCount := |addresses|;
      assert nsTable[..nsCount] == NewServers(addresses, now);
      status := Success;
    }

    /** alloc_qnode */
    method AllocQnode(ghost role: Role, cb: Option<nat>) returns (n: nat)
      requires Valid() && Shape(Model())
      modifies this
      ensures Valid() && (n, Model()) == AllocNode(old(Model()), role, cb)
    {
      var node := Node(0, NO_KEY, 0, false, cb, []);
      if freeNodes != [] {
        n := freeNodes[0];
        assert n in freeNodes;
        freeNodes := freeNodes[1..];
        nodes := nodes[n := node];
        roles := roles[n := role];
      } else {
        n := |nodes|;
        nodes := nodes + [node];
        roles := roles + [role];
        births := births + [0];
      }
    }

    /** transmit_query */
    method TransmitQuery(n: nat, now: Time, timerOk: bool) returns (status: Status)
      requires Valid() && n < |nodes| && !nodes[n].armed
      modifies `nodes, nsTable
      ensures (status, Model()) == Transmit(old(Model()), n, now, timerOk)
    {
      hide Selected, RefreshAll, MarkSent;
      if nsCount == 0 {
        return NoNameserver;
      }
      var servers := new nat[MAX_NS];
      var count := SelectNameservers(settings, nsTable, nsCount, now, servers);
      if count == 0 {
        return NoWorkingNameserver;
      }
      nodes := nodes[n := nodes[n].(armed := true)];
      if !timerOk {
        return TimerFailed;
      }
      SendAll(servers, count, nodes[n].id, now, old(nsTable[..nsCount]));
      nodes := nodes[n := nodes[n].(transmitCnt := nodes[n].transmitCnt + 1)];
      assert nodes == old(nodes)[n := old(nodes[n]).(armed := true, transmitCnt := old(nodes[n]).transmitCnt + 1)];
      status := Success;
    }

    method SendAll(servers: array<nat>, count: nat, qid: nat, now: Time, ghost before: seq<Nameserver>)
      requires Valid() && count <= servers.Length && servers[..count] == Selected(settings, before, now)
      requires nsTable[..nsCount] == RefreshAll(settings, before, now)
      modifies nsTable
      ensures |before| == nsCount
      ensures forall i :: 0 <= i < count ==> servers[..count][i] < nsCount
      ensures nsTable[..nsCount] == MarkSent(RefreshAll(settings, before, now), servers[..count], qid, now)
    {
      SelectedInRange(settings, before, now);
      assert forall i :: 0 <= i < count ==> servers[i] == servers[..count][i];
      RecordSent(nsTable, nsCount, servers, count, qid, now);
    }

    /** The pending query of the same key takes in another request. */
    method AddChild(parent: nat, cb: Option<nat>)
      requires Valid() && Shape(Model()) && parent < |nodes|
      modifies this
      ensures Valid() && Model() == StartChild(old(Model()), parent, cb)
    {
      var n := AllocQnode(Child(parent), cb);
      nodes := nodes[parent := nodes[parent].(children := nodes[parent].children + [n])];
      AcceptInto(n, cb.Some?);
    }

    /** A request is accepted into node `n` (bookkeeping only). */
    method AcceptInto(n: nat, hasCb: bool)
      requires Valid() && n < |nodes|
      modifies `requests, `owed
      ensures Model() == Accept(old(Model()), hasCb, n)
    {
      if hasCb {
        owed := owed[requests := n];
        requests := requests + 1;
      }
    }

    /** A node with the next id: 0 is never handed out. */
    method PrepareQuery(key: Key, cb: Option<nat>) returns (n: nat)
      requires Valid() && Shape(Model())
      modifies this
      ensures Valid() && (n, Model()) == Prepare(old(Model()), key, cb)
    {
      hide AllocNode, NextId;
      n := AllocQnode(Free, cb);
      nodes := nodes[n := nodes[n].(id := lastId, key := key)];
      TakeId();
      births := births[n := allocs];
      allocs := allocs + 1;
    }

    method TakeId()
      modifies `lastId
      ensures lastId == NextId(old(lastId))
    {
      lastId := (lastId + 1) % 65536;
      if lastId == 0 {
        lastId := 1;
      }
    }

    method RegisterQuery(n: nat)
      requires Valid() && Shape(Model()) && n < |nodes|
      modifies this
      ensures Valid() && Model() == Register(old(Model()), n)
    {
      queryById := queryById[nodes[n].id := n];
      queryByRes := queryByRes[nodes[n].key := n];
      roles := roles[n := Pending];
      AcceptInto(n, nodes[n].cb.Some?);
    }

    method AddParent(key: Key, cb: Option<nat>, timerOk: bool, now: Time) returns (status: Status, handle: Option<nat>)
      requires Valid() && Shape(Model())
      modifies this, nsTable
      ensures Valid() && StartResult(Model(), status, handle) == StartParent(old(Model()), key, cb, timerOk, now)
    {
      var n := PrepareQuery(key, cb);
      status := TransmitQuery(n, now, timerOk);
      if status != Success {
        freeNodes := freeNodes + [n];
        return status, None;
      }
      RegisterQuery(n);
      handle := Some(n);
    }

    /** pj_dns_resolver_start_query; `hasCb` is whether the application passed a callback,
        and the handle is what it gets back through `p_query`. */
    method StartQuery(name: Name, qtype: int, hasCb: bool, timerOk: bool, now: Time)
      returns (status: Status, handle: Option<nat>)
      requires Valid() && Shape(Model())
      modifies this, nsTable
      ensures Valid()
      ensures StartResult(Model(), status, handle) == ResolverModel.StartQuery(old(Model()), name, qtype, hasCb, timerOk, now)
    {
      hide StartChild, StartParent, InitKey;
      if qtype == 0 {
        return InvalidArgument, None;
      }
      if |name| == 0 || |name| >= MAX_HOSTNAME {
        return NameTooLong, None;
      }
      if !(0 < qtype < 0xFFFF) {
        return InvalidArgument, None;
      }
      var key := InitKey(qtype, name);
      if key in resCache {
        var entry := resCache[key];
        if entry.expiry > now {
          if hasCb {
            calls := calls + [Call(requests, FromRcode(Rcode(entry.pkt.flags)), Some(entry.pkt))];
            requests := requests + 1;
          }
          return Success, None;
        }
        resCache := resCache - {key};
      }
      var cb := if hasCb then Some(requests) else None;
      if key in queryByRes {
        AddChild(queryByRes[key], cb);
        return Success, None;
      }
      status, handle := AddParent(key, cb, timerOk, now);
    }

    /** pj_dns_resolver_cancel_query. `crashed` says that it calls a null pointer, for want of a callback. */
    method CancelQuery(n: nat, notify: bool) returns (crashed: bool)
      requires Valid() && n < |nodes|
      modifies this
      ensures Valid() && crashed == CallsNull(old(Model()), n, notify)
      ensures Model() == if crashed then old(Model()) else Cancel(old(Model()), n, notify)
    {
      var cb := nodes[n].cb;
      nodes := nodes[n := nodes[n].(cb := None)];
      crashed := notify && cb.None?;
      if crashed {
        assert nodes == old(nodes);
      } else if notify {
        CallApplication(cb.value, Cancelled, None);
      } else if cb.Some? {
        if cb.value in owed && owed[cb.value] == n {
          owed := owed - {cb.value};
          silenced := silenced + {cb.value};
        }
      }
    }

    /** The application's callback runs: all the model keeps of it is that it was called. */
    method CallApplication(request: nat, status: Status, pkt: Option<Packet>)
      requires Valid()
      modifies `calls, `owed
      ensures Model() == Deliver(old(Model()), request, status, pkt)
    {
      calls := calls + [Call(request, status, pkt)];
      owed := owed - {request};
    }

    /** The query leaves both indexes, and its handler starts calling back. */
    method OpenDrain(n: nat, status: Status, pkt: Option<Packet>)
      requires Valid() && n < |nodes| == |roles|
      modifies `queryById, `queryByRes, `drains, `roles
      ensures Model() == StartDrain(old(Model()), n, status, pkt)
    {
      queryById := queryById - {nodes[n].id};
      queryByRes := queryByRes - {nodes[n].key};
      drains := drains[n := Drain(status, pkt, [n] + nodes[n].children)];
      roles := roles[n := Draining];
    }

    /** One callback of a handler */
    method NotifyNext(q: nat)
      requires Valid() && q in drains && drains[q].todo != [] && drains[q].todo[0] < |nodes|
      modifies `drains, `calls, `owed
      ensures Model() == ResolverModel.Notify(old(Model()), q)
    {
      var d := drains[q];
      drains := drains[q := d.(todo := d.todo[1..])];
      var cb := nodes[d.todo[0]].cb;
      if cb.Some? {
        CallApplication(cb.value, d.status, d.pkt);
      }
    }

    /** The callback loop of a handler, with nothing in between */
    method NotifyApplications(q: nat)
      requires Valid() && Inv(Model()) && q in drains
      modifies `drains, `calls, `owed
      ensures Inv(Model()) && Model() == NotifyAll(old(Model()), q)
    {
      ghost var s := Model();
      while drains[q].todo != []
        invariant Inv(Model()) && q in drains && NotifyAll(Model(), q) == NotifyAll(s, q)
        decreases |drains[q].todo|
      {
        TodoOf(Model(), q);
        assert drains[q].todo[0] in drains[q].todo;
        NotifyInv(Model(), q);
        NotifyNext(q);
      }
    }

    static method LeastTtl(ans: seq<RR>) returns (ttl: nat)
      ensures ttl == MinTtl(ans)
    {
      ttl := NO_TTL;
      for i := 0 to |ans|
        invariant ttl == MinTtl(ans[..i])
      {
        assert ans[..i + 1][..i] == ans[..i];
        if ans[i].ttl < ttl {
          ttl := ans[i].ttl;
        }
      }
      assert ans[..|ans|] == ans;
    }

    method TtlOf(success: bool, setExpiry: bool, pkt: Packet) returns (ttl: nat)
      ensures ttl == EffectiveTtl(settings.cacheMaxTtl, success, setExpiry, pkt)
    {
      ttl := NO_TTL;
      if setExpiry {
        if pkt.ans == [] || !success {
          ttl := INVALID_TTL;
        } else {
          ttl := LeastTtl(pkt.ans);
        }
      }
      if ttl > settings.cacheMaxTtl {
        ttl := settings.cacheMaxTtl;
      }
    }

    /** update_res_cache */
    method UpdateResCache(key: Key, success: bool, setExpiry: bool, pkt: Packet, now: Time)
      modifies `resCache, `log
      ensures log == old(log) + [Event(key, success, setExpiry, pkt, now)]
      ensures resCache == Put(old(resCache), key, EntryOf(settings.cacheMaxTtl, Event(key, success, setExpiry, pkt, now)))
    {
      log := log + [Event(key, success, setExpiry, pkt, now)];
      if !success {
        resCache := resCache - {key};
      }
      var ttl := TtlOf(success, setExpiry, pkt);
      if ttl == 0 {
        resCache := resCache - {key};
        assert resCache == old(resCache) - {key};
        return;
      }
      var copy := DuplicatePacket(pkt, KEEP_ANSWERS);
      var entry := Entry(if setExpiry then now + 1000 * ttl else FOREVER, copy);
      resCache := resCache[key := entry];
      assert resCache == old(resCache)[key := entry];
    }

    /** The end of a handler: the children go back to the free list one by one, then the
        query. */
    method CloseDrain(q: nat, saved: Packet, now: Time)
      requires Valid() && q < |nodes| && q in drains
      modifies this
      ensures Valid() && Model() == Finish(old(Model()), q, saved, now)
    {
      hide FreeFamily, Put, EntryOf;
      if drains[q].pkt.Some? {
        UpdateResCache(nodes[q].key, drains[q].status.Success?, true, saved, now);
      }
      Dispose(q);
    }

    method Dispose(q: nat)
      requires Valid() && q < |nodes| && q in drains
      modifies `nodes, `freeNodes, `roles, `drains
      ensures Model() == FreeFamily(old(Model()), q)
    {
      hide FreeRoles;
      nodes := nodes[q := nodes[q].(armed := false)];
      Recycle(nodes[q].children);
      freeNodes := freeNodes + [q];
      roles := FreeRoles(roles, q, nodes[q].children);
      drains := drains - {q};
    }

    method Recycle(children: seq<nat>)
      modifies `freeNodes
      ensures freeNodes == old(freeNodes) + children
    {
      for i := 0 to |children|
        invariant freeNodes == old(freeNodes) + children[..i]
      {
        freeNodes := freeNodes + [children[i]];
      }
      assert children[..|children|] == children;
    }

    /** The rest of a handler once its drain is open, with nothing in between */
    method CompleteDrain(q: nat, saved: Packet, now: Time)
      requires Valid() && Inv(Model()) && q in drains
      modifies this
      ensures Valid() && Inv(Model()) && Model() == DrainAll(old(Model()), q, saved, now)
    {
      NotifyApplications(q);
      FinishInv(Model(), q, saved, now);
      CloseDrain(q, saved, now);
    }

    /** on_timeout. The callbacks run under the lock, which the application may take again:
        this is the handler when it does not. */
    method OnTimeout(n: nat, timerOk: bool, now: Time)
      requires Valid() && Inv(Model()) && n < |nodes| && (roles[n].Pending? || nodes[n].id !in queryById)
      modifies this, nsTable
      ensures Valid() && Inv(Model()) && Model() == TimeoutAll(old(Model()), n, timerOk, now)
    {
      ghost var s := Model();
      TimeoutInv(s, n, timerOk, now);
      if nodes[n].id !in queryById {
        return;
      }
      var retransmitted := Retransmit(n, timerOk, now);
      if !retransmitted {
        OpenDrain(n, TimedOut, None);
        assert Model() == Timeout(s, n, timerOk, now);
        CompleteDrain(n, NO_PACKET, now);
      } else {
        assert Placed(Model(), n);
      }
    }

    method Retransmit(n: nat, timerOk: bool, now: Time) returns (ok: bool)
      requires Valid() && n < |nodes| == |roles| && nodes[n].id in queryById
      modifies `nodes, nsTable
      ensures n < |nodes| == |roles|
      ensures Timeout(old(Model()), n, timerOk, now) == if ok then Model() else StartDrain(Model(), n, TimedOut, None)
    {
      nodes := nodes[n := nodes[n].(armed := false)];
      ok := false;
      if nodes[n].transmitCnt < settings.qretrCount {
        var status := TransmitQuery(n, now, timerOk);
        ok := status == Success;
      }
    }

    /** on_read_complete, up to where it gives the lock away: the query whose callbacks are
        to be made, if the packet answers one. */
    method ReceivePacket(from: Endpoint, pkt: Option<Packet>, now: Time) returns (q: Option<nat>)
      requires Valid() && Inv(Model())
      modifies this, nsTable
      ensures Valid() && Inv(Model()) && Model() == Receive(old(Model()), from, pkt, now)
      ensures q.Some? <==> pkt.Some? && pkt.value.id in old(queryById)
      ensures q.Some? ==> q.value in drains && q.value == old(queryById)[pkt.value.id]
    {
      ReceiveInv(Model(), from, pkt, now);
      if pkt.Some? && pkt.value.id in queryById {
        TimerIsArmed(Model(), pkt.value.id);
      }
      ReportStatus(settings, nsTable, nsCount, from, pkt, now);
      if pkt == None || pkt.value.id !in queryById {
        return None;
      }
      var n := queryById[pkt.value.id];
      assert nodes[n].armed;
      nodes := nodes[n := nodes[n].(armed := false)];
      OpenDrain(n, FromRcode(Rcode(pkt.value.flags)), pkt);
      q := Some(n);
    }

    /** pj_dns_resolver_add_entry. `locked` says whether the lock is still taken at the end: when
        the name is too long, the source returns without giving it back. */
    method AddEntry(pkt: Packet, setTtl: bool, now: Time) returns (status: Status, locked: bool)
      requires Valid()
      modifies `resCache, `log
      ensures Valid() && status == EntryStatus(pkt) && Model() == ResolverModel.AddEntry(old(Model()), pkt, setTtl, now)
      ensures locked <==> status == NameTooLong
    {
      hide Put, EntryOf, InitKey;
      locked := false;
      if pkt.flags / 0x8000 % 2 == 0 {
        return InvalidArgument, locked;
      }
      if pkt.ans == [] && pkt.q == [] {
        return NoAnswerRecord, locked;
      }
      locked := true;
      var name := if pkt.ans != [] then pkt.ans[0].name else pkt.q[0].name;
      var rtype := if pkt.ans != [] then pkt.ans[0].rtype else pkt.q[0].qtype;
      if |name| >= MAX_HOSTNAME {
        return NameTooLong, locked;
      }
      UpdateResCache(InitKey(rtype, name), true, setTtl, pkt, now);
      locked := false;
      status := Success;
    }
  }
}
