/** The asynchronous resolver as a state machine. Each step is one section of resolver.c
    that runs under the mutex without calling the application; a handler that calls back
    is a step that opens a drain, one step per callback, and a step that closes it, so
    that everything the application or another thread may do between two callbacks is a
    run of this machine. */
module ResolverModel {
  import opened Bytes
  import opened DnsPacket
  import opened Wrappers
  import opened Nameservers
  import opened ResolverCache

  datatype Status =
    | Success
    | DnsRcode(rcode: nat)
    | TimedOut
    | Cancelled
    | NameTooLong
    | InvalidArgument
    | NoNameserver
    | NoWorkingNameserver
    | TimerFailed
    | NoAnswerRecord
    | BadNsAddress

  /** PJ_STATUS_FROM_DNS_RCODE */
  function FromRcode(rcode: nat): Status {
    if rcode == 0 then Success else DnsRcode(rcode)
  }

  const LAST_ID := 65535

  /** A pj_dns_async_query; nodes are named by their position in the pool, which never
      shrinks. `cb` is the request the callback pointer stands for. */
  datatype Node = Node(id: nat, key: Key, transmitCnt: nat, armed: bool, cb: Option<nat>, children: seq<nat>)

  /** Where a node is. The source keeps no such field: it is what the lists and indexes
      say, and Roster ties it to them. */
  datatype Role = Free | Pending | Draining | Child(parent: nat)

  /** A handler in the middle of its callbacks: who is still to be called, with what. */
  datatype Drain = Drain(status: Status, pkt: Option<Packet>, todo: seq<nat>)

  datatype Call = Call(request: nat, status: Status, pkt: Option<Packet>)

  datatype State = State(
    settings: Settings,
    ns: seq<Nameserver>,
    lastId: nat,
    nodes: seq<Node>,
    free: seq<nat>,
    byId: map<nat, nat>,
    byRes: map<Key, nat>,
    cache: Cache,
    drains: map<nat, Drain>,
    // History
    roles: seq<Role>,
    births: seq<nat>,        // how many ids had been allocated when the node got its own
    allocs: nat,             // ids allocated so far
    requests: nat,           // requests accepted with a callback; they are numbered from 0
    owed: map<nat, nat>,     // outstanding requests, and the node each waits in
    silenced: set<nat>,      // requests cancelled without notification
    calls: seq<Call>,        // every callback made, in order
    log: seq<Event>)         // every cache update

  const NO_KEY := Key(0, Zeros(MAX_HOSTNAME))

  function Initial(settings: Settings, ns: seq<Nameserver>): State {
    State(settings, ns, 1, [], [], map[], map[], map[], map[], [], [], 0, 0, map[], {}, [], [])
  }

  // ----- Parts of steps -----

  /** alloc_qnode: the oldest free node, or a new one. */
  function AllocNode(s: State, role: Role, cb: Option<nat>): (r: (nat, State))
    requires Shape(s)
    ensures Shape(r.1) && r.0 < |r.1.nodes| && |s.nodes| <= |r.1.nodes|
    ensures r.1 == s.(free := r.1.free, nodes := r.1.nodes, roles := r.1.roles, births := r.1.births)
  {
    var node := Node(0, NO_KEY, 0, false, cb, []);
    if s.free != [] then
      var n := s.free[0];
      assert n in s.free && forall m :: m in s.free[1..] ==> m in s.free;
      (n, s.(free := s.free[1..], nodes := s.nodes[n := node], roles := s.roles[n := role]))
    else
      (|s.nodes|, s.(nodes := s.nodes + [node], roles := s.roles + [role], births := s.births + [0]))
  }

  /** The request a callback given to start_query stands for, and its bookkeeping. */
  function Accept(s: State, hasCb: bool, n: nat): State {
    if hasCb then s.(requests := s.requests + 1, owed := s.owed[s.requests := n]) else s
  }

  /** transmit_query. `timerOk` is the outcome of scheduling the timer. The packet always
      fits: the name has at most 127 bytes and the buffer 512. */
  function Transmit(s: State, n: nat, now: Time, timerOk: bool): (r: (Status, State))
    requires n < |s.nodes|
    ensures r.1 == s.(ns := r.1.ns, nodes := r.1.nodes) && |r.1.nodes| == |s.nodes|
  {
    if s.ns == [] then (NoNameserver, s)
    else
      var servers := Selected(s.settings, s.ns, now);
      var ns := RefreshAll(s.settings, s.ns, now);
      if servers == [] then (NoWorkingNameserver, s.(ns := ns))
      else if !timerOk then (TimerFailed, s.(ns := ns, nodes := s.nodes[n := s.nodes[n].(armed := true)]))
      else
        SelectedInRange(s.settings, s.ns, now);
        var node := s.nodes[n].(armed := true, transmitCnt := s.nodes[n].transmitCnt + 1);
        (Success, s.(ns := MarkSent(ns, servers, node.id, now), nodes := s.nodes[n := node]))
  }

  lemma SelectedInRange(s: Settings, ns: seq<Nameserver>, now: Time)
    ensures var r := Selected(s, ns, now); forall i :: 0 <= i < |r| ==> r[i] < |ns|
  {
  }

  /** Takes a pending query out of both indexes and starts on its callbacks. */
  function StartDrain(s: State, n: nat, status: Status, pkt: Option<Packet>): State
    requires n < |s.nodes| == |s.roles|
  {
    var node := s.nodes[n];
    s.(byId := s.byId - {node.id},
       byRes := s.byRes - {node.key},
       roles := s.roles[n := Draining],
       drains := s.drains[n := Drain(status, pkt, [n] + node.children)])
  }

  /** One callback: the application hears of `request`. */
  function Deliver(s: State, request: nat, status: Status, pkt: Option<Packet>): State {
    s.(calls := s.calls + [Call(request, status, pkt)], owed := s.owed - {request})
  }

  // ----- Steps -----

  datatype StartResult = StartResult(s: State, status: Status, handle: Option<nat>)

  /** pj_dns_resolver_start_query */
  function StartQuery(s: State, name: Name, qtype: int, hasCb: bool, timerOk: bool, now: Time): StartResult
    requires Shape(s)
  {
    if qtype == 0 then StartResult(s, InvalidArgument, None)
    else if |name| == 0 || |name| >= MAX_HOSTNAME then StartResult(s, NameTooLong, None)
    else if !(0 < qtype < 0xFFFF) then StartResult(s, InvalidArgument, None)
    else
      var key := InitKey(qtype, name);
      var hit := Lookup(s.cache, key, now);
      var s0 := s.(cache := Evict(s.cache, key, now));
      if hit.Some? then
        var pkt := hit.value.pkt;
        var s1 := if !hasCb then s0
                  else s0.(requests := s0.requests + 1,
                           calls := s0.calls + [Call(s0.requests, FromRcode(Rcode(pkt.flags)), Some(pkt))]);
        StartResult(s1, Success, None)
      else
        var cb := if hasCb then Some(s.requests) else None;
        if key in s.byRes then StartResult(StartChild(s0, s.byRes[key], cb), Success, None)
        else StartParent(s0, key, cb, timerOk, now)
  }

  /** The request leads to a new query, which is given an id. */
  predicate TakesId(s: State, name: Name, qtype: int, now: Time) {
    && 0 < |name| < MAX_HOSTNAME && 0 < qtype < 0xFFFF
    && var key := InitKey(qtype, name); Lookup(s.cache, key, now).None? && key !in s.byRes
  }

  /** The node joins the children of a pending query. */
  function Adopt(s: State, parent: nat, n: nat): (t: State)
    requires Shape(s) && parent < |s.nodes| && n < |s.nodes|
    ensures Shape(t)
  {
    var p := s.nodes[parent];
    Accept(s.(nodes := s.nodes[parent := p.(children := p.children + [n])]), s.nodes[n].cb.Some?, n)
  }

  function StartChild(s: State, parent: nat, cb: Option<nat>): (t: State)
    requires Shape(s) && parent < |s.nodes|
    ensures t == s.(free := t.free, nodes := t.nodes, roles := t.roles, births := t.births,
                    requests := t.requests, owed := t.owed)
  {
    var (n, t) := AllocNode(s, Child(parent), cb);
    Adopt(t, parent, n)
  }

  function NextId(id: nat): nat {
    var next := (id + 1) % 65536;
    if next == 0 then 1 else next
  }

  /** A node with the next id and the key of the request, in no list yet */
  function Prepare(s: State, key: Key, cb: Option<nat>): (r: (nat, State))
    requires Shape(s)
    ensures Shape(r.1) && r.0 < |r.1.nodes|
  {
    var (n, t) := AllocNode(s, Free, cb);
    (n, t.(nodes := t.nodes[n := t.nodes[n].(id := s.lastId, key := key)],
           lastId := NextId(s.lastId),
           births := t.births[n := s.allocs],
           allocs := s.allocs + 1))
  }

  /** The query is pending: it enters both indexes. */
  function Register(s: State, n: nat): (t: State)
    requires Shape(s) && n < |s.nodes|
    ensures Shape(t)
  {
    var node := s.nodes[n];
    Accept(s.(byId := s.byId[node.id := n], byRes := s.byRes[node.key := n], roles := s.roles[n := Pending]), node.cb.Some?, n)
  }

  function StartParent(s: State, key: Key, cb: Option<nat>, timerOk: bool, now: Time): (r: StartResult)
    requires Shape(s)
    ensures var t := r.s;
            t == s.(free := t.free, nodes := t.nodes, roles := t.roles, births := t.births, requests := t.requests,
                    owed := t.owed, ns := t.ns, byId := t.byId, byRes := t.byRes, lastId := t.lastId, allocs := t.allocs)
  {
    var (n, s1) := Prepare(s, key, cb);
    var (status, s2) := Transmit(s1, n, now, timerOk);
    if status != Success then StartResult(s2.(free := s2.free + [n]), status, None)
    else StartResult(Register(s2, n), Success, Some(n))
  }

  /** A notified cancellation does not ask whether there is a callback. */
  predicate CallsNull(s: State, n: nat, notify: bool)
    requires n < |s.nodes|
  {
    notify && s.nodes[n].cb.None?
  }

  /** pj_dns_resolver_cancel_query, unless it calls a null pointer */
  function Cancel(s: State, n: nat, notify: bool): State
    requires n < |s.nodes|
    requires !CallsNull(s, n, notify)
  {
    var cb := s.nodes[n].cb;
    var s1 := s.(nodes := s.nodes[n := s.nodes[n].(cb := None)]);
    if cb.None? then s1
    else if notify then Deliver(s1, cb.value, Cancelled, None)
    else if cb.value in s.owed && s.owed[cb.value] == n then s1.(owed := s1.owed - {cb.value}, silenced := s1.silenced + {cb.value})
    else s1
  }

  /** on_timeout, up to its first callback */
  function Timeout(s: State, n: nat, timerOk: bool, now: Time): (t: State)
    requires n < |s.nodes| == |s.roles|
    ensures t == s.(ns := t.ns, nodes := t.nodes, byId := t.byId, byRes := t.byRes, roles := t.roles, drains := t.drains)
  {
    if s.nodes[n].id !in s.byId then s
    else
      var s1 := s.(nodes := s.nodes[n := s.nodes[n].(armed := false)]);
      if s1.nodes[n].transmitCnt < s1.settings.qretrCount then
        var (status, s2) := Transmit(s1, n, now, timerOk);
        if status == Success then s2 else StartDrain(s2, n, TimedOut, None)
      else StartDrain(s1, n, TimedOut, None)
  }

  /** on_read_complete, up to its first callback; `pkt` is what the packet parsed to */
  function Receive(s: State, from: Endpoint, pkt: Option<Packet>, now: Time): (t: State)
    requires Shape(s)
    ensures t == s.(ns := t.ns, nodes := t.nodes, byId := t.byId, byRes := t.byRes, roles := t.roles, drains := t.drains)
  {
    var s1 := s.(ns := Report(s.settings, s.ns, from, pkt, now));
    if pkt.None? || pkt.value.id !in s.byId then s1
    else
      var n := s.byId[pkt.value.id];
      var s2 := s1.(nodes := s1.nodes[n := s1.nodes[n].(armed := false)]);
      StartDrain(s2, n, FromRcode(Rcode(pkt.value.flags)), pkt)
  }

  /** The next callback of a drain */
  function Notify(s: State, q: nat): State
    requires q in s.drains && s.drains[q].todo != [] && s.drains[q].todo[0] < |s.nodes|
  {
    var d := s.drains[q];
    var cb := s.nodes[d.todo[0]].cb;
    var s1 := s.(drains := s.drains[q := d.(todo := d.todo[1..])]);
    if cb.None? then s1 else Deliver(s1, cb.value, d.status, d.pkt)
  }

  function UpdateCache(s: State, key: Key, success: bool, setExpiry: bool, pkt: Packet, now: Time): State {
    var e := Event(key, success, setExpiry, pkt, now);
    s.(cache := Put(s.cache, key, EntryOf(s.settings.cacheMaxTtl, e)), log := s.log + [e])
  }

  /** The roles once the children of a finished query, and the query itself, are free */
  function FreeRoles(roles: seq<Role>, q: nat, children: seq<nat>): (r: seq<Role>)
    ensures |r| == |roles|
    ensures forall i :: 0 <= i < |r| ==> r[i] == if i == q || i in children then Free else roles[i]
  {
    seq(|roles|, i requires 0 <= i < |roles| => if i == q || i in children then Free else roles[i])
  }

  /** The end of a handler: a response is saved in the cache as the callbacks left it
      (`saved`), and all its nodes are recycled. */
  function Finish(s: State, q: nat, saved: Packet, now: Time): State
    requires q < |s.nodes| && q in s.drains
  {
    var d := s.drains[q];
    FreeFamily(if d.pkt.Some? then UpdateCache(s, s.nodes[q].key, d.status.Success?, true, saved, now) else s, q)
  }

  function FreeFamily(s: State, q: nat): State
    requires q < |s.nodes|
  {
    var node := s.nodes[q];
    s.(nodes := s.nodes[q := node.(armed := false)],
       free := s.free + node.children + [q],
       roles := FreeRoles(s.roles, q, node.children),
       drains := s.drains - {q})
  }

  /** The checks of pj_dns_resolver_add_entry: a response with something to file it under */
  function EntryStatus(pkt: Packet): Status {
    if pkt.flags / 0x8000 % 2 == 0 then InvalidArgument
    else if pkt.ans == [] && pkt.q == [] then NoAnswerRecord
    else if |if pkt.ans != [] then pkt.ans[0].name else pkt.q[0].name| >= MAX_HOSTNAME then NameTooLong
    else Success
  }

  /** The key of the first answer or, with none, of the first question */
  function EntryKey(pkt: Packet): Key
    requires pkt.ans != [] || pkt.q != []
  {
    if pkt.ans != [] then InitKey(pkt.ans[0].rtype, pkt.ans[0].name) else InitKey(pkt.q[0].qtype, pkt.q[0].name)
  }

  /** pj_dns_resolver_add_entry */
  function AddEntry(s: State, pkt: Packet, setTtl: bool, now: Time): State {
    if EntryStatus(pkt) == Success then UpdateCache(s, EntryKey(pkt), true, setTtl, pkt, now) else s
  }

  /** The servers as pj_dns_resolver_set_ns enters them: expired, so that the first query
      probes them all */
  function NewServers(addresses: seq<Option<Endpoint>>, now: Time): (ns: seq<Nameserver>)
    requires None !in addresses
    ensures |ns| == |addresses|
    ensures forall i :: 0 <= i < |ns| ==> ns[i] == Nameserver(addresses[i].value, Active, now, 10000, 0, 0)
  {
    seq(|addresses|, i requires 0 <= i < |addresses| => Nameserver(addresses[i].value, Active, now, 10000, 0, 0))
  }

  function SetNsStatus(addresses: seq<Option<Endpoint>>): Status {
    if !(0 < |addresses| < MAX_NS) then InvalidArgument else if None in addresses then BadNsAddress else Success
  }

  /** An address that does not parse (None) leaves no server at all. */
  function ServersAfter(ns: seq<Nameserver>, addresses: seq<Option<Endpoint>>, now: Time): seq<Nameserver> {
    match SetNsStatus(addresses)
    case Success => NewServers(addresses, now)
    case BadNsAddress => []
    case _ => ns
  }

  /** pj_dns_resolver_set_ns */
  function SetNs(s: State, addresses: seq<Option<Endpoint>>, now: Time): State {
    s.(ns := ServersAfter(s.ns, addresses, now))
  }

  // ----- Invariants -----
  // Each is a conjunction over nodes, ids, keys or requests of a predicate with a name of
  // its own, so that a proof can speak of the one element it is about.

  ghost predicate Distinct<T(!new)>(xs: seq<T>) {
    forall i, j :: 0 <= i < j < |xs| ==> xs[i] != xs[j]
  }

  /** What keeps every step well defined */
  ghost predicate Shape(s: State) {
    && |s.roles| == |s.births| == |s.nodes|
    && (forall n :: n in s.free ==> n < |s.nodes|)
    && (forall k :: k in s.byRes ==> s.byRes[k] < |s.nodes|)
    && (forall i :: i in s.byId ==> s.byId[i] < |s.nodes|)
  }

  predicate Parent(r: Role) {
    r.Pending? || r.Draining?
  }

  /** The children of a query are nodes of its own, each listed once. */
  ghost predicate Family(roles: seq<Role>, p: nat, children: seq<nat>) {
    && Distinct(children)
    && forall c :: c in children ==> c < |roles| && roles[c] == Child(p)
  }

  ghost predicate Suffix(a: seq<nat>, b: seq<nat>) {
    |a| <= |b| && a == b[|b| - |a|..]
  }

  /** The lists and the drains agree with the role of the node. */
  ghost predicate Placed(s: State, n: nat)
    requires Shape(s)
  {
    && (n in s.free <==> n < |s.nodes| && s.roles[n].Free?)
    && (n in s.drains <==> n < |s.nodes| && s.roles[n].Draining?)
    && (n < |s.nodes| ==>
          match s.roles[n]
          case Free => true
          case Child(p) => p < |s.nodes| && Parent(s.roles[p]) && n in s.nodes[p].children
          case Pending => Family(s.roles, n, s.nodes[n].children)
          case Draining => Family(s.roles, n, s.nodes[n].children) && Suffix(s.drains[n].todo, [n] + s.nodes[n].children))
  }

  ghost predicate Roster(s: State)
    requires Shape(s)
  {
    Distinct(s.free) && forall n: nat :: Placed(s, n)
  }

  ghost predicate IdIndexed(s: State, i: nat)
    requires Shape(s)
  {
    i in s.byId ==> var n := s.byId[i]; s.roles[n].Pending? && s.nodes[n].id == i
  }

  ghost predicate KeyIndexed(s: State, k: Key)
    requires Shape(s)
  {
    k in s.byRes ==> var n := s.byRes[k]; s.roles[n].Pending? && s.nodes[n].key == k
  }

  ghost predicate NodeIndexed(s: State, n: nat)
    requires Shape(s)
  {
    n < |s.nodes| && s.roles[n].Pending? ==>
      && s.nodes[n].id in s.byId && s.byId[s.nodes[n].id] == n
      && s.nodes[n].key in s.byRes && s.byRes[s.nodes[n].key] == n
  }

  /** The two indexes hold the same queries: the pending ones, under their own id and key. */
  ghost predicate Indexed(s: State)
    requires Shape(s)
  {
    (forall i :: IdIndexed(s, i)) && (forall k :: KeyIndexed(s, k)) && (forall n :: NodeIndexed(s, n))
  }

  /** The id of the `k`-th allocation: 1, 2, ..., 65535, 1, ... */
  function IdOf(k: nat): (id: nat)
    ensures 1 <= id <= LAST_ID
  {
    1 + k % LAST_ID
  }

  function MaxTransmits(s: Settings): nat {
    if s.qretrCount == 0 then 1 else s.qretrCount
  }

  ghost predicate NodeAged(s: State, n: nat)
    requires Shape(s)
  {
    n < |s.nodes| && s.roles[n].Pending? ==>
      && s.births[n] < s.allocs && s.nodes[n].id == IdOf(s.births[n])
      && s.nodes[n].armed && 1 <= s.nodes[n].transmitCnt <= MaxTransmits(s.settings)
  }

  ghost predicate Ids(s: State)
    requires Shape(s)
  {
    s.lastId == IdOf(s.allocs) && forall n :: NodeAged(s, n)
  }

  /** The node still has its callback ahead of it. */
  ghost predicate Waiting(s: State, n: nat)
    requires Shape(s)
  {
    n < |s.nodes| &&
    match s.roles[n]
    case Free => false
    case Pending => true
    case Draining => n in s.drains && n in s.drains[n].todo
    case Child(p) => p < |s.nodes| && (s.roles[p].Pending? || (p in s.drains && n in s.drains[p].todo))
  }

  ghost predicate Owes(s: State, r: nat)
    requires Shape(s)
  {
    r in s.owed ==> r < s.requests && Waiting(s, s.owed[r]) && s.nodes[s.owed[r]].cb == Some(r)
  }

  ghost predicate Owed(s: State, n: nat)
    requires Shape(s)
  {
    n < |s.nodes| && Waiting(s, n) && s.nodes[n].cb.Some? ==>
      s.nodes[n].cb.value in s.owed && s.owed[s.nodes[n].cb.value] == n
  }

  ghost predicate Silent(s: State, r: nat) {
    r in s.silenced ==> r < s.requests && r !in s.owed
  }

  ghost predicate Called(s: State, i: nat) {
    i < |s.calls| ==> var r := s.calls[i].request; r < s.requests && r !in s.owed && r !in s.silenced
  }

  ghost predicate Answered(calls: seq<Call>, r: nat) {
    exists i :: 0 <= i < |calls| && calls[i].request == r
  }

  /** A node in use whose callback lies behind it has been called back. */
  ghost predicate Spent(s: State, n: nat)
    requires Shape(s)
  {
    n < |s.nodes| && !s.roles[n].Free? && !Waiting(s, n) && s.nodes[n].cb.Some? ==> Answered(s.calls, s.nodes[n].cb.value)
  }

  /** No request is answered twice. */
  ghost predicate AtMostOnce(calls: seq<Call>) {
    forall i, j :: 0 <= i < j < |calls| ==> calls[i].request != calls[j].request
  }

  /** Every accepted request is answered, silenced, or waiting in a node, and only one of
      these; a node whose callback lies ahead waits for exactly its own request. */
  ghost predicate Ledger(s: State)
    requires Shape(s)
  {
    && (forall r :: Owes(s, r))
    && (forall n :: Owed(s, n) && Spent(s, n))
    && (forall r :: Silent(s, r))
    && (forall i :: Called(s, i))
    && AtMostOnce(s.calls)
    && s.requests == |s.calls| + |s.silenced| + |s.owed|
  }

  ghost predicate Inv(s: State) {
    Shape(s) && Roster(s) && Indexed(s) && Ids(s) && Ledger(s)
  }
}
