/** A run of the resolver at whose end an id comes round while a query still holds it. */
module ResolverIds {
  import opened DnsPacket
  import opened Wrappers
  import opened Nameservers
  import opened ResolverCache
  import opened ResolverModel
  import opened ResolverSafety
  import opened ResolverRuns

  const SETTINGS := Settings(2000, 5, 300, 600, 60)
  const SERVER := Nameserver(Endpoint(1, 53), Active, 0, 10000, 0, 0)

  /** The name of the query that stays pending, and the name of the queries after it. */
  function Waiter(): Name { [97] }
  function Other(): Name { [98] }

  function KeyOf(n: Name): Key {
    InitKey(1, n)
  }

  lemma KeysDiffer()
    ensures KeyOf(Waiter()) != KeyOf(Other())
  {
    KeysAgree(1, Waiter(), 1, Other());
    assert Lower(Waiter())[0] != Lower(Other())[0];
  }

  /** One query is pending, under id 1, and `k` ids have been handed out in all. */
  ghost predicate Held(s: State, k: nat) {
    && Inv(s) && s.cache == map[] && s.allocs == k
    && s.byId.Keys == {1} && s.byRes.Keys == {KeyOf(Waiter())}
  }

  /** Starting a query for a name that is not pending, when nothing is cached */
  lemma StartsNew(s: State, n: Name, timerOk: bool)
    requires Shape(s) && s.cache == map[] && |n| == 1 && KeyOf(n) !in s.byRes
    ensures StartQuery(s, n, 1, false, timerOk, 0) == StartParent(s, KeyOf(n), None, timerOk, 0)
    ensures TakesId(s, n, 1, 0)
  {
    hide StartParent, InitKey;
    assert Evict(s.cache, KeyOf(n), 0) == s.cache;
    assert s.(cache := s.cache) == s;
  }

  lemma TransmitKeeps(s: State, n: nat, timerOk: bool)
    requires n < |s.nodes|
    ensures var (_, t) := Transmit(s, n, 0, timerOk);
            t.nodes[n].id == s.nodes[n].id && t.nodes[n].key == s.nodes[n].key && t.nodes[n].cb == s.nodes[n].cb
  {
  }

  lemma ParentKeys(s: State, key: Key, timerOk: bool)
    requires Shape(s)
    ensures var r := StartParent(s, key, None, timerOk, 0);
            && r.s.allocs == s.allocs + 1
            && (r.status == Success ==> r.s.byId.Keys == s.byId.Keys + {s.lastId} && r.s.byRes.Keys == s.byRes.Keys + {key})
  {
    hide Transmit, AllocNode;
    TransmitKeeps(Prepare(s, key, None).1, Prepare(s, key, None).0, timerOk);
  }

  /** The timer of a new query cannot be scheduled: its id is spent all the same. */
  lemma FailingStart(s: State, n: Name)
    requires Inv(s) && s.cache == map[] && |n| == 1 && KeyOf(n) !in s.byRes
    ensures var r := StartQuery(s, n, 1, false, false, 0);
            && r.status != Success && r.s.cache == map[] && r.s.allocs == s.allocs + 1
            && r.s.byId == s.byId && r.s.byRes == s.byRes
  {
    hide Transmit, StartQuery, Roster, Indexed, Ids, Ledger, InitKey;
    StartsNew(s, n, false);
    ParentKeys(s, KeyOf(n), false);
    ParentOutcome(s, KeyOf(n), None, false, 0);
    var (m, s1) := Prepare(s, KeyOf(n), None);
    TransmitOutcome(s1, m, 0, false);
  }

  function First(): Timed { At(0, Start(Waiter(), 1, false, true)) }
  function Next(): Timed { At(0, Start(Other(), 1, false, false)) }

  lemma FirstStart()
    ensures var s := Initial(SETTINGS, [SERVER]);
            Inv(s) && Enabled(s, First().action, 0) && Held(Step(s, First().action, 0), 1)
  {
    hide Transmit, StartParent, StartQuery, Roster, Indexed, Ids, Ledger, InitKey;
    var s := Initial(SETTINGS, [SERVER]);
    InitialInv(SETTINGS, [SERVER]);
    StartsNew(s, Waiter(), true);
    StepInv(s, First().action, 0);
    ParentKeys(s, KeyOf(Waiter()), true);
    assert StartParent(s, KeyOf(Waiter()), None, true, 0).status == Success by { FirstIsSent(); }
  }

  lemma FirstIsSent()
    ensures StartParent(Initial(SETTINGS, [SERVER]), KeyOf(Waiter()), None, true, 0).status == Success
  {
    hide InitKey;
    var s := Initial(SETTINGS, [SERVER]);
    var (m, s1) := Prepare(s, KeyOf(Waiter()), None);
    TransmitOutcome(s1, m, 0, true);
    assert !RefreshAll(SETTINGS, [SERVER], 0)[0].state.Bad?;
  }

  lemma NextStart(s: State, k: nat)
    requires Held(s, k) && 1 <= k < LAST_ID
    ensures Shape(s) && Enabled(s, Next().action, 0) && Held(Step(s, Next().action, 0), k + 1)
  {
    hide StartQuery, Roster, Indexed, Ledger, InitKey;
    KeysDiffer();
    StartsNew(s, Other(), false);
    assert s.lastId == IdOf(k) != 1;
    StepInv(s, Next().action, 0);
    FailingStart(s, Other());
  }

  lemma {:induction false} NextStarts(s: State, k: nat) returns (acts: seq<Timed>, t: State)
    requires Held(s, k) && 1 <= k <= LAST_ID
    ensures Run(s, 0, acts, t) && |acts| == LAST_ID - k && Held(t, LAST_ID)
    decreases LAST_ID - k
  {
    hide Held, Enabled, Step;
    if k == LAST_ID {
      return [], s;
    }
    NextStart(s, k);
    var rest;
    rest, t := NextStarts(Step(s, Next().action, 0), k + 1);
    acts := [Next()] + rest;
  }

  /** A query is sent and stays unanswered while 65534 more are started and fail for want of
      the timer. Every one of these steps takes a free id; the next id is not free. */
  lemma IdComesRound() returns (acts: seq<Timed>, t: State)
    ensures Run(Initial(SETTINGS, [SERVER]), 0, acts, t) && |acts| == LAST_ID
    ensures Inv(t) && t.lastId in t.byId
  {
    hide Enabled, Step, Roster, Indexed, Ledger;
    FirstStart();
    var s := Initial(SETTINGS, [SERVER]);
    var rest;
    rest, t := NextStarts(Step(s, First().action, 0), 1);
    acts := [First()] + rest;
    assert t.lastId == IdOf(LAST_ID) == 1;
  }
}
