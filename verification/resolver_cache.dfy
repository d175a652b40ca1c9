/** The response cache of the resolver, and the log of last responses it refines. */
module ResolverCache {
  import opened Bytes
  import opened DnsPacket
  import opened Wrappers
  import opened Nameservers

  const INVALID_TTL := 60
  const NO_TTL := 0xFFFF_FFFF
  const FOREVER: Time := 1000 * 0x7FFF_FFFF

  // ----- struct res_key -----

  /** The key of both the cache and the pending-query index: `name` is the whole 128-byte
      field, zero-filled. */
  datatype Key = Key(qtype: nat, name: Name)

  /** init_res_key */
  function InitKey(qtype: nat, name: Name): (k: Key)
    ensures |k.name| == MAX_HOSTNAME
  {
    var n := if |name| > MAX_HOSTNAME then name[..MAX_HOSTNAME] else name;
    Key(qtype % 65536, Lower(n) + Zeros(MAX_HOSTNAME - |n|))
  }

  /** Two requests share a key exactly when they ask for the same type of the same name up
      to letter case, the names being C strings. */
  lemma {:induction false} KeysAgree(t1: nat, n1: Name, t2: nat, n2: Name)
    requires |n1| <= MAX_HOSTNAME && |n2| <= MAX_HOSTNAME && t1 < 65536 && t2 < 65536
    requires 0 !in n1 && 0 !in n2
    ensures InitKey(t1, n1) == InitKey(t2, n2) <==> t1 == t2 && SameName(n1, n2)
  {
    var a, b := InitKey(t1, n1).name, InitKey(t2, n2).name;
    assert forall i :: 0 <= i < |n1| ==> a[i] == LowerByte(n1[i]) != 0;
    assert forall i :: 0 <= i < |n2| ==> b[i] == LowerByte(n2[i]) != 0;
    if a == b {
      assert |n1| < MAX_HOSTNAME ==> a[|n1|] == 0;
      assert |n2| < MAX_HOSTNAME ==> b[|n2|] == 0;
      assert |n1| == |n2|;
      assert Lower(n1) == a[..|n1|] == b[..|n2|] == Lower(n2);
    }
  }

  // ----- struct cached_res -----

  datatype Entry = Entry(expiry: Time, pkt: Packet)
  type Cache = map<Key, Entry>

  function MinTtl(ans: seq<RR>): (m: nat)
    ensures m <= NO_TTL
    ensures forall i :: 0 <= i < |ans| ==> m <= ans[i].ttl
    ensures m < NO_TTL ==> exists i :: 0 <= i < |ans| && ans[i].ttl == m
  {
    if ans == [] then NO_TTL
    else
      var m := MinTtl(ans[..|ans| - 1]);
      if ans[|ans| - 1].ttl < m then ans[|ans| - 1].ttl else m
  }

  /** The seconds a response is to be kept; 0 is not at all. */
  function EffectiveTtl(maxTtl: nat, success: bool, setExpiry: bool, pkt: Packet): nat {
    var ttl :=
      if !setExpiry then NO_TTL
      else if pkt.ans == [] || !success then INVALID_TTL
      else MinTtl(pkt.ans);
    if ttl > maxTtl then maxTtl else ttl
  }

  /** The entry update_res_cache leaves for the key, if any. */
  function Kept(maxTtl: nat, success: bool, setExpiry: bool, pkt: Packet, now: Time): Option<Entry> {
    var ttl := EffectiveTtl(maxTtl, success, setExpiry, pkt);
    if ttl == 0 then None
    else Some(Entry(if setExpiry then now + 1000 * ttl else FOREVER, Dup(pkt, KEEP_ANSWERS)))
  }

  function Put(c: Cache, k: Key, e: Option<Entry>): Cache {
    match e
    case None => c - {k}
    case Some(entry) => c[k := entry]
  }

  predicate Fresh(e: Entry, now: Time) {
    e.expiry > now
  }

  /** What start_query finds; an entry found stale is dropped. */
  function Lookup(c: Cache, k: Key, now: Time): Option<Entry> {
    if k in c && Fresh(c[k], now) then Some(c[k]) else None
  }

  function Evict(c: Cache, k: Key, now: Time): Cache {
    if k in c && !Fresh(c[k], now) then c - {k} else c
  }

  // ----- The log -----

  /** One call of update_res_cache. */
  datatype Event = Event(key: Key, success: bool, setExpiry: bool, pkt: Packet, at: Time)

  function EntryOf(maxTtl: nat, e: Event): Option<Entry> {
    Kept(maxTtl, e.success, e.setExpiry, e.pkt, e.at)
  }

  /** The last update for the key. */
  function Last(log: seq<Event>, k: Key): (e: Option<Event>)
    ensures e.Some? ==> e.value in log && e.value.key == k
  {
    if log == [] then None
    else if log[|log| - 1].key == k then Some(log[|log| - 1])
    else Last(log[..|log| - 1], k)
  }

  /** What a lookup in a log that forgets nothing finds. */
  function LookupLog(maxTtl: nat, log: seq<Event>, k: Key, now: Time): Option<Entry> {
    var e := Last(log, k);
    if e.None? then None
    else
      var entry := EntryOf(maxTtl, e.value);
      if entry.Some? && Fresh(entry.value, now) then entry else None
  }

  /** For this key, the cache holds what the last update kept, unless that had expired by
      `clock`. */
  ghost predicate RefinesAt(maxTtl: nat, c: Cache, log: seq<Event>, clock: Time, k: Key) {
    var last := Last(log, k);
    var kept := if last.None? then None else EntryOf(maxTtl, last.value);
    if k in c then kept == Some(c[k])
    else kept.None? || kept.value.expiry <= clock
  }

  ghost predicate Refines(maxTtl: nat, c: Cache, log: seq<Event>, clock: Time) {
    forall k :: RefinesAt(maxTtl, c, log, clock, k)
  }

  lemma EvictRefines(maxTtl: nat, c: Cache, log: seq<Event>, clock: Time, k: Key, now: Time)
    requires Refines(maxTtl, c, log, clock) && clock <= now
    ensures Lookup(c, k, now) == LookupLog(maxTtl, log, k, now)
    ensures Refines(maxTtl, Evict(c, k, now), log, now)
    ensures Refines(maxTtl, c, log, now)
  {
    assert RefinesAt(maxTtl, c, log, clock, k);
    forall x ensures RefinesAt(maxTtl, Evict(c, k, now), log, now, x) && RefinesAt(maxTtl, c, log, now, x) {
      assert RefinesAt(maxTtl, c, log, clock, x);
    }
  }

  lemma PutRefines(maxTtl: nat, c: Cache, log: seq<Event>, clock: Time, e: Event)
    requires Refines(maxTtl, c, log, clock)
    ensures Refines(maxTtl, Put(c, e.key, EntryOf(maxTtl, e)), log + [e], clock)
  {
    var log', c' := log + [e], Put(c, e.key, EntryOf(maxTtl, e));
    forall x ensures RefinesAt(maxTtl, c', log', clock, x) {
      assert log'[..|log|] == log;
      assert RefinesAt(maxTtl, c, log, clock, x);
    }
  }

  /** How long the response of an update is served, exactly. One stored with its own TTL: below
      the configured maximum and below the TTL of each of its answers, or below the negative TTL
      if it has none or is an error. One stored without: as long as there is a cache at all. */
  lemma CacheHitsExactly(maxTtl: nat, log: seq<Event>, k: Key, now: Time)
    requires Last(log, k).Some? && Last(log, k).value.at <= now
    requires var e := Last(log, k).value; forall i :: 0 <= i < |e.pkt.ans| ==> e.pkt.ans[i].ttl <= NO_TTL
    ensures var e := Last(log, k).value;
            var age := now - e.at;
            LookupLog(maxTtl, log, k, now).Some? <==>
              if e.setExpiry then
                age < 1000 * maxTtl && (if e.pkt.ans == [] || !e.success then age < 1000 * INVALID_TTL
                                        else forall i :: 0 <= i < |e.pkt.ans| ==> age < 1000 * e.pkt.ans[i].ttl)
              else maxTtl > 0 && now < FOREVER
  {
    hide Dup, Last;
    var e := Last(log, k).value;
    if e.setExpiry && e.pkt.ans != [] && e.success {
      LeastTtlDecides(e.pkt.ans, now - e.at);
    }
  }

  lemma LeastTtlDecides(ans: seq<RR>, age: int)
    requires ans != [] && forall i :: 0 <= i < |ans| ==> ans[i].ttl <= NO_TTL
    ensures age < 1000 * MinTtl(ans) <==> forall i :: 0 <= i < |ans| ==> age < 1000 * ans[i].ttl
  {
    hide MinTtl;
    var m := MinTtl(ans);
    if m == NO_TTL {
      assert ans[0].ttl == m;
    } else {
      var i :| 0 <= i < |ans| && ans[i].ttl == m;
    }
  }

  /** What is served is the response of the last update, up to letter case, with its status and
      without the NS and AR sections. */
  lemma CachedAnswerIsFaithful(maxTtl: nat, log: seq<Event>, k: Key, now: Time)
    requires LookupLog(maxTtl, log, k, now).Some?
    ensures Last(log, k).Some?
    ensures var e, hit := Last(log, k).value, LookupLog(maxTtl, log, k, now).value;
            && e in log && e.key == k
            && Rcode(hit.pkt.flags) == Rcode(e.pkt.flags) && hit.pkt.id == e.pkt.id
            && SameQueries(e.pkt.q, hit.pkt.q) && SameRecords(e.pkt.ans, hit.pkt.ans)
            && hit.pkt.ns == [] && hit.pkt.ar == []
  {
  }
}
