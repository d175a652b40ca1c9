/** The parsed form of a DNS packet (pjlib-util/dns.h) and its duplication with a table
    of shared names (pj_dns_packet_dup). */
module DnsPacket {
  import opened Bytes

  type Name = seq<byte>

  const TYPE_A := 1
  const TYPE_NS := 2
  const TYPE_CNAME := 5
  const TYPE_PTR := 12
  const TYPE_AAAA := 28
  const TYPE_SRV := 33
  const CLASS_IN := 1
  const MAX_HOSTNAME := 128
  const MAX_NAMES_IN_NAMETABLE := 16

  datatype Query = Query(name: Name, qtype: nat, qclass: nat)

  /** The record data. `Target` serves CNAME, NS and PTR, whose union members have the
      same layout; `Raw` is every type the parser does not know. */
  datatype Rdata =
    | HostAddress(ip: seq<byte>)
    | Address6(ip6: seq<byte>)
    | Target(name: Name)
    | Service(prio: nat, weight: nat, port: nat, target: Name)
    | Raw(data: seq<byte>)

  datatype RR = RR(name: Name, rtype: nat, rclass: nat, ttl: nat, rdata: Rdata)

  datatype Packet = Packet(id: nat, flags: nat, q: seq<Query>, ans: seq<RR>, ns: seq<RR>, ar: seq<RR>)

  function Rcode(flags: nat): nat {
    flags % 16
  }

  /** pj_tolower in the C locale. */
  function LowerByte(b: byte): byte {
    if 65 <= b <= 90 then b + 32 else b
  }

  function Lower(n: Name): (l: Name)
    ensures |l| == |n|
    ensures forall i :: 0 <= i < |n| ==> l[i] == LowerByte(n[i])
  {
    seq(|n|, i requires 0 <= i < |n| => LowerByte(n[i]))
  }

  /** pj_stricmp(a, b) == 0 */
  predicate SameName(a: Name, b: Name) {
    Lower(a) == Lower(b)
  }

  /** Two names are the same if they differ at most in letters that are 32 apart. */
  lemma SameNameIs(a: Name, b: Name)
    ensures SameName(a, b) <==> |a| == |b| && forall i :: 0 <= i < |a| ==> SameLetter(a[i], b[i])
  {
    if SameName(a, b) {
      assert forall i :: 0 <= i < |a| ==> Lower(a)[i] == Lower(b)[i];
    }
  }

  predicate SameLetter(x: byte, y: byte) {
    x == y || (65 <= x <= 90 && y == x + 32) || (97 <= x <= 122 && y == x - 32)
  }

  predicate HasTarget(rtype: nat) {
    rtype == TYPE_CNAME || rtype == TYPE_NS || rtype == TYPE_PTR
  }

  // ----- What a faithful copy is -----

  predicate SameQueries(a: seq<Query>, b: seq<Query>) {
    |a| == |b| &&
    forall i :: 0 <= i < |a| ==> SameName(a[i].name, b[i].name) && b[i] == a[i].(name := b[i].name)
  }

  /** The same record up to letter case in the owner name and in an SRV target. */
  predicate SameRecord(a: RR, b: RR) {
    && SameName(a.name, b.name)
    && match a.rdata {
         case Service(p, w, o, t) =>
           b.rdata.Service? && SameName(t, b.rdata.target) && b == a.(name := b.name, rdata := Service(p, w, o, b.rdata.target))
         case _ => b == a.(name := b.name)
       }
  }

  predicate SameRecords(a: seq<RR>, b: seq<RR>) {
    |a| == |b| && forall i :: 0 <= i < |a| ==> SameRecord(a[i], b[i])
  }

  // ----- The name table, as a function -----

  /** The entry apply_name_table settles on: the first one equal up to case, or |tab|. */
  function FindName(tab: seq<Name>, n: Name): (i: nat)
    ensures i <= |tab|
    ensures i < |tab| ==> SameName(tab[i], n)
    ensures forall j :: 0 <= j < i ==> !SameName(tab[j], n)
  {
    if tab == [] then 0 else if SameName(tab[0], n) then 0 else 1 + FindName(tab[1..], n)
  }

  /** (the copied name, the table afterwards) */
  function Share(tab: seq<Name>, n: Name): (r: (Name, seq<Name>))
    ensures SameName(n, r.0)
  {
    var i := FindName(tab, n);
    if i < |tab| then (tab[i], tab)
    else (n, if |tab| < MAX_NAMES_IN_NAMETABLE then tab + [n] else tab)
  }

  function DupQuery(tab: seq<Name>, q: Query): (Query, seq<Name>) {
    var (n, t) := Share(tab, q.name);
    (q.(name := n), t)
  }

  function DupRecord(tab: seq<Name>, rr: RR): (RR, seq<Name>) {
    var (n, t) := Share(tab, rr.name);
    if rr.rdata.Service? then
      var (g, t') := Share(t, rr.rdata.target);
      (rr.(name := n, rdata := rr.rdata.(target := g)), t')
    else
      (rr.(name := n), t)
  }

  function DupQueries(tab: seq<Name>, qs: seq<Query>): (r: (seq<Query>, seq<Name>))
    ensures SameQueries(qs, r.0)
  {
    if qs == [] then ([], tab)
    else
      var (init, t) := DupQueries(tab, qs[..|qs| - 1]);
      var (q, t') := DupQuery(t, qs[|qs| - 1]);
      (init + [q], t')
  }

  function DupRecords(tab: seq<Name>, rrs: seq<RR>): (r: (seq<RR>, seq<Name>))
    ensures SameRecords(rrs, r.0)
  {
    if rrs == [] then ([], tab)
    else
      var (init, t) := DupRecords(tab, rrs[..|rrs| - 1]);
      var (rr, t') := DupRecord(t, rrs[|rrs| - 1]);
      (init + [rr], t')
  }

  datatype DupOptions = DupOptions(noQd: bool, noAns: bool, noNs: bool, noAr: bool)

  /** What the resolver keeps: PJ_DNS_NO_NS | PJ_DNS_NO_AR */
  const KEEP_ANSWERS := DupOptions(false, false, true, true)

  function Dup(p: Packet, o: DupOptions): (r: Packet)
    ensures r.id == p.id && r.flags == p.flags
    ensures if o.noQd then r.q == [] else SameQueries(p.q, r.q)
    ensures if o.noAns then r.ans == [] else SameRecords(p.ans, r.ans)
    ensures if o.noNs then r.ns == [] else SameRecords(p.ns, r.ns)
    ensures if o.noAr then r.ar == [] else SameRecords(p.ar, r.ar)
  {
    var (q, t0) := DupQueries([], if o.noQd then [] else p.q);
    var (ans, t1) := DupRecords(t0, if o.noAns then [] else p.ans);
    var (ns, t2) := DupRecords(t1, if o.noNs then [] else p.ns);
    var (ar, _) := DupRecords(t2, if o.noAr then [] else p.ar);
    Packet(p.id, p.flags, q, ans, ns, ar)
  }

  // ----- pj_dns_packet_dup, as the source runs it -----

  class NameTable {
    var names: seq<Name>

    constructor ()
      ensures names == []
    {
      names := [];
    }

    method Apply(src: Name) returns (dst: Name)
      modifies this
      ensures (dst, names) == Share(old(names), src)
    {
      var i := 0;
      while i < |names| && !SameName(names[i], src)
        invariant i <= |names|
        invariant forall j :: 0 <= j < i ==> !SameName(names[j], src)
      {
        i := i + 1;
      }
      assert i == FindName(names, src);
      if i != |names| {
        return names[i];
      }
      dst := src;
      if |names| < MAX_NAMES_IN_NAMETABLE {
        names := names + [dst];
      }
    }

    method CopyRecords(src: seq<RR>) returns (dst: seq<RR>)
      modifies this
      ensures (dst, names) == DupRecords(old(names), src)
    {
      dst := [];
      for i := 0 to |src|
        invariant (dst, names) == DupRecords(old(names), src[..i])
      {
        var rr := src[i];
        var name := Apply(rr.name);
        var copy := rr.(name := name);
        if rr.rdata.Service? {
          var target := Apply(rr.rdata.target);
          copy := copy.(rdata := rr.rdata.(target := target));
        }
        dst := dst + [copy];
        assert src[..i + 1][..i] == src[..i];
      }
      assert src[..|src|] == src;
    }

    method CopyQueries(src: seq<Query>) returns (dst: seq<Query>)
      modifies this
      ensures (dst, names) == DupQueries(old(names), src)
    {
      dst := [];
      for i := 0 to |src|
        invariant (dst, names) == DupQueries(old(names), src[..i])
      {
        var name := Apply(src[i].name);
        dst := dst + [src[i].(name := name)];
        assert src[..i + 1][..i] == src[..i];
      }
      assert src[..|src|] == src;
    }
  }

  method DuplicatePacket(p: Packet, o: DupOptions) returns (dst: Packet)
    ensures dst == Dup(p, o)
  {
    var table := new NameTable();
    dst := Packet(p.id, p.flags, [], [], [], []);
    if !o.noQd {
      var q := table.CopyQueries(p.q);
      dst := dst.(q := q);
    }
    if !o.noAns {
      var ans := table.CopyRecords(p.ans);
      dst := dst.(ans := ans);
    }
    if !o.noNs {
      var ns := table.CopyRecords(p.ns);
      dst := dst.(ns := ns);
    }
    if !o.noAr {
      var ar := table.CopyRecords(p.ar);
      dst := dst.(ar := ar);
    }
  }
}
