/** What the parser makes of what the printer wrote. */
module DnsRoundTrip {
  import opened Bytes
  import opened DnsPacket
  import opened Wrappers
  import opened DnsNames
  import opened DnsWire

  // ----- The table -----

  /** Every entry of the table is the encoding of a well-formed name. */
  predicate Linked(out: seq<byte>, tab: seq<Remembered>, names: seq<Name>) {
    |tab| == |names| && forall i :: 0 <= i < |tab| ==> LinkedTo(out, tab[i], names[i])
  }

  predicate LinkedTo(out: seq<byte>, e: Remembered, n: Name) {
    e.len == |n| && EncodedAt(out, e.pos, n) && WellFormed(n)
  }

  lemma LinkedStays(out: seq<byte>, more: seq<byte>, tab: seq<Remembered>, names: seq<Name>)
    requires Linked(out, tab, names) && out <= more
    ensures Linked(more, tab, names)
  {
  }

  /** An entry matches exactly the name that its own is taken for. */
  lemma MatchIsAlias(out: seq<byte>, e: Remembered, s: Name, n: Name)
    requires LinkedTo(out, e, s)
    ensures Matches(out, e, n) <==> Alias(s) == n
  {
    var c := Encode(s);
    assert |s| < |c|;
    hide Encode;
    var here, alias := out[e.pos + 1..e.pos + 1 + |s|], c[1..1 + |s|];
    forall i | 0 <= i < |s| ensures here[i] == alias[i] {
      assert out[e.pos + (i + 1)] == c[i + 1];
    }
    assert here == alias;
  }

  lemma {:induction false} FindIsIndexOf(out: seq<byte>, tab: seq<Remembered>, names: seq<Name>, n: Name)
    requires Linked(out, tab, names)
    ensures Find(out, tab, n) == IndexOf(Aliases(names), n)
  {
    if tab != [] {
      assert LinkedTo(out, tab[0], names[0]);
      MatchIsAlias(out, tab[0], names[0], n);
      assert Aliases(names)[1..] == Aliases(names[1..]);
      FindIsIndexOf(out, tab[1..], names[1..], n);
    }
  }

  // ----- Numbers -----

  lemma Peek16At(m: Memory, p: nat, v: nat)
    requires At(m.bytes, p, Be16(v)) && v < UINT16
    ensures Peek16(m, p) == v
  {
    assert m.bytes[p + 0] == Be16(v)[0] && m.bytes[p + 1] == Be16(v)[1];
  }

  lemma Peek32At(m: Memory, p: nat, v: nat)
    requires At(m.bytes, p, Be32(v)) && v < UINT32
    ensures Peek32(m, p) == v
  {
    AtParts(m.bytes, p, Be16(v / UINT16), Be16(v % UINT16));
    Peek16At(m, p, v / UINT16);
    Peek16At(m, p + 2, v % UINT16);
  }

  lemma AppendedAt(out: seq<byte>, x: seq<byte>, bytes: seq<byte>)
    requires out + x <= bytes
    ensures At(bytes, |out|, x) && out <= bytes && out <= out + x && At(out + x, |out|, x)
  {
    assert out == (out + x)[..|out|];
    assert forall i :: 0 <= i < |x| ==> (out + x)[|out| + i] == x[i];
  }

  lemma TwoParts(out: seq<byte>, a: seq<byte>, b: seq<byte>, bytes: seq<byte>)
    requires out + (a + b) <= bytes
    ensures var t := out + (a + b);
            && out <= t && |t| == |out| + |a| + |b|
            && At(t, |out|, a) && At(t, |out| + |a|, b) && At(bytes, |out|, a) && At(bytes, |out| + |a|, b)
  {
    AppendedAt(out, a + b, bytes);
    AtParts(bytes, |out|, a, b);
    AtParts(out + (a + b), |out|, a, b);
  }

  // ----- Names -----

  lemma TablePrinted(out: seq<byte>, pos: nat, size: int, n: Name, tab: seq<Remembered>, names: seq<Name>, more: seq<byte>)
    requires Linked(out, tab, names) && WellFormed(n) && out <= more
    requires PrintName(out, pos, size, n, tab).Some?
    requires At(more, pos, PrintName(out, pos, size, n, tab).value.0)
    ensures Linked(more, PrintName(out, pos, size, n, tab).value.1, Resolve(names, n).1)
  {
    FindIsIndexOf(out, tab, names, n);
    LinkedStays(out, more, tab, names);
  }

  lemma LinkedEntry(bytes: seq<byte>, tab: seq<Remembered>, names: seq<Name>, i: nat)
    requires Linked(bytes, tab, names) && i < |tab|
    ensures |names| == |tab| && WellFormed(names[i]) && EncodedAt(bytes, tab[i].pos, names[i]) && tab[i].pos < |bytes|
  {
  }

  lemma NamePrinted(out: seq<byte>, pos: nat, size: int, n: Name, tab: seq<Remembered>, names: seq<Name>, m: Memory)
    requires Linked(out, tab, names) && WellFormed(n) && out <= m.bytes && |m.bytes| <= POINTER_LIMIT
    requires PrintName(out, pos, size, n, tab).Some?
    requires At(m.bytes, pos, PrintName(out, pos, size, n, tab).value.0)
    ensures ParseName(m, pos) == Ok((Resolve(names, n).0, |PrintName(out, pos, size, n, tab).value.0|))
  {
    hide Encode, Find, IndexOf, WellFormed, NameLen, GetName, Linked, LinkedTo;
    FindIsIndexOf(out, tab, names, n);
    LinkedStays(out, m.bytes, tab, names);
    var i := Find(out, tab, n);
    if i < |tab| {
      LinkedEntry(m.bytes, tab, names, i);
      assert tab[i].pos < POINTER_LIMIT;
      Peek16At(m, pos, PointerTo(tab[i].pos));
      DecodePointer(m, pos, tab[i].pos, names[i]);
    } else {
      DecodeEncoded(m, pos, n, 0);
    }
  }

  /** A name printed somewhere in `more`, as seen in any packet that goes on from there */
  predicate NameReads(pos: nat, n: Name, names: seq<Name>, bytes: seq<byte>, tab: seq<Remembered>, more: seq<byte>, m: Memory) {
    ParseName(m, pos) == Ok((Resolve(names, n).0, |bytes|)) && Linked(more, tab, Resolve(names, n).1)
  }

  lemma NameInside(out: seq<byte>, pos: nat, size: int, n: Name, tab: seq<Remembered>, names: seq<Name>,
                   bytes: seq<byte>, tab': seq<Remembered>, more: seq<byte>, m: Memory)
    requires Linked(out, tab, names) && WellFormed(n) && |m.bytes| <= POINTER_LIMIT
    requires PrintName(out, pos, size, n, tab) == Some((bytes, tab'))
    requires out <= more <= m.bytes && At(more, pos, bytes)
    ensures NameReads(pos, n, names, bytes, tab', more, m)
  {
    TablePrinted(out, pos, size, n, tab, names, more);
    assert At(m.bytes, pos, bytes);
    NamePrinted(out, pos, size, n, tab, names, m);
  }

  // ----- Queries -----

  lemma QueryShape(s: Printer, q: Query)
    requires PrintQuery(s, q).Some?
    ensures PrintName(s.out, |s.out|, s.size, q.name, s.tab).Some?
    ensures var t := PrintQuery(s, q).value;
            var (name, tab) := PrintName(s.out, |s.out|, s.size, q.name, s.tab).value;
            t.out == s.out + (name + (Be16(q.qtype) + Be16(q.qclass))) && t.tab == tab
  {
  }

  lemma QueryPrinted(s: Printer, q: Query, names: seq<Name>, m: Memory)
    requires Linked(s.out, s.tab, names) && QueryFits(q) && |m.bytes| <= POINTER_LIMIT
    requires PrintQuery(s, q).Some? && PrintQuery(s, q).value.out <= m.bytes
    ensures var t := PrintQuery(s, q).value;
            var (read, names') := Resolve(names, q.name);
            && s.out <= t.out && Linked(t.out, t.tab, names')
            && ParseQuery(m, |s.out|) == Ok((q.(name := read), |t.out|))
  {
    QueryShape(s, q);
    var (name, tab) := PrintName(s.out, |s.out|, s.size, q.name, s.tab).value;
    QueryRead(s, q, name, Be16(q.qtype) + Be16(q.qclass), names, PrintQuery(s, q).value.out, m);
    TablePrinted(s.out, |s.out|, s.size, q.name, s.tab, names, PrintQuery(s, q).value.out);
  }

  lemma QueryRead(s: Printer, q: Query, name: seq<byte>, tail: seq<byte>, names: seq<Name>, out: seq<byte>, m: Memory)
    requires Linked(s.out, s.tab, names) && QueryFits(q) && |m.bytes| <= POINTER_LIMIT
    requires out == s.out + (name + tail) && tail == Be16(q.qtype) + Be16(q.qclass) && out <= m.bytes
    requires var r := PrintName(s.out, |s.out|, s.size, q.name, s.tab); r.Some? && r.value.0 == name
    ensures ParseQuery(m, |s.out|) == Ok((q.(name := Resolve(names, q.name).0), |out|))
    ensures At(out, |s.out|, name)
  {
    hide At, Be16, Peek16, NameLen, GetName, DnsWire.PrintName, ParseQuery, Resolve, Linked;
    AppendedAt(s.out, name + tail, m.bytes);
    AtParts(out, |s.out|, name, tail);
    QueryTail(m, |s.out|, name, q.qtype, q.qclass);
    NamePrinted(s.out, |s.out|, s.size, q.name, s.tab, names, m);
    QueryParsed(m, |s.out|, Resolve(names, q.name).0, |name|, q);
  }

  lemma QueryParsed(m: Memory, p: nat, read: Name, parsed: nat, q: Query)
    requires ParseName(m, p) == Ok((read, parsed))
    requires Peek16(m, p + parsed) == q.qtype && Peek16(m, p + parsed + 2) == q.qclass
    ensures ParseQuery(m, p) == Ok((q.(name := read), p + parsed + 4))
  {
  }

  lemma QueryTail(m: Memory, p: nat, name: seq<byte>, qtype: nat, qclass: nat)
    requires At(m.bytes, p, name + (Be16(qtype) + Be16(qclass))) && qtype < UINT16 && qclass < UINT16
    ensures At(m.bytes, p, name) && Peek16(m, p + |name|) == qtype && Peek16(m, p + |name| + 2) == qclass
  {
    AtParts(m.bytes, p, name, Be16(qtype) + Be16(qclass));
    AtParts(m.bytes, p + |name|, Be16(qtype), Be16(qclass));
    Peek16At(m, p + |name|, qtype);
    Peek16At(m, p + |name| + 2, qclass);
  }

  lemma {:induction false} QueriesPrinted(s: Printer, qs: seq<Query>, names: seq<Name>, m: Memory)
    requires Linked(s.out, s.tab, names) && (forall q :: q in qs ==> QueryFits(q)) && |m.bytes| <= POINTER_LIMIT
    requires PrintQueries(s, qs).Some? && PrintQueries(s, qs).value.out <= m.bytes
    ensures var t := PrintQueries(s, qs).value;
            var (read, names') := ResolveQueries(names, qs);
            && s.out <= t.out && Linked(t.out, t.tab, names')
            && ParseQueries(m, |s.out|, |qs|) == Ok((read, |t.out|))
    decreases |qs|
  {
    if qs != [] {
      var s1 := PrintQuery(s, qs[0]).value;
      var (n, names1) := Resolve(names, qs[0].name);
      QueryGrows(s, qs[0]);
      QueriesGrow(s1, qs[1..]);
      QueryPrinted(s, qs[0], names, m);
      QueriesPrinted(s1, qs[1..], names1, m);
    }
  }

  lemma QueryGrows(s: Printer, q: Query)
    requires PrintQuery(s, q).Some?
    ensures s.out <= PrintQuery(s, q).value.out
  {
  }

  lemma {:induction false} QueriesGrow(s: Printer, qs: seq<Query>)
    requires PrintQueries(s, qs).Some?
    ensures s.out <= PrintQueries(s, qs).value.out
    decreases |qs|
  {
    if qs != [] {
      QueryGrows(s, qs[0]);
      QueriesGrow(PrintQuery(s, qs[0]).value, qs[1..]);
    }
  }

  // ----- Records -----

  /** The printer once the owner name and the eight bytes behind it are out */
  function AfterHead(s: Printer, rr: RR): Option<Printer> {
    match PrintName(s.out, |s.out|, s.size, rr.name, s.tab)
    case None => None
    case Some((name, tab)) =>
      if s.size - |name| < 8 then None
      else Some(Printer(s.out + (name + RecordHead(rr)), s.size - |name| - 8, tab))
  }

  lemma HeadFields(m: Memory, p: nat, rr: RR)
    requires At(m.bytes, p, RecordHead(rr)) && RecordFits(rr)
    ensures Peek16(m, p) == rr.rtype && Peek16(m, p + 2) == CLASS_IN && Peek32(m, p + 4) == rr.ttl
  {
    AtParts(m.bytes, p, Be16(rr.rtype), Be16(rr.rclass) + Be32(rr.ttl));
    AtParts(m.bytes, p + 2, Be16(rr.rclass), Be32(rr.ttl));
    Peek16At(m, p, rr.rtype);
    Peek16At(m, p + 2, rr.rclass);
    Peek32At(m, p + 4, rr.ttl);
  }

  /** The owner name and the fields behind it are read back. */
  predicate HeadReads(s: Printer, t: Printer, rr: RR, names: seq<Name>, m: Memory) {
    var len := |t.out| - |s.out| - 8;
    && s.out <= t.out && Linked(t.out, t.tab, Resolve(names, rr.name).1)
    && len >= 0 && ParseName(m, |s.out|) == Ok((Resolve(names, rr.name).0, len))
    && Peek16(m, |t.out| - 8) == rr.rtype && Peek16(m, |t.out| - 6) == CLASS_IN && Peek32(m, |t.out| - 4) == rr.ttl
  }

  lemma HeadPrinted(s: Printer, rr: RR, names: seq<Name>, m: Memory)
    requires Linked(s.out, s.tab, names) && RecordFits(rr) && |m.bytes| <= POINTER_LIMIT
    requires AfterHead(s, rr).Some? && AfterHead(s, rr).value.out <= m.bytes
    ensures HeadReads(s, AfterHead(s, rr).value, rr, names, m)
  {
    hide At, DnsWire.PrintName, ParseName, Linked, Resolve, RecordHead, Peek16, Peek32;
    var (name, tab) := PrintName(s.out, |s.out|, s.size, rr.name, s.tab).value;
    HeadLaidOut(s.out, name, rr, m);
    NameInside(s.out, |s.out|, s.size, rr.name, s.tab, names, name, tab, s.out + (name + RecordHead(rr)), m);
  }

  lemma HeadLaidOut(out: seq<byte>, name: seq<byte>, rr: RR, m: Memory)
    requires RecordFits(rr) && out + (name + RecordHead(rr)) <= m.bytes
    ensures var t := out + (name + RecordHead(rr));
            && out <= t && At(t, |out|, name)
            && Peek16(m, |t| - 8) == rr.rtype && Peek16(m, |t| - 6) == CLASS_IN && Peek32(m, |t| - 4) == rr.ttl
  {
    TwoParts(out, name, RecordHead(rr), m.bytes);
    HeadFields(m, |out| + |name|, rr);
  }

  /** What the data of a record is read as, and the names remembered afterwards */
  function ResolveRdata(names: seq<Name>, rdata: Rdata): (Rdata, seq<Name>) {
    match rdata
    case Target(target) => var (g, t) := Resolve(names, target); (Target(g), t)
    case Service(prio, weight, port, target) => var (g, t) := Resolve(names, target); (Service(prio, weight, port, g), t)
    case _ => (rdata, names)
  }

  /** The data lies behind its own length, and is read back. */
  predicate RdataReads(s: Printer, t: Printer, rr: RR, names: seq<Name>, m: Memory) {
    var (read, names') := ResolveRdata(names, rr.rdata);
    var len := |t.out| - |s.out| - 2;
    && s.out <= t.out && Linked(t.out, t.tab, names') && len >= 0
    && Peek16(m, |s.out|) == len && ParseRdata(m, |s.out| + 2, rr.rtype, len) == Ok((read, len))
  }

  lemma AddressPrinted(s: Printer, rr: RR, names: seq<Name>, m: Memory)
    requires Linked(s.out, s.tab, names) && RecordFits(rr) && rr.rdata.HostAddress?
    requires PrintRdata(s, rr).Some? && PrintRdata(s, rr).value.out <= m.bytes
    ensures RdataReads(s, PrintRdata(s, rr).value, rr, names, m)
  {
    var ip := rr.rdata.ip;
    AppendedAt(s.out, Be16(4) + ip, m.bytes);
    AtParts(m.bytes, |s.out|, Be16(4), ip);
    Peek16At(m, |s.out|, 4);
    PeekAt(m, |s.out| + 2, ip);
    LinkedStays(s.out, s.out + (Be16(4) + ip), s.tab, names);
  }

  lemma TargetPrinted(s: Printer, rr: RR, names: seq<Name>, m: Memory)
    requires Linked(s.out, s.tab, names) && RecordFits(rr) && rr.rdata.Target? && |m.bytes| <= POINTER_LIMIT
    requires PrintRdata(s, rr).Some? && PrintRdata(s, rr).value.out <= m.bytes
    ensures RdataReads(s, PrintRdata(s, rr).value, rr, names, m)
  {
    var p, n := |s.out|, rr.rdata.name;
    var (name, tab) := PrintName(s.out, p + 2, s.size - 2, n, s.tab).value;
    TwoParts(s.out, Be16(|name|), name, m.bytes);
    Peek16At(m, p, |name|);
    NameInside(s.out, p + 2, s.size - 2, n, s.tab, names, name, tab, s.out + (Be16(|name|) + name), m);
    TargetRead(s, PrintRdata(s, rr).value, rr, names, name, m);
  }

  lemma TargetRead(s: Printer, t: Printer, rr: RR, names: seq<Name>, name: seq<byte>, m: Memory)
    requires rr.rdata.Target? && HasTarget(rr.rtype) && s.out <= t.out && |t.out| == |s.out| + 2 + |name|
    requires NameReads(|s.out| + 2, rr.rdata.name, names, name, t.tab, t.out, m) && Peek16(m, |s.out|) == |name|
    ensures RdataReads(s, t, rr, names, m)
  {
  }

  lemma ServiceFields(m: Memory, p: nat, len: nat, prio: nat, weight: nat, port: nat)
    requires At(m.bytes, p, ServiceHead(len, prio, weight, port))
    requires len + 6 < UINT16 && prio < UINT16 && weight < UINT16 && port < UINT16
    ensures Peek16(m, p) == len + 6 && Peek16(m, p + 2) == prio && Peek16(m, p + 4) == weight && Peek16(m, p + 6) == port
  {
    AtParts(m.bytes, p, Be16(len + 6), Be16(prio) + (Be16(weight) + Be16(port)));
    AtParts(m.bytes, p + 2, Be16(prio), Be16(weight) + Be16(port));
    AtParts(m.bytes, p + 4, Be16(weight), Be16(port));
    Peek16At(m, p, len + 6);
    Peek16At(m, p + 2, prio);
    Peek16At(m, p + 4, weight);
    Peek16At(m, p + 6, port);
  }

  lemma ServicePrinted(s: Printer, rr: RR, names: seq<Name>, m: Memory)
    requires Linked(s.out, s.tab, names) && RecordFits(rr) && rr.rdata.Service? && |m.bytes| <= POINTER_LIMIT
    requires PrintRdata(s, rr).Some? && PrintRdata(s, rr).value.out <= m.bytes
    ensures RdataReads(s, PrintRdata(s, rr).value, rr, names, m)
  {
    var d := rr.rdata;
    var p := |s.out|;
    var (name, tab) := PrintName(s.out, p + 8, s.size - 8, d.target, s.tab).value;
    var head := ServiceHead(|name|, d.prio, d.weight, d.port);
    TwoParts(s.out, head, name, m.bytes);
    ServiceFields(m, p, |name|, d.prio, d.weight, d.port);
    NameInside(s.out, p + 8, s.size - 8, d.target, s.tab, names, name, tab, s.out + (head + name), m);
    ServiceRead(s, PrintRdata(s, rr).value, rr, names, name, m);
  }

  lemma ServiceRead(s: Printer, t: Printer, rr: RR, names: seq<Name>, name: seq<byte>, m: Memory)
    requires rr.rdata.Service? && rr.rtype == TYPE_SRV && s.out <= t.out && |t.out| == |s.out| + 8 + |name|
    requires NameReads(|s.out| + 8, rr.rdata.target, names, name, t.tab, t.out, m)
    requires var p := |s.out|;
             && Peek16(m, p) == |name| + 6 && Peek16(m, p + 2) == rr.rdata.prio
             && Peek16(m, p + 4) == rr.rdata.weight && Peek16(m, p + 6) == rr.rdata.port
    ensures RdataReads(s, t, rr, names, m)
  {
  }

  lemma RdataPrinted(s: Printer, rr: RR, names: seq<Name>, m: Memory)
    requires Linked(s.out, s.tab, names) && RecordFits(rr) && |m.bytes| <= POINTER_LIMIT
    requires PrintRdata(s, rr).Some? && PrintRdata(s, rr).value.out <= m.bytes
    ensures RdataReads(s, PrintRdata(s, rr).value, rr, names, m)
  {
    match rr.rdata {
      case HostAddress(_) => AddressPrinted(s, rr, names, m);
      case Target(_) => TargetPrinted(s, rr, names, m);
      case Service(_, _, _, _) => ServicePrinted(s, rr, names, m);
    }
  }

  lemma RecordIsHeadAndData(s: Printer, rr: RR)
    requires PrintRecord(s, rr).Some?
    ensures AfterHead(s, rr).Some? && PrintRecord(s, rr) == PrintRdata(AfterHead(s, rr).value, rr)
    ensures AfterHead(s, rr).value.out <= PrintRecord(s, rr).value.out
  {
    RdataGrows(AfterHead(s, rr).value, rr);
  }

  lemma RecordPrinted(s: Printer, rr: RR, names: seq<Name>, m: Memory)
    requires Linked(s.out, s.tab, names) && RecordFits(rr) && |m.bytes| <= POINTER_LIMIT
    requires PrintRecord(s, rr).Some? && PrintRecord(s, rr).value.out <= m.bytes
    ensures var t := PrintRecord(s, rr).value;
            var (read, names') := ResolveRecord(names, rr);
            && s.out <= t.out && Linked(t.out, t.tab, names')
            && ParseRecord(m, |s.out|) == Ok((read, |t.out|))
  {
    RecordIsHeadAndData(s, rr);
    var s1, t := AfterHead(s, rr).value, PrintRecord(s, rr).value;
    HeadPrinted(s, rr, names, m);
    RdataPrinted(s1, rr, Resolve(names, rr.name).1, m);
    RecordPutTogether(s, s1, t, rr, names, m);
    ResolveParts(names, rr);
  }

  lemma RecordPutTogether(s: Printer, s1: Printer, t: Printer, rr: RR, names: seq<Name>, m: Memory)
    requires t.out <= m.bytes && HeadReads(s, s1, rr, names, m) && RdataReads(s1, t, rr, Resolve(names, rr.name).1, m)
    ensures var (name, names1) := Resolve(names, rr.name);
            ParseRecord(m, |s.out|) ==
              Ok((RR(name, rr.rtype, CLASS_IN, rr.ttl, ResolveRdata(names1, rr.rdata).0), |t.out|))
  {
    hide Linked, Resolve, ResolveRdata, ParseName, ParseRdata, ParseRecord, Peek16, Peek32;
    var (name, names1) := Resolve(names, rr.name);
    RecordRead(m, |s.out|, |s1.out|, |t.out|, rr, name, ResolveRdata(names1, rr.rdata).0);
  }

  lemma ResolveParts(names: seq<Name>, rr: RR)
    ensures var (name, names1) := Resolve(names, rr.name);
            var (rdata, names2) := ResolveRdata(names1, rr.rdata);
            ResolveRecord(names, rr) == (RR(name, rr.rtype, rr.rclass, rr.ttl, rdata), names2)
  {
  }

  lemma RecordRead(m: Memory, p: nat, d: nat, end: nat, rr: RR, name: Name, rdata: Rdata)
    requires d >= p + 8 && ParseName(m, p) == Ok((name, d - p - 8))
    requires Peek16(m, d - 8) == rr.rtype && Peek16(m, d - 6) == CLASS_IN && Peek32(m, d - 4) == rr.ttl
    requires d + 2 <= end <= |m.bytes| && Peek16(m, d) == end - d - 2
    requires ParseRdata(m, d + 2, rr.rtype, end - d - 2) == Ok((rdata, end - d - 2))
    ensures ParseRecord(m, p) == Ok((RR(name, rr.rtype, CLASS_IN, rr.ttl, rdata), end))
  {
    var t := p + (d - p - 8);
    assert t == d - 8 && t + 2 == d - 6 && t + 4 == d - 4 && t + 8 == d && t + 10 == d + 2;
  }

  lemma RdataGrows(s: Printer, rr: RR)
    requires PrintRdata(s, rr).Some?
    ensures s.out <= PrintRdata(s, rr).value.out
  {
  }

  lemma RecordGrows(s: Printer, rr: RR)
    requires PrintRecord(s, rr).Some?
    ensures s.out <= PrintRecord(s, rr).value.out
  {
    RecordIsHeadAndData(s, rr);
  }

  lemma {:induction false} RecordsGrow(s: Printer, rrs: seq<RR>)
    requires PrintRecords(s, rrs).Some?
    ensures s.out <= PrintRecords(s, rrs).value.out
    decreases |rrs|
  {
    if rrs != [] {
      RecordGrows(s, rrs[0]);
      RecordsGrow(PrintRecord(s, rrs[0]).value, rrs[1..]);
    }
  }

  lemma {:induction false} RecordsPrinted(s: Printer, rrs: seq<RR>, names: seq<Name>, m: Memory)
    requires Linked(s.out, s.tab, names) && (forall rr :: rr in rrs ==> RecordFits(rr)) && |m.bytes| <= POINTER_LIMIT
    requires PrintRecords(s, rrs).Some? && PrintRecords(s, rrs).value.out <= m.bytes
    ensures var t := PrintRecords(s, rrs).value;
            var (read, names') := ResolveRecords(names, rrs);
            && s.out <= t.out && Linked(t.out, t.tab, names')
            && ParseRecords(m, |s.out|, |rrs|) == Ok((read, |t.out|))
    decreases |rrs|
  {
    if rrs != [] {
      var s1 := PrintRecord(s, rrs[0]).value;
      RecordsGrow(s1, rrs[1..]);
      RecordPrinted(s, rrs[0], names, m);
      RecordsPrinted(s1, rrs[1..], ResolveRecord(names, rrs[0]).1, m);
    }
  }

  // ----- Packets -----

  lemma HeaderRead(m: Memory, p: Packet)
    requires PrintHeader(p) <= m.bytes && Fits(p)
    ensures Peek16(m, 0) == p.id && Peek16(m, 2) == p.flags
    ensures Peek16(m, 4) == |p.q| && Peek16(m, 6) == |p.ans| && Peek16(m, 8) == |p.ns| && Peek16(m, 10) == |p.ar|
  {
    hide Peek16, Be16;
    var h := PrintHeader(p);
    assert h[0..2] == Be16(p.id) && h[2..4] == Be16(p.flags) && h[4..6] == Be16(|p.q|);
    assert h[6..8] == Be16(|p.ans|) && h[8..10] == Be16(|p.ns|) && h[10..12] == Be16(|p.ar|);
    FieldRead(m, h, 0, p.id);
    FieldRead(m, h, 2, p.flags);
    FieldRead(m, h, 4, |p.q|);
    FieldRead(m, h, 6, |p.ans|);
    FieldRead(m, h, 8, |p.ns|);
    FieldRead(m, h, 10, |p.ar|);
  }

  lemma FieldRead(m: Memory, h: seq<byte>, i: nat, v: nat)
    requires h <= m.bytes && i + 2 <= |h| && h[i..i + 2] == Be16(v) && v < UINT16
    ensures Peek16(m, i) == v
  {
    assert m.bytes[i..i + 2] == h[i..i + 2];
    Peek16At(m, i, v);
  }

  /** Whatever print_packet prints, pj_dns_parse_packet accepts, and reads as the same
      packet but for the names: where the printer took a name for one it remembered, the
      reader gets that one. What lies behind the packet in memory does not matter. */
  lemma PrintedPacketReads(p: Packet, size: int, beyond: nat -> byte)
    requires Fits(p) && PrintPacket(p, size).Some? && |PrintPacket(p, size).value.out| <= POINTER_LIMIT
    ensures ParsePacket(Memory(PrintPacket(p, size).value.out, beyond)) == Ok(Resolved(p))
  {
    var out := PrintPacket(p, size).value.out;
    var m := Memory(out, beyond);
    var s0 := Printer(PrintHeader(p), size - HEADER, []);
    var s1 := PrintQueries(s0, p.q).value;
    var s2 := PrintRecords(s1, p.ans).value;
    var s3 := PrintRecords(s2, p.ns).value;
    QueriesGrow(s0, p.q);
    RecordsGrow(s1, p.ans);
    RecordsGrow(s2, p.ns);
    RecordsGrow(s3, p.ar);
    HeaderRead(m, p);
    QueriesPrinted(s0, p.q, [], m);
    var names1 := ResolveQueries([], p.q).1;
    RecordsPrinted(s1, p.ans, names1, m);
    var names2 := ResolveRecords(names1, p.ans).1;
    RecordsPrinted(s2, p.ns, names2, m);
    RecordsPrinted(s3, p.ar, ResolveRecords(names2, p.ns).1, m);
  }

  // ----- When the names come back -----

  function RecordNames(rr: RR): seq<Name> {
    match rr.rdata
    case Target(target) => [rr.name, target]
    case Service(_, _, _, target) => [rr.name, target]
    case _ => [rr.name]
  }

  function NamesOf(rrs: seq<RR>): seq<Name> {
    if rrs == [] then [] else RecordNames(rrs[0]) + NamesOf(rrs[1..])
  }

  function QueryNames(qs: seq<Query>): (n: seq<Name>)
    ensures |n| == |qs|
  {
    if qs == [] then [] else [qs[0].name] + QueryNames(qs[1..])
  }

  /** The names of a packet in the order they are printed */
  function Names(p: Packet): seq<Name> {
    QueryNames(p.q) + NamesOf(p.ans) + NamesOf(p.ns) + NamesOf(p.ar)
  }

  /** What is remembered after printing some names */
  function Remember(table: seq<Name>, names: seq<Name>): seq<Name>
    decreases |names|
  {
    if names == [] then table else Remember(Resolve(table, names[0]).1, names[1..])
  }

  /** No name is taken for another one that the table remembers when its turn comes. */
  predicate Unmistaken(table: seq<Name>, names: seq<Name>)
    decreases |names|
  {
    names == [] ||
    (Resolve(table, names[0]).0 == names[0] && Unmistaken(Resolve(table, names[0]).1, names[1..]))
  }

  lemma {:induction false} UnmistakenSplits(table: seq<Name>, a: seq<Name>, b: seq<Name>)
    ensures Unmistaken(table, a + b) <==> Unmistaken(table, a) && Unmistaken(Remember(table, a), b)
    ensures Remember(table, a + b) == Remember(Remember(table, a), b)
    decreases |a|
  {
    if a == [] {
      assert a + b == b;
    } else {
      assert (a + b)[0] == a[0] && (a + b)[1..] == a[1..] + b;
      UnmistakenSplits(Resolve(table, a[0]).1, a[1..], b);
    }
  }

  lemma {:induction false} QueriesUnmistaken(table: seq<Name>, qs: seq<Query>)
    ensures var (read, after) := ResolveQueries(table, qs);
            after == Remember(table, QueryNames(qs)) && (read == qs <==> Unmistaken(table, QueryNames(qs)))
    decreases |qs|
  {
    if qs != [] {
      var (n, t) := Resolve(table, qs[0].name);
      QueriesUnmistaken(t, qs[1..]);
      assert QueryNames(qs)[1..] == QueryNames(qs[1..]);
      var rest := ResolveQueries(t, qs[1..]).0;
      ConsEqual(qs[0].(name := n), rest, qs);
    }
  }

  lemma ConsEqual<T>(x: T, xs: seq<T>, ys: seq<T>)
    requires ys != []
    ensures [x] + xs == ys <==> x == ys[0] && xs == ys[1..]
  {
    assert ys == [ys[0]] + ys[1..];
    assert ([x] + xs)[0] == x && ([x] + xs)[1..] == xs;
  }

  lemma OneName(table: seq<Name>, n: Name)
    ensures Remember(table, [n]) == Resolve(table, n).1
    ensures Unmistaken(table, [n]) <==> Resolve(table, n).0 == n
  {
    var one := [n];
    assert |one[1..]| == 0;
  }

  lemma RecordUnmistaken(table: seq<Name>, rr: RR)
    ensures var (read, after) := ResolveRecord(table, rr);
            after == Remember(table, RecordNames(rr)) && (read == rr <==> Unmistaken(table, RecordNames(rr)))
  {
    OneName(table, rr.name);
    if rr.rdata.Target? || rr.rdata.Service? {
      var target := if rr.rdata.Target? then rr.rdata.name else rr.rdata.target;
      UnmistakenSplits(table, [rr.name], [target]);
      assert RecordNames(rr) == [rr.name] + [target];
      OneName(Resolve(table, rr.name).1, target);
    }
  }

  lemma {:induction false} RecordsUnmistaken(table: seq<Name>, rrs: seq<RR>)
    ensures var (read, after) := ResolveRecords(table, rrs);
            after == Remember(table, NamesOf(rrs)) && (read == rrs <==> Unmistaken(table, NamesOf(rrs)))
    decreases |rrs|
  {
    if rrs != [] {
      var (rr, t) := ResolveRecord(table, rrs[0]);
      RecordUnmistaken(table, rrs[0]);
      RecordsUnmistaken(t, rrs[1..]);
      UnmistakenSplits(table, RecordNames(rrs[0]), NamesOf(rrs[1..]));
      ConsEqual(rr, ResolveRecords(t, rrs[1..]).0, rrs);
    }
  }

  lemma ResolvedIsUnmistaken(p: Packet)
    ensures Resolved(p) == p <==> Unmistaken([], Names(p))
  {
    var a, b, c, d := QueryNames(p.q), NamesOf(p.ans), NamesOf(p.ns), NamesOf(p.ar);
    UnmistakenSplits([], a + b + c, d);
    UnmistakenSplits([], a + b, c);
    UnmistakenSplits([], a, b);
    QueriesUnmistaken([], p.q);
    RecordsUnmistaken(Remember([], a), p.ans);
    RecordsUnmistaken(Remember([], a + b), p.ns);
    RecordsUnmistaken(Remember([], a + b + c), p.ar);
  }

  /** The packet comes back exactly when no name of it is mistaken for a remembered one. */
  lemma RoundTrip(p: Packet, size: int, beyond: nat -> byte)
    requires Fits(p) && PrintPacket(p, size).Some? && |PrintPacket(p, size).value.out| <= POINTER_LIMIT
    ensures ParsePacket(Memory(PrintPacket(p, size).value.out, beyond)) == Ok(p) <==> Unmistaken([], Names(p))
  {
    PrintedPacketReads(p, size, beyond);
    ResolvedIsUnmistaken(p);
  }

  // ----- Names that are never mistaken -----

  /** A name with no byte below 45 (the hyphen) whose labels are shorter than that: then no
      length byte looks like a byte of a name. */
  predicate HostName(n: Name)
    decreases |n|
  {
    n == [] ||
    var k := FirstLabel(n);
    1 <= k <= 44 && (forall i :: 0 <= i < k ==> n[i] >= 45) && (k < |n| ==> AfterLabel(n) != [] && HostName(AfterLabel(n)))
  }

  lemma {:induction false} HostNameBytes(n: Name)
    requires HostName(n)
    ensures WellFormed(n) && forall i :: 0 <= i < |n| ==> n[i] >= 45
    decreases |n|
  {
    if n != [] {
      var k := FirstLabel(n);
      if k < |n| {
        HostNameBytes(AfterLabel(n));
        assert forall i :: k < i < |n| ==> n[i] == AfterLabel(n)[i - k - 1];
      }
    }
  }

  lemma RestIsName(s: Name)
    requires s != [] && WellFormed(s) && FirstLabel(s) < |s|
    ensures AfterLabel(s) != [] && FirstLabel(AfterLabel(s)) <= MAX_LABEL
  {
  }

  lemma BehindFirst(e: seq<byte>, k: byte, text: seq<byte>, rest: seq<byte>)
    requires e == [k] + (text + rest) && |text| == k && rest != []
    ensures e[1..1 + k] == text && e[k + 1] == rest[0]
  {
  }

  /** A name of one label is compared as it is; in any other, a length stands for the dot. */
  lemma AliasShape(s: Name)
    requires s != [] && WellFormed(s)
    ensures var k := FirstLabel(s);
            if k == |s| then Alias(s) == s else AfterLabel(s) != [] && Alias(s)[k] == FirstLabel(AfterLabel(s))
  {
    hide FirstLabel, AfterLabel, Encode, WellFormed;
    var k, rest := FirstLabel(s), AfterLabel(s);
    EncodeUnfold(s);
    BehindFirst(Encode(s), k, s[..k], Encode(rest));
    if k < |s| {
      RestIsName(s);
      EncodeUnfold(rest);
      assert Alias(s)[k] == Encode(s)[k + 1];
    } else {
      assert s[..k] == s;
    }
  }

  /** A host name is taken for nothing but itself. */
  lemma HostNamesAreApart(s: Name, t: Name)
    requires HostName(s) && HostName(t) && Alias(s) == t
    ensures s == t
  {
    HostNameBytes(s);
    HostNameBytes(t);
    if s != [] {
      AliasShape(s);
      assert FirstLabel(s) == |s|;
    }
  }

  lemma {:induction false} HostNamesUnmistaken(table: seq<Name>, names: seq<Name>)
    requires forall n :: n in table ==> HostName(n)
    requires forall n :: n in names ==> HostName(n)
    ensures Unmistaken(table, names)
    decreases |names|
  {
    if names != [] {
      var i := IndexOf(Aliases(table), names[0]);
      if i < |table| {
        HostNamesAreApart(table[i], names[0]);
      }
      HostNamesUnmistaken(Resolve(table, names[0]).1, names[1..]);
    }
  }

  /** A packet of host names always comes back. */
  lemma HostNamesRoundTrip(p: Packet, size: int, beyond: nat -> byte)
    requires Fits(p) && forall n :: n in Names(p) ==> HostName(n)
    requires PrintPacket(p, size).Some? && |PrintPacket(p, size).value.out| <= POINTER_LIMIT
    ensures ParsePacket(Memory(PrintPacket(p, size).value.out, beyond)) == Ok(p)
  {
    HostNamesUnmistaken([], Names(p));
    RoundTrip(p, size, beyond);
  }

  // ----- A name that is mistaken -----

  function Repeat(b: byte, n: nat): (s: seq<byte>)
    ensures |s| == n && forall i :: 0 <= i < n ==> s[i] == b
  {
    seq<byte>(n, i => b)
  }

  /** "a." and 48 times "b", and "a0" and 48 times "b": two host names whose labels have no
      more than 63 letters and digits, as section 2.3.4 of RFC 1035 allows. The digit 0 is
      byte 48, the length of the label behind the dot. */
  function DottedName(): Name { [97, DOT] + Repeat(98, 48) }
  function UndottedName(): Name { [97, 48] + Repeat(98, 48) }

  lemma {:induction false} NoDot(n: Name, k: nat)
    requires k <= |n| && forall i :: 0 <= i < k ==> n[i] != DOT
    requires k < |n| ==> n[k] == DOT
    ensures FirstLabel(n) == k
    decreases k
  {
    if k > 0 {
      NoDot(n[1..], k - 1);
    }
  }

  lemma DottedParts()
    ensures var s := DottedName();
            FirstLabel(s) == 1 && AfterLabel(s) == Repeat(98, 48) && FirstLabel(AfterLabel(s)) == 48
            && WellFormed(s) && WellFormed(UndottedName())
  {
    NoDot(DottedName(), 1);
    NoDot(UndottedName(), 50);
    var rest := AfterLabel(DottedName());
    assert rest == Repeat(98, 48);
    NoDot(rest, 48);
  }

  lemma DottedIsTakenForUndotted()
    ensures DottedName() != UndottedName() && WellFormed(DottedName())
    ensures Alias(DottedName()) == UndottedName()
  {
    hide FirstLabel, AfterLabel, WellFormed;
    var s, t := DottedName(), UndottedName();
    DottedParts();
    assert s[1] != t[1];
    var rest := AfterLabel(s);
    EncodeUnfold(s);
    EncodeUnfold(rest);
    assert rest[..48] == rest;
    assert Encode(s)[1..51] == [97, 48] + rest;
  }

  lemma SecondNameMistaken(s: Name, t: Name)
    requires s != t && Alias(s) == t
    ensures Resolve([], s) == (s, [s]) && Resolve([s], t).0 == s
    ensures !Unmistaken([], [s] + [t])
  {
    var none: seq<Name> := [];
    assert |Aliases(none)| == 0 && Aliases([s])[0] == t && none + [s] == [s];
    OneName([], s);
    OneName([s], t);
    UnmistakenSplits([], [s], [t]);
  }

  /** A question for the first name, and an answer about the second */
  function MistakenPacket(ip: seq<byte>): Packet {
    Packet(1, 0x8000, [Query(DottedName(), TYPE_A, CLASS_IN)],
           [RR(UndottedName(), TYPE_A, CLASS_IN, 60, HostAddress(ip))], [], [])
  }

  lemma MistakenParts(ip: seq<byte>)
    ensures Names(MistakenPacket(ip)) == [DottedName()] + [UndottedName()]
  {
    hide DottedName, UndottedName;
    var p := MistakenPacket(ip);
    var none: seq<Name> := [];
    assert |p.q[1..]| == 0 && |p.ans[1..]| == 0;
    assert QueryNames(p.q) == [DottedName()] + none && NamesOf(p.ans) == ([UndottedName()] + none) + none;
  }

  lemma MistakenNames(ip: seq<byte>)
    requires |ip| == 4
    ensures var p := MistakenPacket(ip); Fits(p) && !Unmistaken([], Names(p)) && Resolved(p) != p
  {
    hide Unmistaken, Resolve, Resolved, DottedName, UndottedName, WellFormed;
    var s, t := DottedName(), UndottedName();
    DottedParts();
    DottedIsTakenForUndotted();
    SecondNameMistaken(s, t);
    MistakenParts(ip);
    ResolvedIsUnmistaken(MistakenPacket(ip));
  }

  /** A short name is printed into 60 bytes or more. */
  lemma ShortNamePrints(out: seq<byte>, pos: nat, size: int, n: Name, tab: seq<Remembered>)
    requires |n| <= 50 && size >= 60
    ensures PrintName(out, pos, size, n, tab).Some? && |PrintName(out, pos, size, n, tab).value.0| <= 52
  {
    hide Encode, Find, Be16;
  }

  lemma MistakenPrints(ip: seq<byte>)
    requires |ip| == 4
    ensures var r := PrintPacket(MistakenPacket(ip), 512); r.Some? && |r.value.out| <= POINTER_LIMIT
  {
    hide PrintName, Be16, RecordHead, PrintHeader, DottedName, UndottedName;
    var p := MistakenPacket(ip);
    DottedLengths();
    var s0 := Printer(PrintHeader(p), 500, []);
    ShortNamePrints(s0.out, |s0.out|, s0.size, p.q[0].name, s0.tab);
    var s1 := PrintQuery(s0, p.q[0]).value;
    ShortNamePrints(s1.out, |s1.out|, s1.size, p.ans[0].name, s1.tab);
    var s2 := PrintRecord(s1, p.ans[0]).value;
    assert PrintQueries(s0, p.q) == PrintQueries(s1, p.q[1..]) == Some(s1);
    assert PrintRecords(s1, p.ans) == PrintRecords(s2, p.ans[1..]) == Some(s2);
  }

  lemma DottedLengths()
    ensures |DottedName()| == |UndottedName()| == 50
  {
  }

  /** Printed into 512 bytes, the packet comes back different: its reader gets the answer as one
      about the name of the question. */
  lemma MistakenName(ip: seq<byte>, beyond: nat -> byte)
    requires |ip| == 4
    ensures var p := MistakenPacket(ip);
            && Fits(p) && PrintPacket(p, 512).Some?
            && ParsePacket(Memory(PrintPacket(p, 512).value.out, beyond)) == Ok(Resolved(p)) != Ok(p)
  {
    hide PrintPacket, ParsePacket, Resolved, Fits, MistakenPacket;
    MistakenNames(ip);
    MistakenPrints(ip);
    PrintedPacketReads(MistakenPacket(ip), 512, beyond);
  }

  // ----- pj_dns_make_query -----

  /** What pj_dns_make_query writes, piece by piece */
  predicate AsksFor(m: Memory, p: nat, id: nat, qtype: nat, name: Name) {
    && |m.bytes| >= p && At(m.bytes, p, Encode(name)) && WellFormed(name)
    && Peek16(m, 0) == id && Peek16(m, 2) == 0x100
    && Peek16(m, 4) == 1 && Peek16(m, 6) == 0 && Peek16(m, 8) == 0 && Peek16(m, 10) == 0
    && Peek16(m, p + |Encode(name)|) == qtype && Peek16(m, p + |Encode(name)| + 2) == CLASS_IN
  }

  lemma MadeQueryAsks(m: Memory, p: nat, id: nat, qtype: nat, name: Name)
    requires p == HEADER && id < UINT16 && qtype < UINT16 && WellFormed(name) && m.bytes == MakeQuery(id, qtype, name)
    ensures AsksFor(m, p, id, qtype, name)
  {
    hide At, Be16, Peek16, Encode, WellFormed;
    QueryHeaderRead(m, id, name, qtype);
    QuestionLaidOut(m, QueryHeader(id), Encode(name), qtype);
  }

  lemma QuestionLaidOut(m: Memory, header: seq<byte>, name: seq<byte>, qtype: nat)
    requires m.bytes == header + (name + (Be16(qtype) + Be16(CLASS_IN))) && qtype < UINT16
    ensures At(m.bytes, |header|, name)
    ensures Peek16(m, |header| + |name|) == qtype && Peek16(m, |header| + |name| + 2) == CLASS_IN
  {
    AppendedAt(header, name + (Be16(qtype) + Be16(CLASS_IN)), m.bytes);
    QueryTail(m, |header|, name, qtype, CLASS_IN);
  }

  lemma QueryHeaderRead(m: Memory, id: nat, name: Name, qtype: nat)
    requires id < UINT16 && qtype < UINT16 && WellFormed(name) && QueryHeader(id) <= m.bytes
    ensures Peek16(m, 0) == id && Peek16(m, 2) == 0x100
    ensures Peek16(m, 4) == 1 && Peek16(m, 6) == 0 && Peek16(m, 8) == 0 && Peek16(m, 10) == 0
  {
    var p := Packet(id, 0x100, [Query(name, qtype, CLASS_IN)], [], [], []);
    assert QueryHeader(id) == PrintHeader(p);
    HeaderRead(m, p);
  }

  lemma PlainName(m: Memory, p: nat, n: Name)
    requires WellFormed(n) && EncodedAt(m.bytes, p, n)
    ensures ParseName(m, p) == Ok((n, |Encode(n)|))
  {
    DecodeEncoded(m, p, n, 0);
  }

  lemma OneQuestion(m: Memory, p: nat, q: Query, end: nat)
    requires p == HEADER && |m.bytes| >= p && ParseQuery(m, p) == Ok((q, end))
    requires Peek16(m, 4) == 1 && Peek16(m, 6) == 0 && Peek16(m, 8) == 0 && Peek16(m, 10) == 0
    ensures ParsePacket(m) == Ok(Packet(Peek16(m, 0), Peek16(m, 2), [q], [], [], []))
  {
    var none: seq<Query> := [];
    assert ParseQueries(m, end, 0) == Ok((none, end));
    assert [q] + none == [q];
    assert ParseQueries(m, p, 1) == Ok(([q], end));
  }

  /** A query made by pj_dns_make_query is parsed as the question it asks. */
  lemma MadeQueryReads(id: nat, qtype: nat, name: Name, beyond: nat -> byte)
    requires id < UINT16 && qtype < UINT16 && WellFormed(name)
    ensures ParsePacket(Memory(MakeQuery(id, qtype, name), beyond)) ==
            Ok(Packet(id, 0x100, [Query(name, qtype, CLASS_IN)], [], [], []))
  {
    var m := Memory(MakeQuery(id, qtype, name), beyond);
    MadeQueryAsks(m, HEADER, id, qtype, name);
    AsksForReads(m, HEADER, id, qtype, name);
  }

  lemma AsksForReads(m: Memory, p: nat, id: nat, qtype: nat, name: Name)
    requires p == HEADER && AsksFor(m, p, id, qtype, name)
    ensures ParsePacket(m) == Ok(Packet(id, 0x100, [Query(name, qtype, CLASS_IN)], [], [], []))
  {
    hide NameLen, GetName, ParseName, ParseQuery, ParseQueries, ParseRecords, ParsePacket, Encode, WellFormed;
    QuestionReads(m, p, qtype, name);
    OneQuestion(m, p, Query(name, qtype, CLASS_IN), p + |Encode(name)| + 4);
  }

  lemma QuestionReads(m: Memory, p: nat, qtype: nat, name: Name)
    requires WellFormed(name) && EncodedAt(m.bytes, p, name)
    requires Peek16(m, p + |Encode(name)|) == qtype && Peek16(m, p + |Encode(name)| + 2) == CLASS_IN
    ensures ParseQuery(m, p) == Ok((Query(name, qtype, CLASS_IN), p + |Encode(name)| + 4))
  {
    hide NameLen, GetName, ParseName, Encode, WellFormed;
    PlainName(m, p, name);
    QueryParsed(m, p, name, |Encode(name)|, Query(name, qtype, CLASS_IN));
  }
}
