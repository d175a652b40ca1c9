/** The printing functions of dns_server.c and pj_dns_make_query, writing a packet into a
    buffer in place. */
module DnsPrinter {
  import opened Sequences
  import opened Bytes
  import opened DnsPacket
  import opened Buffers
  import opened Wrappers
  import opened DnsNames
  import opened DnsWire
  import opened DnsStops

  // ----- Numbers -----

  method Write16(pkt: array<byte>, p: nat, v: nat)
    requires p + 2 <= pkt.Length
    modifies pkt
    ensures pkt[..] == Spliced(old(pkt[..]), p, Be16(v))
  {
    pkt[p] := (v / 256) % 256;
    pkt[p + 1] := v % 256;
  }

  method Write32(pkt: array<byte>, p: nat, v: nat)
    requires p + 4 <= pkt.Length
    modifies pkt
    ensures pkt[..] == Spliced(old(pkt[..]), p, Be32(v))
  {
    Write16(pkt, p, v / UINT16);
    Write16(pkt, p + 2, v % UINT16);
    SpliceTwice(old(pkt[..]), p, Be16(v / UINT16), Be16(v % UINT16));
  }

  // ----- Names -----

  /** struct label_tab: where names were printed, and how long they are. */
  class LabelTable {
    var a: seq<Remembered>

    constructor ()
      ensures a == []
    {
      a := [];
    }
  }

  /** What an entry is compared by has been printed. */
  predicate Inside(tab: seq<Remembered>, end: nat) {
    forall i :: 0 <= i < |tab| ==> EndOf(tab[i]) <= end
  }

  function EndOf(e: Remembered): nat {
    e.pos + 1 + e.len
  }

  lemma {:induction false} FindIs(out: seq<byte>, tab: seq<Remembered>, n: Name, i: nat)
    requires i <= |tab| && (i < |tab| ==> Matches(out, tab[i], n))
    requires forall j :: 0 <= j < i ==> !Matches(out, tab[j], n)
    ensures Find(out, tab, n) == i
  {
  }

  lemma {:induction false} FirstLabelIs(n: Name, k: nat)
    requires k <= |n| && (forall i :: 0 <= i < k ==> n[i] != DOT) && (k < |n| ==> n[k] == DOT)
    ensures FirstLabel(n) == k
  {
  }

  /** A label as it is printed */
  function Labelled(text: seq<byte>): (s: seq<byte>)
    ensures |s| == 1 + |text|
  {
    [|text| % 256] + text
  }

  /** The label that starts at `start` ends at `end`. */
  predicate LabelEnds(name: Name, start: nat, end: nat) {
    && start <= end <= |name| && (forall i :: start <= i < end ==> name[i] != DOT)
    && (end < |name| ==> name[end] == DOT)
  }

  function NextLabel(name: Name, end: nat): nat {
    if end < |name| then end + 1 else end
  }

  lemma LabelIs(name: Name, start: nat, end: nat)
    requires LabelEnds(name, start, end) && start < |name|
    ensures var rest := name[start..];
            && FirstLabel(rest) == end - start && rest[..end - start] == name[start..end]
            && AfterLabel(rest) == name[NextLabel(name, end)..]
  {
    hide FirstLabel;
    FirstLabelIs(name[start..], end - start);
  }

  lemma EncodeStep(name: Name, start: nat, end: nat)
    requires LabelEnds(name, start, end) && start < |name|
    ensures Encode(name[start..]) == Labelled(name[start..end]) + Encode(name[NextLabel(name, end)..])
  {
    hide FirstLabel, AfterLabel;
    var rest := name[start..];
    LabelIs(name, start, end);
    Regrouped([(end - start) % 256], rest[..end - start], Encode(AfterLabel(rest)));
  }

  /** One round of the loop over the labels of a name */
  lemma LabelDone(name: Name, start: nat, end: nat, done: seq<byte>)
    requires LabelEnds(name, start, end) && start < |name| && Encode(name) == done + Encode(name[start..])
    ensures var done' := done + Labelled(name[start..end]);
            Encode(name) == done' + Encode(name[NextLabel(name, end)..]) && |done'| < |Encode(name)|
  {
    EncodeStep(name, start, end);
    Regrouped(done, Labelled(name[start..end]), Encode(name[NextLabel(name, end)..]));
  }

  lemma AllDone(name: Name, done: seq<byte>)
    requires Encode(name) == done + Encode(name[|name|..])
    ensures Encode(name) == done + [0]
  {
    assert name[|name|..] == [];
  }

  /** Print one more label behind what has been printed of a name since `before`. */
  method PrintLabel(pkt: array<byte>, p: nat, text: seq<byte>, ghost before: seq<byte>, ghost pos: nat, ghost done: seq<byte>)
    requires pos + |done| == p && p + 1 + |text| <= pkt.Length == |before| && pkt[..] == Spliced(before, pos, done)
    modifies pkt
    ensures pkt[..] == Spliced(before, pos, done + Labelled(text))
  {
    hide Encode;
    pkt[p] := |text| % 256;
    assert pkt[..] == Spliced(old(pkt[..]), p, [|text| % 256]);
    Copy(pkt, p + 1, text);
    SpliceTwice(old(pkt[..]), p, [|text| % 256], text);
    SpliceTwice(before, pos, done, Labelled(text));
  }

  /** The zero byte behind the last label */
  method PrintEnd(pkt: array<byte>, p: nat, ghost before: seq<byte>, ghost pos: nat, ghost done: seq<byte>)
    requires pos + |done| == p < pkt.Length == |before| && pkt[..] == Spliced(before, pos, done)
    modifies pkt
    ensures pkt[..] == Spliced(before, pos, done + [0])
  {
    pkt[p] := 0;
    SpliceTwice(before, pos, done, [0]);
  }

  method EndOfLabel(name: Name, start: nat) returns (end: nat)
    requires start <= |name|
    ensures LabelEnds(name, start, end)
  {
    end := start;
    while end != |name| && name[end] != DOT
      invariant start <= end <= |name|
      invariant forall i :: start <= i < end ==> name[i] != DOT
    {
      end := end + 1;
    }
  }

  /** Write the labels of `name`, each behind its length, and a zero byte; -1 if they do not fit. */
  method PrintLabels(pkt: array<byte>, room: nat, pos: nat, name: Name) returns (len: int)
    requires pos + room <= pkt.Length
    modifies pkt
    ensures len == if |Encode(name)| <= room then |Encode(name)| else -1
    ensures pkt[..] == Spliced(old(pkt[..]), pos, if len == -1 then PartOf(name, room) else Encode(name))
  {
    hide Spliced, Encode, Labelled, FirstLabel, Fitting;
    var p, size, start := pos, room, 0;
    ghost var done: seq<byte> := [];
    SpliceNothing(pkt[..], pos);
    assert name[start..] == name;
    while start != |name|
      invariant 0 <= start <= |name| && p == pos + |done| && size >= 0 && size + |done| == room
      invariant Encode(name) == done + Encode(name[start..])
      invariant Fitting(name, room) == |done| + Fitting(name[start..], size)
      invariant pkt[..] == Spliced(old(pkt[..]), pos, done)
    {
      var end := EndOfLabel(name, start);
      LabelDone(name, start, end, done);
      FittingStep(name, start, end, size);
      if size < end - start + 1 {
        assert PartOf(name, room) == done;
        return -1;
      }
      PrintLabel(pkt, p, name[start..end], old(pkt[..]), pos, done);
      size := size - (end - start + 1);
      p := p + (end - start + 1);
      done := done + Labelled(name[start..end]);
      start := if end != |name| && name[end] == DOT then end + 1 else end;
    }
    AllDone(name, done);
    if size == 0 {
      NothingFits(name[start..], size);
      assert PartOf(name, room) == done;
      return -1;
    }
    PrintEnd(pkt, p, old(pkt[..]), pos, done);
    len := p + 1 - pos;
  }

  lemma FittingStep(name: Name, start: nat, end: nat, size: int)
    requires LabelEnds(name, start, end) && start < |name|
    ensures Fitting(name[start..], size) ==
            if size < end - start + 1 then 0
            else end - start + 1 + Fitting(name[NextLabel(name, end)..], size - (end - start + 1))
  {
    hide Encode, FirstLabel, AfterLabel;
    LabelIs(name, start, end);
  }

  lemma NothingFits(none: Name, size: int)
    requires none == []
    ensures Fitting(none, size) == 0
  {
  }

  /** The strcmp between a remembered name, in the buffer, and a name */
  method Compare(pkt: array<byte>, e: Remembered, name: Name, ghost out: seq<byte>) returns (same: bool)
    requires |out| <= pkt.Length && pkt[..|out|] == out && EndOf(e) <= |out|
    ensures same == Matches(out, e, name)
  {
    same := e.len == |name| && pkt[e.pos + 1..e.pos + 1 + e.len] == name;
    assert out[e.pos + 1..e.pos + 1 + e.len] == pkt[e.pos + 1..e.pos + 1 + e.len];
  }

  method FindEntry(pkt: array<byte>, tab: LabelTable, name: Name, ghost out: seq<byte>) returns (i: nat)
    requires |out| <= pkt.Length && pkt[..|out|] == out && Inside(tab.a, |out|)
    ensures i == Find(out, tab.a, name)
  {
    i := 0;
    while i < |tab.a|
      invariant i <= |tab.a|
      invariant forall j :: 0 <= j < i ==> !Matches(out, tab.a[j], name)
    {
      var same := Compare(pkt, tab.a[i], name, out);
      if same {
        break;
      }
      i := i + 1;
    }
    FindIs(out, tab.a, name, i);
  }

  method PrintName(pkt: array<byte>, size: nat, pos: nat, name: Name, tab: LabelTable, ghost out: seq<byte>)
    returns (len: int)
    requires pos + size <= pkt.Length && pos + 2 <= pkt.Length
    requires |out| <= pos && pkt[..|out|] == out && Inside(tab.a, |out|)
    modifies pkt, tab
    ensures match DnsWire.PrintName(out, pos, size, name, old(tab.a))
            case None => len == -1 && pkt[..] == Spliced(old(pkt[..]), pos, PartOf(name, size))
            case Some((bytes, t)) => len == |bytes| <= (if size < 2 then 2 else size) && tab.a == t && Inside(t, pos + len)
                                     && pkt[..] == Spliced(old(pkt[..]), pos, bytes)
  {
    hide Fitting, Encode, Spliced;
    var i := FindEntry(pkt, tab, name, out);
    if i < |tab.a| {
      Write16(pkt, pos, PointerTo(tab.a[i].pos));
      return 2;
    }
    if |tab.a| < MAX_NAMES_IN_TABLE {
      tab.a := tab.a + [Remembered(pos, |name|)];
    }
    len := PrintLabels(pkt, size, pos, name);
  }

  // ----- Records -----

  /** The record type and the union member in use agree. */
  predicate Shaped(rr: RR) {
    && (rr.rtype == TYPE_A <==> rr.rdata.HostAddress?) && (rr.rdata.HostAddress? ==> |rr.rdata.ip| == 4)
    && (HasTarget(rr.rtype) <==> rr.rdata.Target?)
    && (rr.rtype == TYPE_SRV <==> rr.rdata.Service?)
  }

  /** What a printing function leaves when it started with `before` in the buffer, `size`
      bytes of room and the table `tab`, and was to reach `want`, or to give up after `trail` */
  ghost predicate Reached(want: Option<Printer>, trail: Trail, before: seq<byte>, pos: nat, size: int, len: int,
                          after: seq<byte>, tab: seq<Remembered>) {
    match want
    case None => len == -1 && GaveUp(after, before, trail)
    case Some(t) =>
      && 0 <= len <= size && |t.out| == pos + len <= |before| && t.size == size - len
      && after == Spliced(before, 0, t.out) && tab == t.tab && Inside(tab, pos + len)
  }

  method PrintHead(pkt: array<byte>, p: nat, rr: RR)
    requires p + 8 <= pkt.Length
    modifies pkt
    ensures pkt[..] == Spliced(old(pkt[..]), p, RecordHead(rr))
  {
    hide Spliced, Be16, Be32;
    Write16(pkt, p, rr.rtype);
    Write16(pkt, p + 2, rr.rclass);
    Write32(pkt, p + 4, rr.ttl);
    SpliceTwice(Spliced(old(pkt[..]), p, Be16(rr.rtype)), p + 2, Be16(rr.rclass), Be32(rr.ttl));
    SpliceTwice(old(pkt[..]), p, Be16(rr.rtype), Be16(rr.rclass) + Be32(rr.ttl));
  }

  method PrintAddress(pkt: array<byte>, p: nat, ip: seq<byte>)
    requires p + 2 + |ip| <= pkt.Length
    modifies pkt
    ensures pkt[..] == Spliced(old(pkt[..]), p, Be16(4) + ip)
  {
    Write16(pkt, p, 4);
    Copy(pkt, p + 2, ip);
    SpliceTwice(old(pkt[..]), p, Be16(4), ip);
  }

  /** A name behind its own length, which is written last */
  method PrintTarget(pkt: array<byte>, size: nat, p: nat, name: Name, tab: LabelTable) returns (len: int)
    requires size >= 4 && p + size <= pkt.Length && Inside(tab.a, p)
    modifies pkt, tab
    ensures match DnsWire.PrintName(old(pkt[..p]), p + 2, size - 2, name, old(tab.a))
            case None => len == -1 && pkt[..] == Spliced(old(pkt[..]), p + 2, PartOf(name, size - 2))
            case Some((bytes, t)) =>
              len == |bytes| <= size - 2 && tab.a == t && Inside(t, p + 2 + len)
              && pkt[..] == Spliced(old(pkt[..]), p, Be16(len) + bytes)
  {
    hide DnsWire.PrintName, Be16, PartOf;
    len := PrintName(pkt, size - 2, p + 2, name, tab, pkt[..p]);
    if len < 0 {
      return -1;
    }
    Write16(pkt, p, len);
    ghost var bytes := DnsWire.PrintName(old(pkt[..p]), p + 2, size - 2, name, old(tab.a)).value.0;
    SpliceBefore(old(pkt[..]), p, Be16(len), bytes);
  }

  method PrintService(pkt: array<byte>, size: nat, p: nat, srv: Rdata, tab: LabelTable) returns (len: int)
    requires srv.Service? && size >= 10 && p + size <= pkt.Length && Inside(tab.a, p)
    modifies pkt, tab
    ensures match DnsWire.PrintName(old(pkt[..p]), p + 8, size - 8, srv.target, old(tab.a))
            case None =>
              var numbers := Be16(srv.prio) + (Be16(srv.weight) + Be16(srv.port));
              len == -1 && pkt[..] == Spliced(old(pkt[..]), p + 2, numbers + PartOf(srv.target, size - 8))
            case Some((bytes, t)) =>
              len == |bytes| <= size - 8 && tab.a == t && Inside(t, p + 8 + len)
              && pkt[..] == Spliced(old(pkt[..]), p, ServiceHead(len, srv.prio, srv.weight, srv.port) + bytes)
  {
    hide DnsWire.PrintName, Be16, Spliced, ServiceHead, PartOf;
    PrintNumbers(pkt, p + 2, srv.prio, srv.weight, srv.port);
    ghost var numbers := Be16(srv.prio) + (Be16(srv.weight) + Be16(srv.port));
    SpliceBelow(old(pkt[..]), p + 2, numbers, p);
    len := PrintName(pkt, size - 8, p + 8, srv.target, tab, pkt[..p]);
    if len < 0 {
      SpliceTwice(old(pkt[..]), p + 2, numbers, PartOf(srv.target, size - 8));
      return -1;
    }
    ghost var bytes := DnsWire.PrintName(old(pkt[..p]), p + 8, size - 8, srv.target, old(tab.a)).value.0;
    SpliceTwice(old(pkt[..]), p + 2, numbers, bytes);
    Write16(pkt, p, len + 6);
    SpliceBefore(old(pkt[..]), p, Be16(len + 6), numbers + bytes);
    ServiceLaidOut(len, srv.prio, srv.weight, srv.port, bytes);
  }

  lemma ServiceLaidOut(len: nat, prio: nat, weight: nat, port: nat, name: seq<byte>)
    ensures Be16(len + 6) + ((Be16(prio) + (Be16(weight) + Be16(port))) + name) == ServiceHead(len, prio, weight, port) + name
  {
  }

  method PrintNumbers(pkt: array<byte>, p: nat, a: nat, b: nat, c: nat)
    requires p + 6 <= pkt.Length
    modifies pkt
    ensures pkt[..] == Spliced(old(pkt[..]), p, Be16(a) + (Be16(b) + Be16(c)))
  {
    hide Spliced, Be16;
    Write16(pkt, p, a);
    Write16(pkt, p + 2, b);
    Write16(pkt, p + 4, c);
    SpliceTwice(Spliced(old(pkt[..]), p, Be16(a)), p + 2, Be16(b), Be16(c));
    SpliceTwice(old(pkt[..]), p, Be16(a), Be16(b) + Be16(c));
  }

  /** The part of print_rr behind the fixed fields */
  method PrintData(pkt: array<byte>, size: nat, p: nat, rr: RR, tab: LabelTable) returns (len: int)
    requires Shaped(rr) && p + size <= pkt.Length && Inside(tab.a, p)
    modifies pkt, tab
    ensures Reached(PrintRdata(Printer(old(pkt[..p]), size, old(tab.a)), rr),
                    RdataTrail(Printer(old(pkt[..p]), size, old(tab.a)), rr),
                    old(pkt[..]), p, size, len, pkt[..], tab.a)
  {
    hide DnsWire.PrintName, Be16, ServiceHead, Spliced, PartOf, GaveUp;
    ghost var before := pkt[..];
    GaveUpNow(before, before[..p]);
    if rr.rtype == TYPE_A {
      if size < 6 {
        return -1;
      }
      PrintAddress(pkt, p, rr.rdata.ip);
      SplicePrefix(before, p, Be16(4) + rr.rdata.ip);
      return 6;
    } else if rr.rtype == TYPE_CNAME || rr.rtype == TYPE_NS || rr.rtype == TYPE_PTR {
      if size < 4 {
        return -1;
      }
      len := PrintTarget(pkt, size, p, rr.rdata.name, tab);
      if len < 0 {
        GaveUpWithGap(before, before[..p], PartOf(rr.rdata.name, size - 2));
        return -1;
      }
      ghost var bytes := DnsWire.PrintName(before[..p], p + 2, size - 2, rr.rdata.name, old(tab.a)).value.0;
      SplicePrefix(before, p, Be16(len) + bytes);
      len := len + 2;
    } else if rr.rtype == TYPE_SRV {
      if size < 10 {
        return -1;
      }
      ghost var srv := rr.rdata;
      len := PrintService(pkt, size, p, rr.rdata, tab);
      if len < 0 {
        ghost var numbers := Be16(srv.prio) + (Be16(srv.weight) + Be16(srv.port));
        GaveUpWithGap(before, before[..p], numbers + PartOf(srv.target, size - 8));
        return -1;
      }
      ghost var bytes := DnsWire.PrintName(before[..p], p + 8, size - 8, srv.target, old(tab.a)).value.0;
      SplicePrefix(before, p, ServiceHead(len, srv.prio, srv.weight, srv.port) + bytes);
      len := len + 8;
    } else {
      return -1;
    }
  }

  method PrintRr(pkt: array<byte>, size: nat, pos: nat, rr: RR, tab: LabelTable) returns (len: int)
    requires Shaped(rr) && pos + size + 2 <= pkt.Length && Inside(tab.a, pos)
    modifies pkt, tab
    ensures Reached(PrintRecord(Printer(old(pkt[..pos]), size, old(tab.a)), rr),
                    RecordTrail(Printer(old(pkt[..pos]), size, old(tab.a)), rr),
                    old(pkt[..]), pos, size, len, pkt[..], tab.a)
  {
    hide Spliced, DnsWire.PrintName, PrintRdata, RecordHead, RdataTrail, PartOf, GaveUp;
    ghost var before, out := pkt[..], pkt[..pos];
    len := PrintName(pkt, size, pos, rr.name, tab, out);
    if len < 0 {
      GaveUpBehind(before, out, PartOf(rr.name, size));
      return -1;
    }
    ghost var name := DnsWire.PrintName(out, pos, size, rr.name, old(tab.a)).value.0;
    if size - len < 8 {
      GaveUpBehind(before, out, name);
      return -1;
    }
    var p := pos + len;
    PrintHead(pkt, p, rr);
    SpliceTwice(before, pos, name, RecordHead(rr));
    SplicePrefix(before, pos, name + RecordHead(rr));
    p := p + 8;
    ghost var s := Printer(out + (name + RecordHead(rr)), size - len - 8, tab.a);
    assert pkt[..p] == s.out;
    var more := PrintData(pkt, size - len - 8, p, rr, tab);
    if more < 0 {
      GaveUpLater(before, s.out, pkt[..], RdataTrail(s, rr));
      return -1;
    }
    SpliceOver(before, s.out, PrintRdata(s, rr).value.out);
    len := len + 8 + more;
  }

  lemma SpliceOver<T>(s: seq<T>, a: seq<T>, b: seq<T>)
    requires |a| <= |b| <= |s|
    ensures Spliced(Spliced(s, 0, a), 0, b) == Spliced(s, 0, b)
  {
  }

  // ----- Packets -----

  /** The buffer holds what `s` has printed, and what it held before behind that. */
  ghost predicate Holds(pkt: seq<byte>, before: seq<byte>, s: Printer) {
    && |s.out| <= |pkt| == |before| && pkt == Spliced(before, 0, s.out)
    && s.size >= 0 && Inside(s.tab, |s.out|)
  }

  lemma HoldsNext(before: seq<byte>, pkt: seq<byte>, s: Printer, pkt': seq<byte>, t: Printer)
    requires Holds(pkt, before, s) && |s.out| <= |t.out| && Holds(pkt', pkt, t)
    ensures Holds(pkt', before, t)
  {
    SpliceOver(before, s.out, t.out);
  }

  lemma HeldThenGaveUp(before: seq<byte>, was: seq<byte>, s: Printer, after: seq<byte>, t: Trail)
    requires Holds(was, before, s) && s.out <= t.front && GaveUp(after, was, t)
    ensures GaveUp(after, before, t)
  {
    GaveUpLater(before, s.out, after, t);
  }

  /** One round of the loop over the queries: the bytes the name takes, or -1 */
  method PrintOneQuery(pkt: array<byte>, size: nat, p: nat, q: Query, tab: LabelTable) returns (len: int)
    requires p + size + 4 <= pkt.Length && Inside(tab.a, p)
    modifies pkt, tab
    ensures match DnsWire.PrintQuery(Printer(old(pkt[..p]), size, old(tab.a)), q)
            case None => len == -1 && GaveUp(pkt[..], old(pkt[..]), QueryTrail(Printer(old(pkt[..p]), size, old(tab.a)), q))
            case Some(t) => 0 <= len <= size && t.size == size - len && |t.out| == p + len + 4 <= pkt.Length && tab.a == t.tab
                            && Holds(pkt[..], old(pkt[..]), t)
  {
    hide DnsWire.PrintName, Be16, Spliced, Holds, Inside, PartOf, GaveUp;
    ghost var before, s := pkt[..], Printer(pkt[..p], size, tab.a);
    len := PrintName(pkt, size, p, q.name, tab, pkt[..p]);
    if len < 0 {
      GaveUpBehind(before, s.out, PartOf(q.name, size));
      return -1;
    }
    if size - len < 4 {
      GaveUpBehind(before, s.out, DnsWire.PrintName(s.out, p, size, q.name, s.tab).value.0);
      return -1;
    }
    ghost var name, tail := DnsWire.PrintName(s.out, p, size, q.name, s.tab).value.0, Be16(q.qtype) + Be16(q.qclass);
    PrintTypeAndClass(pkt, p + len, q.qtype, q.qclass);
    SpliceTwice(before, p, name, tail);
    HoldsAppended(before, p, name + tail, p + len, DnsWire.PrintQuery(s, q).value);
  }

  lemma HoldsAppended(before: seq<byte>, p: nat, e: seq<byte>, end: nat, t: Printer)
    requires p + |e| <= |before| && t.out == before[..p] + e && t.size >= 0 && Inside(t.tab, end) && end <= p + |e|
    ensures Holds(Spliced(before, p, e), before, t)
  {
  }

  method PrintTypeAndClass(pkt: array<byte>, p: nat, qtype: nat, qclass: nat)
    requires p + 4 <= pkt.Length
    modifies pkt
    ensures pkt[..] == Spliced(old(pkt[..]), p, Be16(qtype) + Be16(qclass))
  {
    hide Spliced, Be16;
    Write16(pkt, p, qtype);
    Write16(pkt, p + 2, qclass);
    SpliceTwice(old(pkt[..]), p, Be16(qtype), Be16(qclass));
  }

  /** The program's variables are those of the printer `s`. */
  ghost predicate Stands(pkt: seq<byte>, before: seq<byte>, p: int, size: int, tab: seq<Remembered>, s: Printer) {
    Holds(pkt, before, s) && p == |s.out| && size == s.size && tab == s.tab
  }

  lemma StandsPrefix(pkt: seq<byte>, before: seq<byte>, p: int, size: int, tab: seq<Remembered>, s: Printer)
    requires Stands(pkt, before, p, size, tab, s)
    ensures 0 <= p <= |pkt| && pkt[..p] == s.out
  {
  }

  method PrintAllQueries(pkt: array<byte>, size0: int, p0: int, qs: seq<Query>, tab: LabelTable,
                         ghost s: Printer, ghost before: seq<byte>)
    returns (p: int, size: int)
    requires p0 + size0 + 4 * |qs| + 2 <= pkt.Length && Stands(pkt[..], before, p0, size0, tab.a, s)
    modifies pkt, tab
    ensures match PrintQueries(s, qs)
            case None => p == -1 && GaveUp(pkt[..], before, QueriesTrail(s, qs))
            case Some(t) => p + size == p0 + size0 + 4 * |qs| && Stands(pkt[..], before, p, size, tab.a, t)
  {
    p, size := p0, size0;
    ghost var here := s;
    assert qs[0..] == qs;
    for i := 0 to |qs|
      invariant p + size == p0 + size0 + 4 * i
      invariant Stands(pkt[..], before, p, size, tab.a, here)
      invariant PrintQueries(s, qs) == PrintQueries(here, qs[i..])
      invariant PrintQueries(s, qs).None? ==> QueriesTrail(s, qs) == QueriesTrail(here, qs[i..])
    {
      StandsPrefix(pkt[..], before, p, size, tab.a, here);
      ghost var was := pkt[..];
      var len := PrintOneQuery(pkt, size, p, qs[i], tab);
      QueriesStep(here, qs, i);
      if len < 0 {
        HeldThenGaveUp(before, was, here, pkt[..], QueryTrail(here, qs[i]));
        return -1, size;
      }
      ghost var t := DnsWire.PrintQuery(here, qs[i]).value;
      HoldsNext(before, was, here, pkt[..], t);
      here := t;
      p := p + len;
      size := size - len;
      p := p + 4;
    }
  }

  lemma QueriesStep(s: Printer, qs: seq<Query>, i: nat)
    requires i < |qs|
    ensures PrintQueries(s, qs[i..]) ==
            match DnsWire.PrintQuery(s, qs[i]) { case None => None case Some(t) => PrintQueries(t, qs[i + 1..]) }
    ensures QueriesTrail(s, qs[i..]) ==
            match DnsWire.PrintQuery(s, qs[i]) { case None => QueryTrail(s, qs[i]) case Some(t) => QueriesTrail(t, qs[i + 1..]) }
  {
    assert qs[i..][0] == qs[i] && qs[i..][1..] == qs[i + 1..];
  }

  lemma RecordsStep(s: Printer, rrs: seq<RR>, i: nat)
    requires i < |rrs|
    ensures PrintRecords(s, rrs[i..]) ==
            match PrintRecord(s, rrs[i]) { case None => None case Some(t) => PrintRecords(t, rrs[i + 1..]) }
    ensures RecordsTrail(s, rrs[i..]) ==
            match PrintRecord(s, rrs[i]) { case None => RecordTrail(s, rrs[i]) case Some(t) => RecordsTrail(t, rrs[i + 1..]) }
  {
    assert rrs[i..][0] == rrs[i] && rrs[i..][1..] == rrs[i + 1..];
  }

  method PrintAllRecords(pkt: array<byte>, size0: int, p0: int, rrs: seq<RR>, tab: LabelTable,
                         ghost s: Printer, ghost before: seq<byte>)
    returns (p: int, size: int)
    requires p0 + size0 + 2 <= pkt.Length && Stands(pkt[..], before, p0, size0, tab.a, s)
    requires forall rr :: rr in rrs ==> Shaped(rr)
    modifies pkt, tab
    ensures match PrintRecords(s, rrs)
            case None => p == -1 && GaveUp(pkt[..], before, RecordsTrail(s, rrs))
            case Some(t) => p + size == p0 + size0 && Stands(pkt[..], before, p, size, tab.a, t)
  {
    p, size := p0, size0;
    ghost var here := s;
    assert rrs[0..] == rrs;
    for i := 0 to |rrs|
      invariant p + size == p0 + size0
      invariant Stands(pkt[..], before, p, size, tab.a, here)
      invariant PrintRecords(s, rrs) == PrintRecords(here, rrs[i..])
      invariant PrintRecords(s, rrs).None? ==> RecordsTrail(s, rrs) == RecordsTrail(here, rrs[i..])
    {
      StandsPrefix(pkt[..], before, p, size, tab.a, here);
      ghost var was := pkt[..];
      var len := PrintRr(pkt, size, p, rrs[i], tab);
      RecordsStep(here, rrs, i);
      if len < 0 {
        HeldThenGaveUp(before, was, here, pkt[..], RecordTrail(here, rrs[i]));
        return -1, size;
      }
      ghost var t := PrintRecord(here, rrs[i]).value;
      HoldsNext(before, was, here, pkt[..], t);
      here := t;
      p := p + len;
      size := size - len;
    }
  }

  method PrintAllSections(pkt: array<byte>, size0: int, p0: int, rec: Packet, tab: LabelTable,
                          ghost s: Printer, ghost before: seq<byte>)
    returns (p: int)
    requires p0 + size0 + 2 <= pkt.Length && Stands(pkt[..], before, p0, size0, tab.a, s)
    requires forall rr :: rr in rec.ans + rec.ns + rec.ar ==> Shaped(rr)
    modifies pkt, tab
    ensures match PrintSections(s, rec)
            case None => p == -1 && GaveUp(pkt[..], before, SectionsTrail(s, rec))
            case Some(t) => p == |t.out| && Holds(pkt[..], before, t)
  {
    var size;
    p, size := PrintAllRecords(pkt, size0, p0, rec.ans, tab, s, before);
    if p < 0 { return -1; }
    ghost var s2 := PrintRecords(s, rec.ans).value;
    p, size := PrintAllRecords(pkt, size, p, rec.ns, tab, s2, before);
    if p < 0 { return -1; }
    p, size := PrintAllRecords(pkt, size, p, rec.ar, tab, PrintRecords(s2, rec.ns).value, before);
  }

  method PrintFields(pkt: array<byte>, p: Packet)
    requires HEADER <= pkt.Length
    modifies pkt
    ensures pkt[..] == Spliced(old(pkt[..]), 0, PrintHeader(p))
  {
    PrintNumbers(pkt, 0, p.id, p.flags, |p.q|);
    PrintNumbers(pkt, 6, |p.ans|, |p.ns|, |p.ar|);
    ghost var front := Be16(p.id) + (Be16(p.flags) + Be16(|p.q|));
    ghost var back := Be16(|p.ans|) + (Be16(|p.ns|) + Be16(|p.ar|));
    SpliceTwice(old(pkt[..]), 0, front, back);
    assert front + back == PrintHeader(p);
  }

  /** print_packet. The four bytes of type and class of a query are not taken off the room,
      and a pointer to a remembered name is written before the room is tested: hence the
      buffer must be longer than the size it is announced with. */
  method PrintWholePacket(rec: Packet, pkt: array<byte>, size: int) returns (len: int)
    requires size + 4 * |rec.q| + 2 <= pkt.Length
    requires forall rr :: rr in rec.ans + rec.ns + rec.ar ==> Shaped(rr)
    modifies pkt
    ensures match PrintPacket(rec, size)
            case None => len == -1 && GaveUp(pkt[..], old(pkt[..]), PacketTrail(rec, size))
            case Some(t) => len == |t.out| <= pkt.Length && pkt[..] == t.out + old(pkt[len..])
  {
    hide PrintQueries, PrintRecords, PrintSections, PrintHeader, Inside, QueriesTrail, SectionsTrail, GaveUp;
    if size < HEADER {
      GaveUpNow(pkt[..], []);
      return -1;
    }
    var tab := new LabelTable();
    ghost var before := pkt[..];
    PrintFields(pkt, rec);
    ghost var s0 := Printer(PrintHeader(rec), size - HEADER, []);
    var p, left := PrintAllQueries(pkt, size - HEADER, HEADER, rec.q, tab, s0, before);
    if p < 0 {
      return -1;
    }
    len := PrintAllSections(pkt, left, p, rec, tab, PrintQueries(s0, rec.q).value, before);
  }

  // ----- pj_dns_make_query -----

  datatype Status = Done | Invalid | TooSmall

  /** What the size is tested against */
  function QueryRoom(name: Name): nat {
    HEADER + |name| + 4
  }

  lemma LastOfRest(n: Name)
    requires n != []
    ensures var k, rest := FirstLabel(n), AfterLabel(n);
            && |rest| == (if k < |n| then |n| - k - 1 else 0)
            && (rest == [] ==> (k < |n| <==> n[|n| - 1] == DOT)) && (rest != [] ==> rest[|rest| - 1] == n[|n| - 1])
  {
  }

  lemma {:induction false} EncodedLength(n: Name)
    ensures |Encode(n)| == if n == [] then 1 else if n[|n| - 1] == DOT then |n| + 1 else |n| + 2
    decreases |n|
  {
    hide FirstLabel, AfterLabel;
    if n != [] {
      var rest := AfterLabel(n);
      LastOfRest(n);
      EncodedLength(rest);
    }
  }

  /** The test lets through a buffer that the query does not fit exactly when it is one or
      two bytes short: one if the name is empty or ends in a dot, else two. */
  lemma RoomIsShort(id: nat, qtype: nat, name: Name, size: nat)
    ensures var short := if name == [] || name[|name| - 1] == DOT then 1 else 2;
            QueryRoom(name) <= size < |MakeQuery(id, qtype, name)| <==> QueryRoom(name) <= size < QueryRoom(name) + short
  {
    EncodedLength(name);
  }

  /** pj_dns_make_query. `size` is what the caller announces; the buffer must have room for
      the query itself. */
  method MakeQueryPacket(pkt: array<byte>, size: nat, id: nat, qtype: nat, name: Name) returns (status: Status, len: nat)
    requires HEADER + |Encode(name)| + 4 <= pkt.Length
    modifies pkt
    ensures status == (if qtype == 0 then Invalid else if size < QueryRoom(name) then TooSmall else Done)
    ensures if status == Done then len == |MakeQuery(id, qtype, name)| && pkt[..] == MakeQuery(id, qtype, name) + old(pkt[len..])
            else len == size && pkt[..] == old(pkt[..])
  {
    if qtype == 0 {
      return Invalid, size;
    }
    var d := HEADER + |name| + 4;
    if size < d {
      return TooSmall, size;
    }
    len := WriteQuery(pkt, HEADER, id, qtype, name);
    status := Done;
  }

  method WriteQuery(pkt: array<byte>, pos: nat, id: nat, qtype: nat, name: Name) returns (len: nat)
    requires pos == HEADER && pos + |Encode(name)| + 4 <= pkt.Length
    modifies pkt
    ensures len == |MakeQuery(id, qtype, name)| && pkt[..] == Spliced(old(pkt[..]), 0, MakeQuery(id, qtype, name))
  {
    PrintQueryHeader(pkt, id);
    len := PrintQuestion(pkt, pos, qtype, name);
    SpliceTwice(old(pkt[..]), 0, QueryHeader(id), Question(qtype, name));
  }

  function Question(qtype: nat, name: Name): (s: seq<byte>)
    ensures |s| == |Encode(name)| + 4
  {
    Encode(name) + (Be16(qtype) + Be16(CLASS_IN))
  }

  method PrintQuestion(pkt: array<byte>, pos: nat, qtype: nat, name: Name) returns (end: nat)
    requires pos + |Encode(name)| + 4 <= pkt.Length
    modifies pkt
    ensures end == pos + |Question(qtype, name)| && pkt[..] == Spliced(old(pkt[..]), pos, Question(qtype, name))
  {
    var p := PrintLabelsUnchecked(pkt, pos, name);
    PrintTypeAndClass(pkt, p, qtype, CLASS_IN);
    SpliceTwice(old(pkt[..]), pos, Encode(name), Be16(qtype) + Be16(CLASS_IN));
    end := p + 4;
  }

  method PrintQueryHeader(pkt: array<byte>, id: nat)
    requires HEADER <= pkt.Length
    modifies pkt
    ensures pkt[..] == Spliced(old(pkt[..]), 0, QueryHeader(id))
  {
    PrintNumbers(pkt, 0, id, 0x100, 1);
    PrintNumbers(pkt, 6, 0, 0, 0);
    ghost var front, back := Be16(id) + (Be16(0x100) + Be16(1)), Be16(0) + (Be16(0) + Be16(0));
    SpliceTwice(old(pkt[..]), 0, front, back);
    assert front + back == QueryHeader(id);
  }

  /** The loop over the labels without a test of the room; the position behind the name */
  method PrintLabelsUnchecked(pkt: array<byte>, pos: nat, name: Name) returns (p: nat)
    requires pos + |Encode(name)| <= pkt.Length
    modifies pkt
    ensures p == pos + |Encode(name)| && pkt[..] == Spliced(old(pkt[..]), pos, Encode(name))
  {
    hide Spliced, Encode, Labelled, FirstLabel;
    p := pos;
    var start := 0;
    ghost var done: seq<byte> := [];
    SpliceNothing(pkt[..], pos);
    assert name[start..] == name;
    while start != |name|
      invariant 0 <= start <= |name| && p == pos + |done| && |done| < |Encode(name)|
      invariant Encode(name) == done + Encode(name[start..])
      invariant pkt[..] == Spliced(old(pkt[..]), pos, done)
    {
      var end := EndOfLabel(name, start);
      LabelDone(name, start, end, done);
      PrintLabel(pkt, p, name[start..end], old(pkt[..]), pos, done);
      p := p + 1 + (end - start);
      done := done + Labelled(name[start..end]);
      start := if end != |name| && name[end] == DOT then end + 1 else end;
    }
    AllDone(name, done);
    PrintEnd(pkt, p, old(pkt[..]), pos, done);
    p := p + 1;
  }
}
