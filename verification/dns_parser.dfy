/** The parsing functions of dns.c as they run: pointers walk over the packet, names are
    copied into buffers that were allocated after a first pass. */
module DnsParser {
  import opened Sequences
  import opened Bytes
  import opened DnsPacket
  import opened DnsNames
  import opened DnsWire

  // ----- Names -----

  function Plus(parsed: nat, len: nat, r: Result<(nat, nat)>): Result<(nat, nat)> {
    match r
    case Err(e) => Err(e)
    case Ok((a, b)) => Ok((parsed + a, len + b))
  }

  /** What one round of the loop makes of it */
  lemma NameLenRound(m: Memory, p: nat, depth: nat)
    requires depth <= MAX_HOPS
    ensures var b, r, max := Peek(m, p), NameLen(m, p, depth), |m.bytes|;
            if b == 0 then r == Ok((1, 0))
            else if b >= COMPRESSED then
              var offset := Peek16(m, p) - 256 * COMPRESSED;
              if offset >= max then r == Err(BadPointer)
              else r == match NameLen(m, offset, depth + 1) { case Err(e) => Err(e) case Ok((_, len)) => Ok((2, len)) }
            else if b > max then r == Err(BadPointer)
            else if p + b + 1 >= max then r == Err(BadSize)
            else r == Plus(b + 1, b + (if Peek(m, p + b + 1) != 0 then 1 else 0), NameLen(m, p + b + 1, depth))
  {
  }

  lemma TooDeep(m: Memory, p: nat, depth: nat)
    requires depth == MAX_HOPS + 1
    ensures NameLen(m, p, depth) == Err(BadPointer)
  {
  }

  /** get_name_len: the bytes parsed and the length of the name */
  method GetNameLen(depth: nat, m: Memory, start: nat) returns (r: Result<(nat, nat)>)
    requires depth <= MAX_HOPS + 1
    ensures r == NameLen(m, start, depth)
    decreases MAX_HOPS + 1 - depth
  {
    hide NameLen;
    if depth > MAX_HOPS {
      TooDeep(m, start, depth);
      return Err(BadPointer);
    }
    var max := |m.bytes|;
    var parsed: nat, len: nat, p: nat := 0, 0, start;
    while Peek(m, p) != 0
      invariant NameLen(m, start, depth) == Plus(parsed, len, NameLen(m, p, depth))
      decreases Left(m, p)
    {
      NameLenRound(m, p, depth);
      if Peek(m, p) >= COMPRESSED {
        var offset := Peek16(m, p) - 256 * COMPRESSED;
        if offset >= max {
          return Err(BadPointer);
        }
        r := GetNameLen(depth + 1, m, offset);
        return match r case Err(e) => Err(e) case Ok((_, n)) => Ok((parsed + 2, len + n));
      } else {
        var labelLen: nat := Peek(m, p);
        if labelLen > max {
          return Err(BadPointer);
        }
        p := p + (labelLen + 1);
        parsed := parsed + (labelLen + 1);
        len := len + labelLen + (if Peek(m, p) != 0 then 1 else 0);
        if p >= max {
          return Err(BadSize);
        }
      }
    }
    NameLenRound(m, p, depth);
    r := Ok((parsed + 1, len));
  }

  /** A pj_str_t that is filled: its buffer, and how much of it is in use. */
  class NameBuffer {
    const ptr: array<byte>
    var slen: nat

    constructor (size: nat)
      ensures fresh(ptr) && ptr.Length == size && slen == 0
    {
      ptr := new byte[size];
      slen := 0;
    }

    method Append(text: seq<byte>)
      requires slen + |text| <= ptr.Length
      modifies this, ptr
      ensures slen == old(slen) + |text| && ptr[..slen] == old(ptr[..slen]) + text
    {
      for i := 0 to |text|
        invariant slen == old(slen) + i && ptr[..slen] == old(ptr[..slen]) + text[..i]
      {
        ptr[slen] := text[i];
        slen := slen + 1;
      }
    }
  }

  function NameOf(m: Memory, p: nat, depth: nat): (n: Name)
    requires depth <= MAX_HOPS + 1 && NameLen(m, p, depth).Ok?
    ensures GetName(m, p, depth) == Ok(n) && |n| == NameLen(m, p, depth).value.1
  {
    PassesAgree(m, p, depth);
    GetName(m, p, depth).value
  }

  /** The first label of a name at `p`, and the dot behind it unless it is the last one */
  function LabelText(m: Memory, p: nat): (text: Name) {
    PeekMany(m, p + 1, Peek(m, p)) + (if Peek(m, p + Peek(m, p) + 1) != 0 then [DOT] else [])
  }

  lemma NameOfLabel(m: Memory, p: nat, depth: nat)
    requires depth <= MAX_HOPS && NameLen(m, p, depth).Ok? && 0 < Peek(m, p) < COMPRESSED
    ensures var next := p + Peek(m, p) + 1;
            && NameLen(m, next, depth).Ok? && next < |m.bytes|
            && NameOf(m, p, depth) == LabelText(m, p) + NameOf(m, next, depth)
  {
  }

  lemma NameOfPointer(m: Memory, p: nat, depth: nat)
    requires depth <= MAX_HOPS && NameLen(m, p, depth).Ok? && Peek(m, p) >= COMPRESSED
    ensures var offset := Peek16(m, p) - 256 * COMPRESSED;
            && 0 <= offset && depth < MAX_HOPS && NameLen(m, offset, depth + 1).Ok?
            && NameOf(m, p, depth) == NameOf(m, offset, depth + 1)
  {
  }

  lemma NameOfEnd(m: Memory, p: nat, depth: nat)
    requires depth <= MAX_HOPS && NameLen(m, p, depth).Ok? && Peek(m, p) == 0
    ensures NameOf(m, p, depth) == []
  {
  }

  method CopyLabel(m: Memory, p: nat, name: NameBuffer)
    requires name.slen + |LabelText(m, p)| <= name.ptr.Length
    modifies name, name.ptr
    ensures name.slen == old(name.slen) + |LabelText(m, p)|
    ensures name.ptr[..name.slen] == old(name.ptr[..name.slen]) + LabelText(m, p)
  {
    var labelLen := Peek(m, p);
    name.Append(PeekMany(m, p + 1, labelLen));
    if Peek(m, p + labelLen + 1) != 0 {
      name.Append([DOT]);
    }
  }

  /** get_name, on a name that get_name_len has accepted: it succeeds, and appends the name
      to a buffer with room for just as many bytes as get_name_len counted. */
  method CopyName(depth: nat, m: Memory, start: nat, name: NameBuffer)
    requires depth <= MAX_HOPS && NameLen(m, start, depth).Ok?
    requires name.slen + |NameOf(m, start, depth)| <= name.ptr.Length
    modifies name, name.ptr
    ensures name.slen == old(name.slen) + |NameOf(m, start, depth)|
    ensures name.ptr[..name.slen] == old(name.ptr[..name.slen]) + NameOf(m, start, depth)
    decreases MAX_HOPS + 1 - depth
  {
    hide NameLen, GetName, NameOf, LabelText, Peek, Peek16;
    var p: nat := start;
    ghost var done: Name := [];
    ghost var whole, rest := NameOf(m, p, depth), NameOf(m, p, depth);
    while Peek(m, p) != 0
      invariant NameLen(m, p, depth).Ok? && rest == NameOf(m, p, depth)
      invariant whole == done + rest
      invariant name.slen == old(name.slen) + |done| <= name.ptr.Length
      invariant name.ptr[..name.slen] == old(name.ptr[..name.slen]) + done
      decreases Left(m, p)
    {
      if Peek(m, p) >= COMPRESSED {
        NameOfPointer(m, p, depth);
        CopyName(depth + 1, m, Peek16(m, p) - 256 * COMPRESSED, name);
        Regrouped(old(name.ptr[..name.slen]), done, rest);
        return;
      }
      NameOfLabel(m, p, depth);
      CopyLabel(m, p, name);
      Regrouped(old(name.ptr[..name.slen]), done, LabelText(m, p));
      Regrouped(done, LabelText(m, p), NameOf(m, p + Peek(m, p) + 1, depth));
      done := done + LabelText(m, p);
      p := p + Peek(m, p) + 1;
      rest := NameOf(m, p, depth);
    }
    NameOfEnd(m, p, depth);
    assert done + [] == done;
  }

  /** The first pass, a buffer of the size it found, `spare` bytes more, and the second pass */
  method ParseName(m: Memory, start: nat, spare: nat) returns (r: Result<(Name, nat)>)
    ensures r == DnsWire.ParseName(m, start)
  {
    var counted := GetNameLen(0, m, start);
    if counted.Err? {
      return Err(counted.error);
    }
    var (parsed, len) := counted.value;
    PassesAgree(m, start, 0);
    var name := new NameBuffer(len + spare);
    CopyName(0, m, start, name);
    assert name.ptr[..name.slen] == NameOf(m, start, 0);
    r := Ok((name.ptr[..name.slen], parsed));
  }

  // ----- Records -----

  method ParseQuery(m: Memory, start: nat) returns (r: Result<(Query, nat)>)
    ensures r == DnsWire.ParseQuery(m, start)
  {
    var named := ParseName(m, start, 4);
    if named.Err? {
      return Err(named.error);
    }
    var p: nat := start + named.value.1;
    var qtype := Peek16(m, p);
    p := p + 2;
    var qclass := Peek16(m, p);
    p := p + 2;
    r := Ok((Query(named.value.0, qtype, qclass), p));
  }

  method ParseService(m: Memory, start: nat) returns (r: Result<(Rdata, nat)>)
    ensures r == ParseRdata(m, start, TYPE_SRV, 0)
  {
    var p: nat := start;
    var prio := Peek16(m, p);
    p := p + 2;
    var weight := Peek16(m, p);
    p := p + 2;
    var port := Peek16(m, p);
    p := p + 2;
    var target := ParseName(m, p, 0);
    if target.Err? {
      return Err(target.error);
    }
    r := Ok((Service(prio, weight, port, target.value.0), 6 + target.value.1));
  }

  /** The data of a record, and the bytes it takes */
  method ParseData(m: Memory, p: nat, rtype: nat, rdlength: nat) returns (r: Result<(Rdata, nat)>)
    ensures r == ParseRdata(m, p, rtype, rdlength)
  {
    if rtype == TYPE_A {
      r := Ok((HostAddress(PeekMany(m, p, 4)), 4));
    } else if rtype == TYPE_AAAA {
      r := Ok((Address6(PeekMany(m, p, 16)), 16));
    } else if rtype == TYPE_CNAME || rtype == TYPE_NS || rtype == TYPE_PTR {
      var target := ParseName(m, p, 0);
      if target.Err? {
        return Err(target.error);
      }
      r := Ok((Target(target.value.0), target.value.1));
    } else if rtype == TYPE_SRV {
      r := ParseService(m, p);
    } else {
      r := Ok((Raw(PeekMany(m, p, rdlength)), rdlength));
    }
  }

  method ParseRecord(m: Memory, start: nat) returns (r: Result<(RR, nat)>)
    ensures r == DnsWire.ParseRecord(m, start)
  {
    var max := |m.bytes|;
    var named := ParseName(m, start, 4);
    if named.Err? {
      return Err(named.error);
    }
    var p: nat := start + named.value.1;
    if p + 10 > max {
      return Err(BadSize);
    }
    var rtype := Peek16(m, p);
    p := p + 2;
    var rclass := Peek16(m, p);
    p := p + 2;
    if rclass != 1 {
      return Err(BadClass);
    }
    var ttl := Peek32(m, p);
    p := p + 4;
    var rdlength := Peek16(m, p);
    p := p + 2;
    if p + rdlength > max {
      return Err(BadSize);
    }
    var data := ParseData(m, p, rtype, rdlength);
    if data.Err? {
      return Err(data.error);
    }
    r := Ok((RR(named.value.0, rtype, rclass, ttl, data.value.0), p + data.value.1));
  }

  // ----- The packet -----

  function Joined<T>(front: seq<T>, r: Result<(seq<T>, nat)>): Result<(seq<T>, nat)> {
    match r
    case Err(e) => Err(e)
    case Ok((back, end)) => Ok((front + back, end))
  }

  lemma JoinedTwice<T>(front: seq<T>, x: T, r: Result<(seq<T>, nat)>)
    ensures Joined(front, Joined([x], r)) == Joined(front + [x], r)
  {
    if r.Ok? {
      assert front + ([x] + r.value.0) == (front + [x]) + r.value.0;
    }
  }

  method ParseQueries(m: Memory, start: nat, count: nat) returns (r: Result<(seq<Query>, nat)>)
    ensures r == DnsWire.ParseQueries(m, start, count)
  {
    var p: nat, q: seq<Query> := start, [];
    JoinedNothing(DnsWire.ParseQueries(m, start, count));
    for i := 0 to count
      invariant DnsWire.ParseQueries(m, start, count) == Joined(q, DnsWire.ParseQueries(m, p, count - i))
    {
      var one := ParseQuery(m, p);
      if one.Err? {
        return Err(one.error);
      }
      JoinedTwice(q, one.value.0, DnsWire.ParseQueries(m, one.value.1, count - i - 1));
      q := q + [one.value.0];
      p := one.value.1;
    }
    JoinedNothing(Ok((q, p)));
    r := Ok((q, p));
  }

  lemma JoinedNothing<T>(r: Result<(seq<T>, nat)>)
    ensures Joined([], r) == r
    ensures r.Ok? ==> Joined(r.value.0, Ok(([], r.value.1))) == r
  {
    if r.Ok? {
      var none: seq<T> := [];
      assert none + r.value.0 == r.value.0 && r.value.0 + none == r.value.0;
    }
  }

  method ParseRecords(m: Memory, start: nat, count: nat) returns (r: Result<(seq<RR>, nat)>)
    ensures r == DnsWire.ParseRecords(m, start, count)
  {
    var p: nat, rrs: seq<RR> := start, [];
    JoinedNothing(DnsWire.ParseRecords(m, start, count));
    for i := 0 to count
      invariant DnsWire.ParseRecords(m, start, count) == Joined(rrs, DnsWire.ParseRecords(m, p, count - i))
    {
      var one := ParseRecord(m, p);
      if one.Err? {
        return Err(one.error);
      }
      JoinedTwice(rrs, one.value.0, DnsWire.ParseRecords(m, one.value.1, count - i - 1));
      rrs := rrs + [one.value.0];
      p := one.value.1;
    }
    JoinedNothing(Ok((rrs, p)));
    r := Ok((rrs, p));
  }

  /** pj_dns_parse_packet */
  method ParsePacket(m: Memory) returns (r: Result<Packet>)
    ensures r == DnsWire.ParsePacket(m)
  {
    if |m.bytes| == 0 {
      return Err(NoPacket);
    }
    if |m.bytes| < HEADER {
      return Err(BadSize);
    }
    var id, flags := Peek16(m, 0), Peek16(m, 2);
    var start: nat := HEADER;
    var q := ParseQueries(m, start, Peek16(m, 4));
    if q.Err? {
      return Err(q.error);
    }
    var ans := ParseRecords(m, q.value.1, Peek16(m, 6));
    if ans.Err? {
      return Err(ans.error);
    }
    var ns := ParseRecords(m, ans.value.1, Peek16(m, 8));
    if ns.Err? {
      return Err(ns.error);
    }
    var ar := ParseRecords(m, ns.value.1, Peek16(m, 10));
    if ar.Err? {
      return Err(ar.error);
    }
    r := Ok(Packet(id, flags, q.value.0, ans.value.0, ns.value.0, ar.value.0));
  }
}
