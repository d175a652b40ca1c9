/** DNS packets on the wire: the printer of dns_server.c with its table of names already
    printed, the parser of dns.c, and what the parser makes of what the printer wrote. */
module DnsWire {
  import opened Bytes
  import opened DnsPacket
  import opened Wrappers
  import opened DnsNames

  const MAX_NAMES_IN_TABLE := 32
  const HEADER := 12
  const POINTER_LIMIT := 0x4000
  const UINT16 := 0x1_0000
  const UINT32 := 0x1_0000_0000

  function Be16(v: nat): (s: seq<byte>)
    ensures |s| == 2
  {
    [(v / 256) % 256, v % 256]
  }

  function Be32(v: nat): (s: seq<byte>)
    ensures |s| == 4
  {
    Be16(v / UINT16) + Be16(v % UINT16)
  }

  // ----- Printing -----

  /** A remembered name: where it was printed, and its length in dotted form. What it is
      compared by are the bytes behind its first length byte. */
  datatype Remembered = Remembered(pos: nat, len: nat)

  predicate Matches(out: seq<byte>, e: Remembered, n: Name) {
    e.len == |n| && e.pos + 1 + e.len <= |out| && out[e.pos + 1..e.pos + 1 + e.len] == n
  }

  /** The first entry that matches, or |tab|. */
  function Find(out: seq<byte>, tab: seq<Remembered>, n: Name): (i: nat)
    ensures i <= |tab|
    ensures i < |tab| ==> Matches(out, tab[i], n)
    ensures forall j :: 0 <= j < i ==> !Matches(out, tab[j], n)
  {
    if tab == [] || Matches(out, tab[0], n) then 0 else 1 + Find(out, tab[1..], n)
  }

  /** A pointer in 16 bits: two set bits, and the lower 14 bits of the position. */
  function PointerTo(pos: nat): nat {
    0xc000 + pos % POINTER_LIMIT
  }

  /** print_name at `pos` into `size` bytes, after `out`: the bytes and the new table. A hit
      takes two bytes whether there is room or not. */
  function PrintName(out: seq<byte>, pos: nat, size: int, n: Name, tab: seq<Remembered>): Option<(seq<byte>, seq<Remembered>)> {
    var i := Find(out, tab, n);
    if i < |tab| then Some((Be16(PointerTo(tab[i].pos)), tab))
    else if |Encode(n)| > size then None
    else Some((Encode(n), if |tab| < MAX_NAMES_IN_TABLE then tab + [Remembered(pos, |n|)] else tab))
  }

  /** What has been printed, the room the printer believes is left, and the table. */
  datatype Printer = Printer(out: seq<byte>, size: int, tab: seq<Remembered>)

  function PrintQuery(s: Printer, q: Query): Option<Printer> {
    match PrintName(s.out, |s.out|, s.size, q.name, s.tab)
    case None => None
    case Some((name, tab)) =>
      var size := s.size - |name|;
      // The four bytes are not taken off the room.
      if size < 4 then None else Some(Printer(s.out + (name + (Be16(q.qtype) + Be16(q.qclass))), size, tab))
  }

  function RecordHead(rr: RR): (h: seq<byte>)
    ensures |h| == 8
  {
    Be16(rr.rtype) + (Be16(rr.rclass) + Be32(rr.ttl))
  }

  function PrintRecord(s: Printer, rr: RR): Option<Printer> {
    match PrintName(s.out, |s.out|, s.size, rr.name, s.tab)
    case None => None
    case Some((name, tab)) =>
      var size := s.size - |name|;
      if size < 8 then None
      else PrintRdata(Printer(s.out + (name + RecordHead(rr)), size - 8, tab), rr)
  }

  function ServiceHead(len: nat, prio: nat, weight: nat, port: nat): (h: seq<byte>)
    ensures |h| == 8
  {
    Be16(len + 6) + (Be16(prio) + (Be16(weight) + Be16(port)))
  }

  function PrintRdata(s: Printer, rr: RR): Option<Printer> {
    match rr.rdata
    case HostAddress(ip) =>
      if rr.rtype != TYPE_A || s.size < 6 then None else Some(Printer(s.out + (Be16(4) + ip), s.size - 6, s.tab))
    case Target(target) =>
      if !HasTarget(rr.rtype) || s.size < 4 then None
      else (
        match PrintName(s.out, |s.out| + 2, s.size - 2, target, s.tab)
        case None => None
        case Some((name, tab)) => Some(Printer(s.out + (Be16(|name|) + name), s.size - 2 - |name|, tab)))
    case Service(prio, weight, port, target) =>
      if rr.rtype != TYPE_SRV || s.size < 10 then None
      else (
        match PrintName(s.out, |s.out| + 8, s.size - 8, target, s.tab)
        case None => None
        case Some((name, tab)) =>
          Some(Printer(s.out + (ServiceHead(|name|, prio, weight, port) + name), s.size - 8 - |name|, tab)))
    case _ => None
  }

  function PrintQueries(s: Printer, qs: seq<Query>): Option<Printer>
    decreases |qs|
  {
    if qs == [] then Some(s)
    else
      match PrintQuery(s, qs[0])
      case None => None
      case Some(t) => PrintQueries(t, qs[1..])
  }

  function PrintRecords(s: Printer, rrs: seq<RR>): Option<Printer>
    decreases |rrs|
  {
    if rrs == [] then Some(s)
    else
      match PrintRecord(s, rrs[0])
      case None => None
      case Some(t) => PrintRecords(t, rrs[1..])
  }

  function PrintHeader(p: Packet): (h: seq<byte>)
    ensures |h| == HEADER
  {
    Be16(p.id) + Be16(p.flags) + Be16(|p.q|) + Be16(|p.ans|) + Be16(|p.ns|) + Be16(|p.ar|)
  }

  function PrintPacket(p: Packet, size: int): Option<Printer> {
    if size < HEADER then None
    else
      match PrintQueries(Printer(PrintHeader(p), size - HEADER, []), p.q)
      case None => None
      case Some(s) => PrintSections(s, p)
  }

  function PrintSections(s: Printer, p: Packet): Option<Printer> {
    match PrintRecords(s, p.ans)
    case None => None
    case Some(s2) =>
      match PrintRecords(s2, p.ns)
      case None => None
      case Some(s3) => PrintRecords(s3, p.ar)
  }

  // ----- Parsing -----

  function Peek32(m: Memory, i: nat): nat {
    UINT16 * Peek16(m, i) + Peek16(m, i + 2)
  }

  /** The two passes over a name: the name, and the bytes it takes in the packet. */
  function ParseName(m: Memory, p: nat): Result<(Name, nat)> {
    match NameLen(m, p, 0)
    case Err(e) => Err(e)
    case Ok((parsed, _)) =>
      match GetName(m, p, 0)
      case Err(e) => Err(e)
      case Ok(name) => Ok((name, parsed))
  }

  /** parse_query from `p`: the query, and where the next record starts */
  function ParseQuery(m: Memory, p: nat): Result<(Query, nat)> {
    match ParseName(m, p)
    case Err(e) => Err(e)
    case Ok((name, parsed)) =>
      var t := p + parsed;
      Ok((Query(name, Peek16(m, t), Peek16(m, t + 2)), t + 4))
  }

  function ParseRdata(m: Memory, p: nat, rtype: nat, rdlength: nat): Result<(Rdata, nat)> {
    if rtype == TYPE_A then Ok((HostAddress(PeekMany(m, p, 4)), 4))
    else if rtype == TYPE_AAAA then Ok((Address6(PeekMany(m, p, 16)), 16))
    else if HasTarget(rtype) then
      match ParseName(m, p)
      case Err(e) => Err(e)
      case Ok((name, parsed)) => Ok((Target(name), parsed))
    else if rtype == TYPE_SRV then
      match ParseName(m, p + 6)
      case Err(e) => Err(e)
      case Ok((name, parsed)) => Ok((Service(Peek16(m, p), Peek16(m, p + 2), Peek16(m, p + 4), name), 6 + parsed))
    else Ok((Raw(PeekMany(m, p, rdlength)), rdlength))
  }

  /** parse_rr */
  function ParseRecord(m: Memory, p: nat): Result<(RR, nat)> {
    match ParseName(m, p)
    case Err(e) => Err(e)
    case Ok((name, parsed)) =>
      var t := p + parsed;
      if t + 10 > |m.bytes| then Err(BadSize)
      else if Peek16(m, t + 2) != CLASS_IN then Err(BadClass)
      else if t + 10 + Peek16(m, t + 8) > |m.bytes| then Err(BadSize)
      else
        match ParseRdata(m, t + 10, Peek16(m, t), Peek16(m, t + 8))
        case Err(e) => Err(e)
        case Ok((rdata, len)) =>
          Ok((RR(name, Peek16(m, t), CLASS_IN, Peek32(m, t + 4), rdata), t + 10 + len))
  }

  function ParseQueries(m: Memory, p: nat, n: nat): Result<(seq<Query>, nat)>
    decreases n
  {
    if n == 0 then Ok(([], p))
    else
      match ParseQuery(m, p)
      case Err(e) => Err(e)
      case Ok((q, next)) =>
        match ParseQueries(m, next, n - 1)
        case Err(e) => Err(e)
        case Ok((rest, end)) => Ok(([q] + rest, end))
  }

  function ParseRecords(m: Memory, p: nat, n: nat): Result<(seq<RR>, nat)>
    decreases n
  {
    if n == 0 then Ok(([], p))
    else
      match ParseRecord(m, p)
      case Err(e) => Err(e)
      case Ok((rr, next)) =>
        match ParseRecords(m, next, n - 1)
        case Err(e) => Err(e)
        case Ok((rest, end)) => Ok(([rr] + rest, end))
  }

  /** pj_dns_parse_packet */
  function ParsePacket(m: Memory): Result<Packet> {
    if m.bytes == [] then Err(NoPacket)
    else if |m.bytes| < HEADER then Err(BadSize)
    else
      match ParseQueries(m, HEADER, Peek16(m, 4))
      case Err(e) => Err(e)
      case Ok((q, p1)) =>
        match ParseRecords(m, p1, Peek16(m, 6))
        case Err(e) => Err(e)
        case Ok((ans, p2)) =>
          match ParseRecords(m, p2, Peek16(m, 8))
          case Err(e) => Err(e)
          case Ok((ns, p3)) =>
            match ParseRecords(m, p3, Peek16(m, 10))
            case Err(e) => Err(e)
            case Ok((ar, _)) => Ok(Packet(Peek16(m, 0), Peek16(m, 2), q, ans, ns, ar))
  }

  // ----- pj_dns_make_query -----

  function QueryHeader(id: nat): (h: seq<byte>)
    ensures |h| == HEADER
  {
    Be16(id) + Be16(0x100) + Be16(1) + Be16(0) + Be16(0) + Be16(0)
  }

  /** A query packet with one question and recursion desired */
  function MakeQuery(id: nat, qtype: nat, name: Name): seq<byte> {
    QueryHeader(id) + (Encode(name) + (Be16(qtype) + Be16(CLASS_IN)))
  }

  // ----- What the names in the table stand for -----

  /** What a remembered name is compared by: its encoding without the first length byte. For
      a name of one label that is the name; in any other name each dot is replaced by the
      length of the label behind it. */
  function Alias(n: Name): (a: Name)
    ensures |a| == |n|
  {
    Encode(n)[1..1 + |n|]
  }

  /** What the remembered names are compared by */
  function Aliases(names: seq<Name>): (a: seq<Name>)
    ensures |a| == |names| && forall i :: 0 <= i < |names| ==> a[i] == Alias(names[i])
  {
    seq(|names|, i requires 0 <= i < |names| => Alias(names[i]))
  }

  /** The first index of `n`, or |aliases|. */
  function IndexOf(aliases: seq<Name>, n: Name): (i: nat)
    ensures i <= |aliases|
    ensures i < |aliases| ==> aliases[i] == n
    ensures forall j :: 0 <= j < i ==> aliases[j] != n
  {
    if aliases == [] || aliases[0] == n then 0 else 1 + IndexOf(aliases[1..], n)
  }

  /** The name the receiver will read for `n`, and the names remembered afterwards. */
  function Resolve(names: seq<Name>, n: Name): (Name, seq<Name>) {
    var i := IndexOf(Aliases(names), n);
    if i < |names| then (names[i], names)
    else (n, if |names| < MAX_NAMES_IN_TABLE then names + [n] else names)
  }

  function ResolveQueries(names: seq<Name>, qs: seq<Query>): (seq<Query>, seq<Name>)
    decreases |qs|
  {
    if qs == [] then ([], names)
    else
      var (n, t) := Resolve(names, qs[0].name);
      var (rest, t') := ResolveQueries(t, qs[1..]);
      ([qs[0].(name := n)] + rest, t')
  }

  function ResolveRecord(names: seq<Name>, rr: RR): (RR, seq<Name>) {
    var (n, t) := Resolve(names, rr.name);
    match rr.rdata
    case Target(target) =>
      var (g, t') := Resolve(t, target);
      (rr.(name := n, rdata := Target(g)), t')
    case Service(prio, weight, port, target) =>
      var (g, t') := Resolve(t, target);
      (rr.(name := n, rdata := Service(prio, weight, port, g)), t')
    case _ => (rr.(name := n), t)
  }

  function ResolveRecords(names: seq<Name>, rrs: seq<RR>): (seq<RR>, seq<Name>)
    decreases |rrs|
  {
    if rrs == [] then ([], names)
    else
      var (rr, t) := ResolveRecord(names, rrs[0]);
      var (rest, t') := ResolveRecords(t, rrs[1..]);
      ([rr] + rest, t')
  }

  /** The packet as its receiver will read it */
  function Resolved(p: Packet): Packet {
    var (q, t0) := ResolveQueries([], p.q);
    var (ans, t1) := ResolveRecords(t0, p.ans);
    var (ns, t2) := ResolveRecords(t1, p.ns);
    var (ar, _) := ResolveRecords(t2, p.ar);
    Packet(p.id, p.flags, q, ans, ns, ar)
  }

  // ----- What can be printed -----

  predicate QueryFits(q: Query) {
    WellFormed(q.name) && q.qtype < UINT16 && q.qclass < UINT16
  }

  predicate RecordFits(rr: RR) {
    && WellFormed(rr.name) && rr.rclass == CLASS_IN && rr.ttl < UINT32
    && match rr.rdata
       case HostAddress(ip) => rr.rtype == TYPE_A && |ip| == 4
       case Target(target) => HasTarget(rr.rtype) && WellFormed(target)
       case Service(prio, weight, port, target) =>
         rr.rtype == TYPE_SRV && prio < UINT16 && weight < UINT16 && port < UINT16 && WellFormed(target)
       case _ => false
  }

  predicate Fits(p: Packet) {
    && p.id < UINT16 && p.flags < UINT16
    && |p.q| < UINT16 && |p.ans| < UINT16 && |p.ns| < UINT16 && |p.ar| < UINT16
    && (forall q :: q in p.q ==> QueryFits(q))
    && (forall rr :: rr in p.ans ==> RecordFits(rr))
    && (forall rr :: rr in p.ns ==> RecordFits(rr))
    && (forall rr :: rr in p.ar ==> RecordFits(rr))
  }
}
