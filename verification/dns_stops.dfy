/** Where the packet printer of dns_server.c gives up, what it has written by then, and how much
    room a packet takes: all of it told from the packet, before anything is printed. */
module DnsStops {
  import opened Buffers
  import opened Bytes
  import opened DnsPacket
  import opened Wrappers
  import opened DnsNames
  import opened DnsWire

  // ----- What is left when the printer gives up -----

  /** How many bytes of labels are written into `room` before the next one, or the zero byte
      behind the last, does not fit */
  function Fitting(n: Name, room: int): (k: nat)
    ensures k < |Encode(n)| && (room >= 0 ==> k <= room)
    decreases |n|
  {
    if n == [] then 0
    else
      var k := FirstLabel(n);
      if room < k + 1 then 0 else k + 1 + Fitting(AfterLabel(n), room - (k + 1))
  }

  function PartOf(n: Name, room: int): (s: seq<byte>)
    ensures room >= 0 ==> |s| <= room
  {
    Encode(n)[..Fitting(n, room)]
  }

  /** The bytes from the start of the buffer and, behind the two bytes of a length that is
      written last, those of a record that was not finished */
  datatype Trail = Trail(front: seq<byte>, back: seq<byte>)

  /** How far a trail goes: with `b` bytes behind a gap, or none */
  function Reach(f: nat, b: nat, gap: nat): nat {
    if b == 0 then f else f + gap + b
  }

  function Extent(t: Trail): nat {
    Reach(|t.front|, |t.back|, 2)
  }

  /** The buffer, for what it held before */
  function Left(before: seq<byte>, t: Trail): (s: seq<byte>)
    requires Extent(t) <= |before|
    ensures |s| == |before|
  {
    var b := Spliced(before, 0, t.front);
    if t.back == [] then b else Spliced(b, |t.front| + 2, t.back)
  }

  /** The buffer was left with this trail in it. */
  ghost predicate GaveUp(after: seq<byte>, before: seq<byte>, t: Trail) {
    Extent(t) <= |before| && after == Left(before, t)
  }

  /** Nothing more has been written since the printer stood behind `out`. */
  lemma GaveUpNow(before: seq<byte>, out: seq<byte>)
    requires |out| <= |before| && before[..|out|] == out
    ensures GaveUp(before, before, Trail(out, []))
  {
    assert Spliced(before, 0, out) == before;
  }

  lemma GaveUpBehind(before: seq<byte>, out: seq<byte>, e: seq<byte>)
    requires |out| + |e| <= |before| && before[..|out|] == out
    ensures GaveUp(Spliced(before, |out|, e), before, Trail(out + e, []))
  {
    assert Spliced(before, |out|, e) == Spliced(before, 0, out + e);
  }

  lemma GaveUpWithGap(before: seq<byte>, out: seq<byte>, e: seq<byte>)
    requires |out| + 2 + |e| <= |before| && before[..|out|] == out
    ensures GaveUp(Spliced(before, |out| + 2, e), before, Trail(out, e))
  {
    assert Spliced(before, 0, out) == before;
    if e == [] {
      assert Spliced(before, |out| + 2, e) == before;
    }
  }

  /** What was written before is the beginning of the trail. */
  lemma GaveUpLater(before: seq<byte>, out: seq<byte>, after: seq<byte>, t: Trail)
    requires |out| <= |before| && out <= t.front && GaveUp(after, Spliced(before, 0, out), t)
    ensures GaveUp(after, before, t)
  {
    assert Spliced(Spliced(before, 0, out), 0, t.front) == Spliced(before, 0, t.front);
  }

  function QueryTrail(s: Printer, q: Query): (t: Trail)
    ensures s.out <= t.front
  {
    match PrintName(s.out, |s.out|, s.size, q.name, s.tab)
    case None => Trail(s.out + PartOf(q.name, s.size), [])
    case Some((name, _)) => Trail(s.out + name, [])
  }

  function RdataTrail(s: Printer, rr: RR): (t: Trail)
    ensures t.front == s.out
  {
    match rr.rdata
    case Target(target) =>
      if !HasTarget(rr.rtype) || s.size < 4 then Trail(s.out, []) else Trail(s.out, PartOf(target, s.size - 2))
    case Service(prio, weight, port, target) =>
      if rr.rtype != TYPE_SRV || s.size < 10 then Trail(s.out, [])
      else Trail(s.out, (Be16(prio) + (Be16(weight) + Be16(port))) + PartOf(target, s.size - 8))
    case _ => Trail(s.out, [])
  }

  function RecordTrail(s: Printer, rr: RR): (t: Trail)
    ensures s.out <= t.front
  {
    match PrintName(s.out, |s.out|, s.size, rr.name, s.tab)
    case None => Trail(s.out + PartOf(rr.name, s.size), [])
    case Some((name, tab)) =>
      if s.size - |name| < 8 then Trail(s.out + name, [])
      else RdataTrail(Printer(s.out + (name + RecordHead(rr)), s.size - |name| - 8, tab), rr)
  }

  function QueriesTrail(s: Printer, qs: seq<Query>): Trail
    decreases |qs|
  {
    if qs == [] then Trail(s.out, [])
    else
      match PrintQuery(s, qs[0])
      case None => QueryTrail(s, qs[0])
      case Some(t) => QueriesTrail(t, qs[1..])
  }

  function RecordsTrail(s: Printer, rrs: seq<RR>): Trail
    decreases |rrs|
  {
    if rrs == [] then Trail(s.out, [])
    else
      match PrintRecord(s, rrs[0])
      case None => RecordTrail(s, rrs[0])
      case Some(t) => RecordsTrail(t, rrs[1..])
  }

  function SectionsTrail(s: Printer, p: Packet): Trail {
    match PrintRecords(s, p.ans)
    case None => RecordsTrail(s, p.ans)
    case Some(s2) =>
      match PrintRecords(s2, p.ns)
      case None => RecordsTrail(s2, p.ns)
      case Some(s3) => RecordsTrail(s3, p.ar)
  }

  /** What a print that returns -1 has written */
  function PacketTrail(p: Packet, size: int): Trail {
    if size < HEADER then Trail([], [])
    else
      var s := Printer(PrintHeader(p), size - HEADER, []);
      match PrintQueries(s, p.q)
      case None => QueriesTrail(s, p.q)
      case Some(s1) => SectionsTrail(s1, p)
  }

  /** How many bytes a print writes, whatever it returns */
  function Touched(p: Packet, size: int): nat {
    match PrintPacket(p, size)
    case None => Extent(PacketTrail(p, size))
    case Some(t) => |t.out|
  }

  // ----- The tests of the printer -----

  /** A test of the room: it passes if the announced size is at least `need`; when it fails,
      `reach` bytes have been written. A record of a type that is not printed fails always. */
  datatype Mark = Mark(need: nat, reach: nat) | Never(reach: nat)

  predicate Passes(m: Mark, size: int) {
    m.Mark? && m.need <= size
  }

  /** The first test that fails: how much has been written by then */
  function Stop(marks: seq<Mark>, size: int): Option<nat> {
    if marks == [] then None
    else if !Passes(marks[0], size) then Some(marks[0].reach)
    else Stop(marks[1..], size)
  }

  /** The least size that passes all tests, if any does */
  function Need(marks: seq<Mark>): Option<nat> {
    if marks == [] then Some(0)
    else
      match Need(marks[1..])
      case None => None
      case Some(n) => if marks[0].Never? then None else Some(if marks[0].need > n then marks[0].need else n)
  }

  /** The printer as it goes when nothing fails: `used` is what it has taken off its room. */
  datatype Plan = Plan(out: seq<byte>, used: nat, tab: seq<Remembered>)

  function Standing(s: Plan, size: int): Printer {
    Printer(s.out, size - s.used, s.tab)
  }

  predicate Known(s: Plan, n: Name) {
    Find(s.out, s.tab, n) < |s.tab|
  }

  /** The bytes of the name at `pos`, and the table with it */
  function WholeName(s: Plan, pos: nat, n: Name): (seq<byte>, seq<Remembered>) {
    PrintName(s.out, pos, |Encode(n)|, n, s.tab).value
  }

  /** One test for each label, and one for the zero byte; `b` bytes lie behind the gap so far. */
  function LabelMarks(n: Name, used: nat, f: nat, b: nat, gap: nat): seq<Mark>
    decreases |n|
  {
    if n == [] then [Mark(used + 1, Reach(f, b, gap))]
    else
      var k := FirstLabel(n);
      [Mark(used + (k + 1), Reach(f, b, gap))] + LabelMarks(AfterLabel(n), used + (k + 1), f, b + (k + 1), gap)
  }

  /** A name that is remembered is not tested for. */
  function NameMarks(s: Plan, n: Name, used: nat, f: nat, b: nat, gap: nat): seq<Mark> {
    if Known(s, n) then [] else LabelMarks(n, used, f, b, gap)
  }

  function QueryMarks(s: Plan, q: Query): seq<Mark> {
    var name := WholeName(s, |s.out|, q.name).0;
    NameMarks(s, q.name, s.used, |s.out|, 0, 0) + [Mark(s.used + |name| + 4, |s.out| + |name|)]
  }

  function AfterQuery(s: Plan, q: Query): Plan {
    var (name, tab) := WholeName(s, |s.out|, q.name);
    Plan(s.out + (name + (Be16(q.qtype) + Be16(q.qclass))), s.used + |name|, tab)
  }

  function AfterHead(s: Plan, rr: RR): Plan {
    var (name, tab) := WholeName(s, |s.out|, rr.name);
    Plan(s.out + (name + RecordHead(rr)), s.used + |name| + 8, tab)
  }

  function HeadMarks(s: Plan, rr: RR): seq<Mark> {
    var name := WholeName(s, |s.out|, rr.name).0;
    NameMarks(s, rr.name, s.used, |s.out|, 0, 0) + [Mark(s.used + |name| + 8, |s.out| + |name|)]
  }

  function RdataMarks(s: Plan, rr: RR): seq<Mark> {
    var f := |s.out|;
    match rr.rdata
    case HostAddress(_) => if rr.rtype != TYPE_A then [Never(f)] else [Mark(s.used + 6, f)]
    case Target(target) =>
      if !HasTarget(rr.rtype) then [Never(f)] else [Mark(s.used + 4, f)] + NameMarks(s, target, s.used + 2, f, 0, 2)
    case Service(_, _, _, target) =>
      if rr.rtype != TYPE_SRV then [Never(f)] else [Mark(s.used + 10, f)] + NameMarks(s, target, s.used + 8, f, 6, 2)
    case _ => [Never(f)]
  }

  function AfterRdata(s: Plan, rr: RR): Plan {
    match rr.rdata
    case HostAddress(ip) => Plan(s.out + (Be16(4) + ip), s.used + 6, s.tab)
    case Target(target) =>
      var (name, tab) := WholeName(s, |s.out| + 2, target);
      Plan(s.out + (Be16(|name|) + name), s.used + 2 + |name|, tab)
    case Service(prio, weight, port, target) =>
      var (name, tab) := WholeName(s, |s.out| + 8, target);
      Plan(s.out + (ServiceHead(|name|, prio, weight, port) + name), s.used + 8 + |name|, tab)
    case _ => s
  }

  function QueriesMarks(s: Plan, qs: seq<Query>): seq<Mark>
    decreases |qs|
  {
    if qs == [] then [] else QueryMarks(s, qs[0]) + QueriesMarks(AfterQuery(s, qs[0]), qs[1..])
  }

  function AfterQueries(s: Plan, qs: seq<Query>): Plan
    decreases |qs|
  {
    if qs == [] then s else AfterQueries(AfterQuery(s, qs[0]), qs[1..])
  }

  function RecordMarks(s: Plan, rr: RR): seq<Mark> {
    HeadMarks(s, rr) + RdataMarks(AfterHead(s, rr), rr)
  }

  function AfterRecord(s: Plan, rr: RR): Plan {
    AfterRdata(AfterHead(s, rr), rr)
  }

  function RecordsMarks(s: Plan, rrs: seq<RR>): seq<Mark>
    decreases |rrs|
  {
    if rrs == [] then [] else RecordMarks(s, rrs[0]) + RecordsMarks(AfterRecord(s, rrs[0]), rrs[1..])
  }

  function AfterRecords(s: Plan, rrs: seq<RR>): Plan
    decreases |rrs|
  {
    if rrs == [] then s else AfterRecords(AfterRecord(s, rrs[0]), rrs[1..])
  }

  /** All tests of a print, in their order */
  function Marks(p: Packet): seq<Mark> {
    var s1 := AfterQueries(Start(p), p.q);
    var s2 := AfterRecords(s1, p.ans);
    [Mark(HEADER, 0)] + (QueriesMarks(Start(p), p.q)
    + (RecordsMarks(s1, p.ans) + (RecordsMarks(s2, p.ns) + RecordsMarks(AfterRecords(s2, p.ns), p.ar))))
  }

  function Start(p: Packet): Plan {
    Plan(PrintHeader(p), HEADER, [])
  }

  /** The printer at the end of a print that succeeds */
  function End(p: Packet): Plan {
    AfterRecords(AfterRecords(AfterRecords(AfterQueries(Start(p), p.q), p.ans), p.ns), p.ar)
  }

  /** The least size with which the packet is printed; none if a record is of another type */
  function Room(p: Packet): Option<nat> {
    Need(Marks(p))
  }

  /** How long the packet is when it is printed */
  function Length(p: Packet): nat {
    |End(p).out|
  }

  // ----- The tests decide -----

  lemma {:induction false} StopAppend(a: seq<Mark>, b: seq<Mark>, size: int)
    ensures Stop(a + b, size) == if Stop(a, size).Some? then Stop(a, size) else Stop(b, size)
  {
    if a == [] {
      assert a + b == b;
    } else {
      StopAppend(a[1..], b, size);
      assert (a + b)[1..] == a[1..] + b;
    }
  }

  lemma StopOne(m: Mark, size: int)
    ensures Stop([m], size) == if Passes(m, size) then None else Some(m.reach)
  {
    assert [m][1..] == [];
  }

  lemma {:induction false} StopOrNeed(marks: seq<Mark>, size: int)
    ensures Stop(marks, size).None? <==> (marks == [] || (Need(marks).Some? && Need(marks).value <= size))
  {
    if marks != [] {
      StopOrNeed(marks[1..], size);
    }
  }

  lemma {:induction false} LabelStop(n: Name, used: nat, f: nat, b: nat, gap: nat, size: int)
    ensures Stop(LabelMarks(n, used, f, b, gap), size) ==
            if |Encode(n)| <= size - used then None else Some(Reach(f, b + Fitting(n, size - used), gap))
    decreases |n|
  {
    hide Reach, Encode, FirstLabel, AfterLabel, Stop;
    LabelTaken(n);
    if n == [] {
      StopOne(Mark(used + 1, Reach(f, b, gap)), size);
    } else {
      var k := FirstLabel(n);
      var first := Mark(used + (k + 1), Reach(f, b, gap));
      LabelStop(AfterLabel(n), used + (k + 1), f, b + (k + 1), gap, size);
      StopOne(first, size);
      StopAppend([first], LabelMarks(AfterLabel(n), used + (k + 1), f, b + (k + 1), gap), size);
    }
  }

  lemma LabelTaken(n: Name)
    ensures |Encode(n)| == if n == [] then 1 else FirstLabel(n) + 1 + |Encode(AfterLabel(n))|
  {
  }

  /** A name: it is printed as planned, or the first test of a label that fails says how far. */
  lemma NameStop(s: Plan, pos: nat, n: Name, off: nat, f: nat, b: nat, gap: nat, size: int)
    ensures var marks := NameMarks(s, n, s.used + off, f, b, gap);
            var room := size - s.used - off;
            match PrintName(s.out, pos, room, n, s.tab)
            case None => Stop(marks, size) == Some(Reach(f, b + Fitting(n, room), gap))
            case Some(r) => Stop(marks, size) == None && r == WholeName(s, pos, n)
  {
    hide Reach, Fitting, Encode, PrintName, WholeName, Known, LabelMarks;
    NameCases(s, pos, n, size - s.used - off);
    if !Known(s, n) {
      LabelStop(n, s.used + off, f, b, gap, size);
    }
  }

  lemma NameCases(s: Plan, pos: nat, n: Name, room: int)
    ensures PrintName(s.out, pos, room, n, s.tab) ==
            if Known(s, n) || |Encode(n)| <= room then Some(WholeName(s, pos, n)) else None
  {
    hide Encode, Find, Be16, PointerTo;
  }

  lemma QueryStop(s: Plan, q: Query, size: int)
    ensures match PrintQuery(Standing(s, size), q)
            case None => Stop(QueryMarks(s, q), size) == Some(Extent(QueryTrail(Standing(s, size), q)))
            case Some(t) => Stop(QueryMarks(s, q), size) == None && t == Standing(AfterQuery(s, q), size)
  {
    hide PrintName, WholeName, NameMarks, Fitting, Encode, Be16;
    var name := WholeName(s, |s.out|, q.name).0;
    var last := Mark(s.used + |name| + 4, |s.out| + |name|);
    NameStop(s, |s.out|, q.name, 0, |s.out|, 0, 0, size);
    StopOne(last, size);
    StopAppend(NameMarks(s, q.name, s.used, |s.out|, 0, 0), [last], size);
  }

  lemma HeadStop(s: Plan, rr: RR, size: int)
    ensures var t := Standing(s, size);
            var room := size - s.used - |WholeName(s, |s.out|, rr.name).0|;
            match PrintName(t.out, |t.out|, t.size, rr.name, t.tab)
            case None => Stop(HeadMarks(s, rr), size) == Some(|s.out| + Fitting(rr.name, t.size))
            case Some(r) =>
              && r == WholeName(s, |s.out|, rr.name)
              && Stop(HeadMarks(s, rr), size) == if room < 8 then Some(|s.out| + |r.0|) else None
  {
    hide PrintName, WholeName, NameMarks, Fitting, Encode;
    var name := WholeName(s, |s.out|, rr.name).0;
    var last := Mark(s.used + |name| + 8, |s.out| + |name|);
    NameStop(s, |s.out|, rr.name, 0, |s.out|, 0, 0, size);
    StopOne(last, size);
    StopAppend(NameMarks(s, rr.name, s.used, |s.out|, 0, 0), [last], size);
  }

  lemma RdataStop(s: Plan, rr: RR, size: int)
    ensures match PrintRdata(Standing(s, size), rr)
            case None => Stop(RdataMarks(s, rr), size) == Some(Extent(RdataTrail(Standing(s, size), rr)))
            case Some(t) => Stop(RdataMarks(s, rr), size) == None && t == Standing(AfterRdata(s, rr), size)
  {
    hide PrintName, WholeName, NameMarks, Fitting, Encode, Be16;
    var f := |s.out|;
    match rr.rdata
    case HostAddress(_) => StopOne(if rr.rtype != TYPE_A then Never(f) else Mark(s.used + 6, f), size);
    case Target(target) =>
      StopOne(if !HasTarget(rr.rtype) then Never(f) else Mark(s.used + 4, f), size);
      StopAppend([Mark(s.used + 4, f)], NameMarks(s, target, s.used + 2, f, 0, 2), size);
      NameStop(s, f + 2, target, 2, f, 0, 2, size);
    case Service(_, _, _, target) =>
      StopOne(if rr.rtype != TYPE_SRV then Never(f) else Mark(s.used + 10, f), size);
      StopAppend([Mark(s.used + 10, f)], NameMarks(s, target, s.used + 8, f, 6, 2), size);
      NameStop(s, f + 8, target, 8, f, 6, 2, size);
    case _ => StopOne(Never(f), size);
  }

  lemma RecordStop(s: Plan, rr: RR, size: int)
    ensures match PrintRecord(Standing(s, size), rr)
            case None => Stop(RecordMarks(s, rr), size) == Some(Extent(RecordTrail(Standing(s, size), rr)))
            case Some(t) => Stop(RecordMarks(s, rr), size) == None && t == Standing(AfterRecord(s, rr), size)
  {
    hide PrintName, WholeName, HeadMarks, RdataMarks, RdataTrail, PrintRdata, AfterRdata, Fitting, Encode;
    HeadStop(s, rr, size);
    RdataStop(AfterHead(s, rr), rr, size);
    StopAppend(HeadMarks(s, rr), RdataMarks(AfterHead(s, rr), rr), size);
  }

  lemma {:induction false} QueriesStop(s: Plan, qs: seq<Query>, size: int)
    ensures match PrintQueries(Standing(s, size), qs)
            case None => Stop(QueriesMarks(s, qs), size) == Some(Extent(QueriesTrail(Standing(s, size), qs)))
            case Some(t) => Stop(QueriesMarks(s, qs), size) == None && t == Standing(AfterQueries(s, qs), size)
    decreases |qs|
  {
    hide PrintQuery, QueryMarks, AfterQuery, QueryTrail, Extent;
    if qs != [] {
      var next := AfterQuery(s, qs[0]);
      QueryStop(s, qs[0], size);
      QueriesStop(next, qs[1..], size);
      StopAppend(QueryMarks(s, qs[0]), QueriesMarks(next, qs[1..]), size);
    }
  }

  lemma {:induction false} RecordsStop(s: Plan, rrs: seq<RR>, size: int)
    ensures match PrintRecords(Standing(s, size), rrs)
            case None => Stop(RecordsMarks(s, rrs), size) == Some(Extent(RecordsTrail(Standing(s, size), rrs)))
            case Some(t) => Stop(RecordsMarks(s, rrs), size) == None && t == Standing(AfterRecords(s, rrs), size)
    decreases |rrs|
  {
    hide PrintRecord, RecordMarks, AfterRecord, RecordTrail, Extent;
    if rrs != [] {
      var next := AfterRecord(s, rrs[0]);
      RecordStop(s, rrs[0], size);
      RecordsStop(next, rrs[1..], size);
      StopAppend(RecordMarks(s, rrs[0]), RecordsMarks(next, rrs[1..]), size);
    }
  }

  lemma SectionsStop(s: Plan, p: Packet, size: int)
    ensures var s2 := AfterRecords(s, p.ans);
            var s3 := AfterRecords(s2, p.ns);
            var marks := RecordsMarks(s, p.ans) + (RecordsMarks(s2, p.ns) + RecordsMarks(s3, p.ar));
            match PrintSections(Standing(s, size), p)
            case None => Stop(marks, size) == Some(Extent(SectionsTrail(Standing(s, size), p)))
            case Some(t) => Stop(marks, size) == None && t == Standing(AfterRecords(s3, p.ar), size)
  {
    hide PrintRecords, RecordsMarks, AfterRecords, RecordsTrail, Extent, Standing;
    var s2 := AfterRecords(s, p.ans);
    var s3 := AfterRecords(s2, p.ns);
    RecordsStop(s, p.ans, size);
    RecordsStop(s2, p.ns, size);
    RecordsStop(s3, p.ar, size);
    StopAppend(RecordsMarks(s2, p.ns), RecordsMarks(s3, p.ar), size);
    StopAppend(RecordsMarks(s, p.ans), RecordsMarks(s2, p.ns) + RecordsMarks(s3, p.ar), size);
  }

  /** The tests decide whether a packet is printed, and how much has been written when it is not. */
  lemma PacketStop(p: Packet, size: int)
    ensures match PrintPacket(p, size)
            case None => Stop(Marks(p), size) == Some(Extent(PacketTrail(p, size)))
            case Some(t) => Stop(Marks(p), size) == None && t == Standing(End(p), size)
  {
    hide PrintQueries, PrintSections, QueriesMarks, RecordsMarks, AfterQueries, AfterRecords, QueriesTrail, SectionsTrail, PrintHeader;
    var s, s1 := Start(p), AfterQueries(Start(p), p.q);
    var s2 := AfterRecords(s1, p.ans);
    var rest := RecordsMarks(s1, p.ans) + (RecordsMarks(s2, p.ns) + RecordsMarks(AfterRecords(s2, p.ns), p.ar));
    QueriesStop(s, p.q, size);
    SectionsStop(s1, p, size);
    StopOne(Mark(HEADER, 0), size);
    StopAppend(QueriesMarks(s, p.q), rest, size);
    StopAppend([Mark(HEADER, 0)], QueriesMarks(s, p.q) + rest, size);
  }

  // ----- Overruns -----

  /** The j-th test is the first that fails. */
  ghost predicate StopsAt(marks: seq<Mark>, size: int, j: nat) {
    j < |marks| && !Passes(marks[j], size) && forall i :: 0 <= i < j ==> Passes(marks[i], size)
  }

  lemma {:induction false} StopIsFirst(marks: seq<Mark>, size: int, j: nat)
    requires StopsAt(marks, size, j)
    ensures Stop(marks, size) == Some(marks[j].reach)
  {
    if j > 0 {
      assert forall i :: 0 <= i < j - 1 ==> marks[1..][i] == marks[i + 1];
      StopIsFirst(marks[1..], size, j - 1);
    }
  }

  lemma {:induction false} FirstStop(marks: seq<Mark>, size: int) returns (j: nat)
    requires Stop(marks, size).Some?
    ensures StopsAt(marks, size, j)
  {
    if !Passes(marks[0], size) {
      return 0;
    }
    var k := FirstStop(marks[1..], size);
    assert forall i :: 0 < i < k + 1 ==> marks[i] == marks[1..][i - 1];
    j := k + 1;
  }

  /** A packet is printed exactly from a size on that can be told from the packet, and is then
      longer than announced exactly below another such size: the four bytes of each question
      are never taken off the room. */
  lemma PrintedOverrun(p: Packet, size: int)
    ensures PrintPacket(p, size).Some? <==> Room(p).Some? && Room(p).value <= size
    ensures PrintPacket(p, size).Some? ==> |PrintPacket(p, size).value.out| == Length(p)
    ensures PrintPacket(p, size).Some? && Touched(p, size) > size <==> Room(p).Some? && Room(p).value <= size < Length(p)
  {
    hide PrintPacket, Marks, End, PacketTrail;
    PacketStop(p, size);
    StopOrNeed(Marks(p), size);
    SomeMarks(p);
  }

  lemma SomeMarks(p: Packet)
    ensures Marks(p) != []
  {
  }

  /** The first test that fails comes after more than `size` bytes have been written. */
  ghost predicate FailsBehind(marks: seq<Mark>, size: int) {
    exists j: nat :: StopsAt(marks, size, j) && marks[j].reach > size
  }

  lemma StopBehind(marks: seq<Mark>, size: int)
    ensures FailsBehind(marks, size) <==> Stop(marks, size).Some? && Stop(marks, size).value > size
  {
    if Stop(marks, size).Some? {
      var j := FirstStop(marks, size);
      StopIsFirst(marks, size, j);
    }
    if FailsBehind(marks, size) {
      var j: nat :| StopsAt(marks, size, j) && marks[j].reach > size;
      StopIsFirst(marks, size, j);
    }
  }

  /** A print that returns -1 has written more than announced exactly when the first test that
      fails comes after so much has been written. */
  lemma AbandonedOverrun(p: Packet, size: int)
    ensures PrintPacket(p, size).None? && Touched(p, size) > size <==> FailsBehind(Marks(p), size)
  {
    hide PrintPacket, Marks, End, PacketTrail, Extent, FailsBehind;
    PacketStop(p, size);
    StopBehind(Marks(p), size);
  }

  // ----- Two packets that overrun -----

  function Letter(c: byte): Query {
    Query([c], TYPE_A, CLASS_IN)
  }

  lemma LetterPrinted(c: byte)
    requires c != DOT
    ensures Encode([c]) == [1, c, 0] && Fitting([c], 2) == 2
  {
    assert FirstLabel([c]) == 1 + FirstLabel([c][1..]) == 1;
    assert Encode([]) == [0];
  }

  /** A question for a letter that is not remembered takes three bytes and four uncounted ones. */
  lemma LetterTaken(s: Plan, c: byte)
    requires c != DOT && !Known(s, [c]) && |s.tab| < MAX_NAMES_IN_TABLE
    ensures var t := AfterQuery(s, Letter(c));
            && t.used == s.used + 3 && |t.out| == |s.out| + 7 && t.tab == s.tab + [Remembered(|s.out|, 1)]
            && s.out <= t.out && t.out[|s.out| + 1] == c
    ensures QueryMarks(s, Letter(c)) == [Mark(s.used + 2, |s.out|), Mark(s.used + 3, |s.out| + 2), Mark(s.used + 7, |s.out| + 3)]
  {
    hide Be16;
    LetterPrinted(c);
    LetterMarks(c, s.used, |s.out|);
    var name := [1, c, 0];
    var tail := Be16(TYPE_A) + Be16(CLASS_IN);
    assert (s.out + (name + tail))[|s.out| + 1] == c;
  }

  lemma LetterMarks(c: byte, used: nat, f: nat)
    requires c != DOT
    ensures LabelMarks([c], used, f, 0, 0) == [Mark(used + 2, f), Mark(used + 3, f + 2)]
  {
    assert FirstLabel([c]) == 1 + FirstLabel([c][1..]) == 1;
    assert LabelMarks([], used + 2, f, 2, 0) == [Mark(used + 3, f + 2)];
  }

  /** Every remembered name is a single letter other than `c`. */
  predicate OtherLetters(s: Plan, c: byte) {
    forall e :: e in s.tab ==> e.len == 1 && e.pos + 1 < |s.out| && s.out[e.pos + 1] != c
  }

  lemma {:induction false} NotKnown(out: seq<byte>, tab: seq<Remembered>, c: byte)
    requires forall e :: e in tab ==> e.len == 1 && e.pos + 1 < |out| && out[e.pos + 1] != c
    ensures Find(out, tab, [c]) == |tab|
  {
    if tab != [] {
      var e := tab[0];
      assert out[e.pos + 1..e.pos + 1 + e.len][0] == out[e.pos + 1];
      NotKnown(out, tab[1..], c);
    }
  }

  function Questions(cs: seq<byte>): Packet {
    Packet(1, 0, seq(|cs|, i requires 0 <= i < |cs| => Letter(cs[i])), [], [], [])
  }

  /** The plan after a question for one more letter */
  lemma OneMore(s: Plan, c: byte, d: byte)
    requires c != d && c != DOT && OtherLetters(s, c) && OtherLetters(s, d) && |s.tab| < MAX_NAMES_IN_TABLE
    ensures !Known(s, [c]) && OtherLetters(AfterQuery(s, Letter(c)), d)
  {
    hide AfterQuery;
    NotKnown(s.out, s.tab, c);
    LetterTaken(s, c);
    var t := AfterQuery(s, Letter(c));
    forall e | e in t.tab ensures e.len == 1 && e.pos + 1 < |t.out| && t.out[e.pos + 1] != d {
      if e in s.tab {
        assert t.out[e.pos + 1] == s.out[e.pos + 1];
      }
    }
  }

  lemma LettersPlanned(s0: Plan)
    requires s0.used == |s0.out| == 12 && s0.tab == []
    ensures var s1 := AfterQuery(s0, Letter(97));
            var s2 := AfterQuery(s1, Letter(98));
            && QueryMarks(s0, Letter(97)) == [Mark(14, 12), Mark(15, 14), Mark(19, 15)]
            && QueryMarks(s1, Letter(98)) == [Mark(17, 19), Mark(18, 21), Mark(22, 22)]
            && QueryMarks(s2, Letter(99)) == [Mark(20, 26), Mark(21, 28), Mark(25, 29)]
            && |s2.out| == 26
  {
    hide AfterQuery, QueryMarks, Known;
    var s1 := AfterQuery(s0, Letter(97));
    OneMore(s0, 97, 98);
    OneMore(s0, 97, 99);
    LetterTaken(s0, 97);
    OneMore(s1, 98, 99);
    LetterTaken(s1, 98);
    OneMore(AfterQuery(s1, Letter(98)), 99, 100);
    LetterTaken(AfterQuery(s1, Letter(98)), 99);
  }

  lemma QueriesMarksStep(s: Plan, qs: seq<Query>)
    ensures QueriesMarks(s, []) == [] && AfterQueries(s, []) == s
    ensures qs != [] ==>
              && QueriesMarks(s, qs) == QueryMarks(s, qs[0]) + QueriesMarks(AfterQuery(s, qs[0]), qs[1..])
              && AfterQueries(s, qs) == AfterQueries(AfterQuery(s, qs[0]), qs[1..])
  {
  }

  lemma OnlyQuestions(p: Packet)
    requires p.ans == p.ns == p.ar == []
    ensures Marks(p) == [Mark(HEADER, 0)] + QueriesMarks(Start(p), p.q) && End(p) == AfterQueries(Start(p), p.q)
  {
    hide QueriesMarks, AfterQueries;
  }

  /** Two questions, for "a" and for "b", in 22 bytes: 26 are printed. */
  lemma TwoQuestionsOverrun()
    ensures var p := Questions([97, 98]); PrintPacket(p, 22).Some? && |PrintPacket(p, 22).value.out| == 26
    ensures Room(Questions([97, 98])) == Some(22) && Length(Questions([97, 98])) == 26
  {
    hide AfterQuery, QueryMarks, QueriesMarks, AfterQueries, PrintPacket, Marks, End;
    var p := Questions([97, 98]);
    var s0 := Start(p);
    var s1 := AfterQuery(s0, Letter(97));
    LettersPlanned(s0);
    OnlyQuestions(p);
    QueriesMarksStep(s0, p.q);
    QueriesMarksStep(s1, p.q[1..]);
    QueriesMarksStep(AfterQuery(s1, Letter(98)), []);
    assert p.q[1..][0] == Letter(98) && p.q[1..][1..] == [];
    assert Marks(p) == [Mark(12, 0), Mark(14, 12), Mark(15, 14), Mark(19, 15), Mark(17, 19), Mark(18, 21), Mark(22, 22)];
    NeedOfSeven(Marks(p));
    PrintedOverrun(p, 22);
  }

  lemma NeedOfSeven(m: seq<Mark>)
    requires m == [Mark(12, 0), Mark(14, 12), Mark(15, 14), Mark(19, 15), Mark(17, 19), Mark(18, 21), Mark(22, 22)]
    ensures Need(m) == Some(22)
  {
    assert m[6..][1..] == [] && m[5..][1..] == m[6..] && m[4..][1..] == m[5..];
    assert m[3..][1..] == m[4..] && m[2..][1..] == m[3..] && m[1..][1..] == m[2..];
    assert Need(m[6..]) == Some(22);
    assert Need(m[5..]) == Some(22);
    assert Need(m[4..]) == Some(22);
    assert Need(m[3..]) == Some(22);
    assert Need(m[2..]) == Some(22);
    assert Need(m[1..]) == Some(22);
  }

  /** Three questions in 24 bytes: -1 is returned, when 29 bytes have been written. */
  lemma ThreeQuestionsOverrun()
    ensures var p := Questions([97, 98, 99]); PrintPacket(p, 24).None? && Touched(p, 24) == 29
  {
    hide AfterQuery, QueryMarks, QueriesMarks, AfterQueries, PrintPacket, Marks, End, PacketTrail;
    var p := Questions([97, 98, 99]);
    var s0 := Start(p);
    var s1 := AfterQuery(s0, Letter(97));
    var s2 := AfterQuery(s1, Letter(98));
    LettersPlanned(s0);
    OnlyQuestions(p);
    QueriesMarksStep(s0, p.q);
    QueriesMarksStep(s1, p.q[1..]);
    QueriesMarksStep(s2, p.q[2..]);
    QueriesMarksStep(AfterQuery(s2, Letter(99)), []);
    assert p.q[1..][0] == Letter(98) && p.q[1..][1..] == p.q[2..] && p.q[2..][0] == Letter(99) && p.q[2..][1..] == [];
    var m := Marks(p);
    assert m == [Mark(12, 0), Mark(14, 12), Mark(15, 14), Mark(19, 15), Mark(17, 19), Mark(18, 21), Mark(22, 22),
                 Mark(20, 26), Mark(21, 28), Mark(25, 29)];
    assert StopsAt(m, 24, 9);
    StopIsFirst(m, 24, 9);
    PacketStop(p, 24);
  }
}
