/** When what lies behind a packet matters: whether it is read, as what, and with which error it is
    refused. The packet is told from its bytes alone, by how it is read with zeros behind it. It is
    one whose last byte could not begin a pointer. */
module DnsBehind {
  import opened Bytes
  import opened DnsPacket
  import opened Wrappers
  import opened DnsNames
  import opened DnsWire
  import opened DnsBounds

  /** The packet with zeros behind it */
  function Silence(bytes: seq<byte>): Memory {
    Memory(bytes, i => 0)
  }

  predicate Ends(bytes: seq<byte>) {
    bytes == [] || bytes[|bytes| - 1] < COMPRESSED
  }

  /** Some name behind the packet is refused for its pointer: one that points behind the packet, or
      to a name in it that is itself refused so. */
  predicate CanPoint(bytes: seq<byte>) {
    |bytes| < POINTER_LIMIT || exists o: nat :: o < POINTER_LIMIT && NameLen(Silence(bytes), o, 1) == Err(BadPointer)
  }

  predicate ErrorBehind(bytes: seq<byte>, e: Error) {
    e == BadSize || (e == BadPointer && CanPoint(bytes))
  }

  /** Two parsers stand at the same place, or both behind the packet and its first byte behind it. */
  predicate Near(bytes: seq<byte>, p: nat, q: nat) {
    p == q || (p > |bytes| && q > |bytes|)
  }

  /** Where one parser goes on, the other goes on nearby, or fails with the error of a name behind the packet. */
  predicate Alike(bytes: seq<byte>, end: nat, r: Result<nat>) {
    match r
    case Ok(end') => Near(bytes, end, end')
    case Err(e) => end > |bytes| && ErrorBehind(bytes, e)
  }

  function EndOf<T>(r: Result<(T, nat)>): Result<nat> {
    match r
    case Ok((_, end)) => Ok(end)
    case Err(e) => Err(e)
  }

  lemma SilenceAgrees(m: Memory)
    ensures Agree(Silence(m.bytes), m, 0) && (Ends(m.bytes) ==> Shut(Silence(m.bytes), 0) && Shut(m, 0))
    ensures forall p: nat :: p >= |m.bytes| ==> Peek(Silence(m.bytes), p) == 0
  {
  }

  // ----- Names -----

  lemma {:induction false} NameErrors(m: Memory, p: nat, depth: nat)
    requires depth <= MAX_HOPS + 1 && NameLen(m, p, depth).Err?
    ensures NameLen(m, p, depth).error in {BadPointer, BadSize}
    decreases MAX_HOPS + 1 - depth, Left(m, p)
  {
    var b := Peek(m, p);
    if depth <= MAX_HOPS {
      if b >= COMPRESSED {
        var offset := Peek16(m, p) - 256 * COMPRESSED;
        if offset < |m.bytes| {
          NameErrors(m, offset, depth + 1);
        }
      } else if b <= |m.bytes| && p + b + 1 < |m.bytes| {
        NameErrors(m, p + b + 1, depth);
      }
    }
  }

  lemma ParseNameIs(m: Memory, p: nat)
    ensures ParseName(m, p).Err? <==> NameLen(m, p, 0).Err?
    ensures ParseName(m, p).Err? ==> ParseName(m, p).error == NameLen(m, p, 0).error
  {
    hide NameLen, GetName;
    PassesAgree(m, p, 0);
  }

  lemma PointsInside(m: Memory, o: nat)
    requires Ends(m.bytes) && o < |m.bytes|
    ensures NameLen(Silence(m.bytes), o, 1) == NameLen(m, o, 1)
  {
    hide NameLen;
    SilenceAgrees(m);
    NameLocal(Silence(m.bytes), m, o, 1, 0);
  }

  lemma NameBehindFails(m: Memory, p: nat)
    requires Ends(m.bytes) && p >= |m.bytes| && ParseName(m, p).Err?
    ensures ErrorBehind(m.bytes, ParseName(m, p).error)
  {
    ParseNameIs(m, p);
    var b := Peek(m, p);
    if b >= COMPRESSED {
      var offset := Peek16(m, p) - 256 * COMPRESSED;
      if offset < |m.bytes| {
        PointsInside(m, offset);
        NameErrors(m, offset, 1);
      }
    }
  }

  lemma ZeroName(m: Memory, p: nat)
    requires Peek(m, p) == 0
    ensures ParseName(m, p) == Ok(([], 1))
  {
  }

  /** The same name at the same place */
  lemma NameAlike(m: Memory, p: nat)
    requires Ends(m.bytes)
    ensures p < |m.bytes| ==> ParseName(Silence(m.bytes), p) == ParseName(m, p)
    ensures p < |m.bytes| && ParseName(m, p).Ok? ==> p < p + ParseName(m, p).value.1 <= |m.bytes|
    ensures p >= |m.bytes| ==>
              && ParseName(Silence(m.bytes), p) == Ok(([], 1))
              && (ParseName(m, p).Err? ==> ErrorBehind(m.bytes, ParseName(m, p).error))
              && (ParseName(m, p).Ok? ==> ParseName(m, p).value.1 > 0)
  {
    hide ParseName, CanPoint, Shut, Peek;
    SilenceAgrees(m);
    if p < |m.bytes| {
      ParseNameLocal(Silence(m.bytes), m, p, 0);
    } else {
      ZeroName(Silence(m.bytes), p);
      if ParseName(m, p).Err? {
        NameBehindFails(m, p);
      } else {
        MoreShut(m, p + 2);
        ParseNameLocal(m, m, p, p + 2);
      }
    }
  }

  // ----- Questions and records -----

  lemma QueryAlike(m: Memory, p: nat)
    requires Ends(m.bytes)
    ensures var z, r := ParseQuery(Silence(m.bytes), p), ParseQuery(m, p);
            && (z.Err? ==> p < |m.bytes| && r == z)
            && (z.Ok? ==> z.value.1 > p && Alike(m.bytes, z.value.1, EndOf(r)))
  {
    hide ParseName, CanPoint, Peek16, ErrorBehind;
    NameAlike(m, p);
  }

  lemma QueryBehind(m: Memory, p: nat)
    requires Ends(m.bytes) && p >= |m.bytes|
    ensures var r := ParseQuery(m, p); if r.Ok? then r.value.1 > |m.bytes| else ErrorBehind(m.bytes, r.error)
  {
    hide ParseName, CanPoint, Peek16, ErrorBehind;
    NameAlike(m, p);
  }

  lemma RdataAlike(m: Memory, p: nat, rtype: nat, rdlength: nat)
    requires Ends(m.bytes) && p + rdlength <= |m.bytes|
    ensures var z, r := ParseRdata(Silence(m.bytes), p, rtype, rdlength), ParseRdata(m, p, rtype, rdlength);
            && (z.Err? ==> r.Err? && r.error == z.error)
            && (z.Ok? ==> Alike(m.bytes, p + z.value.1, if r.Ok? then Ok(p + r.value.1) else Err(r.error)))
  {
    hide ParseName, CanPoint, Peek16, ErrorBehind;
    NameAlike(m, if rtype == TYPE_SRV then p + 6 else p);
  }

  lemma RecordAlike(m: Memory, p: nat)
    requires Ends(m.bytes) && p < |m.bytes|
    ensures var z, r := ParseRecord(Silence(m.bytes), p), ParseRecord(m, p);
            && (z.Err? ==> r.Err? && r.error == z.error)
            && (z.Ok? ==> z.value.1 > p && Alike(m.bytes, z.value.1, EndOf(r)))
  {
    hide ParseName, ParseRdata, CanPoint, ErrorBehind, Peek16;
    NameAlike(m, p);
    if ParseRecord(Silence(m.bytes), p).Ok? {
      RecordEnds(Silence(m.bytes), p);
    }
    if ParseName(m, p).Ok? {
      var t := p + ParseName(m, p).value.1;
      if t + 10 <= |m.bytes| {
        SilenceAgrees(m);
        SameWords(Silence(m.bytes), m, 0, t);
        SameWords(Silence(m.bytes), m, 0, t + 4);
        if t + 10 + Peek16(m, t + 8) <= |m.bytes| {
          RdataAlike(m, t + 10, Peek16(m, t), Peek16(m, t + 8));
        }
      }
    }
  }

  lemma RecordBehind(m: Memory, p: nat)
    requires Ends(m.bytes) && p >= |m.bytes|
    ensures ParseRecord(m, p).Err? && ErrorBehind(m.bytes, ParseRecord(m, p).error)
    ensures ParseRecord(Silence(m.bytes), p) == Err(BadSize)
  {
    hide ParseName, CanPoint;
    NameAlike(m, p);
    NameAlike(Silence(m.bytes), p);
  }

  // ----- Sections -----

  /** Where the parser is when it comes to the end of the questions, or to one that fails */
  function QueriesHalt(m: Memory, p: nat, n: nat): nat
    decreases n
  {
    if n == 0 || ParseQuery(m, p).Err? then p else QueriesHalt(m, ParseQuery(m, p).value.1, n - 1)
  }

  function RecordsHalt(m: Memory, p: nat, n: nat): nat
    decreases n
  {
    if n == 0 || ParseRecord(m, p).Err? then p else RecordsHalt(m, ParseRecord(m, p).value.1, n - 1)
  }

  lemma {:induction false} QueriesAlike(m: Memory, p: nat, q: nat, n: nat)
    requires Ends(m.bytes) && Near(m.bytes, p, q)
    ensures var z, r := ParseQueries(Silence(m.bytes), p, n), ParseQueries(m, q, n);
            && (z.Err? ==> r.Err? && r.error == z.error && p <= QueriesHalt(Silence(m.bytes), p, n) < |m.bytes|)
            && (z.Ok? ==> Alike(m.bytes, z.value.1, EndOf(r)) && QueriesHalt(Silence(m.bytes), p, n) == z.value.1 >= p)
    decreases n
  {
    hide ParseQuery, ParseQueries, CanPoint, ErrorBehind;
    var silence := Silence(m.bytes);
    if n == 0 {
      OneQuery(silence, p);
      OneQuery(m, q);
    } else {
      QueriesStep(silence, p, n);
      QueriesStep(m, q, n);
      QueryAlike(m, p);
      if q != p {
        QueryAlike(m, q);
        QueryBehind(m, q);
        QueryBehind(silence, p);
      }
      if ParseQuery(silence, p).Ok? {
        var next := ParseQuery(silence, p).value.1;
        if ParseQuery(m, q).Ok? {
          QueriesAlike(m, next, ParseQuery(m, q).value.1, n - 1);
        } else {
          QueriesAlike(m, next, next, n - 1);
        }
      }
    }
  }

  /** What the parser makes of records that zeros let it come to no end of */
  predicate FailAlike(bytes: seq<byte>, e: Error, halt: nat, r: Result<nat>) {
    && r.Err?
    && (halt < |bytes| ==> r.error == e)
    && (halt >= |bytes| ==> e == BadSize && ErrorBehind(bytes, r.error))
  }

  lemma {:induction false} RecordsAlike(m: Memory, p: nat, q: nat, n: nat)
    requires Ends(m.bytes) && Near(m.bytes, p, q)
    ensures var z, r := ParseRecords(Silence(m.bytes), p, n), ParseRecords(m, q, n);
            var halt := RecordsHalt(Silence(m.bytes), p, n);
            && (z.Err? ==> FailAlike(m.bytes, z.error, halt, EndOf(r)) && halt >= p)
            && (z.Ok? ==> Alike(m.bytes, z.value.1, EndOf(r)) && halt == z.value.1 >= p)
    decreases n
  {
    hide ParseRecord, ParseRecords, CanPoint, ErrorBehind;
    var silence := Silence(m.bytes);
    if n == 0 {
      OneRecord(silence, p);
      OneRecord(m, q);
    } else {
      RecordsStep(silence, p, n);
      RecordsStep(m, q, n);
      if p >= |m.bytes| {
        RecordBehind(m, p);
        RecordBehind(m, q);
      } else {
        RecordAlike(m, p);
        if ParseRecord(silence, p).Ok? {
          var next := ParseRecord(silence, p).value.1;
          RecordsAlike(m, next, if ParseRecord(m, p).Ok? then ParseRecord(m, p).value.1 else next, n - 1);
        }
      }
    }
  }

  function SectionsHalt(m: Memory, p: nat): nat {
    match ParseRecords(m, p, Peek16(m, 6))
    case Err(_) => RecordsHalt(m, p, Peek16(m, 6))
    case Ok((_, p2)) =>
      match ParseRecords(m, p2, Peek16(m, 8))
      case Err(_) => RecordsHalt(m, p2, Peek16(m, 8))
      case Ok((_, p3)) => RecordsHalt(m, p3, Peek16(m, 10))
  }

  lemma SectionsAlike(m: Memory, p: nat, q: nat)
    requires Ends(m.bytes) && Near(m.bytes, p, q) && |m.bytes| >= HEADER
    ensures var z, r := ParseSections(Silence(m.bytes), p), ParseSections(m, q);
            var halt := SectionsHalt(Silence(m.bytes), p);
            && (z.Err? ==> FailAlike(m.bytes, z.error, halt, EndOf(r)) && halt >= p)
            && (z.Ok? ==> Alike(m.bytes, z.value.1, EndOf(r)) && halt == z.value.1 >= p)
  {
    hide ParseRecords, RecordsHalt, CanPoint, ErrorBehind, Peek16;
    var silence := Silence(m.bytes);
    SameHeader(silence, m);
    var a, b, c := Peek16(m, 6), Peek16(m, 8), Peek16(m, 10);
    RecordsAlike(m, p, q, a);
    var z1, r1 := ParseRecords(silence, p, a), ParseRecords(m, q, a);
    if z1.Ok? {
      var p2 := z1.value.1;
      var q2 := if r1.Ok? then r1.value.1 else p2;
      RecordsAlike(m, p2, q2, b);
      var z2, r2 := ParseRecords(silence, p2, b), ParseRecords(m, q2, b);
      if z2.Ok? {
        var p3 := z2.value.1;
        RecordsAlike(m, p3, if r2.Ok? then r2.value.1 else p3, c);
      }
    }
  }

  /** Where the parser comes to an end of the packet, or to something in it that it refuses */
  function Halt(m: Memory): nat {
    if |m.bytes| < HEADER then 0
    else
      match ParseQueries(m, HEADER, Peek16(m, 4))
      case Err(_) => QueriesHalt(m, HEADER, Peek16(m, 4))
      case Ok((_, p)) => SectionsHalt(m, p)
  }

  lemma WholeAlike(m: Memory)
    requires Ends(m.bytes) && |m.bytes| >= HEADER
    ensures var z, r := ParseWhole(Silence(m.bytes)), ParseWhole(m);
            var halt := Halt(Silence(m.bytes));
            && (z.Err? ==> FailAlike(m.bytes, z.error, halt, EndOf(r)))
            && (z.Ok? ==> Alike(m.bytes, z.value.1, EndOf(r)) && halt == z.value.1)
  {
    hide ParseQueries, ParseSections, QueriesHalt, SectionsHalt, CanPoint, ErrorBehind, Peek16;
    var silence := Silence(m.bytes);
    SameHeader(silence, m);
    var n := Peek16(m, 4);
    QueriesAlike(m, HEADER, HEADER, n);
    var z, r := ParseQueries(silence, HEADER, n), ParseQueries(m, HEADER, n);
    if z.Ok? {
      SectionsAlike(m, z.value.1, if r.Ok? then r.value.1 else z.value.1);
    }
  }

  // ----- A pointer behind the packet -----

  /** Zeros behind the packet, but for a pointer to `o` at one place */
  function Planted(bytes: seq<byte>, x: nat, o: nat): (m: Memory)
    requires o < POINTER_LIMIT
  {
    Memory(bytes, i => if i == x then 0xc0 + o / 256 else if i == x + 1 then o % 256 else 0)
  }

  lemma PlantedThere(bytes: seq<byte>, x: nat, o: nat)
    requires o < POINTER_LIMIT
    ensures var m := Planted(bytes, x, o);
            && m.bytes == bytes && Agree(Silence(bytes), m, x)
            && Peek(m, |bytes| + x) >= COMPRESSED && Peek16(m, |bytes| + x) - 256 * COMPRESSED == o
  {
  }

  lemma PointerRefused(m: Memory, p: nat, o: nat)
    requires Ends(m.bytes) && p >= |m.bytes| && Peek(m, p) >= COMPRESSED && Peek16(m, p) - 256 * COMPRESSED == o
    requires o >= |m.bytes| || NameLen(Silence(m.bytes), o, 1) == Err(BadPointer)
    ensures ParseRecord(m, p) == Err(BadPointer)
  {
    hide Peek, Peek16;
    ParseNameIs(m, p);
    if o < |m.bytes| {
      PointsInside(m, o);
    }
  }

  lemma {:induction false} RecordsPlanted(m: Memory, p: nat, n: nat, k: nat)
    requires var z := Silence(m.bytes);
             && Ends(m.bytes) && Agree(z, m, k) && ParseRecords(z, p, n).Err? && RecordsHalt(z, p, n) == |m.bytes| + k
    requires ParseRecord(m, |m.bytes| + k) == Err(BadPointer)
    ensures ParseRecords(m, p, n) == Err(BadPointer)
    decreases n
  {
    hide ParseRecord, Shut, Agree;
    var z := Silence(m.bytes);
    RecordsAlike(z, p, p, n);
    if ParseRecord(z, p).Ok? {
      var next := ParseRecord(z, p).value.1;
      RecordsAlike(z, next, next, n - 1);
      SilenceAgrees(m);
      MoreShut(z, k);
      RecordLocal(z, m, p, k);
      RecordsPlanted(m, next, n - 1, k);
    }
  }

  lemma SectionsPlanted(m: Memory, p: nat, k: nat)
    requires var z := Silence(m.bytes);
             && Ends(m.bytes) && Agree(z, m, k) && ParseSections(z, p).Err? && SectionsHalt(z, p) == |m.bytes| + k
    requires |m.bytes| >= HEADER && ParseRecord(m, |m.bytes| + k) == Err(BadPointer)
    ensures ParseSections(m, p) == Err(BadPointer)
  {
    hide ParseRecords, RecordsHalt, ParseRecord, Shut, Agree, Peek16;
    var z := Silence(m.bytes);
    SameHeader(z, m);
    SilenceAgrees(m);
    MoreShut(z, k);
    var a, b, c := Peek16(m, 6), Peek16(m, 8), Peek16(m, 10);
    RecordsAlike(z, p, p, a);
    if ParseRecords(z, p, a).Err? {
      RecordsPlanted(m, p, a, k);
    } else {
      var p2 := ParseRecords(z, p, a).value.1;
      RecordsAlike(z, p2, p2, b);
      if ParseRecords(z, p2, b).Err? {
        RecordsLocal(z, m, p, a, k);
        RecordsPlanted(m, p2, b, k);
      } else {
        var p3 := ParseRecords(z, p2, b).value.1;
        RecordsAlike(z, p3, p3, c);
        RecordsLocal(z, m, p, a, k);
        RecordsLocal(z, m, p2, b, k);
        RecordsPlanted(m, p3, c, k);
      }
    }
  }

  lemma WholePlanted(m: Memory, k: nat)
    requires var z := Silence(m.bytes);
             && Ends(m.bytes) && Agree(z, m, k) && ParseWhole(z).Err? && Halt(z) == |m.bytes| + k
    requires |m.bytes| >= HEADER && ParseRecord(m, |m.bytes| + k) == Err(BadPointer)
    ensures ParseWhole(m) == Err(BadPointer)
  {
    hide ParseQueries, ParseSections, SectionsHalt, ParseRecord, Shut, Agree, Peek16;
    var z := Silence(m.bytes);
    SameHeader(z, m);
    SilenceAgrees(m);
    MoreShut(z, k);
    var n := Peek16(m, 4);
    QueriesAlike(z, HEADER, HEADER, n);
    var p := ParseQueries(z, HEADER, n).value.1;
    SectionsAlike(z, p, p);
    QueriesLocal(z, m, HEADER, n, k);
    SectionsPlanted(m, p, k);
  }

  // ----- When it matters -----

  /** What is read: nothing, if the packet is refused */
  function Reading(bytes: seq<byte>, beyond: nat -> byte): Option<Packet> {
    match ParsePacket(Memory(bytes, beyond))
    case Ok(p) => Some(p)
    case Err(_) => None
  }

  /** What lies behind a packet matters to whether it is read, or as what, exactly if it is read with
      zeros behind it and comes to an end behind it. One that is not read so is never read. */
  lemma BehindMatters(bytes: seq<byte>)
    requires Ends(bytes)
    ensures (exists b: nat -> byte, b': nat -> byte :: Reading(bytes, b) != Reading(bytes, b')) <==>
            ParseWhole(Silence(bytes)).Ok? && Halt(Silence(bytes)) > |bytes|
    ensures ParseWhole(Silence(bytes)).Err? ==> forall b: nat -> byte :: Reading(bytes, b) == None
  {
    hide ParseWhole, ParsePacket, Halt, CanPoint;
    var z := Silence(bytes);
    ShortIsRefused(z);
    if |bytes| >= HEADER {
      WholeAlike(z);
    }
    SilenceAgrees(z);
    WholeIsPacket(z);
    if ParseWhole(z).Err? {
      forall b: nat -> byte ensures Reading(bytes, b) == None { Refused(bytes, b); }
    } else if Halt(z) <= |bytes| {
      forall b: nat -> byte ensures Reading(bytes, b) == Reading(bytes, z.beyond) { ReadAlike(bytes, b); }
    } else {
      var x, v := WholeDepends(z);
      WholeIsPacket(Changed(z, x, v));
      assert Reading(bytes, z.beyond) != Reading(bytes, Changed(z, x, v).beyond);
    }
  }

  lemma ShortIsRefused(m: Memory)
    ensures |m.bytes| < HEADER ==> ParseWhole(m).Err?
  {
  }

  lemma Refused(bytes: seq<byte>, b: nat -> byte)
    requires Ends(bytes) && ParseWhole(Silence(bytes)).Err?
    ensures ParsePacket(Memory(bytes, b)).Err?
    ensures var z, r := ParseWhole(Silence(bytes)), ParsePacket(Memory(bytes, b));
            if |bytes| < HEADER then r.error == z.error
            else FailAlike(bytes, z.error, Halt(Silence(bytes)), Err(r.error))
  {
    hide Halt, CanPoint;
    var m := Memory(bytes, b);
    WholeIsPacket(m);
    if |bytes| >= HEADER {
      hide ParseWhole;
      WholeAlike(m);
    }
  }

  lemma ReadAlike(bytes: seq<byte>, b: nat -> byte)
    requires Ends(bytes) && ParseWhole(Silence(bytes)).Ok? && ParseWhole(Silence(bytes)).value.1 <= |bytes|
    ensures ParsePacket(Memory(bytes, b)) == ParsePacket(Silence(bytes))
  {
    hide ParseWhole, ParsePacket;
    SilenceAgrees(Memory(bytes, b));
    WholeLocal(Silence(bytes), Memory(bytes, b), 0);
  }

  /** And it matters to the error with which a packet is refused exactly if, with zeros behind it, a
      record is refused that begins behind it, and a pointer there can be refused for pointing. */
  lemma BehindMattersToErrors(bytes: seq<byte>)
    requires Ends(bytes) && ParseWhole(Silence(bytes)).Err?
    ensures (exists b: nat -> byte, b': nat -> byte :: ParsePacket(Memory(bytes, b)) != ParsePacket(Memory(bytes, b'))) <==>
            |bytes| >= HEADER && Halt(Silence(bytes)) >= |bytes| && CanPoint(bytes)
  {
    hide ParseWhole, ParsePacket, Halt, CanPoint;
    var z := Silence(bytes);
    if |bytes| >= HEADER && Halt(z) >= |bytes| && CanPoint(bytes) {
      var k := Halt(z) - |bytes|;
      var o := Pointed(bytes);
      var m := Planted(bytes, k, o);
      PlantedThere(bytes, k, o);
      PointerRefused(m, |bytes| + k, o);
      WholePlanted(m, k);
      WholeIsPacket(m);
      Refused(bytes, z.beyond);
      WholeIsPacket(z);
      assert ParsePacket(Memory(bytes, z.beyond)) != ParsePacket(Memory(bytes, m.beyond));
    } else {
      forall b: nat -> byte ensures ParsePacket(Memory(bytes, b)) == Err(ParseWhole(z).error) { Refused(bytes, b); }
    }
  }

  lemma Pointed(bytes: seq<byte>) returns (o: nat)
    requires CanPoint(bytes)
    ensures o < POINTER_LIMIT && (o >= |bytes| || NameLen(Silence(bytes), o, 1) == Err(BadPointer))
  {
    if |bytes| < POINTER_LIMIT {
      o := POINTER_LIMIT - 1;
    } else {
      o :| o < POINTER_LIMIT && NameLen(Silence(bytes), o, 1) == Err(BadPointer);
    }
  }

  /** A header that announces an answer, and nothing behind it: refused for its size with zeros
      behind it, and for a pointer with ones. */
  lemma AnswerBehind()
    ensures ParsePacket(Memory(OneAnswer(), i => 0)) == Err(BadSize)
    ensures ParsePacket(Memory(OneAnswer(), i => 255)) == Err(BadPointer)
  {
    hide ParseRecord, ParsePacket;
    var zeros, ones := Memory(OneAnswer(), i => 0), Memory(OneAnswer(), i => 255);
    FirstRecord(zeros);
    RecordBehind(zeros, HEADER);
    FirstRecord(ones);
    assert Peek16(ones, HEADER) - 256 * COMPRESSED == 0x3fff;
    PointerRefused(ones, HEADER, 0x3fff);
  }

  function OneAnswer(): seq<byte> {
    [0, 0, 0, 0, 0, 0, 0, 1, 0, 0, 0, 0]
  }

  lemma FirstRecord(m: Memory)
    requires m.bytes == OneAnswer()
    ensures ParseRecord(m, HEADER).Err? ==> ParsePacket(m) == Err(ParseRecord(m, HEADER).error)
  {
    hide ParseRecord;
    OneQuery(m, HEADER);
    assert ParseRecords(m, HEADER, 1).Err? <== ParseRecord(m, HEADER).Err?;
  }
}
