/** How far the parser of dns.c looks behind the end of a packet, and when what it finds there
    makes a difference. */
module DnsBounds {
  import opened Bytes
  import opened DnsPacket
  import opened Wrappers
  import opened DnsNames
  import opened DnsWire

  /** The same packet, and the same `k` bytes behind it */
  ghost predicate Agree(m: Memory, m': Memory, k: nat) {
    m.bytes == m'.bytes && forall i: nat :: i < k ==> m.beyond(i) == m'.beyond(i)
  }

  /** A pointer does not begin in the last byte of the packet, or its second byte is known. */
  predicate Shut(m: Memory, k: nat) {
    k >= 1 || m.bytes == [] || m.bytes[|m.bytes| - 1] < COMPRESSED
  }

  lemma SamePeek(m: Memory, m': Memory, k: nat, i: nat)
    requires Agree(m, m', k) && i < |m.bytes| + k
    ensures Peek(m, i) == Peek(m', i)
  {
  }

  // ----- Names -----

  /** The bytes of a name in its place are known. */
  predicate NameKnown(m: Memory, p: nat, depth: nat, k: nat)
    requires depth <= MAX_HOPS + 1
  {
    || p < |m.bytes|
    || p + 2 <= |m.bytes| + k
    || (NameLen(m, p, depth).Ok? && p + NameLen(m, p, depth).value.0 <= |m.bytes| + k)
  }

  lemma SamePointer(m: Memory, m': Memory, p: nat, depth: nat, k: nat)
    requires Agree(m, m', k) && Shut(m, k) && depth <= MAX_HOPS + 1 && NameKnown(m, p, depth, k)
    ensures depth <= MAX_HOPS ==> Peek(m, p) == Peek(m', p)
    ensures depth <= MAX_HOPS && Peek(m, p) >= COMPRESSED ==> Peek16(m, p) == Peek16(m', p)
  {
    hide Peek;
    if depth <= MAX_HOPS {
      SamePeek(m, m', k, p);
      if Peek(m, p) >= COMPRESSED {
        assert p == |m.bytes| - 1 ==> Peek(m, p) == m.bytes[p] by { LastByte(m, p); }
        SamePeek(m, m', k, p + 1);
      }
    }
  }

  lemma LastByte(m: Memory, p: nat)
    ensures p < |m.bytes| ==> Peek(m, p) == m.bytes[p]
  {
  }

  lemma {:induction false} NameLocal(m: Memory, m': Memory, p: nat, depth: nat, k: nat)
    requires Agree(m, m', k) && Shut(m, k) && depth <= MAX_HOPS + 1 && NameKnown(m, p, depth, k)
    ensures NameLen(m, p, depth) == NameLen(m', p, depth) && GetName(m, p, depth) == GetName(m', p, depth)
    decreases MAX_HOPS + 1 - depth, Left(m, p)
  {
    hide Peek, Shut;
    if depth <= MAX_HOPS {
      SamePointer(m, m', p, depth, k);
      var b := Peek(m, p);
      if b >= COMPRESSED {
        var offset := Peek16(m, p) - 256 * COMPRESSED;
        if offset < |m.bytes| {
          NameLocal(m, m', offset, depth + 1, k);
        }
      } else if b != 0 && p + b + 1 < |m.bytes| {
        NameLocal(m, m', p + b + 1, depth, k);
        SamePeek(m, m', k, p + b + 1);
        SameMany(m, m', k, p + 1, b);
      }
    }
  }

  lemma SameMany(m: Memory, m': Memory, k: nat, p: nat, n: nat)
    requires Agree(m, m', k) && p + n <= |m.bytes| + k
    ensures PeekMany(m, p, n) == PeekMany(m', p, n)
  {
    forall i | 0 <= i < n ensures PeekMany(m, p, n)[i] == PeekMany(m', p, n)[i] { SamePeek(m, m', k, p + i); }
  }

  /** A name begun in the packet ends in it, but for a pointer that begins in its last byte. */
  lemma {:induction false} NameEnds(m: Memory, p: nat, depth: nat)
    requires depth <= MAX_HOPS + 1 && NameLen(m, p, depth).Ok?
    ensures var end := p + NameLen(m, p, depth).value.0;
            && p < end && (p < |m.bytes| ==> end <= |m.bytes| + 1) && (p >= |m.bytes| ==> end <= p + 2)
            && (p < |m.bytes| && Shut(m, 0) ==> end <= |m.bytes|)
    decreases Left(m, p)
  {
    var b := Peek(m, p);
    if 0 < b < COMPRESSED {
      NameEnds(m, p + b + 1, depth);
    }
  }

  /** What ParseName needs to know */
  predicate Known(m: Memory, p: nat, k: nat) {
    || p < |m.bytes|
    || p + 2 <= |m.bytes| + k
    || (ParseName(m, p).Ok? && p + ParseName(m, p).value.1 <= |m.bytes| + k)
  }

  lemma ParseNameLocal(m: Memory, m': Memory, p: nat, k: nat)
    requires Agree(m, m', k) && Shut(m, k) && Known(m, p, k)
    ensures ParseName(m, p) == ParseName(m', p)
    ensures ParseName(m, p).Ok? ==>
              var end := p + ParseName(m, p).value.1;
              && p < end && (p < |m.bytes| ==> end <= |m.bytes| + 1) && (p >= |m.bytes| ==> end <= p + 2)
              && (p < |m.bytes| && Shut(m, 0) ==> end <= |m.bytes|)
  {
    hide NameLen, GetName, Shut;
    NameLocal(m, m', p, 0, k);
    if NameLen(m, p, 0).Ok? {
      NameEnds(m, p, 0);
    }
  }

  // ----- Questions and records -----

  /** Either the result does not reach past the known bytes, or no result could. */
  predicate QueryKnown(m: Memory, p: nat, k: nat) {
    || (k >= 5 && p + 6 <= |m.bytes| + k)
    || (ParseQuery(m, p).Ok? && ParseQuery(m, p).value.1 <= |m.bytes| + k)
  }

  lemma QueryLocal(m: Memory, m': Memory, p: nat, k: nat)
    requires Agree(m, m', k) && Shut(m, k) && QueryKnown(m, p, k)
    ensures ParseQuery(m, p) == ParseQuery(m', p)
    ensures ParseQuery(m, p).Ok? ==>
              var next := ParseQuery(m, p).value.1;
              p + 5 <= next && (p <= |m.bytes| ==> next <= |m.bytes| + 6) && (p >= |m.bytes| ==> next <= p + 6)
  {
    hide ParseName, Shut, Peek;
    ParseNameLocal(m, m', p, k);
    if ParseName(m, p).Ok? {
      var t := p + ParseName(m, p).value.1;
      SamePeek(m, m', k, t);
      SamePeek(m, m', k, t + 1);
      SamePeek(m, m', k, t + 2);
      SamePeek(m, m', k, t + 3);
    }
  }

  predicate RdataKnown(m: Memory, p: nat, rtype: nat, rdlength: nat, k: nat) {
    || k >= 18
    || (ParseRdata(m, p, rtype, rdlength).Ok? && p + ParseRdata(m, p, rtype, rdlength).value.1 <= |m.bytes| + k)
  }

  lemma RdataLocal(m: Memory, m': Memory, p: nat, rtype: nat, rdlength: nat, k: nat)
    requires Agree(m, m', k) && Shut(m, k) && p + rdlength <= |m.bytes| && RdataKnown(m, p, rtype, rdlength, k)
    ensures ParseRdata(m, p, rtype, rdlength) == ParseRdata(m', p, rtype, rdlength)
    ensures ParseRdata(m, p, rtype, rdlength).Ok? ==> p + ParseRdata(m, p, rtype, rdlength).value.1 <= |m.bytes| + 16
  {
    hide ParseName, Shut, Peek, Known;
    if rtype == TYPE_A {
      SameMany(m, m', k, p, 4);
    } else if rtype == TYPE_AAAA {
      SameMany(m, m', k, p, 16);
    } else if HasTarget(rtype) {
      TargetKnown(m, p, k);
      ParseNameLocal(m, m', p, k);
    } else if rtype == TYPE_SRV {
      TargetKnown(m, p + 6, k);
      ParseNameLocal(m, m', p + 6, k);
      if ParseName(m, p + 6).Ok? {
        SameWords(m, m', k, p);
      }
    } else {
      SameMany(m, m', k, p, rdlength);
    }
  }

  lemma TargetKnown(m: Memory, p: nat, k: nat)
    requires p <= |m.bytes| + 6
    requires k >= 18 || (ParseName(m, p).Ok? && p + ParseName(m, p).value.1 <= |m.bytes| + k)
    ensures Known(m, p, k)
  {
    hide ParseName;
  }

  lemma SameWords(m: Memory, m': Memory, k: nat, p: nat)
    requires Agree(m, m', k) && p + 6 <= |m.bytes| + k
    ensures Peek16(m, p) == Peek16(m', p) && Peek16(m, p + 2) == Peek16(m', p + 2) && Peek16(m, p + 4) == Peek16(m', p + 4)
  {
    hide Peek;
    forall i | p <= i < p + 6 ensures Peek(m, i) == Peek(m', i) { SamePeek(m, m', k, i); }
  }

  predicate RecordKnown(m: Memory, p: nat, k: nat) {
    || (k >= 18 && p + 2 <= |m.bytes| + k)
    || (ParseRecord(m, p).Ok? && ParseRecord(m, p).value.1 <= |m.bytes| + k)
  }

  /** A record begins in the packet, and ends at most 16 bytes behind it. */
  lemma RecordLocal(m: Memory, m': Memory, p: nat, k: nat)
    requires Agree(m, m', k) && Shut(m, k) && RecordKnown(m, p, k)
    ensures ParseRecord(m, p) == ParseRecord(m', p)
    ensures ParseRecord(m, p).Ok? ==> p + 10 < ParseRecord(m, p).value.1 <= |m.bytes| + 16 && p < |m.bytes|
  {
    hide ParseName, ParseRdata, Shut, Peek;
    ParseNameLocal(m, m', p, k);
    if ParseName(m, p).Ok? {
      var t := p + ParseName(m, p).value.1;
      if t + 10 <= |m.bytes| {
        SameWords(m, m', k, t);
        SameWords(m, m', k, t + 4);
        if t + 10 + Peek16(m, t + 8) <= |m.bytes| && Peek16(m, t + 2) == CLASS_IN {
          RdataLocal(m, m', t + 10, Peek16(m, t), Peek16(m, t + 8), k);
        }
      }
    }
  }

  /** How many bytes behind the packet the parser may look at when there are `n` questions */
  function Window(n: nat): (k: nat) {
    if 6 * n + 2 < 18 then 18 else 6 * n + 2
  }

  predicate QueriesKnown(m: Memory, p: nat, n: nat, k: nat) {
    || (k >= 18 && k >= 6 * n && p + 6 * n <= |m.bytes| + k)
    || (ParseQueries(m, p, n).Ok? && ParseQueries(m, p, n).value.1 <= |m.bytes| + k)
  }

  lemma QueriesStep(m: Memory, p: nat, n: nat)
    requires n > 0
    ensures ParseQueries(m, p, n) ==
            match ParseQuery(m, p)
            case Err(e) => Err(e)
            case Ok((q, next)) =>
              match ParseQueries(m, next, n - 1)
              case Err(e) => Err(e)
              case Ok((rest, end)) => Ok(([q] + rest, end))
  {
  }

  lemma {:induction false} QueriesGrow(m: Memory, p: nat, n: nat)
    ensures ParseQueries(m, p, n).Ok? ==> p + 5 * n <= ParseQueries(m, p, n).value.1
    ensures ParseQueries(m, p, n).Ok? && p <= |m.bytes| ==> ParseQueries(m, p, n).value.1 <= |m.bytes| + 6 * n
    ensures ParseQueries(m, p, n).Ok? && p >= |m.bytes| ==> ParseQueries(m, p, n).value.1 <= p + 6 * n
    decreases n
  {
    hide ParseQuery;
    if n > 0 && ParseQuery(m, p).Ok? {
      QueryEnds(m, p);
      QueriesGrow(m, ParseQuery(m, p).value.1, n - 1);
    }
  }

  lemma QueryEnds(m: Memory, p: nat)
    requires ParseQuery(m, p).Ok?
    ensures var next := ParseQuery(m, p).value.1;
            p + 5 <= next && (p <= |m.bytes| ==> next <= |m.bytes| + 6) && (p >= |m.bytes| ==> next <= p + 6)
  {
    hide ParseQuery;
    QueryLocal(m, m, p, ParseQuery(m, p).value.1 + 1);
  }

  lemma {:induction false} QueriesLocal(m: Memory, m': Memory, p: nat, n: nat, k: nat)
    requires Agree(m, m', k) && Shut(m, k) && QueriesKnown(m, p, n, k)
    ensures ParseQueries(m, p, n) == ParseQueries(m', p, n)
    decreases n
  {
    hide ParseQuery, ParseQueries, Shut, Agree;
    if n == 0 {
      NoQueries(m, m', p);
    } else {
      QueriesStep(m, p, n);
      QueriesStep(m', p, n);
      SameBytes(m, m', k);
      if ParseQuery(m, p).Ok? {
        QueryEnds(m, p);
        QueriesGrow(m, ParseQuery(m, p).value.1, n - 1);
      }
      QueryLocal(m, m', p, k);
      if ParseQuery(m, p).Ok? {
        QueriesLocal(m, m', ParseQuery(m, p).value.1, n - 1, k);
      }
    }
  }

  lemma NoQueries(m: Memory, m': Memory, p: nat)
    ensures ParseQueries(m, p, 0) == ParseQueries(m', p, 0)
  {
  }

  lemma SameBytes(m: Memory, m': Memory, k: nat)
    requires Agree(m, m', k)
    ensures m.bytes == m'.bytes
  {
  }

  predicate RecordsKnown(m: Memory, p: nat, n: nat, k: nat) {
    || (k >= 18 && p + 2 <= |m.bytes| + k)
    || (ParseRecords(m, p, n).Ok? && ParseRecords(m, p, n).value.1 <= |m.bytes| + k)
  }

  lemma RecordsStep(m: Memory, p: nat, n: nat)
    requires n > 0
    ensures ParseRecords(m, p, n) ==
            match ParseRecord(m, p)
            case Err(e) => Err(e)
            case Ok((rr, next)) =>
              match ParseRecords(m, next, n - 1)
              case Err(e) => Err(e)
              case Ok((rest, end)) => Ok(([rr] + rest, end))
  {
  }

  lemma RecordEnds(m: Memory, p: nat)
    requires ParseRecord(m, p).Ok?
    ensures p + 10 < ParseRecord(m, p).value.1 <= |m.bytes| + 16 && p < |m.bytes|
  {
    hide ParseRecord;
    RecordLocal(m, m, p, ParseRecord(m, p).value.1 + 1);
  }

  lemma {:induction false} RecordsGrow(m: Memory, p: nat, n: nat)
    requires ParseRecords(m, p, n).Ok?
    ensures var end := ParseRecords(m, p, n).value.1;
            if n == 0 then end == p else p < |m.bytes| && p + 10 < end <= |m.bytes| + 16
    decreases n
  {
    hide ParseRecord;
    if n > 0 {
      RecordEnds(m, p);
      RecordsGrow(m, ParseRecord(m, p).value.1, n - 1);
    }
  }

  lemma {:induction false} RecordsLocal(m: Memory, m': Memory, p: nat, n: nat, k: nat)
    requires Agree(m, m', k) && Shut(m, k) && RecordsKnown(m, p, n, k)
    ensures ParseRecords(m, p, n) == ParseRecords(m', p, n)
    decreases n
  {
    hide ParseRecord, ParseRecords, Shut, Agree;
    if n == 0 {
      NoRecords(m, m', p);
    } else {
      RecordsStep(m, p, n);
      RecordsStep(m', p, n);
      SameBytes(m, m', k);
      if ParseRecord(m, p).Ok? {
        RecordEnds(m, p);
        if ParseRecords(m, ParseRecord(m, p).value.1, n - 1).Ok? {
          RecordsGrow(m, ParseRecord(m, p).value.1, n - 1);
        }
      }
      RecordLocal(m, m', p, k);
      if ParseRecord(m, p).Ok? {
        RecordsLocal(m, m', ParseRecord(m, p).value.1, n - 1, k);
      }
    }
  }

  lemma NoRecords(m: Memory, m': Memory, p: nat)
    ensures ParseRecords(m, p, 0) == ParseRecords(m', p, 0)
  {
  }

  // ----- Packets -----

  lemma SameHeader(m: Memory, m': Memory)
    requires m.bytes == m'.bytes && |m.bytes| >= HEADER
    ensures forall i :: 0 <= i < HEADER - 1 ==> Peek16(m, i) == Peek16(m', i)
  {
  }

  /** The sections behind the questions */
  function ParseSections(m: Memory, p: nat): Result<((seq<RR>, seq<RR>, seq<RR>), nat)> {
    match ParseRecords(m, p, Peek16(m, 6))
    case Err(e) => Err(e)
    case Ok((ans, p2)) =>
      match ParseRecords(m, p2, Peek16(m, 8))
      case Err(e) => Err(e)
      case Ok((ns, p3)) =>
        match ParseRecords(m, p3, Peek16(m, 10))
        case Err(e) => Err(e)
        case Ok((ar, p4)) => Ok(((ans, ns, ar), p4))
  }

  /** A packet that is read, and where the last of it ends */
  function ParseWhole(m: Memory): Result<(Packet, nat)> {
    if m.bytes == [] then Err(NoPacket)
    else if |m.bytes| < HEADER then Err(BadSize)
    else
      match ParseQueries(m, HEADER, Peek16(m, 4))
      case Err(e) => Err(e)
      case Ok((q, p1)) =>
        match ParseSections(m, p1)
        case Err(e) => Err(e)
        case Ok(((ans, ns, ar), end)) => Ok((Packet(Peek16(m, 0), Peek16(m, 2), q, ans, ns, ar), end))
  }

  lemma WholeIsPacket(m: Memory)
    ensures ParsePacket(m) == match ParseWhole(m) case Err(e) => Err(e) case Ok((p, _)) => Ok(p)
  {
    hide ParseQueries, ParseRecords, Peek16;
  }

  predicate SectionsKnown(m: Memory, p: nat, k: nat) {
    || (k >= 18 && p + 2 <= |m.bytes| + k)
    || (ParseSections(m, p).Ok? && ParseSections(m, p).value.1 <= |m.bytes| + k)
  }

  lemma SectionsGrow(m: Memory, p: nat)
    requires ParseSections(m, p).Ok?
    ensures p <= ParseSections(m, p).value.1
    ensures p <= ParseRecords(m, p, Peek16(m, 6)).value.1 <= ParseSections(m, p).value.1
    ensures var p2 := ParseRecords(m, p, Peek16(m, 6)).value.1; ParseRecords(m, p2, Peek16(m, 8)).value.1 <= ParseSections(m, p).value.1
  {
    hide ParseRecords, Peek16;
    RecordsGrow(m, p, Peek16(m, 6));
    var p2 := ParseRecords(m, p, Peek16(m, 6)).value.1;
    RecordsGrow(m, p2, Peek16(m, 8));
    RecordsGrow(m, ParseRecords(m, p2, Peek16(m, 8)).value.1, Peek16(m, 10));
  }

  lemma SectionsLocal(m: Memory, m': Memory, p: nat, k: nat)
    requires Agree(m, m', k) && Shut(m, k) && SectionsKnown(m, p, k) && |m.bytes| >= HEADER
    ensures ParseSections(m, p) == ParseSections(m', p)
  {
    hide ParseRecords, Peek16, Shut, Agree;
    SameBytes(m, m', k);
    SameHeader(m, m');
    if ParseSections(m, p).Ok? {
      SectionsGrow(m, p);
    }
    RecordsLocal(m, m', p, Peek16(m, 6), k);
    if ParseRecords(m, p, Peek16(m, 6)).Ok? {
      RecordsGrow(m, p, Peek16(m, 6));
      var p2 := ParseRecords(m, p, Peek16(m, 6)).value.1;
      RecordsLocal(m, m', p2, Peek16(m, 8), k);
      if ParseRecords(m, p2, Peek16(m, 8)).Ok? {
        RecordsGrow(m, p2, Peek16(m, 8));
        RecordsLocal(m, m', ParseRecords(m, p2, Peek16(m, 8)).value.1, Peek16(m, 10), k);
      }
    }
  }

  predicate WholeKnown(m: Memory, k: nat) {
    || (|m.bytes| >= HEADER ==> k >= Window(Peek16(m, 4)))
    || (ParseWhole(m).Ok? && ParseWhole(m).value.1 <= |m.bytes| + k)
  }

  lemma WholeLocal(m: Memory, m': Memory, k: nat)
    requires Agree(m, m', k) && Shut(m, k) && WholeKnown(m, k)
    ensures ParseWhole(m) == ParseWhole(m') && ParsePacket(m) == ParsePacket(m')
  {
    hide ParseQueries, ParseSections, Peek16, Shut, Agree, ParsePacket;
    WholeIsPacket(m);
    WholeIsPacket(m');
    SameBytes(m, m', k);
    if |m.bytes| >= HEADER {
      SameHeader(m, m');
      QueriesGrow(m, HEADER, Peek16(m, 4));
      if ParseWhole(m).Ok? {
        SectionsGrow(m, ParseQueries(m, HEADER, Peek16(m, 4)).value.1);
      }
      QueriesLocal(m, m', HEADER, Peek16(m, 4), k);
      if ParseQueries(m, HEADER, Peek16(m, 4)).Ok? {
        SectionsLocal(m, m', ParseQueries(m, HEADER, Peek16(m, 4)).value.1, k);
      }
    }
  }

  /** What lies 18 bytes or more behind a packet never matters or, if the packet announces three
      questions or more, what lies further behind it than two bytes and six for each of them. */
  lemma ParserLooksNoFurther(m: Memory, m': Memory)
    requires Agree(m, m', Window(if |m.bytes| < HEADER then 0 else Peek16(m, 4)))
    ensures ParsePacket(m) == ParsePacket(m')
  {
    hide ParsePacket, Peek16;
    if |m.bytes| >= HEADER {
      WholeLocal(m, m', Window(Peek16(m, 4)));
    } else {
      WholeIsPacket(m);
      WholeIsPacket(m');
    }
  }

  // ----- A packet read to an end behind it -----

  /** The packet with another byte at one place behind it */
  function Changed(m: Memory, x: nat, v: byte): Memory {
    Memory(m.bytes, i => if i == x then v else m.beyond(i))
  }

  lemma ChangedThere(m: Memory, x: nat, v: byte)
    ensures Agree(m, Changed(m, x, v), x) && Agree(m, Changed(m, x, v), 0)
    ensures Peek(Changed(m, x, v), |m.bytes| + x) == v && Peek(m, |m.bytes| + x) == m.beyond(x)
  {
  }

  function Other(b: byte): byte {
    if b == 0 then 1 else 0
  }

  /** What is read is not the same. */
  predicate Differs<T(==)>(r: Result<(T, nat)>, r': Result<(T, nat)>) {
    r.Ok? && (r'.Err? || r'.value.0 != r.value.0)
  }

  lemma ListsDiffer<T>(a: T, s: seq<T>, b: T, t: seq<T>)
    requires a != b || s != t
    ensures [a] + s != [b] + t
  {
    assert ([a] + s)[0] == a && ([a] + s)[1..] == s && ([b] + t)[0] == b && ([b] + t)[1..] == t;
  }

  /** The last byte of a question is the lower byte of its class. */
  lemma QueryDepends(m: Memory, p: nat, x: nat)
    requires Shut(m, 0) && ParseQuery(m, p).Ok? && ParseQuery(m, p).value.1 == |m.bytes| + x + 1
    ensures Differs(ParseQuery(m, p), ParseQuery(Changed(m, x, Other(m.beyond(x))), p))
  {
    hide ParseName, Peek, Agree, Changed;
    var m' := Changed(m, x, Other(m.beyond(x)));
    ChangedThere(m, x, Other(m.beyond(x)));
    SameBytes(m, m', x);
    ParseNameLocal(m, m', p, x);
    var t := p + ParseName(m, p).value.1;
    SamePeek(m, m', x, t + 2);
  }

  lemma {:induction false} QueriesDepend(m: Memory, p: nat, n: nat, x: nat)
    requires Shut(m, 0) && n > 0 && ParseQueries(m, p, n).Ok? && ParseQueries(m, p, n).value.1 == |m.bytes| + x + 1
    ensures Differs(ParseQueries(m, p, n), ParseQueries(Changed(m, x, Other(m.beyond(x))), p, n))
    decreases n
  {
    hide ParseQuery, ParseQueries, Changed, Shut, Agree;
    var m' := Changed(m, x, Other(m.beyond(x)));
    QueriesStep(m, p, n);
    QueriesStep(m', p, n);
    var next := ParseQuery(m, p).value.1;
    if n == 1 {
      OneQuery(m, next);
      QueryDepends(m, p, x);
    } else {
      ChangedThere(m, x, Other(m.beyond(x)));
      QueriesGrow(m, next, n - 1);
      MoreShut(m, x);
      QueryLocal(m, m', p, x);
      QueriesDepend(m, next, n - 1, x);
    }
    if ParseQueries(m', p, n).Ok? {
      var q, q' := ParseQuery(m, p).value.0, ParseQuery(m', p).value;
      ListsDiffer(q, ParseQueries(m, next, n - 1).value.0, q'.0, ParseQueries(m', q'.1, n - 1).value.0);
    }
  }

  lemma OneQuery(m: Memory, p: nat)
    ensures ParseQueries(m, p, 0) == Ok(([], p))
  {
  }

  lemma MoreShut(m: Memory, k: nat)
    requires Shut(m, 0)
    ensures Shut(m, k)
  {
  }

  /** A name cannot begin behind the packet with a label. */
  lemma NoLabelBehind(m: Memory, p: nat)
    requires p >= |m.bytes| && Peek(m, p) == 1
    ensures ParseName(m, p).Err?
  {
  }

  lemma ManyDiffer(m: Memory, m': Memory, p: nat, n: nat, i: nat)
    requires i < n && Peek(m, p + i) != Peek(m', p + i)
    ensures PeekMany(m, p, n) != PeekMany(m', p, n)
  {
    hide Peek;
    assert PeekMany(m, p, n)[i] != PeekMany(m', p, n)[i];
  }

  lemma RdataDepends(m: Memory, p: nat, rtype: nat, rdlength: nat) returns (x: nat, v: byte)
    requires Shut(m, 0) && p + rdlength <= |m.bytes|
    requires ParseRdata(m, p, rtype, rdlength).Ok? && p + ParseRdata(m, p, rtype, rdlength).value.1 > |m.bytes|
    ensures Differs(ParseRdata(m, p, rtype, rdlength), ParseRdata(Changed(m, x, v), p, rtype, rdlength))
  {
    hide ParseName, Peek, Agree, Changed, Shut, Known;
    if rtype == TYPE_A || rtype == TYPE_AAAA {
      var n := if rtype == TYPE_A then 4 else 16;
      x := p + n - 1 - |m.bytes|;
      v := Other(m.beyond(x));
      ChangedThere(m, x, v);
      ManyDiffer(m, Changed(m, x, v), p, n, n - 1);
    } else {
      var q := if rtype == TYPE_SRV then p + 6 else p;
      NameBehind(m, q);
      x, v := q - |m.bytes|, 1;
      ChangedThere(m, x, v);
      SameBytes(m, Changed(m, x, v), 0);
      NoLabelBehind(Changed(m, x, v), q);
    }
  }

  /** A name that ends behind the packet begins there. */
  lemma NameBehind(m: Memory, p: nat)
    requires Shut(m, 0) && ParseName(m, p).Ok? && p + ParseName(m, p).value.1 > |m.bytes|
    ensures p >= |m.bytes|
  {
    hide ParseName, Shut;
    if p < |m.bytes| {
      ParseNameLocal(m, m, p, 0);
    }
  }

  lemma RecordDepends(m: Memory, p: nat) returns (x: nat, v: byte)
    requires Shut(m, 0) && ParseRecord(m, p).Ok? && ParseRecord(m, p).value.1 > |m.bytes|
    ensures Differs(ParseRecord(m, p), ParseRecord(Changed(m, x, v), p))
  {
    hide ParseName, ParseRdata, Peek, Agree, Changed, Shut;
    RecordEnds(m, p);
    var t := p + ParseName(m, p).value.1;
    x, v := RdataDepends(m, t + 10, Peek16(m, t), Peek16(m, t + 8));
    var m' := Changed(m, x, v);
    ChangedThere(m, x, v);
    SameBytes(m, m', 0);
    ParseNameLocal(m, m', p, 0);
    SameWords(m, m', 0, t);
    SameWords(m, m', 0, t + 4);
  }

  lemma {:induction false} RecordsDepend(m: Memory, p: nat, n: nat) returns (x: nat, v: byte)
    requires Shut(m, 0) && n > 0 && ParseRecords(m, p, n).Ok? && ParseRecords(m, p, n).value.1 > |m.bytes|
    ensures Differs(ParseRecords(m, p, n), ParseRecords(Changed(m, x, v), p, n))
    decreases n
  {
    hide ParseRecord, ParseRecords, Changed, Shut, Agree;
    RecordsStep(m, p, n);
    var next := ParseRecord(m, p).value.1;
    RecordsGrow(m, next, n - 1);
    if n == 1 {
      OneRecord(m, next);
      x, v := RecordDepends(m, p);
    } else {
      x, v := RecordsDepend(m, next, n - 1);
      ChangedThere(m, x, v);
      RecordLocal(m, Changed(m, x, v), p, 0);
    }
    var m' := Changed(m, x, v);
    RecordsStep(m', p, n);
    if ParseRecords(m', p, n).Ok? {
      var rr, rr' := ParseRecord(m, p).value.0, ParseRecord(m', p).value;
      ListsDiffer(rr, ParseRecords(m, next, n - 1).value.0, rr'.0, ParseRecords(m', rr'.1, n - 1).value.0);
    }
  }

  lemma OneRecord(m: Memory, p: nat)
    ensures ParseRecords(m, p, 0) == Ok(([], p))
  {
  }

  lemma SectionsDepend(m: Memory, p: nat) returns (x: nat, v: byte)
    requires Shut(m, 0) && |m.bytes| >= HEADER && p <= |m.bytes|
    requires ParseSections(m, p).Ok? && ParseSections(m, p).value.1 > |m.bytes|
    ensures Differs(ParseSections(m, p), ParseSections(Changed(m, x, v), p))
  {
    hide ParseRecords, Changed, Shut, Agree, Peek16;
    var a, b, c := Peek16(m, 6), Peek16(m, 8), Peek16(m, 10);
    var p2 := ParseRecords(m, p, a).value.1;
    var p3 := ParseRecords(m, p2, b).value.1;
    RecordsGrow(m, p, a);
    RecordsGrow(m, p2, b);
    RecordsGrow(m, p3, c);
    if c > 0 {
      x, v := RecordsDepend(m, p3, c);
    } else if b > 0 {
      x, v := RecordsDepend(m, p2, b);
    } else {
      x, v := RecordsDepend(m, p, a);
    }
    var m' := Changed(m, x, v);
    ChangedThere(m, x, v);
    SameBytes(m, m', 0);
    SameHeader(m, m');
    if b > 0 || c > 0 {
      RecordsLocal(m, m', p, a, 0);
    }
    if c > 0 {
      RecordsLocal(m, m', p2, b, 0);
    }
  }

  lemma WholeDepends(m: Memory) returns (x: nat, v: byte)
    requires Shut(m, 0) && ParseWhole(m).Ok? && ParseWhole(m).value.1 > |m.bytes|
    ensures Differs(ParseWhole(m), ParseWhole(Changed(m, x, v)))
  {
    hide ParseQueries, ParseSections, Changed, Shut, Agree, Peek16;
    var n := Peek16(m, 4);
    var p1 := ParseQueries(m, HEADER, n).value.1;
    QueriesGrow(m, HEADER, n);
    if p1 > |m.bytes| {
      NoSections(m, p1);
      x := p1 - 1 - |m.bytes|;
      v := Other(m.beyond(x));
      QueriesDepend(m, HEADER, n, x);
    } else {
      x, v := SectionsDepend(m, p1);
    }
    var m' := Changed(m, x, v);
    ChangedThere(m, x, v);
    SameBytes(m, m', 0);
    SameHeader(m, m');
    if p1 <= |m.bytes| {
      QueriesLocal(m, m', HEADER, n, 0);
    }
  }

  /** Behind the packet there is no room for a record. */
  lemma NoSections(m: Memory, p: nat)
    requires p >= |m.bytes| && ParseSections(m, p).Ok?
    ensures ParseSections(m, p).value.1 == p
  {
    hide ParseRecords, Peek16;
    RecordsGrow(m, p, Peek16(m, 6));
    RecordsGrow(m, p, Peek16(m, 8));
    RecordsGrow(m, p, Peek16(m, 10));
  }

  /** A header that announces a question, and nothing behind it */
  function OnlyHeader(): seq<byte> {
    [0, 0, 0, 0, 0, 1, 0, 0, 0, 0, 0, 0]
  }

  /** With a zero behind it, it is read as a question made of what follows that zero. */
  lemma QuestionBehind(beyond: nat -> byte)
    requires beyond(0) == 0
    ensures ParsePacket(Memory(OnlyHeader(), beyond)) ==
            Ok(Packet(0, 0, [Query([], 256 * beyond(1) + beyond(2), 256 * beyond(3) + beyond(4))], [], [], []))
  {
    var m := Memory(OnlyHeader(), beyond);
    assert ParseName(m, HEADER) == Ok(([], 1));
    assert ParseQuery(m, HEADER) == Ok((Query([], 256 * beyond(1) + beyond(2), 256 * beyond(3) + beyond(4)), HEADER + 5));
    assert ParseQueries(m, HEADER, 1) == Ok(([ParseQuery(m, HEADER).value.0], HEADER + 5)) by {
      QueriesStep(m, HEADER, 1);
      OneQuery(m, HEADER + 5);
      assert [ParseQuery(m, HEADER).value.0] + [] == [ParseQuery(m, HEADER).value.0];
    }
    OneRecord(m, HEADER + 5);
  }
}
