/** What the bytes of a packet mean, said of the bytes themselves: names as paths of labels and
    pointers, questions and records as fields (sections 3.2.1, 4.1.1 to 4.1.4 of RFC 1035,
    RFC 3596 and RFC 2782). The parser reads exactly that, and no more. */
module DnsBytes {
  import opened Bytes
  import opened DnsPacket
  import opened Wrappers
  import opened DnsNames
  import opened DnsWire

  // ----- Names -----

  /** How a name lies in a packet: labels and pointers, and how they end. `Outside` is a label that
      reaches the end of the packet, and `Astray` a pointer or a length that is out of all range. */
  datatype Path = End | Outside | Astray | Jump(rest: Path) | Label(text: seq<byte>, rest: Path)

  /** The 14 bits of a pointer, with all that a length byte of 192 or more adds */
  function Pointed(m: Memory, p: nat): int {
    (Peek(m, p) as int - 192) * 256 + Peek(m, p + 1)
  }

  ghost predicate Lies(m: Memory, p: nat, path: Path)
    decreases path
  {
    var b, max := Peek(m, p), |m.bytes|;
    match path
    case End => b == 0
    case Outside => 1 <= b <= 191 && b <= max <= p + b + 1
    case Astray => (192 <= b && max <= Pointed(m, p)) || (1 <= b <= 191 && max < b)
    case Jump(rest) => 192 <= b && 0 <= Pointed(m, p) < max && Lies(m, Pointed(m, p), rest)
    case Label(text, rest) =>
      && 1 <= b == |text| <= 191 && b <= max && p + b + 1 < max
      && (forall i :: 0 <= i < b ==> text[i] == m.bytes[p + 1 + i])
      && Lies(m, p + b + 1, rest)
  }

  function Jumps(path: Path): nat {
    match path
    case Jump(rest) => 1 + Jumps(rest)
    case Label(_, rest) => Jumps(rest)
    case _ => 0
  }

  function Ending(path: Path): (e: Path)
    ensures e.End? || e.Outside? || e.Astray?
  {
    match path
    case Jump(rest) => Ending(rest)
    case Label(_, rest) => Ending(rest)
    case _ => path
  }

  /** How many bytes of the packet a name takes: nothing that a pointer leads to */
  function Took(path: Path): nat {
    match path
    case End => 1
    case Jump(_) => 2
    case Label(text, rest) => 1 + |text| + Took(rest)
    case _ => 0
  }

  /** The labels with a dot behind each but the last one. (A label that a pointer follows has its
      dot even when the pointer leads to the empty name.) */
  function Spelled(path: Path): Name {
    match path
    case Jump(rest) => Spelled(rest)
    case Label(text, rest) => text + (if rest.End? then [] else [46]) + Spelled(rest)
    case _ => []
  }

  /** What a name comes to: after the eleventh pointer nothing counts any more. */
  function Outcome(path: Path, jumped: nat): Result<(Name, nat)> {
    if jumped + Jumps(path) > 10 || Ending(path).Astray? then Err(BadPointer)
    else if Ending(path).Outside? then Err(BadSize)
    else Ok((Spelled(path), Took(path)))
  }

  function Both(m: Memory, p: nat, depth: nat): Result<(Name, nat)>
    requires depth <= 11
  {
    match NameLen(m, p, depth)
    case Err(e) => Err(e)
    case Ok((parsed, _)) =>
      match GetName(m, p, depth)
      case Err(e) => Err(e)
      case Ok(name) => Ok((name, parsed))
  }

  lemma BothJump(m: Memory, p: nat, depth: nat)
    requires depth <= 10 && 192 <= Peek(m, p) && 0 <= Pointed(m, p) < |m.bytes|
    ensures Both(m, p, depth) == match Both(m, Pointed(m, p), depth + 1) { case Err(e) => Err(e) case Ok((name, _)) => Ok((name, 2)) }
  {
    PassesAgree(m, Pointed(m, p), depth + 1);
  }

  lemma BothLabel(m: Memory, p: nat, depth: nat, text: seq<byte>)
    requires depth <= 10 && 1 <= Peek(m, p) == |text| <= 191 && |text| <= |m.bytes| && p + |text| + 1 < |m.bytes|
    requires PeekMany(m, p + 1, |text|) == text
    ensures Both(m, p, depth) == match Both(m, p + |text| + 1, depth) {
              case Err(e) => Err(e)
              case Ok((name, took)) => Ok((text + (if Peek(m, p + |text| + 1) == 0 then [] else [46]) + name, 1 + |text| + took)) }
  {
    hide PeekMany;
    PassesAgree(m, p + |text| + 1, depth);
  }

  lemma BothEnds(m: Memory, p: nat, path: Path, depth: nat)
    requires depth <= 10 && Lies(m, p, path) && (path.End? || path.Outside? || path.Astray?)
    ensures Both(m, p, depth) == Outcome(path, depth)
  {
  }

  lemma {:induction false} PathIsRead(m: Memory, p: nat, path: Path, depth: nat)
    requires Lies(m, p, path) && depth <= 11
    ensures Both(m, p, depth) == Outcome(path, depth)
    decreases path
  {
    hide NameLen, GetName, Both, PeekMany, Peek, Outcome;
    if depth == 11 {
      TooDeep(m, p);
      OutOfHops(path);
    } else {
      match path
      case Jump(rest) =>
        PathIsRead(m, Pointed(m, p), rest, depth + 1);
        BothJump(m, p, depth);
        JumpComesTo(rest, depth);
      case Label(text, rest) =>
        PathIsRead(m, p + |text| + 1, rest, depth);
        LabelBytes(m, p, text);
        BothLabel(m, p, depth, text);
        DotOrNone(m, p + |text| + 1, rest);
        LabelComesTo(text, rest, depth);
      case _ => BothEnds(m, p, path, depth);
    }
  }

  lemma JumpComesTo(rest: Path, depth: nat)
    requires depth <= 10
    ensures Outcome(Jump(rest), depth) ==
            match Outcome(rest, depth + 1) { case Err(e) => Err(e) case Ok((name, _)) => Ok((name, 2)) }
  {
  }

  lemma LabelComesTo(text: seq<byte>, rest: Path, depth: nat)
    ensures Outcome(Label(text, rest), depth) == match Outcome(rest, depth) {
              case Err(e) => Err(e)
              case Ok((name, took)) => Ok((text + (if rest.End? then [] else [46]) + name, 1 + |text| + took)) }
  {
  }

  lemma OutOfHops(path: Path)
    ensures Outcome(path, 11) == Err(BadPointer)
  {
  }

  lemma TooDeep(m: Memory, p: nat)
    ensures Both(m, p, 11) == Err(BadPointer)
  {
  }

  lemma LabelBytes(m: Memory, p: nat, text: seq<byte>)
    requires p + |text| + 1 < |m.bytes| && forall i :: 0 <= i < |text| ==> text[i] == m.bytes[p + 1 + i]
    ensures PeekMany(m, p + 1, |text|) == text
  {
  }

  lemma DotOrNone(m: Memory, p: nat, path: Path)
    requires Lies(m, p, path)
    ensures Peek(m, p) == 0 <==> path.End?
  {
  }

  /** Unless there are too many pointers, every name has its path. */
  lemma {:induction false} PathExists(m: Memory, p: nat, depth: nat) returns (path: Path)
    requires depth <= 11 && Both(m, p, depth).Ok?
    ensures Lies(m, p, path)
    decreases 11 - depth, Left(m, p)
  {
    var b := Peek(m, p);
    if b == 0 {
      path := End;
    } else if b >= 192 {
      PassesAgree(m, Pointed(m, p), depth + 1);
      var rest := PathExists(m, Pointed(m, p), depth + 1);
      path := Jump(rest);
    } else {
      PassesAgree(m, p + b + 1, depth);
      var rest := PathExists(m, p + b + 1, depth);
      path := Label(m.bytes[p + 1..p + 1 + b], rest);
    }
  }

  ghost predicate NameAt(m: Memory, p: nat, name: Name, next: nat) {
    exists path :: Lies(m, p, path) && IsName(path, name, next - p)
  }

  predicate IsName(path: Path, name: Name, took: int) {
    Ending(path).End? && Jumps(path) <= 10 && Spelled(path) == name && Took(path) == took
  }

  /** A name is read exactly if its labels and at most ten pointers lead to a zero byte. */
  lemma NameIsRead(m: Memory, p: nat, name: Name, took: nat)
    ensures ParseName(m, p) == Ok((name, took)) <==> NameAt(m, p, name, p + took)
  {
    assert ParseName(m, p) == Both(m, p, 0);
    if ParseName(m, p) == Ok((name, took)) {
      var path := PathExists(m, p, 0);
      PathIsRead(m, p, path, 0);
      assert IsName(path, name, p + took - p);
    }
    if NameAt(m, p, name, p + took) {
      var path :| Lies(m, p, path) && IsName(path, name, p + took - p);
      PathIsRead(m, p, path, 0);
    }
  }

  /** Why a name is refused */
  lemma NameIsRefused(m: Memory, p: nat, path: Path)
    requires Lies(m, p, path) && !(Ending(path).End? && Jumps(path) <= 10)
    ensures ParseName(m, p) == Err(if Jumps(path) > 10 || Ending(path).Astray? then BadPointer else BadSize)
  {
    PathIsRead(m, p, path, 0);
  }

  predicate PlainLabel(text: seq<byte>) {
    1 <= |text| <= 255 && 46 !in text
  }

  /** Labels on the wire: each behind its length, and a zero byte */
  function Wire(labels: seq<seq<byte>>): (s: seq<byte>)
    requires forall i :: 0 <= i < |labels| ==> PlainLabel(labels[i])
  {
    if labels == [] then [0]
    else
      assert PlainLabel(labels[0]);
      var length: byte := |labels[0]|;
      [length] + (labels[0] + Wire(labels[1..]))
  }

  function Dotted(labels: seq<seq<byte>>): Name {
    if labels == [] then []
    else if |labels| == 1 then labels[0]
    else labels[0] + [46] + Dotted(labels[1..])
  }

  /** The encoder cuts at the dots. */
  lemma {:induction false} EncodedLabels(labels: seq<seq<byte>>)
    requires forall i :: 0 <= i < |labels| ==> PlainLabel(labels[i])
    ensures Encode(Dotted(labels)) == Wire(labels)
    decreases |labels|
  {
    hide FirstLabel, AfterLabel, Dotted;
    DottedParts(labels);
    if labels != [] {
      EncodedLabels(labels[1..]);
      EncodedLabel(Dotted(labels), labels[0], Dotted(labels[1..]));
    }
  }

  lemma EncodedLabel(n: Name, first: seq<byte>, rest: Name)
    requires PlainLabel(first) && (n == first + [46] + rest || (n == first && rest == []))
    ensures Encode(n) == [|first|] + (first + Encode(rest))
  {
    hide FirstLabel, AfterLabel;
    FirstLabelIs(n, first);
    AfterLabelIs(n, first, rest);
    assert n[..|first|] == first;
  }

  lemma DottedParts(labels: seq<seq<byte>>)
    ensures labels == [] ==> Dotted(labels) == []
    ensures |labels| == 1 ==> Dotted(labels) == labels[0] && Dotted(labels[1..]) == []
    ensures |labels| > 1 ==> Dotted(labels) == labels[0] + [46] + Dotted(labels[1..])
  {
  }

  lemma {:induction false} FirstLabelIs(n: Name, first: seq<byte>)
    requires first <= n && 46 !in first && (|first| < |n| ==> n[|first|] == 46)
    ensures FirstLabel(n) == |first|
    decreases |first|
  {
    if first != [] {
      assert n[0] == first[0];
      FirstLabelIs(n[1..], first[1..]);
    }
  }

  lemma AfterLabelIs(n: Name, first: seq<byte>, rest: Name)
    requires FirstLabel(n) == |first|
    requires n == first + [46] + rest || (n == first && rest == [])
    ensures AfterLabel(n) == rest
  {
  }

  /** Names that come back are those of labels of 1 to 191 bytes, with one dot between any two. */
  lemma {:induction false} WellFormedLabels(labels: seq<seq<byte>>)
    requires forall i :: 0 <= i < |labels| ==> PlainLabel(labels[i])
    ensures WellFormed(Dotted(labels)) <==> forall i :: 0 <= i < |labels| ==> |labels[i]| <= 191
    decreases |labels|
  {
    hide FirstLabel, AfterLabel, Dotted;
    DottedParts(labels);
    if labels != [] {
      WellFormedLabels(labels[1..]);
      WellFormedLabel(Dotted(labels), labels[0], Dotted(labels[1..]), |labels| > 1);
      if |labels| > 1 { DottedNotEmpty(labels[1..]); }
      assert forall i :: 1 <= i < |labels| ==> labels[i] == labels[1..][i - 1];
    }
  }

  lemma DottedNotEmpty(labels: seq<seq<byte>>)
    requires labels != [] && PlainLabel(labels[0])
    ensures Dotted(labels) != []
  {
  }

  lemma WellFormedLabel(n: Name, first: seq<byte>, rest: Name, more: bool)
    requires PlainLabel(first) && n == (if more then first + [46] + rest else first) && (!more ==> rest == [])
    ensures WellFormed(n) <==> |first| <= 191 && (more ==> rest != [] && WellFormed(rest))
  {
    hide FirstLabel, AfterLabel;
    FirstLabelIs(n, first);
    AfterLabelIs(n, first, rest);
  }

  // ----- Fields -----

  function Field16(m: Memory, p: nat): int {
    Peek(m, p) as int * 0x100 + Peek(m, p + 1)
  }

  function Field32(m: Memory, p: nat): int {
    ((Peek(m, p) as int * 0x100 + Peek(m, p + 1)) * 0x100 + Peek(m, p + 2)) * 0x100 + Peek(m, p + 3)
  }

  ghost predicate FieldBytes(m: Memory, p: nat, s: seq<byte>) {
    forall i :: 0 <= i < |s| ==> s[i] == Peek(m, p + i)
  }

  /** A question: its name, and two bytes each of type and class */
  ghost predicate QueryBehind(m: Memory, t: nat, q: Query, next: nat) {
    q.qtype == Field16(m, t) && q.qclass == Field16(m, t + 2) && next == t + 4
  }

  ghost predicate QueryAt(m: Memory, p: nat, q: Query, next: nat) {
    exists t: nat :: NameAt(m, p, q.name, t) && QueryBehind(m, t, q, next)
  }

  lemma QueryIsRead(m: Memory, p: nat, q: Query, next: nat)
    ensures ParseQuery(m, p) == Ok((q, next)) <==> QueryAt(m, p, q, next)
  {
    hide ParseName, NameAt;
    match ParseName(m, p) {
      case Ok((name, took)) =>
        NameIsRead(m, p, name, took);
        if ParseQuery(m, p) == Ok((q, next)) {
          assert QueryBehind(m, p + took, q, next);
        }
      case Err(_) =>
    }
    if QueryAt(m, p, q, next) {
      var t: nat :| NameAt(m, p, q.name, t) && QueryBehind(m, t, q, next);
      NamesAdvance(m, p, q.name, t);
      NameIsRead(m, p, q.name, t - p);
    }
  }

  lemma NamesAdvance(m: Memory, p: nat, name: Name, t: nat)
    requires NameAt(m, p, name, t)
    ensures p <= t
  {
    var path :| Lies(m, p, path) && IsName(path, name, t - p);
  }

  /** The record's data. The parser does not go by the length field of the types it knows: an
      address takes 4 or 16 bytes, and a name the bytes that it takes. */
  ghost predicate DataAt(m: Memory, p: nat, rtype: int, len: int, data: Rdata, next: nat) {
    if rtype == 1 then data.HostAddress? && |data.ip| == 4 && FieldBytes(m, p, data.ip) && next == p + 4
    else if rtype == 28 then data.Address6? && |data.ip6| == 16 && FieldBytes(m, p, data.ip6) && next == p + 16
    else if rtype == 2 || rtype == 5 || rtype == 12 then data.Target? && NameAt(m, p, data.name, next)
    else if rtype == 33 then
      && data.Service? && data.prio == Field16(m, p) && data.weight == Field16(m, p + 2) && data.port == Field16(m, p + 4)
      && NameAt(m, p + 6, data.target, next)
    else data.Raw? && |data.data| == len && FieldBytes(m, p, data.data) && next == p + len
  }

  /** A record's type, class, time to live and length, in front of its data. The packet holds the
      ten bytes, and as many more as the length says. */
  ghost predicate RecordBehind(m: Memory, t: nat, rr: RR, next: nat) {
    && t + 10 + Field16(m, t + 8) <= |m.bytes|
    && rr.rtype == Field16(m, t) && rr.rclass == Field16(m, t + 2) == 1 && rr.ttl == Field32(m, t + 4)
    && DataAt(m, t + 10, rr.rtype, Field16(m, t + 8), rr.rdata, next)
  }

  ghost predicate RecordAt(m: Memory, p: nat, rr: RR, next: nat) {
    exists t: nat :: NameAt(m, p, rr.name, t) && RecordBehind(m, t, rr, next)
  }

  lemma SameBytes(m: Memory, p: nat, s: seq<byte>, n: nat)
    ensures PeekMany(m, p, n) == s <==> |s| == n && FieldBytes(m, p, s)
  {
  }

  lemma DataIsRead(m: Memory, p: nat, rtype: nat, len: nat, data: Rdata, took: nat)
    ensures ParseRdata(m, p, rtype, len) == Ok((data, took)) <==> DataAt(m, p, rtype, len, data, p + took)
  {
    hide ParseName, NameAt, PeekMany, FieldBytes;
    match data
    case HostAddress(ip) => SameBytes(m, p, ip, 4);
    case Address6(ip6) => SameBytes(m, p, ip6, 16);
    case Target(name) => NameIsRead(m, p, name, took);
    case Service(_, _, _, target) =>
      if took >= 6 { NameIsRead(m, p + 6, target, took - 6); }
      if NameAt(m, p + 6, target, p + took) { NamesAdvance(m, p + 6, target, p + took); }
    case Raw(text) => SameBytes(m, p, text, len);
  }

  lemma BehindIsRead(m: Memory, p: nat, t: nat, rr: RR, next: nat)
    requires ParseName(m, p) == Ok((rr.name, t - p)) && p <= t
    ensures ParseRecord(m, p) == Ok((rr, next)) <==> RecordBehind(m, t, rr, next)
  {
    hide ParseName, NameAt, ParseRdata, DataAt, Peek;
    if next >= t + 10 {
      DataIsRead(m, t + 10, Peek16(m, t), Peek16(m, t + 8), rr.rdata, next - (t + 10));
    }
    if RecordBehind(m, t, rr, next) { DataAdvances(m, t + 10, rr.rtype, Field16(m, t + 8), rr.rdata, next); }
  }

  lemma DataAdvances(m: Memory, p: nat, rtype: int, len: int, data: Rdata, next: nat)
    requires DataAt(m, p, rtype, len, data, next) && len >= 0
    ensures p <= next
  {
    hide NameAt, FieldBytes;
    if rtype == 2 || rtype == 5 || rtype == 12 { NamesAdvance(m, p, data.name, next); }
    if rtype == 33 { NamesAdvance(m, p + 6, data.target, next); }
  }

  lemma RecordIsRead(m: Memory, p: nat, rr: RR, next: nat)
    ensures ParseRecord(m, p) == Ok((rr, next)) <==> RecordAt(m, p, rr, next)
  {
    hide ParseName, NameAt, RecordBehind;
    match ParseName(m, p) {
      case Ok((name, took)) =>
        NameIsRead(m, p, name, took);
        if ParseRecord(m, p) == Ok((rr, next)) {
          RecordKeepsName(m, p, rr, next);
          BehindIsRead(m, p, p + took, rr, next);
        }
      case Err(_) =>
    }
    if RecordAt(m, p, rr, next) {
      var t: nat :| NameAt(m, p, rr.name, t) && RecordBehind(m, t, rr, next);
      NamesAdvance(m, p, rr.name, t);
      NameIsRead(m, p, rr.name, t - p);
      BehindIsRead(m, p, t, rr, next);
    }
  }

  lemma RecordKeepsName(m: Memory, p: nat, rr: RR, next: nat)
    requires ParseRecord(m, p) == Ok((rr, next))
    ensures ParseName(m, p).Ok? && ParseName(m, p).value.0 == rr.name
  {
    hide ParseName, ParseRdata;
  }

  /** Why a record is refused behind its name: it does not fit into the packet, or its class is not
      IN, in this order; otherwise it is for a name in its data. */
  lemma RecordIsRefused(m: Memory, p: nat, name: Name, t: nat)
    requires NameAt(m, p, name, t)
    ensures ParseRecord(m, p) == Err(BadClass) <==> t + 10 <= |m.bytes| && Field16(m, t + 2) != 1
    ensures t + 10 > |m.bytes| ==> ParseRecord(m, p) == Err(BadSize)
    ensures t + 10 <= |m.bytes| < t + 10 + Field16(m, t + 8) && Field16(m, t + 2) == 1 ==> ParseRecord(m, p) == Err(BadSize)
    ensures t + 10 + Field16(m, t + 8) <= |m.bytes| && Field16(m, t + 2) == 1 ==>
            var rtype, data := Field16(m, t), if Field16(m, t) == 33 then t + 16 else t + 10;
            ParseRecord(m, p).Err? <==> rtype in {2, 5, 12, 33} && ParseName(m, data).Err?
  {
    hide ParseName, NameAt, PeekMany, Peek;
    NamesAdvance(m, p, name, t);
    NameIsRead(m, p, name, t - p);
    NoBadClass(m, t + 10);
    NoBadClass(m, t + 16);
  }

  lemma {:induction false} PassNoBadClass(m: Memory, p: nat, depth: nat)
    requires depth <= 11
    ensures NameLen(m, p, depth) != Err(BadClass)
    decreases 11 - depth, Left(m, p)
  {
    var b := Peek(m, p);
    if depth <= 10 && b != 0 {
      if b >= 192 {
        var offset := Peek16(m, p) - 256 * COMPRESSED;
        if offset < |m.bytes| {
          PassNoBadClass(m, offset, depth + 1);
        }
      } else if b <= |m.bytes| && p + b + 1 < |m.bytes| {
        PassNoBadClass(m, p + b + 1, depth);
      }
    }
  }

  lemma NoBadClass(m: Memory, p: nat)
    ensures ParseName(m, p) != Err(BadClass)
  {
    PassNoBadClass(m, p, 0);
    PassesAgree(m, p, 0);
  }

  // ----- Sections -----

  ghost predicate QueriesAt(m: Memory, p: nat, qs: seq<Query>, next: nat)
    decreases |qs|
  {
    if qs == [] then next == p else exists t: nat :: QueryAt(m, p, qs[0], t) && QueriesAt(m, t, qs[1..], next)
  }

  ghost predicate RecordsAt(m: Memory, p: nat, rrs: seq<RR>, next: nat)
    decreases |rrs|
  {
    if rrs == [] then next == p else exists t: nat :: RecordAt(m, p, rrs[0], t) && RecordsAt(m, t, rrs[1..], next)
  }

  lemma {:induction false} QueriesAreRead(m: Memory, p: nat, qs: seq<Query>, next: nat)
    ensures ParseQueries(m, p, |qs|) == Ok((qs, next)) <==> QueriesAt(m, p, qs, next)
    decreases |qs|
  {
    hide ParseQuery, QueryAt;
    if qs != [] {
      match ParseQuery(m, p) {
        case Ok((q, t)) =>
          QueryIsRead(m, p, q, t);
          QueriesAreRead(m, t, qs[1..], next);
          assert [q] + qs[1..] == qs <==> q == qs[0];
          if ParseQueries(m, p, |qs|) == Ok((qs, next)) {
            FirstAndRest(q, ParseQueries(m, t, |qs| - 1).value.0, qs);
          }
        case Err(_) =>
      }
      forall t: nat | QueryAt(m, p, qs[0], t) ensures ParseQuery(m, p) == Ok((qs[0], t)) {
        QueryIsRead(m, p, qs[0], t);
      }
    }
  }

  lemma FirstAndRest<T>(x: T, rest: seq<T>, all: seq<T>)
    requires [x] + rest == all
    ensures all[0] == x && all[1..] == rest
  {
  }

  lemma {:induction false} RecordsAreRead(m: Memory, p: nat, rrs: seq<RR>, next: nat)
    ensures ParseRecords(m, p, |rrs|) == Ok((rrs, next)) <==> RecordsAt(m, p, rrs, next)
    decreases |rrs|
  {
    hide ParseRecord, RecordAt;
    if rrs != [] {
      match ParseRecord(m, p) {
        case Ok((rr, t)) =>
          RecordIsRead(m, p, rr, t);
          RecordsAreRead(m, t, rrs[1..], next);
          assert [rr] + rrs[1..] == rrs <==> rr == rrs[0];
          if ParseRecords(m, p, |rrs|) == Ok((rrs, next)) {
            FirstAndRest(rr, ParseRecords(m, t, |rrs| - 1).value.0, rrs);
          }
        case Err(_) =>
      }
      forall t: nat | RecordAt(m, p, rrs[0], t) ensures ParseRecord(m, p) == Ok((rrs[0], t)) {
        RecordIsRead(m, p, rrs[0], t);
      }
    }
  }

  /** The end of the section behind `n` records */
  lemma {:induction false} RecordsLength(m: Memory, p: nat, n: nat)
    requires ParseRecords(m, p, n).Ok?
    ensures |ParseRecords(m, p, n).value.0| == n
    decreases n
  {
    hide ParseRecord;
    if n > 0 { RecordsLength(m, ParseRecord(m, p).value.1, n - 1); }
  }

  lemma {:induction false} QueriesLength(m: Memory, p: nat, n: nat)
    requires ParseQueries(m, p, n).Ok?
    ensures |ParseQueries(m, p, n).value.0| == n
    decreases n
  {
    hide ParseQuery;
    if n > 0 { QueriesLength(m, ParseQuery(m, p).value.1, n - 1); }
  }

  /** The header: id, flags, and how many questions, answers, authorities and additional records follow */
  ghost predicate HeaderIs(m: Memory, p: Packet) {
    && |m.bytes| >= 12 && p.id == Field16(m, 0) && p.flags == Field16(m, 2)
    && |p.q| == Field16(m, 4) && |p.ans| == Field16(m, 6) && |p.ns| == Field16(m, 8) && |p.ar| == Field16(m, 10)
  }

  ghost predicate SectionsAt(m: Memory, p: Packet, a: nat, b: nat, c: nat, d: nat) {
    && QueriesAt(m, 12, p.q, a) && RecordsAt(m, a, p.ans, b) && RecordsAt(m, b, p.ns, c) && RecordsAt(m, c, p.ar, d)
  }

  lemma ReadSections(m: Memory, p: Packet) returns (a: nat, b: nat, c: nat, d: nat)
    requires ParsePacket(m) == Ok(p)
    ensures HeaderIs(m, p)
    ensures ParseQueries(m, 12, |p.q|) == Ok((p.q, a)) && ParseRecords(m, a, |p.ans|) == Ok((p.ans, b))
    ensures ParseRecords(m, b, |p.ns|) == Ok((p.ns, c)) && ParseRecords(m, c, |p.ar|) == Ok((p.ar, d))
  {
    hide ParseQueries, ParseRecords, Peek;
    a := ParseQueries(m, 12, Peek16(m, 4)).value.1;
    b := ParseRecords(m, a, Peek16(m, 6)).value.1;
    c := ParseRecords(m, b, Peek16(m, 8)).value.1;
    d := ParseRecords(m, c, Peek16(m, 10)).value.1;
    QueriesLength(m, 12, Peek16(m, 4));
    RecordsLength(m, a, Peek16(m, 6));
    RecordsLength(m, b, Peek16(m, 8));
    RecordsLength(m, c, Peek16(m, 10));
  }

  lemma SectionsRead(m: Memory, p: Packet, a: nat, b: nat, c: nat, d: nat)
    requires HeaderIs(m, p)
    requires ParseQueries(m, 12, |p.q|) == Ok((p.q, a)) && ParseRecords(m, a, |p.ans|) == Ok((p.ans, b))
    requires ParseRecords(m, b, |p.ns|) == Ok((p.ns, c)) && ParseRecords(m, c, |p.ar|) == Ok((p.ar, d))
    ensures ParsePacket(m) == Ok(p)
  {
    hide ParseQueries, ParseRecords, Peek;
  }

  /** A packet is read exactly if its header counts what follows: questions from the twelfth byte
      on, and three sections of records, each behind the one before. */
  lemma PacketIsRead(m: Memory, p: Packet)
    ensures ParsePacket(m) == Ok(p) <==> HeaderIs(m, p) && exists a: nat, b: nat, c: nat, d: nat :: SectionsAt(m, p, a, b, c, d)
  {
    hide ParsePacket, ParseQueries, ParseRecords, QueriesAt, RecordsAt;
    if ParsePacket(m) == Ok(p) {
      var a, b, c, d := ReadSections(m, p);
      SectionsAgree(m, p, a, b, c, d);
      assert SectionsAt(m, p, a, b, c, d);
    }
    if HeaderIs(m, p) && exists a: nat, b: nat, c: nat, d: nat :: SectionsAt(m, p, a, b, c, d) {
      var a: nat, b: nat, c: nat, d: nat :| SectionsAt(m, p, a, b, c, d);
      SectionsAgree(m, p, a, b, c, d);
      SectionsRead(m, p, a, b, c, d);
    }
  }

  lemma SectionsAgree(m: Memory, p: Packet, a: nat, b: nat, c: nat, d: nat)
    ensures ParseQueries(m, 12, |p.q|) == Ok((p.q, a)) <==> QueriesAt(m, 12, p.q, a)
    ensures ParseRecords(m, a, |p.ans|) == Ok((p.ans, b)) <==> RecordsAt(m, a, p.ans, b)
    ensures ParseRecords(m, b, |p.ns|) == Ok((p.ns, c)) <==> RecordsAt(m, b, p.ns, c)
    ensures ParseRecords(m, c, |p.ar|) == Ok((p.ar, d)) <==> RecordsAt(m, c, p.ar, d)
  {
    hide ParseQueries, ParseRecords, QueriesAt, RecordsAt;
    QueriesAreRead(m, 12, p.q, a);
    RecordsAreRead(m, a, p.ans, b);
    RecordsAreRead(m, b, p.ns, c);
    RecordsAreRead(m, c, p.ar, d);
  }

  lemma {:induction false} RecordsRefused(m: Memory, p: nat, n: nat, before: seq<RR>, t: nat)
    requires RecordsAt(m, p, before, t) && |before| < n && ParseRecord(m, t).Err?
    ensures ParseRecords(m, p, n) == Err(ParseRecord(m, t).error)
    decreases |before|
  {
    hide ParseRecord, RecordAt;
    if before != [] {
      var mid: nat :| RecordAt(m, p, before[0], mid) && RecordsAt(m, mid, before[1..], t);
      RecordIsRead(m, p, before[0], mid);
      RecordsRefused(m, mid, n - 1, before[1..], t);
    }
  }

  lemma {:induction false} QueriesRefused(m: Memory, p: nat, n: nat, before: seq<Query>, t: nat)
    requires QueriesAt(m, p, before, t) && |before| < n && ParseQuery(m, t).Err?
    ensures ParseQueries(m, p, n) == Err(ParseQuery(m, t).error)
    decreases |before|
  {
    hide ParseQuery, QueryAt;
    if before != [] {
      var mid: nat :| QueryAt(m, p, before[0], mid) && QueriesAt(m, mid, before[1..], t);
      QueryIsRead(m, p, before[0], mid);
      QueriesRefused(m, mid, n - 1, before[1..], t);
    }
  }

  /** A packet is refused for its size, or for the first question or record that is refused. */
  lemma PacketIsRefused(m: Memory, p: Packet, a: nat, b: nat, c: nat, d: nat)
    ensures ParsePacket(m) == Err(NoPacket) <== |m.bytes| == 0
    ensures ParsePacket(m) == Err(BadSize) <== 1 <= |m.bytes| < 12
    ensures |m.bytes| >= 12 && QueriesAt(m, 12, p.q, a) && |p.q| < Field16(m, 4) && ParseQuery(m, a).Err? ==>
            ParsePacket(m) == Err(ParseQuery(m, a).error)
    ensures |m.bytes| >= 12 && QueriesAt(m, 12, p.q, a) && |p.q| == Field16(m, 4) ==>
            && (RecordsAt(m, a, p.ans, b) && |p.ans| < Field16(m, 6) && ParseRecord(m, b).Err? ==>
                  ParsePacket(m) == Err(ParseRecord(m, b).error))
            && (RecordsAt(m, a, p.ans, b) && |p.ans| == Field16(m, 6) ==>
                  && (RecordsAt(m, b, p.ns, c) && |p.ns| < Field16(m, 8) && ParseRecord(m, c).Err? ==>
                        ParsePacket(m) == Err(ParseRecord(m, c).error))
                  && (RecordsAt(m, b, p.ns, c) && |p.ns| == Field16(m, 8) && RecordsAt(m, c, p.ar, d)
                      && |p.ar| < Field16(m, 10) && ParseRecord(m, d).Err? ==>
                        ParsePacket(m) == Err(ParseRecord(m, d).error)))
  {
    hide ParseQueries, ParseRecords, ParseQuery, ParseRecord, QueriesAt, RecordsAt, Peek;
    SectionsAgree(m, p, a, b, c, d);
    RefusedIn(m, a, Field16(m, 6), p.ans, b);
    RefusedIn(m, b, Field16(m, 8), p.ns, c);
    RefusedIn(m, c, Field16(m, 10), p.ar, d);
    if QueriesAt(m, 12, p.q, a) && |p.q| < Field16(m, 4) && ParseQuery(m, a).Err? {
      QueriesRefused(m, 12, Field16(m, 4), p.q, a);
    }
  }

  lemma RefusedIn(m: Memory, p: nat, n: int, before: seq<RR>, t: nat)
    ensures RecordsAt(m, p, before, t) && |before| < n && ParseRecord(m, t).Err? ==>
            ParseRecords(m, p, n) == Err(ParseRecord(m, t).error)
  {
    if RecordsAt(m, p, before, t) && |before| < n && ParseRecord(m, t).Err? {
      RecordsRefused(m, p, n, before, t);
    }
  }

  // ----- What the parser does not look at -----

  /** The length field of printed data counts the bytes behind it. (The parser reads the types
      that are printed without it.) */
  lemma LengthIsPrinted(s: Printer, rr: RR) returns (data: seq<byte>)
    requires PrintRdata(s, rr).Some? && (rr.rdata.HostAddress? ==> |rr.rdata.ip| == 4)
    ensures PrintRdata(s, rr).value.out == s.out + data && |data| >= 2
    ensures |data| - 2 < 0x10000 ==> data[0] as int * 0x100 + data[1] == |data| - 2
  {
    hide PrintName;
    match rr.rdata
    case HostAddress(ip) => data := Be16(4) + ip;
    case Target(target) =>
      var name := PrintName(s.out, |s.out| + 2, s.size - 2, target, s.tab).value.0;
      data := Be16(|name|) + name;
    case Service(prio, weight, port, target) =>
      var name := PrintName(s.out, |s.out| + 8, s.size - 8, target, s.tab).value.0;
      data := ServiceHead(|name|, prio, weight, port) + name;
  }

  /** A pointer: the two upper bits of the first byte, and 14 bits of position */
  lemma PointerBytes(pos: nat)
    requires pos < 0x4000
    ensures Be16(PointerTo(pos)) == [0xc0 + pos / 0x100, pos % 0x100]
  {
  }

  /** A name is printed as a pointer to the first remembered name whose bytes behind its first
      length byte are the name, and in full otherwise. Up to 32 names are remembered. */
  lemma NameIsPrinted(out: seq<byte>, pos: nat, size: int, n: Name, tab: seq<Remembered>, i: nat)
    requires i <= |tab| && (i < |tab| ==> IsRemembered(out, tab[i], n))
    requires forall j :: 0 <= j < i ==> !IsRemembered(out, tab[j], n)
    ensures i < |tab| && tab[i].pos < 0x4000 ==>
            PrintName(out, pos, size, n, tab) == Some(([0xc0 + tab[i].pos / 0x100, tab[i].pos % 0x100], tab))
    ensures i == |tab| && |Encode(n)| <= size ==>
            PrintName(out, pos, size, n, tab) == Some((Encode(n), if |tab| < 32 then tab + [Remembered(pos, |n|)] else tab))
    ensures PrintName(out, pos, size, n, tab).None? <==> i == |tab| && |Encode(n)| > size
  {
    hide Encode;
    FoundAt(out, n, tab, i);
    if i < |tab| && tab[i].pos < 0x4000 { PointerBytes(tab[i].pos); }
  }

  predicate IsRemembered(out: seq<byte>, e: Remembered, n: Name) {
    |n| == e.len && e.pos + 1 + |n| <= |out| && out[e.pos + 1..e.pos + 1 + |n|] == n
  }

  lemma FoundAt(out: seq<byte>, n: Name, tab: seq<Remembered>, i: nat)
    requires i <= |tab| && (i < |tab| ==> IsRemembered(out, tab[i], n))
    requires forall j :: 0 <= j < i ==> !IsRemembered(out, tab[j], n)
    ensures Find(out, tab, n) == i
  {
    assert forall j :: 0 <= j < |tab| ==> (Matches(out, tab[j], n) <==> IsRemembered(out, tab[j], n));
  }
}
