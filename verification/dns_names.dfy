/** Domain names on the wire: the label encoding, the parser that follows compression
    pointers (section 4.1.4 of RFC 1035), and how the two meet. */
module DnsNames {
  import opened Bytes
  import opened DnsPacket

  const DOT: byte := 46
  const COMPRESSED := 0xc0
  /** The longest length byte the parser does not take for a pointer is one below 0xc0. */
  const MAX_LABEL := COMPRESSED - 1
  const MAX_HOPS := 10

  // ----- Encoding -----

  /** The length of the first label: up to a dot or the end. */
  function FirstLabel(n: Name): (k: nat)
    ensures k <= |n|
    ensures forall i :: 0 <= i < k ==> n[i] != DOT
    ensures k < |n| ==> n[k] == DOT
  {
    if n == [] || n[0] == DOT then 0 else 1 + FirstLabel(n[1..])
  }

  /** What is left of the name after its first label and the dot behind it. */
  function AfterLabel(n: Name): (r: Name)
    ensures n != [] ==> |r| < |n|
  {
    var k := FirstLabel(n);
    if k < |n| then n[k + 1..] else []
  }

  /** Length-prefixed labels and a zero byte, with no compression. */
  function Encode(n: Name): (e: seq<byte>)
    ensures |n| < |e|
    ensures |e| <= |n| + 2
    decreases |n|
  {
    if n == [] then [0]
    else
      var k := FirstLabel(n);
      [k % 256] + (n[..k] + Encode(AfterLabel(n)))
  }

  /** Labels of 1 to 191 bytes with a dot between any two: a name that comes back. */
  predicate WellFormed(n: Name)
    decreases |n|
  {
    n == [] ||
    var k := FirstLabel(n);
    1 <= k <= MAX_LABEL && (k < |n| ==> AfterLabel(n) != [] && WellFormed(AfterLabel(n)))
  }

  // ----- Memory -----

  /** A packet in memory. The parser looks past the end of the packet (how far, says
      ParserLooksNoFurther); what lies there is arbitrary, but the same at every look. */
  datatype Memory = Memory(bytes: seq<byte>, beyond: nat -> byte)

  function Peek(m: Memory, i: nat): byte {
    if i < |m.bytes| then m.bytes[i] else m.beyond(i - |m.bytes|)
  }

  function Peek16(m: Memory, i: nat): nat {
    256 * Peek(m, i) + Peek(m, i + 1)
  }

  function PeekMany(m: Memory, i: nat, n: nat): (s: seq<byte>)
    ensures |s| == n && forall k :: 0 <= k < n ==> s[k] == Peek(m, i + k)
  {
    seq<byte>(n, k requires 0 <= k < n => Peek(m, i + k))
  }

  // ----- Parsing -----

  datatype Error = NoPacket | BadPointer | BadSize | BadClass

  datatype Result<+T> = Ok(value: T) | Err(error: Error)

  /** How far is left to the end of the packet. */
  function Left(m: Memory, p: nat): nat {
    if p < |m.bytes| then |m.bytes| - p else 0
  }

  /** get_name_len after `depth` pointers, from `p`: (bytes of packet, bytes of name). */
  function NameLen(m: Memory, p: nat, depth: nat): (r: Result<(nat, nat)>)
    requires depth <= MAX_HOPS + 1
    decreases MAX_HOPS + 1 - depth, Left(m, p)
  {
    var b := Peek(m, p);
    var max := |m.bytes|;
    if depth > MAX_HOPS then Err(BadPointer)
    else if b == 0 then Ok((1, 0))
    else if b >= COMPRESSED then
      var offset := Peek16(m, p) - 256 * COMPRESSED;
      if offset >= max then Err(BadPointer)
      else
        match NameLen(m, offset, depth + 1)
        case Err(e) => Err(e)
        case Ok((_, len)) => Ok((2, len))
    else if b > max then Err(BadPointer)
    else if p + b + 1 >= max then Err(BadSize)
    else
      match NameLen(m, p + b + 1, depth)
      case Err(e) => Err(e)
      case Ok((parsed, len)) => Ok((b + 1 + parsed, b + (if Peek(m, p + b + 1) != 0 then 1 else 0) + len))
  }

  /** get_name: the name itself */
  function GetName(m: Memory, p: nat, depth: nat): (r: Result<Name>)
    requires depth <= MAX_HOPS + 1
    decreases MAX_HOPS + 1 - depth, Left(m, p)
  {
    var b := Peek(m, p);
    var max := |m.bytes|;
    if depth > MAX_HOPS then Err(BadPointer)
    else if b == 0 then Ok([])
    else if b >= COMPRESSED then
      var offset := Peek16(m, p) - 256 * COMPRESSED;
      if offset >= max then Err(BadPointer) else GetName(m, offset, depth + 1)
    else if b > max then Err(BadPointer)
    else if p + b + 1 >= max then Err(BadSize)
    else
      match GetName(m, p + b + 1, depth)
      case Err(e) => Err(e)
      case Ok(rest) => Ok(PeekMany(m, p + 1, b) + (if Peek(m, p + b + 1) != 0 then [DOT] else []) + rest)
  }

  /** The second pass goes as the first went: it fails with the same error, or gives exactly
      as many bytes as the first counted. So a buffer of that size is filled to the brim. */
  lemma {:induction false} PassesAgree(m: Memory, p: nat, depth: nat)
    requires depth <= MAX_HOPS + 1
    ensures match NameLen(m, p, depth)
            case Err(e) => GetName(m, p, depth) == Err(e)
            case Ok((parsed, len)) => GetName(m, p, depth).Ok? && |GetName(m, p, depth).value| == len && parsed > 0
    decreases MAX_HOPS + 1 - depth, Left(m, p)
  {
    var b := Peek(m, p);
    if depth <= MAX_HOPS && b != 0 {
      if b >= COMPRESSED {
        var offset := Peek16(m, p) - 256 * COMPRESSED;
        if offset < |m.bytes| {
          PassesAgree(m, offset, depth + 1);
        }
      } else if b <= |m.bytes| && p + b + 1 < |m.bytes| {
        PassesAgree(m, p + b + 1, depth);
      }
    }
  }

  // ----- Pointers in a circle -----

  /** Where the pointer at the end of the labels at `p` leads; -1 if they end otherwise. */
  function Hop(m: Memory, p: nat): (q: int)
    ensures q != -1 ==> 0 <= q < |m.bytes|
    decreases Left(m, p)
  {
    var b := Peek(m, p);
    if b == 0 then -1
    else if b >= COMPRESSED then
      var offset := Peek16(m, p) - 256 * COMPRESSED;
      if offset < |m.bytes| then offset else -1
    else if b <= |m.bytes| && p + b + 1 < |m.bytes| then Hop(m, p + b + 1)
    else -1
  }

  /** Where `k` pointers in a row lead. */
  function Hops(m: Memory, p: nat, k: nat): (q: int)
    ensures q != -1 ==> 0 <= q
    decreases k
  {
    if k == 0 then p
    else
      var q := Hop(m, p);
      if q == -1 then -1 else Hops(m, q, k - 1)
  }

  lemma {:induction false} HopsAdd(m: Memory, p: nat, j: nat, k: nat)
    requires Hops(m, p, j) != -1
    ensures Hops(m, p, j + k) == Hops(m, Hops(m, p, j), k)
    decreases j
  {
    if j > 0 {
      HopsAdd(m, Hop(m, p), j - 1, k);
    }
  }

  lemma {:induction false} HopsPrefix(m: Memory, p: nat, j: nat, k: nat)
    requires j <= k && Hops(m, p, k) != -1
    ensures Hops(m, p, j) != -1
    decreases j
  {
    if j > 0 {
      HopsPrefix(m, Hop(m, p), j - 1, k - 1);
    }
  }

  lemma {:induction false} HopNames(m: Memory, p: nat, depth: nat)
    requires depth <= MAX_HOPS && Hop(m, p) != -1
    ensures NameLen(m, Hop(m, p), depth + 1).Err? ==> NameLen(m, p, depth) == NameLen(m, Hop(m, p), depth + 1)
    decreases Left(m, p)
  {
    var b := Peek(m, p);
    if b < COMPRESSED {
      HopNames(m, p + b + 1, depth);
    }
  }

  lemma {:induction false} TooManyHops(m: Memory, p: nat, depth: nat)
    requires depth <= MAX_HOPS + 1 && Hops(m, p, MAX_HOPS + 1 - depth) != -1
    ensures NameLen(m, p, depth) == Err(BadPointer)
    decreases MAX_HOPS + 1 - depth
  {
    if depth <= MAX_HOPS {
      TooManyHops(m, Hop(m, p), depth + 1);
      HopNames(m, p, depth);
    }
  }

  lemma {:induction false} RoundAndRound(m: Memory, p: nat, k: nat, n: nat)
    requires k >= 1 && Hops(m, p, k) == p
    ensures Hops(m, p, n) != -1
    decreases n
  {
    if n <= k {
      HopsPrefix(m, p, n, k);
    } else {
      RoundAndRound(m, p, k, n - k);
      HopsAdd(m, p, k, n - k);
    }
  }

  /** A name whose pointers lead back to itself, after any number of hops, is refused by
      both passes as a bad pointer. */
  lemma CyclesAreRefused(m: Memory, p: nat, k: nat)
    requires k >= 1 && Hops(m, p, k) == p
    ensures NameLen(m, p, 0) == Err(BadPointer) && GetName(m, p, 0) == Err(BadPointer)
  {
    RoundAndRound(m, p, k, MAX_HOPS + 1);
    TooManyHops(m, p, 0);
    PassesAgree(m, p, 0);
  }

  // ----- Decoding what was encoded -----

  /** `e` lies at `p`. */
  predicate At(s: seq<byte>, p: nat, e: seq<byte>) {
    p + |e| <= |s| && forall i :: 0 <= i < |e| ==> s[p + i] == e[i]
  }

  lemma AtParts(s: seq<byte>, p: nat, a: seq<byte>, b: seq<byte>)
    requires At(s, p, a + b)
    ensures At(s, p, a) && At(s, p + |a|, b)
  {
    assert forall i :: 0 <= i < |a| ==> (a + b)[i] == a[i];
    forall i | 0 <= i < |b| ensures s[p + |a| + i] == b[i] {
      assert (a + b)[|a| + i] == b[i];
    }
  }

  predicate EncodedAt(s: seq<byte>, p: nat, n: Name) {
    At(s, p, Encode(n))
  }

  lemma EncodeFirst(n: Name)
    requires WellFormed(n)
    ensures Encode(n)[0] == 0 <==> n == []
  {
  }

  lemma LabelAt(s: seq<byte>, p: nat, k: byte, text: seq<byte>, rest: seq<byte>)
    requires At(s, p, [k] + (text + rest)) && |text| == k && rest != []
    ensures s[p] == k && At(s, p + 1, text) && At(s, p + k + 1, rest) && s[p + k + 1] == rest[0]
  {
    AtParts(s, p, [k], text + rest);
    AtParts(s, p + 1, text, rest);
    assert s[p + 0] == [k][0];
    assert s[p + k + 1 + 0] == rest[0];
  }

  lemma LastLabel(n: Name)
    ensures FirstLabel(n) == |n| ==> AfterLabel(n) == []
    ensures WellFormed([])
  {
  }

  lemma EncodeUnfold(n: Name)
    requires n != [] && WellFormed(n)
    ensures var k, rest := FirstLabel(n), AfterLabel(n);
            && 1 <= k <= MAX_LABEL && |rest| < |n| && WellFormed(rest)
            && Encode(n) == [k] + (n[..k] + Encode(rest))
            && n == n[..k] + (if rest != [] then [DOT] else []) + rest
  {
    hide FirstLabel, AfterLabel;
    LastLabel(n);
    NameSplit(n);
  }

  lemma NameSplit(n: Name)
    requires FirstLabel(n) < |n| ==> AfterLabel(n) != []
    ensures n == n[..FirstLabel(n)] + (if AfterLabel(n) != [] then [DOT] else []) + AfterLabel(n)
  {
    var k := FirstLabel(n);
    if k < |n| {
      CutAt(n, k);
    }
  }

  lemma CutAt(n: Name, k: nat)
    requires k < |n|
    ensures n == n[..k] + [n[k]] + n[k + 1..]
  {
  }

  lemma EncodedSplit(s: seq<byte>, p: nat, n: Name)
    requires n != [] && WellFormed(n) && EncodedAt(s, p, n)
    ensures var k, rest := FirstLabel(n), AfterLabel(n);
            && k <= MAX_LABEL && |Encode(n)| == k + 1 + |Encode(rest)|
            && s[p] == k && At(s, p + 1, n[..k]) && EncodedAt(s, p + k + 1, rest)
            && (s[p + k + 1] == 0 <==> rest == [])
  {
    hide At, Encode, WellFormed, FirstLabel, AfterLabel;
    var k, rest := FirstLabel(n), AfterLabel(n);
    EncodeUnfold(n);
    EncodeFirst(rest);
    LabelAt(s, p, k, n[..k], Encode(rest));
  }

  lemma PeekAt(m: Memory, p: nat, e: seq<byte>)
    requires At(m.bytes, p, e)
    ensures PeekMany(m, p, |e|) == e
  {
  }

  lemma LabelStep(m: Memory, p: nat, k: nat, text: seq<byte>, rest: Name, parsed: nat, depth: nat)
    requires depth <= MAX_HOPS && p + k + 1 < |m.bytes| && 1 <= k <= MAX_LABEL
    requires m.bytes[p] == k && PeekMany(m, p + 1, k) == text && (m.bytes[p + k + 1] == 0 <==> rest == [])
    requires NameLen(m, p + k + 1, depth) == Ok((parsed, |rest|)) && GetName(m, p + k + 1, depth) == Ok(rest)
    ensures NameLen(m, p, depth) == Ok((k + 1 + parsed, k + (if rest != [] then 1 else 0) + |rest|))
    ensures GetName(m, p, depth) == Ok(text + (if rest != [] then [DOT] else []) + rest)
  {
  }

  lemma DecodeEmpty(m: Memory, p: nat, depth: nat)
    requires depth <= MAX_HOPS && EncodedAt(m.bytes, p, [])
    ensures NameLen(m, p, depth) == Ok((1, 0)) && GetName(m, p, depth) == Ok([])
  {
    assert m.bytes[p + 0] == Encode([])[0];
  }

  lemma {:induction false} DecodeEncoded(m: Memory, p: nat, n: Name, depth: nat)
    requires WellFormed(n) && depth <= MAX_HOPS && EncodedAt(m.bytes, p, n)
    ensures NameLen(m, p, depth) == Ok((|Encode(n)|, |n|))
    ensures GetName(m, p, depth) == Ok(n)
    decreases |n|
  {
    hide NameLen, GetName, FirstLabel, AfterLabel, PeekMany;
    if n == [] {
      DecodeEmpty(m, p, depth);
    } else {
      var k, rest := FirstLabel(n), AfterLabel(n);
      EncodedSplit(m.bytes, p, n);
      EncodeUnfold(n);
      DecodeEncoded(m, p + k + 1, rest, depth);
      PeekAt(m, p + 1, n[..k]);
      LabelStep(m, p, k, n[..k], rest, |Encode(rest)|, depth);
    }
  }

  /** A pointer to an encoded name is that name. */
  lemma DecodePointer(m: Memory, p: nat, target: nat, n: Name)
    requires WellFormed(n) && EncodedAt(m.bytes, target, n)
    requires p + 2 <= |m.bytes| && target < 0x4000 && Peek16(m, p) == 0xc000 + target
    ensures NameLen(m, p, 0) == Ok((2, |n|)) && GetName(m, p, 0) == Ok(n)
  {
    DecodeEncoded(m, target, n, 1);
  }
}
