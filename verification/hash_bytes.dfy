/** What the two hashes and the HMAC made of them are, byte by byte: the orders of bytes, the
    initial states, the padding and the two pads, as RFC 1321, RFC 3174 and RFC 2104 give them. */
module HashBytes {
  import opened Bytes
  import opened HashCore
  import opened Md5
  import opened Sha1
  import opened Hmac

  /** Four bytes as a number, the first counting most */
  function Joined(a: int, b: int, c: int, d: int): int {
    ((a * 256 + b) * 256 + c) * 256 + d
  }

  /** MD5 writes the byte that counts least first, SHA-1 the one that counts most. */
  lemma WordsAreNumbers(x: nat, l: seq<byte>, b: seq<byte>)
    requires x < TWO32 && l == LittleEndian(x) && b == BigEndian(x)
    ensures x == Joined(l[3], l[2], l[1], l[0]) && x == Joined(b[0], b[1], b[2], b[3])
  {
    WordOfBytes(x);
  }

  /** Word `i` of a state makes the four bytes from 4 * i on. */
  lemma {:induction false} DigestBytes(w: Words, big: bool, i: nat)
    requires i < |w|
    ensures Digest(w, big)[4 * i..4 * i + 4] == if big then BigEndian(w[i]) else LittleEndian(w[i])
    decreases i
  {
    hide BigEndian, LittleEndian;
    var first, rest := if big then BigEndian(w[0]) else LittleEndian(w[0]), Digest(w[1..], big);
    assert Digest(w, big) == first + rest;
    if i > 0 {
      DigestBytes(w[1..], big, i - 1);
      Behind(first, rest, 4 * (i - 1));
    } else {
      assert (first + rest)[..4] == first;
    }
  }

  lemma Behind(first: seq<byte>, rest: seq<byte>, p: nat)
    requires |first| == 4 && p + 4 <= |rest|
    ensures (first + rest)[p + 4..p + 8] == rest[p..p + 4]
  {
  }

  lemma DigestWord(w: Words, i: nat, l: seq<byte>, b: seq<byte>)
    requires i < |w| && w[i] < TWO32 && l == Digest(w, false) && b == Digest(w, true)
    ensures |l| == |b| == 4 * |w|
    ensures w[i] == Joined(l[4 * i + 3], l[4 * i + 2], l[4 * i + 1], l[4 * i])
    ensures w[i] == Joined(b[4 * i], b[4 * i + 1], b[4 * i + 2], b[4 * i + 3])
  {
    hide Digest, BigEndian, LittleEndian;
    DigestBytes(w, false, i);
    DigestBytes(w, true, i);
    var lw, bw := LittleEndian(w[i]), BigEndian(w[i]);
    WordsAreNumbers(w[i], lw, bw);
    FourOf(l, 4 * i, lw);
    FourOf(b, 4 * i, bw);
  }

  lemma FourOf(s: seq<byte>, p: nat, e: seq<byte>)
    requires p + 4 <= |s| && s[p..p + 4] == e
    ensures s[p] == e[0] && s[p + 1] == e[1] && s[p + 2] == e[2] && s[p + 3] == e[3]
  {
  }

  /** Written out like digests, the initial states are the bytes of the two standards. */
  lemma InitialStates()
    ensures Digest(Md5.INIT, false) ==
            [0x01, 0x23, 0x45, 0x67, 0x89, 0xab, 0xcd, 0xef, 0xfe, 0xdc, 0xba, 0x98, 0x76, 0x54, 0x32, 0x10]
    ensures Digest(Sha1.INIT, true) ==
            [0x67, 0x45, 0x23, 0x01, 0xef, 0xcd, 0xab, 0x89, 0x98, 0xba, 0xdc, 0xfe, 0x10, 0x32, 0x54, 0x76,
             0xc3, 0xd2, 0xe1, 0xf0]
  {
    hide Digest, LittleEndian, BigEndian;
    FourWords(Md5.INIT, false);
    OneMoreWord(Sha1.INIT, true);
    FourWords(Sha1.INIT[1..], true);
    InitialWords();
    LastWord();
  }

  lemma InitialWords()
    ensures LittleEndian(0x67452301) == [0x01, 0x23, 0x45, 0x67] && BigEndian(0x67452301) == [0x67, 0x45, 0x23, 0x01]
    ensures LittleEndian(0xefcdab89) == [0x89, 0xab, 0xcd, 0xef] && BigEndian(0xefcdab89) == [0xef, 0xcd, 0xab, 0x89]
    ensures LittleEndian(0x98badcfe) == [0xfe, 0xdc, 0xba, 0x98] && BigEndian(0x98badcfe) == [0x98, 0xba, 0xdc, 0xfe]
    ensures LittleEndian(0x10325476) == [0x76, 0x54, 0x32, 0x10] && BigEndian(0x10325476) == [0x10, 0x32, 0x54, 0x76]
  {
  }

  lemma LastWord()
    ensures BigEndian(0xc3d2e1f0) == [0xc3, 0xd2, 0xe1, 0xf0]
  {
  }

  lemma OneMoreWord(w: Words, big: bool)
    requires w != []
    ensures Digest(w, big) == (if big then BigEndian(w[0]) else LittleEndian(w[0])) + Digest(w[1..], big)
  {
  }

  lemma FourWords(w: Words, big: bool)
    requires |w| == 4
    ensures Digest(w, big) == if big then BigEndian(w[0]) + BigEndian(w[1]) + BigEndian(w[2]) + BigEndian(w[3])
                              else LittleEndian(w[0]) + LittleEndian(w[1]) + LittleEndian(w[2]) + LittleEndian(w[3])
  {
    hide Digest, BigEndian, LittleEndian;
    OneMoreWord(w, big);
    OneMoreWord(w[1..], big);
    OneMoreWord(w[2..], big);
    OneMoreWord(w[3..], big);
    NoWord(w[4..], big);
    assert w[1..][1..] == w[2..] && w[2..][1..] == w[3..] && w[3..][1..] == w[4..];
  }

  lemma NoWord(w: Words, big: bool)
    requires w == []
    ensures Digest(w, big) == []
  {
  }

  /** A padded message: the message, 0x80, as few zeros as make whole blocks, and the number of
      bits modulo 2^64, the low word first for MD5 and the high word first for SHA-1. */
  ghost predicate IsPadded(p: seq<byte>, msg: seq<byte>, big: bool) {
    var n, last := |msg|, |p| - 8;
    && |p| % 64 == 0 && n + 9 <= |p| <= n + 72
    && p[..n] == msg && p[n] == 0x80 && (forall k :: n < k < last ==> p[k] == 0)
    && 8 * n % TWO64 == if big then Number(p[last + 4..]) + TWO32 * Number(p[last..last + 4])
                        else Reverse(p[last..last + 4]) + TWO32 * Reverse(p[last + 4..])
  }

  function Number(s: seq<byte>): int
    requires |s| == 4
  {
    Joined(s[0], s[1], s[2], s[3])
  }

  function Reverse(s: seq<byte>): int
    requires |s| == 4
  {
    Joined(s[3], s[2], s[1], s[0])
  }

  lemma PaddedMessage(msg: seq<byte>, big: bool)
    ensures IsPadded(msg + Pad(|msg|, big), msg, big)
  {
    hide LowCount, HighCount, LittleEndian, BigEndian, Number, Reverse, Gap;
    var n, p := |msg|, msg + Pad(|msg|, big);
    var low, high, last := LowCount(n), HighCount(n), |p| - 8;
    PadFills(n, big);
    CountsAreWords(n);
    TwoWords(n);
    if big {
      PadEnds(msg, BigEndian(high), BigEndian(low), big);
      NumberOfBytes(high);
      NumberOfBytes(low);
    } else {
      PadEnds(msg, LittleEndian(low), LittleEndian(high), big);
      NumberOfBytes(high);
      NumberOfBytes(low);
    }
  }

  lemma NumberOfBytes(x: nat)
    requires x < TWO32
    ensures Number(BigEndian(x)) == x && Reverse(LittleEndian(x)) == x
  {
    WordsAreNumbers(x, LittleEndian(x), BigEndian(x));
  }

  lemma TwoWords(n: nat)
    ensures 8 * n % TWO64 == LowCount(n) + TWO32 * HighCount(n)
  {
    var q := 8 * n / TWO32;
    assert 8 * n == TWO32 * q + LowCount(n) && q == TWO32 * (q / TWO32) + q % TWO32;
    assert 8 * n == TWO64 * (q / TWO32) + (TWO32 * HighCount(n) + LowCount(n));
  }

  lemma PadEnds(msg: seq<byte>, a: seq<byte>, b: seq<byte>, big: bool)
    requires |a| == 4 && |b| == 4 && CountBytes(|msg|, big) == a + b
    ensures var n, p := |msg|, msg + Pad(|msg|, big);
            && p[..n] == msg && p[n] == 0x80 && (forall k :: n < k < |p| - 8 ==> p[k] == 0)
            && p[|p| - 8..|p| - 4] == a && p[|p| - 4..] == b
  {
    hide CountBytes, Gap;
    var n, z := |msg|, Gap(|msg|);
    var p := msg + Pad(n, big);
    assert p == msg + [0x80] + Zeros(z) + a + b;
  }

  /** The hash of a message that leaves room for the counter: one compression of its one block */
  lemma OneBlockHash(f: Compress, init: Words, big: bool, msg: seq<byte>, block: seq<byte>)
    requires |msg| < 56 && |block| == 64 && IsPadded(block, msg, big)
    ensures Hash(f, init, big, msg) == Digest(f(init, block), big)
  {
    hide Blocks, Pad, Number, Reverse;
    var p := msg + Pad(|msg|, big);
    PaddedMessage(msg, big);
    PadFills(|msg|, big);
    assert |p| == 64;
    SamePadding(p, block, msg, big);
    OneBlock(f, init, p);
  }

  /** There is no other padded message. */
  lemma SamePadding(p: seq<byte>, q: seq<byte>, msg: seq<byte>, big: bool)
    requires IsPadded(p, msg, big) && IsPadded(q, msg, big)
    ensures p == q
  {
    hide Number, Reverse;
    var last := |p| - 8;
    var a, b, c, d := p[last..last + 4], p[last + 4..], q[|q| - 8..|q| - 4], q[|q| - 4..];
    SameLength(|msg|, |p|, |q|);
    SameCounter(a, b, c, d, 8 * |msg| % TWO64, big);
    SameParts(p, q, msg, a, b);
  }

  lemma SameLength(n: nat, x: nat, y: nat)
    requires x % 64 == 0 && y % 64 == 0 && n + 9 <= x <= n + 72 && n + 9 <= y <= n + 72
    ensures x == y
  {
  }

  lemma SameCounter(a: seq<byte>, b: seq<byte>, c: seq<byte>, d: seq<byte>, n: nat, big: bool)
    requires |a| == |b| == |c| == |d| == 4
    requires n == if big then Number(b) + TWO32 * Number(a) else Reverse(a) + TWO32 * Reverse(b)
    requires n == if big then Number(d) + TWO32 * Number(c) else Reverse(c) + TWO32 * Reverse(d)
    ensures a == c && b == d
  {
    hide Number, Reverse;
    BytesOfNumber(a, c);
    BytesOfNumber(b, d);
    if big {
      DivMod(Number(a), Number(b), n);
      DivMod(Number(c), Number(d), n);
    } else {
      DivMod(Reverse(b), Reverse(a), n);
      DivMod(Reverse(d), Reverse(c), n);
    }
  }

  lemma SameParts(p: seq<byte>, q: seq<byte>, msg: seq<byte>, a: seq<byte>, b: seq<byte>)
    requires |p| == |q| >= |msg| + 9 && p[..|msg|] == q[..|msg|] && p[|msg|] == q[|msg|]
    requires forall k :: |msg| < k < |p| - 8 ==> p[k] == q[k]
    requires p[|p| - 8..|p| - 4] == a == q[|q| - 8..|q| - 4] && p[|p| - 4..] == b == q[|q| - 4..]
    ensures p == q
  {
    var n, last := |msg|, |p| - 8;
    assert p == p[..n] + [p[n]] + p[n + 1..last] + p[last..last + 4] + p[last + 4..];
    assert q == q[..n] + [q[n]] + q[n + 1..last] + q[last..last + 4] + q[last + 4..];
    assert p[n + 1..last] == q[n + 1..last];
  }

  lemma BytesOfNumber(a: seq<byte>, b: seq<byte>)
    requires |a| == 4 && |b| == 4
    ensures 0 <= Number(a) < TWO32 && 0 <= Number(b) < TWO32 && 0 <= Reverse(a) < TWO32 && 0 <= Reverse(b) < TWO32
    ensures Number(a) == Number(b) ==> a == b
    ensures Reverse(a) == Reverse(b) ==> a == b
  {
    hide Joined;
    JoinedOnce(a[0], a[1], a[2], a[3], b[0], b[1], b[2], b[3]);
    JoinedOnce(a[3], a[2], a[1], a[0], b[3], b[2], b[1], b[0]);
  }

  lemma JoinedOnce(a: byte, b: byte, c: byte, d: byte, e: byte, f: byte, g: byte, h: byte)
    ensures 0 <= Joined(a, b, c, d) < TWO32 && 0 <= Joined(e, f, g, h) < TWO32
    ensures Joined(a, b, c, d) == Joined(e, f, g, h) ==> a == e && b == f && c == g && d == h
  {
  }

  /** Byte `i` of a key that is filled up with zeros to a block */
  function KeyByte(key: seq<byte>, i: nat): byte {
    if i < |key| then key[i] else 0
  }

  ghost predicate IsPad(pad: seq<byte>, key: seq<byte>, c: bv8) {
    |pad| == 64 && forall i :: 0 <= i < 64 ==> pad[i] == ((KeyByte(key, i) as bv8) ^ c) as byte
  }

  /** The HMAC of RFC 2104 for any hash: the outer pad is made with 0x5c, the inner one with 0x36. */
  lemma HmacIsNested(h: seq<byte> -> seq<byte>, key: seq<byte>, text: seq<byte>, outer: seq<byte>, inner: seq<byte>)
    requires IsPad(outer, if |key| > 64 then h(key) else key, 0x5c)
    requires IsPad(inner, if |key| > 64 then h(key) else key, 0x36)
    ensures HmacOf(h, key, text) == h(outer + h(inner + text))
  {
    hide Masked;
    var k := BlockKey(h, key);
    PadIs(outer, k, 0x5c);
    PadIs(inner, k, 0x36);
  }

  lemma PadIs(pad: seq<byte>, key: seq<byte>, c: bv8)
    requires IsPad(pad, key, c)
    ensures Masked(key, c) == pad
  {
    forall i | 0 <= i < 64 ensures Masked(key, c)[i] == pad[i] {
      MaskedByte(key, c, i);
    }
  }

  lemma MaskedByte(key: seq<byte>, c: bv8, i: nat)
    requires i < 64
    ensures Masked(key, c)[i] == ((KeyByte(key, i) as bv8) ^ c) as byte
  {
    hide XorByte;
    assert Masked(key, c)[i] == XorByte(KeyByte(key, i), c);
    XorIs(KeyByte(key, i), c);
  }

  lemma XorIs(k: byte, c: bv8)
    ensures XorByte(k, c) == ((k as bv8) ^ c) as byte
  {
  }
}
