/** What MD5 and SHA-1 have in common: a compression function folded over the blocks of a
    padded message, and a bit counter in two words (section 3 of RFC 1321, section 4 of
    RFC 3174). */
module HashCore {
  import opened Buffers
  import opened Bytes

  type Words = seq<nat>

  /** The compression function: from the chaining state and a block of 64 bytes to the next
      state. What it computes is not part of this model. */
  type Compress = (Words, seq<byte>) -> Words

  const TWO32 := 0x1_0000_0000
  const TWO64 := 0x1_0000_0000_0000_0000

  /** The state after all whole blocks of `data` */
  function Blocks(f: Compress, w: Words, data: seq<byte>): Words
    decreases |data|
  {
    if |data| < 64 then w else Blocks(f, f(w, data[..64]), data[64..])
  }

  /** What does not fill a block */
  function Tail(msg: seq<byte>): (t: seq<byte>)
    ensures |t| == |msg| % 64
  {
    msg[|msg| - |msg| % 64..]
  }

  lemma {:induction false} BlocksAppend(f: Compress, w: Words, a: seq<byte>, b: seq<byte>)
    requires |a| % 64 == 0
    ensures Blocks(f, w, a + b) == Blocks(f, Blocks(f, w, a), b)
    decreases |a|
  {
    if a == [] {
      assert a + b == b;
    } else {
      assert (a + b)[..64] == a[..64] && (a + b)[64..] == a[64..] + b;
      BlocksAppend(f, f(w, a[..64]), a[64..], b);
    }
  }

  lemma OneBlock(f: Compress, w: Words, b: seq<byte>)
    requires |b| == 64
    ensures Blocks(f, w, b) == f(w, b)
  {
    assert b[..64] == b && |b[64..]| == 0;
  }

  /** Whole blocks, one more block, and less than a block behind */
  lemma NextBlock(f: Compress, w: Words, a: seq<byte>, b: seq<byte>)
    requires |a| % 64 == 0 && |b| == 64
    ensures Blocks(f, w, a + b) == f(Blocks(f, w, a), b)
  {
    BlocksAppend(f, w, a, b);
    OneBlock(f, Blocks(f, w, a), b);
  }

  lemma LessThanBlock(f: Compress, w: Words, a: seq<byte>, b: seq<byte>)
    requires |a| % 64 == 0 && |b| < 64
    ensures Blocks(f, w, a + b) == Blocks(f, w, a) && Tail(a + b) == b
  {
    BlocksAppend(f, w, a, b);
    TailBehind(a, b);
  }

  lemma TailBehind(a: seq<byte>, b: seq<byte>)
    requires |a| % 64 == 0 && |b| < 64
    ensures Tail(a + b) == b
  {
    assert |a + b| % 64 == |b|;
  }

  /** The message without its tail has the same blocks. */
  lemma WithoutTail(f: Compress, w: Words, msg: seq<byte>)
    ensures var a := msg[..|msg| - |msg| % 64];
            |a| % 64 == 0 && a + Tail(msg) == msg && Blocks(f, w, a) == Blocks(f, w, msg)
  {
    var a := msg[..|msg| - |msg| % 64];
    assert a + Tail(msg) == msg;
    LessThanBlock(f, w, a, Tail(msg));
  }

  /** The first bytes of some more data fill up the block that was begun. */
  lemma FilledUp(f: Compress, w: Words, msg: seq<byte>, data: seq<byte>)
    requires |msg| % 64 + |data| == 64
    ensures Blocks(f, w, msg + data) == f(Blocks(f, w, msg), Tail(msg) + data)
    ensures |msg + data| % 64 == 0
  {
    hide Blocks, Tail;
    var a := msg[..|msg| - |msg| % 64];
    WithoutTail(f, w, msg);
    NextBlock(f, w, a, Tail(msg) + data);
    assert a + (Tail(msg) + data) == msg + data;
  }

  /** Some more data does not fill up the block that was begun. */
  lemma NotFilledUp(f: Compress, w: Words, msg: seq<byte>, data: seq<byte>)
    requires |msg| % 64 + |data| < 64
    ensures Blocks(f, w, msg + data) == Blocks(f, w, msg) && Tail(msg + data) == Tail(msg) + data
  {
    hide Blocks, Tail;
    var a := msg[..|msg| - |msg| % 64];
    WithoutTail(f, w, msg);
    LessThanBlock(f, w, a, Tail(msg) + data);
    assert a + (Tail(msg) + data) == msg + data;
  }

  // ----- Numbers in memory -----

  function LittleEndian(x: nat): (s: seq<byte>)
    ensures |s| == 4
  {
    [x % 256, x / 0x100 % 256, x / 0x10000 % 256, x / 0x1000000 % 256]
  }

  function BigEndian(x: nat): (s: seq<byte>)
    ensures |s| == 4
  {
    [x / 0x1000000 % 256, x / 0x10000 % 256, x / 0x100 % 256, x % 256]
  }

  /** The bytes of some words, one word after the other */
  function Digest(w: Words, big: bool): (s: seq<byte>)
    ensures |s| == 4 * |w|
  {
    if w == [] then [] else (if big then BigEndian(w[0]) else LittleEndian(w[0])) + Digest(w[1..], big)
  }

  // ----- Padding -----

  /** How many zeros bring a message of `n` bytes and the 0x80 behind it to 56 modulo 64 */
  function Gap(n: nat): (z: nat)
    ensures z < 64 && (n + 1 + z) % 64 == 56
  {
    (119 - n % 64) % 64
  }

  /** The count of bits, in two words */
  function LowCount(n: nat): nat { 8 * n % TWO32 }
  function HighCount(n: nat): nat { 8 * n / TWO32 % TWO32 }

  function CountBytes(n: nat, big: bool): (s: seq<byte>)
    ensures |s| == 8
  {
    if big then BigEndian(HighCount(n)) + BigEndian(LowCount(n)) else LittleEndian(LowCount(n)) + LittleEndian(HighCount(n))
  }

  /** The bit 1, zeros up to 56 modulo 64, and the number of bits modulo 2^64 */
  function Pad(n: nat, big: bool): (s: seq<byte>)
    ensures |s| == 1 + Gap(n) + 8
  {
    [0x80] + Zeros(Gap(n)) + CountBytes(n, big)
  }

  /** The padded message is whole blocks. */
  lemma PadFills(n: nat, big: bool)
    ensures (n + |Pad(n, big)|) % 64 == 0
  {
    hide Pad, Gap;
    var m := n + 1 + Gap(n);
    assert m == 64 * (m / 64) + 56;
  }

  /** The hash of a message */
  function Hash(f: Compress, init: Words, big: bool, msg: seq<byte>): seq<byte> {
    Digest(Blocks(f, init, msg + Pad(|msg|, big)), big)
  }

  /** The compression function keeps the number of words. */
  ghost predicate Sized(f: Compress, n: nat) {
    forall w: Words, b: seq<byte> :: |w| == n ==> |f(w, b)| == n
  }

  lemma {:induction false} BlocksSized(f: Compress, w: Words, data: seq<byte>, n: nat)
    requires Sized(f, n) && |w| == n
    ensures |Blocks(f, w, data)| == n
    decreases |data|
  {
    if |data| >= 64 {
      BlocksSized(f, f(w, data[..64]), data[64..], n);
    }
  }

  // ----- A hash context on its way -----

  /** The context has taken in `msg`: the state, the block that was begun, and the counter. */
  ghost predicate Tracks(f: Compress, init: Words, msg: seq<byte>, w: Words, block: seq<byte>, low: nat, high: nat) {
    && |block| == 64 && w == Blocks(f, init, msg) && block[..|msg| % 64] == Tail(msg)
    && low == LowCount(|msg|) && high == HighCount(|msg|)
  }

  lemma NoBlocks(f: Compress, w: Words, none: seq<byte>)
    requires none == []
    ensures Blocks(f, w, none) == w && Tail(none) == none
  {
  }

  lemma NoCount(n: nat)
    requires n == 0
    ensures LowCount(n) == 0 && HighCount(n) == 0
  {
  }

  /** A new context has taken in nothing. */
  lemma StartTracks(f: Compress, init: Words, none: seq<byte>, block: seq<byte>)
    requires |block| == 64 && none == []
    ensures Tracks(f, init, none, init, block, 0, 0)
  {
    hide Blocks, Tail, LowCount, HighCount;
    NoBlocks(f, init, none);
    NoCount(|none|);
    assert block[..0] == none;
  }

  /** One more block of some data, behind whole blocks */
  lemma NextBlockAt(f: Compress, w: Words, before: seq<byte>, data: seq<byte>, p: nat)
    requires p + 64 <= |data| && (|before| + p) % 64 == 0
    ensures Blocks(f, w, before + data[..p + 64]) == f(Blocks(f, w, before + data[..p]), data[p..p + 64])
  {
    hide Blocks;
    assert (before + data[..p]) + data[p..p + 64] == before + data[..p + 64];
    NextBlock(f, w, before + data[..p], data[p..p + 64]);
  }

  /** What is left of the data when no whole block is */
  lemma LastBytes(f: Compress, w: Words, before: seq<byte>, data: seq<byte>, p: nat)
    requires p <= |data| < p + 64 && (|before| + p) % 64 == 0
    ensures Blocks(f, w, before + data) == Blocks(f, w, before + data[..p]) && Tail(before + data) == data[p..]
  {
    hide Blocks, Tail;
    assert (before + data[..p]) + data[p..] == before + data;
    LessThanBlock(f, w, before + data[..p], data[p..]);
  }

  /** Where the block that was begun ends, told from the counter */
  lemma Begun(n: nat)
    ensures LowCount(n) / 8 % 64 == n % 64
  {
  }

  /** Counting in two words: the carry is seen when the low word gets smaller. */
  lemma CounterAdds(n: nat, len: nat)
    requires len < TWO32
    ensures var low := (LowCount(n) + 8 * len % TWO32) % TWO32;
            && low == LowCount(n + len)
            && ((HighCount(n) + (if low < LowCount(n) then 1 else 0)) % TWO32 + len / 0x2000_0000) % TWO32 == HighCount(n + len)
            && HighCount(n) < TWO32
  {
    var low, part := LowCount(n), 8 * len % TWO32;
    var h, k := 8 * n / TWO32, 8 * len / TWO32;
    assert 8 * n == TWO32 * h + low && 8 * len == TWO32 * k + part && k == len / 0x2000_0000;
    var carry := if low + part >= TWO32 then 1 else 0;
    assert 8 * (n + len) == TWO32 * (h + k + carry) + (low + part - TWO32 * carry);
    DivMod(h + k + carry, low + part - TWO32 * carry, 8 * (n + len));
    ThreeTerms(h, carry, k);
  }

  lemma DivMod(q: nat, r: nat, x: nat)
    requires x == TWO32 * q + r && r < TWO32
    ensures x / TWO32 == q && x % TWO32 == r
  {
  }

  lemma ThreeTerms(h: nat, c: nat, k: nat)
    ensures ((h % TWO32 + c) % TWO32 + k) % TWO32 == (h + k + c) % TWO32
  {
  }

  // ----- Messages in pieces -----

  function Flat(pieces: seq<seq<byte>>): seq<byte> {
    if pieces == [] then [] else pieces[0] + Flat(pieces[1..])
  }

  lemma FlatStep(msg: seq<byte>, pieces: seq<seq<byte>>, i: nat)
    requires i < |pieces|
    ensures msg + Flat(pieces[i..]) == (msg + pieces[i]) + Flat(pieces[i + 1..])
  {
    assert pieces[i..][0] == pieces[i] && pieces[i..][1..] == pieces[i + 1..];
    assert msg + (pieces[i] + Flat(pieces[i + 1..])) == (msg + pieces[i]) + Flat(pieces[i + 1..]);
  }

  lemma FlatEnds(msg: seq<byte>, pieces: seq<seq<byte>>)
    ensures msg == [] ==> msg + Flat(pieces[0..]) == Flat(pieces)
    ensures msg + Flat(pieces[|pieces|..]) == msg
  {
    assert pieces[0..] == pieces;
  }

  // ----- Writing into the block -----

  lemma FullBlock(s: seq<byte>, t: nat, data: seq<byte>)
    requires |s| == 64 == t + |data|
    ensures Spliced(s, t, data) == s[..t] + data
    ensures t == 0 ==> Spliced(s, t, data) == data
  {
  }

  lemma ShortBlock(s: seq<byte>, t: nat, data: seq<byte>)
    requires |s| == 64 > t + |data|
    ensures Spliced(s, t, data)[..t + |data|] == s[..t] + data
    ensures t == 0 ==> s[..t] + data == data
  {
  }

  // ----- Different messages are padded differently -----

  lemma BytesOfWord(x: nat, y: nat)
    requires x < TWO32 && y < TWO32
    ensures LittleEndian(x) == LittleEndian(y) || BigEndian(x) == BigEndian(y) ==> x == y
  {
    WordOfBytes(x);
    WordOfBytes(y);
    if LittleEndian(x) == LittleEndian(y) {
      assert forall i :: 0 <= i < 4 ==> LittleEndian(x)[i] == LittleEndian(y)[i];
    }
    if BigEndian(x) == BigEndian(y) {
      assert forall i :: 0 <= i < 4 ==> BigEndian(x)[i] == BigEndian(y)[i];
    }
  }

  lemma WordOfBytes(x: nat)
    requires x < TWO32
    ensures x == x % 256 + 0x100 * (x / 0x100 % 256) + 0x10000 * (x / 0x10000 % 256) + 0x1000000 * (x / 0x1000000 % 256)
  {
    assert x == 256 * (x / 256) + x % 256;
    assert x / 0x100 == 256 * (x / 0x10000) + x / 0x100 % 256;
    assert x / 0x10000 == 256 * (x / 0x1000000) + x / 0x10000 % 256;
  }

  lemma CountsDetermine(m: nat, n: nat)
    requires 8 * m < TWO64 && 8 * n < TWO64 && LowCount(m) == LowCount(n) && HighCount(m) == HighCount(n)
    ensures m == n
  {
    assert 8 * m == TWO32 * (8 * m / TWO32) + LowCount(m) && 8 * n == TWO32 * (8 * n / TWO32) + LowCount(n);
  }

  lemma CountsDiffer(m: nat, n: nat, big: bool)
    requires 8 * m < TWO64 && 8 * n < TWO64 && CountBytes(m, big) == CountBytes(n, big)
    ensures m == n
  {
    hide LittleEndian, BigEndian, LowCount, HighCount;
    var x, y, u, v := HighCount(m), LowCount(m), HighCount(n), LowCount(n);
    if big {
      TwoHalves(BigEndian(x), BigEndian(y), BigEndian(u), BigEndian(v));
    } else {
      TwoHalves(LittleEndian(y), LittleEndian(x), LittleEndian(v), LittleEndian(u));
    }
    CountsAreWords(m);
    CountsAreWords(n);
    BytesOfWord(x, u);
    BytesOfWord(y, v);
    CountsDetermine(m, n);
  }

  lemma CountsAreWords(n: nat)
    ensures LowCount(n) < TWO32 && HighCount(n) < TWO32
  {
  }

  lemma TwoHalves(a: seq<byte>, b: seq<byte>, c: seq<byte>, d: seq<byte>)
    requires |a| == |c| && a + b == c + d
    ensures a == c && b == d
  {
    assert a == (a + b)[..|a|] && c == (c + d)[..|a|];
    assert b == (a + b)[|a|..] && d == (c + d)[|a|..];
  }

  /** Two messages below 2^61 bytes with the same padded text are the same. */
  lemma PaddingIsInjective(a: seq<byte>, b: seq<byte>, big: bool)
    requires 8 * |a| < TWO64 && 8 * |b| < TWO64
    requires a + Pad(|a|, big) == b + Pad(|b|, big)
    ensures a == b
  {
    hide CountBytes, Gap;
    var s, t := a + Pad(|a|, big), b + Pad(|b|, big);
    assert s[|s| - 8..] == CountBytes(|a|, big);
    assert t[|t| - 8..] == CountBytes(|b|, big);
    CountsDiffer(|a|, |b|, big);
    assert a == s[..|a|] && b == t[..|b|];
  }
}
