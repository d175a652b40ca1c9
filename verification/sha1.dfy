/** SHA-1 as sha1.c streams it (RFC 3174), over any compression function. */
module Sha1 {
  import opened Buffers
  import opened Bytes
  import opened HashCore

  const INIT: Words := [0x67452301, 0xEFCDAB89, 0x98BADCFE, 0x10325476, 0xC3D2E1F0]

  /** The SHA-1 digest of a message, for a compression function */
  function Sha1Hash(f: Compress, msg: seq<byte>): seq<byte> {
    Hash(f, INIT, true, msg)
  }

  /** The padding with a given high word of the counter */
  function PadWith(n: nat, high: nat): (s: seq<byte>) {
    [0x80] + Zeros(Gap(n)) + (BigEndian(high) + BigEndian(LowCount(n)))
  }

  /** The high word after `extra` carries too many */
  function HighWith(n: nat, extra: nat): nat {
    (HighCount(n) + extra) % TWO32
  }

  /** A piece of 2^29 bytes or more is counted with a carry even when there is none: it is its
      length in bits, not cut to 32 bits, that the low word is compared with. */
  predicate FalseCarry(n: nat, len: nat) {
    8 * len >= TWO32 && LowCount(n) + 8 * len % TWO32 < TWO32
  }

  class Sha1Context {
    const compress: Compress
    /** What the compression leaves in the block it works in: the message schedule */
    const scramble: (Words, seq<byte>) -> seq<byte>
    const buffer: array<byte>
    var state: Words
    var count0: nat
    var count1: nat
    ghost var msg: seq<byte>
    /** How many carries too many have been counted */
    ghost var extra: nat

    ghost predicate Valid()
      reads this, buffer
    {
      && buffer.Length == 64 && state == Blocks(compress, INIT, msg) && buffer[..|msg| % 64] == Tail(msg)
      && count0 == LowCount(|msg|) && count1 == HighWith(|msg|, extra)
    }

    /** pj_sha1_init */
    constructor (compress: Compress, scramble: (Words, seq<byte>) -> seq<byte>)
      ensures Valid() && fresh(buffer) && this.compress == compress && this.scramble == scramble && msg == [] && extra == 0
    {
      hide Blocks, Tail, LowCount, HighWith;
      this.compress, this.scramble := compress, scramble;
      buffer := new byte[64];
      state := INIT;
      count0, count1 := 0, 0;
      msg, extra := [], 0;
      new;
      StartsRight(compress, msg, buffer[..]);
    }

    /** SHA1_Transform works in place: it leaves the block scrambled. */
    method Transform(block: array<byte>)
      requires block.Length == 64
      modifies `state, block
      ensures state == compress(old(state), old(block[..]))
    {
      var left := scramble(state, block[..]);
      state := compress(state, block[..]);
      for i := 0 to 64
        modifies block
      {
        block[i] := if i < |left| then left[i] else 0;
      }
    }

    method AddCount(len: nat)
      requires count0 == LowCount(|msg|) && count1 == HighWith(|msg|, extra) && 8 * len < TWO64
      modifies `count0, `count1, `extra
      ensures count0 == LowCount(|msg| + len) && count1 == HighWith(|msg| + len, extra)
      ensures extra == old(extra) + (if FalseCarry(|msg|, len) then 1 else 0)
    {
      hide LowCount, HighCount, HighWith, FalseCarry;
      CountAdds(|msg|, len, extra);
      count0 := (count0 + 8 * len) % TWO32;
      if count0 < 8 * len {
        count1 := (count1 + 1) % TWO32;
      }
      count1 := (count1 + len / 0x2000_0000) % TWO32;
      extra := extra + (if FalseCarry(|msg|, len) then 1 else 0);
    }

    /** pj_sha1_update */
    method Update(data: seq<byte>)
      requires Valid() && 8 * |data| < TWO64
      modifies this, buffer
      ensures Valid() && msg == old(msg) + data
      ensures extra == old(extra) + (if FalseCarry(|old(msg)|, |data|) then 1 else 0)
    {
      hide LowCount, HighCount, HighWith, FalseCarry, Blocks, Spliced, Tail;
      Begun(|msg|);
      var j := count0 / 8 % 64;
      AddCount(|data|);
      msg := msg + data;
      if j + |data| > 63 {
        FillAndTake(data, j, old(msg));
      } else {
        ShortBlock(buffer[..], j, data);
        NotFilledUp(compress, INIT, old(msg), data);
        Copy(buffer, j, data);
      }
    }

    /** Fill up the block that was begun, take the whole blocks from the data, and keep the rest. */
    method FillAndTake(data: seq<byte>, j: nat, ghost before: seq<byte>)
      requires buffer.Length == 64 && j == |before| % 64 && j + |data| > 63 && buffer[..j] == Tail(before)
      requires state == Blocks(compress, INIT, before) && msg == before + data
      modifies `state, buffer
      ensures state == Blocks(compress, INIT, msg) && buffer[..|msg| % 64] == Tail(msg)
    {
      hide Blocks, Spliced, Tail;
      var i := 64 - j;
      FullBlock(buffer[..], j, data[..i]);
      FilledUp(compress, INIT, before, data[..i]);
      Copy(buffer, j, data[..i]);
      Transform(buffer);
      i := TakeBlocks(data, i, before);
      LastBytes(compress, INIT, before, data, i);
      ShortBlock(buffer[..], 0, data[i..]);
      Copy(buffer, 0, data[i..]);
    }

    /** Whole blocks are compressed in a copy. */
    method TakeBlocks(data: seq<byte>, start: nat, ghost before: seq<byte>) returns (i: nat)
      requires start <= |data| && (|before| + start) % 64 == 0 && state == Blocks(compress, INIT, before + data[..start])
      modifies `state
      ensures i <= |data| < i + 64 && (|before| + i) % 64 == 0 && state == Blocks(compress, INIT, before + data[..i])
    {
      hide Blocks, Spliced;
      i := start;
      while i + 63 < |data|
        invariant i <= |data| && (|before| + i) % 64 == 0
        invariant state == Blocks(compress, INIT, before + data[..i])
      {
        var tmp := new byte[64];
        FullBlock(tmp[..], 0, data[i..i + 64]);
        Copy(tmp, 0, data[i..i + 64]);
        assert tmp[..] == data[i..i + 64];
        NextBlockAt(compress, INIT, before, data, i);
        Transform(tmp);
        i := i + 64;
      }
    }

    /** pj_sha1_final: the padding is taken in like data. */
    method Final() returns (digest: seq<byte>)
      requires Valid()
      modifies this, buffer
      ensures digest == DigestWith(compress, old(msg), old(extra))
    {
      hide LowCount, HighCount, HighWith, FalseCarry, Blocks, Spliced, Tail, BigEndian, Zeros, Gap;
      ghost var m := msg;
      var finalcount := BigEndian(count1) + BigEndian(count0);
      Update([0x80]);
      ghost var k := 0;
      GapReached(|m|, 0);
      PadGrows(m, 0);
      while count0 / 8 % 64 != 56
        invariant Valid() && 0 <= k <= Gap(|m|) && msg == m + ([0x80] + Zeros(k))
        invariant count0 / 8 % 64 == 56 <==> k == Gap(|m|)
        decreases Gap(|m|) - k
      {
        PadGrows(m, k);
        Update([0]);
        k := k + 1;
        GapReached(|m|, k);
      }
      PadJoined(m, finalcount);
      Update(finalcount);
      digest := Digest(state, true);
    }
  }

  lemma StartsRight(f: Compress, none: seq<byte>, block: seq<byte>)
    requires |block| == 64 && none == []
    ensures INIT == Blocks(f, INIT, none) && block[..|none| % 64] == Tail(none)
    ensures LowCount(|none|) == 0 && HighWith(|none|, 0) == 0
  {
    hide Blocks, Tail, LowCount, HighCount;
    NoBlocks(f, INIT, none);
    NoCount(|none|);
    assert block[..0] == none;
  }

  lemma GapIsLeast(n: nat, k: nat)
    requires k <= Gap(n)
    ensures (n + 1 + k) % 64 == 56 <==> k == Gap(n)
  {
  }

  lemma GapReached(n: nat, k: nat)
    requires k <= Gap(n)
    ensures LowCount(n + 1 + k) / 8 % 64 == 56 <==> k == Gap(n)
  {
    hide LowCount, Gap;
    Begun(n + 1 + k);
    GapIsLeast(n, k);
  }

  lemma PadGrows(m: seq<byte>, k: nat)
    ensures m + [0x80] == m + ([0x80] + Zeros(0))
    ensures (m + ([0x80] + Zeros(k))) + [0] == m + ([0x80] + Zeros(k + 1))
    ensures |m + ([0x80] + Zeros(k))| == |m| + 1 + k
  {
    assert Zeros(k) + [0] == Zeros(k + 1);
  }

  lemma PadJoined(m: seq<byte>, count: seq<byte>)
    ensures (m + ([0x80] + Zeros(Gap(|m|)))) + count == m + ([0x80] + Zeros(Gap(|m|)) + count)
  {
  }

  /** The low word, and whether a carry is seen */
  lemma LowAdds(n: nat, len: nat)
    ensures var low := (LowCount(n) + 8 * len) % TWO32;
            var carry := if LowCount(n) + 8 * len % TWO32 >= TWO32 then 1 else 0;
            && low == LowCount(n + len)
            && 8 * (n + len) / TWO32 == 8 * n / TWO32 + len / 0x2000_0000 + carry
            && (if low < 8 * len then 1 else 0) == carry + (if FalseCarry(n, len) then 1 else 0)
  {
    var low, part := LowCount(n), 8 * len % TWO32;
    var h, k := 8 * n / TWO32, 8 * len / TWO32;
    assert 8 * n == TWO32 * h + low && 8 * len == TWO32 * k + part && k == len / 0x2000_0000;
    var carry := if low + part >= TWO32 then 1 else 0;
    DivMod(h + k + carry, low + part - TWO32 * carry, 8 * (n + len));
    DivMod(k + carry, low + part - TWO32 * carry, low + 8 * len);
  }

  lemma CountAdds(n: nat, len: nat, extra: nat)
    ensures var low := (LowCount(n) + 8 * len) % TWO32;
            && low == LowCount(n + len)
            && ((if low < 8 * len then (HighWith(n, extra) + 1) % TWO32 else HighWith(n, extra)) + len / 0x2000_0000) % TWO32 ==
                 HighWith(n + len, extra + (if FalseCarry(n, len) then 1 else 0))
  {
    hide LowCount, FalseCarry, HighWith;
    LowAdds(n, len);
    var h, k := 8 * n / TWO32, len / 0x2000_0000;
    var seen := if (LowCount(n) + 8 * len) % TWO32 < 8 * len then 1 else 0;
    var wrong := if FalseCarry(n, len) then 1 else 0;
    HighIs(n, extra, h);
    HighIs(n + len, extra + wrong, h + k + seen - wrong);
    SeenAdds(h + extra, seen, k);
  }

  lemma HighIs(n: nat, extra: nat, h: nat)
    requires h == 8 * n / TWO32
    ensures HighWith(n, extra) == (h + extra) % TWO32 < TWO32
  {
    ModAdds(h, extra);
  }

  lemma ModAdds(a: nat, b: nat)
    ensures (a % TWO32 + b) % TWO32 == (a + b) % TWO32
  {
    assert a == TWO32 * (a / TWO32) + a % TWO32;
    var r := a % TWO32 + b;
    assert r == TWO32 * (r / TWO32) + r % TWO32;
    DivMod(a / TWO32 + r / TWO32, r % TWO32, a + b);
  }

  lemma SeenAdds(a: nat, seen: nat, k: nat)
    requires seen <= 1
    ensures ((if seen == 1 then (a % TWO32 + 1) % TWO32 else a % TWO32) + k) % TWO32 == (a + seen + k) % TWO32
  {
    ModAdds(a, seen);
    ModAdds(a + seen, k);
  }

  lemma PadWithRight(n: nat)
    ensures PadWith(n, HighWith(n, 0)) == Pad(n, true)
  {
    hide BigEndian, Gap, LowCount, HighCount, HighWith;
    HighIs(n, 0, 8 * n / TWO32);
    HighCountIs(n);
    assert HighWith(n, 0) == HighCount(n);
  }

  lemma HighCountIs(n: nat)
    ensures HighCount(n) == (8 * n / TWO32 + 0) % TWO32
  {
  }

  /** A single piece is counted right exactly if there is no false carry: if it is shorter than
      2^29 bytes, or the low word really overflows. */
  lemma CountedRight(n: nat, len: nat)
    ensures PadWith(n + len, HighWith(n + len, if FalseCarry(n, len) then 1 else 0)) == Pad(n + len, true) <==>
            !FalseCarry(n, len)
    ensures len < 0x2000_0000 ==> !FalseCarry(n, len)
  {
    var m := n + len;
    PadWithRight(m);
    if FalseCarry(n, len) {
      HighIs(m, 0, 8 * m / TWO32);
      HighIs(m, 1, 8 * m / TWO32);
      OneMore(8 * m / TWO32);
      PadWithDiffers(m, HighWith(m, 0), HighWith(m, 1));
    }
  }

  /** The shortest message that is counted wrong when it comes in one piece: 2^29 bytes */
  lemma HalfGigabyte()
    ensures FalseCarry(0, 0x2000_0000)
    ensures PadWith(0x2000_0000, HighWith(0x2000_0000, 1)) != Pad(0x2000_0000, true)
    ensures forall len: nat :: len < 0x2000_0000 ==> !FalseCarry(0, len)
  {
    CountedRight(0, 0x2000_0000);
    forall len: nat | len < 0x2000_0000 ensures !FalseCarry(0, len) { CountedRight(0, len); }
  }

  lemma OneMore(a: nat)
    ensures (a + 1) % TWO32 != a % TWO32
  {
  }

  lemma PadWithDiffers(n: nat, x: nat, y: nat)
    requires x < TWO32 && y < TWO32 && x != y
    ensures PadWith(n, x) != PadWith(n, y)
  {
    hide BigEndian, Gap, LowCount;
    BytesOfWord(x, y);
    var k := 1 + Gap(n);
    assert PadWith(n, x)[k..k + 4] == BigEndian(x) && PadWith(n, y)[k..k + 4] == BigEndian(y);
  }

  /** The digest of a message that was counted with `extra` carries too many */
  function DigestWith(f: Compress, msg: seq<byte>, extra: nat): seq<byte> {
    Digest(Blocks(f, INIT, msg + PadWith(|msg|, HighWith(|msg|, extra))), true)
  }

  /** Carries too many do no harm exactly if there are a multiple of 2^32 of them. */
  lemma PaddedRight(n: nat, extra: nat)
    ensures PadWith(n, HighWith(n, extra)) == Pad(n, true) <==> extra % TWO32 == 0
  {
    hide BigEndian, Gap, LowCount, HighCount, PadWith, Pad;
    var h := 8 * n / TWO32;
    PadWithRight(n);
    HighIs(n, extra, h);
    HighIs(n, 0, h);
    SameHigh(h, extra);
    if extra % TWO32 != 0 {
      PadWithDiffers(n, HighWith(n, extra), HighWith(n, 0));
    }
  }

  lemma SameHigh(h: nat, extra: nat)
    ensures (h + extra) % TWO32 == h % TWO32 <==> extra % TWO32 == 0
  {
    ModAdds(extra, h);
    ModAdds(h, extra % TWO32);
    var r, e := h % TWO32, extra % TWO32;
    if e != 0 {
      if r + e < TWO32 { DivMod(0, r + e, r + e); } else { DivMod(1, r + e - TWO32, r + e); }
    }
  }

  lemma DigestRight(f: Compress, msg: seq<byte>, extra: nat)
    ensures extra % TWO32 == 0 ==> DigestWith(f, msg, extra) == Sha1Hash(f, msg)
  {
    hide BigEndian, Gap, LowCount, HighCount, PadWith, Pad, HighWith, Blocks;
    PaddedRight(|msg|, extra);
  }

  /** The carries too many when a message comes in these pieces behind `n` bytes */
  function FalseCarries(n: nat, pieces: seq<seq<byte>>): nat
    decreases |pieces|
  {
    if pieces == [] then 0
    else (if FalseCarry(n, |pieces[0]|) then 1 else 0) + FalseCarries(n + |pieces[0]|, pieces[1..])
  }

  lemma {:induction false} ShortPieces(n: nat, pieces: seq<seq<byte>>)
    requires forall i :: 0 <= i < |pieces| ==> |pieces[i]| < 0x2000_0000
    ensures FalseCarries(n, pieces) == 0
    decreases |pieces|
  {
    if pieces != [] {
      ShortPieces(n + |pieces[0]|, pieces[1..]);
    }
  }

  lemma FalseCarriesStep(n: nat, pieces: seq<seq<byte>>, i: nat)
    requires i < |pieces|
    ensures FalseCarries(n, pieces[i..]) ==
            (if FalseCarry(n, |pieces[i]|) then 1 else 0) + FalseCarries(n + |pieces[i]|, pieces[i + 1..])
  {
    assert pieces[i..][1..] == pieces[i + 1..];
  }

  /** The digest depends on how the message is cut only through the number of false carries, and
      not on what the compression leaves in the buffer. For pieces below 2^29 bytes it is the
      digest of the message. */
  method DigestPieces(compress: Compress, scramble: (Words, seq<byte>) -> seq<byte>, pieces: seq<seq<byte>>)
    returns (digest: seq<byte>)
    requires forall i :: 0 <= i < |pieces| ==> 8 * |pieces[i]| < TWO64
    ensures digest == DigestWith(compress, Flat(pieces), FalseCarries(0, pieces))
    ensures (forall i :: 0 <= i < |pieces| ==> |pieces[i]| < 0x2000_0000) ==> digest == Sha1Hash(compress, Flat(pieces))
  {
    hide Flat, FalseCarry, FalseCarries, Sha1Hash, DigestWith, Blocks, Tail, LowCount, HighWith;
    var ctx := new Sha1Context(compress, scramble);
    FlatEnds(ctx.msg, pieces);
    ghost var all := FalseCarries(0, pieces);
    assert pieces[0..] == pieces;
    for i := 0 to |pieces|
      invariant ctx.Valid() && fresh(ctx) && fresh(ctx.buffer) && ctx.compress == compress
      invariant ctx.msg + Flat(pieces[i..]) == Flat(pieces)
      invariant ctx.extra + FalseCarries(|ctx.msg|, pieces[i..]) == all
    {
      FlatStep(ctx.msg, pieces, i);
      FalseCarriesStep(|ctx.msg|, pieces, i);
      ctx.Update(pieces[i]);
    }
    FlatEnds(ctx.msg, pieces);
    NoMorePieces(|ctx.msg|, pieces);
    DigestRight(compress, ctx.msg, ctx.extra);
    if forall i :: 0 <= i < |pieces| ==> |pieces[i]| < 0x2000_0000 {
      ShortPieces(0, pieces);
    }
    digest := ctx.Final();
  }

  lemma NoMorePieces(n: nat, pieces: seq<seq<byte>>)
    ensures FalseCarries(n, pieces[|pieces|..]) == 0
  {
  }
}
