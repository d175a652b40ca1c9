/** MD5 as md5.c streams it (RFC 1321), over any compression function. */
module Md5 {
  import opened Buffers
  import opened Bytes
  import opened HashCore

  const INIT: Words := [0x67452301, 0xefcdab89, 0x98badcfe, 0x10325476]

  /** The MD5 digest of a message, for a compression function */
  function Md5Hash(f: Compress, msg: seq<byte>): seq<byte> {
    Hash(f, INIT, false, msg)
  }

  class Md5Context {
    const compress: Compress
    const in_: array<byte>
    var buf: Words
    var bits0: nat
    var bits1: nat
    /** What has been taken in so far */
    ghost var msg: seq<byte>

    ghost predicate Valid()
      reads this, in_
    {
      Tracks(compress, INIT, msg, buf, in_[..], bits0, bits1)
    }

    /** pj_md5_init */
    constructor (compress: Compress)
      ensures Valid() && fresh(in_) && this.compress == compress && msg == []
    {
      this.compress := compress;
      in_ := new byte[64];
      buf := INIT;
      bits0, bits1 := 0, 0;
      msg := [];
      new;
      StartTracks(compress, INIT, msg, in_[..]);
    }

    /** The two words of the bit counter */
    method AddCount(len: nat, ghost n: nat)
      requires len < TWO32 && bits0 == LowCount(n) && bits1 == HighCount(n)
      modifies `bits0, `bits1
      ensures bits0 == LowCount(n + len) && bits1 == HighCount(n + len)
    {
      hide LowCount, HighCount;
      CounterAdds(n, len);
      var t := bits0;
      bits0 := (t + 8 * len % TWO32) % TWO32;
      if bits0 < t {
        bits1 := (bits1 + 1) % TWO32;
      }
      bits1 := (bits1 + len / 0x2000_0000) % TWO32;
    }

    /** pj_md5_update */
    method Update(data: seq<byte>)
      requires Valid() && |data| < TWO32
      modifies this, in_
      ensures Valid() && msg == old(msg) + data
    {
      hide LowCount, HighCount, Blocks, Spliced, Tail;
      Begun(|msg|);
      var t := bits0 / 8 % 64;
      AddCount(|data|, |msg|);
      msg := msg + data;
      var p := 0;
      if t != 0 {
        var rest := 64 - t;
        if |data| < rest {
          ShortBlock(in_[..], t, data);
          NotFilledUp(compress, INIT, old(msg), data);
          Copy(in_, t, data);
          return;
        }
        FullBlock(in_[..], t, data[..rest]);
        FilledUp(compress, INIT, old(msg), data[..rest]);
        Copy(in_, t, data[..rest]);
        buf := compress(buf, in_[..]);
        p := rest;
      } else {
        assert old(msg) + data[..0] == old(msg);
      }
      TakeBlocks(data, p, old(msg));
    }

    /** The rest of pj_md5_update, from a block boundary at data[start] */
    method TakeBlocks(data: seq<byte>, start: nat, ghost before: seq<byte>)
      requires start <= |data| && (|before| + start) % 64 == 0 && buf == Blocks(compress, INIT, before + data[..start])
      requires msg == before + data && in_.Length == 64 && bits0 == LowCount(|msg|) && bits1 == HighCount(|msg|)
      modifies `buf, in_
      ensures Valid()
    {
      hide LowCount, HighCount, Blocks, Spliced, Tail;
      var p := start;
      while |data| - p >= 64
        invariant start <= p <= |data| && (|before| + p) % 64 == 0
        invariant buf == Blocks(compress, INIT, before + data[..p])
      {
        var block := data[p..p + 64];
        FullBlock(in_[..], 0, block);
        Copy(in_, 0, block);
        assert in_[..] == block;
        NextBlockAt(compress, INIT, before, data, p);
        buf := compress(buf, in_[..]);
        p := p + 64;
      }
      LastBytes(compress, INIT, before, data, p);
      ShortBlock(in_[..], 0, data[p..]);
      Copy(in_, 0, data[p..]);
    }

    /** pj_md5_final: the digest of all that was taken in. The context is of no use afterwards. */
    method Final() returns (digest: seq<byte>)
      requires Valid()
      modifies `buf, in_
      ensures digest == Md5Hash(compress, msg)
    {
      hide LowCount, HighCount, Blocks, Tail, Pad;
      Begun(|msg|);
      var count := bits0 / 8 % 64;
      if 64 - 1 - count < 8 {
        PadTwoBlocks(count);
      } else {
        PadOneBlock(count);
      }
      digest := Digest(buf, false);
    }

    /** The block that was begun has no room for the counter: it is filled up, and another one
        holds 56 zeros and the counter. */
    method PadTwoBlocks(count: nat)
      requires Valid() && count == |msg| % 64 >= 56
      modifies `buf, in_
      ensures buf == Blocks(compress, INIT, msg + Pad(|msg|, false))
    {
      hide LowCount, HighCount, Blocks, Spliced, Pad, Tail, Zeros, LittleEndian;
      var more := 64 - 1 - count;
      ghost var begun, first := in_[..], [0x80] + Zeros(more);
      Copy(in_, count, [0x80]);
      Copy(in_, count + 1, Zeros(more));
      SpliceTwice(begun, count, [0x80], Zeros(more));
      FullBlock(begun, count, first);
      FilledUp(compress, INIT, msg, first);
      buf := compress(buf, in_[..]);
      begun := in_[..];
      Copy(in_, 0, Zeros(56));
      ghost var last := Zeros(56) + (LittleEndian(bits0) + LittleEndian(bits1));
      assert begun[..0] + last == last;
      FinishBlock(begun, 0, Zeros(56));
      NextBlock(compress, INIT, msg + first, last);
      PadParts(|msg|);
      assert (msg + first) + last == msg + (first + last);
    }

    method PadOneBlock(count: nat)
      requires Valid() && count == |msg| % 64 < 56
      modifies `buf, in_
      ensures buf == Blocks(compress, INIT, msg + Pad(|msg|, false))
    {
      hide LowCount, HighCount, Blocks, Spliced, Pad, Tail, Zeros, LittleEndian;
      var more := 64 - 1 - count;
      ghost var begun, pad := in_[..], [0x80] + Zeros(more - 8);
      Copy(in_, count, [0x80]);
      Copy(in_, count + 1, Zeros(more - 8));
      SpliceTwice(begun, count, [0x80], Zeros(more - 8));
      PadParts(|msg|);
      FilledUp(compress, INIT, msg, pad + (LittleEndian(bits0) + LittleEndian(bits1)));
      FinishBlock(begun, count, pad);
    }

    /** The counter behind the padding, and the last compression */
    method FinishBlock(ghost begun: seq<byte>, ghost p: nat, ghost pad: seq<byte>)
      requires in_.Length == |begun| == 64 && p + |pad| == 56 && in_[..] == Spliced(begun, p, pad)
      modifies `buf, in_
      ensures buf == old(compress(buf, begun[..p] + (pad + (LittleEndian(bits0) + LittleEndian(bits1)))))
    {
      hide LittleEndian, Spliced;
      var counter := LittleEndian(bits0) + LittleEndian(bits1);
      Copy(in_, 56, LittleEndian(bits0));
      Copy(in_, 60, LittleEndian(bits1));
      SpliceTwice(old(in_[..]), 56, LittleEndian(bits0), LittleEndian(bits1));
      SpliceTwice(begun, p, pad, counter);
      FullBlock(begun, p, pad + counter);
      buf := compress(buf, in_[..]);
    }
  }

  /** The padding, in the two ways it is written */
  lemma PadParts(n: nat)
    ensures var more, count := 63 - n % 64, LittleEndian(LowCount(n)) + LittleEndian(HighCount(n));
            if more < 8 then Pad(n, false) == ([0x80] + Zeros(more)) + (Zeros(56) + count)
            else Pad(n, false) == ([0x80] + Zeros(more - 8)) + count
  {
    var more := 63 - n % 64;
    if more < 8 {
      assert Gap(n) == more + 56;
      assert Zeros(more + 56) == Zeros(more) + Zeros(56);
    } else {
      assert Gap(n) == more - 8;
    }
  }

  /** The digest does not depend on how the message is cut into pieces. */
  method DigestPieces(compress: Compress, pieces: seq<seq<byte>>) returns (digest: seq<byte>)
    requires forall i :: 0 <= i < |pieces| ==> |pieces[i]| < TWO32
    ensures digest == Md5Hash(compress, Flat(pieces))
  {
    hide Flat, Tracks;
    var ctx := new Md5Context(compress);
    FlatEnds(ctx.msg, pieces);
    for i := 0 to |pieces|
      invariant ctx.Valid() && fresh(ctx) && fresh(ctx.in_) && ctx.compress == compress
      invariant ctx.msg + Flat(pieces[i..]) == Flat(pieces)
    {
      FlatStep(ctx.msg, pieces, i);
      ctx.Update(pieces[i]);
    }
    FlatEnds(ctx.msg, pieces);
    digest := ctx.Final();
  }
}
