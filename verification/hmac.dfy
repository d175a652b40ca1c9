/** HMAC as hmac_md5.c and hmac_sha1.c compute it (section 2 of RFC 2104). */
module Hmac {
  import opened Buffers
  import opened Bytes
  import opened HashCore
  import opened Md5
  import opened Sha1

  const IPAD: bv8 := 0x36
  const OPAD: bv8 := 0x5c

  function XorByte(b: byte, c: bv8): byte {
    ((b as bv8) ^ c) as byte
  }

  /** A key filled up with zeros to a block, and every byte of it added to `c` */
  function Masked(key: seq<byte>, c: bv8): (s: seq<byte>)
    ensures |s| == 64
  {
    seq<byte>(64, i requires 0 <= i < 64 => XorByte(if i < |key| then key[i] else 0, c))
  }

  /** The key that is used: a key longer than a block is hashed first. */
  ghost function BlockKey(h: seq<byte> -> seq<byte>, key: seq<byte>): seq<byte> {
    if |key| > 64 then h(key) else key
  }

  /** H((K xor opad) ++ H((K xor ipad) ++ text)) */
  ghost function HmacOf(h: seq<byte> -> seq<byte>, key: seq<byte>, text: seq<byte>): seq<byte> {
    var k := BlockKey(h, key);
    h(Masked(k, OPAD) + h(Masked(k, IPAD) + text))
  }

  /** memset, memcpy, and the loop that adds the pad */
  method MakePad(pad: array<byte>, key: seq<byte>, c: bv8)
    requires pad.Length == 64 && |key| <= 64
    modifies pad
    ensures pad[..] == Masked(key, c)
  {
    Copy(pad, 0, Zeros(64));
    Copy(pad, 0, key);
    ghost var filled := pad[..];
    assert forall k :: 0 <= k < 64 ==> filled[k] == if k < |key| then key[k] else 0;
    for i := 0 to 64
      invariant forall k :: 0 <= k < i ==> pad[k] == XorByte(filled[k], c)
      invariant forall k :: i <= k < 64 ==> pad[k] == filled[k]
    {
      pad[i] := XorByte(pad[i], c);
    }
  }

  // ----- HMAC-MD5 -----

  ghost function Md5Of(f: Compress): seq<byte> -> seq<byte> {
    m => Md5Hash(f, m)
  }

  lemma Md5Length(f: Compress, msg: seq<byte>)
    requires Sized(f, 4)
    ensures |Md5Hash(f, msg)| == 16
  {
    BlocksSized(f, Md5.INIT, msg + Pad(|msg|, false), 4);
  }

  method HashMd5(compress: Compress, a: seq<byte>, b: seq<byte>) returns (digest: seq<byte>)
    requires |a| < TWO32 && |b| < TWO32
    ensures digest == Md5Hash(compress, a + b)
  {
    var ctx := new Md5Context(compress);
    ctx.Update(a);
    ctx.Update(b);
    assert [] + a + b == a + b;
    digest := ctx.Final();
  }

  /** If the key is longer than 64 bytes, its digest is the key. */
  method ShortMd5Key(compress: Compress, key: seq<byte>) returns (k: seq<byte>)
    requires Sized(compress, 4) && |key| < TWO32
    ensures k == BlockKey(Md5Of(compress), key) && |k| <= 64
  {
    k := key;
    if |key| > 64 {
      Md5Length(compress, key);
      var tctx := new Md5Context(compress);
      tctx.Update(key);
      assert [] + key == key;
      k := tctx.Final();
    }
  }

  class HmacMd5Context {
    const compress: Compress
    const opad: array<byte>
    var context: Md5Context
    ghost const key: seq<byte>
    ghost var text: seq<byte>

    ghost predicate Valid()
      reads this, opad, context, context.in_
    {
      && Sized(compress, 4) && opad != context.in_ && context.compress == compress && context.Valid()
      && opad[..] == Masked(BlockKey(Md5Of(compress), key), OPAD)
      && context.msg == Masked(BlockKey(Md5Of(compress), key), IPAD) + text
    }

    /** pj_hmac_md5_init */
    constructor (compress: Compress, key: seq<byte>)
      requires Sized(compress, 4) && |key| < TWO32
      ensures Valid() && fresh(opad) && fresh(context) && fresh(context.in_)
      ensures this.compress == compress && this.key == key && text == []
    {
      hide Masked, Tracks;
      this.compress := compress;
      this.key := key;
      opad := new byte[64];
      context := new Md5Context(compress);
      text := [];
      new;
      var k := ShortMd5Key(compress, key);
      var ipad := new byte[64];
      MakePad(ipad, k, IPAD);
      MakePad(opad, k, OPAD);
      context.Update(ipad[..]);
      assert [] + Masked(k, IPAD) == Masked(k, IPAD) + [];
    }

    /** pj_hmac_md5_update */
    method Update(input: seq<byte>)
      requires Valid() && |input| < TWO32
      modifies this, context, context.in_
      ensures Valid() && text == old(text) + input && context == old(context)
    {
      hide Masked, Tracks, Sized;
      context.Update(input);
      text := text + input;
      assert (Masked(BlockKey(Md5Of(compress), key), IPAD) + old(text)) + input ==
             Masked(BlockKey(Md5Of(compress), key), IPAD) + text;
    }

    /** pj_hmac_md5_final: the context hashes the inner digest behind the outer pad. */
    method Final() returns (digest: seq<byte>)
      requires Valid()
      modifies this, context, context.in_
      ensures digest == HmacOf(Md5Of(compress), key, old(text))
    {
      hide Masked, Tracks, Md5Hash;
      var inner := context.Final();
      Md5Length(compress, context.msg);
      digest := HashMd5(compress, opad[..], inner);
    }
  }

  // ----- HMAC-SHA1 -----

  ghost function Sha1Of(f: Compress): seq<byte> -> seq<byte> {
    m => Sha1Hash(f, m)
  }

  method HashSha1(compress: Compress, scramble: (Words, seq<byte>) -> seq<byte>, a: seq<byte>, b: seq<byte>)
    returns (digest: seq<byte>)
    requires |a| < 0x2000_0000 && |b| < 0x2000_0000
    ensures digest == Sha1Hash(compress, a + b)
  {
    hide FalseCarry, DigestWith, Blocks, Tail, Sha1Hash, LowCount, HighWith;
    var ctx := new Sha1Context(compress, scramble);
    CountedRight(0, |a|);
    ctx.Update(a);
    assert ctx.msg == a;
    CountedRight(|a|, |b|);
    ctx.Update(b);
    DigestRight(compress, a + b, 0);
    digest := ctx.Final();
  }

  /** The key that hmac_sha1.c uses: it is counted in one piece. */
  function Sha1Key(f: Compress, key: seq<byte>): seq<byte> {
    if |key| > 64 then DigestWith(f, key, if FalseCarry(0, |key|) then 1 else 0) else key
  }

  /** A long key is the digest that DigestPieces has of it in one piece. */
  lemma LongKeyIsDigest(f: Compress, key: seq<byte>)
    requires |key| > 64
    ensures Sha1Key(f, key) == DigestWith(f, Flat([key]), FalseCarries(0, [key]))
  {
    assert [key][1..] == [] && Flat([]) == [] && key + [] == key;
    assert FalseCarries(|key|, []) == 0;
  }

  /** What hmac_sha1.c computes if `extra` carries too many are counted with the text */
  function HmacSha1With(f: Compress, key: seq<byte>, text: seq<byte>, extra: nat): seq<byte> {
    var k := Sha1Key(f, key);
    Sha1Hash(f, Masked(k, OPAD) + DigestWith(f, Masked(k, IPAD) + text, extra))
  }

  /** It is the HMAC if the key is shorter than 2^29 bytes and nothing is counted wrong. */
  lemma CountedHmac(f: Compress, key: seq<byte>, text: seq<byte>, extra: nat)
    requires |key| < 0x2000_0000 && extra % TWO32 == 0
    ensures Sha1Key(f, key) == BlockKey(Sha1Of(f), key)
    ensures HmacSha1With(f, key, text, extra) == HmacOf(Sha1Of(f), key, text)
  {
    hide Masked, DigestWith, Sha1Hash, FalseCarry;
    CountedRight(0, |key|);
    DigestRight(f, key, 0);
    DigestRight(f, Masked(Sha1Key(f, key), IPAD) + text, extra);
  }

  lemma DigestLength(f: Compress, msg: seq<byte>, extra: nat)
    requires Sized(f, 5)
    ensures |DigestWith(f, msg, extra)| == 20
  {
    BlocksSized(f, Sha1.INIT, msg + PadWith(|msg|, HighWith(|msg|, extra)), 5);
  }

  method ShortSha1Key(compress: Compress, scramble: (Words, seq<byte>) -> seq<byte>, key: seq<byte>) returns (k: seq<byte>)
    requires Sized(compress, 5) && 8 * |key| < TWO64
    ensures k == Sha1Key(compress, key) && |k| <= 64
  {
    hide FalseCarry, Sized, DigestWith, Blocks, Tail;
    k := key;
    if |key| > 64 {
      var tctx := new Sha1Context(compress, scramble);
      tctx.Update(key);
      assert [] + key == key;
      DigestLength(compress, key, tctx.extra);
      k := tctx.Final();
    }
  }

  class HmacSha1Context {
    const compress: Compress
    const scramble: (Words, seq<byte>) -> seq<byte>
    const opad: array<byte>
    var context: Sha1Context
    ghost const key: seq<byte>
    ghost var text: seq<byte>

    ghost predicate Valid()
      reads this, opad, context, context.buffer
    {
      && Sized(compress, 5) && opad != context.buffer && context.compress == compress && context.scramble == scramble
      && context.Valid()
      && opad[..] == Masked(Sha1Key(compress, key), OPAD)
      && context.msg == Masked(Sha1Key(compress, key), IPAD) + text
    }

    /** pj_hmac_sha1_init */
    constructor (compress: Compress, scramble: (Words, seq<byte>) -> seq<byte>, key: seq<byte>)
      requires Sized(compress, 5) && 8 * |key| < TWO64
      ensures Valid() && fresh(opad) && fresh(context) && fresh(context.buffer)
      ensures this.compress == compress && this.key == key && text == [] && context.extra == 0
    {
      hide Masked, FalseCarry, Blocks, Tail, HighWith, LowCount, Sha1Hash, Sized, Sha1Key;
      this.compress, this.scramble := compress, scramble;
      this.key := key;
      opad := new byte[64];
      context := new Sha1Context(compress, scramble);
      text := [];
      new;
      var k := ShortSha1Key(compress, scramble, key);
      var ipad := new byte[64];
      MakePad(ipad, k, IPAD);
      MakePad(opad, k, OPAD);
      CountedRight(0, 64);
      context.Update(ipad[..]);
      assert [] + Masked(k, IPAD) == Masked(k, IPAD) + [];
    }

    /** pj_hmac_sha1_update. The block of the inner pad has been counted before the text. */
    method Update(input: seq<byte>)
      requires Valid() && 8 * |input| < TWO64
      modifies this, context, context.buffer
      ensures Valid() && text == old(text) + input && context == old(context)
      ensures context.extra == old(context.extra) + (if FalseCarry(64 + |old(text)|, |input|) then 1 else 0)
      ensures |input| < 0x2000_0000 ==> context.extra == old(context.extra)
    {
      hide Masked, Sized, FalseCarry, Blocks, Tail, Sha1Key;
      CountedRight(|context.msg|, |input|);
      context.Update(input);
      text := text + input;
      assert (Masked(Sha1Key(compress, key), IPAD) + old(text)) + input == Masked(Sha1Key(compress, key), IPAD) + text;
    }

    /** pj_hmac_sha1_final */
    method Final() returns (digest: seq<byte>)
      requires Valid()
      modifies this, context, context.buffer
      ensures digest == HmacSha1With(compress, key, old(text), old(context.extra))
      ensures |key| < 0x2000_0000 && old(context.extra) % TWO32 == 0 ==> digest == HmacOf(Sha1Of(compress), key, old(text))
    {
      hide Masked, FalseCarry, Blocks, Tail, PadWith, Pad, HighWith, Sha1Key, DigestWith, Sha1Hash;
      if |key| < 0x2000_0000 && context.extra % TWO32 == 0 {
        CountedHmac(compress, key, text, context.extra);
      }
      DigestLength(compress, context.msg, context.extra);
      var inner := context.Final();
      digest := HashSha1(compress, scramble, opad[..], inner);
    }
  }
}
