/** CRC-32 (crc32.c): the table form that works word by word on aligned memory, the form that
    works bit by bit, and the polynomial division that both compute. */
module Crc32 {
  import opened CrcTable

  const POLY: bv32 := 0xEDB88320
  const NEGL: bv32 := 0xFFFFFFFF

  /** The sum of two states. It has a name so that proofs can do without its bits. */
  function Xor(x: bv32, y: bv32): bv32 {
    x ^ y
  }

  /** One bit of the division */
  function BitStep(x: bv32): bv32 {
    if x & 1 == 1 then (x >> 1) ^ POLY else x >> 1
  }

  function Bits2(x: bv32): bv32 { BitStep(BitStep(x)) }
  function Bits4(x: bv32): bv32 { Bits2(Bits2(x)) }

  /** Eight bits of the division */
  function Bits8(x: bv32): bv32 { Bits4(Bits4(x)) }

  /** The state after a byte: it comes in at the low end, and is divided out. */
  function ByteStep(crc: bv32, b: bv8): bv32 {
    Bits8(Xor(crc, b as bv32))
  }

  /** The state after all bytes of a message */
  function Crc(crc: bv32, data: seq<bv8>): bv32
    decreases |data|
  {
    if data == [] then crc else Crc(ByteStep(crc, data[0]), data[1..])
  }

  /** The CRC of a message */
  function Checksum(data: seq<bv8>): bv32 {
    Xor(Crc(NEGL, data), NEGL)
  }

  lemma {:induction false} CrcAppend(crc: bv32, a: seq<bv8>, b: seq<bv8>)
    ensures Crc(crc, a + b) == Crc(Crc(crc, a), b)
    decreases |a|
  {
    if a == [] {
      assert a + b == b;
    } else {
      assert (a + b)[0] == a[0] && (a + b)[1..] == a[1..] + b;
      CrcAppend(ByteStep(crc, a[0]), a[1..], b);
    }
  }

  /** The check value: the CRC of the characters "123456789" */
  lemma CheckValue()
    ensures Checksum([0x31, 0x32, 0x33, 0x34, 0x35, 0x36, 0x37, 0x38, 0x39]) == 0xCBF43926
  {
    CrcAppend(NEGL, [0x31, 0x32, 0x33], [0x34, 0x35, 0x36, 0x37, 0x38, 0x39]);
    CrcAppend(Crc(NEGL, [0x31, 0x32, 0x33]), [0x34, 0x35, 0x36], [0x37, 0x38, 0x39]);
    assert [0x31, 0x32, 0x33] + ([0x34, 0x35, 0x36] + [0x37, 0x38, 0x39]) ==
           [0x31, 0x32, 0x33, 0x34, 0x35, 0x36, 0x37, 0x38, 0x39];
  }

  // ----- Sums -----

  lemma XorGroup(x: bv32, y: bv32, z: bv32)
    ensures Xor(x, Xor(y, z)) == Xor(Xor(x, y), z)
  {
  }

  lemma XorTwice(x: bv32, y: bv32)
    ensures Xor(Xor(x, y), y) == x
  {
  }

  // ----- The division is linear -----

  lemma ShiftXor(x: bv32, y: bv32)
    ensures (x ^ y) >> 1 == (x >> 1) ^ (y >> 1)
  {
  }

  lemma LowBitXor(x: bv32, y: bv32)
    ensures (x ^ y) & 1 == 1 <==> (x & 1 == 1) != (y & 1 == 1)
  {
  }

  lemma XorPoly(x: bv32, y: bv32)
    ensures (x ^ POLY) ^ y == (x ^ y) ^ POLY && x ^ (y ^ POLY) == (x ^ y) ^ POLY && (x ^ POLY) ^ (y ^ POLY) == x ^ y
  {
  }

  lemma BitStepXor(x: bv32, y: bv32)
    ensures BitStep(x ^ y) == BitStep(x) ^ BitStep(y)
  {
    ShiftXor(x, y);
    LowBitXor(x, y);
    XorPoly(x >> 1, y >> 1);
  }

  /** A step of the sum of two states is the sum of their steps. */
  lemma BitStepLinear(x: bv32, y: bv32)
    ensures BitStep(Xor(x, y)) == Xor(BitStep(x), BitStep(y))
  {
    hide BitStep;
    BitStepXor(x, y);
  }

  lemma Bits8Linear(x: bv32, y: bv32)
    ensures Bits8(Xor(x, y)) == Xor(Bits8(x), Bits8(y))
  {
    hide Xor, Bits4;
    Bits4Linear(x, y);
    Bits4Linear(Bits4(x), Bits4(y));
  }

  lemma Bits4Linear(x: bv32, y: bv32)
    ensures Bits4(Xor(x, y)) == Xor(Bits4(x), Bits4(y))
  {
    hide Xor, BitStep;
    BitStepLinear(x, y);
    BitStepLinear(BitStep(x), BitStep(y));
    BitStepLinear(Bits2(x), Bits2(y));
    BitStepLinear(BitStep(Bits2(x)), BitStep(Bits2(y)));
  }

  // ----- The division loses nothing -----

  lemma BitStepInjective(x: bv32, y: bv32)
    requires BitStep(x) == BitStep(y)
    ensures x == y
  {
  }

  lemma Bits8Injective(x: bv32, y: bv32)
    requires Bits8(x) == Bits8(y)
    ensures x == y
  {
    Bits2Injective(Bits2(Bits4(x)), Bits2(Bits4(y)));
    Bits2Injective(Bits4(x), Bits4(y));
    Bits2Injective(Bits2(x), Bits2(y));
    Bits2Injective(x, y);
  }

  lemma Bits2Injective(x: bv32, y: bv32)
    requires Bits2(x) == Bits2(y)
    ensures x == y
  {
    BitStepInjective(BitStep(x), BitStep(y));
    BitStepInjective(x, y);
  }

  // ----- Low bytes -----

  function Low(x: bv32): bv32 { x & 0xFF }
  function High(x: bv32): bv32 { x & 0xFFFFFF00 }
  function Shifted(x: bv32): bv32 { x >> 8 }

  lemma Bits8Shifts(x: bv32)
    requires Low(x) == 0
    ensures Bits8(x) == Shifted(x)
  {
  }

  lemma LowAndHigh(x: bv32)
    ensures x == Xor(Low(x), High(x)) && Low(High(x)) == 0 && Shifted(High(x)) == Shifted(x)
  {
  }

  /** Only the low byte has to be divided: the rest is shifted. */
  lemma Bits8Split(x: bv32)
    ensures Bits8(x) == Xor(Bits8(Low(x)), Shifted(x))
  {
    hide Bits8, Xor, Low, High, Shifted;
    LowAndHigh(x);
    Bits8Linear(Low(x), High(x));
    Bits8Shifts(High(x));
  }

  // ----- The table -----

  lemma Row0Right(x: bv32)
    requires 0x00 <= x < 0x10
    ensures Row0(x) == Bits8(x)
  {
  }

  lemma Row1Right(x: bv32)
    requires 0x10 <= x < 0x20
    ensures Row1(x) == Bits8(x)
  {
  }

  lemma Row2Right(x: bv32)
    requires 0x20 <= x < 0x30
    ensures Row2(x) == Bits8(x)
  {
  }

  lemma Row3Right(x: bv32)
    requires 0x30 <= x < 0x40
    ensures Row3(x) == Bits8(x)
  {
  }

  lemma Row4Right(x: bv32)
    requires 0x40 <= x < 0x50
    ensures Row4(x) == Bits8(x)
  {
  }

  lemma Row5Right(x: bv32)
    requires 0x50 <= x < 0x60
    ensures Row5(x) == Bits8(x)
  {
  }

  lemma Row6Right(x: bv32)
    requires 0x60 <= x < 0x70
    ensures Row6(x) == Bits8(x)
  {
  }

  lemma Row7Right(x: bv32)
    requires 0x70 <= x < 0x80
    ensures Row7(x) == Bits8(x)
  {
  }

  lemma Row8Right(x: bv32)
    requires 0x80 <= x < 0x90
    ensures Row8(x) == Bits8(x)
  {
  }

  lemma Row9Right(x: bv32)
    requires 0x90 <= x < 0xA0
    ensures Row9(x) == Bits8(x)
  {
  }

  lemma RowARight(x: bv32)
    requires 0xA0 <= x < 0xB0
    ensures RowA(x) == Bits8(x)
  {
  }

  lemma RowBRight(x: bv32)
    requires 0xB0 <= x < 0xC0
    ensures RowB(x) == Bits8(x)
  {
  }

  lemma RowCRight(x: bv32)
    requires 0xC0 <= x < 0xD0
    ensures RowC(x) == Bits8(x)
  {
  }

  lemma RowDRight(x: bv32)
    requires 0xD0 <= x < 0xE0
    ensures RowD(x) == Bits8(x)
  {
  }

  lemma RowERight(x: bv32)
    requires 0xE0 <= x < 0xF0
    ensures RowE(x) == Bits8(x)
  {
  }

  lemma RowFRight(x: bv32)
    requires 0xF0 <= x < 0x100
    ensures RowF(x) == Bits8(x)
  {
  }

  /** Every entry of the table is the remainder of its index. */
  lemma TableIsRemainder(x: bv32)
    requires x < 0x100
    ensures CrcTab(x) == Bits8(x)
  {
    hide Bits8, Row0, Row1, Row2, Row3, Row4, Row5, Row6, Row7, Row8, Row9, RowA, RowB, RowC, RowD, RowE, RowF;
    if x < 0x10 { Row0Right(x); }
    else if x < 0x20 { Row1Right(x); }
    else if x < 0x30 { Row2Right(x); }
    else if x < 0x40 { Row3Right(x); }
    else if x < 0x50 { Row4Right(x); }
    else if x < 0x60 { Row5Right(x); }
    else if x < 0x70 { Row6Right(x); }
    else if x < 0x80 { Row7Right(x); }
    else if x < 0x90 { Row8Right(x); }
    else if x < 0xA0 { Row9Right(x); }
    else if x < 0xB0 { RowARight(x); }
    else if x < 0xC0 { RowBRight(x); }
    else if x < 0xD0 { RowCRight(x); }
    else if x < 0xE0 { RowDRight(x); }
    else if x < 0xF0 { RowERight(x); }
    else { RowFRight(x); }
  }

  // ----- Words -----

  /** A byte in front of some more, of which there are three at most */
  function Join(b: bv8, w: bv32): bv32 {
    (b as bv32) ^ (w << 8)
  }

  predicate Small(w: bv32) {
    w & 0xFF000000 == 0
  }

  /** Up to four bytes in memory, loaded as a little-endian word */
  function Word(u: seq<bv8>): bv32 {
    if u == [] then 0 else Join(u[0], Word(u[1..]))
  }

  lemma JoinLow(b: bv8, w: bv32)
    ensures Low(Join(b, w)) == b as bv32 && Low(w << 8) == 0
  {
  }

  lemma JoinHigh(b: bv8, w: bv32)
    requires Small(w)
    ensures Shifted(Join(b, w)) == w && Shifted(w << 8) == w
  {
  }

  lemma JoinIsSum(b: bv8, w: bv32)
    ensures Join(b, w) == Xor(b as bv32, w << 8)
  {
  }

  lemma JoinSmall(b: bv8, w: bv32)
    requires w & 0xFFFF0000 == 0
    ensures Join(b, w) & 0xFF000000 == 0
  {
  }

  lemma JoinSmaller(b: bv8, w: bv32)
    requires w & 0xFFFFFF00 == 0
    ensures Join(b, w) & 0xFFFF0000 == 0
  {
  }

  lemma JoinSmallest(b: bv8)
    ensures Join(b, 0) & 0xFFFFFF00 == 0
  {
  }

  /** The bytes of a word do not overlap. */
  lemma WordSmall(u: seq<bv8>)
    requires |u| <= 3
    ensures Small(Word(u))
  {
    hide Join;
    if u != [] {
      var v := u[1..];
      if v != [] {
        var w := v[1..];
        if w != [] {
          assert Word(w[1..]) == 0;
          JoinSmallest(w[0]);
          JoinSmaller(v[0], Word(w));
        } else {
          JoinSmallest(v[0]);
          JoinIsSmaller(v[0]);
        }
        JoinSmall(u[0], Word(v));
      } else {
        JoinIsSmaller(u[0]);
      }
    }
  }

  lemma JoinIsSmaller(b: bv8)
    ensures Small(Join(b, 0)) && Join(b, 0) & 0xFFFF0000 == 0
  {
  }

  /** Dividing out the first byte of a word */
  lemma WordStep(crc: bv32, b: bv8, w: bv32)
    requires Small(w)
    ensures Bits8(Xor(crc, Join(b, w))) == Xor(ByteStep(crc, b), w)
  {
    hide Bits8, Xor, Join, Low, Shifted, Small;
    JoinLow(b, w);
    JoinHigh(b, w);
    JoinIsSum(b, w);
    XorGroup(crc, b as bv32, w << 8);
    Bits8Linear(Xor(crc, b as bv32), w << 8);
    Bits8Shifts(w << 8);
  }

  /** Some bytes divided out of a state */
  function Divide(x: bv32, n: nat): bv32
    decreases n
  {
    if n == 0 then x else Divide(Bits8(x), n - 1)
  }

  lemma XorNothing(x: bv32)
    ensures Xor(x, 0) == x
  {
  }

  /** Up to four bytes may come in at once, and then be divided out. */
  lemma {:induction false} WordForm(crc: bv32, u: seq<bv8>)
    requires |u| <= 4
    ensures Crc(crc, u) == Divide(Xor(crc, Word(u)), |u|)
    decreases |u|
  {
    hide Bits8, Xor, Join, ByteStep;
    if u == [] {
      XorNothing(crc);
    } else {
      WordSmall(u[1..]);
      WordStep(crc, u[0], Word(u[1..]));
      WordForm(ByteStep(crc, u[0]), u[1..]);
    }
  }

  lemma {:induction false} DivideInjective(x: bv32, y: bv32, n: nat)
    requires Divide(x, n) == Divide(y, n)
    ensures x == y
    decreases n
  {
    hide Bits8;
    if n > 0 {
      DivideInjective(Bits8(x), Bits8(y), n - 1);
      Bits8Injective(x, y);
    }
  }

  lemma JoinInjective(b: bv8, v: bv32, c: bv8, w: bv32)
    requires Small(v) && Small(w) && Join(b, v) == Join(c, w)
    ensures b == c && v == w
  {
  }

  lemma {:induction false} WordInjective(u: seq<bv8>, v: seq<bv8>)
    requires |u| == |v| <= 4 && Word(u) == Word(v)
    ensures u == v
    decreases |u|
  {
    hide Join;
    if u != [] {
      WordSmall(u[1..]);
      WordSmall(v[1..]);
      JoinInjective(u[0], Word(u[1..]), v[0], Word(v[1..]));
      WordInjective(u[1..], v[1..]);
      assert u == [u[0]] + u[1..] && v == [v[0]] + v[1..];
    }
  }

  // ----- What the CRC detects -----

  lemma XorInjective(c: bv32, x: bv32, y: bv32)
    ensures Xor(c, x) == Xor(c, y) ==> x == y
    ensures Xor(x, c) == Xor(y, c) ==> x == y
  {
  }

  lemma {:induction false} CrcInjective(c: bv32, d: bv32, data: seq<bv8>)
    requires Crc(c, data) == Crc(d, data)
    ensures c == d
    decreases |data|
  {
    hide Bits8, Xor;
    if data != [] {
      CrcInjective(ByteStep(c, data[0]), ByteStep(d, data[0]), data[1..]);
      Bits8Injective(Xor(c, data[0] as bv32), Xor(d, data[0] as bv32));
      XorInjective(data[0] as bv32, c, d);
    }
  }

  /** Two messages that differ, but only within four consecutive bytes, have different CRCs. */
  lemma BurstIsDetected(front: seq<bv8>, u: seq<bv8>, v: seq<bv8>, back: seq<bv8>)
    requires |u| == |v| <= 4 && u != v
    ensures Checksum(front + u + back) != Checksum(front + v + back)
  {
    hide Xor;
    var c := Crc(NEGL, front);
    CrcAppend(NEGL, front + u, back);
    CrcAppend(NEGL, front, u);
    CrcAppend(NEGL, front + v, back);
    CrcAppend(NEGL, front, v);
    if Checksum(front + u + back) == Checksum(front + v + back) {
      XorInjective(NEGL, Crc(NEGL, front + u + back), Crc(NEGL, front + v + back));
      CrcInjective(Crc(c, u), Crc(c, v), back);
      WordForm(c, u);
      WordForm(c, v);
      DivideInjective(Xor(c, Word(u)), Xor(c, Word(v)), |u|);
      XorInjective(c, Word(u), Word(v));
      WordInjective(u, v);
    }
  }

  // ----- The residue -----

  /** A CRC as it is sent: its low byte first */
  function LittleEndian(x: bv32): (s: seq<bv8>)
    ensures |s| == 4
  {
    [(x & 0xFF) as bv8, ((x >> 8) & 0xFF) as bv8, ((x >> 16) & 0xFF) as bv8, ((x >> 24) & 0xFF) as bv8]
  }

  lemma FourBytes(x: bv32)
    ensures Join((x & 0xFF) as bv8, Join(((x >> 8) & 0xFF) as bv8, Join(((x >> 16) & 0xFF) as bv8,
                 Join(((x >> 24) & 0xFF) as bv8, 0)))) == x
  {
  }

  lemma WordOfBytes(x: bv32)
    ensures Word(LittleEndian(x)) == x
  {
    hide Join;
    var s := LittleEndian(x);
    var s1, s2, s3 := [s[1], s[2], s[3]], [s[2], s[3]], [s[3]];
    assert s[1..] == s1 && s1[1..] == s2 && s2[1..] == s3;
    assert |s3[1..]| == 0;
    assert Word(s3) == Join(s[3], 0);
    assert Word(s2) == Join(s[2], Word(s3));
    assert Word(s1) == Join(s[1], Word(s2));
    FourBytes(x);
  }

  lemma FourDivisions()
    ensures Xor(Divide(NEGL, 4), NEGL) == 0x2144DF1C
  {
    assert Bits8(NEGL) == 0x2DFD1072;
    assert Bits8(0x2DFD1072) == 0xBE26ED00;
    assert Bits8(0xBE26ED00) == 0x00BE26ED;
    assert Bits8(0x00BE26ED) == 0xDEBB20E3;
    assert Divide(NEGL, 4) == Divide(Bits8(NEGL), 3) == Divide(0xBE26ED00, 2) == Divide(0x00BE26ED, 1) == 0xDEBB20E3;
  }

  /** A message followed by its CRC always has the same CRC. */
  lemma Residue(m: seq<bv8>)
    ensures Checksum(m + LittleEndian(Checksum(m))) == 0x2144DF1C
  {
    hide Xor, Divide, LittleEndian, Word, Crc;
    var c, x := Crc(NEGL, m), Checksum(m);
    CrcAppend(NEGL, m, LittleEndian(x));
    WordForm(c, LittleEndian(x));
    WordOfBytes(x);
    XorGroup(c, c, NEGL);
    XorItself(c);
    FourDivisions();
  }

  lemma XorItself(c: bv32)
    ensures Xor(Xor(c, c), NEGL) == NEGL
  {
  }

  // ----- The table form -----

  lemma XorLow(crc: bv32, b: bv8)
    ensures Low(Xor(crc, b as bv32)) == Low(crc) ^ (b as bv32) < 0x100 && Shifted(Xor(crc, b as bv32)) == Shifted(crc)
    ensures Low(crc) < 0x100
  {
  }

  /** One byte by the table */
  function TableStep(crc: bv32, b: bv8): bv32 {
    XorLow(crc, b);
    Xor(CrcTab(Low(crc) ^ (b as bv32)), Shifted(crc))
  }

  /** One turn of a whole word by the table */
  function TableTurn(crc: bv32): bv32 {
    XorLow(crc, 0);
    Xor(CrcTab(Low(crc)), Shifted(crc))
  }

  lemma TableStepIsByteStep(crc: bv32, b: bv8)
    ensures TableStep(crc, b) == ByteStep(crc, b)
  {
    hide Bits8, Xor, Low, Shifted, CrcTab;
    XorLow(crc, b);
    TableIsRemainder(Low(crc) ^ (b as bv32));
    Bits8Split(Xor(crc, b as bv32));
  }

  lemma TableTurnIsBits8(crc: bv32)
    ensures TableTurn(crc) == Bits8(crc)
  {
    hide Bits8, Xor, Low, Shifted, CrcTab;
    XorLow(crc, 0);
    TableIsRemainder(Low(crc));
    Bits8Split(crc);
  }

  /** Four turns of a word divide out four bytes. */
  lemma WordTurns(crc: bv32, u: seq<bv8>)
    requires |u| == 4
    ensures TableTurn(TableTurn(TableTurn(TableTurn(Xor(crc, Word(u)))))) == Crc(crc, u)
  {
    hide TableTurn, Bits8, Xor, Word, Crc;
    var x := Xor(crc, Word(u));
    TableTurnIsBits8(x);
    TableTurnIsBits8(Bits8(x));
    TableTurnIsBits8(Bits8(Bits8(x)));
    TableTurnIsBits8(Bits8(Bits8(Bits8(x))));
    WordForm(crc, u);
    FourTimes(x);
  }

  lemma FourTimes(x: bv32)
    ensures Divide(x, 4) == Bits8(Bits8(Bits8(Bits8(x))))
  {
    hide Bits8;
    assert Divide(x, 4) == Divide(Bits8(x), 3) == Divide(Bits8(Bits8(x)), 2) == Divide(Bits8(Bits8(Bits8(x))), 1);
  }

  /** What is left of the message after one byte */
  lemma OneByte(crc: bv32, data: seq<bv8>, i: nat)
    requires i < |data|
    ensures Crc(crc, data[i..]) == Crc(ByteStep(crc, data[i]), data[i + 1..])
  {
    hide ByteStep;
    assert data[i..][0] == data[i] && data[i..][1..] == data[i + 1..];
  }

  lemma OneWord(crc: bv32, data: seq<bv8>, i: nat)
    requires i + 4 <= |data|
    ensures Crc(crc, data[i..]) == Crc(Crc(crc, data[i..i + 4]), data[i + 4..])
  {
    assert data[i..] == data[i..i + 4] + data[i + 4..];
    CrcAppend(crc, data[i..i + 4], data[i + 4..]);
  }

  /** pj_crc32_context in the build with tables: the state is kept as the CRC so far. */
  class TableContext {
    var crcState: bv32

    constructor ()
      ensures crcState == Xor(NEGL, NEGL)
    {
      crcState := 0;
    }

    /** pj_crc32_update on memory that starts at `address`: bytes up to an aligned address,
        then words, then bytes */
    method Update(address: nat, data: seq<bv8>) returns (r: bv32)
      modifies this
      ensures r == crcState && Xor(crcState, NEGL) == Crc(Xor(old(crcState), NEGL), data)
    {
      hide Crc, Xor, TableStep, TableTurn, ByteStep;
      var crc := Xor(crcState, NEGL);
      ghost var start := crc;
      var i, nbytes := 0, |data|;
      assert data[0..] == data;
      while (address + i) % 4 != 0 && nbytes > 0
        invariant 0 <= i && i + nbytes == |data| && nbytes >= 0
        invariant Crc(start, data) == Crc(crc, data[i..])
        decreases nbytes
      {
        OneByte(crc, data, i);
        TableStepIsByteStep(crc, data[i]);
        crc := TableStep(crc, data[i]);
        i, nbytes := i + 1, nbytes - 1;
      }
      while nbytes >= 4
        invariant 0 <= i && i + nbytes == |data| && nbytes >= 0
        invariant Crc(start, data) == Crc(crc, data[i..])
        decreases nbytes
      {
        OneWord(crc, data, i);
        WordTurns(crc, data[i..i + 4]);
        crc := Xor(crc, Word(data[i..i + 4]));
        crc := TableTurn(crc);
        crc := TableTurn(crc);
        crc := TableTurn(crc);
        crc := TableTurn(crc);
        nbytes := nbytes - 4;
        i := i + 4;
      }
      while nbytes > 0
        invariant 0 <= i && i + nbytes == |data| && nbytes >= 0
        invariant Crc(start, data) == Crc(crc, data[i..])
        decreases nbytes
      {
        OneByte(crc, data, i);
        TableStepIsByteStep(crc, data[i]);
        crc := TableStep(crc, data[i]);
        i, nbytes := i + 1, nbytes - 1;
      }
      NothingLeft(crc, data[i..]);
      crcState := Xor(crc, NEGL);
      XorTwice(crc, NEGL);
      r := crcState;
    }

    method Final() returns (r: bv32)
      ensures r == crcState
    {
      r := crcState;
    }
  }

  lemma NothingLeft(crc: bv32, none: seq<bv8>)
    requires none == []
    ensures Crc(crc, none) == crc
  {
  }

  /** pj_crc32_context in the build without tables: the state is kept inverted. */
  class BitContext {
    var crcState: bv32

    constructor ()
      ensures crcState == NEGL
    {
      crcState := NEGL;
    }

    method Update(data: seq<bv8>) returns (r: bv32)
      modifies this
      ensures crcState == Crc(old(crcState), data) && r == Xor(crcState, NEGL)
    {
      hide Crc, Xor, ByteStep;
      var crc := crcState;
      assert data[0..] == data;
      for i := 0 to |data|
        invariant Crc(old(crcState), data) == Crc(crc, data[i..])
      {
        OneByte(crc, data, i);
        crc := DivideByte(crc, data[i]);
      }
      NothingLeft(crc, data[|data|..]);
      crcState := crc;
      r := Xor(crc, NEGL);
    }

    method Final() returns (r: bv32)
      modifies this
      ensures r == Xor(old(crcState), NEGL) == crcState
    {
      crcState := Xor(crcState, NEGL);
      r := crcState;
    }
  }

  /** The loop over the eight bits of a byte: only the low byte of the state is divided. */
  method DivideByte(crc: bv32, b: bv8) returns (r: bv32)
    ensures r == ByteStep(crc, b)
  {
    hide Xor, Low, Shifted, Bits8, BitStep;
    XorLow(crc, b);
    var temp := Xor(Low(crc), b as bv32);
    ghost var x := temp;
    LowXor(crc, b);
    for j := 0 to 8
      invariant temp == StepBits(x, j)
    {
      StepOnce(x, j);
      temp := BitStep(temp);
    }
    EightSteps(x);
    Bits8Split(Xor(crc, b as bv32));
    XorCommutes(Shifted(crc), temp);
    r := Xor(Shifted(crc), temp);
  }

  lemma LowXor(crc: bv32, b: bv8)
    ensures Xor(Low(crc), b as bv32) == Low(Xor(crc, b as bv32))
  {
  }

  lemma XorCommutes(x: bv32, y: bv32)
    ensures Xor(x, y) == Xor(y, x)
  {
  }

  function StepBits(x: bv32, n: nat): bv32 {
    if n == 0 then x else BitStep(StepBits(x, n - 1))
  }

  lemma StepOnce(x: bv32, n: nat)
    ensures StepBits(x, n + 1) == BitStep(StepBits(x, n))
  {
  }

  lemma EightSteps(x: bv32)
    ensures StepBits(x, 0) == x && StepBits(x, 8) == Bits8(x)
  {
    hide BitStep;
    assert StepBits(x, 2) == Bits2(x) by { assert StepBits(x, 1) == BitStep(x); }
    assert StepBits(x, 4) == Bits4(x) by { assert StepBits(x, 3) == BitStep(Bits2(x)); }
    assert StepBits(x, 6) == Bits2(Bits4(x)) by { assert StepBits(x, 5) == BitStep(Bits4(x)); }
    assert StepBits(x, 7) == BitStep(Bits2(Bits4(x)));
  }

  // ----- Messages in pieces -----

  /** A piece of a message, and where it lies in memory */
  datatype Piece = Piece(address: nat, data: seq<bv8>)

  function Joined(pieces: seq<Piece>): seq<bv8> {
    if pieces == [] then [] else pieces[0].data + Joined(pieces[1..])
  }

  lemma OnePiece(crc: bv32, pieces: seq<Piece>, i: nat)
    requires i < |pieces|
    ensures Crc(crc, Joined(pieces[i..])) == Crc(Crc(crc, pieces[i].data), Joined(pieces[i + 1..]))
  {
    assert pieces[i..][0] == pieces[i] && pieces[i..][1..] == pieces[i + 1..];
    CrcAppend(crc, pieces[i].data, Joined(pieces[i + 1..]));
  }

  /** By table and word, for any pieces of the message at any addresses */
  method ChecksumByTable(pieces: seq<Piece>) returns (r: bv32)
    ensures r == Checksum(Joined(pieces))
  {
    hide Crc, Xor, Joined;
    var ctx := new TableContext();
    XorItself(0);
    StartState();
    assert pieces[0..] == pieces;
    for i := 0 to |pieces|
      invariant Crc(NEGL, Joined(pieces)) == Crc(Xor(ctx.crcState, NEGL), Joined(pieces[i..]))
    {
      OnePiece(Xor(ctx.crcState, NEGL), pieces, i);
      var sofar := ctx.Update(pieces[i].address, pieces[i].data);
    }
    NoPieces(pieces[|pieces|..]);
    NothingLeft(Xor(ctx.crcState, NEGL), []);
    XorTwice(ctx.crcState, NEGL);
    r := ctx.Final();
  }

  lemma StartState()
    ensures Xor(Xor(NEGL, NEGL), NEGL) == NEGL
  {
  }

  lemma NoPieces(none: seq<Piece>)
    requires none == []
    ensures Joined(none) == []
  {
  }

  /** Bit by bit, for any pieces of the message */
  method ChecksumByBits(pieces: seq<Piece>) returns (r: bv32)
    ensures r == Checksum(Joined(pieces))
  {
    hide Crc, Xor, Joined;
    var ctx := new BitContext();
    assert pieces[0..] == pieces;
    for i := 0 to |pieces|
      invariant Crc(NEGL, Joined(pieces)) == Crc(ctx.crcState, Joined(pieces[i..]))
    {
      OnePiece(ctx.crcState, pieces, i);
      var sofar := ctx.Update(pieces[i].data);
    }
    NoPieces(pieces[|pieces|..]);
    NothingLeft(ctx.crcState, []);
    r := ctx.Final();
  }
}
