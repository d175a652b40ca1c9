/** Base64 as base64.c encodes and decodes it (section 4 of RFC 4648). */
module Base64 {
  import opened Sequences
  import opened Buffers
  import opened Bytes

  const INV: int := -1
  const PADDING := '='
  const UPPER := "ABCDEFGHIJKLMNOPQRSTUVWXYZ"
  const LOWER := "abcdefghijklmnopqrstuvwxyz"
  const NUMBERS := "0123456789"

  /** base64_char */
  const ALPHABET: string := UPPER + LOWER + NUMBERS + "+/"

  /** A character's value, or INV */
  type Digit = d: int | INV <= d < 64 witness 0

  /** One character of the table */
  function Symbol(v: int): (c: char)
    requires 0 <= v < 64
  {
    Lengths();
    ALPHABET[v]
  }

  /** base256_char */
  function Value(c: char): Digit {
    if 'A' <= c <= 'Z' then c as int - 'A' as int
    else if 'a' <= c <= 'z' then c as int - 'a' as int + 26
    else if '0' <= c <= '9' then c as int - '0' as int + 52
    else if c == '+' then 62
    else if c == '/' then 63
    else INV
  }

  /** The table and the case expression are inverse; the padding is in neither. */
  lemma SymbolValue(v: int, c: char)
    requires 0 <= v < 64
    ensures Value(Symbol(v)) == v && Symbol(v) != PADDING
    ensures Value(c) != INV ==> Symbol(Value(c)) == c
    ensures Value(PADDING) == INV
  {
    SymbolOf(v);
    if Value(c) != INV {
      SymbolOf(Value(c));
    }
  }

  lemma SymbolOf(v: int)
    requires 0 <= v < 64
    ensures Symbol(v) as int == if v < 26 then 'A' as int + v else if v < 52 then 'a' as int + (v - 26)
                                else if v < 62 then '0' as int + (v - 52) else if v == 62 then '+' as int else '/' as int
  {
    hide UPPER, LOWER, NUMBERS;
    if v < 26 {
      UpperCase(v);
    } else if v < 52 {
      LowerCase(v - 26);
    } else if v < 62 {
      Number(v - 52);
    }
    Lengths();
  }

  lemma Lengths()
    ensures |UPPER| == 26 && |LOWER| == 26 && |NUMBERS| == 10
  {
  }

  lemma UpperCase(v: int)
    requires 0 <= v < 26
    ensures |UPPER| == 26 && UPPER[v] as int == 'A' as int + v
  {
  }

  lemma LowerCase(v: int)
    requires 0 <= v < 26
    ensures |LOWER| == 26 && LOWER[v] as int == 'a' as int + v
  {
  }

  lemma Number(v: int)
    requires 0 <= v < 10
    ensures |NUMBERS| == 10 && NUMBERS[v] as int == '0' as int + v
  {
  }

  /** base256to64. The parts that are or-ed together have no bit in common, so they are added. */
  function Quad(c1: byte, c2: byte, c3: byte, padding: nat): (q: string)
    ensures |q| == 4
  {
    var q1, q2 := Symbol(c1 / 4), Symbol(c1 % 4 * 16 + c2 / 16);
    if padding == 0 then [q1, q2, Symbol(c2 % 16 * 4 + c3 / 64), Symbol(c3 % 64)]
    else if padding == 1 then [q1, q2, Symbol(c2 % 16 * 4 + c3 / 64), PADDING]
    else [q1, q2, PADDING, PADDING]
  }

  /** A group read as one number of 24 bits is its symbols read as one; what is padded counts as zero. */
  lemma QuadIsNumber(c1: byte, c2: byte, c3: byte, padding: nat)
    requires padding <= 2 && (padding > 0 ==> c3 == 0) && (padding > 1 ==> c2 == 0)
    ensures var q := Quad(c1, c2, c3, padding);
            && 0x40000 * Value(q[0]) + 0x1000 * Value(q[1]) + (if padding < 2 then 0x40 * Value(q[2]) else 0)
                 + (if padding < 1 then Value(q[3]) else 0) == 0x10000 * c1 + 0x100 * c2 + c3
            && (q[2] == PADDING <==> padding == 2) && (q[3] == PADDING <==> padding >= 1)
  {
    hide Value, Symbol;
    SymbolValue(c1 / 4, PADDING);
    SymbolValue(c1 % 4 * 16 + c2 / 16, PADDING);
    SymbolValue(c2 % 16 * 4 + c3 / 64, PADDING);
    SymbolValue(c3 % 64, PADDING);
  }

  /** The text pj_base64_encode writes */
  function Encoded(x: seq<byte>): string {
    if |x| == 0 then ""
    else if |x| == 1 then Quad(x[0], 0, 0, 2)
    else if |x| == 2 then Quad(x[0], x[1], 0, 1)
    else Quad(x[0], x[1], x[2], 0) + Encoded(x[3..])
  }

  /** PJ_BASE256_TO_BASE64_LEN is enough for every input. */
  lemma {:induction false} EncodedFits(x: seq<byte>)
    ensures |Encoded(x)| == 4 * ((|x| + 2) / 3) <= |x| * 4 / 3 + 3
  {
    hide Quad;
    if |x| >= 3 {
      EncodedFits(x[3..]);
    }
  }

  /** Without the padding at the end */
  function Stripped(s: string): (t: string)
    ensures t <= s
  {
    if s != "" && s[|s| - 1] == PADDING then Stripped(s[..|s| - 1]) else s
  }

  /** The values the decoder takes up: those of the alphabet's characters, but also the INV of a
      character outside the alphabet when it is the last one. */
  function Digits(t: string): (d: seq<Digit>)
    ensures |d| <= |t|
  {
    if t == "" then []
    else if Value(t[0]) == INV && |t| > 1 then Digits(t[1..])
    else [Value(t[0])] + Digits(t[1..])
  }

  /** The three bytes of a group; masking a negative value takes its two's-complement bits. */
  function Byte0(c0: Digit, c1: Digit): byte { (c0 * 4 + c1 % 64 / 16) % 256 }
  function Byte1(c1: Digit, c2: Digit): byte { c1 % 16 * 16 + c2 % 64 / 4 }
  function Byte2(c2: Digit, c3: Digit): byte { c2 % 4 * 64 + c3 % 64 }

  /** The bytes of up to four digits */
  function Group(d: seq<Digit>): (b: seq<byte>)
    requires |d| <= 4
    ensures |b| == if |d| == 0 then 0 else |d| - 1
  {
    (if |d| > 1 then [Byte0(d[0], d[1])] else [])
    + (if |d| > 2 then [Byte1(d[1], d[2])] else [])
    + (if |d| > 3 then [Byte2(d[2], d[3])] else [])
  }

  /** Four digits read as one number of 24 bits are the three bytes read as one. */
  lemma BytesAreNumber(c0: Digit, c1: Digit, c2: Digit, c3: Digit)
    requires c0 != INV && c1 != INV && c2 != INV && c3 != INV
    ensures 0x10000 * Byte0(c0, c1) + 0x100 * Byte1(c1, c2) + Byte2(c2, c3) ==
            0x40000 * c0 + 0x1000 * c1 + 0x40 * c2 + c3
  {
    assert Byte0(c0, c1) == c0 * 4 + c1 / 16;
    assert Byte1(c1, c2) == c1 % 16 * 16 + c2 / 4;
    assert Byte2(c2, c3) == c2 % 4 * 64 + c3;
  }

  function Unpacked(d: seq<Digit>): (b: seq<byte>)
    ensures |b| == |d| * 3 / 4
  {
    if |d| <= 4 then Group(d) else Group(d[..4]) + Unpacked(d[4..])
  }

  /** The bytes pj_base64_decode writes */
  function Decoded(s: string): seq<byte> {
    Unpacked(Digits(Stripped(s)))
  }

  /** Some of the examples of section 10 of RFC 4648, and one for the last two symbols. Together
      with RoundTrip they say what is decoded. */
  lemma Examples()
    ensures Encoded([0x66]) == "Zg==" && Encoded([0x66, 0x6f]) == "Zm8=" && Encoded([0x66, 0x6f, 0x6f]) == "Zm9v"
    ensures Encoded([0xfb, 0xff, 0xbf]) == "+/+/"
  {
    hide Symbol, Value;
    SymbolOf(25);
    SymbolOf(32);
    SymbolOf(38);
    SymbolOf(60);
    SymbolOf(61);
    SymbolOf(47);
    SymbolOf(62);
    SymbolOf(63);
    EncodedStep([0x66, 0x6f, 0x6f]);
    EncodedStep([0xfb, 0xff, 0xbf]);
  }

  // ---------------------------------------------------------------- the round trip

  lemma QuadReads(c1: byte, c2: byte, c3: byte, padding: nat)
    requires padding > 0 ==> c3 == 0
    requires padding > 1 ==> c2 == 0
    ensures var q := Quad(c1, c2, c3, padding);
            && Value(q[0]) != INV && Value(q[1]) != INV && Byte0(Value(q[0]), Value(q[1])) == c1
            && (padding < 2 ==> Value(q[2]) != INV && Byte1(Value(q[1]), Value(q[2])) == c2)
            && (padding == 0 ==> Value(q[3]) != INV && Byte2(Value(q[2]), Value(q[3])) == c3)
  {
    hide Value, Symbol, Byte0, Byte1, Byte2;
    SymbolValue(c1 / 4, PADDING);
    SymbolValue(c1 % 4 * 16 + c2 / 16, PADDING);
    SymbolValue(c2 % 16 * 4 + c3 / 64, PADDING);
    SymbolValue(c3 % 64, PADDING);
    ByteBack0(c1, c2);
    ByteBack1(c1, c2, c3);
    ByteBack2(c2, c3);
  }

  lemma ByteBack0(c1: byte, c2: byte)
    ensures Byte0(c1 / 4, c1 % 4 * 16 + c2 / 16) == c1
  {
    assert (c1 % 4 * 16 + c2 / 16) % 64 == c1 % 4 * 16 + c2 / 16;
  }

  lemma ByteBack1(c1: byte, c2: byte, c3: byte)
    ensures Byte1(c1 % 4 * 16 + c2 / 16, c2 % 16 * 4 + c3 / 64) == c2
  {
    assert (c2 % 16 * 4 + c3 / 64) % 64 == c2 % 16 * 4 + c3 / 64;
    assert (c1 % 4 * 16 + c2 / 16) % 16 == c2 / 16;
  }

  lemma ByteBack2(c2: byte, c3: byte)
    ensures Byte2(c2 % 16 * 4 + c3 / 64, c3 % 64) == c3
  {
    assert (c2 % 16 * 4 + c3 / 64) % 4 == c3 / 64;
  }

  /** The first character of the alphabet is taken up. */
  lemma DigitsStep(t: string)
    requires t != "" && Value(t[0]) != INV
    ensures Digits(t) == [Value(t[0])] + Digits(t[1..])
  {
  }

  lemma QuadDigits(q: string, rest: string)
    requires |q| == 4 && forall k :: 0 <= k < 4 ==> Value(q[k]) != INV
    ensures Digits(q + rest) == [Value(q[0]), Value(q[1]), Value(q[2]), Value(q[3])] + Digits(rest)
  {
    hide Digits, Value;
    DigitsStep(q + rest);
    assert (q + rest)[1..] == q[1..] + rest;
    DigitsStep(q[1..] + rest);
    assert (q[1..] + rest)[1..] == q[2..] + rest;
    DigitsStep(q[2..] + rest);
    assert (q[2..] + rest)[1..] == q[3..] + rest;
    DigitsStep(q[3..] + rest);
    assert (q[3..] + rest)[1..] == rest;
  }

  /** Stripping looks at the end only. */
  lemma {:induction false} StripAppended(a: string, b: string)
    requires exists k :: 0 <= k < |b| && b[k] != PADDING
    ensures Stripped(a + b) == a + Stripped(b) && Stripped(b) != ""
    decreases |b|
  {
    if b[|b| - 1] == PADDING {
      var k :| 0 <= k < |b| && b[k] != PADDING;
      assert b[..|b| - 1][k] != PADDING;
      StripAppended(a, b[..|b| - 1]);
      assert (a + b)[..|a + b| - 1] == a + b[..|b| - 1];
    }
  }

  /** An encoding of full groups is not stripped at all. */
  lemma StripNothing(t: string)
    requires t == "" || t[|t| - 1] != PADDING
    ensures Stripped(t) == t
  {
  }

  /** Decoding takes back what encoding wrote, for every input, empty or not. */
  lemma {:induction false} RoundTrip(x: seq<byte>)
    ensures Decoded(Encoded(x)) == x
    decreases |x|
  {
    hide Encoded, Decoded;
    if |x| == 0 {
      EmptyText();
    } else if |x| < 3 {
      LastQuad(x);
    } else {
      RoundTrip(x[3..]);
      FirstQuadReads(x);
      FirstThree(x);
    }
  }

  lemma EmptyText()
    ensures Encoded([]) == "" && Decoded("") == []
  {
  }

  lemma FirstQuadReads(x: seq<byte>)
    requires |x| >= 3
    ensures Decoded(Encoded(x)) == [x[0], x[1], x[2]] + Decoded(Encoded(x[3..]))
  {
    hide Quad, Digits, Unpacked, Stripped, Encoded;
    var q, rest := Quad(x[0], x[1], x[2], 0), Encoded(x[3..]);
    EncodedStep(x);
    FirstQuadStays(x);
    QuadTaken(x[0], x[1], x[2], Stripped(rest));
  }

  lemma FirstThree(x: seq<byte>)
    requires |x| >= 3
    ensures x == [x[0], x[1], x[2]] + x[3..]
  {
  }

  lemma EncodedStep(x: seq<byte>)
    requires |x| >= 3
    ensures Encoded(x) == Quad(x[0], x[1], x[2], 0) + Encoded(x[3..])
  {
    hide Quad;
  }

  lemma FirstQuadStays(x: seq<byte>)
    requires |x| >= 3
    ensures var q, rest := Quad(x[0], x[1], x[2], 0), Encoded(x[3..]); Stripped(q + rest) == q + Stripped(rest)
  {
    hide Quad, Stripped, Encoded;
    var q, rest := Quad(x[0], x[1], x[2], 0), Encoded(x[3..]);
    if |x| == 3 {
      EmptyText();
      PlainQuad(x[0], x[1], x[2], 0);
      assert q + rest == q;
      StripNothing(q);
      StripNothing("");
    } else {
      NotAllPadding(x[3..]);
      StripAppended(q, rest);
    }
  }

  lemma QuadTaken(c1: byte, c2: byte, c3: byte, rest: string)
    ensures Unpacked(Digits(Quad(c1, c2, c3, 0) + rest)) == [c1, c2, c3] + Unpacked(Digits(rest))
  {
    hide Value, Symbol, Quad, Byte0, Byte1, Byte2, Digits, Unpacked;
    var q := Quad(c1, c2, c3, 0);
    QuadReads(c1, c2, c3, 0);
    QuadDigits(q, rest);
    QuadThenRest(q, Digits(rest));
  }

  lemma QuadThenRest(q: string, rest: seq<Digit>)
    requires |q| == 4
    ensures var d := [Value(q[0]), Value(q[1]), Value(q[2]), Value(q[3])];
            Unpacked(d + rest) == [Byte0(d[0], d[1]), Byte1(d[1], d[2]), Byte2(d[2], d[3])] + Unpacked(rest)
  {
    hide Value, Byte0, Byte1, Byte2;
    var d := [Value(q[0]), Value(q[1]), Value(q[2]), Value(q[3])];
    UnpackQuad(d, rest);
    assert Group(d) == [Byte0(d[0], d[1]), Byte1(d[1], d[2]), Byte2(d[2], d[3])];
  }

  lemma UnpackQuad(d: seq<Digit>, rest: seq<Digit>)
    requires |d| == 4
    ensures Unpacked(d + rest) == Group(d) + Unpacked(rest)
  {
    hide Group;
    if rest == [] {
      assert d + rest == d;
      assert Unpacked(rest) == Group(rest) == [];
    } else {
      assert (d + rest)[..4] == d && (d + rest)[4..] == rest;
    }
  }

  lemma PlainQuad(c1: byte, c2: byte, c3: byte, padding: nat)
    ensures var q := Quad(c1, c2, c3, padding); q[0] != PADDING && q[1] != PADDING
    ensures var q := Quad(c1, c2, c3, padding);
            (padding < 2 <==> q[2] != PADDING) && (padding == 0 <==> q[3] != PADDING)
  {
    hide Symbol, Value;
    SymbolValue(c1 / 4, PADDING);
    SymbolValue(c1 % 4 * 16 + c2 / 16, PADDING);
    SymbolValue(c2 % 16 * 4 + c3 / 64, PADDING);
    SymbolValue(c3 % 64, PADDING);
  }

  lemma NotAllPadding(x: seq<byte>)
    requires x != []
    ensures exists k :: 0 <= k < |Encoded(x)| && Encoded(x)[k] != PADDING
  {
    hide Quad;
    var q := Encoded(x)[..4];
    if |x| == 1 {
      PlainQuad(x[0], 0, 0, 2);
    } else if |x| == 2 {
      PlainQuad(x[0], x[1], 0, 1);
    } else {
      PlainQuad(x[0], x[1], x[2], 0);
    }
    EncodedFits(x);
    assert Encoded(x)[0] != PADDING;
  }

  lemma LastQuad(x: seq<byte>)
    requires 0 < |x| < 3
    ensures Decoded(Encoded(x)) == x
  {
    hide Quad, Decoded;
    ShortSeq(x);
    LastQuadReads(x[0], if |x| == 2 then x[1] else 0, |x|);
  }

  lemma ShortSeq(x: seq<byte>)
    requires 0 < |x| < 3
    ensures x == if |x| == 1 then [x[0]] else [x[0], x[1]]
  {
  }

  lemma LastQuadReads(c1: byte, c2: byte, n: nat)
    requires 1 <= n <= 2 && (n == 1 ==> c2 == 0)
    ensures Decoded(Quad(c1, c2, 0, 3 - n)) == if n == 1 then [c1] else [c1, c2]
  {
    hide Value, Symbol, Quad, Byte0, Byte1, Byte2, Unpacked, Digits, Stripped;
    var q := Quad(c1, c2, 0, 3 - n);
    QuadReads(c1, c2, 0, 3 - n);
    PlainQuad(c1, c2, 0, 3 - n);
    StripQuad(q, n + 1);
    FewDigits(q[..n + 1]);
  }

  lemma FewDigits(t: string)
    requires 2 <= |t| <= 3 && forall k :: 0 <= k < |t| ==> Value(t[k]) != INV
    ensures |t| == 2 ==> Unpacked(Digits(t)) == [Byte0(Value(t[0]), Value(t[1]))]
    ensures |t| == 3 ==> Unpacked(Digits(t)) == [Byte0(Value(t[0]), Value(t[1])), Byte1(Value(t[1]), Value(t[2]))]
  {
    hide Value, Digits, Byte0, Byte1;
    DigitsStep(t);
    DigitsStep(t[1..]);
    NextDigit("", "");
    if |t| == 3 {
      DigitsStep(t[2..]);
      assert Digits(t) == [Value(t[0]), Value(t[1]), Value(t[2])];
    } else {
      assert Digits(t) == [Value(t[0]), Value(t[1])];
    }
  }

  lemma StripQuad(q: string, n: nat)
    requires |q| == 4 && 2 <= n <= 3 && q[n - 1] != PADDING && q[3] == PADDING
    requires n == 2 ==> q[2] == PADDING
    ensures Stripped(q) == q[..n]
  {
    assert q[..3] == q[..|q| - 1];
    if n == 2 {
      assert q[..3][..2] == q[..2];
      assert Stripped(q[..3]) == Stripped(q[..3][..2]);
    }
  }

  // ---------------------------------------------------------------- characters outside the alphabet

  /** The alphabet's characters only */
  function Values(t: string): (d: seq<Digit>) {
    if t == "" then []
    else if Value(t[0]) == INV then Values(t[1..])
    else [Value(t[0])] + Values(t[1..])
  }

  /** A last character outside the alphabet is taken up as a digit of all ones. */
  lemma {:induction false} DigitsAreValues(t: string)
    ensures Digits(t) == Values(t) + if t != "" && Value(t[|t| - 1]) == INV then [INV] else []
  {
    if |t| == 1 {
      assert Digits(t[1..]) == [] && Values(t[1..]) == [];
    } else if t != "" {
      DigitsAreValues(t[1..]);
      assert t[1..][|t[1..]| - 1] == t[|t| - 1];
    }
  }

  lemma NextValue(t: string)
    ensures Values("") == []
    ensures t != "" ==> Values(t) == (if Value(t[0]) == INV then [] else [Value(t[0])]) + Values(t[1..])
  {
  }

  lemma {:induction false} ValuesAppend(a: string, b: string)
    ensures Values(a + b) == Values(a) + Values(b)
  {
    hide Values, Value;
    NextValue(a);
    if a == "" {
      assert a + b == b;
    } else {
      ValuesAppend(a[1..], b);
      assert (a + b)[1..] == a[1..] + b && (a + b)[0] == a[0];
      NextValue(a + b);
      Regrouped(if Value(a[0]) == INV then [] else [Value(a[0])], Values(a[1..]), Values(b));
    }
  }

  lemma {:induction false} NoValues(t: string)
    requires forall k :: 0 <= k < |t| ==> Value(t[k]) == INV
    ensures Values(t) == []
  {
    if t != "" {
      NoValues(t[1..]);
    }
  }

  /** Is some character of the alphabet in it? */
  ghost predicate HasSymbol(s: string) {
    exists k :: 0 <= k < |s| && Value(s[k]) != INV
  }

  lemma LastStays(a: string, j: char, b: string)
    requires HasSymbol(b)
    ensures Stripped(a + [j] + b) == a + [j] + Stripped(b) && Stripped(a + b) == a + Stripped(b) && Stripped(b) != ""
  {
    hide Stripped;
    var k :| 0 <= k < |b| && Value(b[k]) != INV;
    assert b[k] != PADDING;
    StripAppended(a + [j], b);
    StripAppended(a, b);
  }

  /** A character outside the alphabet anywhere before the last one of the alphabet changes nothing. */
  lemma JunkInsideIsIgnored(a: string, j: char, b: string)
    requires Value(j) == INV && HasSymbol(b)
    ensures Decoded(a + [j] + b) == Decoded(a + b)
  {
    hide Stripped, Value, Digits, HasSymbol, Unpacked;
    LastStays(a, j, b);
    var e := Stripped(b);
    DigitsAreValues(a + [j] + e);
    DigitsAreValues(a + e);
    ValuesAppend(a + [j], e);
    ValuesAppend(a, [j]);
    ValuesAppend(a, e);
    NoValues([j]);
    assert Values(a) + [] == Values(a);
    assert (a + [j] + e)[|a + [j] + e| - 1] == e[|e| - 1] == (a + e)[|a + e| - 1];
  }

  /** After full groups one more digit makes no byte. */
  lemma {:induction false} FullGroupsThenOne(v: seq<Digit>, d: Digit)
    requires |v| % 4 == 0
    ensures Unpacked(v + [d]) == Unpacked(v)
  {
    hide Group;
    if v == [] {
      assert v + [d] == [d];
    } else {
      FullGroupsThenOne(v[4..], d);
      assert v + [d] == v[..4] + (v[4..] + [d]) && v == v[..4] + v[4..];
      UnpackQuad(v[..4], v[4..] + [d]);
      UnpackQuad(v[..4], v[4..]);
    }
  }

  lemma FewUnpacked(d: seq<Digit>)
    requires |d| <= 4
    ensures Unpacked(d) == Group(d)
  {
  }

  /** As the last digit INV gives the same bytes as 63. */
  lemma {:induction false} InvIsAllOnes(v: seq<Digit>)
    ensures Unpacked(v + [INV]) == Unpacked(v + [63])
  {
    hide Group, Unpacked;
    if |v| <= 3 {
      FewUnpacked(v + [INV]);
      FewUnpacked(v + [63]);
      GroupOfInv(v);
    } else {
      InvIsAllOnes(v[4..]);
      assert v + [INV] == v[..4] + (v[4..] + [INV]) && v + [63] == v[..4] + (v[4..] + [63]);
      UnpackQuad(v[..4], v[4..] + [INV]);
      UnpackQuad(v[..4], v[4..] + [63]);
    }
  }

  lemma GroupOfInv(v: seq<Digit>)
    requires |v| <= 3
    ensures Group(v + [INV]) == Group(v + [63])
  {
  }

  lemma {:induction false} StripTail(s: string, tail: string)
    requires forall k :: 0 <= k < |tail| ==> tail[k] == PADDING
    ensures Stripped(s + tail) == Stripped(s)
  {
    if tail == "" {
      assert s + tail == s;
    } else {
      StripTail(s, tail[..|tail| - 1]);
      assert (s + tail)[..|s + tail| - 1] == s + tail[..|tail| - 1];
    }
  }

  lemma JunkDigits(s: string, tail: string)
    requires s != "" ==> Value(s[|s| - 1]) != INV
    requires forall k :: 0 <= k < |tail| ==> Value(tail[k]) == INV
    requires exists k :: 0 <= k < |tail| && tail[k] != PADDING
    ensures Decoded(s + tail) == Unpacked(Values(s) + [INV])
  {
    hide Digits, Unpacked, Values, Stripped, Value;
    StripAppended(s, tail);
    JunkIsOneDigit(s, Stripped(tail));
  }

  lemma JunkIsOneDigit(s: string, e: string)
    requires e != "" && forall k :: 0 <= k < |e| ==> Value(e[k]) == INV
    ensures Digits(s + e) == Values(s) + [INV]
  {
    hide Digits, Values, Value;
    DigitsAreValues(s + e);
    ValuesAppend(s, e);
    NoValues(e);
    assert Values(s) + [] == Values(s);
    assert (s + e)[|s + e| - 1] == e[|e| - 1];
  }

  /** A text that ends in the alphabet */
  lemma PlainDigits(s: string)
    requires s != "" ==> Value(s[|s| - 1]) != INV
    ensures Stripped(s) == s && Digits(s) == Values(s)
  {
    hide Digits, Values;
    DigitsAreValues(s);
    StripNothing(s);
    assert Values(s) + [] == Values(s);
  }

  lemma SlashDigits(s: string)
    requires s != "" ==> Value(s[|s| - 1]) != INV
    ensures Decoded(s + "/") == Unpacked(Values(s) + [63])
  {
    hide Digits, Unpacked, Stripped;
    PlainDigits(s + "/");
    ValuesAppend(s, "/");
    assert Values("/") == [63] + Values(""[..]) == [63];
  }

  /** Of what follows the last character of the alphabet, padding is dropped; anything else reads
      as one more digit of all ones, and that is harmless only after full groups of four. */
  lemma JunkAtTheEnd(s: string, tail: string)
    requires s != "" ==> Value(s[|s| - 1]) != INV
    requires forall k :: 0 <= k < |tail| ==> Value(tail[k]) == INV
    ensures Decoded(s + tail) == Decoded(s) <==>
            |Values(s)| % 4 == 0 || forall k :: 0 <= k < |tail| ==> tail[k] == PADDING
    ensures Decoded(s + tail) != Decoded(s) ==> Decoded(s + tail) == Decoded(s + "/")
  {
    hide Digits, Unpacked, Stripped, Values, Value;
    PlainDigits(s);
    if forall k :: 0 <= k < |tail| ==> tail[k] == PADDING {
      StripTail(s, tail);
    } else {
      JunkDigits(s, tail);
      SlashDigits(s);
      InvIsAllOnes(Values(s));
      if |Values(s)| % 4 == 0 {
        FullGroupsThenOne(Values(s), INV);
      } else {
        assert |Unpacked(Values(s) + [INV])| == (|Values(s)| + 1) * 3 / 4 != |Unpacked(Values(s))|;
      }
    }
  }

  /** A newline after the padding adds a byte to the decoding. */
  lemma NewlineAfterPadding()
    ensures Decoded("Zg==") == [102] && Decoded("Zg==\n") == [102, 15]
  {
    StripTail("Zg", "==");
    assert "Zg" + "==" == "Zg==";
    StripNothing("Zg");
    assert Digits("Zg") == [25] + Digits("g") == [25, 32];
    assert "Zg==\n"[2..] == "==\n";
    assert Digits("==\n") == Digits("=\n") == Digits("\n") == [INV];
    assert Digits("Zg==\n") == [25] + Digits("g==\n") == [25, 32] + Digits("==\n");
    StripNothing("Zg==\n");
  }

  // ---------------------------------------------------------------- the code

  /** base256to64, into a buffer */
  method PutQuad(c1: byte, c2: byte, c3: byte, padding: nat, output: array<char>, po: nat)
    requires po + 4 <= output.Length
    modifies output
    ensures output[..] == Spliced(old(output[..]), po, Quad(c1, c2, c3, padding))
  {
    output[po] := Symbol(c1 / 4);
    output[po + 1] := Symbol(c1 % 4 * 16 + c2 / 16);
    if padding == 0 {
      output[po + 2] := Symbol(c2 % 16 * 4 + c3 / 64);
      output[po + 3] := Symbol(c3 % 64);
    } else if padding == 1 {
      output[po + 2] := Symbol(c2 % 16 * 4 + c3 / 64);
      output[po + 3] := PADDING;
    } else {
      output[po + 2] := PADDING;
      output[po + 3] := PADDING;
    }
  }

  /** pj_base64_encode: false and nothing written when the buffer is shorter than the macro asks
      for, else the encoding at the start of the buffer. */
  method Encode(input: seq<byte>, output: array<char>, room: nat) returns (ok: bool, len: nat)
    requires room <= output.Length
    modifies output
    ensures ok <==> room >= |input| * 4 / 3 + 3
    ensures ok ==> len == |Encoded(input)| <= room && output[..] == Spliced(old(output[..]), 0, Encoded(input))
    ensures !ok ==> len == room && output[..] == old(output[..])
  {
    hide Quad, Spliced;
    if room < |input| * 4 / 3 + 3 {
      return false, room;
    }
    ghost var orig, done := output[..], "";
    EncodedFits(input);
    SpliceNothing(orig, 0);
    var i, po := 0, 0;
    while i < |input|
      invariant 0 <= i <= |input| && po == |done| && |orig| == output.Length
      invariant done + Encoded(input[i..]) == Encoded(input)
      invariant output[..] == Spliced(orig, 0, done)
    {
      ghost var x, last := input[i..], output[..];
      var c1 := input[i];
      i := i + 1;
      if i == |input| {
        PutQuad(c1, 0, 0, 2, output, po);
      } else {
        var c2 := input[i];
        i := i + 1;
        if i == |input| {
          PutQuad(c1, c2, 0, 1, output, po);
        } else {
          var c3 := input[i];
          i := i + 1;
          PutQuad(c1, c2, c3, 0, output, po);
        }
      }
      ghost var q := Encoded(x)[..4];
      FirstQuad(x, input[i..]);
      SpliceTwice(orig, 0, done, q);
      Regrouped(done, q, Encoded(input[i..]));
      done := done + q;
      po := po + 4;
    }
    assert done + "" == done;
    return true, po;
  }

  lemma FirstQuad(x: seq<byte>, rest: seq<byte>)
    requires x != [] && rest == if |x| >= 3 then x[3..] else []
    ensures Encoded(x)[..4] == Quad(x[0], if |x| > 1 then x[1] else 0, if |x| > 2 then x[2] else 0,
                                    if |x| > 2 then 0 else 3 - |x|)
    ensures Encoded(x) == Encoded(x)[..4] + Encoded(rest)
  {
    hide Quad;
  }

  /** The loop that fills up `c` from buf[start..len], ignoring characters outside the alphabet */
  method Fill(buf: string, len: nat, start: nat, c: array<Digit>) returns (i: nat, k: nat)
    requires c.Length == 4 && start < len <= |buf|
    modifies c
    ensures start < i <= len && k <= 4 && k <= |Digits(buf[start..len])|
    ensures c[..k] == Digits(buf[start..len])[..k] && Digits(buf[i..len]) == Digits(buf[start..len])[k..]
    ensures k < 4 ==> i == len
  {
    hide Digits, Value;
    i, k := start, 0;
    ghost var want := Digits(buf[start..len]);
    while k < 4 && i < len
      invariant start <= i <= len && k <= 4 && (k > 0 ==> i > start)
      invariant c[..k] + Digits(buf[i..len]) == want
    {
      ghost var before, t := c[..k], buf[i..len];
      NextDigit(t, buf[i + 1..len]);
      c[k] := Value(buf[i]);
      i := i + 1;
      while c[k] == INV && i < len
        invariant start < i <= len && c[..k] == before
        invariant Digits(t) == if c[k] == INV && i < len then Digits(buf[i..len]) else [c[k]] + Digits(buf[i..len])
      {
        NextDigit(buf[i..len], buf[i + 1..len]);
        c[k] := Value(buf[i]);
        i := i + 1;
      }
      assert c[..k + 1] == before + [c[k]];
      Regrouped(before, [c[k]], Digits(buf[i..len]));
      k := k + 1;
    }
  }

  lemma NextDigit(t: string, rest: string)
    requires t != "" ==> rest == t[1..]
    ensures Digits("") == []
    ensures t != "" ==> Digits(t) == if Value(t[0]) == INV && rest != "" then Digits(rest) else [Value(t[0])] + Digits(rest)
  {
  }

  /** The bytes of c[..k] */
  method PutGroup(c: array<Digit>, k: nat, out: array<byte>, j: nat) returns (next: nat)
    requires c.Length == 4 && k <= 4 && j + |Group(c[..k])| <= out.Length
    modifies out
    ensures next == j + |Group(c[..k])| && out[..] == Spliced(old(out[..]), j, Group(c[..k]))
  {
    hide Byte0, Byte1, Byte2;
    next := j;
    if k < 4 {
      if k > 1 {
        out[next] := Byte0(c[0], c[1]);
        next := next + 1;
        if k > 2 {
          out[next] := Byte1(c[1], c[2]);
          next := next + 1;
        }
      }
    } else {
      out[next] := Byte0(c[0], c[1]);
      next := next + 1;
      out[next] := Byte1(c[1], c[2]);
      next := next + 1;
      out[next] := Byte2(c[2], c[3]);
      next := next + 1;
    }
  }

  /** How a decoding ends: for want of room, or with `len` bytes written, and then with the
      last assertion of the code true or false */
  datatype Outcome = TooSmall | Success(len: nat) | AssertionFailed(len: nat)

  /** pj_base64_decode */
  method Decode(input: string, out: array<byte>, room: nat) returns (r: Outcome)
    requires room <= out.Length
    modifies out
    ensures r.TooSmall? <==> room < |Stripped(input)| * 3 / 4
    ensures r.TooSmall? ==> out[..] == old(out[..])
    ensures !r.TooSmall? ==> out[..] == Spliced(old(out[..]), 0, Decoded(input)) && r.len == |Decoded(input)|
    ensures r.Success? ==> r.len < room
    ensures r.AssertionFailed? <==>
            room == |Stripped(input)| * 3 / 4 && |Digits(Stripped(input))| * 3 / 4 == |Stripped(input)| * 3 / 4
  {
    hide Digits, Group, Unpacked, Spliced;
    var len := StripPadding(input);
    if room < len * 3 / 4 {
      return TooSmall;
    }
    var c := new Digit[4];
    var i, j := 0, 0;
    ghost var orig, done, all := out[..], [], Decoded(input);
    SpliceNothing(orig, 0);
    assert input[0..len] == Stripped(input);
    while i < len
      invariant 0 <= i <= len && j == |done| && done + Unpacked(Digits(input[i..len])) == all
      invariant out[..] == Spliced(orig, 0, done) && |orig| == out.Length
    {
      ghost var d := Digits(input[i..len]);
      var k;
      i, k := Fill(input, len, i, c);
      NextDigit("", "");
      OneGroup(d, k, Digits(input[i..len]));
      ghost var g := Group(c[..k]);
      Regrouped(done, g, Unpacked(Digits(input[i..len])));
      SpliceTwice(orig, 0, done, g);
      j := PutGroup(c, k, out, j);
      done := done + g;
      if k < 4 {
        break;
      }
    }
    NextDigit("", "");
    OneGroup([], 0, []);
    assert i == len && input[i..len] == "";
    assert done + [] == done;
    AssertionFailsExactly(input, room);
    r := if j < room then Success(j) else AssertionFailed(j);
  }

  /** Up to four digits make the next group; fewer are the last. */
  lemma OneGroup(d: seq<Digit>, k: nat, rest: seq<Digit>)
    requires k <= 4 && k <= |d| && rest == d[k..] && (k < 4 ==> rest == [])
    ensures Unpacked(d) == Group(d[..k]) + Unpacked(rest)
  {
    if k == 4 {
      UnpackQuad(d[..4], rest);
      assert d == d[..4] + rest;
    } else {
      assert d[..k] == d;
    }
  }

  method StripPadding(input: string) returns (len: nat)
    ensures len <= |input| && input[..len] == Stripped(input)
  {
    len := |input|;
    assert input[..len] == input;
    while len > 0 && input[len - 1] == PADDING
      invariant 0 <= len <= |input| && Stripped(input[..len]) == Stripped(input)
    {
      assert input[..len][..len - 1] == input[..len - 1];
      len := len - 1;
    }
  }

  /** Of a buffer that the decoder accepts, the assertion at the end fails exactly when it is the
      smallest such buffer and no character that would have made a difference was ignored. */
  lemma AssertionFailsExactly(s: string, room: nat)
    requires room >= |Stripped(s)| * 3 / 4
    ensures |Decoded(s)| <= room
    ensures |Decoded(s)| == room <==>
            room == |Stripped(s)| * 3 / 4 && |Digits(Stripped(s))| * 3 / 4 == |Stripped(s)| * 3 / 4
    ensures var ignored := |Stripped(s)| - |Digits(Stripped(s))|;
            |Decoded(s)| == room <==>
            room == |Stripped(s)| * 3 / 4 && (ignored == 0 || (ignored == 1 && |Stripped(s)| % 4 == 1))
  {
    hide Digits, Stripped, Unpacked;
    ThreeQuarters(|Stripped(s)|, |Digits(Stripped(s))|);
  }

  lemma ThreeQuarters(m: nat, k: nat)
    requires k <= m
    ensures k * 3 / 4 <= m * 3 / 4
    ensures k * 3 / 4 == m * 3 / 4 <==> k == m || (k == m - 1 && m % 4 == 1)
  {
    if k + 2 <= m {
      assert (k + 2) * 3 / 4 > k * 3 / 4;
    }
  }

  /** "Zg==" into one byte: it is decoded right, and the assertion fails. */
  lemma OneByteFails()
    ensures Stripped("Zg==") == "Zg" && 1 >= |Stripped("Zg==")| * 3 / 4 && Decoded("Zg==") == [102]
    ensures |Decoded("Zg==")| == 1
  {
    NewlineAfterPadding();
    StripTail("Zg", "==");
    assert "Zg" + "==" == "Zg==";
    StripNothing("Zg");
  }
}
