/** Percent escaping as string.c does it, with the hexadecimal digits of ctype.h. */
module Escape {
  import opened Sequences
  import opened Buffers
  import opened Bytes

  const PERCENT: byte := 37

  /** pj_val_to_hex_digit, one digit: lower case */
  function HexDigit(v: int): (c: byte)
    requires 0 <= v < 16
    ensures v < 10 ==> c == 48 + v
    ensures v >= 10 ==> c == 87 + v
  {
    if v < 10 then 48 + v else 87 + v
  }

  /** pj_hex_digit_to_val: of every octet, also of those that are no digit */
  function HexValue(c: byte): (v: int)
    ensures 0 <= v < 16
  {
    if c <= 57 then (c - 48) % 16
    else if c <= 70 then (c - 65 + 10) % 16
    else (c - 97 + 10) % 16
  }

  /** pj_isxdigit */
  predicate IsHex(c: byte) {
    48 <= c <= 57 || 65 <= c <= 70 || 97 <= c <= 102
  }

  /** The digits written are read back, and only '%' could be taken for one that is none. */
  lemma HexReads(v: int)
    requires 0 <= v < 16
    ensures IsHex(HexDigit(v)) && HexValue(HexDigit(v)) == v && HexDigit(v) != PERCENT
  {
  }

  // ---------------------------------------------------------------- what is written and read

  /** One character as it is written */
  function Code(c: byte, unres: set<byte>): (e: seq<byte>)
    ensures c in unres ==> e == [c]
    ensures c !in unres ==> |e| == 3
  {
    if c in unres then [c] else [PERCENT, HexDigit(c / 16), HexDigit(c % 16)]
  }

  function Escaped(s: seq<byte>, unres: set<byte>): (e: seq<byte>)
    ensures |s| <= |e| <= 3 * |s|
  {
    if s == [] then [] else Code(s[0], unres) + Escaped(s[1..], unres)
  }

  /** The octet of two digits */
  function Octet(hi: byte, lo: byte): byte {
    HexValue(hi) * 16 + HexValue(lo)
  }

  /** What pj_str_unescape makes of a text: only two hexadecimal digits after '%' are an escape. */
  function Unescaped(s: seq<byte>): (r: seq<byte>)
    ensures |r| <= |s|
    ensures PERCENT !in s ==> r == s
  {
    if s == [] then []
    else if s[0] == PERCENT && |s| > 2 && IsHex(s[1]) && IsHex(s[2]) then [Octet(s[1], s[2])] + Unescaped(s[3..])
    else [s[0]] + Unescaped(s[1..])
  }

  /** What pj_strcpy_unescape makes of it: any two characters after '%' are an escape. */
  function RawUnescaped(s: seq<byte>): (r: seq<byte>)
    ensures |r| <= |s|
  {
    if s == [] then []
    else if s[0] == PERCENT && |s| > 2 then [Octet(s[1], s[2])] + RawUnescaped(s[3..])
    else [s[0]] + RawUnescaped(s[1..])
  }

  lemma EscapedStep(s: seq<byte>, unres: set<byte>)
    requires s != []
    ensures Escaped(s, unres) == Code(s[0], unres) + Escaped(s[1..], unres)
  {
  }

  lemma {:induction false} EscapedAppend(a: seq<byte>, b: seq<byte>, unres: set<byte>)
    ensures Escaped(a + b, unres) == Escaped(a, unres) + Escaped(b, unres)
  {
    hide Code, Escaped;
    if a == [] {
      NothingEscaped(unres);
      assert a + b == b;
    } else {
      EscapedAppend(a[1..], b, unres);
      assert (a + b)[1..] == a[1..] + b && (a + b)[0] == a[0];
      EscapedStep(a + b, unres);
      EscapedStep(a, unres);
      Regrouped(Code(a[0], unres), Escaped(a[1..], unres), Escaped(b, unres));
    }
  }

  // ---------------------------------------------------------------- pj_str_unescape

  /** The text starts with '%' and two hexadecimal digits, all written as they are. */
  ghost predicate StartsEscape(s: seq<byte>, unres: set<byte>) {
    |s| > 2 && s[0] == PERCENT && IsHex(s[1]) && IsHex(s[2]) && PERCENT in unres && s[1] in unres && s[2] in unres
  }

  /** Somewhere in the text is what reads as an escape although it was none. */
  ghost predicate LooksEscaped(s: seq<byte>, unres: set<byte>) {
    exists k :: 0 <= k < |s| && StartsEscape(s[k..], unres)
  }

  lemma LooksEscapedStep(s: seq<byte>, unres: set<byte>)
    requires s != []
    ensures LooksEscaped(s, unres) <==> StartsEscape(s, unres) || LooksEscaped(s[1..], unres)
  {
    if LooksEscaped(s, unres) {
      var k :| 0 <= k < |s| && StartsEscape(s[k..], unres);
      if k > 0 {
        assert s[1..][k - 1..] == s[k..];
      } else {
        assert s[0..] == s;
      }
    }
    if LooksEscaped(s[1..], unres) {
      var k :| 0 <= k < |s[1..]| && StartsEscape(s[1..][k..], unres);
      assert s[1..][k..] == s[k + 1..];
    }
    assert s[0..] == s;
  }

  /** Reading one written character, unless it starts what looks like an escape */
  lemma CodeReads(c: byte, s: seq<byte>, unres: set<byte>)
    requires s != [] && c == s[0] && !StartsEscape(s, unres)
    ensures Unescaped(Escaped(s, unres)) == [c] + Unescaped(Escaped(s[1..], unres))
  {
    var rest := Escaped(s[1..], unres);
    var e := Code(c, unres) + rest;
    if c !in unres {
      HexReads(c / 16);
      HexReads(c % 16);
      assert e[1] == HexDigit(c / 16) && e[2] == HexDigit(c % 16);
      assert e[3..] == rest;
    } else {
      assert e[1..] == rest;
      if c == PERCENT && |e| > 2 {
        SecondAndThird(s, unres);
      }
    }
  }

  /** Two hexadecimal digits at the front of a written text were written as they are. */
  lemma SecondAndThird(s: seq<byte>, unres: set<byte>)
    requires s != [] && s[0] == PERCENT && PERCENT in unres && !StartsEscape(s, unres)
    ensures var e := Escaped(s, unres); |e| > 2 ==> !(IsHex(e[1]) && IsHex(e[2]))
  {
    var e := Escaped(s, unres);
    if |e| > 2 {
      var t := s[1..];
      assert e[1..] == Escaped(t, unres);
      if t[0] in unres {
        assert e[2..] == Escaped(t[1..], unres);
        assert t[1..] != [];
        assert e[1] == t[0] == s[1];
        if t[1] in unres {
          assert e[2] == t[1] == s[2];
        }
      }
    }
  }

  /** Unescaping takes back what escaping wrote exactly when nothing in the text looks like an
      escape that escaping leaves as it is. */
  lemma {:induction false} UnescapeInverts(s: seq<byte>, unres: set<byte>)
    ensures Unescaped(Escaped(s, unres)) == s <==> !LooksEscaped(s, unres)
    ensures |Unescaped(Escaped(s, unres))| <= |s|
    ensures LooksEscaped(s, unres) ==> |Unescaped(Escaped(s, unres))| < |s|
    decreases |s|
  {
    hide Unescaped, Escaped, LooksEscaped, StartsEscape;
    if s == [] {
      NothingEscaped(unres);
    } else {
      LooksEscapedStep(s, unres);
      if StartsEscape(s, unres) {
        EscapeRead(s, unres);
        UnescapeInverts(s[3..], unres);
      } else {
        CodeReads(s[0], s, unres);
        UnescapeInverts(s[1..], unres);
        assert s == [s[0]] + s[1..];
      }
    }
  }

  lemma NothingEscaped(unres: set<byte>)
    ensures Escaped([], unres) == [] && Unescaped([]) == [] && RawUnescaped([]) == [] && !LooksEscaped([], unres)
  {
  }

  lemma EscapeRead(s: seq<byte>, unres: set<byte>)
    requires StartsEscape(s, unres)
    ensures |s| > 2 && Unescaped(Escaped(s, unres)) == [Octet(s[1], s[2])] + Unescaped(Escaped(s[3..], unres))
  {
    hide Octet;
    var e := Escaped(s, unres);
    FirstThree(s, unres);
    assert e[..3] == [s[0], s[1], s[2]] && e[3..] == Escaped(s[3..], unres);
  }

  lemma FirstThree(s: seq<byte>, unres: set<byte>)
    requires |s| > 2 && s[0] in unres && s[1] in unres && s[2] in unres
    ensures Escaped(s, unres) == [s[0], s[1], s[2]] + Escaped(s[3..], unres)
  {
    var t := s[1..];
    assert t[1..] == s[2..] && t[0] == s[1];
    assert s[2..][1..] == s[3..];
    assert Escaped(s, unres) == [s[0]] + Escaped(t, unres);
    assert Escaped(t, unres) == [s[1]] + Escaped(s[2..], unres);
    assert Escaped(s[2..], unres) == [s[2]] + Escaped(s[3..], unres);
  }

  /** For every text: exactly when '%' is reserved or every hexadecimal digit is. */
  lemma UnescapeInvertsAll(unres: set<byte>)
    ensures (forall s :: Unescaped(Escaped(s, unres)) == s) <==> PERCENT !in unres || forall h :: h in unres ==> !IsHex(h)
  {
    hide Unescaped, Escaped;
    if PERCENT !in unres || forall h :: h in unres ==> !IsHex(h) {
      forall s ensures Unescaped(Escaped(s, unres)) == s {
        UnescapeInverts(s, unres);
      }
    } else {
      var h :| h in unres && IsHex(h);
      var s := [PERCENT, h, h];
      assert s[0..] == s;
      assert StartsEscape(s[0..], unres);
      UnescapeInverts(s, unres);
    }
  }

  // ---------------------------------------------------------------- pj_strcpy_unescape

  /** Some '%' is followed by two characters or more, once written. */
  ghost predicate Exposed(s: seq<byte>, unres: set<byte>) {
    exists k :: 0 <= k < |s| && ExposedAt(s[k..], unres)
  }

  ghost predicate ExposedAt(s: seq<byte>, unres: set<byte>) {
    s != [] && s[0] == PERCENT && |Escaped(s[1..], unres)| >= 2
  }

  lemma ExposedStep(s: seq<byte>, unres: set<byte>)
    requires s != []
    ensures Exposed(s, unres) <==> ExposedAt(s, unres) || Exposed(s[1..], unres)
  {
    hide ExposedAt;
    if Exposed(s, unres) {
      var k :| 0 <= k < |s| && ExposedAt(s[k..], unres);
      if k > 0 {
        assert s[1..][k - 1..] == s[k..];
      } else {
        assert s[0..] == s;
      }
    }
    if Exposed(s[1..], unres) {
      var k :| 0 <= k < |s[1..]| && ExposedAt(s[1..][k..], unres);
      assert s[1..][k..] == s[k + 1..];
    }
    assert s[0..] == s;
  }

  /** Reading one written character, unless it is such a '%' left as it is */
  lemma RawCodeReads(s: seq<byte>, unres: set<byte>)
    requires s != [] && (PERCENT in unres ==> !ExposedAt(s, unres))
    ensures RawUnescaped(Escaped(s, unres)) == [s[0]] + RawUnescaped(Escaped(s[1..], unres))
  {
    var c, rest := s[0], Escaped(s[1..], unres);
    var e := Code(c, unres) + rest;
    if c !in unres {
      HexReads(c / 16);
      HexReads(c % 16);
      assert e[1] == HexDigit(c / 16) && e[2] == HexDigit(c % 16);
      assert e[3..] == rest;
    } else {
      assert e[1..] == rest;
    }
  }

  /** Two characters left as they are go into one octet. */
  lemma RawTakesTwo(s: seq<byte>, unres: set<byte>)
    requires |s| > 2 && s[0] == PERCENT && PERCENT in unres && s[1] in unres && s[2] in unres
    ensures RawUnescaped(Escaped(s, unres)) == [Octet(s[1], s[2])] + RawUnescaped(Escaped(s[3..], unres))
  {
    hide Octet;
    var e := Escaped(s, unres);
    FirstThree(s, unres);
    assert e[..3] == [s[0], s[1], s[2]] && e[3..] == Escaped(s[3..], unres);
  }

  /** Characters that are not '%' are copied. */
  lemma {:induction false} RawCopies(front: seq<byte>, rest: seq<byte>)
    requires PERCENT !in front
    ensures RawUnescaped(front + rest) == front + RawUnescaped(rest)
    decreases |front|
  {
    hide RawUnescaped;
    if front == [] {
      assert front + rest == rest;
    } else {
      RawCopies(front[1..], rest);
      RawCopiesOne(front[0], front[1..] + rest);
      Regrouped([front[0]], front[1..], rest);
      Regrouped([front[0]], front[1..], RawUnescaped(rest));
      assert [front[0]] + front[1..] == front;
    }
  }

  lemma RawCopiesOne(c: byte, rest: seq<byte>)
    requires c != PERCENT
    ensures RawUnescaped([c] + rest) == [c] + RawUnescaped(rest)
  {
    assert ([c] + rest)[1..] == rest;
  }

  /** A character left as it is and the '%' of an escape go into one octet: the digits stay. */
  lemma RawCutsSecond(s: seq<byte>, unres: set<byte>)
    requires |s| > 2 && s[0] == PERCENT && PERCENT in unres && s[1] in unres && s[2] !in unres
    ensures RawUnescaped(Escaped(s, unres)) ==
            [Octet(s[1], PERCENT), HexDigit(s[2] / 16), HexDigit(s[2] % 16)] + RawUnescaped(Escaped(s[3..], unres))
  {
    hide Octet, RawUnescaped;
    var x, y, rest := HexDigit(s[2] / 16), HexDigit(s[2] % 16), Escaped(s[3..], unres);
    assert s[1..][1..] == s[2..] && s[2..][1..] == s[3..];
    assert Escaped(s[2..], unres) == [PERCENT, x, y] + rest;
    assert Escaped(s[1..], unres) == [s[1]] + Escaped(s[2..], unres);
    assert Escaped(s, unres) == [PERCENT, s[1], PERCENT] + ([x, y] + rest);
    RawThree(s[1], PERCENT, [x, y] + rest);
    HexReads(s[2] / 16);
    HexReads(s[2] % 16);
    RawCopies([x, y], rest);
  }

  /** The first two characters of an escape go into one octet: its last digit stays. */
  lemma RawCutsFirst(s: seq<byte>, unres: set<byte>)
    requires |s| > 1 && s[0] == PERCENT && PERCENT in unres && s[1] !in unres
    ensures RawUnescaped(Escaped(s, unres)) ==
            [Octet(PERCENT, HexDigit(s[1] / 16)), HexDigit(s[1] % 16)] + RawUnescaped(Escaped(s[2..], unres))
  {
    hide Octet, RawUnescaped;
    var x, y, rest := HexDigit(s[1] / 16), HexDigit(s[1] % 16), Escaped(s[2..], unres);
    assert s[1..][1..] == s[2..];
    assert Escaped(s[1..], unres) == [PERCENT, x, y] + rest;
    assert Escaped(s, unres) == [PERCENT, PERCENT, x] + ([y] + rest);
    RawThree(PERCENT, x, [y] + rest);
    HexReads(s[1] % 16);
    RawCopies([y], rest);
  }

  lemma RawThree(hi: byte, lo: byte, rest: seq<byte>)
    ensures RawUnescaped([PERCENT, hi, lo] + rest) == [Octet(hi, lo)] + RawUnescaped(rest)
  {
    assert ([PERCENT, hi, lo] + rest)[3..] == rest;
  }

  /** An octet cut short is not the '%' that stood there, unless the digits that stay differ. */
  lemma CutsShow(c1: byte, c2: byte)
    ensures !(Octet(c1, PERCENT) == PERCENT && HexDigit(c2 / 16) == c1 && HexDigit(c2 % 16) == c2)
    ensures Octet(PERCENT, c1) != PERCENT
  {
  }

  lemma RawMangles(s: seq<byte>, unres: set<byte>)
    requires PERCENT in unres && ExposedAt(s, unres)
    requires forall n :: 2 <= n <= 3 && n <= |s| ==> |RawUnescaped(Escaped(s[n..], unres))| <= |s| - n
    ensures RawUnescaped(Escaped(s, unres)) != s && |RawUnescaped(Escaped(s, unres))| <= |s|
  {
    hide RawUnescaped, Octet;
    var t := s[1..];
    assert |t| > 0;
    if t[0] !in unres {
      RawCutsFirst(s, unres);
      CutsShow(HexDigit(s[1] / 16), 0);
    } else {
      assert Escaped(t, unres) == [t[0]] + Escaped(t[1..], unres);
      assert |t| > 1;
      if t[1] in unres {
        RawTakesTwo(s, unres);
      } else {
        RawCutsSecond(s, unres);
        CutsShow(s[1], s[2]);
      }
    }
  }

  /** The copying form takes back what escaping wrote exactly when '%' is reserved or no '%' of
      the text is followed by two characters once written: it takes any two for digits. */
  lemma {:induction false} RawUnescapeInverts(s: seq<byte>, unres: set<byte>)
    ensures RawUnescaped(Escaped(s, unres)) == s <==> PERCENT !in unres || !Exposed(s, unres)
    ensures |RawUnescaped(Escaped(s, unres))| <= |s|
    decreases |s|
  {
    hide RawUnescaped, Escaped, Exposed, ExposedAt;
    if s == [] {
      NothingExposed(unres);
    } else {
      ExposedStep(s, unres);
      if PERCENT in unres && ExposedAt(s, unres) {
        forall n | 2 <= n <= 3 && n <= |s| ensures |RawUnescaped(Escaped(s[n..], unres))| <= |s| - n {
          RawUnescapeInverts(s[n..], unres);
        }
        RawMangles(s, unres);
      } else {
        RawCodeReads(s, unres);
        RawUnescapeInverts(s[1..], unres);
        assert s == [s[0]] + s[1..];
      }
    }
  }

  lemma NothingExposed(unres: set<byte>)
    ensures RawUnescaped(Escaped([], unres)) == [] && !Exposed([], unres)
  {
  }

  /** For every text: exactly when '%' is reserved */
  lemma RawUnescapeInvertsAll(unres: set<byte>)
    ensures (forall s :: RawUnescaped(Escaped(s, unres)) == s) <==> PERCENT !in unres
  {
    hide RawUnescaped, Escaped;
    if PERCENT !in unres {
      forall s ensures RawUnescaped(Escaped(s, unres)) == s {
        RawUnescapeInverts(s, unres);
      }
    } else {
      var s := [PERCENT, 0, 0];
      assert s[0..] == s;
      assert ExposedAt(s[0..], unres);
      RawUnescapeInverts(s, unres);
    }
  }

  // ---------------------------------------------------------------- the code

  /** pj_strncpy2_escape: the length of the escaped text if all of it fits into `max` octets of
      the buffer, else -1, with as many whole codes written as fit. */
  method Strncpy2Escape(dst: array<byte>, src: seq<byte>, max: int, unres: set<byte>) returns (len: int)
    requires max <= dst.Length
    modifies dst
    ensures |Escaped(src, unres)| <= max ==> len == |Escaped(src, unres)| && dst[..] == Spliced(old(dst[..]), 0, Escaped(src, unres))
    ensures |Escaped(src, unres)| > max ==> len == -1
    ensures max < |src| ==> dst[..] == old(dst[..])
    ensures |src| <= max < |Escaped(src, unres)| ==>
            exists n :: 0 <= n < |src| && FitsUpTo(src, n, max, unres) && dst[..] == Spliced(old(dst[..]), 0, Escaped(src[..n], unres))
  {
    hide Escaped, Spliced, Code, FitsUpTo;
    if max < |src| {
      return -1;
    }
    ghost var orig := dst[..];
    SpliceNothing(orig, 0);
    NothingEscaped(unres);
    var i, p := 0, 0;
    while i != |src| && p != max
      invariant 0 <= i <= |src| && 0 <= p <= max && p == |Escaped(src[..i], unres)|
      invariant dst[..] == Spliced(orig, 0, Escaped(src[..i], unres)) && |orig| == dst.Length
      decreases |src| - i
    {
      NextCode(src, i, unres);
      if src[i] in unres {
        SpliceTwice(orig, 0, Escaped(src[..i], unres), Code(src[i], unres));
        PutCode(dst, p, src[i], unres);
        p := p + 1;
      } else if p < max - 2 {
        SpliceTwice(orig, 0, Escaped(src[..i], unres), Code(src[i], unres));
        PutCode(dst, p, src[i], unres);
        p := p + 3;
      } else {
        StopsAt(src, i, max, unres);
        return -1;
      }
      i := i + 1;
    }
    if i == |src| {
      assert src[..i] == src;
      return p;
    }
    NextCode(src, i, unres);
    StopsAt(src, i, max, unres);
    return -1;
  }

  /** The codes of the first n characters fit, those of one more do not. */
  ghost predicate FitsUpTo(src: seq<byte>, n: nat, max: int, unres: set<byte>)
    requires n < |src|
  {
    |Escaped(src[..n], unres)| <= max < |Escaped(src[..n + 1], unres)|
  }

  lemma NextCode(src: seq<byte>, i: nat, unres: set<byte>)
    requires i < |src|
    ensures Escaped(src[..i + 1], unres) == Escaped(src[..i], unres) + Code(src[i], unres)
  {
    hide Code;
    assert src[..i + 1] == src[..i] + [src[i]];
    EscapedAppend(src[..i], [src[i]], unres);
    assert Escaped([src[i]], unres) == Code(src[i], unres) + Escaped([], unres);
  }

  lemma StopsAt(src: seq<byte>, i: nat, max: int, unres: set<byte>)
    requires i < |src| && |Escaped(src[..i], unres)| <= max < |Escaped(src[..i], unres) + Code(src[i], unres)|
    ensures FitsUpTo(src, i, max, unres) && |Escaped(src, unres)| > max
  {
    hide Escaped, Code;
    NextCode(src, i, unres);
    EscapedAppend(src[..i + 1], src[i + 1..], unres);
    assert src == src[..i + 1] + src[i + 1..];
  }

  method PutCode(dst: array<byte>, p: nat, c: byte, unres: set<byte>)
    requires p + |Code(c, unres)| <= dst.Length
    modifies dst
    ensures dst[..] == Spliced(old(dst[..]), p, Code(c, unres))
  {
    if c in unres {
      dst[p] := c;
    } else {
      dst[p] := PERCENT;
      dst[p + 1] := HexDigit(c / 16);
      dst[p + 2] := HexDigit(c % 16);
    }
  }

  /** pj_strcpy_unescape. The target may be the source's own buffer: what is written is behind
      what is read. */
  method StrcpyUnescape(dst: array<byte>, src: array<byte>, slen: nat) returns (len: nat)
    requires slen <= src.Length && |RawUnescaped(src[..slen])| <= dst.Length
    modifies dst
    ensures len == |RawUnescaped(old(src[..slen]))|
    ensures dst[..] == Spliced(old(dst[..]), 0, RawUnescaped(old(src[..slen])))
  {
    hide RawUnescaped, Spliced, Octet;
    ghost var orig, done, all := dst[..], [], src[..slen];
    SpliceNothing(orig, 0);
    var i, j := 0, 0;
    while i != slen
      invariant 0 <= j <= i <= slen && j == |done| && |orig| == dst.Length
      invariant src[i..slen] == all[i..] && done + RawUnescaped(all[i..]) == RawUnescaped(all)
      invariant dst[..] == Spliced(orig, 0, done)
      decreases slen - i
    {
      var v;
      RawRound(all, i);
      i, v := CopyOctet(dst, src, slen, i, j, all);
      SpliceTwice(orig, 0, done, [v]);
      Regrouped(done, [v], RawUnescaped(all[i..]));
      done := done + [v];
      j := j + 1;
    }
    NothingEscaped({});
    assert all[slen..] == [] && done + [] == done;
    len := j;
  }

  /** One round of the loop: the next octet, written at `j` */
  method CopyOctet(dst: array<byte>, src: array<byte>, slen: nat, i: nat, j: nat, ghost all: seq<byte>)
    returns (next: nat, v: byte)
    requires j <= i < slen <= src.Length && j < dst.Length && |all| == slen && src[i..slen] == all[i..]
    modifies dst
    ensures i < next <= slen && RawUnescaped(all[i..]) == [v] + RawUnescaped(all[next..])
    ensures src[next..slen] == all[next..] && dst[..] == Spliced(old(dst[..]), j, [v])
  {
    hide RawUnescaped, Spliced, Octet;
    RawRound(all, i);
    SameFront(src[i..slen], all[i..]);
    if src[i] == PERCENT && i < slen - 2 {
      next, v := i + 3, Octet(src[i + 1], src[i + 2]);
    } else {
      next, v := i + 1, src[i];
    }
    PutOctet(dst, j, v, src, next, slen);
  }

  /** What is still to be read is behind what is written, or elsewhere. */
  method PutOctet(dst: array<byte>, j: nat, v: byte, ghost src: array<byte>, ghost from: nat, ghost to: nat)
    requires j < dst.Length && (src == dst ==> j < from) && from <= to <= src.Length
    modifies dst
    ensures dst[..] == Spliced(old(dst[..]), j, [v])
    ensures src[from..to] == old(src[from..to])
  {
    dst[j] := v;
  }

  lemma SameFront(s: seq<byte>, t: seq<byte>)
    requires s == t
    ensures forall k :: 0 <= k < |s| ==> s[k] == t[k]
    ensures |s| >= 1 ==> s[1..] == t[1..]
    ensures |s| >= 3 ==> s[3..] == t[3..]
  {
  }

  /** One round of the loop of pj_strcpy_unescape */
  lemma RawRound(all: seq<byte>, i: nat)
    requires i < |all|
    ensures RawUnescaped(all[i..]) == if all[i] == PERCENT && i < |all| - 2
                                      then [Octet(all[i + 1], all[i + 2])] + RawUnescaped(all[i + 3..])
                                      else [all[i]] + RawUnescaped(all[i + 1..])
  {
    hide RawUnescaped;
    RawStep(all[i..]);
    assert all[i..][1..] == all[i + 1..];
    assert i < |all| - 2 ==> all[i..][3..] == all[i + 3..];
  }

  lemma RawStep(s: seq<byte>)
    requires s != []
    ensures RawUnescaped(s) == if s[0] == PERCENT && |s| > 2 then [Octet(s[1], s[2])] + RawUnescaped(s[3..])
                               else [s[0]] + RawUnescaped(s[1..])
  {
  }

  /** pj_str_unescape: the source itself if there is no '%' in it, else a new buffer. */
  method StrUnescape(src: array<byte>, slen: nat) returns (dst: array<byte>, len: nat)
    requires slen <= src.Length
    ensures PERCENT !in src[..slen] ==> dst == src && len == slen
    ensures PERCENT in src[..slen] ==> fresh(dst)
    ensures len <= dst.Length && dst[..len] == Unescaped(src[..slen])
  {
    hide Unescaped;
    var found := false;
    for k := 0 to slen
      invariant found <==> PERCENT in src[..k]
    {
      assert src[..k + 1] == src[..k] + [src[k]];
      found := found || src[k] == PERCENT;
    }
    if !found {
      NoEscape(src[..slen]);
      return src, slen;
    }
    dst := new byte[slen];
    len := UnescapeInto(dst, src, slen);
  }

  /** The loop of pj_str_unescape */
  method UnescapeInto(dst: array<byte>, src: array<byte>, slen: nat) returns (len: nat)
    requires slen <= src.Length && dst.Length == slen && dst != src
    modifies dst
    ensures len <= slen && dst[..len] == Unescaped(src[..slen])
  {
    hide Unescaped, Spliced, Octet, IsHex;
    ghost var orig, done, all := dst[..], [], src[..slen];
    SpliceNothing(orig, 0);
    var i, j := 0, 0;
    while i != slen
      invariant 0 <= j <= i <= slen && j == |done| && |orig| == slen
      invariant src[..slen] == all && done + Unescaped(all[i..]) == Unescaped(all) && dst[..] == Spliced(orig, 0, done)
      decreases slen - i
    {
      ghost var e;
      Round(all, i);
      if src[i] == PERCENT && i < slen - 2 && IsHex(src[i + 1]) && IsHex(src[i + 2]) {
        var v := Octet(src[i + 1], src[i + 2]);
        e := [v];
        SpliceTwice(orig, 0, done, e);
        PutOctet(dst, j, v, src, i + 3, slen);
        i := i + 3;
      } else {
        var v := src[i];
        e := [v];
        SpliceTwice(orig, 0, done, e);
        PutOctet(dst, j, v, src, i + 1, slen);
        i := i + 1;
      }
      Regrouped(done, e, Unescaped(all[i..]));
      done := done + e;
      j := j + 1;
    }
    UnescapeStep([0]);
    assert all[slen..] == [] && done + [] == done;
    len := j;
    SplicePrefix(orig, 0, done);
  }

  lemma NoEscape(s: seq<byte>)
    requires PERCENT !in s
    ensures Unescaped(s) == s
  {
  }

  /** One round of the loop of pj_str_unescape */
  lemma Round(all: seq<byte>, i: nat)
    requires i < |all|
    ensures Unescaped(all[i..]) == if all[i] == PERCENT && i < |all| - 2 && IsHex(all[i + 1]) && IsHex(all[i + 2])
                                   then [Octet(all[i + 1], all[i + 2])] + Unescaped(all[i + 3..])
                                   else [all[i]] + Unescaped(all[i + 1..])
  {
    hide Unescaped;
    UnescapeStep(all[i..]);
    assert all[i..][1..] == all[i + 1..];
    assert i < |all| - 2 ==> all[i..][3..] == all[i + 3..];
  }

  lemma UnescapeStep(s: seq<byte>)
    requires s != []
    ensures Unescaped([]) == []
    ensures Unescaped(s) == if s[0] == PERCENT && |s| > 2 && IsHex(s[1]) && IsHex(s[2]) then [Octet(s[1], s[2])] + Unescaped(s[3..])
                            else [s[0]] + Unescaped(s[1..])
  {
  }

  // ---------------------------------------------------------------- digits in both cases

  const DIGITS := "0123456789abcdef"
  const CAPITALS := "0123456789ABCDEF"

  /** A digit of that value, in either case */
  predicate IsDigitOf(c: byte, v: int)
    requires 0 <= v < 16
  {
    c as char == DIGITS[v] || c as char == CAPITALS[v]
  }

  /** The digits that are written are the small ones, and each digit is worth the same in both
      cases; '%' is the character of that name. */
  lemma DigitValues(v: int, c: byte)
    requires 0 <= v < 16
    ensures HexDigit(v) as char == DIGITS[v] && PERCENT as char == '%'
    ensures IsDigitOf(c, v) <==> IsHex(c) && HexValue(c) == v
  {
  }

  /** What is no digit is worth its lower four bits, with nine more added behind '9'. */
  lemma AnyValue(c: byte)
    ensures HexValue(c) == if c <= '9' as int then c % 16 else (c + 9) % 16
  {
  }

  /** `e` is `s` with every reserved character as '%' and two digits, each in either case. */
  predicate Spells(e: seq<byte>, s: seq<byte>, unres: set<byte>)
    decreases |s|
  {
    if s == [] then e == []
    else if s[0] in unres then e != [] && e[0] == s[0] && Spells(e[1..], s[1..], unres)
    else
      && |e| >= 3 && e[0] as char == '%' && IsDigitOf(e[1], s[0] / 16) && IsDigitOf(e[2], s[0] % 16)
      && Spells(e[3..], s[1..], unres)
  }

  /** Escaping is one spelling ... */
  lemma {:induction false} EscapedSpells(s: seq<byte>, unres: set<byte>)
    ensures Spells(Escaped(s, unres), s, unres)
  {
    hide HexDigit, IsDigitOf;
    if s != [] {
      var rest := Escaped(s[1..], unres);
      var e := Code(s[0], unres) + rest;
      EscapedSpells(s[1..], unres);
      if s[0] in unres {
        assert e[1..] == rest;
      } else {
        DigitValues(s[0] / 16, HexDigit(s[0] / 16));
        DigitValues(s[0] % 16, HexDigit(s[0] % 16));
        Written(s[0] / 16);
        Written(s[0] % 16);
        assert e[3..] == rest && e[1] == HexDigit(s[0] / 16) && e[2] == HexDigit(s[0] % 16);
      }
    }
  }

  lemma Written(v: int)
    requires 0 <= v < 16
    ensures IsDigitOf(HexDigit(v), v)
  {
  }

  /** ... and every spelling is taken back, by the copying form if "%" is reserved, and by the other if
      "%" is or all digits are. */
  lemma {:induction false} SpellingsRead(e: seq<byte>, s: seq<byte>, unres: set<byte>)
    requires Spells(e, s, unres)
    ensures PERCENT !in unres ==> RawUnescaped(e) == s
    ensures PERCENT !in unres || (forall h :: h in unres ==> !IsHex(h)) ==> Unescaped(e) == s
    decreases |s|
  {
    hide IsDigitOf, IsHex, HexValue;
    if s != [] {
      if s[0] in unres {
        SpellingsRead(e[1..], s[1..], unres);
        FirstIsKept(e, s, unres);
      } else {
        DigitValues(s[0] / 16, e[1]);
        DigitValues(s[0] % 16, e[2]);
        SpellingsRead(e[3..], s[1..], unres);
        assert Octet(e[1], e[2]) == s[0];
      }
      assert s == [s[0]] + s[1..];
    }
  }

  lemma FirstIsKept(e: seq<byte>, s: seq<byte>, unres: set<byte>)
    requires s != [] && s[0] in unres && Spells(e, s, unres)
    ensures PERCENT !in unres ==> RawUnescaped(e) == [s[0]] + RawUnescaped(e[1..])
    ensures PERCENT !in unres || (forall h :: h in unres ==> !IsHex(h)) ==> Unescaped(e) == [s[0]] + Unescaped(e[1..])
  {
    hide IsDigitOf, HexValue;
    if |e| > 1 && s[1..] != [] {
      assert e[1..][0] == e[1];
      assert s[1] in unres || e[1] == PERCENT;
    }
  }

  /** "%2F" and "%2f" are both "/". */
  lemma SlashRead()
    ensures Unescaped([37, 50, 70]) == ['/' as int] == Unescaped([37, 50, 102])
    ensures RawUnescaped([37, 50, 70]) == ['/' as int] == RawUnescaped([37, 50, 102])
  {
  }
}
