/** The operations of scanner.c that the XML parser uses. */
module TextScanner {
  import opened Wrappers
  import opened XmlText

  lemma SkipOne(text: string, s: nat)
    requires s < |text| && IsBlank(text[s])
    ensures Skip(text[s..]) == Skip(text[s + 1..])
  {
    assert text[s..][1..] == text[s + 1..];
  }

  lemma SkipStops(text: string, s: nat)
    requires s <= |text| && (s < |text| ==> !IsBlank(text[s]))
    ensures Skip(text[s..]) == text[s..]
  {
  }

  lemma SpanIs(t: string, stops: string, k: nat)
    requires k <= |t| && (forall i :: 0 <= i < k ==> t[i] !in stops) && (k < |t| ==> t[k] in stops)
    ensures Span(t, stops) == k
  {
  }

  lemma RunIs(t: string, e: int, n: nat)
    requires -1 <= e < |t| && n <= e + 1 && (forall i :: e - n < i <= e ==> t[i] == '\\') && (0 <= e - n ==> t[e - n] != '\\')
    ensures Run(t, e) == n
  {
  }

  /** The buffer ends with a zero that is not part of it. */
  class Scanner {
    const text: string
    var pos: nat

    ghost predicate Valid()
      reads this
    {
      pos <= |text|
    }

    /** What has not been scanned yet */
    ghost function Left(): string
      requires Valid()
      reads this
    {
      text[pos..]
    }

    function Peek(i: nat): char {
      if i < |text| then text[i] else '\0'
    }

    /** pj_scan_init with PJ_SCAN_AUTOSKIP_WS and PJ_SCAN_AUTOSKIP_NEWLINE */
    constructor (text: string)
      ensures Valid() && this.text == text && Left() == Skip(text)
    {
      this.text := text;
      pos := 0;
      new;
      assert text[0..] == text;
      SkipWhitespace();
    }

    /** pj_scan_skip_whitespace, with newlines skipped too */
    method SkipWhitespace()
      requires Valid()
      modifies this
      ensures Valid() && pos >= old(pos) && Left() == Skip(old(Left()))
    {
      hide Skip;
      ghost var behind := Skip(text[pos..]);
      var s := pos;
      while IsSpace(Peek(s))
        invariant pos <= s <= |text| && Skip(text[s..]) == behind
        decreases |text| - s
      {
        SkipOne(text, s);
        s := s + 1;
      }
      while IsBlank(Peek(s))
        invariant pos <= s <= |text| && Skip(text[s..]) == behind
        decreases |text| - s
      {
        SkipOne(text, s);
        if Peek(s) == '\r' && Peek(s + 1) == '\n' {
          SkipOne(text, s + 1);
          s := s + 1;
        }
        s := s + 1;
      }
      SkipStops(text, s);
      pos := s;
    }

    /** Blanks are skipped if the next character is as low as a blank. */
    method SkipIfBlank()
      requires Valid()
      modifies this
      ensures Valid() && pos >= old(pos) && Left() == Skip(old(Left()))
    {
      hide Skip;
      if Peek(pos) <= ' ' {
        SkipWhitespace();
      } else {
        SkipStops(text, pos);
      }
    }

    /** pj_scan_get_char; None is the syntax error that the source throws. */
    method GetChar() returns (c: Option<char>)
      requires Valid()
      modifies this
      ensures Valid() && pos >= old(pos)
      ensures match XmlText.GetChar(old(Left()))
              case Some((d, rest)) => c == Some(d) && Left() == rest
              case None => c == None
    {
      hide Skip;
      var chr := Peek(pos);
      if chr == '\0' {
        return None;
      }
      assert text[pos..][1..] == text[pos + 1..];
      pos := pos + 1;
      SkipIfBlank();
      c := Some(chr);
    }

    /** pj_scan_get_until_chr and pj_scan_get_until_ch */
    method GetUntil(stops: string) returns (out: Option<string>)
      requires Valid()
      modifies this
      ensures Valid() && pos >= old(pos)
      ensures match XmlText.GetUntil(old(Left()), stops)
              case Some((x, rest)) => out == Some(x) && Left() == rest
              case None => out == None
    {
      hide Skip, Span;
      if pos >= |text| {
        return None;
      }
      var s := pos;
      while s != |text| && text[s] !in stops
        invariant pos <= s <= |text|
        invariant forall i :: 0 <= i < s - pos ==> text[pos..][i] !in stops
      {
        s := s + 1;
      }
      SpanIs(text[pos..], stops, s - pos);
      assert text[pos..][..s - pos] == text[pos..s] && text[pos..][s - pos..] == text[s..];
      out := Some(text[pos..s]);
      pos := s;
      SkipIfBlank();
    }

    /** How many backslashes in a row stand before the one at `s` - 1, seen from there */
    method CountBackslashes(s: nat) returns (n: nat)
      requires Valid() && pos + 2 <= s <= |text| && text[pos] != '\\'
      ensures n == Run(text[pos..], s - 2 - pos)
    {
      var r := s - 2;
      while r != 0 && text[r] == '\\'
        invariant pos <= r <= s - 2
        invariant forall i :: r < i <= s - 2 ==> text[i] == '\\'
      {
        r := r - 1;
      }
      n := s - 2 - r;
      RunIs(text[pos..], s - 2 - pos, n);
    }

    /** The place of the end quote for a text that begins with a quote at the scanner */
    method FindEndQuote() returns (end: Option<nat>)
      requires Valid() && pos < |text| && (text[pos] == '"' || text[pos] == '\'')
      ensures match FindClose(Left(), 1, pos == 0)
              case Some(c) => end == Some(pos + c)
              case None => end == None
    {
      hide FindClose, Run;
      var q := text[pos];
      var s := pos + 1;
      while true
        invariant pos + 1 <= s <= |text|
        invariant FindClose(Left(), 1, pos == 0) == FindClose(Left(), s - pos, pos == 0)
        decreases |text| - s
      {
        CloseRound(Left(), s - pos, pos == 0);
        if s == |text| || text[s] == '\n' {
          return None;
        } else if text[s] != q {
          s := s + 1;
        } else if text[s - 1] != '\\' || s - 2 == 0 {
          return Some(s);
        } else {
          var n := CountBackslashes(s);
          if n % 2 == 1 {
            return if s + 1 < |text| && text[s + 1] == q then Some(s + 1) else None;
          }
          s := s + 1;
        }
      }
    }

    /** pj_scan_get_quotes for "\"'", with the quotes taken off again */
    method GetQuotes() returns (out: Option<string>)
      requires Valid()
      modifies this
      ensures Valid() && pos >= old(pos)
      ensures match XmlText.GetQuotes(old(Left()), old(pos) == 0)
              case Some((x, rest)) => out == Some(x) && Left() == rest
              case None => out == None
    {
      hide FindClose, Skip;
      if Peek(pos) != '"' && Peek(pos) != '\'' {
        return None;
      }
      var end := FindEndQuote();
      if end == None {
        return None;
      }
      assert text[pos..][1..end.value - pos] == text[pos + 1..end.value];
      assert text[pos..][end.value - pos + 1..] == text[end.value + 1..];
      out := Some(text[pos + 1..end.value]);
      pos := end.value + 1;
      SkipIfBlank();
    }
  }

  /** What one look at a character makes of the search for the end quote */
  lemma CloseRound(t: string, k: nat, first: bool)
    requires 1 <= k <= |t| && t[0] != '\\'
    ensures var r := FindClose(t, k, first);
            if k == |t| || t[k] == '\n' then r == None
            else if t[k] != t[0] then r == FindClose(t, k + 1, first)
            else if t[k - 1] != '\\' || (first && k == 2) then r == Some(k)
            else if Run(t, k - 2) % 2 == 0 then r == FindClose(t, k + 1, first)
            else r == if k + 1 < |t| && t[k + 1] == t[0] then Some(k + 1) else None
  {
  }
}
