/** Which texts xml.c reads, and as what: the concrete syntax of a node with all its blanks,
    quotes, comments and instructions. What is written in this syntax is read as its tree, and
    nothing else is read. */
module XmlGrammar {
  import opened Sequences
  import opened Wrappers
  import opened XmlText
  import opened XmlRoundTrip

  // ----- Syntax -----

  datatype ValueSyntax = NoValue | Value(lead: string, quote: char, text: string, gap: string)

  datatype AttrSyntax = AttrSyntax(name: string, gap: string, value: ValueSyntax)

  /** "<", "/", the name and ">", with blanks behind each of them */
  datatype CloseSyntax = CloseSyntax(gap1: string, gap2: string, name: string, gap3: string, gap4: string)

  datatype TailSyntax =
    | Slash(gap: string, behind: string)
    | Body(gap: string, children: seq<Doc>, content: string, close: CloseSyntax)

  datatype Doc =
    | Instruction(text: string, gap: string, behind: Doc)
    | Comment(text: string, gap: string, behind: Doc)
    | Element(lead: string, name: string, gap: string, attrs: seq<AttrSyntax>, tail: TailSyntax)

  // ----- The text, with some more text behind it -----

  function ValueWith(v: ValueSyntax, rest: string): string {
    match v
    case NoValue => rest
    case Value(lead, quote, text, gap) => "=" + (lead + QuotedWith(quote, text, gap + rest))
  }

  function QuotedWith(quote: char, text: string, rest: string): string {
    [quote] + (text + ([quote] + rest))
  }

  function AttrWith(a: AttrSyntax, rest: string): string {
    a.name + (a.gap + ValueWith(a.value, rest))
  }

  function AttrsWith(attrs: seq<AttrSyntax>, rest: string): string {
    if attrs == [] then rest else AttrWith(attrs[0], AttrsWith(attrs[1..], rest))
  }

  function CloseWith(c: CloseSyntax, rest: string): string {
    "<" + (c.gap1 + ("/" + (c.gap2 + (c.name + (c.gap3 + (">" + (c.gap4 + rest)))))))
  }

  function TailWith(t: TailSyntax, rest: string): string
    decreases t, 1
  {
    match t
    case Slash(gap, behind) => "/" + (gap + (">" + (behind + rest)))
    case Body(gap, children, content, close) => ">" + (gap + DocsWith(children, content + CloseWith(close, rest)))
  }

  function DocsWith(docs: seq<Doc>, rest: string): string
    decreases docs
  {
    if docs == [] then rest else DocWith(docs[0], DocsWith(docs[1..], rest))
  }

  function DocWith(d: Doc, rest: string): string
    decreases d, 1
  {
    match d
    case Instruction(text, gap, behind) => "<?" + (text + (['?', '>'] + (gap + DocWith(behind, rest))))
    case Comment(text, gap, behind) => "<!" + (text + (">" + (gap + DocWith(behind, rest))))
    case Element(lead, name, gap, attrs, tail) => "<" + (lead + (name + (gap + AttrsWith(attrs, TailWith(tail, rest)))))
  }

  // ----- The tree -----

  function AttrOf(a: AttrSyntax): Attr {
    Attr(a.name, if a.value.Value? then a.value.text else "")
  }

  function AttrsOf(attrs: seq<AttrSyntax>): seq<Attr> {
    if attrs == [] then [] else [AttrOf(attrs[0])] + AttrsOf(attrs[1..])
  }

  function Trees(docs: seq<Doc>): seq<Node>
    decreases docs
  {
    if docs == [] then [] else [Tree(docs[0])] + Trees(docs[1..])
  }

  function Tree(d: Doc): Node
    decreases d, 1
  {
    match d
    case Instruction(_, _, behind) => Tree(behind)
    case Comment(_, _, behind) => Tree(behind)
    case Element(_, name, _, attrs, tail) =>
      match tail
      case Slash(_, _) => Node(name, AttrsOf(attrs), [], "")
      case Body(_, children, content, _) => Node(name, AttrsOf(attrs), Trees(children), content)
  }

  // ----- What may stand where -----

  predicate AllBlank(b: string) {
    forall i :: 0 <= i < |b| ==> b[i] in " \t\r\n"
  }

  /** Blanks behind a name that is not ended by what follows them: a line break does not end it. */
  predicate IsGap(b: string) {
    AllBlank(b) && (b != "" ==> b[0] in " \t")
  }

  /** How many backslashes stand before `k`, up to the opening quote */
  function Slashes(w: string, k: nat): nat
    requires k <= |w|
  {
    if k <= 1 || w[k - 1] != '\\' then 0 else 1 + Slashes(w, k - 1)
  }

  /** Where a quoted text ends: at the first quote behind no backslash. A quote behind an odd
      number of them is passed over; behind an even number, another quote must follow, and that
      one ends the text. Up to there, there is no line break. */
  predicate QuoteEnds(w: string, k: nat, e: nat)
    requires 1 <= k <= |w|
    decreases |w| - k
  {
    && k < |w| && w[k] != '\n'
    && if w[k] != w[0] || Slashes(w, k) % 2 == 1 then QuoteEnds(w, k + 1, e)
       else if Slashes(w, k) == 0 then e == k
       else e == k + 1 < |w| && w[k + 1] == w[0]
  }

  predicate FineValue(v: ValueSyntax, rest: string) {
    match v
    case NoValue => rest == "" || rest[0] != '='
    case Value(lead, quote, text, gap) =>
      && AllBlank(lead) && AllBlank(gap) && quote in "'\""
      && QuoteEnds(QuotedWith(quote, text, gap + rest), 1, |text| + 1)
  }

  /** An attribute's name ends at '=', '>', a space or a tab, and its first character is neither
      one of them nor a slash or a line break. Without a value it may not be empty. */
  predicate FineAttr(a: AttrSyntax, rest: string) {
    && FreeOf(a.name, "=> \t") && (a.name == "" || a.name[0] !in "/\r\n")
    && IsGap(a.gap) && FineValue(a.value, rest)
    && (a.name == "" ==> a.gap == "" && a.value.Value?)
    && (a.value.NoValue? && a.gap == "" ==> rest != "" && rest[0] == '>')
  }

  predicate FineAttrs(attrs: seq<AttrSyntax>, rest: string) {
    attrs == [] || (FineAttr(attrs[0], AttrsWith(attrs[1..], rest)) && FineAttrs(attrs[1..], rest))
  }

  /** The name of a closing tag is that of its node, up to the case of its letters. */
  predicate FineClose(c: CloseSyntax, name: string) {
    && AllBlank(c.gap1) && AllBlank(c.gap2) && IsGap(c.gap3) && AllBlank(c.gap4)
    && FreeOf(c.name, "> \t") && (c.name == "" ==> c.gap3 == "") && (c.name == "" || c.name[0] !in "\r\n")
    && SameName(name, c.name)
  }

  predicate FineTail(t: TailSyntax, name: string, rest: string)
    decreases t, 1
  {
    match t
    case Slash(gap, behind) => AllBlank(gap) && AllBlank(behind)
    case Body(gap, children, content, close) =>
      && AllBlank(gap) && FineDocs(children, content + CloseWith(close, rest)) && FineClose(close, name)
      && FreeOf(content, "<") && (content == "" || content[0] !in " \t\r\n")
      && (content == "" ==> close.gap1 == "")
  }

  predicate FineDocs(docs: seq<Doc>, rest: string)
    decreases docs
  {
    docs == [] || (FineDoc(docs[0], DocsWith(docs[1..], rest)) && !Slashed(docs[0]) && FineDocs(docs[1..], rest))
  }

  /** A node without a name whose tag ends at once: inside another node, "</" is no child. */
  predicate Slashed(d: Doc) {
    d.Element? && d.lead == "" && d.name == "" && d.tail.Slash?
  }

  /** No "?>" within an instruction, no '>' within a comment. The name of a node ends at a slash, a
      '>', a space or a tab; directly behind its '<' it does not begin like an instruction or a comment. */
  predicate FineDoc(d: Doc, rest: string)
    decreases d, 1
  {
    match d
    case Instruction(text, gap, behind) => Endless(text) && AllBlank(gap) && FineDoc(behind, rest)
    case Comment(text, gap, behind) => FreeOf(text, ">") && AllBlank(gap) && FineDoc(behind, rest)
    case Element(lead, name, gap, attrs, tail) =>
      && AllBlank(lead) && IsGap(gap) && FreeOf(name, "/> \t") && (name == "" || name[0] !in "\r\n")
      && (lead == "" && name != "" ==> name[0] !in "?!")
      && (name == "" ==> gap == "") && (gap == "" ==> attrs == [])
      && FineAttrs(attrs, TailWith(tail, rest)) && FineTail(tail, name, rest)
  }

  predicate Endless(text: string) {
    forall i :: 0 <= i < |text| - 1 ==> text[i] != '?' || text[i + 1] != '>'
  }

  /** Names are the same if they differ at most in letters that are 32 apart. */
  lemma SameNameIs(a: string, b: string)
    ensures SameName(a, b) <==> |a| == |b| && forall i :: 0 <= i < |a| ==> SameLetter(a[i], b[i])
  {
    if SameName(a, b) {
      assert forall i :: 0 <= i < |a| ==> Lower(a)[i] == Lower(b)[i];
    }
  }

  predicate SameLetter(x: char, y: char) {
    x == y || ('A' <= x <= 'Z' && y as int == x as int + 32) || ('a' <= x <= 'z' && y as int == x as int - 32)
  }

  // ----- Blanks and stops -----

  lemma BlanksSkipped(b: string, t: string)
    requires AllBlank(b) && Skipped(t)
    ensures Skip(b + t) == t
  {
    assert forall i :: 0 <= i < |b| ==> IsBlank(b[i]);
    SkipBlanks(b, t);
  }

  lemma {:induction false} SkippedBlanks(s: string) returns (b: string)
    ensures AllBlank(b) && s == b + Skip(s)
    decreases |s|
  {
    if s != "" && IsBlank(s[0]) {
      var c := SkippedBlanks(s[1..]);
      b := [s[0]] + c;
      assert s == [s[0]] + s[1..];
      Regrouped([s[0]], c, Skip(s));
    } else {
      b := "";
    }
  }

  lemma {:induction false} SpanIs(x: string, rest: string, stops: string, same: string)
    requires FreeOf(x, same) && (rest != "" ==> rest[0] in same)
    requires forall c :: c in stops <==> c in same
    ensures Span(x + rest, stops) == |x|
    decreases |x|
  {
    if x == "" {
      assert x + rest == rest;
    } else {
      assert (x + rest)[1..] == x[1..] + rest;
      SpanIs(x[1..], rest, stops, same);
    }
  }

  /** Text up to a stop, and the blanks from there on */
  lemma UntilGap(x: string, gap: string, t: string, stops: string, same: string)
    requires FreeOf(x, same) && AllBlank(gap) && Skipped(t) && (forall c :: c in stops <==> c in same)
    requires gap + t != "" && (gap + t)[0] in same
    ensures GetUntil(x + (gap + t), stops) == Some((x, t))
  {
    hide Skip;
    var s, r := x + (gap + t), gap + t;
    SpanIs(x, r, stops, same);
    assert s[..|x|] == x && s[|x|..] == r;
    BlanksSkipped(gap, t);
  }

  lemma UntilSplit(s: string, stops: string, same: string) returns (gap: string)
    requires GetUntil(s, stops).Some? && (forall c :: c in stops <==> c in same)
    ensures var (x, t) := GetUntil(s, stops).value;
            && s == x + (gap + t) && FreeOf(x, same) && AllBlank(gap) && Skipped(t)
            && (gap + t != "" ==> (gap + t)[0] in same) && (gap != "" ==> gap[0] in same)
  {
    hide Skip, Span;
    var k := Span(s, stops);
    gap := SkippedBlanks(s[k..]);
    assert s == s[..k] + s[k..];
  }

  lemma Got(c: char, gap: string, t: string)
    requires c != '\0' && AllBlank(gap) && Skipped(t)
    ensures Expect([c] + (gap + t), c) == Some(t)
  {
    hide Skip;
    assert ([c] + (gap + t))[1..] == gap + t;
    BlanksSkipped(gap, t);
  }

  lemma Expected(s: string, c: char) returns (gap: string)
    requires Expect(s, c).Some?
    ensures AllBlank(gap) && s == [c] + (gap + Expect(s, c).value) && c != '\0'
  {
    hide Skip;
    gap := SkippedBlanks(s[1..]);
    assert s == [s[0]] + s[1..];
  }

  // ----- Quotes -----

  lemma {:induction false} SlashesAre(w: string, k: nat)
    requires 1 <= k <= |w| && w[0] in "'\""
    ensures Slashes(w, k) == Run(w, k - 1)
    decreases k
  {
    if k > 1 && w[k - 1] == '\\' {
      SlashesAre(w, k - 1);
    }
  }

  lemma {:induction false} CloseIs(w: string, k: nat, e: nat)
    requires 1 <= k <= |w| && w[0] in "'\""
    ensures FindClose(w, k, false) == Some(e) <==> QuoteEnds(w, k, e)
    decreases |w| - k
  {
    if k < |w| && w[k] != '\n' {
      CloseIs(w, k + 1, e);
      SlashesAre(w, k);
      if k > 1 { SlashesAre(w, k - 1); }
    }
  }

  /** At the very beginning of the buffer, a quote behind a single backslash ends the text. */
  lemma CloseAtStart(w: string)
    requires |w| >= 1 && w[0] in "'\""
    ensures FindClose(w, 1, true) == if |w| > 2 && w[1] == '\\' && w[2] == w[0] then Some(2) else FindClose(w, 1, false)
  {
    if |w| > 1 {
      if |w| == 2 || w[1] != '\\' || w[2] != w[0] { CloseLater(w, 2); }
    }
  }

  lemma {:induction false} CloseLater(w: string, k: nat)
    requires 2 <= k <= |w| && (k == 2 ==> |w| == 2 || w[1] != '\\' || w[2] != w[0])
    ensures FindClose(w, k, true) == FindClose(w, k, false)
    decreases |w| - k
  {
    if k < |w| { CloseLater(w, k + 1); }
  }

  lemma QuotedParts(quote: char, text: string, rest: string)
    ensures var w := QuotedWith(quote, text, rest);
            w[0] == quote && w[1..|text| + 1] == text && |w| > |text| + 1 && w[|text| + 1] == quote && w[|text| + 2..] == rest
  {
    var w := QuotedWith(quote, text, rest);
    assert w == [quote] + text + [quote] + rest;
  }

  lemma QuotesAre(quote: char, text: string, gap: string, t: string)
    requires quote in "'\"" && AllBlank(gap) && Skipped(t)
    requires QuoteEnds(QuotedWith(quote, text, gap + t), 1, |text| + 1)
    ensures GetQuotes(QuotedWith(quote, text, gap + t), false) == Some((text, t))
  {
    hide Skip, QuotedWith, QuoteEnds, FindClose;
    QuotedParts(quote, text, gap + t);
    CloseIs(QuotedWith(quote, text, gap + t), 1, |text| + 1);
    BlanksSkipped(gap, t);
  }

  lemma QuotesSplit(w: string) returns (gap: string)
    requires GetQuotes(w, false).Some?
    ensures var (text, t) := GetQuotes(w, false).value;
            && w == QuotedWith(w[0], text, gap + t) && w[0] in "'\"" && AllBlank(gap) && QuoteEnds(w, 1, |text| + 1)
  {
    hide Skip, QuoteEnds;
    var e := FindClose(w, 1, false).value;
    CloseIs(w, 1, e);
    gap := SkippedBlanks(w[e + 1..]);
    assert w == [w[0]] + (w[1..e] + ([w[e]] + w[e + 1..]));
  }

  // ----- Attributes -----

  lemma ValueStarts(v: ValueSyntax, rest: string)
    requires FineValue(v, rest) && Skipped(rest)
    ensures Skipped(ValueWith(v, rest))
    ensures v.Value? <==> ValueWith(v, rest) != "" && ValueWith(v, rest)[0] == '='
  {
  }

  lemma AttrStarts(a: AttrSyntax, rest: string)
    requires FineAttr(a, rest) && Skipped(rest)
    ensures var s := AttrWith(a, rest); s != "" && !IsBlank(s[0]) && s[0] !in ">/"
  {
    hide FineValue, ValueWith;
    ValueStarts(a.value, rest);
    if a.name != "" {
      assert AttrWith(a, rest)[0] == a.name[0];
    }
  }

  lemma AttrIsRead(a: AttrSyntax, rest: string)
    requires FineAttr(a, rest) && Skipped(rest)
    ensures Skipped(AttrWith(a, rest)) && ParseAttr(AttrWith(a, rest)) == Some((AttrOf(a), rest))
  {
    hide Skip, FineValue, ValueWith, GetQuotes;
    AttrStarts(a, rest);
    ValueStarts(a.value, rest);
    var t := ValueWith(a.value, rest);
    if a.value.NoValue? { NoValueText(a.value, rest); }
    if a.gap != "" {
      assert (a.gap + t)[0] == a.gap[0];
    } else {
      assert a.gap + t == t;
    }
    UntilGap(a.name, a.gap, t, ATTR_STOPS, "=> \t");
    if a.value.Value? { ValueIsRead(a.value, rest); }
  }

  lemma NoValueText(v: ValueSyntax, rest: string)
    requires v.NoValue?
    ensures ValueWith(v, rest) == rest
  {
  }

  lemma ValueIsRead(v: ValueSyntax, rest: string)
    requires FineValue(v, rest) && Skipped(rest) && v.Value?
    ensures var t := ValueWith(v, rest); t != "" && GetQuotes(Skip(t[1..]), false) == Some((v.text, rest))
  {
    hide Skip, GetQuotes, QuoteEnds, QuotedWith;
    var t, q := ValueWith(v, rest), QuotedWith(v.quote, v.text, v.gap + rest);
    assert t[1..] == v.lead + q;
    QuotedParts(v.quote, v.text, v.gap + rest);
    BlanksSkipped(v.lead, q);
    QuotesAre(v.quote, v.text, v.gap, rest);
  }

  lemma AttrSplit(s: string) returns (a: AttrSyntax)
    requires Skipped(s) && ParseAttr(s).Some? && s[0] !in ">/" && s != ""
    requires ParseAttr(s).value.1 != ""
    ensures var (b, rest) := ParseAttr(s).value; FineAttr(a, rest) && AttrOf(a) == b && AttrWith(a, rest) == s
  {
    hide Skip, QuoteEnds;
    var gap := UntilSplit(s, ATTR_STOPS, "=> \t");
    var (name, t) := GetUntil(s, ATTR_STOPS).value;
    var rest := ParseAttr(s).value.1;
    if t != "" && t[0] == '=' {
      var v := ValueSplit(t);
      a := AttrSyntax(name, gap, v);
    } else {
      a := AttrSyntax(name, gap, NoValue);
    }
    if name != "" {
      assert s[0] == name[0];
    } else {
      assert s == gap + t;
    }
  }

  lemma ValueSplit(t: string) returns (v: ValueSyntax)
    requires t != "" && t[0] == '=' && GetQuotes(Skip(t[1..]), false).Some?
    ensures var (text, rest) := GetQuotes(Skip(t[1..]), false).value;
            v.Value? && v.text == text && FineValue(v, rest) && ValueWith(v, rest) == t
  {
    hide Skip, QuoteEnds, GetQuotes;
    var lead := SkippedBlanks(t[1..]);
    var w := Skip(t[1..]);
    var gap := QuotesSplit(w);
    v := Value(lead, w[0], GetQuotes(w, false).value.0, gap);
    assert t == "=" + t[1..];
  }

  lemma {:induction false} AttrsAreRead(attrs: seq<AttrSyntax>, tail: string)
    requires FineAttrs(attrs, tail) && tail != "" && tail[0] in ">/"
    ensures Skipped(AttrsWith(attrs, tail)) && ParseAttrs(AttrsWith(attrs, tail)) == Some((AttrsOf(attrs), tail))
    decreases |attrs|
  {
    hide ParseAttr, AttrWith, FineAttr, AttrOf;
    if attrs != [] {
      var rest := AttrsWith(attrs[1..], tail);
      AttrsAreRead(attrs[1..], tail);
      AttrIsRead(attrs[0], rest);
      AttrStarts(attrs[0], rest);
    }
  }

  lemma {:induction false} AttrsSplit(s: string) returns (attrs: seq<AttrSyntax>)
    requires Skipped(s) && ParseAttrs(s).Some?
    ensures var (list, tail) := ParseAttrs(s).value;
            FineAttrs(attrs, tail) && AttrsOf(attrs) == list && AttrsWith(attrs, tail) == s
    decreases |s|
  {
    hide ParseAttr, AttrWith, FineAttr, AttrOf;
    if s != "" && s[0] in ">/" {
      attrs := [];
    } else {
      NotEmpty(s);
      var t := ParseAttr(s).value.1;
      var rest := AttrsSplit(t);
      assert t != "" by { if t == "" { NotEmpty(t); } }
      var a := AttrSplit(s);
      attrs := [a] + rest;
      assert attrs[1..] == rest;
    }
  }

  lemma NotEmpty(s: string)
    requires Skipped(s) && ParseAttrs(s).Some?
    ensures s != ""
  {
  }

  // ----- Closing tags -----

  lemma CloseIsRead(c: CloseSyntax, name: string, rest: string)
    requires FineClose(c, name) && Skipped(rest)
    ensures ParseClose(CloseWith(c, rest), name) == Some(rest)
  {
    hide Skip, Expect, GetUntil, SameName;
    var t4 := ">" + (c.gap4 + rest);
    var t3 := c.name + (c.gap3 + t4);
    var t2 := "/" + (c.gap2 + t3);
    assert Skipped(t3) by {
      if c.name == "" { assert t3 == t4; } else { assert t3[0] == c.name[0]; }
    }
    Got('<', c.gap1, t2);
    Got('/', c.gap2, t3);
    if c.gap3 != "" { assert (c.gap3 + t4)[0] == c.gap3[0]; } else { assert c.gap3 + t4 == t4; }
    UntilGap(c.name, c.gap3, t4, END_STOPS, "> \t");
    Got('>', c.gap4, rest);
  }

  lemma CloseSplit(s: string, name: string) returns (c: CloseSyntax)
    requires ParseClose(s, name).Some?
    ensures FineClose(c, name) && CloseWith(c, ParseClose(s, name).value) == s
    ensures s[0] == '<' && (|s| >= 2 && s[1] == '/' ==> c.gap1 == "")
  {
    hide Skip, Expect, GetUntil, SameName;
    var gap1 := Expected(s, '<');
    var t := Expect(s, '<').value;
    var gap2 := Expected(t, '/');
    var u := Expect(t, '/').value;
    var gap3 := UntilSplit(u, END_STOPS, "> \t");
    var (end, v) := GetUntil(u, END_STOPS).value;
    var gap4 := Expected(v, '>');
    c := CloseSyntax(gap1, gap2, end, gap3, gap4);
    EndStarts(t, u, end, gap3, v);
    if gap1 != "" { assert s[1] == gap1[0]; }
  }

  lemma EndStarts(t: string, u: string, end: string, gap: string, v: string)
    requires Expect(t, '/') == Some(u) && u == end + (gap + v) && AllBlank(gap)
    ensures end != "" ==> end[0] !in "\r\n"
    ensures end == "" ==> gap == ""
  {
    hide Skip;
    if end != "" {
      assert u[0] == end[0];
    } else {
      assert u == gap + v;
    }
  }

  // ----- Instructions and comments -----

  /** A question mark that no '>' follows */
  lemma MarkPassed(a: string, r: string)
    requires FreeOf(a, "?") && r != "" && r[0] != '>'
    ensures SkipInstruction(a + (['?'] + r)) == SkipInstruction(r)
  {
    hide Skip;
    var t := ['?'] + r;
    SpanIs(a, t, "?", "?");
    assert (a + t)[|a|..] == t && t[1..] == r;
  }

  lemma {:induction false} InstructionIsRead(text: string, gap: string, t: string)
    requires Endless(text) && AllBlank(gap) && Skipped(t)
    ensures SkipInstruction(text + (['?', '>'] + (gap + t))) == Some(t)
    decreases |text|
  {
    hide Skip, SkipInstruction;
    var k, end := Span(text, "?"), ['?', '>'] + (gap + t);
    if k == |text| {
      InstructionEnd(text, gap + t);
      BlanksSkipped(gap, t);
    } else {
      var a, behind := text[..k], text[k + 1..];
      InstructionIsRead(behind, gap, t);
      CutAt(text, k);
      RegroupedMark(a, behind, end);
      FirstOf(behind, end);
      MarkPassed(a, behind + end);
    }
  }

  lemma CutAt(text: string, k: nat)
    requires k < |text| && text[k] == '?'
    ensures text == text[..k] + (['?'] + text[k + 1..])
  {
  }

  lemma RegroupedMark(a: string, b: string, c: string)
    ensures (a + (['?'] + b)) + c == a + (['?'] + (b + c))
  {
  }

  lemma FirstOf(a: string, b: string)
    requires b != ""
    ensures a + b != "" && (a + b)[0] == if a != "" then a[0] else b[0]
  {
  }

  lemma {:induction false} InstructionSplit(s: string) returns (text: string, gap: string)
    requires SkipInstruction(s).Some?
    ensures Endless(text) && AllBlank(gap) && s == text + (['?', '>'] + (gap + SkipInstruction(s).value))
    decreases |s|
  {
    hide Skip, SkipInstruction, Endless, FreeOf;
    InstructionGoesOn(s);
    var k := Span(s, "?");
    var a, r := s[..k], s[k + 1..];
    CutAt(s, k);
    if r[0] == '>' {
      text := a;
      gap := SkippedBlanks(r[1..]);
      InstructionEnd(a, r[1..]);
      MarkThen(r);
      FreeIsEndless(a);
    } else {
      MarkPassed(a, r);
      var more: string;
      more, gap := InstructionSplit(r);
      text := a + (['?'] + more);
      var end := ['?', '>'] + (gap + SkipInstruction(s).value);
      RegroupedMark(a, more, end);
      FirstOf(more, end);
      EndlessBehind(a, more, ['?'] + r);
    }
  }

  lemma MarkThen(r: string)
    requires r != "" && r[0] == '>'
    ensures ['?'] + r == ['?', '>'] + r[1..]
  {
  }

  lemma FreeIsEndless(a: string)
    requires FreeOf(a, "?")
    ensures Endless(a)
  {
  }

  lemma InstructionGoesOn(s: string)
    requires SkipInstruction(s).Some?
    ensures var k := Span(s, "?"); k + 1 < |s| && s[k] == '?' && FreeOf(s[..k], "?")
  {
    hide Skip;
  }

  lemma EndlessBehind(a: string, more: string, t: string)
    requires FreeOf(a, "?") && Endless(more) && |t| >= 2 && t[1] != '>' && (more != "" ==> t[1] == more[0])
    ensures Endless(a + (['?'] + more))
  {
    var all := a + (['?'] + more);
    forall i | 0 <= i < |all| - 1 ensures all[i] != '?' || all[i + 1] != '>' {
      if i > |a| { assert all[i] == more[i - |a| - 1] && all[i + 1] == more[i - |a|]; }
    }
  }

  lemma CommentIsRead(text: string, gap: string, t: string)
    requires FreeOf(text, ">") && AllBlank(gap) && Skipped(t)
    ensures SkipComment(text + (">" + (gap + t))) == Some(t)
  {
    hide Skip;
    var end := ">" + (gap + t);
    SpanIs(text, end, ">", ">");
    assert (text + end)[|text|..] == end && end[1..] == gap + t;
    BlanksSkipped(gap, t);
  }

  lemma CommentSplit(s: string) returns (text: string, gap: string)
    requires SkipComment(s).Some?
    ensures FreeOf(text, ">") && AllBlank(gap) && s == text + (">" + (gap + SkipComment(s).value))
  {
    hide Skip;
    var k := Span(s, ">");
    var t := s[k..];
    text := s[..k];
    gap := SkippedBlanks(t[1..]);
    assert s == s[..k] + t && t == ">" + t[1..];
  }

  // ----- Nodes -----

  lemma DocStarts(d: Doc, rest: string)
    ensures DocWith(d, rest) != "" && DocWith(d, rest)[0] == '<'
  {
  }

  lemma TailStarts(t: TailSyntax, rest: string)
    ensures TailWith(t, rest) != "" && TailWith(t, rest)[0] == if t.Slash? then '/' else '>'
  {
  }

  /** A text in the syntax is read as its tree. */
  lemma {:induction false} DocIsRead(d: Doc, rest: string)
    requires FineDoc(d, rest) && Skipped(rest)
    ensures ParseNode(DocWith(d, rest)) == Some((Tree(d), rest))
    decreases d, 2
  {
    hide SkipInstruction, SkipComment, ParseElement, Endless, FreeOf;
    match d
    case Instruction(text, gap, behind) =>
      DocIsRead(behind, rest);
      DocStarts(behind, rest);
      InstructionIsRead(text, gap, DocWith(behind, rest));
      assert DocWith(d, rest)[2..] == text + (['?', '>'] + (gap + DocWith(behind, rest)));
    case Comment(text, gap, behind) =>
      DocIsRead(behind, rest);
      DocStarts(behind, rest);
      CommentIsRead(text, gap, DocWith(behind, rest));
      assert DocWith(d, rest)[2..] == text + (">" + (gap + DocWith(behind, rest)));
    case Element(_, _, _, _, _) =>
      ElementIsRead(d, rest);
      ElementStarts(d, rest);
  }

  lemma ElementStarts(d: Doc, rest: string)
    requires d.Element? && FineDoc(d, rest)
    ensures var s := DocWith(d, rest); |s| >= 2 && s[0] == '<' && s[1] !in "?!"
  {
    hide AttrsWith, FineAttrs, FineTail, TailWith;
    TailStarts(d.tail, rest);
    var tail := TailWith(d.tail, rest);
    if d.lead != "" {
      assert DocWith(d, rest)[1] == d.lead[0];
    } else if d.name != "" {
      assert DocWith(d, rest)[1] == d.name[0];
    } else {
      assert AttrsWith(d.attrs, tail) == tail by { NoAttrsWith(d.attrs, tail); }
      assert DocWith(d, rest)[1] == tail[0];
    }
  }

  lemma NoAttrsWith(attrs: seq<AttrSyntax>, rest: string)
    requires attrs == []
    ensures AttrsWith(attrs, rest) == rest
  {
  }

  lemma {:induction false} ElementIsRead(d: Doc, rest: string)
    requires d.Element? && FineDoc(d, rest) && Skipped(rest)
    ensures ParseElement(DocWith(d, rest)) == Some((Tree(d), rest))
    decreases d, 1
  {
    hide Skip, GetUntil, ParseAttrs, FineAttrs, AttrsWith, AttrsOf, FineTail, TailWith, FreeOf;
    var tail := TailWith(d.tail, rest);
    var t := AttrsWith(d.attrs, tail);
    TailStarts(d.tail, rest);
    AttrsAreRead(d.attrs, tail);
    NameIsRead(d, t, tail);
    TailIsRead(d.tail, d.name, AttrsOf(d.attrs), rest);
  }

  /** From behind the '<' to the attributes */
  lemma NameIsRead(d: Doc, t: string, tail: string)
    requires d.Element? && Skipped(t) && tail != "" && tail[0] in ">/" && t == AttrsWith(d.attrs, tail)
    requires AllBlank(d.lead) && IsGap(d.gap) && FreeOf(d.name, "/> \t") && (d.name == "" || d.name[0] !in "\r\n")
    requires (d.name == "" ==> d.gap == "") && (d.gap == "" ==> d.attrs == [])
    ensures var s := "<" + (d.lead + (d.name + (d.gap + t))); GetUntil(Skip(s[1..]), NODE_STOPS) == Some((d.name, t))
  {
    hide Skip, GetUntil, AttrsWith;
    var u := d.name + (d.gap + t);
    if d.gap != "" {
      assert (d.gap + t)[0] == d.gap[0];
    } else {
      NoAttrsWith(d.attrs, tail);
      assert d.gap + t == t;
    }
    assert Skipped(u) by {
      if d.name != "" { assert u[0] == d.name[0]; } else { assert u == t; }
    }
    BlanksSkipped(d.lead, u);
    assert ("<" + (d.lead + u))[1..] == d.lead + u;
    UntilGap(d.name, d.gap, t, NODE_STOPS, "/> \t");
  }

  /** The tag's end, from its '/' or '>' on */
  function ParseTail(u: string, name: string, attrs: seq<Attr>): Option<(Node, string)>
    requires u != ""
  {
    if u[0] == '/' then
      match Expect(Skip(u[1..]), '>')
      case None => None
      case Some(rest) => Some((Node(name, attrs, [], ""), rest))
    else ParseBody(Skip(u[1..]), name, attrs)
  }

  function TailTree(t: TailSyntax, name: string, attrs: seq<Attr>): Node {
    match t
    case Slash(_, _) => Node(name, attrs, [], "")
    case Body(_, children, content, _) => Node(name, attrs, Trees(children), content)
  }

  lemma {:induction false} TailIsRead(t: TailSyntax, name: string, attrs: seq<Attr>, rest: string)
    requires FineTail(t, name, rest) && Skipped(rest)
    ensures TailWith(t, rest) != "" && ParseTail(TailWith(t, rest), name, attrs) == Some((TailTree(t, name, attrs), rest))
    decreases t, 1
  {
    hide Skip, Expect, GetUntil, ParseClose, FineClose, CloseWith, FreeOf, ParseChildren, DocsWith, FineDocs;
    match t
    case Slash(gap, behind) =>
      var end := ">" + (behind + rest);
      assert TailWith(t, rest)[1..] == gap + end;
      BlanksSkipped(gap, end);
      Got('>', behind, rest);
    case Body(gap, children, content, close) =>
      var end := CloseWith(close, rest);
      CloseStarts(close, rest);
      ChildrenEnd(content, end, close);
      DocsAreRead(children, content + end);
      assert TailWith(t, rest)[1..] == gap + DocsWith(children, content + end);
      BlanksSkipped(gap, DocsWith(children, content + end));
      CloseIsRead(close, name, rest);
      ContentIsRead(content, end);
  }

  lemma CloseStarts(c: CloseSyntax, rest: string)
    ensures CloseWith(c, rest) != "" && CloseWith(c, rest)[0] == '<'
    ensures c.gap1 == "" ==> |CloseWith(c, rest)| >= 2 && CloseWith(c, rest)[1] == '/'
  {
  }

  lemma ChildrenEnd(content: string, end: string, c: CloseSyntax)
    requires FreeOf(content, "<") && (content == "" ==> c.gap1 == "") && (content == "" || content[0] !in " \t\r\n")
    requires end != "" && end[0] == '<' && (c.gap1 == "" ==> |end| >= 2 && end[1] == '/')
    ensures NoNode(content + end) && Skipped(content + end)
  {
    if content == "" { assert content + end == end; } else { assert (content + end)[0] == content[0]; }
  }

  lemma ContentIsRead(content: string, end: string)
    requires FreeOf(content, "<") && end != "" && end[0] == '<'
    ensures ParseContent(content + end) == Some((content, end))
  {
    hide Skip, GetUntil;
    if content != "" {
      assert (content + end)[0] == content[0];
      UntilGap(content, "", end, "<", "<");
      assert content + ("" + end) == content + end;
    } else {
      assert content + end == end;
    }
  }

  lemma {:induction false} DocsAreRead(docs: seq<Doc>, rest: string)
    requires FineDocs(docs, rest) && NoNode(rest) && Skipped(rest)
    ensures Skipped(DocsWith(docs, rest)) && ParseChildren(DocsWith(docs, rest)) == Some((Trees(docs), rest))
    decreases docs, 3
  {
    hide FineDoc, DocWith, Tree, ParseNode;
    if docs != [] {
      var d, t := docs[0], DocsWith(docs[1..], rest);
      DocsAreRead(docs[1..], rest);
      DocIsRead(d, t);
      DocStarts(d, t);
      ChildStarts(d, t);
    }
  }

  /** What begins with "</" is only the node without a name. */
  lemma ChildStarts(d: Doc, rest: string)
    requires FineDoc(d, rest)
    ensures NoNode(DocWith(d, rest)) <==> Slashed(d)
  {
    hide AttrsWith, FineAttrs, FineTail, TailWith, Endless, FreeOf;
    if d.Element? {
      ElementStarts(d, rest);
      TailStarts(d.tail, rest);
      var s, tail := DocWith(d, rest), TailWith(d.tail, rest);
      if d.lead != "" {
        assert s[1] == d.lead[0];
      } else if d.name != "" {
        assert s[1] == d.name[0];
        NameIsNoSlash(d.name);
      } else {
        NoAttrsWith(d.attrs, tail);
        assert s[1] == tail[0];
      }
    }
  }

  lemma NameIsNoSlash(name: string)
    requires FreeOf(name, "/> \t") && name != ""
    ensures name[0] != '/'
  {
    assert name[0] !in "/> \t";
  }

  // ----- Nothing else is read -----

  /** What was read was written in the syntax. */
  ghost predicate Wrote(d: Doc, s: string, n: Node, rest: string) {
    s == DocWith(d, rest) && FineDoc(d, rest) && Tree(d) == n
  }

  lemma {:induction false} DocSplit(s: string) returns (d: Doc)
    requires ParseNode(s).Some?
    ensures var (n, rest) := ParseNode(s).value; Wrote(d, s, n, rest) && Skipped(rest)
    decreases |s|, 1
  {
    hide ParseElement, SkipInstruction, SkipComment, Skip, Endless, FreeOf, AllBlank;
    if s[1] == '?' {
      var t := SkipInstruction(s[2..]).value;
      var behind := DocSplit(t);
      var text, gap := InstructionSplit(s[2..]);
      d := Instruction(text, gap, behind);
      assert s == "<?" + s[2..];
    } else if s[1] == '!' {
      var t := SkipComment(s[2..]).value;
      var behind := DocSplit(t);
      var text, gap := CommentSplit(s[2..]);
      d := Comment(text, gap, behind);
      assert s == "<!" + s[2..];
    } else {
      d := ElementSplit(s);
    }
  }

  lemma {:induction false} ElementSplit(s: string) returns (d: Doc)
    requires |s| >= 2 && s[0] == '<' && s[1] !in "?!" && ParseElement(s).Some?
    ensures var (n, rest) := ParseElement(s).value; d.Element? && Wrote(d, s, n, rest) && Skipped(rest)
    decreases |s|, 0
  {
    hide Skip, GetUntil, ParseAttrs, ParseBody, Expect, FineAttrs, AttrsWith, AttrsOf, FineTail, TailWith, FreeOf;
    var lead, gap := NameSplit(s);
    var (name, t) := GetUntil(Skip(s[1..]), NODE_STOPS).value;
    AttrsShorter(s, t);
    var attrs := AttrsSplit(t);
    var (list, u) := ParseAttrs(t).value;
    assert ParseElement(s) == ParseTail(u, name, list);
    var tail := TailSplit(u, name, list);
    NoNameNoGap(lead, name, gap, t, attrs, u);
    d := Element(lead, name, gap, attrs, tail);
    TailTreeIs(d);
  }

  lemma TailTreeIs(d: Doc)
    requires d.Element?
    ensures Tree(d) == TailTree(d.tail, d.name, AttrsOf(d.attrs))
  {
  }

  lemma AttrsShorter(s: string, t: string)
    requires s != "" && GetUntil(Skip(s[1..]), NODE_STOPS).Some? && GetUntil(Skip(s[1..]), NODE_STOPS).value.1 == t
    ensures |t| < |s| && Skipped(t)
    ensures ParseAttrs(t).Some? ==> |ParseAttrs(t).value.1| < |s|
  {
    hide ParseAttrs;
  }

  lemma NameSplit(s: string) returns (lead: string, gap: string)
    requires |s| >= 2 && s[0] == '<' && GetUntil(Skip(s[1..]), NODE_STOPS).Some?
    ensures var (name, t) := GetUntil(Skip(s[1..]), NODE_STOPS).value;
            && AllBlank(lead) && AllBlank(gap) && s == "<" + (lead + (name + (gap + t))) && FreeOf(name, "/> \t")
            && (gap + t != "" ==> (gap + t)[0] in "/> \t") && (gap != "" ==> gap[0] in "/> \t")
            && (name == "" || name[0] !in "\r\n") && (name == "" ==> gap == "")
            && (lead == "" && name != "" ==> name[0] == s[1])
  {
    hide Skip, GetUntil;
    lead := SkippedBlanks(s[1..]);
    var u := Skip(s[1..]);
    gap := UntilSplit(u, NODE_STOPS, "/> \t");
    var (name, t) := GetUntil(u, NODE_STOPS).value;
    assert s == "<" + s[1..];
    if name != "" { assert u[0] == name[0]; } else { assert u == gap + t; }
  }

  lemma NoNameNoGap(lead: string, name: string, gap: string, t: string, attrs: seq<AttrSyntax>, u: string)
    requires Skipped(t) && t == AttrsWith(attrs, u) && FineAttrs(attrs, u) && u != "" && u[0] in ">/"
    requires AllBlank(gap) && (gap + t != "" ==> (gap + t)[0] in "/> \t") && (gap != "" ==> gap[0] in "/> \t")
    ensures IsGap(gap) && (gap == "" ==> attrs == [])
  {
    hide FineAttr, AttrWith;
    if gap == "" {
      assert gap + t == t;
      if attrs != [] {
        SkippedAttrs(attrs[1..], u);
        AttrStarts(attrs[0], AttrsWith(attrs[1..], u));
      }
    }
  }

  lemma SkippedAttrs(attrs: seq<AttrSyntax>, u: string)
    requires FineAttrs(attrs, u) && u != "" && u[0] in ">/"
    ensures Skipped(AttrsWith(attrs, u))
  {
    AttrsAreRead(attrs, u);
  }

  lemma {:induction false} TailSplit(u: string, name: string, attrs: seq<Attr>) returns (tail: TailSyntax)
    requires u != "" && u[0] in ">/" && ParseTail(u, name, attrs).Some?
    ensures var (n, rest) := ParseTail(u, name, attrs).value;
            && TailWith(tail, rest) == u && FineTail(tail, name, rest) && TailTree(tail, name, attrs) == n && Skipped(rest)
    decreases |u|, 4
  {
    hide Skip, Expect, GetUntil, ParseClose, FineClose, CloseWith, FreeOf, ParseChildren, DocsWith, FineDocs;
    assert u == [u[0]] + u[1..];
    var gap := SkippedBlanks(u[1..]);
    var s := Skip(u[1..]);
    if u[0] == '/' {
      var behind := Expected(s, '>');
      tail := Slash(gap, behind);
    } else {
      var (list, t) := ParseChildren(s).value;
      var (content, v) := ParseContent(t).value;
      var children := DocsSplit(s);
      ChildrenStop(s);
      var close := CloseSplit(v, name);
      var rest := ParseClose(v, name).value;
      CloseSkips(v, name);
      ContentSplit(t);
      ContentEnds(t, v);
      tail := Body(gap, children, content, close);
    }
  }

  lemma ChildrenStop(s: string)
    requires ParseChildren(s).Some? && Skipped(s)
    ensures NoNode(ParseChildren(s).value.1) && Skipped(ParseChildren(s).value.1)
    decreases |s|
  {
    hide ParseNode, Skip;
    if !NoNode(s) {
      var t := ParseNode(s).value.1;
      assert Skipped(t) by { var d := DocSplit(s); }
      ChildrenStop(t);
    }
  }

  lemma CloseSkips(s: string, name: string)
    requires ParseClose(s, name).Some?
    ensures Skipped(ParseClose(s, name).value)
  {
    hide GetUntil, Skip;
  }

  lemma ContentSplit(t: string)
    requires ParseContent(t).Some? && Skipped(t)
    ensures var (content, v) := ParseContent(t).value;
            v != "" && v[0] == '<' ==> t == content + v && FreeOf(content, "<") && (content == "" || content[0] !in " \t\r\n")
  {
    hide GetUntil, Skip;
    if t != "" && t[0] != '<' {
      var gap := UntilSplit(t, "<", "<");
      var (content, v) := GetUntil(t, "<").value;
      NoGap(gap);
      assert gap + v == v;
      if content != "" { assert t[0] == content[0]; }
    }
  }

  lemma NoGap(gap: string)
    requires AllBlank(gap) && (gap != "" ==> gap[0] in "<")
    ensures gap == ""
  {
  }

  /** A closing tag directly behind the children begins with "</". */
  lemma ContentEnds(t: string, v: string)
    requires NoNode(t) && ParseContent(t).Some? && ParseContent(t).value.1 == v && v != "" && v[0] == '<'
    ensures ParseContent(t).value.0 == "" ==> |v| >= 2 && v[1] == '/'
  {
    hide Skip;
  }

  lemma {:induction false} DocsSplit(s: string) returns (docs: seq<Doc>)
    requires ParseChildren(s).Some?
    ensures var (list, rest) := ParseChildren(s).value;
            DocsWith(docs, rest) == s && FineDocs(docs, rest) && Trees(docs) == list
    decreases |s|, 2
  {
    hide ParseNode, DocWith, FineDoc, Tree;
    if NoNode(s) {
      docs := [];
    } else {
      var (n, t) := ParseNode(s).value;
      var first := DocSplit(s);
      var others := DocsSplit(t);
      docs := [first] + others;
      assert docs[1..] == others;
      ChildStarts(first, t);
    }
  }

  // ----- Documents -----

  /** A text of blanks, a node, and anything that does not begin with a blank */
  ghost predicate IsText(s: string, lead: string, d: Doc, rest: string) {
    AllBlank(lead) && s == lead + DocWith(d, rest) && FineDoc(d, rest) && Skipped(rest)
  }

  ghost predicate Holds(s: string, n: Node) {
    exists lead: string, d: Doc, rest: string :: IsText(s, lead, d, rest) && Tree(d) == n
  }

  /** A text is read as a node exactly if it is one, in this syntax, between blanks and any other text. */
  lemma TextIsRead(s: string, n: Node)
    ensures Parse(s) == Some(n) <==> Holds(s, n)
  {
    hide ParseNode, DocWith, FineDoc, Tree, Skip;
    if Parse(s) == Some(n) {
      var lead := SkippedBlanks(s);
      var d := DocSplit(Skip(s));
      var rest := ParseNode(Skip(s)).value.1;
      assert IsText(s, lead, d, rest);
    }
    if Holds(s, n) {
      var lead: string, d: Doc, rest: string :| IsText(s, lead, d, rest) && Tree(d) == n;
      DocStarts(d, rest);
      BlanksSkipped(lead, DocWith(d, rest));
      DocIsRead(d, rest);
    }
  }
}
