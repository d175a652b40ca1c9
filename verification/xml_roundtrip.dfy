/** When a tree that was printed is parsed as itself. */
module XmlRoundTrip {
  import opened Sequences
  import opened Wrappers
  import opened XmlText

  // ----- The conditions -----

  predicate FreeOf(s: string, stops: string) {
    forall i :: 0 <= i < |s| ==> s[i] !in stops
  }

  predicate NodeNameOk(name: string) {
    FreeOf(name, NODE_STOPS) && Skipped(name)
  }

  predicate AttrNameOk(name: string) {
    FreeOf(name, ATTR_STOPS) && Skipped(name) && (name != "" ==> name[0] != '/')
  }

  predicate ContentOk(content: string) {
    FreeOf(content, "<") && Skipped(content)
  }

  /** The character may stand there between quotes: a quote must follow an odd run of
      backslashes or, if it is the last character, any run at all. */
  predicate CharOk(v: string, i: nat)
    requires i < |v|
  {
    && v[i] != '\n'
    && (v[i] == '"' ==> Run(v, i - 1) % 2 == 1 || (Run(v, i - 1) > 0 && i == |v| - 1))
  }

  predicate QuotableFrom(v: string, i: nat) {
    && (forall j :: i <= j < |v| ==> CharOk(v, j))
    && (v != "" ==> v[|v| - 1] != '\\')
  }

  predicate Quotable(v: string) {
    QuotableFrom(v, 0)
  }

  /** What any node that was read looks like */
  predicate Shaped(n: Node)
    decreases n
  {
    && NodeNameOk(n.name) && ContentOk(n.content)
    && (forall i :: 0 <= i < |n.attrs| ==> AttrNameOk(n.attrs[i].name))
    && (forall i :: 0 <= i < |n.children| ==> Shaped(n.children[i]))
  }

  /** What begins with the name begins an instruction or a comment. */
  predicate Markup(name: string) {
    name != "" && name[0] in "?!"
  }

  /** Names that are no markup */
  predicate Plain(n: Node)
    decreases n
  {
    && !Markup(n.name)
    && (forall i :: 0 <= i < |n.children| ==> Plain(n.children[i]))
  }

  /** The value stands its quotes; and an attribute without a value has a name, and none behind
      it that is a value without a name, which would be taken for its own. */
  predicate AttrOk(attrs: seq<Attr>, i: nat)
    requires i < |attrs|
  {
    && Quotable(attrs[i].value)
    && (attrs[i].value == "" ==> attrs[i].name != "" && (i + 1 < |attrs| ==> attrs[i + 1].name != ""))
  }

  predicate AttrsOk(attrs: seq<Attr>) {
    forall i :: 0 <= i < |attrs| ==> AttrOk(attrs, i)
  }

  /** What a node needs, beyond the shape, to come back */
  predicate Good(n: Node)
    decreases n
  {
    && (n.name == "" ==> n.attrs == [])
    && AttrsOk(n.attrs)
    && (n.children == [] || n.content == "")
    && (forall i :: 0 <= i < |n.children| ==> Good(n.children[i]))
  }

  // ----- Blanks and stops -----

  lemma {:induction false} SkipBlanks(b: string, s: string)
    requires forall i :: 0 <= i < |b| ==> IsBlank(b[i])
    ensures Skip(b + s) == Skip(s)
    decreases |b|
  {
    if b == "" {
      assert b + s == s;
    } else {
      assert (b + s)[1..] == b[1..] + s;
      SkipBlanks(b[1..], s);
    }
  }

  lemma {:induction false} SpanOf(x: string, rest: string, stops: string)
    requires FreeOf(x, stops) && (rest != "" ==> rest[0] in stops)
    ensures Span(x + rest, stops) == |x|
    decreases |x|
  {
    if x == "" {
      assert x + rest == rest;
    } else {
      assert (x + rest)[1..] == x[1..] + rest;
      SpanOf(x[1..], rest, stops);
    }
  }

  lemma UntilRead(x: string, rest: string, stops: string)
    requires FreeOf(x, stops) && rest != "" && rest[0] in stops
    ensures GetUntil(x + rest, stops) == Some((x, Skip(rest)))
  {
    SpanOf(x, rest, stops);
    assert (x + rest)[..|x|] == x && (x + rest)[|x|..] == rest;
  }

  lemma ExpectRead(c: char, rest: string)
    requires c != '\0'
    ensures Expect([c] + rest, c) == Some(Skip(rest))
  {
    assert ([c] + rest)[1..] == rest;
  }

  // ----- Quotes -----

  /** A value between its quotes, and what is behind */
  function Quoted(v: string, rest: string): (s: string)
    ensures |s| == |v| + 2 + |rest|
  {
    "\"" + (v + ("\"" + rest))
  }

  lemma QuotedAt(v: string, rest: string, k: nat)
    requires k < |v| + 2 + |rest|
    ensures Quoted(v, rest)[k] ==
            if k == 0 || k == |v| + 1 then '"' else if k <= |v| then v[k - 1] else rest[k - |v| - 2]
  {
  }

  lemma {:induction false} RunShift(v: string, rest: string, e: int)
    requires -1 <= e < |v|
    ensures Run(Quoted(v, rest), e + 1) == Run(v, e)
    decreases e + 1
  {
    QuotedAt(v, rest, e + 1);
    if e >= 0 && v[e] == '\\' {
      RunShift(v, rest, e - 1);
    }
  }

  /** The end quote is the one that is found exactly when the value is quotable. */
  lemma {:induction false} CloseFrom(v: string, rest: string, k: nat)
    requires 1 <= k <= |v| + 1 && rest != "" && rest[0] != '"'
    ensures FindClose(Quoted(v, rest), k, false) == Some(|v| + 1) <==> QuotableFrom(v, k - 1)
    decreases |v| + 1 - k
  {
    hide Quoted, Run, QuotableFrom, CharOk;
    QuotedAt(v, rest, 0);
    QuotedAt(v, rest, k);
    QuotedAt(v, rest, k - 1);
    QuotedAt(v, rest, k + 1);
    QuotableStep(v, k - 1);
    if k <= |v| {
      CloseFrom(v, rest, k + 1);
      CharHere(v, rest, k);
    }
  }

  lemma QuotableStep(v: string, i: nat)
    requires i <= |v|
    ensures QuotableFrom(v, i) <==> if i < |v| then CharOk(v, i) && QuotableFrom(v, i + 1) else v != "" ==> v[|v| - 1] != '\\'
  {
    hide CharOk;
  }

  /** The character, where it stands between its quotes */
  lemma CharHere(v: string, rest: string, k: nat)
    requires 1 <= k <= |v|
    ensures var s := Quoted(v, rest);
            CharOk(v, k - 1) <==> s[k] != '\n' && (s[k] == '"' ==> k > 1 && s[k - 1] == '\\' && (Run(s, k - 2) % 2 == 0 || k == |v|))
  {
    hide Quoted;
    QuotedAt(v, rest, k);
    QuotedAt(v, rest, k - 1);
    if k > 1 && v[k - 2] == '\\' {
      RunShift(v, rest, k - 3);
    }
  }

  lemma QuotesRead(v: string, rest: string)
    requires rest != "" && rest[0] != '"'
    ensures Quotable(v) ==> GetQuotes(Quoted(v, rest), false) == Some((v, Skip(rest)))
    ensures GetQuotes(Quoted(v, rest), false).Some? && GetQuotes(Quoted(v, rest), false).value.0 == v ==> Quotable(v)
  {
    hide Quoted, FindClose, Skip, QuotableFrom;
    CloseFrom(v, rest, 1);
    QuotedParts(v, rest);
  }

  lemma QuotedParts(v: string, rest: string)
    ensures var s := Quoted(v, rest); s[0] == '"' && s[1..|v| + 1] == v && s[|v| + 2..] == rest
  {
  }

  // ----- Attributes -----

  /** Another attribute, or the end of a tag */
  predicate Behind(rest: string) {
    rest != "" && rest[0] in " >"
  }

  lemma ValueThen(v: string, rest: string)
    requires v != ""
    ensures ValueText(v) + rest == ['='] + Quoted(v, rest)
  {
  }

  lemma PlainAttr(name: string, rest: string)
    requires AttrNameOk(name) && name != "" && Behind(rest)
    ensures Skip(rest) != "" && Skip(rest)[0] == '=' ==> ParseAttr(name + rest) == ParseValue(name, Skip(Skip(rest)[1..]))
    ensures !(Skip(rest) != "" && Skip(rest)[0] == '=') ==> ParseAttr(name + rest) == Some((Attr(name, ""), Skip(rest)))
  {
    UntilRead(name, rest, ATTR_STOPS);
  }

  /** The value of an attribute, behind the '=' */
  function ParseValue(name: string, q: string): (r: Option<(Attr, string)>)
    ensures r.Some? ==> r.value.0.name == name
  {
    match GetQuotes(q, false)
    case None => None
    case Some((value, rest)) => Some((Attr(name, value), rest))
  }

  lemma EqualsStays(q: string)
    requires Skipped(q)
    ensures var t := ['='] + q; Skip(t) == t && t[1..] == q && Skip(t[1..]) == q
  {
  }

  lemma ValuedAttr(a: Attr, rest: string)
    requires AttrNameOk(a.name) && a.value != "" && Behind(rest)
    ensures var s := a.name + (ValueText(a.value) + rest);
            && ParseAttr(s) == ParseValue(a.name, Quoted(a.value, rest)) && s[0] !in ">/" && Skipped(s)
            && (Quotable(a.value) ==> ParseAttr(s) == Some((a, Skip(rest))))
            && (ParseAttr(s).Some? && ParseAttr(s).value.0 == a ==> Quotable(a.value))
  {
    hide FindClose, Quotable, Quoted, GetUntil, GetQuotes, ValueText, Span, Skip;
    var q := Quoted(a.value, rest);
    ValueThen(a.value, rest);
    UntilRead(a.name, ['='] + q, ATTR_STOPS);
    QuotedAt(a.value, rest, 0);
    EqualsStays(q);
    QuotesRead(a.value, rest);
    assert a.name == "" ==> a.name + (['='] + q) == ['='] + q;
  }

  /** The end of a tag: '>', or a blank and '/' */
  predicate BodyStart(s: string) {
    s != "" && (s[0] == '>' || (|s| >= 2 && s[0] == ' ' && s[1] == '/'))
  }

  lemma BodyFollows(s: string)
    requires BodyStart(s)
    ensures Behind(s) && Skip(s) == (if s[0] == '>' then s else s[1..]) && Skip(s)[0] in ">/"
  {
    if s[0] == ' ' {
      assert s[1..][0] == '/';
    }
  }

  predicate NamesOk(attrs: seq<Attr>) {
    forall i :: 0 <= i < |attrs| ==> AttrNameOk(attrs[i].name)
  }

  /** The text behind the attributes begins with a blank, or with the end of the tag. */
  lemma AttrsStart(attrs: seq<Attr>, body: string)
    requires BodyStart(body)
    ensures Behind(AttrsText(attrs) + body)
  {
    if attrs == [] {
      assert AttrsText(attrs) + body == body;
    }
  }

  /** The text of an attribute in front of a text, behind its blank */
  function AttrThen(a: Attr, rest: string): string {
    a.name + (ValueText(a.value) + rest)
  }

  predicate IsNothing(a: Attr) {
    a.name == "" && a.value == ""
  }

  lemma Laid(a: Attr, others: string, body: string)
    ensures (AttrText(a) + others) + body == " " + AttrThen(a, others + body)
  {
  }

  lemma AttrThenStarts(a: Attr, rest: string)
    requires AttrNameOk(a.name)
    ensures var t := AttrThen(a, rest); if IsNothing(a) then t == rest else t != "" && !IsBlank(t[0])
    ensures !IsNothing(a) ==> AttrThen(a, rest)[0] == if a.name == "" then '=' else a.name[0]
  {
    hide AttrNameOk;
    var t := ValueText(a.value) + rest;
    assert a.name == "" ==> a.name + t == t;
    assert a.name != "" ==> (a.name + t)[0] == a.name[0];
    assert a.value == "" ==> t == rest;
    assert a.value != "" ==> t[0] == ValueText(a.value)[0] == '=';
    NotBlank(a.name);
  }

  lemma NotBlank(name: string)
    requires AttrNameOk(name)
    ensures name != "" ==> !IsBlank(name[0])
  {
  }

  /** The first attribute, without the blank before it */
  lemma FirstAttr(attrs: seq<Attr>, body: string)
    requires attrs != [] && NamesOk(attrs)
    ensures var a, rest := attrs[0], AttrsText(attrs[1..]) + body;
            Skip(AttrsText(attrs) + body) == if IsNothing(a) then Skip(rest) else AttrThen(a, rest)
  {
    hide ValueText, AttrThen, AttrNameOk;
    var a, rest := attrs[0], AttrsText(attrs[1..]) + body;
    var t := AttrThen(a, rest);
    Laid(a, AttrsText(attrs[1..]), body);
    assert AttrsText(attrs) + body == " " + t;
    assert (" " + t)[1..] == t;
    AttrThenStarts(a, rest);
  }

  /** An attribute is read as itself if its value is quotable and no other is taken for it. */
  lemma AttrRead(a: Attr, rest: string)
    requires AttrNameOk(a.name) && !IsNothing(a) && Behind(rest)
    requires a.value == "" ==> Skip(rest) == "" || Skip(rest)[0] != '='
    ensures AttrThen(a, rest) != "" && AttrThen(a, rest)[0] !in ">/" && Skipped(AttrThen(a, rest))
    ensures Quotable(a.value) ==> ParseAttr(AttrThen(a, rest)) == Some((a, Skip(rest)))
    ensures ParseAttr(AttrThen(a, rest)).Some? && ParseAttr(AttrThen(a, rest)).value.0 == a ==> Quotable(a.value)
  {
    hide Skip, ParseAttr, ParseValue;
    if a.value == "" {
      assert ValueText(a.value) + rest == rest;
      PlainAttr(a.name, rest);
    } else {
      ValuedAttr(a, rest);
    }
  }

  /** The printed attributes are read back exactly when all of them are as they should be. */
  lemma {:induction false} AttrsRead(attrs: seq<Attr>, body: string)
    requires NamesOk(attrs) && BodyStart(body)
    ensures AttrsOk(attrs) ==> ParseAttrs(Skip(AttrsText(attrs) + body)) == Some((attrs, Skip(body)))
    ensures var r := ParseAttrs(Skip(AttrsText(attrs) + body)); r.Some? && r.value.0 == attrs ==> AttrsOk(attrs)
    decreases |attrs|
  {
    hide AttrOk, AttrsOk, AttrsText, Quotable, ParseAttr, ParseAttrs, Skip, AttrThen;
    AttrsOkSplit(attrs);
    if attrs == [] {
      NoAttrs(body);
    } else {
      var a, rest := attrs[0], AttrsText(attrs[1..]) + body;
      FirstAttr(attrs, body);
      AttrsStart(attrs[1..], body);
      AttrsRead(attrs[1..], body);
      EqualsNext(attrs[1..], body);
      if IsNothing(a) {
        NothingIsLost(attrs, body);
      } else if a.value == "" && Nameless(attrs[1..]) {
        ValueIsTaken(attrs, body);
      } else {
        AttrRead(a, rest);
        FirstThenRest(attrs, AttrThen(a, rest), rest);
      }
    }
  }

  lemma NoAttrs(body: string)
    requires BodyStart(body)
    ensures AttrsText([]) + body == body && ParseAttrs(Skip(body)) == Some(([], Skip(body)))
  {
    BodyFollows(body);
  }

  lemma AttrsOkSplit(attrs: seq<Attr>)
    ensures attrs == [] ==> AttrsOk(attrs)
    ensures attrs != [] ==> (AttrsOk(attrs) <==> AttrOk(attrs, 0) && AttrsOk(attrs[1..]))
    ensures attrs != [] && AttrsOk(attrs) ==>
              && Quotable(attrs[0].value) && !IsNothing(attrs[0]) && !(attrs[0].value == "" && Nameless(attrs[1..]))
    ensures (attrs != [] && Quotable(attrs[0].value) && !IsNothing(attrs[0]) && !(attrs[0].value == "" && Nameless(attrs[1..]))
             && AttrsOk(attrs[1..])) ==> AttrsOk(attrs)
  {
    hide Quotable;
    if attrs != [] {
      var rest := attrs[1..];
      forall i | 0 <= i < |rest| ensures AttrOk(rest, i) <==> AttrOk(attrs, i + 1) {}
      if AttrsOk(rest) {
        forall i | 1 <= i < |attrs| ensures AttrOk(attrs, i) { assert AttrOk(rest, i - 1); }
      }
      if AttrsOk(attrs) {
        forall i | 0 <= i < |rest| ensures AttrOk(rest, i) { assert AttrOk(attrs, i + 1); }
        assert AttrOk(attrs, 0);
      }
      if rest != [] && AttrsOk(rest) {
        assert AttrOk(rest, 0);
      }
    }
  }

  /** A list that was read as `attrs` was read as its first attribute and the rest of them. */
  lemma FirstThenRest(attrs: seq<Attr>, s: string, rest: string)
    requires attrs != [] && s != "" && s[0] !in ">/" && Skipped(s)
    ensures var one, all := ParseAttr(s), ParseAttrs(s);
            && (one == Some((attrs[0], Skip(rest))) ==>
                  (ParseAttrs(Skip(rest)).Some? ==> all == Some(([attrs[0]] + ParseAttrs(Skip(rest)).value.0, ParseAttrs(Skip(rest)).value.1)))
                  && (all.Some? ==> ParseAttrs(Skip(rest)).Some?))
            && (all.Some? && all.value.0 == attrs ==> one.Some? && one.value.0 == attrs[0])
            && [attrs[0]] + attrs[1..] == attrs
  {
    hide ParseAttr, Skip;
  }

  // ----- Attributes that are lost -----
  // What is printed of an attribute with neither name nor value is a blank. To see that the list
  // never comes back, whatever is read in its place, a quote is followed that begins a value.

  /** The attributes from the first on of which more than a blank is printed */
  function Visible(attrs: seq<Attr>): seq<Attr> {
    if attrs != [] && IsNothing(attrs[0]) then Visible(attrs[1..]) else attrs
  }

  /** The first attribute to be seen is a value without a name. */
  predicate Nameless(attrs: seq<Attr>) {
    Visible(attrs) != [] && Visible(attrs)[0].name == ""
  }

  lemma {:induction false} VisibleText(attrs: seq<Attr>, body: string)
    requires NamesOk(attrs)
    ensures Skip(AttrsText(attrs) + body) == Skip(AttrsText(Visible(attrs)) + body)
    ensures NamesOk(Visible(attrs)) && |Visible(attrs)| <= |attrs|
    ensures Visible(attrs) != [] ==> !IsNothing(Visible(attrs)[0])
    ensures forall a :: a in Visible(attrs) ==> a in attrs
    decreases |attrs|
  {
    hide Skip, AttrsText;
    if attrs != [] && IsNothing(attrs[0]) {
      FirstAttr(attrs, body);
      VisibleText(attrs[1..], body);
    }
  }

  lemma EqualsNext(attrs: seq<Attr>, body: string)
    requires NamesOk(attrs) && BodyStart(body)
    ensures var s := Skip(AttrsText(attrs) + body); s != "" && (s[0] == '=' <==> Nameless(attrs))
  {
    hide Skip, Visible;
    VisibleText(attrs, body);
    var seen := Visible(attrs);
    if seen == [] {
      BodyFollows(body);
      assert AttrsText(seen) + body == body;
    } else {
      FirstAttr(seen, body);
    }
  }

  /** The value cannot be read out of quotes if it begins with '"' and holds a '\'' with no backslash before it. */
  predicate Readable(v: string) {
    v != "" && v[0] == '"' ==> forall i :: 0 <= i < |v| && v[i] == '\'' ==> i > 0 && v[i - 1] == '\\'
  }

  lemma {:induction false} QuotesEscaped(s: string, k: nat)
    requires 1 <= k <= |s| && FindClose(s, k, false).Some?
    ensures forall i :: k <= i < FindClose(s, k, false).value && s[i] == s[0] ==> i > 1 && s[i - 1] == '\\'
    decreases |s| - k
  {
    hide Run;
    if s[k] != s[0] || (FindClose(s, k, false).value != k && FindClose(s, k, false).value != k + 1) {
      QuotesEscaped(s, k + 1);
    } else if FindClose(s, k, false).value == k + 1 && !(Run(s, k - 2) % 2 != 0) {
      QuotesEscaped(s, k + 1);
    }
  }

  lemma ValueReadable(s: string)
    requires GetQuotes(s, false).Some?
    ensures Readable(GetQuotes(s, false).value.0)
  {
    hide Run;
    QuotesEscaped(s, 1);
    var c := FindClose(s, 1, false).value;
    var v := s[1..c];
    forall i | 0 <= i < |v| && v[i] == '\'' && v[0] == '"'
      ensures i > 0 && v[i - 1] == '\\'
    {
      assert v[i] == s[i + 1] && v[0] == s[1];
    }
  }

  lemma {:induction false} AllReadable(s: string)
    requires Skipped(s) && ParseAttrs(s).Some?
    ensures forall a :: a in ParseAttrs(s).value.0 ==> Readable(a.value)
    decreases |s|
  {
    hide Readable, GetQuotes, GetUntil;
    if s[0] !in ">/" {
      var (a, t) := ParseAttr(s).value;
      var (name, u) := GetUntil(s, ATTR_STOPS).value;
      if u != "" && u[0] == '=' {
        ValueReadable(Skip(u[1..]));
      } else {
        NoValueReadable();
      }
      AllReadable(t);
    }
  }

  lemma NoValueReadable()
    ensures Readable("")
  {
  }

  /** Some attributes with neither name nor value, and a value that begins with '"' */
  predicate Doomed(attrs: seq<Attr>) {
    attrs != [] && attrs[0].name == "" && if attrs[0].value == "" then Doomed(attrs[1..]) else attrs[0].value[0] == '"'
  }

  lemma {:induction false} DoomedSeen(attrs: seq<Attr>)
    ensures Doomed(attrs) <==> Nameless(attrs) && Visible(attrs)[0].value != "" && Visible(attrs)[0].value[0] == '"'
    decreases |attrs|
  {
    if attrs != [] && IsNothing(attrs[0]) {
      DoomedSeen(attrs[1..]);
    }
  }

  lemma {:induction false} SkipIndex(w: string, p: nat) returns (q: nat)
    requires p <= |w|
    ensures p <= q <= |w| && Skip(w[p..]) == w[q..]
    ensures (forall i :: p <= i < q ==> IsBlank(w[i])) && (q < |w| ==> !IsBlank(w[q]))
    decreases |w| - p
  {
    q := p;
    if p < |w| && IsBlank(w[p]) {
      assert w[p..][1..] == w[p + 1..];
      q := SkipIndex(w, p + 1);
    }
  }

  /** If no name is read, a '=' stands first, and a quoted value behind it. */
  lemma NoNameRead(s: string, e: Attr)
    requires s != "" && Skipped(s) && s[0] !in ">/" && e.name == ""
    requires ParseAttr(s).Some? && ParseAttr(s).value.0 == e
    ensures s[0] == '=' && GetQuotes(Skip(s[1..]), false) == Some((e.value, ParseAttr(s).value.1))
  {
    hide GetQuotes;
    var k := Span(s, ATTR_STOPS);
    assert s[..k] == "";
    assert s[k..] == s;
    assert Skip(s) == s;
  }

  /** A value out of '"' quotes that is empty or begins with '"' is empty. */
  lemma NothingQuoted(u: string, v: string)
    requires GetQuotes(u, false).Some? && GetQuotes(u, false).value.0 == v && u[0] == '"'
    ensures v == "" || v[0] == '"' ==> v == "" && |u| >= 2 && u[1] == '"' && GetQuotes(u, false).value.1 == Skip(u[2..])
    ensures |u| >= 2 && u[1] != '"' ==> v != "" && v[0] == u[1]
  {
    hide Run, Skip;
    var c := FindClose(u, 1, false).value;
    assert v == u[1..c];
    if c > 1 {
      assert v[0] == u[1];
    }
  }

  /** A value in its quotes, behind the first of them */
  function Closed(v: string, rest: string): (w: string)
    ensures |w| == |v| + 1 + |rest|
  {
    v + ("\"" + rest)
  }

  lemma ClosedAt(v: string, rest: string, k: nat)
    requires k < |v| + 1 + |rest|
    ensures Closed(v, rest)[k] == if k < |v| then v[k] else if k == |v| then '"' else rest[k - |v| - 1]
    ensures Closed(v, rest)[|v| + 1..] == rest
  {
  }

  /** What begins inside a value that begins with '"' and is read as an attribute of a doomed list is
      read as nothing, and out of '"' quotes. */
  lemma InsideStep(v: string, rest: string, p: nat, e: Attr, t: string) returns (next: nat)
    requires Readable(v) && v != "" && v[0] == '"' && Behind(rest)
    requires 1 <= p <= |v| && e.name == "" && (e.value == "" || e.value[0] == '"')
    requires var s := Skip(Closed(v, rest)[p..]); s != "" && s[0] !in ">/" && ParseAttr(s) == Some((e, t))
    ensures p < next <= |v| + 1 && t == Skip(Closed(v, rest)[next..]) && e.value == ""
  {
    hide Skip, ParseAttr, GetQuotes, Closed;
    var w := Closed(v, rest);
    var q := SkipIndex(w, p);
    ClosedAt(v, rest, |v|);
    ClosedAt(v, rest, q);
    NoNameRead(w[q..], e);
    assert w[q..][1..] == w[q + 1..];
    var r := SkipIndex(w, q + 1);
    ClosedAt(v, rest, r);
    ClosedAt(v, rest, r - 1);
    var u := w[r..];
    QuoteFirst(u);
    assert u[0] == w[r];
    assert u[0] == '"';
    NothingQuoted(u, e.value);
    ClosedAt(v, rest, r + 1);
    assert u[2..] == w[r + 2..] && u[1] == w[r + 1];
    next := r + 2;
  }

  lemma QuoteFirst(u: string)
    requires GetQuotes(u, false).Some?
    ensures u != "" && (u[0] == '"' || u[0] == '\'')
  {
  }

  /** A doomed list is not read from inside a value that begins with '"', nor ... */
  lemma {:induction false} DoomedInside(list: seq<Attr>, v: string, p: nat, attrs: seq<Attr>, body: string)
    requires Doomed(list) && Readable(v) && v != "" && v[0] == '"' && 1 <= p <= |v| + 1
    requires NamesOk(attrs) && BodyStart(body) && forall a :: a in attrs ==> Readable(a.value)
    ensures var r := ParseAttrs(Skip(Closed(v, AttrsText(attrs) + body)[p..])); r.Some? ==> r.value.0 != list
    decreases |attrs|, 1, |v| + 1 - p
  {
    hide Skip, ParseAttr, ParseAttrs, AttrsText, Readable, Closed;
    var rest := AttrsText(attrs) + body;
    AttrsStart(attrs, body);
    ClosedAt(v, rest, |v|);
    if p == |v| + 1 {
      DoomedOutside(list, attrs, body);
    } else {
      var s := Skip(Closed(v, rest)[p..]);
      if ParseAttrs(s).Some? && ParseAttrs(s).value.0 == list {
        RestOfList(s, list);
        var t := ParseAttr(s).value.1;
        var next := InsideStep(v, rest, p, list[0], t);
        DoomedInside(list[1..], v, next, attrs, body);
      }
    }
  }

  /** ... from the text of some attributes. */
  lemma {:induction false} DoomedOutside(list: seq<Attr>, attrs: seq<Attr>, body: string)
    requires Doomed(list)
    requires NamesOk(attrs) && BodyStart(body) && forall a :: a in attrs ==> Readable(a.value)
    ensures var r := ParseAttrs(Skip(AttrsText(attrs) + body)); r.Some? ==> r.value.0 != list
    decreases |attrs|, 0
  {
    hide Skip, ParseAttr, AttrsText, Readable, AttrThen, ParseAttrs;
    if attrs == [] {
      NoAttrs(body);
    } else {
      var a, rest := attrs[0], AttrsText(attrs[1..]) + body;
      FirstAttr(attrs, body);
      AttrsStart(attrs[1..], body);
      if IsNothing(a) {
        DoomedOutside(list, attrs[1..], body);
      } else if ParseAttrs(AttrThen(a, rest)).Some? && ParseAttrs(AttrThen(a, rest)).value.0 == list {
        var t := OutsideStep(a, rest, list);
        DoomedInside(list[1..], a.value, 1, attrs[1..], body);
      }
    }
  }

  /** Read from the text of an attribute, a doomed list begins with nothing, and its second element is read
      inside the value. */
  lemma OutsideStep(a: Attr, rest: string, list: seq<Attr>) returns (t: string)
    requires AttrNameOk(a.name) && !IsNothing(a) && Behind(rest) && Doomed(list)
    requires ParseAttrs(AttrThen(a, rest)).Some? && ParseAttrs(AttrThen(a, rest)).value.0 == list
    ensures a.name == "" && a.value != "" && a.value[0] == '"' && IsNothing(list[0])
    ensures t == Skip(Closed(a.value, rest)[1..]) && ParseAttrs(t).Some? && ParseAttrs(t).value.0 == list[1..]
  {
    hide Skip, ParseAttr, ParseAttrs, Closed, GetQuotes, AttrThen;
    var s := AttrThen(a, rest);
    AttrAnyway(a, rest);
    RestOfList(s, list);
    t := ParseAttr(s).value.1;
    QuotedStep(a.value, rest, a.name);
  }

  /** An attribute is read with its name, whatever comes of its value. */
  lemma AttrAnyway(a: Attr, rest: string)
    requires AttrNameOk(a.name) && !IsNothing(a) && Behind(rest)
    ensures var s := AttrThen(a, rest);
            && s != "" && s[0] !in ">/" && Skipped(s)
            && (a.value != "" ==> ParseAttr(s) == ParseValue(a.name, Quoted(a.value, rest)))
            && (ParseAttr(s).Some? ==> ParseAttr(s).value.0.name == a.name)
  {
    hide Skip, ParseAttr, GetQuotes, Quoted;
    if a.value == "" {
      assert ValueText(a.value) + rest == rest;
      PlainAttr(a.name, rest);
    } else {
      ValuedAttr(a, rest);
    }
  }

  /** A value from whose text a value is read that is empty or begins with '"' */
  lemma QuotedStep(v: string, rest: string, name: string)
    requires v != ""
    ensures var r := ParseValue(name, Quoted(v, rest));
            r.Some? && (r.value.0.value == "" || r.value.0.value[0] == '"') ==>
              v[0] == '"' && r.value.0.value == "" && r.value.1 == Skip(Closed(v, rest)[1..])
  {
    hide Skip, GetQuotes;
    var u := Quoted(v, rest);
    assert u[2..] == Closed(v, rest)[1..] && u[1] == v[0];
    var r := GetQuotes(u, false);
    if r.Some? {
      NothingQuoted(u, r.value.0);
    }
  }

  lemma RestOfList(s: string, list: seq<Attr>)
    requires Skipped(s) && list != [] && ParseAttrs(s).Some? && ParseAttrs(s).value.0 == list
    ensures s != "" && s[0] !in ">/" && ParseAttr(s).Some? && ParseAttr(s).value.0 == list[0]
    ensures var t := ParseAttr(s).value.1; Skipped(t) && ParseAttrs(t).Some? && ParseAttrs(t).value.0 == list[1..]
  {
    hide ParseAttr;
  }

  lemma NothingIsLost(attrs: seq<Attr>, body: string)
    requires NamesOk(attrs) && BodyStart(body) && attrs != [] && IsNothing(attrs[0])
    ensures var r := ParseAttrs(Skip(AttrsText(attrs) + body)); r.Some? ==> r.value.0 != attrs
  {
    hide Skip, ParseAttr, ParseAttrs, AttrThen, Visible, AttrsText, ParseValue, Readable;
    var s, seen := Skip(AttrsText(attrs) + body), Visible(attrs);
    VisibleText(attrs, body);
    if ParseAttrs(s).Some? && ParseAttrs(s).value.0 == attrs {
      if seen == [] {
        NoAttrs(body);
      } else {
        var a, rest := seen[0], AttrsText(seen[1..]) + body;
        FirstAttr(seen, body);
        AttrsStart(seen[1..], body);
        AttrAnyway(a, rest);
        RestOfList(s, attrs);
        QuotedStep(a.value, rest, a.name);
        DoomedSeen(attrs);
        AllReadable(s);
        DoomedOutside(attrs, attrs, body);
      }
    }
  }

  lemma ValueIsTaken(attrs: seq<Attr>, body: string)
    requires NamesOk(attrs) && BodyStart(body) && attrs != [] && attrs[0].name != "" && attrs[0].value == ""
    requires Nameless(attrs[1..])
    ensures var r := ParseAttrs(Skip(AttrsText(attrs) + body)); r.Some? ==> r.value.0 != attrs
  {
    hide Skip, ParseAttr, ParseAttrs, Visible, AttrsText, GetQuotes, Readable, Quoted, Closed;
    var a, others := attrs[0], attrs[1..];
    var rest := AttrsText(others) + body;
    var s, seen := AttrThen(a, rest), Visible(others);
    FirstAttr(attrs, body);
    AttrsStart(others, body);
    AttrAnyway(a, rest);
    if ParseAttrs(s).Some? && ParseAttrs(s).value.0 == attrs {
      var v, behind := seen[0].value, AttrsText(seen[1..]) + body;
      VisibleText(others, body);
      FirstAttr(seen, body);
      AttrsStart(seen[1..], body);
      ValueTakenFrom(a.name, rest, v, behind);
      RestOfList(s, attrs);
      QuotedStep(v, behind, a.name);
      DoomedSeen(others);
      AllReadable(s);
      AmongThem(attrs, seen);
      DoomedInside(others, v, 1, seen[1..], body);
    }
  }

  lemma AmongThem(attrs: seq<Attr>, seen: seq<Attr>)
    requires attrs != [] && seen != [] && forall a :: a in seen ==> a in attrs[1..]
    ensures seen[0] in attrs && forall a :: a in seen[1..] ==> a in attrs
  {
    assert forall a :: a in attrs[1..] ==> a in attrs;
    assert seen[0] in seen && forall a :: a in seen[1..] ==> a in seen;
  }

  /** The value behind a name without one */
  lemma ValueTakenFrom(name: string, rest: string, v: string, behind: string)
    requires AttrNameOk(name) && name != "" && Behind(rest) && v != ""
    requires Skip(rest) == AttrThen(Attr("", v), behind)
    ensures ParseAttr(AttrThen(Attr(name, ""), rest)) == ParseValue(name, Quoted(v, behind))
  {
    hide Skip, ParseAttr, GetQuotes, Quoted, ParseValue, Span;
    assert ValueText("") + rest == rest;
    PlainAttr(name, rest);
    ValueThen(v, behind);
    QuotedAt(v, behind, 0);
    assert "" + (ValueText(v) + behind) == ValueText(v) + behind;
    EqualsStays(Quoted(v, behind));
  }

  // ----- Nodes -----

  lemma NameRead(name: string, rest: string)
    requires NodeNameOk(name) && rest != "" && rest[0] in " >" && (name == "" ==> BodyStart(rest))
    ensures GetUntil(Skip(name + rest), NODE_STOPS) == Some((name, Skip(rest)))
  {
    if name == "" {
      assert name + rest == rest;
      BodyFollows(rest);
      var s := Skip(rest);
      assert s[..0] == "" && s[0..] == s;
    } else {
      UntilRead(name, rest, NODE_STOPS);
    }
  }

  /** What stands behind the name of a node, up to `rest` */
  function AfterName(n: Node, indent: nat, rest: string): string {
    AttrsText(n.attrs) + (BodyText(n, indent) + rest)
  }

  lemma BodyStarts(n: Node, indent: nat, rest: string)
    ensures BodyStart(BodyText(n, indent) + rest)
  {
  }

  lemma AfterNameStarts(n: Node, indent: nat, rest: string)
    ensures var t := AfterName(n, indent, rest); t != "" && t[0] in " >"
  {
    BodyStarts(n, indent, rest);
    AttrsStart(n.attrs, BodyText(n, indent) + rest);
  }

  lemma Pushed(c: char, name: string, rest: string)
    ensures var s := [c] + (name + rest);
            s[1..] == name + rest && (rest != "" ==> s[1] == if name != "" then name[0] else rest[0])
  {
  }

  lemma NodeLaidOut(n: Node, indent: nat, rest: string)
    requires Shaped(n)
    ensures var s := NodeText(n, indent) + rest;
            && s == ['<'] + (n.name + AfterName(n, indent, rest)) && |s| >= 2
            && s[1] != '/' && (s[1] in "?!" <==> Markup(n.name))
            && s[1..] == n.name + AfterName(n, indent, rest)
            && AfterName(n, indent, rest) != "" && AfterName(n, indent, rest)[0] in " >"
  {
    hide AttrsText, BodyText;
    AfterNameStarts(n, indent, rest);
    RegroupedBehind("<", n.name, AttrsText(n.attrs), BodyText(n, indent), rest);
    assert NodeText(n, indent) + rest == ['<'] + (n.name + AfterName(n, indent, rest));
    hide AfterName, NodeText;
    Pushed('<', n.name, AfterName(n, indent, rest));
  }

  /** The text of a body behind its '>' */
  function InBody(n: Node, indent: nat, rest: string): string {
    ChildrenText(n.children, indent) + (n.content + (CloseText(n, indent) + rest))
  }

  lemma EmptyTag(n: Node, indent: nat, rest: string)
    requires Empty(n)
    ensures var u := Skip(BodyText(n, indent) + rest); u != "" && u[0] == '/' && Expect(Skip(u[1..]), '>') == Some(Skip(rest))
  {
    var s := BodyText(n, indent) + rest;
    assert s == " />" + rest && s[1..] == "/>" + rest && s[1..][1..] == ['>'] + rest;
    ExpectRead('>', rest);
  }

  lemma OpenTag(n: Node, indent: nat, rest: string)
    requires !Empty(n)
    ensures var u := Skip(BodyText(n, indent) + rest); u != "" && u[0] == '>' && u[1..] == InBody(n, indent, rest)
  {
    assert BodyText(n, indent) + rest == ">" + InBody(n, indent, rest);
  }

  lemma EndNameRead(name: string, rest: string)
    requires NodeNameOk(name)
    ensures GetUntil(Skip(name + (">" + rest)), END_STOPS) == Some((name, ">" + rest))
  {
    var tail := ">" + rest;
    if name == "" {
      assert name + tail == tail;
    }
    assert Skip(name + tail) == name + tail;
    UntilRead(name, tail, END_STOPS);
  }

  lemma CloseRead(name: string, rest: string)
    requires NodeNameOk(name)
    ensures ParseClose("</" + (name + (">" + rest)), name) == Some(Skip(rest))
  {
    hide Skip, GetUntil, Expect, Lower;
    var tail := name + (">" + rest);
    ExpectRead('<', ['/'] + tail);
    assert "</" + tail == ['<'] + (['/'] + tail);
    SlashStays(tail);
    ExpectRead('/', tail);
    EndNameRead(name, rest);
    ExpectRead('>', rest);
    assert ">" + rest == ['>'] + rest;
  }

  lemma SlashStays(rest: string)
    ensures Skip(['/'] + rest) == ['/'] + rest
  {
  }

  lemma CloseSkipped(n: Node, indent: nat, rest: string)
    ensures Skip(CloseText(n, indent) + rest) == "</" + (n.name + (">" + rest))
  {
    var tag := "</" + (n.name + (">" + rest));
    if n.children == [] {
      assert CloseText(n, indent) + rest == tag;
    } else {
      assert CloseText(n, indent) + rest == ("\n" + Spaces(indent)) + tag;
      SkipBlanks("\n" + Spaces(indent), tag);
    }
  }

  /** Content before a closing tag: it is read as itself exactly if there are no children. */
  lemma ContentRead(n: Node, indent: nat, rest: string)
    requires ContentOk(n.content)
    ensures n.children == [] || n.content == "" ==>
              ParseContent(Skip(n.content + (CloseText(n, indent) + rest))) == Some((n.content, Skip(CloseText(n, indent) + rest)))
    ensures var r := ParseContent(Skip(n.content + (CloseText(n, indent) + rest)));
            r.Some? && r.value.0 == n.content ==> n.children == [] || n.content == ""
  {
    var close := CloseText(n, indent) + rest;
    CloseSkipped(n, indent, rest);
    if n.content == "" {
      assert n.content + close == close;
    } else if n.children == [] {
      assert close == "</" + (n.name + (">" + rest));
      UntilRead(n.content, close, "<");
    } else {
      var gap, tag := "\n" + Spaces(indent), "</" + (n.name + (">" + rest));
      assert close == gap + tag;
      assert n.content + close == (n.content + gap) + tag;
      UntilRead(n.content + gap, tag, "<");
    }
  }

  // ----- Trees -----

  predicate AllPlain(ns: seq<Node>)
    decreases ns
  {
    forall i :: 0 <= i < |ns| ==> Plain(ns[i]) && Shaped(ns[i])
  }

  predicate AllGood(ns: seq<Node>)
    decreases ns
  {
    forall i :: 0 <= i < |ns| ==> Good(ns[i])
  }

  /** No node begins here. */
  predicate NoNode(s: string) {
    s == "" || s[0] != '<' || (|s| >= 2 && s[1] == '/')
  }

  /** The first of some children, without the blanks before it */
  lemma FirstChild(children: seq<Node>, indent: nat, tail: string)
    requires children != [] && Shaped(children[0])
    ensures var rest := ChildrenText(children[1..], indent) + tail;
            var s := Skip(ChildrenText(children, indent) + tail);
            s == NodeText(children[0], indent + 1) + rest && !NoNode(s)
  {
    hide NodeText, Shaped, Plain, Skip;
    var first, rest := NodeText(children[0], indent + 1), ChildrenText(children[1..], indent) + tail;
    NodeLaidOut(children[0], indent + 1, rest);
    ChildLaidOut(Spaces(indent + 1), first, ChildrenText(children[1..], indent), tail);
    SkipBlanks("\n" + Spaces(indent + 1), first + rest);
    SkipNothing(first + rest);
  }

  lemma ChildLaidOut(spaces: string, first: string, others: string, tail: string)
    ensures ("\n" + (spaces + (first + others))) + tail == ("\n" + spaces) + (first + (others + tail))
  {
  }

  lemma SkipNothing(s: string)
    requires Skipped(s)
    ensures Skip(s) == s
  {
  }

  lemma ChildrenSplit(children: seq<Node>)
    requires children != []
    ensures AllGood(children) <==> Good(children[0]) && AllGood(children[1..])
    ensures AllPlain(children) <==> Plain(children[0]) && Shaped(children[0]) && AllPlain(children[1..])
    ensures [children[0]] + children[1..] == children
  {
    assert children == [children[0]] + children[1..];
  }

  lemma {:induction false} ChildrenRead(children: seq<Node>, indent: nat, tail: string)
    requires AllPlain(children)
    ensures AllGood(children) && NoNode(Skip(tail)) ==>
              ParseChildren(Skip(ChildrenText(children, indent) + tail)) == Some((children, Skip(tail)))
    ensures var r := ParseChildren(Skip(ChildrenText(children, indent) + tail));
            r.Some? && r.value.0 == children ==> AllGood(children) && r.value.1 == Skip(tail)
    decreases children, 0
  {
    hide NodeText, ParseNode, Good, Plain, Shaped, Skip;
    if children == [] {
      assert ChildrenText(children, indent) + tail == tail;
    } else {
      var rest := ChildrenText(children[1..], indent) + tail;
      FirstChild(children, indent, tail);
      ChildrenSplit(children);
      NodeRead(children[0], indent + 1, rest);
      ChildrenRead(children[1..], indent, tail);
    }
  }

  lemma TailHasNoNode(n: Node, indent: nat, rest: string)
    requires ContentOk(n.content)
    ensures NoNode(Skip(n.content + (CloseText(n, indent) + rest)))
  {
    CloseSkipped(n, indent, rest);
    if n.content == "" {
      assert n.content + (CloseText(n, indent) + rest) == CloseText(n, indent) + rest;
    }
  }

  lemma {:induction false} BodyRead(n: Node, indent: nat, rest: string)
    requires Plain(n) && Shaped(n)
    ensures (n.children == [] || n.content == "") && AllGood(n.children) ==>
              ParseBody(Skip(InBody(n, indent, rest)), n.name, n.attrs) == Some((n, Skip(rest)))
    ensures var r := ParseBody(Skip(InBody(n, indent, rest)), n.name, n.attrs);
            r.Some? && r.value.0 == n ==> (n.children == [] || n.content == "") && AllGood(n.children)
    decreases n, 0
  {
    hide ParseChildren, ParseContent, ParseClose, Skip, CloseText, Good, ChildrenText;
    var tail := n.content + (CloseText(n, indent) + rest);
    ChildrenRead(n.children, indent, tail);
    TailHasNoNode(n, indent, rest);
    ContentRead(n, indent, rest);
    CloseSkipped(n, indent, rest);
    CloseRead(n.name, rest);
  }

  /** Attributes behind an empty name: the first of them is taken for the name, or the tag
      seems to end. */
  lemma NoNameNoAttrs(n: Node, s: string)
    requires n.name == "" && n.attrs != [] && s != ""
    ensures ParseElement(s).Some? ==> ParseElement(s).value.0 != n
  {
    var u := Skip(s[1..]);
    if u != "" && Span(u, NODE_STOPS) == 0 {
      assert u[0..] == u;
    }
  }

  lemma {:induction false} ElementRead(n: Node, indent: nat, rest: string, s: string)
    requires Plain(n) && Shaped(n) && (n.name == "" ==> n.attrs == [])
    requires s != "" && s[1..] == n.name + AfterName(n, indent, rest)
    ensures Good(n) ==> ParseElement(s) == Some((n, Skip(rest)))
    ensures ParseElement(s).Some? && ParseElement(s).value.0 == n ==> Good(n)
    decreases n, 1
  {
    hide ParseAttrs, ParseBody, Skip, GetUntil, Expect, AttrsOk, AllGood, Good, BodyText, AttrsText, InBody;
    GoodParts(n);
    var body := BodyText(n, indent) + rest;
    BodyStarts(n, indent, rest);
    AfterNameStarts(n, indent, rest);
    NothingBefore(n, body);
    NameRead(n.name, AfterName(n, indent, rest));
    AttrsRead(n.attrs, body);
    if Empty(n) {
      EmptyTag(n, indent, rest);
    } else {
      OpenTag(n, indent, rest);
      BodyRead(n, indent, rest);
    }
  }

  lemma GoodParts(n: Node)
    ensures Good(n) <==> (n.name == "" ==> n.attrs == []) && AttrsOk(n.attrs) && (n.children == [] || n.content == "")
                         && AllGood(n.children)
    ensures n.children == [] ==> AllGood(n.children)
  {
  }

  lemma NothingBefore(n: Node, body: string)
    ensures n.attrs == [] ==> AttrsText(n.attrs) + body == body
  {
  }

  /** A printed node, in front of any text, is read as itself exactly when it is good. */
  lemma {:induction false} NodeRead(n: Node, indent: nat, rest: string)
    requires Plain(n) && Shaped(n)
    ensures Good(n) ==> ParseNode(NodeText(n, indent) + rest) == Some((n, Skip(rest)))
    ensures var r := ParseNode(NodeText(n, indent) + rest); r.Some? && r.value.0 == n ==> Good(n)
    decreases n, 2
  {
    hide ParseElement, NodeText, AfterName, Skip, Shaped;
    var s := NodeText(n, indent) + rest;
    NodeLaidOut(n, indent, rest);
    if n.name == "" && n.attrs != [] {
      NoNameNoAttrs(n, s);
    } else {
      ElementRead(n, indent, rest, s);
    }
  }

  // ----- Everything that is read is shaped -----

  lemma {:induction false} AttrsShaped(s: string)
    requires Skipped(s) && ParseAttrs(s).Some?
    ensures forall i :: 0 <= i < |ParseAttrs(s).value.0| ==> AttrNameOk(ParseAttrs(s).value.0[i].name)
    decreases |s|
  {
    if s[0] !in ">/" {
      var (a, t) := ParseAttr(s).value;
      assert a.name == s[..Span(s, ATTR_STOPS)];
      AttrsShaped(t);
    }
  }

  lemma ContentShaped(s: string)
    requires Skipped(s) && ParseContent(s).Some?
    ensures ContentOk(ParseContent(s).value.0)
  {
  }

  lemma {:induction false} NodeShaped(s: string)
    requires ParseNode(s).Some?
    ensures Shaped(ParseNode(s).value.0) && Skipped(ParseNode(s).value.1)
    decreases |s|, 1
  {
    hide ParseElement, Shaped;
    if s[1] == '?' {
      NodeShaped(SkipInstruction(s[2..]).value);
    } else if s[1] == '!' {
      NodeShaped(SkipComment(s[2..]).value);
    } else {
      ElementShaped(s);
    }
  }

  lemma {:induction false} ElementShaped(s: string)
    requires s != "" && ParseElement(s).Some?
    ensures Shaped(ParseElement(s).value.0) && Skipped(ParseElement(s).value.1)
    decreases |s|, 0
  {
    hide ParseAttrs, ParseBody, ParseChildren, ParseContent, ParseClose, Expect;
    var (name, t) := GetUntil(Skip(s[1..]), NODE_STOPS).value;
    var (attrs, u) := ParseAttrs(t).value;
    AttrsShaped(t);
    assert NodeNameOk(name);
    if u[0] != '/' {
      BodyShaped(Skip(u[1..]), name, attrs);
    }
  }

  lemma {:induction false} BodyShaped(s: string, name: string, attrs: seq<Attr>)
    requires Skipped(s) && ParseBody(s, name, attrs).Some?
    requires NodeNameOk(name) && forall i :: 0 <= i < |attrs| ==> AttrNameOk(attrs[i].name)
    ensures Shaped(ParseBody(s, name, attrs).value.0) && Skipped(ParseBody(s, name, attrs).value.1)
    decreases |s|, 3
  {
    hide ParseChildren, ParseContent;
    ChildrenShaped(s);
    ContentShaped(ParseChildren(s).value.1);
  }

  lemma {:induction false} ChildrenShaped(s: string)
    requires Skipped(s) && ParseChildren(s).Some?
    ensures forall i :: 0 <= i < |ParseChildren(s).value.0| ==> Shaped(ParseChildren(s).value.0[i])
    ensures Skipped(ParseChildren(s).value.1)
    decreases |s|, 2
  {
    hide ParseNode, Shaped;
    if !NoNode(s) {
      NodeShaped(s);
      ChildrenShaped(ParseNode(s).value.1);
    }
  }

  // ----- The round trip -----

  const DECLARATION := "xml version=\"1.0\" encoding=\"UTF-8\""

  /** What pj_xml_print prints first, if asked to */
  function Prolog(): string {
    "<?" + (DECLARATION + ("?>" + "\n"))
  }

  lemma InstructionEnd(inside: string, s: string)
    requires FreeOf(inside, "?")
    ensures SkipInstruction(inside + (['?', '>'] + s)) == Some(Skip(s))
  {
    var t := ['?', '>'] + s;
    SpanOf(inside, t, "?");
    assert (inside + t)[|inside|..] == t && t[2..] == s;
  }

  lemma InstructionSkipped(inside: string, s: string)
    requires FreeOf(inside, "?")
    ensures ParseNode(['<', '?'] + (inside + (['?', '>'] + s))) == ParseNode(Skip(s))
  {
    hide SkipInstruction, Skip, ParseElement;
    var t := inside + (['?', '>'] + s);
    assert (['<', '?'] + t)[2..] == t;
    InstructionEnd(inside, s);
  }

  lemma DeclarationIsPlain()
    ensures FreeOf(DECLARATION, "?")
  {
  }

  lemma PrologSkipped(s: string)
    requires Skipped(s)
    ensures ParseNode(Prolog() + s) == ParseNode(s) && Skip(Prolog() + s) == Prolog() + s
  {
    hide ParseNode;
    var d := DECLARATION;
    DeclarationIsPlain();
    RegroupedBehind("<?", d, "?>", "\n", s);
    InstructionSkipped(d, "\n" + s);
    SkipBlanks("\n", s);
    SkipNothing(s);
    SkipNothing(Prolog() + s);
  }

  /** A tree whose names are no markup comes back from its printed text, whatever text
      follows, exactly when it has the shape of a parsed tree and is good. */
  lemma RoundTrip(n: Node, prolog: bool, rest: string)
    requires Plain(n)
    ensures Parse((if prolog then Prolog() else "") + (NodeText(n, 0) + rest)) == Some(n) <==> Shaped(n) && Good(n)
  {
    hide NodeText, Shaped, Good, ParseElement;
    var s := NodeText(n, 0) + rest;
    NodeAlone(n, prolog, rest);
    if ParseNode(s).Some? && ParseNode(s).value.0 == n {
      NodeShaped(s);
    }
    if Shaped(n) {
      NodeRead(n, 0, rest);
    }
  }

  lemma NodeAlone(n: Node, prolog: bool, rest: string)
    ensures var s := NodeText(n, 0) + rest;
            Parse((if prolog then Prolog() else "") + s) == Some(n) <==> ParseNode(s).Some? && ParseNode(s).value.0 == n
  {
    hide NodeText, ParseNode;
    var s := NodeText(n, 0) + rest;
    StartsWithTag(n, rest);
    if prolog {
      PrologSkipped(s);
    } else {
      assert "" + s == s;
      SkipNothing(s);
    }
  }

  lemma StartsWithTag(n: Node, rest: string)
    ensures NodeText(n, 0) + rest != "" && (NodeText(n, 0) + rest)[0] == '<'
  {
  }

  function Asked(): Node { Node("?x", [], [], "") }

  lemma AskedElement(s: string)
    requires s == "< ?x/>"
    ensures ParseElement(s) == Some((Asked(), ""))
  {
    hide GetUntil, Expect, Skip;
    AskedName();
    assert s[1..] == " " + ("?x" + "/>");
    assert ParseAttrs("/>") == Some(([], "/>"));
    assert "/>"[1..] == ">";
    AskedEnd();
  }

  lemma AskedName()
    ensures GetUntil(Skip(" " + ("?x" + "/>")), NODE_STOPS) == Some(("?x", "/>"))
  {
    SkipBlanks(" ", "?x" + "/>");
    SkipNothing("?x" + "/>");
    SkipNothing("/>");
    UntilRead("?x", "/>", NODE_STOPS);
  }

  lemma AskedEnd()
    ensures Expect(Skip(">"), '>') == Some("")
  {
    SkipNothing(">");
    assert ['>'] + "" == ">";
    ExpectRead('>', "");
  }

  lemma AskedText()
    ensures NodeText(Asked(), 0) == "<?x />"
  {
    assert AttrsText([]) == "" && BodyText(Asked(), 0) == " />";
  }

  lemma AskedAlone(s: string)
    requires s == "<?x />"
    ensures Parse(s) == None
  {
    hide ParseElement, SkipInstruction;
    NoInstructionEnd("x />");
    assert s[2..] == "x />" && Skip(s) == s;
  }

  lemma AskedAgain(s: string)
    requires s == "<?x />" + "?>< ?x/>"
    ensures Parse(s) == Some(Asked())
  {
    hide ParseElement, ParseNode, Skip;
    var more := "< ?x/>";
    assert s == ['<', '?'] + ("x />" + (['?', '>'] + more));
    InstructionSkipped("x />", more);
    SkipNothing(more);
    SkipNothing(s);
    AskedElement(more);
    NoMarkup(more);
  }

  lemma NoMarkup(s: string)
    requires |s| >= 2 && s[0] == '<' && s[1] !in "?!"
    ensures ParseNode(s) == ParseElement(s)
  {
    hide ParseElement;
  }

  lemma NoInstructionEnd(s: string)
    requires FreeOf(s, "?")
    ensures SkipInstruction(s) == None
  {
    SpanOf(s, "", "?");
    assert s + "" == s;
  }

  /** A node whose name is markup is taken for an instruction, and whether it comes back is up to
      the text behind it: why the round trip is stated for the other names. */
  lemma MarkupIsNoNode()
    ensures Parse(NodeText(Asked(), 0)) == None
    ensures Parse(NodeText(Asked(), 0) + "?>< ?x/>") == Some(Asked())
  {
    hide Parse, NodeText, Asked;
    AskedText();
    AskedAlone(NodeText(Asked(), 0));
    AskedAgain(NodeText(Asked(), 0) + "?>< ?x/>");
  }
}
