/** Trees with names that are markup to the parser: printed, they begin like an instruction or a
    comment, and are passed over. Text behind the tree may hold such a node in a form that is
    read; that the tree itself never does is seen by counting. */
module XmlMarkup {
  import opened Sequences
  import opened Wrappers
  import opened XmlText
  import opened XmlRoundTrip

  // ----- What is counted -----

  /** Behind some blanks comes what a name that is markup begins with. */
  predicate Opens(s: string) {
    Skip(s) != "" && Skip(s)[0] in "?!"
  }

  /** `gt`: the last character that was no blank is a '>', or there was none. */
  function Next(gt: bool, c: char): bool {
    if IsBlank(c) then gt else c == '>'
  }

  /** How many '<' stand in the text, blanks aside, between a '>' and a '?' or '!' */
  function Openings(s: string, gt: bool): nat {
    if s == "" then 0
    else (if gt && s[0] == '<' && Opens(s[1..]) then 1 else 0) + Openings(s[1..], Next(gt, s[0]))
  }

  function One(b: bool): nat {
    if b then 1 else 0
  }

  function InValues(attrs: seq<Attr>): nat {
    if attrs == [] then 0 else Openings(attrs[0].value, false) + InValues(attrs[1..])
  }

  /** As many as the text must hold from which the node is read */
  function Need(n: Node): nat
    decreases n, 1
  {
    One(Markup(n.name)) + InValues(n.attrs) + NeedAll(n.children)
  }

  function NeedAll(ns: seq<Node>): nat
    decreases ns
  {
    if ns == [] then 0 else Need(ns[0]) + NeedAll(ns[1..])
  }

  // ----- Counting in pieces -----

  lemma {:induction false} MoreBehindTag(s: string)
    ensures Openings(s, false) <= Openings(s, true)
    decreases |s|
  {
    if s != "" {
      MoreBehindTag(s[1..]);
    }
  }

  lemma {:induction false} BlanksCountNot(s: string, gt: bool)
    ensures Openings(Skip(s), gt) == Openings(s, gt)
    decreases |s|
  {
    if s != "" && IsBlank(s[0]) {
      BlanksCountNot(s[1..], gt);
    }
  }

  lemma AtLeast(s: string, gt: bool)
    ensures Openings(s, gt) >= Openings(s, false)
  {
    MoreBehindTag(s);
  }

  lemma {:induction false} Dropped(s: string, gt: bool, k: nat)
    requires k <= |s|
    ensures Openings(s, gt) >= Openings(s[k..], false)
    decreases k
  {
    if k == 0 {
      assert s[0..] == s;
      AtLeast(s, gt);
    } else {
      assert s[1..][k - 1..] == s[k..];
      Dropped(s[1..], Next(gt, s[0]), k - 1);
    }
  }

  /** The text behind a '>' */
  lemma {:induction false} TagDropped(s: string, gt: bool, k: nat)
    requires 0 < k <= |s| && s[k - 1] == '>'
    ensures Openings(s, gt) >= Openings(s[k..], true)
    decreases k
  {
    if k > 1 {
      assert s[1..][k - 1..] == s[k..];
      TagDropped(s[1..], Next(gt, s[0]), k - 1);
    }
  }

  lemma OpensStill(s: string, r: string)
    ensures Opens(s) ==> Opens(s + r)
    ensures !Opens(r) ==> (Opens(s + r) ==> Opens(s))
    decreases |s|
  {
    if s == "" {
      assert s + r == r;
    } else {
      assert (s + r)[1..] == s[1..] + r;
      OpensStill(s[1..], r);
    }
  }

  /** Two texts hold at least as many together as each for itself ... */
  lemma {:induction false} Together(s: string, r: string, gt: bool)
    ensures Openings(s + r, gt) >= Openings(s, gt) + Openings(r, false)
    decreases |s|
  {
    if s == "" {
      assert s + r == r;
      AtLeast(r, gt);
    } else {
      assert (s + r)[1..] == s[1..] + r;
      OpensStill(s[1..], r);
      Together(s[1..], r, Next(gt, s[0]));
    }
  }

  /** ... and not more, if the second begins with a quote. */
  lemma {:induction false} QuoteBetween(s: string, r: string, gt: bool)
    ensures Openings(s + ("\"" + r), gt) == Openings(s, gt) + Openings(r, false)
    decreases |s|
  {
    var q := "\"" + r;
    assert q[0] == '"' && q[1..] == r;
    if s == "" {
      assert s + q == q && !Next(gt, q[0]);
      assert Openings(q, gt) == Openings(r, false) && Openings(s, gt) == 0;
    } else {
      assert (s + q)[1..] == s[1..] + q;
      OpensStill(s[1..], q);
      QuoteBetween(s[1..], r, Next(gt, s[0]));
    }
  }

  /** No '>' in front of it, and none in it */
  lemma {:induction false} NamesCountNot(s: string, r: string)
    requires FreeOf(s, ">")
    ensures Openings(s + r, false) == Openings(r, false)
    decreases |s|
  {
    if s == "" {
      assert s + r == r;
    } else {
      assert (s + r)[1..] == s[1..] + r;
      NamesCountNot(s[1..], r);
    }
  }

  lemma {:induction false} ContentCountsNot(s: string, r: string, gt: bool)
    requires FreeOf(s, "<")
    ensures Openings(s + r, gt) <= Openings(r, true)
    decreases |s|
  {
    if s == "" {
      assert s + r == r;
      MoreBehindTag(r);
    } else {
      assert (s + r)[1..] == s[1..] + r;
      ContentCountsNot(s[1..], r, Next(gt, s[0]));
    }
  }

  // ----- Reading takes as many as are needed -----

  /** A node without a name has no attributes. */
  predicate Headed(n: Node)
    decreases n
  {
    (n.name == "" ==> n.attrs == []) && forall i :: 0 <= i < |n.children| ==> Headed(n.children[i])
  }

  lemma UntilCost(s: string, stops: string, gt: bool)
    requires GetUntil(s, stops).Some?
    ensures Openings(s, gt) >= Openings(GetUntil(s, stops).value.1, false)
  {
    var k := Span(s, stops);
    Dropped(s, gt, k);
    BlanksCountNot(s[k..], false);
  }

  lemma ExpectCost(s: string, c: char, gt: bool)
    requires Expect(s, c).Some?
    ensures Openings(s, gt) >= Openings(Expect(s, c).value, c == '>')
  {
    Dropped(s, gt, 1);
    if c == '>' {
      TagDropped(s, gt, 1);
    }
    BlanksCountNot(s[1..], c == '>');
  }

  lemma QuotesCost(s: string, gt: bool)
    requires GetQuotes(s, false).Some?
    ensures var (v, t) := GetQuotes(s, false).value; Openings(s, gt) >= Openings(v, false) + Openings(t, false)
  {
    hide FindClose, Opens;
    var c := FindClose(s, 1, false).value;
    var v, rest := s[1..c], s[c..];
    assert s[1..] == v + rest;
    Together(v, rest, false);
    Dropped(s, gt, 1);
    Dropped(rest, false, 1);
    assert rest[1..] == s[c + 1..];
    BlanksCountNot(s[c + 1..], false);
  }

  lemma AttrCost(s: string)
    requires Skipped(s) && ParseAttr(s).Some?
    ensures Openings(s, false) >= Openings(ParseAttr(s).value.0.value, false) + Openings(ParseAttr(s).value.1, false)
  {
    hide GetUntil, GetQuotes;
    UntilCost(s, ATTR_STOPS, false);
    var t := GetUntil(s, ATTR_STOPS).value.1;
    if t != "" && t[0] == '=' {
      Dropped(t, false, 1);
      BlanksCountNot(t[1..], false);
      QuotesCost(Skip(t[1..]), false);
    }
  }

  lemma {:induction false} AttrsCost(s: string)
    requires Skipped(s) && ParseAttrs(s).Some?
    ensures Openings(s, false) >= InValues(ParseAttrs(s).value.0) + Openings(ParseAttrs(s).value.1, false)
    decreases |s|
  {
    hide ParseAttr;
    if s[0] !in ">/" {
      var (a, t) := ParseAttr(s).value;
      AttrCost(s);
      AttrsCost(t);
      assert ([a] + ParseAttrs(t).value.0)[1..] == ParseAttrs(t).value.0;
    }
  }

  lemma {:induction false} InstructionCost(s: string, gt: bool)
    requires SkipInstruction(s).Some?
    ensures Openings(s, gt) >= Openings(SkipInstruction(s).value, true)
    decreases |s|
  {
    var t := s[Span(s, "?")..];
    Dropped(s, gt, Span(s, "?"));
    if |t| >= 2 && t[1] == '>' {
      TagDropped(t, false, 2);
      BlanksCountNot(t[2..], true);
    } else {
      Dropped(t, false, 1);
      InstructionCost(t[1..], false);
    }
  }

  lemma CommentCost(s: string, gt: bool)
    requires SkipComment(s).Some?
    ensures Openings(s, gt) >= Openings(SkipComment(s).value, true)
  {
    var t := s[Span(s, ">")..];
    Dropped(s, gt, Span(s, ">"));
    TagDropped(t, false, 1);
    BlanksCountNot(t[1..], true);
  }

  /** What is passed over to get to a node counts, too. */
  predicate PassesOver(s: string) {
    |s| >= 2 && s[1] in "?!"
  }

  lemma MarkupCounts(s: string)
    requires |s| >= 2 && s[0] == '<' && s[1] in "?!"
    ensures Openings(s, true) >= 1 + Openings(s[2..], false)
  {
    assert Skip(s[1..]) == s[1..];
    Dropped(s[1..], false, 1);
    assert s[1..][1..] == s[2..];
  }

  lemma {:induction false} NodeCost(s: string)
    requires ParseNode(s).Some?
    ensures Headed(ParseNode(s).value.0)
    ensures Openings(s, true) >= Need(ParseNode(s).value.0) + Openings(ParseNode(s).value.1, true) + One(PassesOver(s))
    decreases |s|, 1
  {
    hide ParseElement, Headed, Need, SkipInstruction, SkipComment, Opens, Openings;
    if s[1] == '?' {
      MarkupCounts(s);
      InstructionCost(s[2..], false);
      NodeCost(SkipInstruction(s[2..]).value);
    } else if s[1] == '!' {
      MarkupCounts(s);
      CommentCost(s[2..], false);
      NodeCost(SkipComment(s[2..]).value);
    } else {
      ElementCost(s);
    }
  }

  /** A name that is markup is read behind a '<' that counts. */
  lemma NameCost(s: string)
    requires s != "" && s[0] == '<' && GetUntil(Skip(s[1..]), NODE_STOPS).Some?
    ensures var (name, t) := GetUntil(Skip(s[1..]), NODE_STOPS).value; Openings(s, true) >= One(Markup(name)) + Openings(t, false)
  {
    var u := Skip(s[1..]);
    UntilCost(u, NODE_STOPS, false);
    BlanksCountNot(s[1..], false);
    var name := u[..Span(u, NODE_STOPS)];
    assert name != "" ==> name[0] == u[0];
  }

  lemma {:induction false} ElementCost(s: string)
    requires s != "" && s[0] == '<' && ParseElement(s).Some?
    ensures Headed(ParseElement(s).value.0)
    ensures Openings(s, true) >= Need(ParseElement(s).value.0) + Openings(ParseElement(s).value.1, true)
    decreases |s|, 0
  {
    hide ParseAttrs, ParseBody, Expect, GetUntil, Opens, Openings, Skip;
    var (name, t) := GetUntil(Skip(s[1..]), NODE_STOPS).value;
    UntilSkipped(Skip(s[1..]));
    NameCost(s);
    AttrsCost(t);
    var n := ParseElement(s).value.0;
    if n.name == "" && n.attrs != [] {
      NoNameNoAttrs(n, s);
    }
    var (attrs, u) := ParseAttrs(t).value;
    if u[0] == '/' {
      Dropped(u, false, 1);
      BlanksCountNot(u[1..], false);
      ExpectCost(Skip(u[1..]), '>', false);
    } else {
      TagDropped(u, false, 1);
      BlanksCountNot(u[1..], true);
      BodyCost(Skip(u[1..]), name, attrs);
    }
  }

  lemma UntilSkipped(s: string)
    ensures GetUntil(s, NODE_STOPS).Some? ==> var t := GetUntil(s, NODE_STOPS).value.1; Skipped(t) && |t| <= |s|
  {
  }

  lemma {:induction false} BodyCost(s: string, name: string, attrs: seq<Attr>)
    requires ParseBody(s, name, attrs).Some?
    ensures var (n, t) := ParseBody(s, name, attrs).value;
            && Openings(s, true) >= NeedAll(n.children) + Openings(t, true)
            && forall i :: 0 <= i < |n.children| ==> Headed(n.children[i])
    decreases |s|, 3
  {
    hide ParseChildren, GetUntil, Openings, Opens, Headed, Expect, Lower;
    ChildrenCost(s);
    var t := ParseChildren(s).value.1;
    var u := ParseContent(t).value.1;
    if t != "" && t[0] != '<' {
      UntilCost(t, "<", true);
    } else {
      AtLeast(t, true);
    }
    CloseCost(u, name);
  }

  lemma CloseCost(s: string, name: string)
    requires ParseClose(s, name).Some?
    ensures Openings(s, false) >= Openings(ParseClose(s, name).value, true)
  {
    hide GetUntil, Openings, Expect, Lower;
    ExpectCost(s, '<', false);
    var t := Expect(s, '<').value;
    ExpectCost(t, '/', false);
    var u := Expect(t, '/').value;
    UntilCost(u, END_STOPS, false);
    ExpectCost(GetUntil(u, END_STOPS).value.1, '>', false);
  }

  lemma {:induction false} ChildrenCost(s: string)
    requires ParseChildren(s).Some?
    ensures var (ns, t) := ParseChildren(s).value;
            && Openings(s, true) >= NeedAll(ns) + Openings(t, true)
            && forall i :: 0 <= i < |ns| ==> Headed(ns[i])
    decreases |s|, 2
  {
    hide ParseNode, Openings, Opens, Headed, Need;
    if !NoNode(s) {
      var (n, t) := ParseNode(s).value;
      NodeCost(s);
      ChildrenCost(t);
      assert ([n] + ParseChildren(t).value.0)[1..] == ParseChildren(t).value.0;
    }
  }

  // ----- A printed tree holds no more -----

  lemma {:induction false} AttrsHold(attrs: seq<Attr>, r: string)
    requires NamesOk(attrs)
    ensures Openings(AttrsText(attrs) + r, false) == InValues(attrs) + Openings(r, false)
    decreases |attrs|
  {
    hide Openings, Opens;
    if attrs == [] {
      assert AttrsText(attrs) + r == r;
    } else {
      var a, others := attrs[0], AttrsText(attrs[1..]) + r;
      AttrsHold(attrs[1..], r);
      AttrHolds(a, others);
      Laid(a, AttrsText(attrs[1..]), r);
    }
  }

  lemma AttrHolds(a: Attr, r: string)
    requires AttrNameOk(a.name)
    ensures Openings(" " + AttrThen(a, r), false) == Openings(a.value, false) + Openings(r, false)
  {
    hide Openings, Opens;
    NamesCountNot(" ", AttrThen(a, r));
    NamesCountNot(a.name, ValueText(a.value) + r);
    if a.value == "" {
      NothingHolds(a.value);
      assert ValueText(a.value) + r == r;
    } else {
      assert ValueText(a.value) + r == "=\"" + (a.value + ("\"" + r));
      NamesCountNot("=\"", a.value + ("\"" + r));
      QuoteBetween(a.value, r, false);
    }
  }

  lemma NothingHolds(none: string)
    requires none == ""
    ensures Openings(none, false) == 0
  {
  }

  /** The end of a tag */
  lemma TagEndHolds(r: string)
    ensures Openings(">" + r, false) == Openings(r, true) && Openings(" />" + r, false) == Openings(r, true)
  {
    assert (">" + r)[1..] == r;
    assert (" />" + r)[1..] == "/>" + r && ("/>" + r)[1..] == ">" + r;
  }

  lemma CloseHolds(n: Node, indent: nat, r: string)
    requires NodeNameOk(n.name)
    ensures Openings(CloseText(n, indent) + r, true) == Openings(r, true)
  {
    hide Openings, Opens;
    var tag := n.name + (">" + r);
    CloseSkipped(n, indent, r);
    BlanksCountNot(CloseText(n, indent) + r, true);
    SlashHolds(tag);
    NamesCountNot(n.name, ">" + r);
    TagEndHolds(r);
    assert "</" + tag == ['<', '/'] + tag;
  }

  lemma SlashHolds(r: string)
    ensures Openings(['<', '/'] + r, true) == Openings(r, false)
  {
    var s := ['<', '/'] + r;
    assert s[1..] == ['/'] + r && s[1..][1..] == r;
    SlashStays(r);
  }

  /** The beginning of a tag */
  lemma NameHolds(name: string, r: string)
    requires NodeNameOk(name) && (name == "" ==> !Opens(r))
    ensures Openings(['<'] + (name + r), true) == One(Markup(name)) + Openings(r, false)
  {
    var s := ['<'] + (name + r);
    assert s[1..] == name + r;
    NamesCountNot(name, r);
    if name == "" {
      assert name + r == r;
    } else {
      assert Skip(name + r) == name + r;
    }
  }

  lemma {:induction false} NodeHolds(n: Node, indent: nat, rest: string)
    requires Shaped(n) && Headed(n)
    ensures Openings(NodeText(n, indent) + rest, true) <= Need(n) + Openings(rest, true)
    decreases n, 1
  {
    hide Openings, Opens, NodeText, BodyText, AttrsText;
    var body := BodyText(n, indent) + rest;
    NodeLaidOut(n, indent, rest);
    BodyOpensNot(n, indent, rest);
    NothingBefore(n, body);
    NameHolds(n.name, AfterName(n, indent, rest));
    AttrsHold(n.attrs, body);
    BodyHolds(n, indent, rest);
  }

  lemma BodyOpensNot(n: Node, indent: nat, rest: string)
    ensures !Opens(BodyText(n, indent) + rest)
  {
    BodyStarts(n, indent, rest);
    BodyFollows(BodyText(n, indent) + rest);
  }

  lemma {:induction false} BodyHolds(n: Node, indent: nat, rest: string)
    requires Shaped(n) && Headed(n)
    ensures Openings(BodyText(n, indent) + rest, false) <= NeedAll(n.children) + Openings(rest, true)
    decreases n, 0
  {
    hide Openings, Opens, ChildrenText, CloseText;
    TagEndHolds(rest);
    if !Empty(n) {
      var close := CloseText(n, indent) + rest;
      CloseHolds(n, indent, rest);
      ContentCountsNot(n.content, close, true);
      ChildrenHold(n.children, indent, n.content + close);
      TagEndHolds(InBody(n, indent, rest));
      assert BodyText(n, indent) + rest == ">" + InBody(n, indent, rest);
    }
  }

  lemma {:induction false} ChildrenHold(children: seq<Node>, indent: nat, tail: string)
    requires forall i :: 0 <= i < |children| ==> Shaped(children[i]) && Headed(children[i])
    ensures Openings(ChildrenText(children, indent) + tail, true) <= NeedAll(children) + Openings(tail, true)
    decreases children, 0
  {
    hide Openings, Opens, NodeText, Shaped, Headed, Need;
    if children == [] {
      assert ChildrenText(children, indent) + tail == tail;
    } else {
      var rest := ChildrenText(children[1..], indent) + tail;
      FirstChild(children, indent, tail);
      BlanksCountNot(ChildrenText(children, indent) + tail, true);
      NodeHolds(children[0], indent + 1, rest);
      ChildrenHold(children[1..], indent, tail);
    }
  }

  // ----- A tree with markup for names is read at the cost of one more -----

  lemma {:induction false} MarkupNodeCost(n: Node, indent: nat, rest: string)
    requires Shaped(n) && !Plain(n)
    requires var r := ParseNode(NodeText(n, indent) + rest); r.Some? && r.value.0 == n
    ensures var s := NodeText(n, indent) + rest; Openings(s, true) >= Need(n) + 1 + Openings(ParseNode(s).value.1, true)
    decreases n, 2
  {
    hide Openings, Opens, NodeText, ParseElement, Plain, Shaped, AfterName;
    var s := NodeText(n, indent) + rest;
    NodeLaidOut(n, indent, rest);
    if Markup(n.name) {
      NodeCost(s);
    } else {
      NoMarkup(s);
      MarkupElementCost(n, indent, rest, s);
    }
  }

  lemma {:induction false} MarkupElementCost(n: Node, indent: nat, rest: string, s: string)
    requires Shaped(n) && !Plain(n) && !Markup(n.name)
    requires s != "" && s[0] == '<' && s[1..] == n.name + AfterName(n, indent, rest)
    requires ParseElement(s).Some? && ParseElement(s).value.0 == n
    ensures Openings(s, true) >= Need(n) + 1 + Openings(ParseElement(s).value.1, true)
    decreases n, 1
  {
    hide Openings, Opens, Skip, GetUntil, ParseAttrs, ParseBody, Expect, BodyText, AttrsText, AttrsOk, InBody;
    if n.name == "" && n.attrs != [] {
      NoNameNoAttrs(n, s);
      assert false;
    }
    var body := BodyText(n, indent) + rest;
    BodyStarts(n, indent, rest);
    AfterNameStarts(n, indent, rest);
    NothingBefore(n, body);
    NameRead(n.name, AfterName(n, indent, rest));
    AttrsRead(n.attrs, body);
    NameCost(s);
    AttrsCost(Skip(AfterName(n, indent, rest)));
    OpenTag(n, indent, rest);
    var u := Skip(body);
    TagDropped(u, false, 1);
    BlanksCountNot(u[1..], true);
    MarkupBodyCost(n, indent, rest);
  }

  lemma {:induction false} MarkupBodyCost(n: Node, indent: nat, rest: string)
    requires Shaped(n) && !Plain(n) && !Markup(n.name)
    requires var r := ParseBody(Skip(InBody(n, indent, rest)), n.name, n.attrs); r.Some? && r.value.0 == n
    ensures var s := Skip(InBody(n, indent, rest));
            Openings(s, true) >= NeedAll(n.children) + 1 + Openings(ParseBody(s, n.name, n.attrs).value.1, true)
    decreases n, 0
  {
    hide Openings, Opens, ParseChildren, GetUntil, Expect, Lower, ParseClose, Skip;
    var s := Skip(InBody(n, indent, rest));
    MarkupChildrenCost(n.children, indent, n.content + (CloseText(n, indent) + rest));
    var t := ParseChildren(s).value.1;
    if t != "" && t[0] != '<' {
      UntilCost(t, "<", true);
    } else {
      AtLeast(t, true);
    }
    CloseCost(ParseContent(t).value.1, n.name);
  }

  lemma {:induction false} MarkupChildrenCost(children: seq<Node>, indent: nat, tail: string)
    requires forall i :: 0 <= i < |children| ==> Shaped(children[i])
    requires exists i :: 0 <= i < |children| && !Plain(children[i])
    requires var r := ParseChildren(Skip(ChildrenText(children, indent) + tail)); r.Some? && r.value.0 == children
    ensures var s := Skip(ChildrenText(children, indent) + tail);
            Openings(s, true) >= NeedAll(children) + 1 + Openings(ParseChildren(s).value.1, true)
    decreases children, 0
  {
    hide Openings, Opens, NodeText, ParseNode, Good, Plain, Shaped, Skip, Need;
    var s, rest := Skip(ChildrenText(children, indent) + tail), ChildrenText(children[1..], indent) + tail;
    FirstChild(children, indent, tail);
    var (n, t) := ParseNode(s).value;
    assert ([n] + ParseChildren(t).value.0)[1..] == ParseChildren(t).value.0;
    NodeCost(s);
    ChildrenCost(t);
    if Plain(children[0]) {
      NodeRead(children[0], indent + 1, rest);
      MarkupChildrenCost(children[1..], indent, tail);
    } else {
      MarkupNodeCost(children[0], indent + 1, rest);
    }
  }

  // ----- The round trip of any tree -----

  /** If no such node opens in the text behind it, a tree comes back from its printed text exactly
      when its names are no markup, it has the shape of a parsed tree, and is good. */
  lemma AnyRoundTrip(n: Node, prolog: bool, rest: string)
    requires Openings(rest, true) == 0
    ensures Parse((if prolog then Prolog() else "") + (NodeText(n, 0) + rest)) == Some(n) <==> Plain(n) && Shaped(n) && Good(n)
  {
    hide Openings, Opens, NodeText, Plain, Shaped, Good, ParseNode;
    var s := NodeText(n, 0) + rest;
    if Plain(n) {
      RoundTrip(n, prolog, rest);
    } else {
      NodeAlone(n, prolog, rest);
      if ParseNode(s).Some? && ParseNode(s).value.0 == n {
        NodeShaped(s);
        NodeCost(s);
        NodeHolds(n, 0, rest);
        MarkupNodeCost(n, 0, rest);
      }
    }
  }
}
