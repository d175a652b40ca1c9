/** xml.c as it runs: the parser on a scanner, the printer into a buffer. */
module Xml {
  import opened Sequences
  import opened Buffers
  import opened Wrappers
  import opened XmlText
  import opened XmlRoundTrip
  import opened XmlMarkup
  import opened TextScanner

  // ----- Parsing -----

  /** pj_scan_advance_n */
  method Advance(sc: Scanner, n: nat, skip: bool) returns (ok: bool)
    requires sc.Valid()
    modifies sc
    ensures sc.Valid() && sc.pos >= old(sc.pos) && ok == (n <= |old(sc.Left())|)
    ensures ok ==> sc.Left() == if skip then Skip(old(sc.Left())[n..]) else old(sc.Left())[n..]
  {
    if sc.pos + n > |sc.text| {
      return false;
    }
    assert sc.Left()[n..] == sc.text[sc.pos + n..];
    sc.pos := sc.pos + n;
    if skip {
      sc.SkipIfBlank();
    }
    ok := true;
  }

  /** What pj_scan_get_until_ch leaves in front of the scanner, if no blank can stand there */
  lemma UntilLeaves(s: string, stop: char)
    requires s != "" && !IsBlank(stop)
    ensures GetUntil(s, [stop]) == Some((s[..Span(s, [stop])], s[Span(s, [stop])..]))
  {
    var t := s[Span(s, [stop])..];
    assert t != "" ==> t[0] == stop;
  }

  /** The loop over a processing instruction, from behind its "<?" */
  method PassInstruction(sc: Scanner) returns (ok: bool)
    requires sc.Valid()
    modifies sc
    ensures sc.Valid() && sc.pos >= old(sc.pos)
    ensures match SkipInstruction(old(sc.Left())) case Some(t) => ok && sc.Left() == t case None => !ok
  {
    hide Skip, Span, GetUntil;
    while true
      invariant sc.Valid() && sc.pos >= old(sc.pos)
      invariant SkipInstruction(sc.Left()) == SkipInstruction(old(sc.Left()))
      decreases |sc.text| - sc.pos
    {
      if sc.Left() != "" {
        UntilLeaves(sc.Left(), '?');
      }
      var dummy := sc.GetUntil("?");
      if dummy == None {
        return false;
      }
      if sc.Peek(sc.pos) == '?' && sc.Peek(sc.pos + 1) == '>' {
        ok := Advance(sc, 2, true);
        return;
      }
      ok := Advance(sc, 1, false);
      if !ok {
        return;
      }
    }
  }

  /** The loop over a comment, from behind its "<!" */
  method PassComment(sc: Scanner) returns (ok: bool)
    requires sc.Valid()
    modifies sc
    ensures sc.Valid() && sc.pos >= old(sc.pos)
    ensures match SkipComment(old(sc.Left())) case Some(t) => ok && sc.Left() == t case None => !ok
  {
    hide Skip, Span, GetUntil;
    if sc.Left() != "" {
      UntilLeaves(sc.Left(), '>');
    }
    var dummy := sc.GetUntil(">");
    if dummy == None || sc.pos + 1 > |sc.text| {
      return false;
    }
    // It can only be the '>' that the scanner stands at: the source loops, but never twice.
    ok := Advance(sc, 1, true);
  }

  /** A required character */
  method Eat(sc: Scanner, c: char) returns (ok: bool)
    requires sc.Valid()
    modifies sc
    ensures sc.Valid() && sc.pos >= old(sc.pos)
    ensures match Expect(old(sc.Left()), c) case Some(t) => ok && sc.Left() == t case None => !ok
  {
    var got := sc.GetChar();
    ok := got == Some(c);
  }

  method ParseAttribute(sc: Scanner) returns (a: Option<Attr>)
    requires sc.Valid() && sc.pos > 0 && Skipped(sc.Left())
    modifies sc
    ensures sc.Valid() && sc.pos >= old(sc.pos)
    ensures match ParseAttr(old(sc.Left())) case Some((x, t)) => a == Some(x) && sc.Left() == t case None => a == None
  {
    hide Skip, Span, XmlText.GetUntil, FindClose;
    var name := sc.GetUntil(ATTR_STOPS);
    if name == None {
      return None;
    }
    var value: Option<string> := Some("");
    if sc.Peek(sc.pos) == '=' {
      var equals := sc.GetChar();
      value := sc.GetQuotes();
    }
    if value == None {
      return None;
    }
    a := Some(Attr(name.value, value.value));
  }

  function Joined<T>(front: seq<T>, r: Option<(seq<T>, string)>): Option<(seq<T>, string)> {
    match r
    case None => None
    case Some((back, end)) => Some((front + back, end))
  }

  lemma JoinedTwice<T>(front: seq<T>, x: T, r: Option<(seq<T>, string)>)
    ensures Joined(front, Joined([x], r)) == Joined(front + [x], r)
  {
    if r.Some? {
      assert front + ([x] + r.value.0) == (front + [x]) + r.value.0;
    }
  }

  lemma JoinedEmpty<T>(r: Option<(seq<T>, string)>)
    ensures Joined([], r) == r
    ensures r.Some? ==> Joined(r.value.0, Some(([], r.value.1))) == r
  {
    if r.Some? {
      var none: seq<T> := [];
      assert none + r.value.0 == r.value.0 && r.value.0 + none == r.value.0;
    }
  }

  lemma AttrsRound(s: string)
    requires Skipped(s) && !(s != "" && s[0] in ">/")
    ensures match ParseAttr(s) case None => ParseAttrs(s) == None
                               case Some((a, t)) => ParseAttrs(s) == Joined([a], ParseAttrs(t)) && |t| < |s|
  {
  }

  /** The loop over the attributes */
  method ParseAttributes(sc: Scanner) returns (attrs: Option<seq<Attr>>)
    requires sc.Valid() && sc.pos > 0 && Skipped(sc.Left())
    modifies sc
    ensures sc.Valid() && sc.pos >= old(sc.pos)
    ensures match ParseAttrs(old(sc.Left())) case Some((x, t)) => attrs == Some(x) && sc.Left() == t case None => attrs == None
  {
    hide ParseAttr, ParseAttrs;
    var list: seq<Attr> := [];
    JoinedEmpty(ParseAttrs(sc.Left()));
    while sc.Peek(sc.pos) != '>' && sc.Peek(sc.pos) != '/'
      invariant sc.Valid() && sc.pos >= old(sc.pos) && Skipped(sc.Left())
      invariant ParseAttrs(old(sc.Left())) == Joined(list, ParseAttrs(sc.Left()))
      decreases |sc.Left()|
    {
      AttrsRound(sc.Left());
      ghost var after := ParseAttr(sc.Left());
      var a := ParseAttribute(sc);
      if a == None {
        return None;
      }
      JoinedTwice(list, a.value, ParseAttrs(sc.Left()));
      list := list + [a.value];
    }
    AttrsEnd(sc.Left());
    JoinedEmpty(Some((list, sc.Left())));
    attrs := Some(list);
  }

  lemma AttrsEnd(s: string)
    requires Skipped(s) && s != "" && s[0] in ">/"
    ensures ParseAttrs(s) == Some(([], s))
  {
  }

  method ParseText(sc: Scanner) returns (content: Option<string>)
    requires sc.Valid()
    modifies sc
    ensures sc.Valid() && sc.pos >= old(sc.pos)
    ensures match ParseContent(old(sc.Left())) case Some((x, t)) => content == Some(x) && sc.Left() == t case None => content == None
  {
    if sc.pos < |sc.text| && sc.Peek(sc.pos) != '<' {
      content := sc.GetUntil("<");
    } else {
      content := Some("");
    }
  }

  /** The closing tag of the node called `name` */
  method ParseClosingTag(sc: Scanner, name: string) returns (ok: bool)
    requires sc.Valid()
    modifies sc
    ensures sc.Valid() && sc.pos >= old(sc.pos)
    ensures match ParseClose(old(sc.Left()), name) case Some(t) => ok && sc.Left() == t case None => !ok
  {
    hide Expect, XmlText.GetUntil;
    ok := Eat(sc, '<');
    if ok {
      ok := Eat(sc, '/');
    }
    if !ok {
      return;
    }
    var end := sc.GetUntil(END_STOPS);
    if end == None || !SameName(name, end.value) {
      return false;
    }
    ok := Eat(sc, '>');
  }

  /** xml_parse_node. None is the exception that the source throws; it ends on every text. */
  method ParseTree(sc: Scanner) returns (n: Option<Node>)
    requires sc.Valid()
    modifies sc
    ensures sc.Valid() && sc.pos >= old(sc.pos)
    ensures match ParseNode(old(sc.Left())) case Some((x, t)) => n == Some(x) && sc.Left() == t case None => n == None
    decreases |sc.text| - sc.pos, 1
  {
    hide ParseElement, SkipInstruction, SkipComment;
    if sc.Peek(sc.pos) != '<' || sc.pos + 2 > |sc.text| {
      return None;
    }
    var instruction, comment := sc.Peek(sc.pos + 1) == '?', sc.Peek(sc.pos + 1) == '!';
    if instruction || comment {
      var ok := Advance(sc, 2, false);
      if instruction {
        ok := PassInstruction(sc);
      } else {
        ok := PassComment(sc);
      }
      if !ok {
        return None;
      }
      n := ParseTree(sc);
      return;
    }
    n := ParseTag(sc);
  }

  method ParseTag(sc: Scanner) returns (n: Option<Node>)
    requires sc.Valid() && sc.pos < |sc.text| && sc.text[sc.pos] == '<'
    modifies sc
    ensures sc.Valid() && sc.pos >= old(sc.pos)
    ensures match ParseElement(old(sc.Left())) case Some((x, t)) => n == Some(x) && sc.Left() == t case None => n == None
    decreases |sc.text| - sc.pos, 0
  {
    hide Skip, XmlText.GetUntil, ParseAttrs, ParseBody;
    var open := sc.GetChar();
    var name := sc.GetUntil(NODE_STOPS);
    if name == None {
      return None;
    }
    UntilSkips(old(sc.Left())[1..]);
    var attrs := ParseAttributes(sc);
    if attrs == None {
      return None;
    }
    if sc.Peek(sc.pos) == '/' {
      var slash := sc.GetChar();
      var ok := Eat(sc, '>');
      return if ok then Some(Node(name.value, attrs.value, [], "")) else None;
    }
    var bracket := sc.GetChar();
    n := ParseInside(sc, name.value, attrs.value);
  }

  lemma UntilSkips(s: string)
    ensures var r := GetUntil(Skip(s), NODE_STOPS); r.Some? ==> Skipped(r.value.1)
  {
  }

  /** The children, the content, and the closing tag */
  method ParseInside(sc: Scanner, name: string, attrs: seq<Attr>) returns (n: Option<Node>)
    requires sc.Valid()
    modifies sc
    ensures sc.Valid() && sc.pos >= old(sc.pos)
    ensures match ParseBody(old(sc.Left()), name, attrs) case Some((x, t)) => n == Some(x) && sc.Left() == t case None => n == None
    decreases |sc.text| - sc.pos, 3
  {
    hide ParseChildren, ParseContent, ParseClose;
    var children := ParseChildNodes(sc);
    if children == None {
      return None;
    }
    var content := ParseText(sc);
    if content == None {
      return None;
    }
    var ok := ParseClosingTag(sc, name);
    n := if ok then Some(Node(name, attrs, children.value, content.value)) else None;
  }

  lemma ChildrenRound(s: string)
    ensures if NoNode(s) then ParseChildren(s) == Some(([], s))
            else match ParseNode(s) case None => ParseChildren(s) == None
                                    case Some((n, t)) => ParseChildren(s) == Joined([n], ParseChildren(t))
  {
  }

  /** The loop over the sub nodes */
  method ParseChildNodes(sc: Scanner) returns (children: Option<seq<Node>>)
    requires sc.Valid()
    modifies sc
    ensures sc.Valid() && sc.pos >= old(sc.pos)
    ensures match ParseChildren(old(sc.Left())) case Some((x, t)) => children == Some(x) && sc.Left() == t case None => children == None
    decreases |sc.text| - sc.pos, 2
  {
    hide ParseNode, ParseChildren;
    var list: seq<Node> := [];
    JoinedEmpty(ParseChildren(sc.Left()));
    while sc.Peek(sc.pos) == '<' && sc.Peek(sc.pos + 1) != '/'
      invariant sc.Valid() && sc.pos >= old(sc.pos)
      invariant ParseChildren(old(sc.Left())) == Joined(list, ParseChildren(sc.Left()))
      decreases |sc.Left()|
    {
      ChildrenRound(sc.Left());
      var n := ParseTree(sc);
      if n == None {
        return None;
      }
      JoinedTwice(list, n.value, ParseChildren(sc.Left()));
      list := list + [n.value];
    }
    ChildrenRound(sc.Left());
    JoinedEmpty(Some((list, sc.Left())));
    children := Some(list);
  }

  /** pj_xml_parse */
  method ParseDocument(text: string) returns (n: Option<Node>)
    ensures n == Parse(text)
  {
    if text == "" {
      return None;
    }
    var sc := new Scanner(text);
    n := ParseTree(sc);
  }

  // ----- Printing -----

  /** The size tests of xml_print_node, in the order they are made. The " />" of an empty node
      is written without one. */
  predicate Fits(n: Node, indent: nat, len: int)
    decreases n, 1
  {
    var left := len - indent - 1 - |n.name|;
    && len >= |n.name| + indent + 5
    && AttrsFit(n.attrs, left)
    && (Empty(n) || BodyFits(n, indent, left - |AttrsText(n.attrs)|))
  }

  predicate AttrsFit(attrs: seq<Attr>, left: int) {
    attrs == [] ||
    (left >= |attrs[0].name| + |attrs[0].value| + 4 && AttrsFit(attrs[1..], left - |AttrText(attrs[0])|))
  }

  predicate BodyFits(n: Node, indent: nat, left: int)
    decreases n, 0
  {
    && left >= 1
    && ChildrenFit(n.children, indent, left - 1)
    && CloseFits(n, indent, left - 1 - |ChildrenText(n.children, indent)|)
  }

  predicate ChildrenFit(children: seq<Node>, indent: nat, left: int)
    decreases children
  {
    children == [] ||
    (left >= indent + 3 && Fits(children[0], indent + 1, left - 1)
     && ChildrenFit(children[1..], indent, left - 2 - indent - |NodeText(children[0], indent + 1)|))
  }

  predicate CloseFits(n: Node, indent: nat, left: int) {
    && (n.content != "" ==> left >= |n.content|)
    && left - |n.content| >= |n.name| + (if n.children == [] then 3 else 5 + indent)
  }

  /** The bytes a node takes, or -1 */
  function Length(n: Node, indent: nat, len: int): int {
    if Fits(n, indent, len) then indent + |NodeText(n, indent)| else -1
  }

  lemma {:induction false} AttrsLength(attrs: seq<Attr>, left: int)
    requires AttrsFit(attrs, left) && left >= 0
    ensures |AttrsText(attrs)| <= left
  {
    if attrs != [] {
      AttrsLength(attrs[1..], left - |AttrText(attrs[0])|);
    }
  }

  /** What fits the tests fits the buffer, but for up to three bytes of an empty node, and that
      exactly when its attributes leave less than three. */
  lemma PrintedLength(n: Node, indent: nat, len: int)
    requires Fits(n, indent, len)
    ensures indent + |NodeText(n, indent)| <= len + 3
    ensures indent + |NodeText(n, indent)| > len <==> Empty(n) && len < indent + 4 + |n.name| + |AttrsText(n.attrs)|
  {
    hide ChildrenText, ChildrenFit;
    AttrsLength(n.attrs, len - indent - 1 - |n.name|);
  }

  lemma {:induction false} AmpleForAttrs(attrs: seq<Attr>, left: int)
    requires left >= |AttrsText(attrs)| + 3
    ensures AttrsFit(attrs, left)
  {
    if attrs != [] {
      AttrLength(attrs[0]);
      AmpleForAttrs(attrs[1..], left - |AttrText(attrs[0])|);
    }
  }

  /** One character more than the node takes is always enough. */
  lemma {:induction false} AmpleRoom(n: Node, indent: nat, len: int)
    requires len > indent + |NodeText(n, indent)|
    ensures Fits(n, indent, len)
    decreases n, 1
  {
    hide ChildrenText, ChildrenFit, AttrsFit, AttrsText;
    var left := len - indent - 1 - |n.name|;
    AmpleForAttrs(n.attrs, left);
    if !Empty(n) {
      AmpleForChildren(n.children, indent, left - |AttrsText(n.attrs)| - 1);
    }
  }

  lemma {:induction false} AmpleForChildren(children: seq<Node>, indent: nat, left: int)
    requires left > |ChildrenText(children, indent)|
    ensures ChildrenFit(children, indent, left)
    decreases children
  {
    hide NodeText, Fits;
    if children != [] {
      NodeIsLonger(children[0], indent + 1);
      AmpleRoom(children[0], indent + 1, left - 1);
      AmpleForChildren(children[1..], indent, left - 2 - indent - |NodeText(children[0], indent + 1)|);
    }
  }

  lemma NodeIsLonger(n: Node, indent: nat)
    ensures |NodeText(n, indent)| >= 4
  {
    hide AttrsText, ChildrenText;
  }

  // ----- How a node is laid out -----

  lemma NoAttrsText()
    ensures AttrsText([]) == ""
    ensures forall i: nat :: ChildrenText([], i) == ""
  {
  }

  /** A node without children or content is an empty tag, and content alone stands between the tags. */
  lemma LeafLayout(name: string, content: string, i: nat)
    ensures NodeText(Node(name, [], [], content), i) ==
            if content == "" then "<" + (name + " />") else "<" + (name + (">" + (content + ("</" + (name + ">")))))
  {
    NoAttrsText();
    var n, close := Node(name, [], [], content), "</" + (name + ">");
    if content == "" {
      assert AttrsText(n.attrs) + BodyText(n, i) == " />";
    } else {
      NodeIs(n, i);
      assert CloseText(n, i) == close;
      assert AttrsText(n.attrs) + (">" + (ChildrenText(n.children, i) + (n.content + CloseText(n, i)))) == ">" + (content + close);
    }
  }

  /** An attribute with its value, or alone if that is empty */
  lemma AttrLayout(a: Attr)
    ensures AttrsText([a]) == if a.value == "" then " " + a.name else " " + (a.name + ("=\"" + (a.value + "\"")))
  {
    assert [a][1..] == [];
    assert a.name + "" == a.name;
    assert AttrText(a) + "" == AttrText(a);
  }

  /** Each child is on a line of its own, one column further in than its parent, whose closing tag
      follows on another line. */
  lemma ParentLayout(name: string, first: Node, second: Node, i: nat)
    ensures NodeText(Node(name, [], [first, second], ""), i) ==
            "<" + (name + (">" + (OnLine(first, i + 1) + (OnLine(second, i + 1) + ("\n" + Spaces(i) + ("</" + (name + ">")))))))
  {
    hide NodeText, Spaces;
    var n := Node(name, [], [first, second], "");
    var end := "\n" + Spaces(i) + ("</" + (name + ">"));
    NoAttrsText();
    assert n.children[1..] == [second] && [second][1..] == [];
    assert OnLine(second, i + 1) + "" == OnLine(second, i + 1);
    Regrouped(OnLine(first, i + 1), OnLine(second, i + 1), end);
    NodeIs(n, i);
    assert n.content + CloseText(n, i) == end;
    assert AttrsText(n.attrs) + (">" + (ChildrenText(n.children, i) + end)) == ">" + (ChildrenText(n.children, i) + end);
    LineThen(first, i + 1, OnLine(second, i + 1));
    LineThen(second, i + 1, "");
    assert ChildrenText([second], i) == OnLine(second, i + 1);
    assert ChildrenText(n.children, i) == OnLine(first, i + 1) + OnLine(second, i + 1);
  }

  function OnLine(n: Node, i: nat): string {
    "\n" + (Spaces(i) + NodeText(n, i))
  }

  lemma LineThen(n: Node, i: nat, rest: string)
    ensures "\n" + (Spaces(i) + (NodeText(n, i) + rest)) == OnLine(n, i) + rest
  {
  }

  lemma NodeIs(n: Node, i: nat)
    requires !Empty(n)
    ensures NodeText(n, i) == "<" + (n.name + (AttrsText(n.attrs) + (">" + (ChildrenText(n.children, i) + (n.content + CloseText(n, i))))))
  {
  }

  // ----- What is written, whatever is returned -----

  /** How many characters of its text, blanks before it included, xml_print_node writes */
  function Reach(n: Node, indent: nat, len: int): (r: nat)
    decreases n, 1
  {
    var left := len - indent - 1 - |n.name|;
    if len < |n.name| + indent + 5 then 0
    else indent + 1 + |n.name| + AttrsReach(n.attrs, left)
         + (if !AttrsFit(n.attrs, left) then 0
            else if Empty(n) then 3
            else BodyReach(n, indent, left - |AttrsText(n.attrs)|))
  }

  function AttrsReach(attrs: seq<Attr>, left: int): nat {
    if attrs == [] || left < |attrs[0].name| + |attrs[0].value| + 4 then 0
    else |AttrText(attrs[0])| + AttrsReach(attrs[1..], left - |AttrText(attrs[0])|)
  }

  function BodyReach(n: Node, indent: nat, left: int): nat
    decreases n, 0
  {
    if left < 1 then 0
    else 1 + ChildrenReach(n.children, indent, left - 1)
         + (if ChildrenFit(n.children, indent, left - 1) then EndReach(n, indent, left - 1 - |ChildrenText(n.children, indent)|) else 0)
  }

  function ChildrenReach(children: seq<Node>, indent: nat, left: int): nat
    decreases children
  {
    if children == [] || left < indent + 3 then 0
    else 1 + Reach(children[0], indent + 1, left - 1)
         + (if Fits(children[0], indent + 1, left - 1)
            then ChildrenReach(children[1..], indent, left - 2 - indent - |NodeText(children[0], indent + 1)|) else 0)
  }

  function EndReach(n: Node, indent: nat, left: int): nat {
    if n.content != "" && left < |n.content| then 0
    else if CloseFits(n, indent, left) then |n.content| + |CloseText(n, indent)|
    else |n.content|
  }

  lemma {:induction false} AttrsReached(attrs: seq<Attr>, left: int)
    ensures AttrsReach(attrs, left) <= |AttrsText(attrs)|
    ensures AttrsFit(attrs, left) ==> AttrsReach(attrs, left) == |AttrsText(attrs)|
    ensures left >= 0 ==> AttrsReach(attrs, left) <= left
  {
    hide AttrText;
    if attrs != [] {
      AttrLength(attrs[0]);
      AttrsReached(attrs[1..], left - |AttrText(attrs[0])|);
    }
  }

  lemma {:induction false} Reached(n: Node, indent: nat, len: int)
    ensures Reach(n, indent, len) <= indent + |NodeText(n, indent)|
    ensures Fits(n, indent, len) ==> Reach(n, indent, len) == indent + |NodeText(n, indent)|
    decreases n, 1
  {
    hide AttrsText, AttrsReach, AttrsFit, BodyReach, BodyFits;
    var left := len - indent - 1 - |n.name|;
    AttrsReached(n.attrs, left);
    if !Empty(n) {
      BodyReached(n, indent, left - |AttrsText(n.attrs)|);
    }
  }

  lemma {:induction false} BodyReached(n: Node, indent: nat, left: int)
    requires !Empty(n)
    ensures BodyReach(n, indent, left) <= |BodyText(n, indent)|
    ensures BodyFits(n, indent, left) ==> BodyReach(n, indent, left) == |BodyText(n, indent)|
    decreases n, 0
  {
    hide ChildrenText, ChildrenReach, ChildrenFit, CloseText;
    ChildrenReached(n.children, indent, left - 1);
  }

  lemma {:induction false} ChildrenReached(children: seq<Node>, indent: nat, left: int)
    ensures ChildrenReach(children, indent, left) <= |ChildrenText(children, indent)|
    ensures ChildrenFit(children, indent, left) ==> ChildrenReach(children, indent, left) == |ChildrenText(children, indent)|
    decreases children
  {
    hide NodeText, Reach, Fits;
    if children != [] {
      Reached(children[0], indent + 1, left - 1);
      ChildrenReached(children[1..], indent, left - 2 - indent - |NodeText(children[0], indent + 1)|);
    }
  }

  // ----- Overruns -----

  /** The node, or one inside it, is an empty node that passes its tests and has less than three
      characters left for its " />". */
  predicate Overruns(n: Node, indent: nat, len: int)
    decreases n, 1
  {
    var left := len - indent - 1 - |n.name|;
    && len >= |n.name| + indent + 5 && AttrsFit(n.attrs, left)
    && if Empty(n) then left - |AttrsText(n.attrs)| < 3
       else ChildrenOverrun(n.children, indent, left - |AttrsText(n.attrs)| - 1)
  }

  predicate ChildrenOverrun(children: seq<Node>, indent: nat, left: int)
    decreases children
  {
    && children != [] && left >= indent + 3
    && (Overruns(children[0], indent + 1, left - 1)
        || (Fits(children[0], indent + 1, left - 1)
            && ChildrenOverrun(children[1..], indent, left - 2 - indent - |NodeText(children[0], indent + 1)|)))
  }

  /** More is written than the buffer is said to hold exactly then, whether the print succeeds
      or gives up later; and never more than three characters more. */
  lemma {:induction false} OverrunExactly(n: Node, indent: nat, len: int)
    requires len >= 0
    ensures Reach(n, indent, len) > len <==> Overruns(n, indent, len)
    ensures Reach(n, indent, len) <= len + 3
    decreases n, 1
  {
    hide AttrsText, AttrsReach, AttrsFit, BodyReach, ChildrenOverrun;
    var left := len - indent - 1 - |n.name|;
    AttrsReached(n.attrs, left);
    if !Empty(n) && len >= |n.name| + indent + 5 && AttrsFit(n.attrs, left) {
      BodyOverrun(n, indent, left - |AttrsText(n.attrs)|);
    }
  }

  lemma {:induction false} BodyOverrun(n: Node, indent: nat, left: int)
    requires left >= 0
    ensures BodyReach(n, indent, left) > left <==> ChildrenOverrun(n.children, indent, left - 1)
    ensures BodyReach(n, indent, left) <= left + 3
    decreases n, 0
  {
    hide ChildrenText, ChildrenReach, ChildrenFit, CloseText;
    if left >= 1 {
      ChildrenOverrunExactly(n.children, indent, left - 1);
      ChildrenReached(n.children, indent, left - 1);
      EndStays(n, indent, left - 1 - |ChildrenText(n.children, indent)|);
    } else {
      NoRoomForChildren(n.children, indent, left - 1);
    }
  }

  lemma NoRoomForChildren(children: seq<Node>, indent: nat, left: int)
    requires left < 0
    ensures !ChildrenOverrun(children, indent, left) && ChildrenReach(children, indent, left) == 0
  {
  }

  lemma EndStays(n: Node, indent: nat, left: int)
    ensures if left < 0 then EndReach(n, indent, left) == 0 else EndReach(n, indent, left) <= left
  {
  }

  lemma {:induction false} ChildrenOverrunExactly(children: seq<Node>, indent: nat, left: int)
    requires left >= 0
    ensures ChildrenReach(children, indent, left) > left <==> ChildrenOverrun(children, indent, left)
    ensures ChildrenReach(children, indent, left) <= left + 3
    decreases children
  {
    hide NodeText, Reach, Fits, Overruns;
    if children != [] && left >= indent + 3 {
      OverrunExactly(children[0], indent + 1, left - 1);
      Reached(children[0], indent + 1, left - 1);
      var rest := left - 2 - indent - |NodeText(children[0], indent + 1)|;
      if rest >= 0 {
        ChildrenOverrunExactly(children[1..], indent, rest);
      } else {
        NoRoomForChildren(children[1..], indent, rest);
      }
    }
  }

  /** A print that succeeds and overruns: one attribute with a value, in a buffer that is just
      long enough for the test. */
  lemma OverrunByThree(name: string, a: Attr)
    requires a.value != "" && |a.name| + |a.value| >= 1
    ensures var n := Node(name, [a], [], "");
            var len := 1 + |name| + |a.name| + |a.value| + 4;
            Fits(n, 0, len) && |NodeText(n, 0)| == len + 3
  {
    var attrs := [a];
    assert AttrsText(attrs[1..]) == "";
    assert AttrsText(attrs) == AttrText(a) + "";
  }

  /** A print that gives up after an overrun: <p> with the child <c a="v" /> in 13 characters. */
  lemma OverrunThenFailure()
    ensures var p := Node("p", [], [Node("c", [Attr("a", "v")], [], "")], "");
            && Length(p, 0, 13) == -1 && Overruns(p, 0, 13) && Reach(p, 0, 13) == 16
  {
    var attrs := [Attr("a", "v")];
    var c := Node("c", attrs, [], "");
    var p := Node("p", [], [c], "");
    assert attrs[1..] == [] && p.children[1..] == [];
    assert AttrText(attrs[0]) == " a=\"v\"";
    assert AttrsText(attrs) == AttrText(attrs[0]) + AttrsText([]) == " a=\"v\"";
    assert AttrsFit(attrs, 6) && AttrsReach(attrs, 6) == 6 + AttrsReach([], 0);
    assert Fits(c, 1, 9) && Reach(c, 1, 9) == 12 && Overruns(c, 1, 9);
    assert |NodeText(c, 1)| == 11;
    assert !ChildrenFit(p.children, 0, 10) || !CloseFits(p, 0, 10 - |ChildrenText(p.children, 0)|);
    assert ChildrenReach(p.children, 0, 10) == 13 + ChildrenReach([], 0, -3);
  }

  /** Since the buffer held `before`, `done` has been written at `pos`. */
  ghost predicate Written(buf: string, before: string, pos: nat, done: string) {
    pos + |done| <= |before| == |buf| && buf == Spliced(before, pos, done)
  }

  /** The first `k` characters, or all of them */
  function Begun(s: string, k: nat): string {
    if k <= |s| then s[..k] else s
  }

  /** Of `done + whole`, with `sofar` written already, `k` characters more */
  lemma BegunMore(done: string, whole: string, sofar: string, rest: string, k: nat)
    requires done + whole == sofar + rest && |done| <= |sofar| && k <= |rest|
    ensures done + Begun(whole, |sofar| - |done| + k) == sofar + Begun(rest, k)
    ensures sofar + Begun(rest, 0) == sofar
  {
    var n := |sofar| - |done| + k;
    assert |whole| >= n;
    assert done + whole[..n] == (done + whole)[..|done| + n];
    assert sofar + rest[..k] == (sofar + rest)[..|sofar| + k];
  }

  lemma BegunAll(s: string, more: string, k: nat)
    ensures Begun(s, |s|) == s
    ensures k <= |s| ==> Begun(s + more, k) == Begun(s, k)
  {
  }

  method Put(buf: array<char>, p: nat, s: string, ghost before: string, ghost pos: nat, ghost done: string) returns (q: nat)
    requires Written(buf[..], before, pos, done) && p == pos + |done| && p + |s| <= buf.Length
    modifies buf
    ensures Written(buf[..], before, pos, done + s) && q == p + |s|
  {
    Copy(buf, p, s);
    SpliceTwice(before, pos, done, s);
    q := p + |s|;
  }

  method PutSpaces(buf: array<char>, p: nat, n: nat, ghost before: string, ghost pos: nat, ghost done: string) returns (q: nat)
    requires Written(buf[..], before, pos, done) && p == pos + |done| && p + n <= buf.Length
    modifies buf
    ensures Written(buf[..], before, pos, done + Spaces(n)) && q == p + n
  {
    hide Written;
    q := p;
    OneSpaceMore(done, 0);
    for i := 0 to n
      invariant Written(buf[..], before, pos, done + Spaces(i)) && q == p + i
    {
      OneSpaceMore(done, i);
      q := Put(buf, q, " ", before, pos, done + Spaces(i));
    }
  }

  lemma OneSpaceMore(done: string, i: nat)
    ensures (done + Spaces(i)) + " " == done + Spaces(i + 1) && done + Spaces(0) == done
  {
  }

  lemma NextAttr(done: string, attrs: seq<Attr>, i: nat)
    requires i < |attrs|
    ensures forall left :: AttrsFit(attrs[i..], left) <==>
                     left >= |attrs[i].name| + |attrs[i].value| + 4 && AttrsFit(attrs[i + 1..], left - |AttrText(attrs[i])|)
    ensures ((done + " ") + attrs[i].name) + ValueText(attrs[i].value) == done + AttrText(attrs[i])
    ensures (done + AttrText(attrs[i])) + AttrsText(attrs[i + 1..]) == done + AttrsText(attrs[i..])
  {
    hide ValueText;
    assert attrs[i..][0] == attrs[i] && attrs[i..][1..] == attrs[i + 1..];
    AppendAttr(done, attrs[i], AttrsText(attrs[i + 1..]));
  }

  lemma NextAttrReach(attrs: seq<Attr>, i: nat, left: int)
    requires i < |attrs|
    ensures AttrsReach(attrs[i..], left) ==
            if left < |attrs[i].name| + |attrs[i].value| + 4 then 0
            else |AttrText(attrs[i])| + AttrsReach(attrs[i + 1..], left - |AttrText(attrs[i])|)
  {
    assert attrs[i..][0] == attrs[i] && attrs[i..][1..] == attrs[i + 1..];
  }

  lemma AppendAttr(done: string, a: Attr, rest: string)
    ensures ((done + " ") + a.name) + ValueText(a.value) == done + AttrText(a)
    ensures (done + AttrText(a)) + rest == done + (AttrText(a) + rest)
  {
  }

  /** The loop over the attributes, for a buffer that ends at `end`; -1 if one does not fit */
  method PrintAttributes(attrs: seq<Attr>, buf: array<char>, p: nat, end: nat,
                         ghost before: string, ghost pos: nat, ghost done: string)
    returns (q: int)
    requires Written(buf[..], before, pos, done) && p == pos + |done| <= end <= buf.Length
    modifies buf
    ensures if AttrsFit(attrs, end - p) then q == p + |AttrsText(attrs)| <= end && Written(buf[..], before, pos, done + AttrsText(attrs))
            else q == -1 && Written(buf[..], before, pos, done + Begun(AttrsText(attrs), AttrsReach(attrs, end - p)))
  {
    hide Written, AttrText, AttrsText, AttrsFit, ValueText, AttrsReach, Begun;
    q := p;
    ghost var sofar := done;
    assert attrs[0..] == attrs;
    for i := 0 to |attrs|
      invariant Written(buf[..], before, pos, sofar) && q == pos + |sofar| <= end
      invariant AttrsFit(attrs, end - p) == AttrsFit(attrs[i..], end - q)
      invariant AttrsReach(attrs, end - p) == |sofar| - |done| + AttrsReach(attrs[i..], end - q) && |done| <= |sofar|
      invariant done + AttrsText(attrs) == sofar + AttrsText(attrs[i..])
    {
      var a := attrs[i];
      NextAttr(sofar, attrs, i);
      NextAttrReach(attrs, i, end - q);
      if end - q < |a.name| + |a.value| + 4 {
        BegunMore(done, AttrsText(attrs), sofar, AttrsText(attrs[i..]), 0);
        return -1;
      }
      AttrLength(a);
      q := Put(buf, q, " ", before, pos, sofar);
      q := Put(buf, q, a.name, before, pos, sofar + " ");
      if a.value != "" {
        q := Put(buf, q, ValueText(a.value), before, pos, sofar + " " + a.name);
      } else {
        assert (sofar + " " + a.name) + "" == sofar + " " + a.name;
      }
      sofar := sofar + AttrText(a);
    }
    NoMoreAttrs(attrs[|attrs|..], sofar);
  }

  lemma AttrLength(a: Attr)
    ensures |AttrText(a)| == 1 + |a.name| + |ValueText(a.value)| <= |a.name| + |a.value| + 4
    ensures a.value == "" ==> ValueText(a.value) == ""
  {
  }

  lemma NoMoreAttrs(none: seq<Attr>, done: string)
    requires none == []
    ensures AttrsText(none) == "" && done + AttrsText(none) == done && forall left :: AttrsFit(none, left)
  {
  }

  /** The blanks, the '<' and the name of a node */
  method PrintOpening(n: Node, indent: nat, buf: array<char>, p: nat, ghost before: string) returns (q: nat)
    requires p + indent + 1 + |n.name| <= buf.Length && buf[..] == before
    modifies buf
    ensures Written(buf[..], before, p, Spaces(indent) + "<" + n.name) && q == p + indent + 1 + |n.name|
  {
    SpliceNothing(before, p);
    q := PutSpaces(buf, p, indent, before, p, "");
    assert "" + Spaces(indent) == Spaces(indent);
    q := Put(buf, q, "<", before, p, Spaces(indent));
    q := Put(buf, q, n.name, before, p, Spaces(indent) + "<");
  }

  lemma NextChild(done: string, children: seq<Node>, indent: nat, i: nat)
    requires i < |children|
    ensures var first, rest := Spaces(indent + 1) + NodeText(children[i], indent + 1), ChildrenText(children[i + 1..], indent);
            && ChildrenText(children[i..], indent) == "\n" + (Spaces(indent + 1) + (NodeText(children[i], indent + 1) + rest))
            && ((done + "\n") + first) + rest == done + ChildrenText(children[i..], indent)
            && |first| == indent + 1 + |NodeText(children[i], indent + 1)|
    ensures forall left :: ChildrenFit(children[i..], indent, left) <==>
                     left >= indent + 3 && Fits(children[i], indent + 1, left - 1)
                     && ChildrenFit(children[i + 1..], indent, left - 2 - indent - |NodeText(children[i], indent + 1)|)
  {
    hide NodeText, Fits;
    assert children[i..][0] == children[i] && children[i..][1..] == children[i + 1..];
  }

  lemma NextChildReach(children: seq<Node>, indent: nat, i: nat, left: int)
    requires i < |children|
    ensures ChildrenReach(children[i..], indent, left) ==
            if left < indent + 3 then 0
            else if Fits(children[i], indent + 1, left - 1)
            then 2 + indent + |NodeText(children[i], indent + 1)|
                 + ChildrenReach(children[i + 1..], indent, left - 2 - indent - |NodeText(children[i], indent + 1)|)
            else 1 + Reach(children[i], indent + 1, left - 1)
    ensures Reach(children[i], indent + 1, left - 1) <= indent + 1 + |NodeText(children[i], indent + 1)|
  {
    hide NodeText, Fits, Reach;
    assert children[i..][0] == children[i] && children[i..][1..] == children[i + 1..];
    Reached(children[i], indent + 1, left - 1);
  }

  lemma ChildBegun(done: string, whole: string, sofar: string, first: string, others: string, k: nat)
    requires done + whole == ((sofar + "\n") + first) + others && |done| <= |sofar| && k <= |first|
    ensures done + Begun(whole, |sofar| - |done| + 1 + k) == (sofar + "\n") + Begun(first, k)
  {
    hide Begun;
    assert ((sofar + "\n") + first) + others == (sofar + "\n") + (first + others);
    BegunMore(done, whole, sofar + "\n", first + others, k);
    BegunAll(first, others, k);
  }

  lemma NoMoreChildren(none: seq<Node>, indent: nat, done: string)
    requires none == []
    ensures done + ChildrenText(none, indent) == done && forall left :: ChildrenFit(none, indent, left)
  {
  }

  /** The loop over the sub nodes; -1 if one does not fit */
  method PrintChildren(children: seq<Node>, indent: nat, buf: array<char>, p: nat, end: nat,
                       ghost before: string, ghost pos: nat, ghost done: string)
    returns (q: int)
    requires Written(buf[..], before, pos, done) && p == pos + |done| <= end && end + 3 <= buf.Length
    modifies buf
    ensures if ChildrenFit(children, indent, end - p) then
              q == p + |ChildrenText(children, indent)| <= end + 3
              && Written(buf[..], before, pos, done + ChildrenText(children, indent))
            else q == -1 && Written(buf[..], before, pos, done + Begun(ChildrenText(children, indent), ChildrenReach(children, indent, end - p)))
    decreases children, 0
  {
    hide Written, ChildrenText, ChildrenFit, NodeText, Fits, Spaces, Begun, ChildrenReach, Reach;
    q := p;
    ghost var sofar := done;
    assert children[0..] == children;
    for i := 0 to |children|
      invariant Written(buf[..], before, pos, sofar) && q == pos + |sofar| <= end + 3
      invariant ChildrenFit(children, indent, end - p) == ChildrenFit(children[i..], indent, end - q)
      invariant ChildrenReach(children, indent, end - p) == |sofar| - |done| + ChildrenReach(children[i..], indent, end - q)
      invariant done + ChildrenText(children, indent) == sofar + ChildrenText(children[i..], indent) && |done| <= |sofar|
    {
      NextChild(sofar, children, indent, i);
      NextChildReach(children, indent, i, end - q);
      if end - q < indent + 3 {
        BegunMore(done, ChildrenText(children, indent), sofar, ChildrenText(children[i..], indent), 0);
        return -1;
      }
      ghost var first := Spaces(indent + 1) + NodeText(children[i], indent + 1);
      q := Put(buf, q, "\n", before, pos, sofar);
      ghost var here := buf[..];
      var printed := PrintTree(children[i], indent + 1, buf, q, end - q);
      if printed < 0 {
        ghost var k := Reach(children[i], indent + 1, end - q);
        WrittenNext(buf[..], here, before, pos, sofar + "\n", Begun(first, k));
        ChildBegun(done, ChildrenText(children, indent), sofar, first, ChildrenText(children[i + 1..], indent), k);
        return -1;
      }
      WrittenNext(buf[..], here, before, pos, sofar + "\n", first);
      PrintedLength(children[i], indent + 1, end - q);
      q := q + printed;
      sofar := (sofar + "\n") + first;
    }
    NoMoreChildren(children[|children|..], indent, sofar);
  }

  lemma WrittenNext(buf: string, here: string, before: string, pos: nat, done: string, more: string)
    requires Written(here, before, pos, done) && Written(buf, here, pos + |done|, more)
    ensures Written(buf, before, pos, done + more)
  {
    SpliceTwice(before, pos, done, more);
  }

  /** xml_print_node: the bytes printed, or -1 */
  method PrintTree(n: Node, indent: nat, buf: array<char>, pos: nat, len: nat) returns (printed: int)
    requires pos + len + 3 <= buf.Length
    modifies buf
    ensures printed == Length(n, indent, len)
    ensures Written(buf[..], old(buf[..]), pos, Begun(Spaces(indent) + NodeText(n, indent), Reach(n, indent, len)))
    ensures printed != -1 ==> Written(buf[..], old(buf[..]), pos, Spaces(indent) + NodeText(n, indent))
    decreases n, 1
  {
    hide Written, AttrsFit, BodyFits, BodyText, AttrsText, Spaces, Begun, AttrsReach, BodyReach, Empty;
    ghost var before, text := buf[..], Spaces(indent) + NodeText(n, indent);
    BegunAll(text, "", 0);
    Reached(n, indent, len);
    var end := pos + len;
    if len < |n.name| + indent + 5 {
      SpliceNothing(before, pos);
      NothingBegun(buf[..], pos, text);
      return -1;
    }
    var p := PrintOpening(n, indent, buf, pos, before);
    ghost var done := Spaces(indent) + "<" + n.name;
    assert p - pos == |done|;
    var q := PrintAttributes(n.attrs, buf, p, end, before, pos, done);
    ghost var front := done + AttrsText(n.attrs);
    TreeText(n, indent, front);
    if q < 0 {
      AttrsReached(n.attrs, end - p);
      PartBegun(text, done, AttrsText(n.attrs), BodyText(n, indent), AttrsReach(n.attrs, end - p));
      return -1;
    }
    AttrsReached(n.attrs, end - p);
    if Empty(n) {
      q := Put(buf, q, " />", before, pos, front);
      return q - pos;
    }
    ghost var left := end - q;
    q := PrintBody(n, indent, buf, q, end, before, pos, front);
    if q < 0 {
      BodyReached(n, indent, left);
      assert (front + BodyText(n, indent)) + "" == text;
      PartBegun(text, front, BodyText(n, indent), "", BodyReach(n, indent, left));
      return -1;
    }
    return q - pos;
  }

  lemma NothingBegun(buf: string, pos: nat, text: string)
    requires pos <= |buf|
    ensures Written(buf, buf, pos, Begun(text, 0))
  {
  }

  lemma PartBegun(text: string, done: string, part: string, rest: string, k: nat)
    requires text == (done + part) + rest && k <= |part|
    ensures Begun(text, |done| + k) == done + Begun(part, k)
  {
    hide Begun;
    assert (done + part) + rest == done + (part + rest) && "" + text == text;
    BegunMore("", text, done, part + rest, k);
    BegunAll(part, rest, k);
    assert "" + Begun(text, |done| + k) == Begun(text, |done| + k);
  }

  lemma TreeText(n: Node, indent: nat, done: string)
    requires done == (Spaces(indent) + "<" + n.name) + AttrsText(n.attrs)
    ensures done + BodyText(n, indent) == Spaces(indent) + NodeText(n, indent)
    ensures |done| == indent + 1 + |n.name| + |AttrsText(n.attrs)|
    ensures indent + |NodeText(n, indent)| == |done| + |BodyText(n, indent)|
    ensures Empty(n) ==> BodyText(n, indent) == " />"
  {
    EmptyBody(n, indent);
    hide BodyText, AttrsText, Empty;
    TreeJoined(Spaces(indent), n.name, AttrsText(n.attrs), BodyText(n, indent));
  }

  lemma TreeJoined(spaces: string, name: string, attrs: string, body: string)
    ensures ((spaces + "<" + name) + attrs) + body == spaces + ("<" + (name + (attrs + body)))
  {
  }

  lemma EmptyBody(n: Node, indent: nat)
    ensures Empty(n) ==> BodyText(n, indent) == " />"
  {
  }

  method PrintBody(n: Node, indent: nat, buf: array<char>, p: nat, end: nat,
                   ghost before: string, ghost pos: nat, ghost done: string)
    returns (q: int)
    requires !Empty(n) && Written(buf[..], before, pos, done) && p == pos + |done| <= end && end + 3 <= buf.Length
    modifies buf
    ensures if BodyFits(n, indent, end - p) then
              q == p + |BodyText(n, indent)| && Written(buf[..], before, pos, done + BodyText(n, indent))
            else q == -1 && Written(buf[..], before, pos, done + Begun(BodyText(n, indent), BodyReach(n, indent, end - p)))
    decreases n, 0
  {
    hide Written, ChildrenText, ChildrenFit, CloseFits, CloseText, Begun, ChildrenReach, EndReach;
    ghost var children, rest := ChildrenText(n.children, indent), n.content + CloseText(n, indent);
    BodyJoined(done, children, n.content, CloseText(n, indent));
    BegunMore(done, BodyText(n, indent), done, BodyText(n, indent), 0);
    if end - p < 1 {
      return -1;
    }
    ChildrenReached(n.children, indent, end - p - 1);
    q := Put(buf, p, ">", before, pos, done);
    ghost var inside := q;
    q := PrintChildren(n.children, indent, buf, q, end, before, pos, done + ">");
    if q < 0 {
      ghost var k := ChildrenReach(n.children, indent, end - inside);
      assert (done + ">") + (children + rest) == done + BodyText(n, indent);
      BegunMore(done, BodyText(n, indent), done + ">", children + rest, k);
      BegunAll(children, rest, k);
      return -1;
    }
    ghost var inner, left := (done + ">") + children, end - q;
    q := PrintEnd(n, indent, buf, q, end, before, pos, inner);
    if q < 0 {
      EndReached(n, indent, left);
      BegunMore(done, BodyText(n, indent), inner, rest, EndReach(n, indent, left));
    }
  }

  lemma EndReached(n: Node, indent: nat, left: int)
    ensures EndReach(n, indent, left) <= |n.content + CloseText(n, indent)|
  {
  }

  lemma BodyJoined(done: string, children: string, content: string, close: string)
    ensures ((done + ">") + children) + (content + close) == done + (">" + (children + (content + close)))
  {
  }

  lemma CloseParts(n: Node, indent: nat, done: string)
    ensures var lead := if n.children == [] then "" else "\n" + Spaces(indent);
            && done + (n.content + CloseText(n, indent)) == (((done + n.content) + lead) + "</") + n.name + ">"
            && |CloseText(n, indent)| == |lead| + 3 + |n.name|
            && (n.children != [] ==> ((done + n.content) + "\n") + Spaces(indent) == (done + n.content) + lead)
            && (n.children == [] ==> (done + n.content) + lead == done + n.content)
            && (n.content == "" ==> done + n.content == done)
  {
  }

  lemma ContentBegun(done: string, content: string, close: string)
    ensures done + Begun(content + close, |content|) == done + content
    ensures done + Begun(content + close, 0) == done
  {
  }

  /** The content and the closing tag */
  method PrintEnd(n: Node, indent: nat, buf: array<char>, p: nat, end: nat,
                  ghost before: string, ghost pos: nat, ghost done: string)
    returns (q: int)
    requires Written(buf[..], before, pos, done) && p == pos + |done| <= end + 3 <= buf.Length
    modifies buf
    ensures if CloseFits(n, indent, end - p) then
              q == p + |n.content + CloseText(n, indent)| && Written(buf[..], before, pos, done + (n.content + CloseText(n, indent)))
            else q == -1 && Written(buf[..], before, pos, done + Begun(n.content + CloseText(n, indent), EndReach(n, indent, end - p)))
  {
    hide Written, Spaces, CloseText, Begun;
    CloseParts(n, indent, done);
    ContentBegun(done, n.content, CloseText(n, indent));
    q := p;
    if n.content != "" {
      if end - q < |n.content| {
        return -1;
      }
      q := Put(buf, q, n.content, before, pos, done);
    }
    ghost var sofar := done + n.content;
    if n.children != [] {
      if end - q < |n.name| + 5 + indent {
        return -1;
      }
      q := Put(buf, q, "\n", before, pos, sofar);
      q := PutSpaces(buf, q, indent, before, pos, sofar + "\n");
      sofar := (sofar + "\n") + Spaces(indent);
    } else if end - q < |n.name| + 3 {
      return -1;
    }
    q := Put(buf, q, "</", before, pos, sofar);
    q := Put(buf, q, n.name, before, pos, sofar + "</");
    q := Put(buf, q, ">", before, pos, sofar + "</" + n.name);
  }

  // ----- pj_xml_print -----

  function Front(prolog: bool): string {
    if prolog then Prolog() else ""
  }

  /** The text of a document: the prolog if asked for, and the node */
  function DocumentText(n: Node, prolog: bool): string {
    Front(prolog) + NodeText(n, 0)
  }

  function PrologLength(prolog: bool): nat {
    if prolog then |Prolog()| else 0
  }

  lemma PrologIs39Bytes()
    ensures |Prolog()| == 39
  {
  }

  /** What pj_xml_print returns. A node that does not fit is reported by -1 only if no prolog
      is printed: with one, the length of the prolog is added to the -1, and to that the
      newline that seems to fit. */
  function DocumentLength(n: Node, len: nat, prolog: bool): int {
    if len == 0 then 0
    else if prolog && len < 39 then -1
    else if Fits(n, 0, len - PrologLength(prolog)) then
      var printed := |DocumentText(n, prolog)|;
      if printed == len then printed else printed + 1
    else if prolog then 39
    else -1
  }

  /** The newline behind a document that does not fill its buffer to the last byte */
  function Ending(n: Node, len: nat, prolog: bool): string {
    if |DocumentText(n, prolog)| == len then "" else "\n"
  }

  /** What pj_xml_print leaves at the start of the buffer, whatever it returns */
  function DocumentBegun(n: Node, len: nat, prolog: bool): string {
    var size := len - PrologLength(prolog);
    if len == 0 || size < 0 then ""
    else if Fits(n, 0, size) then DocumentText(n, prolog) + Ending(n, len, prolog)
    else Front(prolog) + Begun(NodeText(n, 0), Reach(n, 0, size))
  }

  /** More is written than the buffer is said to hold exactly when the node overruns; the newline
      follows a node that does, too. */
  lemma DocumentOverrun(n: Node, len: nat, prolog: bool)
    requires len > 0 && len >= PrologLength(prolog)
    ensures |DocumentBegun(n, len, prolog)| > len <==> Overruns(n, 0, len - PrologLength(prolog))
    ensures |DocumentBegun(n, len, prolog)| <= len + 4
  {
    hide NodeText, Reach, Fits, Overruns, Prolog;
    OverrunExactly(n, 0, len - PrologLength(prolog));
    Reached(n, 0, len - PrologLength(prolog));
  }

  /** pj_xml_print, into a buffer with four bytes more than it is told of: three for the
      overrun of an empty node, and one for the newline that follows even then. */
  method PrintDocument(n: Node, buf: array<char>, len: nat, prolog: bool) returns (printed: int)
    requires len + 4 <= buf.Length
    modifies buf
    ensures printed == DocumentLength(n, len, prolog)
    ensures Written(buf[..], old(buf[..]), 0, DocumentBegun(n, len, prolog))
    ensures var size := len - PrologLength(prolog);
            size >= 0 && len > 0 && Fits(n, 0, size) ==>
              0 <= printed <= buf.Length && buf[..printed] == DocumentText(n, prolog) + Ending(n, len, prolog)
  {
    hide Prolog, NodeText, Fits, Written, Spaces, Spliced, Empty, Begun, Reach;
    PrologIs39Bytes();
    ghost var before := buf[..];
    WrittenNothing(before);
    if len == 0 {
      return 0;
    }
    var prologLen := 0;
    SpliceNothing(before, 0);
    if prolog {
      if len < 39 {
        return -1;
      }
      prologLen := Put(buf, 0, Prolog(), before, 0, "");
      assert "" + Prolog() == Prolog();
    }
    ghost var front := Front(prolog);
    ghost var here := buf[..];
    printed := PrintTree(n, 0, buf, prologLen, len - prologLen);
    NodeIsLong(n);
    NoIndent(n);
    ghost var done;
    if printed >= 0 {
      PrintedLength(n, 0, len - prologLen);
      done := front + NodeText(n, 0);
      WrittenNext(buf[..], here, before, 0, front, NodeText(n, 0));
    } else {
      done := front + Begun(NodeText(n, 0), Reach(n, 0, len - prologLen));
      WrittenNext(buf[..], here, before, 0, front, Begun(NodeText(n, 0), Reach(n, 0, len - prologLen)));
    }
    ghost var last := buf[..];
    if printed < 0 && prolog {
      PrologEnds(last, before, Begun(NodeText(n, 0), Reach(n, 0, len - prologLen)));
    } else if printed >= 0 {
      OneMoreWritten(last, before, done, '\n');
    }
    printed := EndLine(buf, printed + prologLen, len);
    WrittenFront(buf[..], before, DocumentBegun(n, len, prolog));
  }

  /** The newline that follows a failure with a prolog is the prolog's own. */
  lemma PrologEnds(buf: string, before: string, rest: string)
    requires Written(buf, before, 0, Prolog() + rest)
    ensures |buf| > 38 && buf[38 := '\n'] == buf
  {
    PrologIs39Bytes();
    assert Prolog()[38] == '\n';
    assert buf[38] == (Prolog() + rest)[38];
  }

  lemma OneMoreWritten(buf: string, before: string, done: string, c: char)
    requires Written(buf, before, 0, done) && |done| < |buf|
    ensures Written(buf[|done| := c], before, 0, done + [c])
    ensures done + "" == done
  {
  }

  /** A newline, if any seems to fit: the difference is unsigned, so that only an exact fit
      makes it less than one. */
  method EndLine(buf: array<char>, printed: int, len: nat) returns (end: int)
    requires printed < buf.Length
    modifies buf
    ensures if printed > 0 && len != printed then end == printed + 1 && buf[..] == old(buf[..])[printed := '\n']
            else end == printed && buf[..] == old(buf[..])
  {
    end := printed;
    if printed > 0 && len != printed {
      buf[printed] := '\n';
      end := printed + 1;
    }
  }

  lemma WrittenNothing(buf: string)
    ensures Written(buf, buf, 0, "")
  {
    SpliceNothing(buf, 0);
  }

  lemma WrittenFront(buf: string, before: string, done: string)
    requires Written(buf, before, 0, done)
    ensures |done| <= |buf| && buf[..|done|] == done
  {
  }

  lemma NodeIsLong(n: Node)
    ensures |NodeText(n, 0)| >= 1
  {
  }

  lemma NoIndent(n: Node)
    ensures Spaces(0) + NodeText(n, 0) == NodeText(n, 0)
  {
  }

  /** What pj_xml_print prints, pj_xml_parse reads as the same tree exactly when no name in the tree
      is markup, it has the shape of a parsed one and is good; the newline and the prolog make no
      difference. */
  lemma DocumentRoundTrip(n: Node, len: nat, prolog: bool)
    ensures Parse(DocumentText(n, prolog) + Ending(n, len, prolog)) == Some(n) <==> Plain(n) && Shaped(n) && Good(n)
  {
    hide Prolog, NodeText;
    var front, ending := if prolog then Prolog() else "", Ending(n, len, prolog);
    assert DocumentText(n, prolog) + ending == front + (NodeText(n, 0) + ending);
    assert Openings(ending, true) == 0;
    AnyRoundTrip(n, prolog, ending);
  }

  /** A document whose node fits is its prolog and node, and a newline unless they fill the buffer to
      the last byte; the number of its bytes is returned. Into no bytes at all nothing is written and 0
      is returned, and -1 for a prolog that does not fit or, without one, for a node that does not. */
  lemma DocumentReturns(n: Node, len: nat, prolog: bool, text: string)
    requires text == (if prolog then Prolog() else "") + NodeText(n, 0)
    ensures var size := if prolog then len - 39 else len;
            if len == 0 then DocumentLength(n, len, prolog) == 0 && DocumentBegun(n, len, prolog) == ""
            else if size < 0 then DocumentLength(n, len, prolog) == -1 && DocumentBegun(n, len, prolog) == ""
            else if Fits(n, 0, size) then
              && DocumentLength(n, len, prolog) == |DocumentBegun(n, len, prolog)|
              && DocumentBegun(n, len, prolog) == if |text| == len then text else text + "\n"
            else !prolog ==> DocumentLength(n, len, prolog) == -1
  {
    hide Prolog, NodeText, Fits;
    PrologIs39Bytes();
    assert text + "" == text;
  }

  /** With a prolog, 39 is returned exactly when the node does not fit: -1 is not. */
  lemma FailureLooksLikeLength(n: Node, len: nat)
    requires len >= 39
    ensures DocumentLength(n, len, true) == 39 <==> !Fits(n, 0, len - 39)
    ensures DocumentLength(n, len, true) > 0
  {
    hide Prolog;
    PrologIs39Bytes();
    assert |NodeText(n, 0)| >= 1;
  }
}
