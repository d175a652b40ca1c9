/** XML trees, their printed text, and what xml.c reads out of a text: the printer and the
    parser as functions. A parser takes the text that is left and gives back what it has
    read and the text behind it. */
module XmlText {
  import opened Wrappers

  datatype Attr = Attr(name: string, value: string)

  datatype Node = Node(name: string, attrs: seq<Attr>, children: seq<Node>, content: string)

  // ----- Printing -----

  function Spaces(n: nat): (s: string)
    ensures |s| == n && forall i :: 0 <= i < n ==> s[i] == ' '
  {
    seq(n, i => ' ')
  }

  /** An empty value is not printed. */
  function ValueText(v: string): string {
    if v == "" then "" else "=\"" + (v + "\"")
  }

  function AttrText(a: Attr): (s: string)
    ensures s != "" && s[0] == ' '
  {
    " " + (a.name + ValueText(a.value))
  }

  function AttrsText(attrs: seq<Attr>): string {
    if attrs == [] then "" else AttrText(attrs[0]) + AttrsText(attrs[1..])
  }

  /** From the '<' of the node to the '>' that ends it, at a depth */
  function NodeText(n: Node, indent: nat): string
    decreases n, 1
  {
    "<" + (n.name + (AttrsText(n.attrs) + BodyText(n, indent)))
  }

  predicate Empty(n: Node) {
    n.children == [] && n.content == ""
  }

  function BodyText(n: Node, indent: nat): string
    decreases n, 0
  {
    if Empty(n) then " />" else ">" + (ChildrenText(n.children, indent) + (n.content + CloseText(n, indent)))
  }

  /** Every child on a line of its own, indented below its parent */
  function ChildrenText(children: seq<Node>, indent: nat): string
    decreases children
  {
    if children == [] then ""
    else "\n" + (Spaces(indent + 1) + (NodeText(children[0], indent + 1) + ChildrenText(children[1..], indent)))
  }

  function CloseText(n: Node, indent: nat): string {
    (if n.children == [] then "" else "\n" + Spaces(indent)) + ("</" + (n.name + ">"))
  }

  // ----- The scanner -----

  predicate IsSpace(c: char) {
    c == ' ' || c == '\t'
  }

  predicate IsBlank(c: char) {
    IsSpace(c) || c == '\r' || c == '\n'
  }

  /** The text behind the blanks it begins with */
  function Skip(s: string): (r: string)
    ensures |r| <= |s| && (r != "" ==> !IsBlank(r[0]))
  {
    if s != "" && IsBlank(s[0]) then Skip(s[1..]) else s
  }

  /** No blank comes first. */
  predicate Skipped(s: string) {
    s != "" ==> !IsBlank(s[0])
  }

  /** How many characters come before the first one in `stops` */
  function Span(s: string, stops: string): (k: nat)
    ensures k <= |s| && (k < |s| ==> s[k] in stops)
    ensures forall i :: 0 <= i < k ==> s[i] !in stops
  {
    if s == "" || s[0] in stops then 0 else 1 + Span(s[1..], stops)
  }

  /** pj_scan_get_until_chr and pj_scan_get_until_ch */
  function GetUntil(s: string, stops: string): Option<(string, string)> {
    if s == "" then None
    else
      var k := Span(s, stops);
      Some((s[..k], Skip(s[k..])))
  }

  /** pj_scan_get_char: there is a character, and it is not the zero that ends the buffer. */
  function GetChar(s: string): Option<(char, string)> {
    if s == "" || s[0] == '\0' then None else Some((s[0], Skip(s[1..])))
  }

  /** pj_scan_get_char, when only one character will do */
  function Expect(s: string, c: char): (r: Option<string>)
    ensures r.Some? ==> |r.value| < |s| && Skipped(r.value)
  {
    match GetChar(s)
    case Some((d, rest)) => if d == c then Some(rest) else None
    case None => None
  }

  /** How many backslashes end at `e` */
  function Run(s: string, e: int): (n: nat)
    requires -1 <= e < |s|
    ensures n <= e + 1
    ensures forall i :: e - n < i <= e ==> s[i] == '\\'
    ensures 0 <= e - n ==> s[e - n] != '\\'
    decreases e + 1
  {
    if e == -1 || s[e] != '\\' then 0 else 1 + Run(s, e - 1)
  }

  /** Where a quoted text that begins with its quote at s[0] ends. A quote behind a backslash
      does not end it if the run of backslashes is odd; if the run is even, the place behind
      the quote is taken for the end, if another quote stands there. `first`: the text begins
      the buffer, where a single backslash before the quote is not looked at. */
  function FindClose(s: string, k: nat, first: bool): (c: Option<nat>)
    requires 1 <= k <= |s|
    ensures c.Some? ==> k <= c.value < |s| && s[c.value] == s[0]
    decreases |s| - k
  {
    if k == |s| || s[k] == '\n' then None
    else if s[k] != s[0] then FindClose(s, k + 1, first)
    else if s[k - 1] != '\\' || k == 1 || (first && k == 2) then Some(k)
    else if Run(s, k - 2) % 2 == 0 then FindClose(s, k + 1, first)
    else if k + 1 < |s| && s[k + 1] == s[0] then Some(k + 1)
    else None
  }

  /** pj_scan_get_quotes for '"' and '\'': the text between the quotes, and what is behind */
  function GetQuotes(s: string, first: bool): (r: Option<(string, string)>)
    ensures r.Some? ==> |r.value.1| < |s| && Skipped(r.value.1)
  {
    if s == "" || (s[0] != '"' && s[0] != '\'') then None
    else
      match FindClose(s, 1, first)
      case Some(c) => Some((s[1..c], Skip(s[c + 1..])))
      case None => None
  }

  // ----- Parsing -----

  const NODE_STOPS := " />\t"
  const ATTR_STOPS := "=> \t"
  const END_STOPS := " \t>"

  /** The text behind a processing instruction, from behind its "<?" */
  function SkipInstruction(s: string): (r: Option<string>)
    ensures r.Some? ==> |r.value| < |s|
    decreases |s|
  {
    if s == "" then None
    else
      var t := s[Span(s, "?")..];
      // What stands at t[0] is '?', which no blank follows, or the end.
      if t == "" then None
      else if |t| >= 2 && t[1] == '>' then Some(Skip(t[2..]))
      else SkipInstruction(t[1..])
  }

  /** The text behind a comment, from behind its "<!" */
  function SkipComment(s: string): (r: Option<string>)
    ensures r.Some? ==> |r.value| < |s|
  {
    if s == "" then None
    else
      var t := s[Span(s, ">")..];
      if t == "" then None else Some(Skip(t[1..]))
  }

  function ParseAttr(s: string): (r: Option<(Attr, string)>)
    requires Skipped(s)
    ensures r.Some? ==> |r.value.1| <= |s| && Skipped(r.value.1)
    ensures r.Some? && s != "" && s[0] != '>' ==> |r.value.1| < |s|
  {
    match GetUntil(s, ATTR_STOPS)
    case None => None
    case Some((name, t)) =>
      if t != "" && t[0] == '=' then
        match GetQuotes(Skip(t[1..]), false)
        case None => None
        case Some((value, rest)) => Some((Attr(name, value), rest))
      else Some((Attr(name, ""), t))
  }

  /** The attributes up to a '>' or '/', which is there */
  function ParseAttrs(s: string): (r: Option<(seq<Attr>, string)>)
    requires Skipped(s)
    ensures r.Some? ==> |r.value.1| <= |s| && r.value.1 != "" && r.value.1[0] in ">/"
    decreases |s|
  {
    if s != "" && s[0] in ">/" then Some(([], s))
    else
      match ParseAttr(s)
      case None => None
      case Some((a, t)) =>
        match ParseAttrs(t)
        case None => None
        case Some((rest, end)) => Some(([a] + rest, end))
  }

  function LowerChar(c: char): char {
    if 'A' <= c <= 'Z' then (c as int + 32) as char else c
  }

  function Lower(s: string): (l: string)
    ensures |l| == |s| && forall i :: 0 <= i < |s| ==> l[i] == LowerChar(s[i])
  {
    seq(|s|, i requires 0 <= i < |s| => LowerChar(s[i]))
  }

  /** pj_stricmp(a, b) == 0 */
  predicate SameName(a: string, b: string) {
    Lower(a) == Lower(b)
  }

  /** The end of a node with a body: its closing tag, whose name may differ in case */
  function ParseClose(s: string, name: string): (r: Option<string>)
    ensures r.Some? ==> |r.value| < |s|
  {
    match Expect(s, '<')
    case None => None
    case Some(t) =>
      match Expect(t, '/')
      case None => None
      case Some(u) =>
        match GetUntil(u, END_STOPS)
        case None => None
        case Some((end, v)) => if SameName(name, end) then Expect(v, '>') else None
  }

  /** The text between the children and the closing tag */
  function ParseContent(s: string): (r: Option<(string, string)>)
    ensures r.Some? ==> |r.value.1| <= |s|
  {
    if s != "" && s[0] != '<' then GetUntil(s, "<") else Some(("", s))
  }

  /** xml_parse_node */
  function ParseNode(s: string): (r: Option<(Node, string)>)
    ensures r.Some? ==> |r.value.1| < |s|
    decreases |s|, 1
  {
    if s == "" || s[0] != '<' || |s| < 2 then None
    else if s[1] == '?' then
      match SkipInstruction(s[2..])
      case None => None
      case Some(t) => ParseNode(t)
    else if s[1] == '!' then
      match SkipComment(s[2..])
      case None => None
      case Some(t) => ParseNode(t)
    else ParseElement(s)
  }

  function ParseElement(s: string): (r: Option<(Node, string)>)
    requires s != ""
    ensures r.Some? ==> |r.value.1| < |s|
    decreases |s|, 0
  {
    match GetUntil(Skip(s[1..]), NODE_STOPS)
    case None => None
    case Some((name, t)) =>
      match ParseAttrs(t)
      case None => None
      case Some((attrs, u)) =>
        if u[0] == '/' then
          match Expect(Skip(u[1..]), '>')
          case None => None
          case Some(rest) => Some((Node(name, attrs, [], ""), rest))
        else ParseBody(Skip(u[1..]), name, attrs)
  }

  function ParseBody(s: string, name: string, attrs: seq<Attr>): (r: Option<(Node, string)>)
    ensures r.Some? ==> |r.value.1| < |s| && r.value.0.name == name && r.value.0.attrs == attrs
    decreases |s|, 3
  {
    match ParseChildren(s)
    case None => None
    case Some((children, t)) =>
      match ParseContent(t)
      case None => None
      case Some((content, u)) =>
        match ParseClose(u, name)
        case None => None
        case Some(rest) => Some((Node(name, attrs, children, content), rest))
  }

  /** Nodes as long as a '<' comes that no '/' follows */
  function ParseChildren(s: string): (r: Option<(seq<Node>, string)>)
    ensures r.Some? ==> |r.value.1| <= |s|
    decreases |s|, 2
  {
    if s == "" || s[0] != '<' || (|s| >= 2 && s[1] == '/') then Some(([], s))
    else
      match ParseNode(s)
      case None => None
      case Some((n, t)) =>
        match ParseChildren(t)
        case None => None
        case Some((rest, end)) => Some(([n] + rest, end))
  }

  /** pj_xml_parse: what follows the first node is not looked at. */
  function Parse(s: string): Option<Node> {
    match ParseNode(Skip(s))
    case None => None
    case Some((n, _)) => Some(n)
  }
}
