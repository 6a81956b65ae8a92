/** The tree and the recursive parser of common/qxml.cc, as a function of the text that is left. */
module XmlParser {
  import opened XmlText

  // ---------------------------------------------------------------- the tree

  datatype Attr = Attr(name: string, value: string)

  datatype Closing = Open | Closed | Closing

  datatype Node =
    | Element(name: string, attrs: seq<Attr>, closing: Closing, children: Nodes)
    | Text(value: string, cdata: bool)
    | Comment(value: string)
    | Declaration(value: string)
    | Unknown(value: string)

  /** Children, from `_firstChild` to `_lastChild`. */
  datatype Nodes = Nil | Cons(head: Node, tail: Nodes)

  datatype Error =
    | NoError
    | EmptyStr
    | ParsingElement
    | ParsingAttribute
    | ParsingText
    | ParsingCdata
    | ParsingComment
    | ParsingDeclaration
    | ParsingUnknown
    | MismatchedElement
    | Parsing

  /** `FindAttribute` */
  function HasAttr(attrs: seq<Attr>, name: string): bool
  {
    exists i :: 0 <= i < |attrs| && attrs[i].name == name
  }

  // ---------------------------------------------------------------- attributes

  datatype AttrResult = BadAttr | GoodAttr(attr: Attr, rest: string)

  /** `XMLAttribute::ParseDeep` */
  function ParseAttr(s: string): (r: AttrResult)
    ensures r.GoodAttr? ==> |r.rest| < |s|
  {
    var name := ScanName(s);
    if name.NoToken? || name.rest == "" then BadAttr
    else
      var p := SkipSpace(name.rest);
      if p == "" || p[0] != '=' then BadAttr
      else
        var q := SkipSpace(p[1..]);
        if q == "" || (q[0] != '"' && q[0] != '\'') then BadAttr
        else
          var value := ScanText(q[1..], [q[0]]);
          if value.NoToken? then BadAttr else GoodAttr(Attr(name.value, value.value), value.rest)
  }

  /** Where the attributes end, or the error. */
  datatype Tag = BadTag(error: Error) | Tag(attrs: seq<Attr>, closing: Closing, rest: string)

  /** `ParseAttributes`, when some attributes have been read. */
  function ParseAttrs(s: string, attrs: seq<Attr>, closing: Closing): (r: Tag)
    ensures r.Tag? ==> |r.rest| < |s|
    decreases |s|
  {
    var p := SkipSpace(s);
    if p == "" then BadTag(ParsingElement)
    else if IsNameStart(p[0]) then
      var a := ParseAttr(p);
      if a.BadAttr? || HasAttr(attrs, a.attr.name) then BadTag(ParsingAttribute)
      else ParseAttrs(a.rest, attrs + [a.attr], closing)
    else if p[0] == '/' && |p| > 1 && p[1] == '>' then Tag(attrs, Closed, p[2..])
    else if p[0] == '>' then Tag(attrs, closing, p[1..])
    else BadTag(ParsingElement)
  }

  // ---------------------------------------------------------------- nodes

  datatype Kind = KDeclaration | KComment | KCdata | KUnknown | KElement | KText

  /** `Identify`, after white space was skipped. */
  function KindOf(p: string): Kind
  {
    if "<?" <= p then KDeclaration
    else if "<!--" <= p then KComment
    else if "<![CDATA[" <= p then KCdata
    else if "<!" <= p then KUnknown
    else if "<" <= p then KElement
    else KText
  }

  function HeaderLength(k: Kind): nat
  {
    match k
    case KDeclaration => 2
    case KComment => 4
    case KCdata => 9
    case KUnknown => 2
    case KElement => 1
    case KText => 0
  }

  /** A node, the text behind it and the name of the closing tag that ended it; or nothing and perhaps an error. */
  datatype One = NoNode(error: Error) | One(node: Node, rest: string, endTag: string)

  /** The nodes of one level, and why it ended: no text left or an error, or a closing tag. */
  datatype Many = Many(nodes: Nodes, end: End)

  datatype End = Stopped(error: Error) | ByTag(name: string, rest: string)

  function Leaf(t: Token, make: string -> Node, error: Error): One
  {
    if t.NoToken? then NoNode(error) else One(make(t.value), t.rest, "")
  }

  /** `XMLText::ParseDeep` outside CDATA: the `<` stays in the text, and something must follow it. */
  function TextLeaf(s: string): (r: One)
    ensures r.One? ==> |r.rest| <= |s|
    ensures r.One? && s != "" && s[0] != '<' ==> |r.rest| < |s|
  {
    var i := IndexOf(s, "<");
    if i < 0 then NoNode(ParsingText)
    else if i + 1 == |s| then NoNode(NoError)
    else One(Text(s[..i], false), s[i..], "")
  }

  /** `node->ParseDeep` for the node identified at `p`; a text keeps the white space before it. */
  function ParseOne(s: string, p: string): (r: One)
    requires p == SkipSpace(s) && p != ""
    ensures r.One? ==> |r.rest| < |s|
    decreases |s|, 0
  {
    var k := KindOf(p);
    var q := p[HeaderLength(k)..];
    match k
    case KDeclaration => Leaf(ScanText(q, "?>"), v => Declaration(v), ParsingDeclaration)
    case KComment => Leaf(ScanText(q, "-->"), v => Comment(v), ParsingComment)
    case KCdata => Leaf(ScanText(q, "]]>"), v => Text(v, true), ParsingCdata)
    case KUnknown => Leaf(ScanText(q, ">"), v => Unknown(v), ParsingUnknown)
    case KElement => ParseElement(q)
    case KText => TextLeaf(s)
  }

  /** `XMLElement::ParseDeep`, behind the `<`. */
  function ParseElement(s: string): (r: One)
    ensures r.One? ==> |r.rest| <= |s|
    decreases |s|, 1
  {
    var p := SkipSpace(s);
    var closing := if p != "" && p[0] == '/' then Closing else Open;
    var name := ScanName(if closing == Closing then p[1..] else p);
    if name.NoToken? then NoNode(NoError)
    else
      var tag := ParseAttrs(name.rest, [], closing);
      if tag.BadTag? then NoNode(tag.error)
      else if tag.rest == "" || tag.closing != Open then
        One(Element(name.value, tag.attrs, tag.closing, Nil), tag.rest, "")
      else
        var inner := ParseNodes(tag.rest);
        match inner.end
        case Stopped(error) => NoNode(error)
        case ByTag(endTag, rest) => One(Element(name.value, tag.attrs, tag.closing, inner.nodes), rest, endTag)
  }

  /** The closing tag does not fit the element. */
  function Mismatched(node: Node, endTag: string): bool
  {
    node.Element? &&
      if endTag == "" then node.closing == Open else node.closing != Open || endTag != node.name
  }

  /** `XMLNode::ParseDeep` */
  function ParseNodes(s: string): (r: Many)
    ensures r.end.ByTag? ==> |r.end.rest| <= |s|
    decreases |s|, 2
  {
    var p := SkipSpace(s);
    if p == "" then Many(Nil, Stopped(NoError))
    else
      var one := ParseOne(s, p);
      match one
      case NoNode(error) => Many(Nil, Stopped(if error == NoError then Parsing else error))
      case One(node, rest, endTag) =>
        if node.Element? && node.closing == Closing then Many(Nil, ByTag(node.name, rest))
        else if Mismatched(node, endTag) then Many(Nil, Stopped(MismatchedElement))
        else Before(node, ParseNodes(rest))
  }

  function Before(node: Node, r: Many): Many
  {
    Many(Cons(node, r.nodes), r.end)
  }

  datatype Document = Document(children: Nodes, error: Error)

  /** `XMLDocument::Parse`; a closing tag on the top level ends it without an error. */
  function ParseDocument(xml: string): Document
  {
    var p := SkipSpace(xml);
    if p == "" then Document(Nil, EmptyStr)
    else
      var r := ParseNodes(p);
      Document(r.nodes, if r.end.Stopped? then r.end.error else NoError)
  }
}
