/** The loops of common/qxml.cc: the parser that moves a pointer over the text, sets the error of its document
    and appends children, and the printer that appends to a buffer. */
module XmlDocument {
  import opened XmlText
  import opened XmlParser
  import XmlGrammar
  import opened XmlRejects
  import opened XmlRoundTrip

  // ---------------------------------------------------------------- appending

  lemma {:induction false} AppendAssoc(a: Nodes, b: Nodes, c: Nodes)
    ensures Append(Append(a, b), c) == Append(a, Append(b, c))
  {
    if a.Cons? { AppendAssoc(a.tail, b, c); }
  }

  /** One more child, at the end. */
  lemma AppendOne(a: Nodes, n: Node, more: Nodes)
    ensures Append(Append(a, Cons(n, Nil)), more) == Append(a, Cons(n, more))
  {
    AppendAssoc(a, Cons(n, Nil), more);
  }

  class Document {
    var errorID: Error
    var children: Nodes

    constructor ()
      ensures errorID == NoError && children == Nil
    {
      errorID, children := NoError, Nil;
    }

    /** `XMLAttribute::ParseDeep` */
    method ParseAttribute(s: string) returns (r: AttrResult)
      ensures r == ParseAttr(s)
    {
      var name := ParseName(s);
      if name.NoToken? || name.rest == "" { return BadAttr; }
      var p := SkipWhiteSpace(name.rest);
      if p == "" || p[0] != '=' { return BadAttr; }
      p := p[1..];
      p := SkipWhiteSpace(p);
      if p == "" || (p[0] != '"' && p[0] != '\'') { return BadAttr; }
      var endTag := [p[0]];
      p := p[1..];
      var value := ParseText(p, endTag);
      r := if value.NoToken? then BadAttr else GoodAttr(Attr(name.value, value.value), value.rest);
    }

    /** `ParseAttributes`: fails exactly when it sets the error. */
    method ParseAttributes(s: string, opening: Closing)
        returns (ok: bool, attrs: seq<Attr>, closing: Closing, p: string)
      modifies this`errorID
      ensures var r := ParseAttrs(s, [], opening);
              match r
              case Tag(a, c, rest) => ok && attrs == a && closing == c && p == rest && errorID == old(errorID)
              case BadTag(error) => !ok && errorID == error
    {
      attrs, closing, p := [], opening, s;
      while true
        invariant ParseAttrs(p, attrs, opening) == ParseAttrs(s, [], opening)
        invariant errorID == old(errorID) && closing == opening
        decreases |p|
      {
        var at := SkipWhiteSpace(p);
        if at == "" {
          errorID := ParsingElement;
          return false, attrs, closing, "";
        }
        if IsNameStart(at[0]) {
          var a := ParseAttribute(at);
          if a.BadAttr? || HasAttr(attrs, a.attr.name) {
            errorID := ParsingAttribute;
            return false, attrs, closing, "";
          }
          attrs, p := attrs + [a.attr], a.rest;
        } else if at[0] == '/' && |at| > 1 && at[1] == '>' {
          return true, attrs, Closed, at[2..];
        } else if at[0] == '>' {
          return true, attrs, closing, at[1..];
        } else {
          errorID := ParsingElement;
          return false, attrs, closing, "";
        }
      }
    }

    /** `Identify`: the kind of the node at `p` and where its content begins. */
    method Identify(s: string, p: string) returns (k: Kind, q: string)
      requires p == SkipSpace(s) && p != ""
      ensures k == KindOf(p) && q == if k == KText then s else p[HeaderLength(k)..]
      ensures k == KElement ==> |q| < |s|
    {
      if "<?" <= p { return KDeclaration, p[2..]; }
      if "<!--" <= p { return KComment, p[4..]; }
      if "<![CDATA[" <= p { return KCdata, p[9..]; }
      if "<!" <= p { return KUnknown, p[2..]; }
      if "<" <= p { return KElement, p[1..]; }
      k, q := KText, s;
    }

    /** `ParseDeep` of the nodes without children. */
    method LeafParseDeep(k: Kind, q: string) returns (one: One)
      requires k != KElement
      modifies this`errorID
      ensures match k
              case KDeclaration => one == Leaf(ScanText(q, "?>"), v => Declaration(v), ParsingDeclaration)
              case KComment => one == Leaf(ScanText(q, "-->"), v => Comment(v), ParsingComment)
              case KCdata => one == Leaf(ScanText(q, "]]>"), v => Text(v, true), ParsingCdata)
              case KUnknown => one == Leaf(ScanText(q, ">"), v => Unknown(v), ParsingUnknown)
              case KText => one == TextLeaf(q)
      ensures errorID == if one.NoNode? && one.error != NoError then one.error else old(errorID)
    {
      var t;
      match k {
        case KDeclaration => t := ParseText(q, "?>");
            one := if t.Token? then One(Declaration(t.value), t.rest, "") else NoNode(ParsingDeclaration);
        case KComment => t := ParseText(q, "-->");
            one := if t.Token? then One(Comment(t.value), t.rest, "") else NoNode(ParsingComment);
        case KCdata => t := ParseText(q, "]]>");
            one := if t.Token? then One(Text(t.value, true), t.rest, "") else NoNode(ParsingCdata);
        case KUnknown => t := ParseText(q, ">");
            one := if t.Token? then One(Unknown(t.value), t.rest, "") else NoNode(ParsingUnknown);
        case KText =>
          t := ParseText(q, "<");
          one := if t.NoToken? then NoNode(ParsingText)
                 else if t.rest == "" then NoNode(NoError)
                 else One(Text(t.value, false), q[|t.value|..], "");
      }
      if one.NoNode? && one.error != NoError { errorID := one.error; }
    }

    /** `XMLElement::ParseDeep` */
    method ElementParseDeep(s: string) returns (one: One)
      requires errorID == NoError
      modifies this`errorID
      ensures one == ParseElement(s)
      ensures errorID == if one.NoNode? then one.error else NoError
      decreases |s|, 1
    {
      var p := SkipWhiteSpace(s);
      var closing := Open;
      if p != "" && p[0] == '/' {
        closing := Closing;
        p := p[1..];
      }
      var name := ParseName(p);
      if name.NoToken? { return NoNode(NoError); }
      var ok, attrs;
      ok, attrs, closing, p := ParseAttributes(name.rest, closing);
      if !ok { return NoNode(errorID); }
      if p == "" || closing != Open {
        return One(Element(name.value, attrs, closing, Nil), p, "");
      }
      var nodes, end := NodeParseDeep(p);
      one := match end
        case Stopped(error) => NoNode(error)
        case ByTag(endTag, rest) => One(Element(name.value, attrs, closing, nodes), rest, endTag);
    }

    /** `node->ParseDeep` for the node at the pointer. */
    method OneParseDeep(s: string, p: string) returns (one: One)
      requires p == SkipSpace(s) && p != "" && errorID == NoError
      modifies this`errorID
      ensures one == ParseOne(s, p)
      ensures errorID == if one.NoNode? then one.error else NoError
      decreases |s|, 0
    {
      var k, q := Identify(s, p);
      if k == KElement { one := ElementParseDeep(q); } else { one := LeafParseDeep(k, q); }
    }

    /** `XMLNode::ParseDeep` */
    method NodeParseDeep(s: string) returns (nodes: Nodes, end: End)
      requires errorID == NoError
      modifies this`errorID
      ensures Many(nodes, end) == ParseNodes(s)
      ensures errorID == if end.Stopped? then end.error else NoError
      decreases |s|, 2
    {
      nodes := Nil;
      var p := s;
      while p != ""
        invariant ParseNodes(s) == After(nodes, ParseNodes(p))
        invariant errorID == NoError && |p| <= |s|
        decreases |p|
      {
        var at := SkipWhiteSpace(p);
        if at == "" { break; }
        var one := OneParseDeep(p, at);
        AppendNil(nodes);
        if one.NoNode? {
          if errorID == NoError { errorID := Parsing; }
          return nodes, Stopped(errorID);
        }
        if one.node.Element? && one.node.closing == Closing {
          return nodes, ByTag(one.node.name, one.rest);
        }
        if Mismatched(one.node, one.endTag) {
          errorID := MismatchedElement;
          return nodes, Stopped(errorID);
        }
        AppendOne(nodes, one.node, ParseNodes(one.rest).nodes);
        nodes := Append(nodes, Cons(one.node, Nil));
        p := one.rest;
      }
      AppendNil(nodes);
      end := Stopped(NoError);
    }

    /** `XMLDocument::Parse` of a new document. */
    method Parse(xml: string) returns (error: Error)
      requires errorID == NoError && children == Nil
      modifies this
      ensures XmlParser.Document(children, error) == ParseDocument(xml) && errorID == error
      ensures error == NoError <==> exists gap, l, f :: IsDocument(xml, gap, l, f, children)
    {
      var p := SkipWhiteSpace(xml);
      if p == "" {
        errorID := EmptyStr;
        AcceptedExactly(xml, Nil);
        return errorID;
      }
      var end;
      children, end := NodeParseDeep(p);
      error := errorID;
      AcceptedExactly(xml, children);
    }
  }

  function After(nodes: Nodes, r: Many): Many
  {
    Many(Append(nodes, r.nodes), r.end)
  }

  // ---------------------------------------------------------------- printing

  lemma {:induction false} AttrsAppend(attrs: seq<Attr>, r: string)
    ensures AttrsTo(attrs, r) == AttrsTo(attrs, "") + r
  {
    if attrs != [] { AttrsAppend(attrs[1..], r); }
  }

  lemma {:induction false} PrintAppends(n: Node, r: string)
    ensures PrintTo(n, r) == PrintTo(n, "") + r
    decreases n, 1
  {
    if n.Element? {
      var close := CloseTo(n.name, "");
      assert CloseTo(n.name, r) == close + r;
      BodyAppends(n.children, CloseTo(n.name, r));
      BodyAppends(n.children, close);
      var body := BodyTo(n.children, "");
      assert ">" + BodyTo(n.children, CloseTo(n.name, r)) == (">" + BodyTo(n.children, close)) + r;
      AttrsAppend(n.attrs, ">" + BodyTo(n.children, CloseTo(n.name, r)));
      AttrsAppend(n.attrs, ">" + BodyTo(n.children, close));
    }
  }

  lemma {:induction false} BodyAppends(ns: Nodes, r: string)
    ensures BodyTo(ns, r) == BodyTo(ns, "") + r
    decreases ns, 2
  {
    if HasElement(ns) { ElementsAppend(ns, r); }
  }

  lemma {:induction false} ElementsAppend(ns: Nodes, r: string)
    ensures ElementsTo(ns, r) == ElementsTo(ns, "") + r
    decreases ns, 1
  {
    if ns.Cons? {
      ElementsAppend(ns.tail, r);
      PrintAppends(ns.head, ElementsTo(ns.tail, r));
      PrintAppends(ns.head, ElementsTo(ns.tail, ""));
    }
  }

  method AppendAttributes(attrs: seq<Attr>, xml: string) returns (out: string)
    ensures out == xml + AttrsTo(attrs, "")
  {
    out := xml;
    for i := 0 to |attrs|
      invariant out + AttrsTo(attrs[i..], "") == xml + AttrsTo(attrs, "")
    {
      assert attrs[i..][1..] == attrs[i + 1..];
      out := out + " " + attrs[i].name + "=" + "\"" + attrs[i].value + "\"";
    }
  }

  method AppendElements(ns: Nodes, xml: string) returns (out: string)
    ensures out == xml + ElementsTo(ns, "")
    decreases ns, 1
  {
    out := xml;
    var child := ns;
    while child.Cons?
      invariant child == ns || child < ns
      invariant out + ElementsTo(child, "") == xml + ElementsTo(ns, "")
      decreases child
    {
      PrintAppends(child.head, ElementsTo(child.tail, ""));
      if child.head.Element? { out := ToXML(child.head, out); }
      child := child.tail;
    }
  }

  method AppendBody(ns: Nodes, xml: string) returns (out: string)
    ensures out == xml + BodyTo(ns, "")
    decreases ns, 2
  {
    out := xml;
    if HasElement(ns) {
      out := out + "\n";
      out := AppendElements(ns, out);
    } else if ns.Cons? && ns.head.Text? {
      var text := ns.head;
      if text.cdata { out := out + "<![CDATA["; }
      out := out + text.value;
      if text.cdata { out := out + "]]>"; }
    }
  }

  lemma PrintShape(n: Node)
    requires n.Element?
    ensures Print(n) == "<" + n.name + AttrsTo(n.attrs, "") + ">" + BodyTo(n.children, "") + CloseTo(n.name, "")
  {
    var close := CloseTo(n.name, "");
    BodyAppends(n.children, close);
    AttrsAppend(n.attrs, ">" + BodyTo(n.children, close));
  }

  /** `ToXML(element, buffer)`: appends exactly the printed form. */
  method ToXML(n: Node, xml: string) returns (out: string)
    requires n.Element?
    ensures out == xml + Print(n)
    decreases n, 2
  {
    PrintShape(n);
    var start := xml + "<" + n.name;
    var open := AppendAttributes(n.attrs, start);
    var body := AppendBody(n.children, open + ">");
    out := body + "</" + n.name + ">" + "\n";
    assert out == body + CloseTo(n.name, "");
  }
}
