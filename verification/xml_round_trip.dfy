/** The printer of common/qxml.cc and what the parser makes of its output. */
module XmlRoundTrip {
  import opened XmlText
  import opened XmlParser

  // ---------------------------------------------------------------- the printer

  /** The attributes, then `rest`. */
  function AttrsTo(attrs: seq<Attr>, rest: string): string
  {
    if attrs == [] then rest
    else " " + (attrs[0].name + ("=\"" + (attrs[0].value + ("\"" + AttrsTo(attrs[1..], rest)))))
  }

  function HasElement(ns: Nodes): bool
  {
    ns.Cons? && (ns.head.Element? || HasElement(ns.tail))
  }

  function TextTo(n: Node, rest: string): string
  {
    if !n.Text? then rest
    else if n.cdata then "<![CDATA[" + (n.value + ("]]>" + rest))
    else n.value + rest
  }

  /** `ToXML` of an element, then `rest`. */
  function PrintTo(n: Node, rest: string): string
    decreases n, 1
  {
    if !n.Element? then rest
    else "<" + (n.name + AttrsTo(n.attrs, ">" + BodyTo(n.children, CloseTo(n.name, rest))))
  }

  function CloseTo(name: string, rest: string): string
  {
    "</" + (name + (">" + ("\n" + rest)))
  }

  /** The child elements if there are any, otherwise a text if it is the first child. */
  function BodyTo(ns: Nodes, rest: string): string
    decreases ns, 2
  {
    if HasElement(ns) then "\n" + ElementsTo(ns, rest)
    else if ns.Cons? then TextTo(ns.head, rest)
    else rest
  }

  function ElementsTo(ns: Nodes, rest: string): string
    decreases ns, 1
  {
    if ns.Nil? then rest else PrintTo(ns.head, ElementsTo(ns.tail, rest))
  }

  function Print(n: Node): string { PrintTo(n, "") }

  /** A printed element to the last character. */
  lemma PrintedSample(b: Node)
    requires b == Element("b", [], Open, Cons(Text("t", true), Nil))
    ensures Print(Element("a", [Attr("x", "1")], Open, Cons(b, Nil))) ==
            "<a x=\"1\">" + ("\n" + ("<b>" + ("<![CDATA[t]]>" + ("</b>\n" + "</a>\n"))))
  {
    var body := BodyTo(Cons(b, Nil), CloseTo("a", ""));
    PrintedBody(b);
    PrintedAttr(body);
    StartTag(body);
  }

  lemma StartTag(body: string)
    ensures "<" + ("a" + (" x=\"1\">" + body)) == "<a x=\"1\">" + body
  {
  }

  lemma PrintedBody(b: Node)
    requires b == Element("b", [], Open, Cons(Text("t", true), Nil))
    ensures BodyTo(Cons(b, Nil), CloseTo("a", "")) == "\n" + ("<b>" + ("<![CDATA[t]]>" + ("</b>\n" + "</a>\n")))
  {
    var close := CloseTo("a", "");
    assert close == "</a>\n";
    PrintedLeaf(close);
    assert ElementsTo(Cons(b, Nil), close) == PrintTo(b, ElementsTo(Nil, close));
  }

  lemma PrintedAttr(body: string)
    ensures AttrsTo([Attr("x", "1")], ">" + body) == " x=\"1\">" + body
  {
    var attrs := [Attr("x", "1")];
    assert attrs[1..] == [];
    assert AttrsTo(attrs[1..], ">" + body) == ">" + body;
  }

  lemma PrintedLeaf(rest: string)
    ensures PrintTo(Element("b", [], Open, Cons(Text("t", true), Nil)), rest) ==
            "<b>" + ("<![CDATA[t]]>" + ("</b>\n" + rest))
  {
    var close := CloseTo("b", rest);
    assert close == "</b>\n" + rest;
    assert BodyTo(Cons(Text("t", true), Nil), close) == TextTo(Text("t", true), close);
    PrintedText(close);
  }

  lemma PrintedText(close: string)
    ensures TextTo(Text("t", true), close) == "<![CDATA[t]]>" + close
  {
  }

  // ---------------------------------------------------------------- what survives

  function Blank(s: string): bool { SkipSpace(s) == "" }

  /** The element as the printer shows it. */
  function Normal(n: Node): Node
    decreases n, 1
  {
    if !n.Element? then n else Element(n.name, n.attrs, Open, NormalBody(n.children))
  }

  function NormalBody(ns: Nodes): Nodes
    decreases ns, 2
  {
    if HasElement(ns) then NormalElements(ns)
    else if ns.Cons? && ns.head.Text? && (ns.head.cdata || !Blank(ns.head.value)) then Cons(ns.head, Nil)
    else Nil
  }

  function NormalElements(ns: Nodes): Nodes
    decreases ns, 1
  {
    if ns.Nil? then Nil
    else if ns.head.Element? then Cons(Normal(ns.head), NormalElements(ns.tail))
    else NormalElements(ns.tail)
  }

  /** Valid names, no name twice. */
  ghost predicate SaneAttrs(attrs: seq<Attr>)
  {
    && (forall i :: 0 <= i < |attrs| ==> ValidName(attrs[i].name))
    && (forall i, j :: 0 <= i < j < |attrs| ==> attrs[i].name != attrs[j].name)
  }

  predicate QuotelessAttrs(attrs: seq<Attr>)
  {
    forall i :: 0 <= i < |attrs| ==> '"' !in attrs[i].value
  }

  /** And no `"` in a value. */
  ghost predicate PrintableAttrs(attrs: seq<Attr>)
  {
    SaneAttrs(attrs) && QuotelessAttrs(attrs)
  }

  ghost predicate PrintableText(n: Node)
  {
    n.Text? ==> if n.cdata then !Contains(n.value, "]]>") else '<' !in n.value
  }

  /** The parts of the element that are printed can be read back. */
  ghost predicate Printable(n: Node)
    decreases n, 1
  {
    n.Element? ==> ValidName(n.name) && PrintableAttrs(n.attrs) && PrintableBody(n.children)
  }

  ghost predicate PrintableBody(ns: Nodes)
    decreases ns, 2
  {
    if HasElement(ns) then PrintableElements(ns) else ns.Cons? ==> PrintableText(ns.head)
  }

  ghost predicate PrintableElements(ns: Nodes)
    decreases ns, 1
  {
    ns.Cons? ==> Printable(ns.head) && PrintableElements(ns.tail)
  }

  // ---------------------------------------------------------------- attributes read back

  lemma SkipNone(s: string)
    requires s != "" && !IsSpace(s[0])
    ensures SkipSpace(s) == s
  {
  }

  lemma SkipOne(c: char, s: string)
    requires IsSpace(c) && s != "" && !IsSpace(s[0])
    ensures SkipSpace([c] + s) == s
  {
    assert ([c] + s)[1..] == s;
  }

  lemma NameIsNotSpace(name: string, rest: string)
    requires ValidName(name)
    ensures name + rest != "" && (name + rest)[0] == name[0] && IsNameStart(name[0]) && !IsSpace(name[0])
  {
  }

  lemma ValueIsFound(value: string, rest: string)
    requires '"' !in value
    ensures ScanText(value + ("\"" + rest), "\"") == Token(value, rest)
  {
    FreeOfChar(value, '"');
    assert value + ("\"" + rest) == value + "\"" + rest;
    TextIsFound(value, "\"", rest);
  }

  lemma AttrIsRead(name: string, value: string, rest: string)
    requires ValidName(name) && '"' !in value
    ensures ParseAttr(name + ("=\"" + (value + ("\"" + rest)))) == GoodAttr(Attr(name, value), rest)
  {
    var behind := value + ("\"" + rest);
    var p := "=\"" + behind;
    NameIsFound(name, p);
    SkipNone(p);
    var q := "\"" + behind;
    assert p[1..] == q;
    SkipNone(q);
    assert q[1..] == behind && [q[0]] == "\"";
    ValueIsFound(value, rest);
  }

  lemma AttrsStep(a: Attr, done: seq<Attr>, behind: string)
    requires ValidName(a.name) && '"' !in a.value && !HasAttr(done, a.name)
    ensures ParseAttrs(" " + (a.name + ("=\"" + (a.value + ("\"" + behind)))), done, Open) ==
            ParseAttrs(behind, done + [a], Open)
  {
    var p := a.name + ("=\"" + (a.value + ("\"" + behind)));
    NameIsNotSpace(a.name, "=\"" + (a.value + ("\"" + behind)));
    SkipOne(' ', p);
    AttrIsRead(a.name, a.value, behind);
  }

  lemma {:induction false} AttrsAreRead(todo: seq<Attr>, done: seq<Attr>, rest: string)
    requires PrintableAttrs(done + todo)
    ensures ParseAttrs(AttrsTo(todo, ">" + rest), done, Open) == Tag(done + todo, Open, rest)
    decreases |todo|
  {
    if todo == [] {
      SkipNone(">" + rest);
      assert (">" + rest)[1..] == rest;
      assert done + todo == done;
    } else {
      var a := todo[0];
      NewName(done, todo);
      assert (done + todo)[|done|] == a;
      AttrsStep(a, done, AttrsTo(todo[1..], ">" + rest));
      AttrsAreRead(todo[1..], done + [a], rest);
    }
  }

  lemma NewName(done: seq<Attr>, todo: seq<Attr>)
    requires SaneAttrs(done + todo) && todo != []
    ensures !HasAttr(done, todo[0].name) && ValidName(todo[0].name)
    ensures done + [todo[0]] + todo[1..] == done + todo
  {
    var all := done + todo;
    assert all[|done|] == todo[0];
    forall i | 0 <= i < |done| ensures done[i].name != todo[0].name {
      assert all[i] == done[i];
    }
  }

  // ---------------------------------------------------------------- white space between nodes

  lemma {:induction false} SkipBlank(b: string, r: string)
    requires Blank(b)
    ensures SkipSpace(b + r) == SkipSpace(r)
  {
    if b == "" {
      assert b + r == r;
    } else {
      assert (b + r)[1..] == b[1..] + r;
      SkipBlank(b[1..], r);
    }
  }

  lemma {:induction false} SkipInto(v: string, r: string)
    requires !Blank(v)
    ensures SkipSpace(v + r) == SkipSpace(v) + r
  {
    if IsSpace(v[0]) {
      assert (v + r)[1..] == v[1..] + r;
      SkipInto(v[1..], r);
    }
  }

  lemma {:induction false} SkipMembers(v: string, c: char)
    requires c !in v
    ensures c !in SkipSpace(v)
  {
    if v != "" && IsSpace(v[0]) { SkipMembers(v[1..], c); }
  }

  /** White space before a tag or the end does not matter. */
  lemma Lead(b: string, r: string)
    requires Blank(b) && (r == "" || r[0] == '<')
    ensures ParseNodes(b + r) == ParseNodes(r)
  {
    SkipBlank(b, r);
    assert SkipSpace(r) == r;
    if r != "" { ParseAgain(b + r, r); }
  }

  lemma ParseAgain(s: string, r: string)
    requires r != "" && r[0] == '<' && SkipSpace(s) == r && SkipSpace(r) == r
    ensures ParseOne(s, r) == ParseOne(r, r)
  {
    assert "<" <= r;
  }

  /** One round of the parser: a node that is kept, and the level goes on behind it. */
  lemma NodeThenRest(s: string, node: Node, rest: string, endTag: string)
    requires SkipSpace(s) != "" && ParseOne(s, SkipSpace(s)) == One(node, rest, endTag)
    requires !(node.Element? && node.closing == Closing) && !Mismatched(node, endTag)
    ensures ParseNodes(s) == Before(node, ParseNodes(rest))
  {
  }

  // ---------------------------------------------------------------- tags read back

  lemma TagIsElement(c: char, s: string)
    requires c != '?' && c != '!'
    ensures KindOf("<" + ([c] + s)) == KElement
  {
    var p := "<" + ([c] + s);
    assert p[1] == c;
    assert "<?"[1] == '?' && "<!--"[1] == '!' && "<![CDATA["[1] == '!' && "<!"[1] == '!';
  }

  lemma CloseElement(name: string, rest: string)
    requires ValidName(name)
    ensures ParseElement("/" + (name + (">" + rest))) == One(Element(name, [], Closing, Nil), rest, "")
  {
    var behind := ">" + rest;
    var q := "/" + (name + behind);
    SkipNone(q);
    assert q[1..] == name + behind;
    NameIsFound(name, behind);
    SkipNone(behind);
    assert behind[1..] == rest;
    assert ParseAttrs(behind, [], Closing) == Tag([], Closing, rest);
  }

  /** `</name>` ends a level. */
  lemma CloseIsRead(name: string, rest: string)
    requires ValidName(name)
    ensures ParseNodes(CloseTo(name, rest)) == Many(Nil, ByTag(name, "\n" + rest))
  {
    var q := "/" + (name + (">" + ("\n" + rest)));
    var s := CloseTo(name, rest);
    assert s == "<" + q;
    TagIsElement('/', name + (">" + ("\n" + rest)));
    SkipNone(s);
    assert s[1..] == q;
    CloseElement(name, "\n" + rest);
    assert ParseOne(s, s) == ParseElement(q);
  }

  // ---------------------------------------------------------------- elements read back

  /** An open tag with its attributes: the children come next. */
  lemma OpenIsRead(name: string, attrs: seq<Attr>, body: string)
    requires ValidName(name) && PrintableAttrs(attrs) && body != ""
    ensures var inner := ParseNodes(body);
            ParseElement(name + AttrsTo(attrs, ">" + body)) ==
            match inner.end
            case Stopped(error) => NoNode(error)
            case ByTag(endTag, rest) => One(Element(name, attrs, Open, inner.nodes), rest, endTag)
  {
    var behind := AttrsTo(attrs, ">" + body);
    var s := name + behind;
    NameIsNotSpace(name, behind);
    assert SkipSpace(s) == s && s[0] != '/';
    AttrsBegin(attrs, ">" + body);
    NameIsFound(name, behind);
    assert [] + attrs == attrs;
    AttrsAreRead(attrs, [], body);
  }

  lemma AttrsBegin(attrs: seq<Attr>, rest: string)
    requires rest != "" && rest[0] == '>'
    ensures AttrsTo(attrs, rest) != "" && !IsNameChar(AttrsTo(attrs, rest)[0])
  {
  }

  /** `<` and a name: an element comes next. */
  lemma ElementAt(q: string, name: string, behind: string)
    requires ValidName(name) && q == name + behind
    ensures var s := "<" + q; SkipSpace(s) == s && ParseOne(s, s) == ParseElement(q)
  {
    var s := "<" + q;
    NameIsNotSpace(name, behind);
    assert q == [q[0]] + q[1..];
    TagIsElement(q[0], q[1..]);
    SkipNone(s);
    assert s[1..] == q;
  }

  lemma ElementIsBuilt(name: string, attrs: seq<Attr>, body: string, nodes: Nodes, rest: string)
    requires ValidName(name) && PrintableAttrs(attrs) && body != ""
    requires ParseNodes(body) == Many(nodes, ByTag(name, rest))
    ensures ParseElement(name + AttrsTo(attrs, ">" + body)) == One(Element(name, attrs, Open, nodes), rest, name)
  {
    OpenIsRead(name, attrs, body);
  }

  /** An element whose content is read back up to its own closing tag. */
  lemma ElementIsRead(name: string, attrs: seq<Attr>, body: string, nodes: Nodes, rest: string)
    requires ValidName(name) && PrintableAttrs(attrs) && body != ""
    requires ParseNodes(body) == Many(nodes, ByTag(name, rest))
    ensures ParseNodes("<" + (name + AttrsTo(attrs, ">" + body))) ==
            Before(Element(name, attrs, Open, nodes), ParseNodes(rest))
  {
    var behind := AttrsTo(attrs, ">" + body);
    ElementIsBuilt(name, attrs, body, nodes, rest);
    ElementAt(name + behind, name, behind);
    NodeThenRest("<" + (name + behind), Element(name, attrs, Open, nodes), rest, name);
  }

  // ---------------------------------------------------------------- contents read back

  lemma CdataIsRead(v: string, name: string, rest: string)
    requires !Contains(v, "]]>") && ValidName(name)
    ensures ParseNodes("<![CDATA[" + (v + ("]]>" + CloseTo(name, rest)))) ==
            Many(Cons(Text(v, true), Nil), ByTag(name, "\n" + rest))
  {
    var close := CloseTo(name, rest);
    var q := v + ("]]>" + close);
    var s := "<![CDATA[" + q;
    CdataHeader(q);
    assert s[9..] == q;
    FreeOfCdataEnd(v);
    assert q == v + "]]>" + close;
    TextIsFound(v, "]]>", close);
    assert ParseOne(s, s) == One(Text(v, true), close, "");
    NodeThenRest(s, Text(v, true), close, "");
    CloseIsRead(name, rest);
  }

  lemma CdataHeader(q: string)
    ensures var s := "<![CDATA[" + q; SkipSpace(s) == s && KindOf(s) == KCdata
  {
    var s := "<![CDATA[" + q;
    SkipNone(s);
    assert s[..9] == "<![CDATA[" && s[1] == '!' && s[2] == '[';
    assert "<?"[1] == '?' && "<!--"[2] == '-';
  }

  /** A text that is not blank, before a tag, is taken for a text. */
  lemma TextIsText(v: string, close: string)
    requires '<' !in v && !Blank(v)
    ensures var p := SkipSpace(v + close); p != "" && KindOf(p) == KText
  {
    SkipInto(v, close);
    SkipMembers(v, '<');
    var p := SkipSpace(v) + close;
    assert SkipSpace(v)[0] in SkipSpace(v);
    assert p[0] == SkipSpace(v)[0] != '<';
  }

  lemma TextIsRead(v: string, name: string, rest: string)
    requires '<' !in v && !Blank(v) && ValidName(name)
    ensures ParseNodes(v + CloseTo(name, rest)) == Many(Cons(Text(v, false), Nil), ByTag(name, "\n" + rest))
  {
    var close := CloseTo(name, rest);
    var s := v + close;
    TextIsText(v, close);
    LeafIsRead(v, close);
    assert ParseOne(s, SkipSpace(s)) == TextLeaf(s);
    NodeThenRest(s, Text(v, false), close, "");
    CloseIsRead(name, rest);
  }

  lemma LeafIsRead(v: string, close: string)
    requires '<' !in v && |close| > 1 && close[0] == '<'
    ensures TextLeaf(v + close) == One(Text(v, false), close, "")
  {
    var s := v + close;
    FreeOfChar(v, '<');
    assert s == v + "<" + close[1..];
    IndexAfter(v, "<", close[1..]);
    assert s[..|v|] == v && s[|v|..] == close;
  }

  /** A level without elements. */
  lemma TextBodyIsRead(ns: Nodes, name: string, rest: string)
    requires !HasElement(ns) && PrintableBody(ns) && ValidName(name)
    ensures ParseNodes(BodyTo(ns, CloseTo(name, rest))) == Many(NormalBody(ns), ByTag(name, "\n" + rest))
  {
    if ns.Cons? && ns.head.Text? {
      var v := ns.head.value;
      if ns.head.cdata {
        CdataIsRead(v, name, rest);
      } else if Blank(v) {
        Lead(v, CloseTo(name, rest));
        CloseIsRead(name, rest);
      } else {
        TextIsRead(v, name, rest);
      }
    } else {
      CloseIsRead(name, rest);
    }
  }

  predicate StartsTag(s: string) { s == "" || s[0] == '<' }

  lemma {:induction false} ElementsStartTag(ns: Nodes, rest: string)
    requires StartsTag(rest)
    ensures StartsTag(ElementsTo(ns, rest))
  {
    if ns.Cons? { ElementsStartTag(ns.tail, rest); }
  }

  function Append(a: Nodes, b: Nodes): Nodes
  {
    if a.Nil? then b else Cons(a.head, Append(a.tail, b))
  }

  lemma {:induction false} AppendNil(a: Nodes)
    ensures Append(a, Nil) == a
  {
    if a.Cons? { AppendNil(a.tail); }
  }

  /** A printed element before a tag or the end reads back as its normal form. */
  lemma {:induction false} PrintedIsRead(n: Node, rest: string)
    requires n.Element? && Printable(n) && StartsTag(rest)
    ensures ParseNodes(PrintTo(n, rest)) == Before(Normal(n), ParseNodes(rest))
    decreases n, 1
  {
    var body := BodyTo(n.children, CloseTo(n.name, rest));
    BodyIsRead(n.children, n.name, rest);
    ElementIsRead(n.name, n.attrs, body, NormalBody(n.children), "\n" + rest);
    Lead("\n", rest);
  }

  lemma {:induction false} BodyIsRead(ns: Nodes, name: string, rest: string)
    requires PrintableBody(ns) && ValidName(name)
    ensures BodyTo(ns, CloseTo(name, rest)) != ""
    ensures ParseNodes(BodyTo(ns, CloseTo(name, rest))) == Many(NormalBody(ns), ByTag(name, "\n" + rest))
    decreases ns, 2
  {
    if HasElement(ns) {
      var close := CloseTo(name, rest);
      ElementsStartTag(ns, close);
      Lead("\n", ElementsTo(ns, close));
      ElementsAreRead(ns, close);
      CloseIsRead(name, rest);
      AppendNil(NormalElements(ns));
    } else {
      TextBodyIsRead(ns, name, rest);
    }
  }

  lemma {:induction false} ElementsAreRead(ns: Nodes, rest: string)
    requires PrintableElements(ns) && StartsTag(rest)
    ensures var r := ParseNodes(rest);
            ParseNodes(ElementsTo(ns, rest)) == Many(Append(NormalElements(ns), r.nodes), r.end)
    decreases ns, 1
  {
    if ns.Cons? {
      ElementsAreRead(ns.tail, rest);
      ElementsStartTag(ns.tail, rest);
      if ns.head.Element? { PrintedIsRead(ns.head, ElementsTo(ns.tail, rest)); }
    }
  }

  /** The round trip: for every element, with whatever children, the parser makes of the printed form exactly
      the normal form of the element and reports no error. */
  lemma ParsePrint(n: Node)
    requires n.Element? && Printable(n)
    ensures ParseDocument(Print(n)) == Document(Cons(Normal(n), Nil), NoError)
  {
    PrintedIsRead(n, "");
    SkipNone(Print(n));
  }
}
