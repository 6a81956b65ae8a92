/** Exactly which trees survive printing and parsing, among all that the parser can build. */
module XmlExact {
  import opened XmlText
  import opened XmlParser
  import opened XmlRoundTrip

  // ---------------------------------------------------------------- the normal form

  /** The tree is its own normal form: elements only, or one text that is not blank, or one CDATA. */
  predicate Faithful(n: Node)
    decreases n, 1
  {
    n.Element? ==> n.closing == Open && FaithfulBody(n.children)
  }

  predicate FaithfulBody(ns: Nodes)
    decreases ns, 2
  {
    if HasElement(ns) then FaithfulElements(ns)
    else ns.Nil? || (ns.tail.Nil? && ns.head.Text? && (ns.head.cdata || !Blank(ns.head.value)))
  }

  predicate FaithfulElements(ns: Nodes)
    decreases ns, 1
  {
    ns.Cons? ==> ns.head.Element? && Faithful(ns.head) && FaithfulElements(ns.tail)
  }

  lemma {:induction false} FaithfulIsNormal(n: Node)
    ensures Faithful(n) <==> Normal(n) == n
    decreases n, 1
  {
    if n.Element? { FaithfulBodyIsNormal(n.children); }
  }

  lemma {:induction false} FaithfulBodyIsNormal(ns: Nodes)
    ensures FaithfulBody(ns) <==> NormalBody(ns) == ns
    decreases ns, 2
  {
    if HasElement(ns) { FaithfulElementsIsNormal(ns); }
  }

  lemma {:induction false} FaithfulElementsIsNormal(ns: Nodes)
    ensures FaithfulElements(ns) <==> NormalElements(ns) == ns
    decreases ns, 1
  {
    if ns.Cons? {
      FaithfulElementsIsNormal(ns.tail);
      if ns.head.Element? {
        FaithfulIsNormal(ns.head);
      } else {
        NormalElementsAreElements(ns.tail);
      }
    }
  }

  lemma {:induction false} NormalElementsAreElements(ns: Nodes)
    ensures NormalElements(ns).Cons? ==> NormalElements(ns).head.Element?
  {
    if ns.Cons? && !ns.head.Element? { NormalElementsAreElements(ns.tail); }
  }

  /** The same tree comes back exactly when it is its own normal form. */
  lemma SameTreeComesBack(n: Node)
    requires n.Element? && Printable(n)
    ensures ParseDocument(Print(n)) == Document(Cons(n, Nil), NoError) <==> Faithful(n)
  {
    ParsePrint(n);
    FaithfulIsNormal(n);
  }

  // ---------------------------------------------------------------- all but the quotation marks

  /** What the parser guarantees of every node: valid and distinct names, texts that are not blank and without
      `<`, CDATA without `]]>`. */
  ghost predicate Sane(n: Node)
    decreases n, 1
  {
    match n
    case Element(name, attrs, _, children) => ValidName(name) && SaneAttrs(attrs) && SaneAll(children)
    case Text(v, cdata) => if cdata then !Contains(v, "]]>") else '<' !in v && !Blank(v)
    case _ => true
  }

  ghost predicate SaneAll(ns: Nodes)
    decreases ns, 1
  {
    ns.Cons? ==> Sane(ns.head) && SaneAll(ns.tail)
  }

  /** No value of an attribute holds a `"`. */
  predicate Quoteless(n: Node)
    decreases n, 1
  {
    n.Element? ==> QuotelessAttrs(n.attrs) && QuotelessAll(n.children)
  }

  predicate QuotelessAll(ns: Nodes)
    decreases ns, 1
  {
    ns.Cons? ==> Quoteless(ns.head) && QuotelessAll(ns.tail)
  }

  lemma {:induction false} SaneIsPrintable(n: Node)
    requires Sane(n)
    ensures Quoteless(n) <==> Printable(n)
    decreases n, 1
  {
    if n.Element? {
      assert PrintableAttrs(n.attrs) <==> QuotelessAttrs(n.attrs);
      if HasElement(n.children) {
        SaneElementsArePrintable(n.children);
      } else {
        NoElementsNoQuotes(n.children);
        assert n.children.Cons? ==> Sane(n.children.head);
      }
    }
  }

  lemma {:induction false} SaneElementsArePrintable(ns: Nodes)
    requires SaneAll(ns)
    ensures QuotelessAll(ns) <==> PrintableElements(ns)
    decreases ns, 1
  {
    if ns.Cons? {
      SaneIsPrintable(ns.head);
      SaneElementsArePrintable(ns.tail);
    }
  }

  lemma {:induction false} NoElementsNoQuotes(ns: Nodes)
    requires !HasElement(ns)
    ensures QuotelessAll(ns)
  {
    if ns.Cons? { NoElementsNoQuotes(ns.tail); }
  }

  // ---------------------------------------------------------------- what the parser builds

  lemma {:induction false} IndexIsFirst(s: string, tag: string, i: nat)
    requires tag != "" && i <= |s| && tag <= s[i..]
    ensures 0 <= IndexOf(s, tag) <= i
  {
    if i == 0 {
      assert s[0..] == s;
    } else if !(tag <= s) {
      assert s[1..][i - 1..] == s[i..];
      IndexIsFirst(s[1..], tag, i - 1);
    }
  }

  lemma ScannedIsFree(s: string, tag: string)
    requires tag != ""
    ensures ScanText(s, tag).Token? ==> !Contains(ScanText(s, tag).value, tag)
  {
    var k := IndexOf(s, tag);
    if k >= 0 && Contains(s[..k], tag) {
      var i :| 0 <= i <= |s[..k]| && tag <= s[..k][i..];
      PrefixOfSlice(s, k, i, tag);
      IndexIsFirst(s, tag, i);
    }
  }

  lemma PrefixOfSlice(s: string, k: nat, i: nat, tag: string)
    requires i <= k <= |s| && tag <= s[..k][i..]
    ensures tag <= s[i..] && i + |tag| <= k
  {
    var n := |tag|;
    assert s[..k][i..] == s[i..k];
    assert s[i..k][..n] == s[i..i + n] == s[i..][..n];
  }

  lemma {:induction false} ParsedAttrsAreSane(s: string, done: seq<Attr>, closing: Closing)
    requires SaneAttrs(done)
    ensures var r := ParseAttrs(s, done, closing); r.Tag? ==> SaneAttrs(r.attrs)
    decreases |s|
  {
    var p := SkipSpace(s);
    if p != "" && IsNameStart(p[0]) {
      var a := ParseAttr(p);
      if a.GoodAttr? && !HasAttr(done, a.attr.name) {
        FoundIsName(p);
        ParsedAttrsAreSane(a.rest, done + [a.attr], closing);
      }
    }
  }

  lemma CharIsContained(v: string, c: char)
    ensures c in v ==> Contains(v, [c])
  {
    if c in v {
      var j :| 0 <= j < |v| && v[j] == c;
      assert [c] <= v[j..];
    }
  }

  lemma TextLeafIsSane(s: string)
    requires var p := SkipSpace(s); p != "" && p[0] != '<'
    ensures TextLeaf(s).One? ==> Sane(TextLeaf(s).node)
  {
    var i := IndexOf(s, "<");
    if i >= 0 {
      var v := s[..i];
      ScannedIsFree(s, "<");
      CharIsContained(v, '<');
      if Blank(v) {
        assert s == v + s[i..];
        SkipBlank(v, s[i..]);
        StartsAtIndex(s);
      }
    }
  }

  lemma {:induction false} StartsAtIndex(s: string)
    ensures var i := IndexOf(s, "<"); i >= 0 ==> i < |s| && s[i] == '<' && SkipSpace(s[i..]) == s[i..]
  {
    if s != "" && !("<" <= s) {
      StartsAtIndex(s[1..]);
      var i := IndexOf(s[1..], "<");
      if i >= 0 { assert s[1..][i..] == s[i + 1..]; }
    }
  }

  lemma {:induction false} ParsedOneIsSane(s: string, p: string)
    requires p == SkipSpace(s) && p != ""
    ensures ParseOne(s, p).One? ==> Sane(ParseOne(s, p).node)
    decreases |s|, 0
  {
    var k := KindOf(p);
    var q := p[HeaderLength(k)..];
    match k
    case KElement => ParsedElementIsSane(q);
    case KText => TextLeafIsSane(s);
    case KCdata => ScannedIsFree(q, "]]>");
    case _ =>
  }

  lemma {:induction false} ParsedElementIsSane(s: string)
    ensures ParseElement(s).One? ==> Sane(ParseElement(s).node)
    decreases |s|, 1
  {
    var p := SkipSpace(s);
    var closing := if p != "" && p[0] == '/' then Closing else Open;
    var q := if closing == Closing then p[1..] else p;
    var name := ScanName(q);
    if name.Token? {
      FoundIsName(q);
      ParsedAttrsAreSane(name.rest, [], closing);
      var tag := ParseAttrs(name.rest, [], closing);
      if tag.Tag? { ParsedAreSane(tag.rest); }
    }
  }

  /** Every node that the parser builds, from any text, is sane. */
  lemma {:induction false} ParsedAreSane(s: string)
    ensures SaneAll(ParseNodes(s).nodes)
    decreases |s|, 2
  {
    var p := SkipSpace(s);
    if p != "" {
      ParsedOneIsSane(s, p);
      var one := ParseOne(s, p);
      if one.One? { ParsedAreSane(one.rest); }
    }
  }

  // ---------------------------------------------------------------- a quotation mark is fatal

  /** Attributes that were read stay in front. */
  lemma {:induction false} AttrsStayInFront(s: string, done: seq<Attr>, closing: Closing)
    ensures var r := ParseAttrs(s, done, closing); r.Tag? ==> done <= r.attrs
    decreases |s|
  {
    var p := SkipSpace(s);
    if p != "" && IsNameStart(p[0]) {
      var a := ParseAttr(p);
      if a.GoodAttr? && !HasAttr(done, a.attr.name) {
        AttrsStayInFront(a.rest, done + [a.attr], closing);
      }
    }
  }

  lemma {:induction false} FirstSplit(s: string, c: char) returns (v: string, tail: string)
    requires c in s
    ensures s == v + ([c] + tail) && c !in v
  {
    if s[0] == c {
      v, tail := "", s[1..];
    } else {
      v, tail := FirstSplit(s[1..], c);
      v := [s[0]] + v;
    }
  }

  /** The value is cut at its first quotation mark. */
  lemma ValueIsCut(name: string, value: string, rest: string)
    requires ValidName(name) && '"' in value
    ensures var r := ParseAttr(name + ("=\"" + (value + ("\"" + rest))));
            r.GoodAttr? && r.attr.name == name && r.attr.value != value
  {
    var v, tail := FirstSplit(value, '"');
    var more := tail + ("\"" + rest);
    assert value + ("\"" + rest) == v + ("\"" + more);
    AttrIsRead(name, v, more);
  }

  lemma {:induction false} AttrsDiffer(todo: seq<Attr>, done: seq<Attr>, rest: string)
    requires SaneAttrs(done + todo) && !QuotelessAttrs(todo)
    ensures var r := ParseAttrs(AttrsTo(todo, ">" + rest), done, Open); r.Tag? ==> r.attrs != done + todo
    decreases |todo|
  {
    var a, behind := todo[0], AttrsTo(todo[1..], ">" + rest);
    NewName(done, todo);
    if '"' in a.value {
      FirstAttrDiffers(a, done, behind);
      assert (done + todo)[|done|] == a;
    } else {
      AttrsStep(a, done, behind);
      QuoteBehind(todo);
      AttrsDiffer(todo[1..], done + [a], rest);
    }
  }

  lemma QuoteBehind(attrs: seq<Attr>)
    requires !QuotelessAttrs(attrs) && '"' !in attrs[0].value
    ensures !QuotelessAttrs(attrs[1..])
  {
    var i :| 0 <= i < |attrs| && '"' in attrs[i].value;
    assert attrs[1..][i - 1] == attrs[i];
  }

  lemma FirstAttrDiffers(a: Attr, done: seq<Attr>, behind: string)
    requires ValidName(a.name) && '"' in a.value && !HasAttr(done, a.name)
    ensures var r := ParseAttrs(" " + (a.name + ("=\"" + (a.value + ("\"" + behind)))), done, Open);
            r.Tag? ==> |r.attrs| > |done| && r.attrs[|done|] != a
  {
    var more := "=\"" + (a.value + ("\"" + behind));
    var p := a.name + more;
    NameIsNotSpace(a.name, more);
    SkipOne(' ', p);
    ValueIsCut(a.name, a.value, behind);
    var found := ParseAttr(p);
    AttrsStayInFront(found.rest, done + [found.attr], Open);
  }

  /** With a bad attribute the element that comes back is another one, if any. */
  lemma TagDiffers(name: string, attrs: seq<Attr>, body: string)
    requires ValidName(name) && SaneAttrs(attrs) && !QuotelessAttrs(attrs)
    ensures var r := ParseElement(name + AttrsTo(attrs, ">" + body));
            r.One? ==> r.node.Element? && r.node.attrs != attrs
  {
    var behind := AttrsTo(attrs, ">" + body);
    AttrsBegin(attrs, ">" + body);
    ElementHead(name, behind);
    assert [] + attrs == attrs;
    AttrsDiffer(attrs, [], body);
  }

  lemma ElementHead(name: string, behind: string)
    requires ValidName(name) && behind != "" && !IsNameChar(behind[0])
    ensures var r, tag := ParseElement(name + behind), ParseAttrs(behind, [], Open);
            r.One? ==> tag.Tag? && r.node.Element? && r.node.attrs == tag.attrs
  {
    NameIsNotSpace(name, behind);
    NameIsFound(name, behind);
  }

  /** The first node of a text that begins with an element is that element. */
  lemma HeadIsElement(q: string, name: string, behind: string)
    requires ValidName(name) && q == name + behind
    ensures var m, r := ParseNodes("<" + q).nodes, ParseElement(q); m.Cons? ==> r.One? && m.head == r.node
  {
    ElementAt(q, name, behind);
  }

  lemma {:induction false} ElementDiffers(n: Node, rest: string)
    requires n.Element? && Sane(n) && !Quoteless(n) && StartsTag(rest)
    ensures var m := ParseNodes(PrintTo(n, rest)).nodes; m.Cons? ==> m.head != Normal(n)
    decreases n, 1
  {
    var body := BodyTo(n.children, CloseTo(n.name, rest));
    var behind := AttrsTo(n.attrs, ">" + body);
    HeadIsElement(n.name + behind, n.name, behind);
    if !QuotelessAttrs(n.attrs) {
      TagDiffers(n.name, n.attrs, body);
    } else {
      BodyDiffers(n.children, CloseTo(n.name, rest));
      OpenIsRead(n.name, n.attrs, body);
    }
  }

  lemma {:induction false} BodyDiffers(ns: Nodes, rest: string)
    requires SaneAll(ns) && !QuotelessAll(ns) && StartsTag(rest)
    ensures BodyTo(ns, rest) != "" && ParseNodes(BodyTo(ns, rest)).nodes != NormalBody(ns)
    decreases ns, 2
  {
    if HasElement(ns) {
      ElementsStartTag(ns, rest);
      Lead("\n", ElementsTo(ns, rest));
      ElementsDiffer(ns, rest, Nil);
      AppendNil(NormalElements(ns));
    } else {
      NoElementsNoQuotes(ns);
    }
  }

  lemma {:induction false} ElementsDiffer(ns: Nodes, rest: string, more: Nodes)
    requires SaneAll(ns) && !QuotelessAll(ns) && StartsTag(rest)
    ensures ParseNodes(ElementsTo(ns, rest)).nodes != Append(NormalElements(ns), more)
    decreases ns, 1
  {
    var behind := ElementsTo(ns.tail, rest);
    ElementsStartTag(ns.tail, rest);
    if !ns.head.Element? {
      ElementsDiffer(ns.tail, rest, more);
    } else if Quoteless(ns.head) {
      SaneIsPrintable(ns.head);
      PrintedIsRead(ns.head, behind);
      ElementsDiffer(ns.tail, rest, more);
    } else {
      ElementDiffers(ns.head, behind);
    }
  }

  /** Of all elements the parser can build, exactly those without a `"` in a value survive. */
  lemma RoundTripExactly(n: Node)
    requires n.Element? && Sane(n)
    ensures ParseDocument(Print(n)) == Document(Cons(Normal(n), Nil), NoError) <==> Quoteless(n)
  {
    if Quoteless(n) {
      SaneIsPrintable(n);
      ParsePrint(n);
    } else {
      ElementDiffers(n, "");
      SkipNone(Print(n));
    }
  }

  /** Anywhere below, at any depth. */
  predicate Among(n: Node, ns: Nodes)
  {
    && ns.Cons?
    && (n == ns.head || (ns.head.Element? && Among(n, ns.head.children)) || Among(n, ns.tail))
  }

  lemma {:induction false} SaneAmong(n: Node, ns: Nodes)
    requires SaneAll(ns) && Among(n, ns)
    ensures Sane(n)
  {
    if n != ns.head {
      if ns.head.Element? && Among(n, ns.head.children) {
        SaneAmong(n, ns.head.children);
      } else {
        SaneAmong(n, ns.tail);
      }
    }
  }

  /** Whatever was parsed: printing one of its elements and parsing again gives the normal form of the element,
      exactly when no value holds a `"`. */
  lemma ParsedElementsComeBack(xml: string, n: Node)
    requires n.Element? && Among(n, ParseDocument(xml).children)
    ensures ParseDocument(Print(n)) == Document(Cons(Normal(n), Nil), NoError) <==> Quoteless(n)
  {
    ParsedAreSane(SkipSpace(xml));
    SaneAmong(n, ParseDocument(xml).children);
    RoundTripExactly(n);
  }

  /** A closing tag on the top level ends the document without an error, whatever follows. */
  lemma StrayCloseIsSilent(name: string, rest: string)
    requires ValidName(name)
    ensures ParseDocument(CloseTo(name, rest)) == Document(Nil, NoError)
  {
    CloseIsRead(name, rest);
    SkipNone(CloseTo(name, rest));
  }
}
