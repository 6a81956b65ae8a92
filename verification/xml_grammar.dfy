/** The texts that common/qxml.cc accepts, as a grammar that does not mention the parser: how documents are spelled, and
    what a spelling means. */
module XmlGrammar {
  import opened XmlText
  import opened XmlParser

  // ---------------------------------------------------------------- spellings

  ghost predicate Blanks(s: string) { forall i :: 0 <= i < |s| ==> IsSpace(s[i]) }

  /** `name = "value"`, with the blanks before it and around the `=`, in either kind of quotes. */
  datatype AttrText =
    AttrText(before: string, name: string, left: string, right: string, quote: char, value: string)

  /** `<name attributes>`; `slash` before the name, or `closed` by `/>`. */
  datatype TagText = TagText(gap: string, slash: bool, name: string, attrs: seq<AttrText>, tail: string, closed: bool)

  datatype Spelling =
    | Pair(start: TagText, body: Level, finish: TagText)   // <a> .. </a>
    | Lone(tag: TagText)                                   // <a/>
    | Plain(value: string)
    | Cdata(value: string)                                 // <![CDATA[ .. ]]>
    | Remark(value: string)                                // <!-- .. -->
    | Declared(value: string)                              // <? .. ?>
    | Other(value: string)                                 // <! .. >

  /** The nodes of one level, each with the blanks before it, and the blanks at the end. */
  datatype Level = Done(gap: string) | More(gap: string, first: Spelling, others: Level)

  /** What comes after a level. */
  datatype Finish = EndOfText | ByClosing(tag: TagText, rest: string)

  // ---------------------------------------------------------------- their texts, followed by `rest`

  function AttrSpelled(a: AttrText, rest: string): string
  {
    a.before + (a.name + (a.left + ("=" + (a.right + ([a.quote] + (a.value + ([a.quote] + rest)))))))
  }

  function AttrsSpelled(attrs: seq<AttrText>, rest: string): string
  {
    if attrs == [] then rest else AttrSpelled(attrs[0], AttrsSpelled(attrs[1..], rest))
  }

  function TagEnd(t: TagText, rest: string): string { t.tail + ((if t.closed then "/>" else ">") + rest) }

  function TagSpelled(t: TagText, rest: string): string
  {
    "<" + (t.gap + ((if t.slash then "/" else "") + (t.name + AttrsSpelled(t.attrs, TagEnd(t, rest)))))
  }

  function NodeSpelled(n: Spelling, rest: string): string
  {
    match n
    case Pair(start, body, finish) => TagSpelled(start, LevelSpelled(body, TagSpelled(finish, rest)))
    case Lone(tag) => TagSpelled(tag, rest)
    case Plain(value) => value + rest
    case Cdata(value) => "<![CDATA[" + (value + "]]>" + rest)
    case Remark(value) => "<!--" + (value + "-->" + rest)
    case Declared(value) => "<?" + (value + "?>" + rest)
    case Other(value) => "<!" + (value + ">" + rest)
  }

  function LevelSpelled(l: Level, rest: string): string
  {
    match l
    case Done(gap) => gap + rest
    case More(gap, first, others) => gap + NodeSpelled(first, LevelSpelled(others, rest))
  }

  function FinishSpelled(f: Finish): string
  {
    match f
    case EndOfText => ""
    case ByClosing(tag, rest) => TagSpelled(tag, rest)
  }

  // ---------------------------------------------------------------- their meaning

  function AttrsMeant(attrs: seq<AttrText>): seq<Attr>
  {
    if attrs == [] then [] else [Attr(attrs[0].name, attrs[0].value)] + AttrsMeant(attrs[1..])
  }

  function NodeMeant(n: Spelling): Node
  {
    match n
    case Pair(start, body, _) => Element(start.name, AttrsMeant(start.attrs), Open, LevelMeant(body))
    case Lone(tag) => Element(tag.name, AttrsMeant(tag.attrs), Closed, Nil)
    case Plain(value) => Text(value, false)
    case Cdata(value) => Text(value, true)
    case Remark(value) => Comment(value)
    case Declared(value) => Declaration(value)
    case Other(value) => Unknown(value)
  }

  function LevelMeant(l: Level): Nodes
  {
    match l
    case Done(_) => Nil
    case More(_, first, others) => Cons(NodeMeant(first), LevelMeant(others))
  }

  // ---------------------------------------------------------------- which spellings are allowed

  ghost predicate AttrAllowed(a: AttrText)
  {
    && Blanks(a.before) && ValidName(a.name) && Blanks(a.left) && Blanks(a.right)
    && (a.quote == '"' || a.quote == '\'') && a.quote !in a.value
  }

  /** No name twice; `seen` are the names before. */
  ghost predicate AttrsAllowed(attrs: seq<AttrText>, seen: seq<Attr>)
  {
    attrs != [] ==>
      && AttrAllowed(attrs[0]) && (forall i :: 0 <= i < |seen| ==> seen[i].name != attrs[0].name)
      && AttrsAllowed(attrs[1..], seen + [Attr(attrs[0].name, attrs[0].value)])
  }

  /** The first attribute is apart from the name of the tag; others need no blank before them. */
  ghost predicate TagAllowed(t: TagText)
  {
    && Blanks(t.gap) && ValidName(t.name) && AttrsAllowed(t.attrs, []) && Blanks(t.tail)
    && (t.attrs != [] ==> t.attrs[0].before != "")
  }

  /** A tag that ends a level; it may have attributes, which mean nothing. */
  ghost predicate IsClosing(t: TagText) { TagAllowed(t) && t.slash && !t.closed }

  ghost predicate IsOpening(t: TagText) { TagAllowed(t) && !t.slash && !t.closed }

  ghost predicate IsLone(t: TagText) { TagAllowed(t) && t.closed }

  /** The end tag has the name of the start tag; the other nodes end where their end mark occurs first. */
  ghost predicate Allowed(n: Spelling)
  {
    match n
    case Pair(start, body, finish) =>
      IsOpening(start) && LevelAllowed(body, true) && IsClosing(finish) && finish.name == start.name
    case Lone(tag) => IsLone(tag)
    case Plain(value) => !Blanks(value) && '<' !in value
    case Cdata(value) => Free(value, "]]>")
    case Remark(value) => Free(value, "-->")
    case Declared(value) => Free(value, "?>")
    case Other(value) => '>' !in value && !("--" <= value) && !("[CDATA[" <= value)
  }

  /** A text takes the blanks around it, and a tag follows; `closed` says that a closing tag ends the level. */
  ghost predicate LevelAllowed(l: Level, closed: bool)
  {
    match l
    case Done(gap) => Blanks(gap)
    case More(gap, first, others) =>
      && Blanks(gap) && Allowed(first) && LevelAllowed(others, closed)
      && (first.Plain? ==> gap == "" && Tight(others, closed))
  }

  ghost predicate Tight(l: Level, closed: bool)
  {
    match l
    case Done(gap) => gap == "" && closed
    case More(gap, first, _) => gap == "" && !first.Plain?
  }

  ghost predicate FinishAllowed(f: Finish) { f.ByClosing? ==> IsClosing(f.tag) }
}

/** Every spelling is read as what it means. */
module XmlComplete {
  import opened XmlText
  import opened XmlParser
  import opened XmlGrammar

  // ---------------------------------------------------------------- blanks

  lemma {:induction false} SkipGap(gap: string, r: string)
    requires Blanks(gap) && (r == "" || !IsSpace(r[0]))
    ensures SkipSpace(gap + r) == r
  {
    if gap == "" {
      assert gap + r == r;
    } else {
      assert (gap + r)[1..] == gap[1..] + r;
      SkipGap(gap[1..], r);
    }
  }

  lemma FirstOfTwo(a: string, b: string)
    requires a != ""
    ensures (a + b)[0] == a[0] && (a + b)[1..] == a[1..] + b
  {
  }

  // ---------------------------------------------------------------- attributes and tags

  lemma ValueFound(value: string, quote: char, rest: string)
    requires quote !in value
    ensures ScanText(value + ([quote] + rest), [quote]) == Token(value, rest)
  {
    FreeOfChar(value, quote);
    assert value + ([quote] + rest) == value + [quote] + rest;
    TextIsFound(value, [quote], rest);
  }

  /** Behind the name of an attribute. */
  lemma NameEnds(gap: string, r: string)
    requires Blanks(gap) && r != "" && !IsNameChar(r[0])
    ensures gap + r != "" && !IsNameChar((gap + r)[0])
  {
  }

  /** An attribute from its parts, as the scans find them. */
  lemma AttrByParts(s: string, name: Token, p: string, q: string, value: Token)
    requires ScanName(s) == name && name.Token? && name.rest != "" && SkipSpace(name.rest) == p
    requires p != "" && p[0] == '=' && SkipSpace(p[1..]) == q && q != "" && (q[0] == '"' || q[0] == '\'')
    requires ScanText(q[1..], [q[0]]) == value && value.Token?
    ensures ParseAttr(s) == GoodAttr(Attr(name.value, value.value), value.rest)
  {
  }

  lemma AttrRead(a: AttrText, rest: string)
    requires AttrAllowed(a)
    ensures ParseAttr(AttrSpelled(a.(before := ""), rest)) == GoodAttr(Attr(a.name, a.value), rest)
  {
    var v := a.value + ([a.quote] + rest);
    var q := [a.quote] + v;
    var p := "=" + (a.right + q);
    var s := a.name + (a.left + p);
    assert AttrSpelled(a.(before := ""), rest) == s by { assert "" + s == s; }
    assert p[0] == '=' && p[1..] == a.right + q && !IsSpace('=');
    assert q[0] == a.quote && q[1..] == v && !IsSpace(a.quote);
    NameEnds(a.left, p);
    NameIsFound(a.name, a.left + p);
    SkipGap(a.left, p);
    SkipGap(a.right, q);
    ValueFound(a.value, a.quote, rest);
    AttrByParts(s, Token(a.name, a.left + p), p, q, Token(a.value, rest));
  }

  lemma Head(c: char, r: string)
    ensures ([c] + r)[0] == c && ([c] + r)[1..] == r
  {
  }

  lemma AttrsStep(a: AttrText, behind: string, seen: seq<Attr>, closing: Closing)
    requires AttrAllowed(a) && !HasAttr(seen, a.name)
    ensures ParseAttrs(AttrSpelled(a, behind), seen, closing) ==
            ParseAttrs(behind, seen + [Attr(a.name, a.value)], closing)
  {
    var p := AttrSpelled(a.(before := ""), behind);
    assert p[0] == a.name[0];
    assert AttrSpelled(a, behind) == a.before + p;
    SkipGap(a.before, p);
    AttrRead(a, behind);
  }

  lemma {:induction false} AttrsRead(attrs: seq<AttrText>, seen: seq<Attr>, e: string, closing: Closing)
    requires AttrsAllowed(attrs, seen)
    ensures ParseAttrs(AttrsSpelled(attrs, e), seen, closing) == ParseAttrs(e, seen + AttrsMeant(attrs), closing)
    decreases |attrs|
  {
    if attrs == [] {
      assert seen + [] == seen;
    } else {
      var seen' := seen + [Attr(attrs[0].name, attrs[0].value)];
      AttrsStep(attrs[0], AttrsSpelled(attrs[1..], e), seen, closing);
      AttrsRead(attrs[1..], seen', e, closing);
      MeantFirst(attrs, seen);
    }
  }

  lemma MeantFirst(attrs: seq<AttrText>, seen: seq<Attr>)
    requires attrs != []
    ensures seen + [Attr(attrs[0].name, attrs[0].value)] + AttrsMeant(attrs[1..]) == seen + AttrsMeant(attrs)
  {
  }

  lemma TagEndRead(t: TagText, rest: string, attrs: seq<Attr>, closing: Closing)
    requires Blanks(t.tail)
    ensures ParseAttrs(TagEnd(t, rest), attrs, closing) == Tag(attrs, if t.closed then Closed else closing, rest)
  {
    var e := (if t.closed then "/>" else ">") + rest;
    assert e[0] == if t.closed then '/' else '>';
    SkipGap(t.tail, e);
    assert if t.closed then e[1] == '>' && e[2..] == rest else e[1..] == rest;
  }

  /** What stands behind the name of a tag is not part of it. */
  lemma BehindName(t: TagText, rest: string)
    requires TagAllowed(t)
    ensures var behind := AttrsSpelled(t.attrs, TagEnd(t, rest)); behind != "" && !IsNameChar(behind[0])
  {
    if t.attrs != [] { assert AttrsSpelled(t.attrs, TagEnd(t, rest))[0] == t.attrs[0].before[0]; }
  }

  function ClosingOf(t: TagText): Closing { if t.closed then Closed else if t.slash then Closing else Open }

  /** The tag is found behind its `<`: name, attributes and kind. */
  ghost predicate IsTag(s: string, slash: bool, name: string, attrs: seq<Attr>, closing: Closing, rest: string)
  {
    && |s| >= 2 && s[0] == '<' && KindOf(s) == KElement
    && var p := SkipSpace(s[1..]);
       && (p != "" && p[0] == '/' <==> slash)
       && var t := ScanName(if slash then p[1..] else p);
          && t.Token? && t.value == name
          && ParseAttrs(t.rest, [], if slash then Closing else Open) == Tag(attrs, closing, rest)
  }

  lemma TagByParts(s: string, gap: string, q: string, slash: bool, name: string, behind: string, tag: Tag)
    requires Blanks(gap) && s == "<" + (gap + q) && ValidName(name)
    requires q == if slash then "/" + (name + behind) else name + behind
    requires ScanName(name + behind) == Token(name, behind)
    requires tag.Tag? && ParseAttrs(behind, [], if slash then Closing else Open) == tag
    ensures IsTag(s, slash, name, tag.attrs, tag.closing, tag.rest)
  {
    Head('<', gap + q);
    assert q != "" && q[0] == if slash then '/' else name[0];
    SkipGap(gap, q);
    AfterBracket(gap, q);
    assert slash ==> q[1..] == name + behind;
  }

  lemma TagRead(t: TagText, rest: string)
    requires TagAllowed(t)
    ensures IsTag(TagSpelled(t, rest), t.slash, t.name, AttrsMeant(t.attrs), ClosingOf(t), rest)
  {
    var behind := AttrsSpelled(t.attrs, TagEnd(t, rest));
    var attrs, closing := AttrsMeant(t.attrs), if t.slash then Closing else Open;
    var q := (if t.slash then "/" else "") + (t.name + behind);
    assert !t.slash ==> q == t.name + behind;
    BehindName(t, rest);
    NameIsFound(t.name, behind);
    AttrsRead(t.attrs, [], TagEnd(t, rest), closing);
    assert [] + attrs == attrs;
    TagEndRead(t, rest, attrs, closing);
    TagByParts(TagSpelled(t, rest), t.gap, q, t.slash, t.name, behind, Tag(attrs, ClosingOf(t), rest));
  }

  lemma AfterBracket(gap: string, q: string)
    requires Blanks(gap) && q != "" && (q[0] == '/' || IsNameStart(q[0]))
    ensures KindOf("<" + (gap + q)) == KElement
  {
    var p := "<" + (gap + q);
    assert p[1] == (gap + q)[0];
    assert "<?"[1] == '?' && "<!--"[1] == '!' && "<![CDATA["[1] == '!' && "<!"[1] == '!';
  }

  // ---------------------------------------------------------------- nodes

  /** A node that starts with a tag or a mark, with blanks before it. */
  ghost predicate Reads(s: string, one: One)
  {
    |s| >= 2 && s[0] == '<' && forall gap :: Blanks(gap) ==> SkipSpace(gap + s) == s && ParseOne(gap + s, s) == one
  }

  lemma AnyGap(s: string, one: One)
    requires |s| >= 2 && s[0] == '<' && ParseOne(s, s) == one && KindOf(s) != KText
    ensures Reads(s, one)
  {
    forall gap | Blanks(gap) ensures SkipSpace(gap + s) == s && ParseOne(gap + s, s) == one {
      SkipGap(gap, s);
    }
  }

  lemma TagIsElement(s: string, t: TagText, rest: string)
    requires IsTag(s, t.slash, t.name, AttrsMeant(t.attrs), ClosingOf(t), rest)
    ensures SkipSpace(s) == s && ParseOne(s, s) == ElementOf(t, rest)
  {
  }

  lemma ElementRead(t: TagText, rest: string, one: One)
    requires TagAllowed(t) && one == ElementOf(t, rest)
    ensures Reads(TagSpelled(t, rest), one)
  {
    TagRead(t, rest);
    TagIsElement(TagSpelled(t, rest), t, rest);
    AnyGap(TagSpelled(t, rest), one);
  }

  /** What comes of a tag: an element by itself, or one with the nodes of the level behind it. */
  function ElementOf(t: TagText, rest: string): One
  {
    var attrs := AttrsMeant(t.attrs);
    if rest == "" || t.slash || t.closed then One(Element(t.name, attrs, ClosingOf(t), Nil), rest, "")
    else
      var inner := ParseNodes(rest);
      match inner.end
      case Stopped(error) => NoNode(error)
      case ByTag(endTag, behind) => One(Element(t.name, attrs, Open, inner.nodes), behind, endTag)
  }

  function EndTag(n: Spelling): string { if n.Pair? then n.finish.name else "" }

  lemma MarkRead(mark: string, value: string, end: string, rest: string, k: Kind, one: One)
    requires end != "" && Free(value, end)
    requires |mark| >= 2 && mark[0] == '<' && KindOf(mark + (value + end + rest)) == k && HeaderLength(k) == |mark|
    requires one == match k
                    case KDeclaration => One(Declaration(value), rest, "")
                    case KComment => One(Comment(value), rest, "")
                    case KCdata => One(Text(value, true), rest, "")
                    case KUnknown => One(Unknown(value), rest, "")
                    case _ => NoNode(NoError)
    requires (k == KDeclaration && end == "?>") || (k == KComment && end == "-->") || (k == KCdata && end == "]]>")
             || (k == KUnknown && end == ">")
    ensures Reads(mark + (value + end + rest), one)
  {
    var s := mark + (value + end + rest);
    assert s[|mark|..] == value + end + rest;
    TextIsFound(value, end, rest);
    AnyGap(s, one);
  }

  lemma MarkKind(value: string, rest: string)
    ensures KindOf("<![CDATA[" + (value + "]]>" + rest)) == KCdata
    ensures KindOf("<!--" + (value + "-->" + rest)) == KComment
    ensures KindOf("<?" + (value + "?>" + rest)) == KDeclaration
  {
    var c := "<![CDATA[" + (value + "]]>" + rest);
    assert c[1] == '!' && c[2] == '[' && "<!--"[2] == '-' && "<?"[1] == '?';
    var d := "<!--" + (value + "-->" + rest);
    assert d[1] == '!';
  }

  lemma OtherKind(value: string, rest: string)
    requires '>' !in value && !("--" <= value) && !("[CDATA[" <= value)
    ensures KindOf("<!" + (value + ">" + rest)) == KUnknown
  {
    var v := value + ">" + rest;
    var s := "<!" + v;
    assert s[1] == '!' && "<?"[1] == '?';
    if "<!--" <= s { LongMark(value, rest, "<!--", "--"); }
    if "<![CDATA[" <= s { LongMark(value, rest, "<![CDATA[", "[CDATA["); }
  }

  /** A mark without `>` that begins with the value lies within it. */
  lemma LongMark(value: string, rest: string, mark: string, m: string)
    requires mark == "<!" + m && '>' !in m && mark <= "<!" + (value + ">" + rest)
    ensures m <= value
  {
    var s := "<!" + (value + ">" + rest);
    assert forall i :: 0 <= i < |m| ==> m[i] == mark[i + 2] == s[i + 2] == (value + ">" + rest)[i];
    assert (value + ">" + rest)[|value|] == '>';
    assert forall i :: 0 <= i < |m| ==> m[i] in m;
    assert m == value[..|m|];
  }

  /** A node other than text is read as what it means, whatever follows. */
  lemma {:induction false} NodeRead(n: Spelling, rest: string)
    requires Allowed(n) && !n.Plain?
    ensures Reads(NodeSpelled(n, rest), One(NodeMeant(n), rest, EndTag(n)))
    decreases n, 1
  {
    MarkKind(if n.Pair? || n.Lone? then "" else n.value, rest);
    match n
    case Pair(start, body, finish) =>
      var f := ByClosing(finish, rest);
      LevelRead(body, f);
      LevelIsLong(body, finish, rest);
      ElementRead(start, LevelSpelled(body, TagSpelled(finish, rest)), One(NodeMeant(n), rest, EndTag(n)));
    case Lone(tag) => ElementRead(tag, rest, One(NodeMeant(n), rest, EndTag(n)));
    case Cdata(v) => MarkRead("<![CDATA[", v, "]]>", rest, KCdata, One(NodeMeant(n), rest, EndTag(n)));
    case Remark(v) => MarkRead("<!--", v, "-->", rest, KComment, One(NodeMeant(n), rest, EndTag(n)));
    case Declared(v) => MarkRead("<?", v, "?>", rest, KDeclaration, One(NodeMeant(n), rest, EndTag(n)));
    case Other(v) =>
      OtherKind(v, rest);
      FreeOfChar(v, '>');
      MarkRead("<!", v, ">", rest, KUnknown, One(NodeMeant(n), rest, EndTag(n)));
  }

  lemma {:induction false} LevelIsLong(l: Level, t: TagText, rest: string)
    ensures LevelSpelled(l, TagSpelled(t, rest)) != ""
  {
    if l.More? { LevelIsLong(l.others, t, rest); }
  }

  /** How a level ends. */
  function EndOf(f: Finish): End
  {
    match f
    case EndOfText => Stopped(NoError)
    case ByClosing(tag, rest) => ByTag(tag.name, rest)
  }

  lemma FinishRead(gap: string, f: Finish)
    requires Blanks(gap) && FinishAllowed(f)
    ensures ParseNodes(gap + FinishSpelled(f)) == Many(Nil, EndOf(f))
  {
    if f.EndOfText? {
      SkipGap(gap, "");
    } else {
      ElementRead(f.tag, f.rest, ElementOf(f.tag, f.rest));
    }
  }

  /** One round of the parser. */
  lemma Round(s: string, p: string, node: Node, rest: string, endTag: string)
    requires p == SkipSpace(s) != "" && ParseOne(s, p) == One(node, rest, endTag)
    requires !(node.Element? && node.closing == Closing) && !Mismatched(node, endTag)
    ensures ParseNodes(s) == Before(node, ParseNodes(rest))
  {
  }

  /** A tag follows at once. */
  lemma {:induction false} TagFollows(l: Level, f: Finish)
    requires LevelAllowed(l, f.ByClosing?) && Tight(l, f.ByClosing?) && FinishAllowed(f)
    ensures var r := LevelSpelled(l, FinishSpelled(f)); |r| >= 2 && r[0] == '<'
  {
    if l.Done? {
      ElementRead(f.tag, f.rest, ElementOf(f.tag, f.rest));
      assert "" + FinishSpelled(f) == FinishSpelled(f);
    } else {
      var r := LevelSpelled(l.others, FinishSpelled(f));
      assert "" + NodeSpelled(l.first, r) == NodeSpelled(l.first, r);
      if l.first.Pair? { TagIsLong(l.first.start, LevelSpelled(l.first.body, TagSpelled(l.first.finish, r))); }
      if l.first.Lone? { TagIsLong(l.first.tag, r); }
    }
  }

  lemma TagIsLong(t: TagText, rest: string)
    requires TagAllowed(t)
    ensures |TagSpelled(t, rest)| >= 2 && TagSpelled(t, rest)[0] == '<'
  {
    assert |t.name| > 0;
  }

  lemma PlainRead(v: string, rest: string)
    requires Allowed(Plain(v)) && |rest| >= 2 && rest[0] == '<'
    ensures var s := v + rest; var p := SkipSpace(s); p != "" && ParseOne(s, p) == One(Text(v, false), rest, "")
  {
    var s := v + rest;
    FreeOfChar(v, '<');
    assert rest == "<" + rest[1..];
    assert s == v + "<" + rest[1..];
    IndexAfter(v, "<", rest[1..]);
    assert s[..|v|] == v && s[|v|..] == rest;
    TextStarts(v, rest);
  }

  lemma {:induction false} TextStarts(v: string, rest: string)
    requires !Blanks(v) && '<' !in v
    ensures var p := SkipSpace(v + rest); p != "" && KindOf(p) == KText
  {
    assert (v + rest)[0] == v[0];
    if IsSpace(v[0]) {
      assert (v + rest)[1..] == v[1..] + rest;
      var i :| 0 <= i < |v| && !IsSpace(v[i]);
      assert v[1..][i - 1] == v[i];
      TextStarts(v[1..], rest);
    } else {
      assert v[0] != '<';
    }
  }

  /** A level is read as what it means, and ends as it is finished. */
  lemma {:induction false} LevelRead(l: Level, f: Finish)
    requires LevelAllowed(l, f.ByClosing?) && FinishAllowed(f)
    ensures ParseNodes(LevelSpelled(l, FinishSpelled(f))) == Many(LevelMeant(l), EndOf(f))
    decreases l, 0
  {
    match l
    case Done(gap) => FinishRead(gap, f);
    case More(gap, first, others) =>
      LevelRead(others, f);
      var rest := LevelSpelled(others, FinishSpelled(f));
      var p := NodeSpelled(first, rest);
      if first.Plain? {
        TagFollows(others, f);
        PlainRead(first.value, rest);
        assert "" + p == p;
        Round(p, SkipSpace(p), NodeMeant(first), rest, "");
      } else {
        NodeRead(first, rest);
        Round(gap + p, p, NodeMeant(first), rest, EndTag(first));
      }
  }
}
