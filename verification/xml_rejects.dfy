/** Exactly which texts common/qxml.cc accepts and to what, and which errors it sets for the others. */
module XmlRejects {
  import opened XmlText
  import opened XmlParser
  import opened XmlGrammar
  import opened XmlComplete
  import opened XmlSound

  // ---------------------------------------------------------------- what is accepted

  /** The text is an allowed spelling of these nodes, and of what comes after them. */
  ghost predicate Spells(s: string, l: Level, f: Finish, nodes: Nodes)
  {
    && LevelAllowed(l, f.ByClosing?) && FinishAllowed(f)
    && s == LevelSpelled(l, FinishSpelled(f)) && LevelMeant(l) == nodes
  }

  /** A level ends at the end of the text or at a closing tag exactly if it is spelled so. */
  lemma LevelExactly(s: string, nodes: Nodes, end: End)
    requires end == Stopped(NoError) || end.ByTag?
    ensures ParseNodes(s) == Many(nodes, end) <==> exists l, f :: Spells(s, l, f, nodes) && EndOf(f) == end
  {
    if ParseNodes(s) == Many(nodes, end) {
      var l, f := LevelOf(s);
      assert Spells(s, l, f, nodes);
    }
    if l, f :| Spells(s, l, f, nodes) && EndOf(f) == end { LevelRead(l, f); }
  }

  /** A document: blanks, then nodes; a closing tag on the top level ends it, whatever follows. */
  ghost predicate IsDocument(xml: string, gap: string, l: Level, f: Finish, nodes: Nodes)
  {
    var s := LevelSpelled(l, FinishSpelled(f));
    Blanks(gap) && xml == gap + s && s != "" && !IsSpace(s[0]) && Spells(s, l, f, nodes)
  }

  /** A text is parsed without an error, to these nodes, exactly if the grammar spells them so: every element is ended
      by a tag of its own name. */
  lemma AcceptedExactly(xml: string, nodes: Nodes)
    ensures ParseDocument(xml) == Document(nodes, NoError) <==> exists gap, l, f :: IsDocument(xml, gap, l, f, nodes)
  {
    if ParseDocument(xml) == Document(nodes, NoError) {
      var gap := GapOf(xml);
      StartsSolid(xml);
      var l, f := LevelOf(SkipSpace(xml));
      assert IsDocument(xml, gap, l, f, nodes);
    }
    if gap, l, f :| IsDocument(xml, gap, l, f, nodes) { DocumentRead(xml, gap, l, f, nodes); }
  }

  lemma DocumentRead(xml: string, gap: string, l: Level, f: Finish, nodes: Nodes)
    requires IsDocument(xml, gap, l, f, nodes)
    ensures ParseDocument(xml) == Document(nodes, NoError)
  {
    SkipGap(gap, LevelSpelled(l, FinishSpelled(f)));
    LevelRead(l, f);
  }

  lemma StartsSolid(s: string)
    ensures var p := SkipSpace(s); p != "" ==> !IsSpace(p[0])
  {
  }

  /** The grammar is unambiguous: a text spells one sequence of nodes and one end. */
  lemma OneReading(s: string, l: Level, f: Finish, nodes: Nodes, l': Level, f': Finish, nodes': Nodes)
    requires Spells(s, l, f, nodes) && Spells(s, l', f', nodes')
    ensures nodes == nodes' && EndOf(f) == EndOf(f')
  {
    LevelRead(l, f);
    LevelRead(l', f');
  }

  // ---------------------------------------------------------------- what is rejected

  /** The text stops a level with an error before any node. */
  ghost predicate Fails(s: string, error: Error) { ParseNodes(s) == Many(Nil, Stopped(error)) }

  lemma NothingRead(gap: string, s: string, one: One)
    requires Blanks(gap) && Reads(s, one) && one.NoNode?
    ensures Fails(gap + s, if one.error == NoError then Parsing else one.error)
  {
  }

  /** An element that is ended by a tag of another name, whatever its body. */
  lemma MismatchIsAnError(gap: string, start: TagText, body: Level, finish: TagText, rest: string)
    requires Blanks(gap) && IsOpening(start) && LevelAllowed(body, true) && IsClosing(finish)
    requires finish.name != start.name
    ensures Fails(gap + TagSpelled(start, LevelSpelled(body, TagSpelled(finish, rest))), MismatchedElement)
  {
    var behind := LevelSpelled(body, TagSpelled(finish, rest));
    var node := Element(start.name, AttrsMeant(start.attrs), Open, LevelMeant(body));
    LevelRead(body, ByClosing(finish, rest));
    LevelIsLong(body, finish, rest);
    ElementRead(start, behind, One(node, rest, finish.name));
    Refused(gap, TagSpelled(start, behind), node, rest, finish.name);
  }

  lemma Refused(gap: string, s: string, node: Node, rest: string, endTag: string)
    requires Blanks(gap) && Reads(s, One(node, rest, endTag))
    requires node.Element? && node.closing != Closing && Mismatched(node, endTag)
    ensures Fails(gap + s, MismatchedElement)
  {
  }

  /** An element that is still open at the end of the text. */
  lemma OpenAtTheEnd(gap: string, start: TagText, body: Level)
    requires Blanks(gap) && IsOpening(start) && LevelAllowed(body, false)
    ensures var behind := LevelSpelled(body, "");
            Fails(gap + TagSpelled(start, behind), if behind == "" then MismatchedElement else Parsing)
  {
    var behind := LevelSpelled(body, "");
    LevelRead(body, EndOfText);
    if behind == "" {
      var node := Element(start.name, AttrsMeant(start.attrs), Open, Nil);
      ElementRead(start, behind, One(node, "", ""));
      Refused(gap, TagSpelled(start, behind), node, "", "");
    } else {
      ErrorInElement(gap, start, behind, NoError);
    }
  }

  /** An error behind a node stops the level there. */
  lemma ErrorBehindNode(gap: string, n: Spelling, rest: string, nodes: Nodes, error: Error)
    requires Blanks(gap) && Allowed(n) && !n.Plain? && ParseNodes(rest) == Many(nodes, Stopped(error))
    ensures ParseNodes(gap + NodeSpelled(n, rest)) == Many(Cons(NodeMeant(n), nodes), Stopped(error))
  {
    NodeRead(n, rest);
    Round(gap + NodeSpelled(n, rest), NodeSpelled(n, rest), NodeMeant(n), rest, EndTag(n));
  }

  /** An error inside an element stops the level of the element, and its nodes are dropped. */
  lemma ErrorInElement(gap: string, start: TagText, rest: string, error: Error)
    requires Blanks(gap) && IsOpening(start) && rest != "" && ParseNodes(rest).end == Stopped(error)
    ensures Fails(gap + TagSpelled(start, rest), if error == NoError then Parsing else error)
  {
    ElementRead(start, rest, ElementOf(start, rest));
    NothingRead(gap, TagSpelled(start, rest), ElementOf(start, rest));
  }

  /** A level that fails makes the document fail. */
  lemma DocumentFails(s: string, error: Error)
    requires s != "" && !IsSpace(s[0]) && Fails(s, error)
    ensures ParseDocument(s) == Document(Nil, error)
  {
  }

  // ---------------------------------------------------------------- marks without an end

  lemma {:induction false} NotFound(s: string, tag: string)
    requires tag != "" && !Contains(s, tag)
    ensures IndexOf(s, tag) == -1
  {
    if s != "" {
      forall i | 0 <= i <= |s[1..]| ensures !(tag <= s[1..][i..]) {
        assert s[1..][i..] == s[i + 1..];
      }
      NotFound(s[1..], tag);
      assert s[0..] == s;
    }
  }

  lemma MarkFails(gap: string, s: string, mark: string, v: string, end: string, k: Kind, error: Error)
    requires Blanks(gap) && s == mark + v && |mark| >= 2 && mark[0] == '<' && end != "" && !Contains(v, end)
    requires KindOf(s) == k && HeaderLength(k) == |mark|
    requires (k == KDeclaration && end == "?>" && error == ParsingDeclaration)
             || (k == KComment && end == "-->" && error == ParsingComment)
             || (k == KCdata && end == "]]>" && error == ParsingCdata)
             || (k == KUnknown && end == ">" && error == ParsingUnknown)
    ensures Fails(gap + s, error)
  {
    NotFound(v, end);
    assert s[|mark|..] == v;
    AnyGap(s, NoNode(error));
    NothingRead(gap, s, NoNode(error));
  }

  /** A comment, a CDATA section, a declaration or another mark without its end. */
  lemma UnendedMark(gap: string, v: string)
    requires Blanks(gap)
    ensures !Contains(v, "-->") ==> Fails(gap + ("<!--" + v), ParsingComment)
    ensures !Contains(v, "]]>") ==> Fails(gap + ("<![CDATA[" + v), ParsingCdata)
    ensures !Contains(v, "?>") ==> Fails(gap + ("<?" + v), ParsingDeclaration)
    ensures !Contains(v, ">") && !("--" <= v) && !("[CDATA[" <= v) ==> Fails(gap + ("<!" + v), ParsingUnknown)
  {
    KindsOfMarks(v);
    if !Contains(v, "-->") { MarkFails(gap, "<!--" + v, "<!--", v, "-->", KComment, ParsingComment); }
    if !Contains(v, "]]>") { MarkFails(gap, "<![CDATA[" + v, "<![CDATA[", v, "]]>", KCdata, ParsingCdata); }
    if !Contains(v, "?>") { MarkFails(gap, "<?" + v, "<?", v, "?>", KDeclaration, ParsingDeclaration); }
    if !Contains(v, ">") && !("--" <= v) && !("[CDATA[" <= v) {
      MarkFails(gap, "<!" + v, "<!", v, ">", KUnknown, ParsingUnknown);
    }
  }

  lemma KindsOfMarks(v: string)
    ensures KindOf("<!--" + v) == KComment && KindOf("<![CDATA[" + v) == KCdata && KindOf("<?" + v) == KDeclaration
    ensures !("--" <= v) && !("[CDATA[" <= v) ==> KindOf("<!" + v) == KUnknown
  {
    var c := "<![CDATA[" + v;
    assert c[1] == '!' && c[2] == '[' && "<!--"[2] == '-' && "<?"[1] == '?';
    var d, u := "<!--" + v, "<!" + v;
    assert d[1] == '!' && u[1] == '!';
    MarkWithin(v, "<!--", "--");
    MarkWithin(v, "<![CDATA[", "[CDATA[");
  }

  lemma MarkWithin(v: string, mark: string, m: string)
    requires mark == "<!" + m
    ensures mark <= "<!" + v ==> m <= v
  {
    var s := "<!" + v;
    assert mark[2..] == m && s[2..] == v;
    if mark <= s { assert forall i :: 0 <= i < |m| ==> m[i] == mark[i + 2] == s[i + 2] == v[i]; }
  }

  /** A text that no tag follows. */
  lemma TextAtTheEnd(v: string)
    requires !Blanks(v) && '<' !in v
    ensures Fails(v, ParsingText)
  {
    TextStarts(v, "");
    assert v + "" == v;
    HasNotThenContainsNot(v, '<');
    NotFound(v, "<");
  }

  lemma HasNotThenContainsNot(v: string, c: char)
    requires c !in v
    ensures !Contains(v, [c])
  {
    forall i | 0 <= i <= |v| ensures !([c] <= v[i..]) {
      if i < |v| { assert v[i..][0] == v[i] && v[i] in v; }
    }
  }

  // ---------------------------------------------------------------- broken tags

  /** An attribute whose name the tag has already. */
  lemma RepeatedAttribute(attrs: seq<AttrText>, a: AttrText, rest: string, closing: Closing)
    requires AttrsAllowed(attrs, []) && AttrAllowed(a)
    requires exists i :: 0 <= i < |attrs| && attrs[i].name == a.name
    ensures ParseAttrs(AttrsSpelled(attrs, AttrSpelled(a, rest)), [], closing) == BadTag(ParsingAttribute)
  {
    var p, seen := AttrSpelled(a.(before := ""), rest), AttrsMeant(attrs);
    var i :| 0 <= i < |attrs| && attrs[i].name == a.name;
    MeantAt(attrs, i);
    AttrsRead(attrs, [], AttrSpelled(a, rest), closing);
    assert [] + seen == seen;
    Unpadded(a.(before := ""), a.before, rest);
    FirstChar(a.(before := ""), rest);
    SkipGap(a.before, p);
    AttrRead(a, rest);
  }

  lemma {:induction false} MeantAt(attrs: seq<AttrText>, i: nat)
    requires i < |attrs|
    ensures i < |AttrsMeant(attrs)| && AttrsMeant(attrs)[i] == Attr(attrs[i].name, attrs[i].value)
  {
    if i > 0 { MeantAt(attrs[1..], i - 1); }
  }

  /** A tag that ends with the text, or goes on with a character that starts no attribute and ends no tag. */
  lemma BrokenTag(attrs: seq<AttrText>, gap: string, rest: string, closing: Closing)
    requires AttrsAllowed(attrs, []) && Blanks(gap)
    requires rest == "" || !(IsSpace(rest[0]) || IsNameStart(rest[0]) || rest[0] == '>' || "/>" <= rest)
    ensures ParseAttrs(AttrsSpelled(attrs, gap + rest), [], closing) == BadTag(ParsingElement)
  {
    AttrsRead(attrs, [], gap + rest, closing);
    SkipGap(gap, rest);
  }
}
