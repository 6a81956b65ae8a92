/** Whatever common/qxml.cc accepts is spelled by its grammar: together with `XmlComplete` this says exactly which texts
    parse without an error, and to what.  What is rejected, and how, follows. */
module XmlSound {
  import opened XmlText
  import opened XmlParser
  import opened XmlGrammar
  import opened XmlComplete

  // ---------------------------------------------------------------- what the scanners leave out

  lemma {:induction false} GapOf(s: string) returns (gap: string)
    ensures Blanks(gap) && s == gap + SkipSpace(s)
  {
    if s != "" && IsSpace(s[0]) {
      var rest := GapOf(s[1..]);
      gap := [s[0]] + rest;
    } else {
      gap := "";
    }
  }

  lemma {:induction false} FirstIndex(s: string, tag: string)
    requires tag != "" && IndexOf(s, tag) >= 0
    ensures var i := IndexOf(s, tag); tag <= s[i..] && forall j :: 0 <= j < i ==> !(tag <= s[j..])
  {
    assert s[0..] == s;
    if !(tag <= s) {
      FirstIndex(s[1..], tag);
      var i := IndexOf(s[1..], tag);
      assert s[1..][i..] == s[i + 1..];
      forall j | 0 <= j < i + 1 ensures !(tag <= s[j..]) {
        if j > 0 { assert s[1..][j - 1..] == s[j..]; }
      }
    }
  }

  /** What a scan finds ends where the mark occurs first. */
  lemma ScannedIsSpelled(s: string, tag: string)
    requires tag != "" && ScanText(s, tag).Token?
    ensures var t := ScanText(s, tag); s == t.value + tag + t.rest && Free(t.value, tag)
  {
    var i := IndexOf(s, tag);
    FirstIndex(s, tag);
    assert s[i..] == tag + s[i + |tag|..];
    forall j | 0 <= j < i ensures !(tag <= s[..i][j..] + tag) {
      assert s[j..] == s[..i][j..] + tag + s[i + |tag|..];
      PrefixLonger(tag, s[..i][j..] + tag, s[i + |tag|..]);
    }
  }

  lemma PrefixLonger(tag: string, a: string, b: string)
    ensures tag <= a ==> tag <= a + b
  {
  }

  lemma FreeHasNot(v: string, c: char)
    requires Free(v, [c])
    ensures c !in v
  {
    forall i | 0 <= i < |v| ensures v[i] != c {
      assert (v[i..] + [c])[0] == v[i];
      assert !([c] <= v[i..] + [c]);
    }
  }

  lemma {:induction false} RunStops(s: string)
    ensures NameRun(s) < |s| ==> !IsNameChar(s[NameRun(s)])
  {
    if s != "" && IsNameChar(s[0]) { RunStops(s[1..]); }
  }

  lemma NameStops(s: string)
    requires ScanName(s).Token?
    ensures var rest := ScanName(s).rest; rest == "" || !IsNameChar(rest[0])
  {
    RunStops(s[1..]);
  }

  // ---------------------------------------------------------------- attributes and tags

  lemma AttrOf(p: string) returns (a: AttrText)
    requires ParseAttr(p).GoodAttr?
    ensures AttrAllowed(a) && a.before == "" && AttrSpelled(a, ParseAttr(p).rest) == p
    ensures ParseAttr(p).attr == Attr(a.name, a.value)
  {
    var name := ScanName(p);
    FoundIsName(p);
    var left := GapOf(name.rest);
    var e := SkipSpace(name.rest);
    var right := GapOf(e[1..]);
    var q := SkipSpace(e[1..]);
    var value := ScanText(q[1..], [q[0]]);
    ScannedIsSpelled(q[1..], [q[0]]);
    FreeHasNot(value.value, q[0]);
    a := AttrText("", name.value, left, right, q[0], value.value);
    AttrPut(a, p, name.rest, e, q, value.rest);
  }

  lemma AttrPut(a: AttrText, p: string, behind: string, e: string, q: string, rest: string)
    requires a.before == "" && p == a.name + behind && behind == a.left + e && e != "" && e[0] == '='
    requires e[1..] == a.right + q && q != "" && q[0] == a.quote && q[1..] == a.value + [a.quote] + rest
    ensures AttrSpelled(a, rest) == p
  {
    assert q == [a.quote] + (a.value + ([a.quote] + rest));
    assert e == "=" + (a.right + q);
    assert "" + p == p;
  }

  /** The rest of a tag, spelled: its attributes, the blanks behind them and how it ends. */
  ghost predicate RestOfTag(s: string, seen: seq<Attr>, closing: Closing, r: Tag, attrs: seq<AttrText>, tail: string,
      closed: bool)
  {
    && r.Tag? && AttrsAllowed(attrs, seen) && Blanks(tail)
    && s == AttrsSpelled(attrs, tail + ((if closed then "/>" else ">") + r.rest))
    && r.attrs == seen + AttrsMeant(attrs) && r.closing == if closed then Closed else closing
  }

  lemma OneMoreAttr(s: string, gap: string, p: string, a: AttrText, behind: string, seen: seq<Attr>, closing: Closing,
      r: Tag, attrs: seq<AttrText>, tail: string, closed: bool)
    requires Blanks(gap) && s == gap + p && a.before == "" && AttrAllowed(a) && p == AttrSpelled(a, behind)
    requires !HasAttr(seen, a.name)
    requires RestOfTag(behind, seen + [Attr(a.name, a.value)], closing, r, attrs, tail, closed)
    ensures RestOfTag(s, seen, closing, r, [a.(before := gap)] + attrs, tail, closed)
  {
    var a' := a.(before := gap);
    Unpadded(a, gap, behind);
    assert ([a'] + attrs)[1..] == attrs;
    MeantFirst([a'] + attrs, seen);
  }

  lemma Unpadded(a: AttrText, gap: string, behind: string)
    requires a.before == ""
    ensures AttrSpelled(a.(before := gap), behind) == gap + AttrSpelled(a, behind)
  {
  }

  lemma TagEndOf(s: string, gap: string, p: string, seen: seq<Attr>, closing: Closing)
    requires Blanks(gap) && s == gap + p && p == SkipSpace(s) != "" && !IsNameStart(p[0])
    requires ParseAttrs(s, seen, closing).Tag?
    ensures RestOfTag(s, seen, closing, ParseAttrs(s, seen, closing), [], gap, p[0] == '/')
  {
    assert p == if p[0] == '/' then "/>" + p[2..] else ">" + p[1..];
    assert seen + [] == seen;
  }

  /** One round of `ParseAttributes`. */
  lemma AttrRound(s: string, p: string, seen: seq<Attr>, closing: Closing)
    requires p == SkipSpace(s) != "" && IsNameStart(p[0]) && ParseAttrs(s, seen, closing).Tag?
    ensures ParseAttr(p).GoodAttr? && |ParseAttr(p).rest| < |s| && !HasAttr(seen, ParseAttr(p).attr.name)
    ensures ParseAttrs(s, seen, closing) == ParseAttrs(ParseAttr(p).rest, seen + [ParseAttr(p).attr], closing)
  {
  }

  lemma {:induction false} AttrsOf(s: string, seen: seq<Attr>, closing: Closing)
      returns (attrs: seq<AttrText>, tail: string, closed: bool)
    requires ParseAttrs(s, seen, closing).Tag?
    ensures RestOfTag(s, seen, closing, ParseAttrs(s, seen, closing), attrs, tail, closed)
    decreases |s|
  {
    var gap := GapOf(s);
    var p := SkipSpace(s);
    if IsNameStart(p[0]) {
      AttrRound(s, p, seen, closing);
      var r := ParseAttr(p);
      var a := AttrOf(p);
      attrs, tail, closed := AttrsOf(r.rest, seen + [r.attr], closing);
      OneMoreAttr(s, gap, p, a, r.rest, seen, closing, ParseAttrs(s, seen, closing), attrs, tail, closed);
      attrs := [a.(before := gap)] + attrs;
    } else {
      attrs, tail, closed := [], gap, p[0] == '/';
      TagEndOf(s, gap, p, seen, closing);
    }
  }

  /** The inverse of `TagRead`. */
  lemma TagOf(s: string, slash: bool, name: string, attrs: seq<Attr>, closing: Closing, rest: string)
      returns (t: TagText)
    requires IsTag(s, slash, name, attrs, closing, rest)
    ensures TagAllowed(t) && TagSpelled(t, rest) == s && t.slash == slash && t.name == name
    ensures AttrsMeant(t.attrs) == attrs && ClosingOf(t) == closing
  {
    var gap := GapOf(s[1..]);
    var p := SkipSpace(s[1..]);
    var q := if slash then p[1..] else p;
    var token := ScanName(q);
    FoundIsName(q);
    NameStops(q);
    var texts, tail, closed := AttrsOf(token.rest, [], if slash then Closing else Open);
    t := TagText(gap, slash, name, texts, tail, closed);
    assert [] + AttrsMeant(texts) == AttrsMeant(texts);
    FirstIsApart(t, token.rest, rest);
    TagPut(t, s, p, q, token.rest, rest);
  }

  lemma FirstIsApart(t: TagText, behind: string, rest: string)
    requires AttrsAllowed(t.attrs, []) && behind == AttrsSpelled(t.attrs, TagEnd(t, rest))
    requires behind == "" || !IsNameChar(behind[0])
    ensures t.attrs != [] ==> t.attrs[0].before != ""
  {
    if t.attrs != [] { FirstChar(t.attrs[0], AttrsSpelled(t.attrs[1..], TagEnd(t, rest))); }
  }

  lemma FirstChar(a: AttrText, rest: string)
    requires AttrAllowed(a)
    ensures var s := AttrSpelled(a, rest); s != "" && s[0] == if a.before == "" then a.name[0] else a.before[0]
  {
  }

  lemma TagPut(t: TagText, s: string, p: string, q: string, behind: string, rest: string)
    requires s != "" && s[0] == '<' && s[1..] == t.gap + p && (t.slash ==> p != "" && p[0] == '/' && q == p[1..])
    requires (!t.slash ==> q == p) && q == t.name + behind && behind == AttrsSpelled(t.attrs, TagEnd(t, rest))
    ensures TagSpelled(t, rest) == s
  {
    assert p == (if t.slash then "/" else "") + q;
    assert s == "<" + (t.gap + p);
  }

  // ---------------------------------------------------------------- nodes and levels

  /** What the parser went through when it made an element. */
  lemma ElementIsTag(s: string) returns (slash: bool, name: string, tag: Tag)
    requires |s| >= 1 && s[0] == '<' && KindOf(s) == KElement && ParseElement(s[1..]).One?
    ensures tag.Tag? && IsTag(s, slash, name, tag.attrs, tag.closing, tag.rest)
    ensures |tag.rest| < |s|
    ensures var one := ParseElement(s[1..]);
            if tag.rest == "" || tag.closing != Open
            then one == One(Element(name, tag.attrs, tag.closing, Nil), tag.rest, "")
            else ParseNodes(tag.rest).end.ByTag? &&
                 var inner := ParseNodes(tag.rest);
                 one == One(Element(name, tag.attrs, Open, inner.nodes), inner.end.rest, inner.end.name)
  {
    var p := SkipSpace(s[1..]);
    slash := p != "" && p[0] == '/';
    var token := ScanName(if slash then p[1..] else p);
    name := token.value;
    tag := ParseAttrs(token.rest, [], if slash then Closing else Open);
  }

  lemma MarkOf(s: string, k: Kind, q: string, mark: string, end: string)
    requires KindOf(s) == k && |mark| == HeaderLength(k) && mark <= s && q == s[|mark|..] && end != ""
    requires ScanText(q, end).Token?
    ensures var t := ScanText(q, end); s == mark + (t.value + end + t.rest) && Free(t.value, end)
  {
    ScannedIsSpelled(q, end);
  }

  /** A node with an end mark. */
  lemma LeafOf(s: string, p: string) returns (n: Spelling)
    requires p == SkipSpace(s) != "" && KindOf(p) != KElement && KindOf(p) != KText && ParseOne(s, p).One?
    ensures var one := ParseOne(s, p);
            Allowed(n) && !n.Plain? && NodeSpelled(n, one.rest) == p && NodeMeant(n) == one.node
  {
    var k := KindOf(p);
    var q := p[HeaderLength(k)..];
    match k {
      case KDeclaration => MarkOf(p, k, q, "<?", "?>"); n := Declared(ScanText(q, "?>").value);
      case KComment => MarkOf(p, k, q, "<!--", "-->"); n := Remark(ScanText(q, "-->").value);
      case KCdata => MarkOf(p, k, q, "<![CDATA[", "]]>"); n := Cdata(ScanText(q, "]]>").value);
      case KUnknown =>
        MarkOf(p, k, q, "<!", ">");
        var t := ScanText(q, ">");
        FreeHasNot(t.value, '>');
        NotAnotherMark(p, t.value, t.rest);
        n := Other(t.value);
    }
  }

  lemma NotAnotherMark(p: string, v: string, rest: string)
    requires p == "<!" + (v + ">" + rest) && KindOf(p) == KUnknown
    ensures !("--" <= v) && !("[CDATA[" <= v)
  {
    assert "<!--" == "<!" + "--" && "<![CDATA[" == "<!" + "[CDATA[";
    PrefixLonger("--", v, ">" + rest);
    PrefixLonger("[CDATA[", v, ">" + rest);
    assert v + ">" + rest == v + (">" + rest);
    Prefixed(p, "--", v + ">" + rest);
    Prefixed(p, "[CDATA[", v + ">" + rest);
  }

  lemma Prefixed(p: string, m: string, v: string)
    requires p == "<!" + v
    ensures m <= v ==> "<!" + m <= p
  {
  }

  lemma PlainOf(s: string, p: string) returns (n: Spelling)
    requires p == SkipSpace(s) != "" && KindOf(p) == KText && ParseOne(s, p).One?
    ensures var one := ParseOne(s, p);
            Allowed(n) && n.Plain? && NodeSpelled(n, one.rest) == s && NodeMeant(n) == one.node
    ensures var rest := ParseOne(s, p).rest; |rest| >= 2 && rest[0] == '<'
  {
    var i := IndexOf(s, "<");
    FirstIndex(s, "<");
    ScannedIsSpelled(s, "<");
    FreeHasNot(s[..i], '<');
    assert s[i] == '<';
    TextIsNotBlank(s, i);
    n := Plain(s[..i]);
    assert s == s[..i] + s[i..];
  }

  lemma TextIsNotBlank(s: string, i: nat)
    requires i < |s| && s[i] == '<' && SkipSpace(s) != "" && SkipSpace(s)[0] != '<'
    ensures !Blanks(s[..i])
  {
    assert s == s[..i] + s[i..];
    if Blanks(s[..i]) { SkipGap(s[..i], s[i..]); }
  }

  /** After a text the next level starts with its tag. */
  lemma NextIsTight(l: Level, f: Finish)
    requires LevelAllowed(l, f.ByClosing?)
    requires var rest := LevelSpelled(l, FinishSpelled(f)); |rest| >= 2 && rest[0] == '<'
    ensures Tight(l, f.ByClosing?)
  {
    LevelHead(l, FinishSpelled(f));
    if l.Done? { assert l.gap + "" == l.gap; }
  }

  lemma LevelHead(l: Level, r: string)
    ensures var s := LevelSpelled(l, r);
            && (l.gap != "" ==> s != "" && s[0] == l.gap[0])
            && (l.gap == "" && l.More? && l.first.Plain? && l.first.value != "" ==> s != "" && s[0] == l.first.value[0])
  {
  }

  /** The text of an accepted level is spelled by the grammar, and its nodes are what the spelling means. */
  lemma {:induction false} LevelOf(s: string) returns (l: Level, f: Finish)
    requires ParseNodes(s).end.ByTag? || ParseNodes(s).end == Stopped(NoError)
    ensures LevelAllowed(l, f.ByClosing?) && FinishAllowed(f) && s == LevelSpelled(l, FinishSpelled(f))
    ensures LevelMeant(l) == ParseNodes(s).nodes && EndOf(f) == ParseNodes(s).end
    decreases |s|, 1
  {
    var gap := GapOf(s);
    var p := SkipSpace(s);
    if p == "" {
      l, f := Done(gap), EndOfText;
    } else {
      var one := ParseOne(s, p);
      if one.node.Element? && one.node.closing == Closing {
        var t := ClosingTagOf(s, p);
        l, f := Done(gap), ByClosing(t, one.rest);
      } else {
        var n := NodeOf(s, p);
        var others;
        others, f := LevelOf(one.rest);
        if n.Plain? { NextIsTight(others, f); }
        l := More(if n.Plain? then "" else gap, n, others);
        assert n.Plain? ==> "" + s == s;
      }
    }
  }

  lemma ClosingTagOf(s: string, p: string) returns (t: TagText)
    requires p == SkipSpace(s) != "" && ParseOne(s, p).One?
    requires var node := ParseOne(s, p).node; node.Element? && node.closing == Closing
    ensures IsClosing(t) && TagSpelled(t, ParseOne(s, p).rest) == p && t.name == ParseOne(s, p).node.name
  {
    var slash, name, tag := ElementIsTag(p);
    t := TagOf(p, slash, name, tag.attrs, tag.closing, tag.rest);
  }

  lemma {:induction false} NodeOf(s: string, p: string) returns (n: Spelling)
    requires p == SkipSpace(s) != "" && ParseOne(s, p).One?
    requires var one := ParseOne(s, p);
             !(one.node.Element? && one.node.closing == Closing) && !Mismatched(one.node, one.endTag)
    ensures var one := ParseOne(s, p);
            && Allowed(n) && NodeMeant(n) == one.node
            && (if n.Plain? then NodeSpelled(n, one.rest) == s && |one.rest| >= 2 && one.rest[0] == '<'
                else NodeSpelled(n, one.rest) == p)
    decreases |s|, 0
  {
    if KindOf(p) == KText {
      n := PlainOf(s, p);
    } else if KindOf(p) == KElement {
      var slash, name, tag := ElementIsTag(p);
      var t := TagOf(p, slash, name, tag.attrs, tag.closing, tag.rest);
      if tag.closing == Closed {
        n := Lone(t);
      } else {
        var body, f := LevelOf(tag.rest);
        n := Pair(t, body, f.tag);
      }
    } else {
      n := LeafOf(s, p);
    }
  }
}
