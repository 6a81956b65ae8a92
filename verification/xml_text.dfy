/** The character classes and the scanners of common/qxml.h and common/qxml.cc.  A pointer into the
    zero-terminated buffer is the text from there to the end. */
module XmlText {

  function IsSpace(c: char): bool
  {
    c == ' ' || ('\t' <= c <= '\r')
  }

  /** `IsNameStartChar`: letters, `:`, `_` and everything outside ASCII. */
  function IsNameStart(c: char): bool
  {
    (if c as int < 128 then ('a' <= c <= 'z') || ('A' <= c <= 'Z') else true) || c == ':' || c == '_'
  }

  function IsNameChar(c: char): bool
  {
    IsNameStart(c) || ('0' <= c <= '9') || c == '.' || c == '-'
  }

  /** The classes by character code: blanks are 9 to 13 and 32; names start with a letter, `:`, `_` or a byte from 128
      on, and go on with these, digits, `.` and `-`. */
  lemma CharClasses(c: char)
    ensures IsSpace(c) <==> c as int in {9, 10, 11, 12, 13, 32}
    ensures IsNameStart(c) <==>
              65 <= c as int <= 90 || 97 <= c as int <= 122 || c as int == 58 || c as int == 95 || c as int >= 128
    ensures IsNameChar(c) && !IsNameStart(c) <==> 48 <= c as int <= 57 || c as int == 45 || c as int == 46
  {
  }

  /** What a scan finds: the text it takes and what follows, or nothing. */
  datatype Token = NoToken | Token(value: string, rest: string)

  function SkipSpace(s: string): (r: string)
    ensures |r| <= |s|
    ensures r != "" ==> !IsSpace(r[0])
    ensures s == "" || !IsSpace(s[0]) ==> r == s
  {
    if s != "" && IsSpace(s[0]) then SkipSpace(s[1..]) else s
  }

  /** How many name characters come first. */
  function NameRun(s: string): (n: nat)
    ensures n <= |s|
  {
    if s != "" && IsNameChar(s[0]) then 1 + NameRun(s[1..]) else 0
  }

  function ScanName(s: string): (t: Token)
    ensures t.Token? ==> t.value + t.rest == s && t.value != ""
  {
    if s == "" || !IsNameStart(s[0]) then NoToken
    else
      var n := 1 + NameRun(s[1..]);
      Token(s[..n], s[n..])
  }

  /** The first place where `tag` occurs, or -1. */
  function IndexOf(s: string, tag: string): (i: int)
    ensures -1 <= i <= |s| && (i >= 0 && tag != "" ==> i + |tag| <= |s|)
  {
    if s == "" then -1
    else if tag <= s then 0
    else
      var i := IndexOf(s[1..], tag);
      if i < 0 then -1 else i + 1
  }

  function ScanText(s: string, tag: string): (t: Token)
    requires tag != ""
    ensures t.Token? ==> |t.value| + |tag| + |t.rest| == |s|
  {
    var i := IndexOf(s, tag);
    if i < 0 then NoToken else Token(s[..i], s[i + |tag|..])
  }

  ghost predicate ValidName(s: string)
  {
    s != "" && IsNameStart(s[0]) && forall i :: 0 <= i < |s| ==> IsNameChar(s[i])
  }

  // ---------------------------------------------------------------- what the scanners find

  lemma {:induction false} RunOf(name: string, rest: string)
    requires forall i :: 0 <= i < |name| ==> IsNameChar(name[i])
    requires rest == "" || !IsNameChar(rest[0])
    ensures NameRun(name + rest) == |name|
  {
    if name == "" {
      assert name + rest == rest;
    } else {
      assert (name + rest)[1..] == name[1..] + rest;
      RunOf(name[1..], rest);
    }
  }

  /** A valid name before another character is found as a whole. */
  lemma NameIsFound(name: string, rest: string)
    requires ValidName(name) && (rest == "" || !IsNameChar(rest[0]))
    ensures ScanName(name + rest) == Token(name, rest)
  {
    var s := name + rest;
    assert s[1..] == name[1..] + rest;
    RunOf(name[1..], rest);
    assert s[..|name|] == name && s[|name|..] == rest;
  }

  /** And a name that is found is valid. */
  lemma FoundIsName(s: string)
    ensures ScanName(s).Token? ==> ValidName(ScanName(s).value)
  {
    if ScanName(s).Token? { RunIsNames(s[1..]); }
  }

  lemma {:induction false} RunIsNames(s: string)
    ensures forall i :: 0 <= i < NameRun(s) ==> IsNameChar(s[i])
  {
    if NameRun(s) > 0 {
      RunIsNames(s[1..]);
      forall i | 0 <= i < NameRun(s) ensures IsNameChar(s[i]) {
        if i > 0 { assert s[i] == s[1..][i - 1]; }
      }
    }
  }

  /** `tag` does not begin inside the text when `tag` follows it. */
  ghost predicate Free(text: string, tag: string)
  {
    forall i :: 0 <= i < |text| ==> !(tag <= text[i..] + tag)
  }

  lemma PrefixWithin(text: string, tag: string, rest: string)
    requires tag <= text + tag + rest
    ensures tag <= text + tag
  {
    assert (text + tag)[..|tag|] == (text + tag + rest)[..|tag|];
  }

  lemma {:induction false} IndexAfter(text: string, tag: string, rest: string)
    requires tag != "" && Free(text, tag)
    ensures IndexOf(text + tag + rest, tag) == |text|
  {
    var s := text + tag + rest;
    if text == "" {
      assert s == tag + rest;
    } else {
      assert s[1..] == text[1..] + tag + rest;
      forall i | 0 <= i < |text[1..]| ensures !(tag <= text[1..][i..] + tag) {
        assert text[1..][i..] == text[i + 1..];
      }
      IndexAfter(text[1..], tag, rest);
      assert text[0..] == text;
      if tag <= s { PrefixWithin(text, tag, rest); }
    }
  }

  /** A text that is free of the tag is found up to the tag. */
  lemma TextIsFound(text: string, tag: string, rest: string)
    requires tag != "" && Free(text, tag)
    ensures ScanText(text + tag + rest, tag) == Token(text, rest)
  {
    IndexAfter(text, tag, rest);
    var s := text + tag + rest;
    assert s[..|text|] == text && s[|text| + |tag|..] == rest;
  }

  /** For a tag of one character. */
  lemma FreeOfChar(text: string, c: char)
    requires c !in text
    ensures Free(text, [c])
  {
    forall i | 0 <= i < |text| ensures !([c] <= text[i..] + [c]) {
      assert (text[i..] + [c])[0] == text[i];
      assert text[i] in text;
    }
  }

  ghost predicate Contains(text: string, tag: string)
  {
    exists i :: 0 <= i <= |text| && tag <= text[i..]
  }

  lemma CdataEndWithin(text: string)
    requires text != "" && "]]>" <= text + "]]>"
    ensures "]]>" <= text
  {
    var s := text + "]]>";
    assert s[0] == ']' && s[1] == ']' && s[2] == '>';
    assert |text| >= 3;
    assert text[..3] == s[..3];
  }

  /** `]]>` cannot begin in a text without it and end in the `]]>` behind. */
  lemma FreeOfCdataEnd(text: string)
    requires !Contains(text, "]]>")
    ensures Free(text, "]]>")
  {
    forall i | 0 <= i < |text| ensures !("]]>" <= text[i..] + "]]>") {
      if "]]>" <= text[i..] + "]]>" { CdataEndWithin(text[i..]); }
    }
  }

  // ---------------------------------------------------------------- the loops

  /** `SkipWhiteSpace` */
  method SkipWhiteSpace(s: string) returns (p: string)
    ensures p == SkipSpace(s)
  {
    p := s;
    while p != "" && IsSpace(p[0])
      invariant SkipSpace(p) == SkipSpace(s)
      decreases |p|
    {
      p := p[1..];
    }
  }

  /** `XMLStr::ParseName` */
  method ParseName(start: string) returns (t: Token)
    ensures t == ScanName(start)
  {
    var n := 0;
    while n < |start| && (if n == 0 then IsNameStart(start[n]) else IsNameChar(start[n]))
      invariant 0 <= n <= |start|
      invariant n > 0 ==> IsNameStart(start[0]) && n + NameRun(start[n..]) == 1 + NameRun(start[1..])
    {
      assert n > 0 ==> start[n..][1..] == start[n + 1..];
      n := n + 1;
    }
    t := if n > 0 then Token(start[..n], start[n..]) else NoToken;
  }

  /** `XMLStr::ParseText` */
  method ParseText(start: string, endTag: string) returns (t: Token)
    requires endTag != ""
    ensures t == ScanText(start, endTag)
  {
    var n := 0;
    while n < |start|
      invariant 0 <= n <= |start|
      invariant IndexOf(start, endTag) ==
                if IndexOf(start[n..], endTag) < 0 then -1 else n + IndexOf(start[n..], endTag)
    {
      if start[n] == endTag[0] && endTag <= start[n..] {
        return Token(start[..n], start[n + |endTag|..]);
      }
      assert start[n..][1..] == start[n + 1..];
      n := n + 1;
    }
    t := NoToken;
  }

  /** `StringEqual`: equal, or equal in the first `nChar` characters. */
  method StringEqual(p: string, q: string, nChar: nat) returns (equal: bool)
    ensures equal <==> p == q || (nChar <= |p| && nChar <= |q| && p[..nChar] == q[..nChar])
  {
    var n := 0;
    while n < |p| && n < |q| && p[n] == q[n] && n < nChar
      invariant 0 <= n <= nChar && n <= |p| && n <= |q| && p[..n] == q[..n]
    {
      n := n + 1;
    }
    equal := n == nChar || (n == |p| && n == |q|);
    assert n == |p| && n == |q| ==> p[..n] == p && q[..n] == q;
  }
}
