/** `calMinEditDistance` of common/qdistance.h: a greedy recursion that never tries an edit while the
    two strings begin with the same character. */
module EditDistance {

  /** The recursion of the source: suffixes of two strings. */
  function Greedy(s: string, t: string): nat
    decreases |s| + |t|
  {
    if s == "" || t == "" then |s| + |t|
    else if s[0] == t[0] then Greedy(s[1..], t[1..])
    else
      var dis1 := Greedy(s[1..], t[1..]);
      var dis2 := Greedy(s, t[1..]);
      var dis3 := Greedy(s[1..], t);
      1 + Min(Min(dis1, dis2), dis3)
  }

  function Min(a: nat, b: nat): nat { if a < b then a else b }

  // ---------------------------------------------------------------- the reference: edit scripts

  /** One edit at any position: insert, delete or substitute one character. */
  datatype Edit = Insert(at: nat, c: char) | Delete(at: nat) | Substitute(at: nat, c: char)

  predicate Applies(e: Edit, s: string)
  {
    if e.Insert? then e.at <= |s| else e.at < |s|
  }

  function Apply(e: Edit, s: string): string
    requires Applies(e, s)
  {
    match e
    case Insert(at, c) => s[..at] + [c] + s[at..]
    case Delete(at) => s[..at] + s[at + 1..]
    case Substitute(at, c) => s[..at] + [c] + s[at + 1..]
  }

  /** A script turns `s` into `t`, edit by edit. */
  predicate Turns(script: seq<Edit>, s: string, t: string)
  {
    if script == [] then s == t
    else Applies(script[0], s) && Turns(script[1..], Apply(script[0], s), t)
  }

  // ---------------------------------------------------------------- the greedy choice is safe

  /** Dropping the first character of either string changes the distance by at most one. */
  lemma {:induction false} DropLeft(s: string, t: string)
    requires s != ""
    ensures Greedy(s[1..], t) <= Greedy(s, t) + 1
    ensures Greedy(s, t) <= Greedy(s[1..], t) + 1
    decreases |s| + |t|
  {
    if t != "" {
      if s[0] == t[0] {
        DropRight(s[1..], t);
        if |s| > 1 { DropLeft(s[1..], t[1..]); }
      } else {
        DropRight(s[1..], t);
        DropLeft(s, t[1..]);
      }
    }
  }

  lemma {:induction false} DropRight(s: string, t: string)
    requires t != ""
    ensures Greedy(s, t[1..]) <= Greedy(s, t) + 1
    ensures Greedy(s, t) <= Greedy(s, t[1..]) + 1
    decreases |s| + |t|
  {
    if s != "" {
      if s[0] == t[0] {
        DropLeft(s, t[1..]);
      } else {
        DropLeft(s, t[1..]);
        DropRight(s[1..], t);
      }
    }
  }

  function Differs(a: char, b: char): nat { if a == b then 0 else 1 }

  /** The greedy recursion satisfies the full recurrence that tries all three edits everywhere. */
  lemma {:induction false} Recurrence(s: string, t: string)
    requires s != "" && t != ""
    ensures Greedy(s, t) <= Differs(s[0], t[0]) + Greedy(s[1..], t[1..])
    ensures Greedy(s, t) <= 1 + Greedy(s, t[1..])
    ensures Greedy(s, t) <= 1 + Greedy(s[1..], t)
    ensures || Greedy(s, t) == Differs(s[0], t[0]) + Greedy(s[1..], t[1..])
            || Greedy(s, t) == 1 + Greedy(s, t[1..])
            || Greedy(s, t) == 1 + Greedy(s[1..], t)
  {
    DropLeft(s, t);
    DropRight(s, t);
  }

  // ---------------------------------------------------------------- a metric

  lemma {:induction false} ZeroIffEqual(s: string, t: string)
    ensures Greedy(s, t) == 0 <==> s == t
    decreases |s| + |t|
  {
    if s != "" && t != "" && s[0] == t[0] {
      ZeroIffEqual(s[1..], t[1..]);
      assert s == [s[0]] + s[1..] && t == [t[0]] + t[1..];
    }
  }

  lemma {:induction false} Symmetric(s: string, t: string)
    ensures Greedy(s, t) == Greedy(t, s)
    decreases |s| + |t|
  {
    if s != "" && t != "" {
      Symmetric(s[1..], t[1..]);
      if s[0] != t[0] {
        Symmetric(s, t[1..]);
        Symmetric(s[1..], t);
      }
    }
  }

  lemma {:induction false} LengthBound(s: string, t: string)
    ensures |s| <= Greedy(s, t) + |t| && |t| <= Greedy(s, t) + |s|
    decreases |s| + |t|
  {
    if s != "" && t != "" {
      LengthBound(s[1..], t[1..]);
      LengthBound(s, t[1..]);
      LengthBound(s[1..], t);
    }
  }

  lemma {:induction false} Triangle(a: string, b: string, c: string)
    ensures Greedy(a, c) <= Greedy(a, b) + Greedy(b, c)
    decreases |a| + |b| + |c|
  {
    if a == "" || c == "" {
      LengthBound(a, b);
      LengthBound(b, c);
    } else if b == "" {
      SumBound(a, c);
    } else {
      Recurrence(a, c);
      Recurrence(a, b);
      Recurrence(b, c);
      if Greedy(a, b) == 1 + Greedy(a[1..], b) {
        Triangle(a[1..], b, c);
      } else if Greedy(b, c) == 1 + Greedy(b, c[1..]) {
        Triangle(a, b, c[1..]);
      } else if Greedy(a, b) == 1 + Greedy(a, b[1..]) {
        Triangle(a, b[1..], c);
        Triangle(a, b[1..], c[1..]);
      } else {
        Triangle(a[1..], b[1..], c);
        Triangle(a[1..], b[1..], c[1..]);
      }
    }
  }

  lemma {:induction false} SumBound(s: string, t: string)
    ensures Greedy(s, t) <= |s| + |t|
    decreases |s| + |t|
  {
    if s != "" && t != "" {
      SumBound(s[1..], t[1..]);
      SumBound(s, t[1..]);
    }
  }

  // ---------------------------------------------------------------- the least number of edits

  lemma EditAtFront(e: Edit, s: string)
    requires Applies(e, s) && e.at == 0
    ensures Apply(e, s) == match e
                           case Insert(_, c) => [c] + s
                           case Delete(_) => s[1..]
                           case Substitute(_, c) => [c] + s[1..]
  {
  }

  lemma EditFurtherOn(e: Edit, s: string)
    requires Applies(e, s) && e.at > 0
    ensures s != "" && Applies(Down(e), s[1..]) && Apply(e, s) == [s[0]] + Apply(Down(e), s[1..])
  {
  }

  lemma {:induction false} OneEdit(e: Edit, s: string)
    requires Applies(e, s)
    ensures Greedy(s, Apply(e, s)) <= 1
    decreases |s|
  {
    var t := Apply(e, s);
    if e.at > 0 {
      EditFurtherOn(e, s);
      OneEdit(Down(e), s[1..]);
      assert t[1..] == Apply(Down(e), s[1..]);
    } else {
      EditAtFront(e, s);
      match e
      case Insert(_, c) =>
        assert t[1..] == s;
        DropRight(s, t);
        ZeroIffEqual(s, s);
      case Delete(_) =>
        DropLeft(s, s[1..]);
        ZeroIffEqual(s[1..], s[1..]);
      case Substitute(_, c) =>
        assert t[1..] == s[1..];
        Recurrence(s, t);
        ZeroIffEqual(s[1..], s[1..]);
    }
  }

  /** The same edit one position further left. */
  function Down(e: Edit): Edit
    requires e.at > 0
  {
    match e
    case Insert(at, c) => Insert(at - 1, c)
    case Delete(at) => Delete(at - 1)
    case Substitute(at, c) => Substitute(at - 1, c)
  }

  function Up(e: Edit): Edit
  {
    match e
    case Insert(at, c) => Insert(at + 1, c)
    case Delete(at) => Delete(at + 1)
    case Substitute(at, c) => Substitute(at + 1, c)
  }

  /** No script is shorter than the distance. */
  lemma {:induction false} NoScriptIsShorter(script: seq<Edit>, s: string, t: string)
    requires Turns(script, s, t)
    ensures Greedy(s, t) <= |script|
  {
    if script == [] {
      ZeroIffEqual(s, t);
    } else {
      var u := Apply(script[0], s);
      OneEdit(script[0], s);
      NoScriptIsShorter(script[1..], u, t);
      Triangle(s, u, t);
    }
  }

  function UpAll(script: seq<Edit>): seq<Edit>
  {
    if script == [] then [] else [Up(script[0])] + UpAll(script[1..])
  }

  lemma UpApplies(e: Edit, s: string, c: char)
    requires Applies(e, s)
    ensures Applies(Up(e), [c] + s) && Apply(Up(e), [c] + s) == [c] + Apply(e, s)
  {
    assert ([c] + s)[1..] == s;
    EditFurtherOn(Up(e), [c] + s);
  }

  lemma {:induction false} UpTurns(script: seq<Edit>, s: string, t: string, c: char)
    requires Turns(script, s, t)
    ensures Turns(UpAll(script), [c] + s, [c] + t) && |UpAll(script)| == |script|
  {
    if script != [] {
      var u := Apply(script[0], s);
      UpTurns(script[1..], u, t, c);
      UpApplies(script[0], s, c);
      assert UpAll(script)[1..] == UpAll(script[1..]);
    }
  }

  lemma PrependTurns(e: Edit, script: seq<Edit>, s: string, t: string)
    requires Applies(e, s) && Turns(script, Apply(e, s), t)
    ensures Turns([e] + script, s, t)
  {
    assert ([e] + script)[1..] == script;
  }

  /** A script that turns the rests into each other also works behind a first character. */
  lemma BehindFirst(rest: seq<Edit>, s: string, t: string, a: string)
    requires t != "" && a == [t[0]] + s && Turns(rest, s, t[1..])
    ensures Turns(UpAll(rest), a, t) && |UpAll(rest)| == |rest|
  {
    UpTurns(rest, s, t[1..], t[0]);
    assert t == [t[0]] + t[1..];
  }

  lemma ByDeletion(rest: seq<Edit>, s: string, t: string)
    requires s != "" && Turns(rest, s[1..], t)
    ensures Turns([Delete(0)] + rest, s, t)
  {
    EditAtFront(Delete(0), s);
    PrependTurns(Delete(0), rest, s, t);
  }

  lemma ByInsertion(rest: seq<Edit>, s: string, t: string)
    requires t != "" && Turns(rest, s, t[1..])
    ensures Turns([Insert(0, t[0])] + UpAll(rest), s, t) && |UpAll(rest)| == |rest|
  {
    EditAtFront(Insert(0, t[0]), s);
    BehindFirst(rest, s, t, Apply(Insert(0, t[0]), s));
    PrependTurns(Insert(0, t[0]), UpAll(rest), s, t);
  }

  lemma BySubstitution(rest: seq<Edit>, s: string, t: string)
    requires s != "" && t != "" && Turns(rest, s[1..], t[1..])
    ensures Turns([Substitute(0, t[0])] + UpAll(rest), s, t) && |UpAll(rest)| == |rest|
  {
    EditAtFront(Substitute(0, t[0]), s);
    BehindFirst(rest, s[1..], t, Apply(Substitute(0, t[0]), s));
    PrependTurns(Substitute(0, t[0]), UpAll(rest), s, t);
  }

  /** Some script is as short as the distance. */
  lemma {:induction false} ShortestScript(s: string, t: string) returns (script: seq<Edit>)
    ensures Turns(script, s, t) && |script| == Greedy(s, t)
    decreases |s| + |t|
  {
    if s == "" && t == "" {
      script := [];
    } else if s != "" && t != "" && s[0] == t[0] {
      script := ShortestScript(s[1..], t[1..]);
      BehindFirst(script, s[1..], t, s);
      script := UpAll(script);
    } else if s != "" && (t == "" || Greedy(s, t) == 1 + Greedy(s[1..], t)) {
      script := ShortestScript(s[1..], t);
      ByDeletion(script, s, t);
      script := [Delete(0)] + script;
    } else if s == "" || Greedy(s, t) == 1 + Greedy(s, t[1..]) {
      script := ShortestScript(s, t[1..]);
      ByInsertion(script, s, t);
      script := [Insert(0, t[0])] + UpAll(script);
    } else {
      script := ShortestScript(s[1..], t[1..]);
      BySubstitution(script, s, t);
      script := [Substitute(0, t[0])] + UpAll(script);
    }
  }

  /** The greedy recursion returns the least number of edits over all scripts. */
  lemma LeastEdits(s: string, t: string)
    ensures exists script :: Turns(script, s, t) && |script| == Greedy(s, t)
    ensures forall script :: Turns(script, s, t) ==> Greedy(s, t) <= |script|
  {
    var best := ShortestScript(s, t);
    forall script | Turns(script, s, t) ensures Greedy(s, t) <= |script| { NoScriptIsShorter(script, s, t); }
  }
}
