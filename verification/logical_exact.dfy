/** Exactly which formulas `QLogicalParser` (common/qlogicalparser.h) understands, among those whose words are all
    different. */
module LogicalExact {
  import opened LogicalParser

  /** No word twice, and not the word that always matches. */
  ghost predicate Independent(f: Formula)
  {
    && (forall i, k :: 0 <= i < |f| && 0 <= k < |f[i]| ==> f[i][k].word != "UK")
    && (forall i, k, i', k' :: 0 <= i < |f| && 0 <= k < |f[i]| && 0 <= i' < |f| && 0 <= k' < |f[i']| ==>
          f[i][k].word == f[i'][k'].word ==> i == i' && k == k')
  }

  predicate Even(l: Literal) { l.bangs > 0 && l.bangs % 2 == 0 }

  // ---------------------------------------------------------------- the last word with an even number of `!`

  /** The literal `g[k]` is the last even one of its group, and the group the last with one. */
  ghost predicate LastEven(f: Formula, i: int, k: int)
  {
    && 0 <= i < |f| && 0 <= k < |f[i]| && Even(f[i][k])
    && PlainGroup(f[i][k + 1..]) && Plain(f[i + 1..])
  }

  lemma {:induction false} FindInGroup(g: Group) returns (k: nat)
    requires !PlainGroup(g)
    ensures k < |g| && Even(g[k]) && PlainGroup(g[k + 1..])
    decreases |g|
  {
    assert forall j :: 1 <= j < |g| ==> g[j] == g[1..][j - 1];
    if PlainGroup(g[1..]) {
      k := 0;
    } else {
      k := FindInGroup(g[1..]);
      assert g[1..][k + 1..] == g[k + 2..];
      k := k + 1;
    }
  }

  lemma {:induction false} FindLast(f: Formula) returns (i: nat, k: nat)
    requires !Plain(f)
    ensures LastEven(f, i, k)
    decreases |f|
  {
    assert forall j :: 1 <= j < |f| ==> f[j] == f[1..][j - 1];
    if Plain(f[1..]) {
      i := 0;
      k := FindInGroup(f[0]);
    } else {
      i, k := FindLast(f[1..]);
      assert f[1..][i + 1..] == f[i + 2..];
      i := i + 1;
    }
  }

  // ---------------------------------------------------------------- its word counts the wrong way round

  /** The two environments differ in the word `w` only, which the second one matches. */
  ghost predicate Differ(env: Env, env': Env, w: string)
  {
    !Matches(env, w) && Matches(env', w) && forall u :: u != w ==> Matches(env, u) == Matches(env', u)
  }

  predicate Mentions(g: Group, w: string) { exists k :: 0 <= k < |g| && g[k].word == w }

  lemma {:induction false} SameGroup(env: Env, env': Env, w: string, c: Context, g: Group)
    requires Differ(env, env', w) && g != [] && !Mentions(g, w)
    ensures HeardGroup(env, c, g) == HeardGroup(env', c, g)
    decreases |g|
  {
    assert g[0].word != w;
    if |g| > 1 {
      assert !Mentions(g[1..], w) by { assert forall k :: 0 <= k < |g[1..]| ==> g[1..][k] == g[k + 1]; }
      SameGroup(env, env', w, After(env, c, g[0]), g[1..]);
    }
  }

  predicate AtMost(a: Pending, b: Pending) { a.Some? == b.Some? && (a.Some? && a.b ==> b.b) }

  /** In a group without even literals more before means more after. */
  lemma {:induction false} PlainGrows(env: Env, c: Context, c': Context, g: Group)
    requires g != [] && PlainGroup(g) && c.ors == c'.ors && AtMost(c.ands, c'.ands)
    ensures var h, h' := HeardGroup(env, c, g), HeardGroup(env, c', g); h.0 == h'.0 && (h.1 ==> h'.1)
  {
    PlainGroupHeard(env, c, g);
    PlainGroupHeard(env, c', g);
  }

  lemma {:induction false} EvenFalls(env: Env, env': Env, w: string, c: Context, g: Group, k: nat)
    requires Differ(env, env', w) && k < |g| && g[k].word == w && Even(g[k]) && PlainGroup(g[k + 1..])
    requires forall j :: 0 <= j < |g| && j != k ==> g[j].word != w
    ensures var h, h' := HeardGroup(env, c, g), HeardGroup(env', c, g); h.0 == h'.0 && (h'.1 ==> h.1)
    decreases |g|
  {
    if k > 0 {
      assert g[1..][k - 1 + 1..] == g[k + 1..];
      EvenFalls(env, env', w, After(env, c, g[0]), g[1..], k - 1);
    } else if |g| > 1 {
      var rest := g[1..];
      assert !Mentions(rest, w) by { assert forall j :: 0 <= j < |rest| ==> rest[j] == g[j + 1]; }
      PlainGrows(env', After(env', c, g[0]), After(env, c, g[0]), rest);
      SameGroup(env, env', w, After(env, c, g[0]), rest);
    }
  }

  /** With the word matched the formula is heard as no more than without it. */
  lemma {:induction false} FormulaFalls(env: Env, env': Env, w: string, ors: Pending, f: Formula, i: nat, k: nat)
    requires Differ(env, env', w) && WellFormed(f) && LastEven(f, i, k) && f[i][k].word == w
    requires forall i', k' :: 0 <= i' < |f| && 0 <= k' < |f[i']| && f[i'][k'].word == w ==> i' == i && k' == k
    ensures HeardFormula(env', ors, f) ==> HeardFormula(env, ors, f)
    decreases |f|
  {
    var c, rest := Context(ors, None), f[1..];
    if i > 0 {
      assert !Mentions(f[0], w);
      SameGroup(env, env', w, c, f[0]);
      var h := HeardGroup(env, c, f[0]);
      assert rest[i - 1] == f[i] && rest[i - 1 + 1..] == f[i + 1..];
      assert forall j :: 0 <= j < |rest| ==> rest[j] == f[j + 1];
      FormulaFalls(env, env', w, Some(Or(h.0, h.1)), rest, i - 1, k);
    } else {
      EvenFalls(env, env', w, c, f[0], k);
      if |f| > 1 {
        var h, h' := HeardGroup(env, c, f[0]), HeardGroup(env', c, f[0]);
        PlainHeard(env, Some(Or(h.0, h.1)), rest);
        PlainHeard(env', Some(Or(h'.0, h'.1)), rest);
        SameRest(env, env', w, f);
      }
    }
  }

  lemma {:induction false} SameRest(env: Env, env': Env, w: string, f: Formula)
    requires Differ(env, env', w) && f != []
    requires forall i, k :: 1 <= i < |f| && 0 <= k < |f[i]| ==> f[i][k].word != w
    ensures Eval(env, f[1..]) == Eval(env', f[1..])
  {
    forall i | 1 <= i < |f| ensures EvalGroup(env, f[i]) == EvalGroup(env', f[i]) {
      assert forall k :: 0 <= k < |f[i]| ==> EvalLiteral(env, f[i][k]) == EvalLiteral(env', f[i][k]);
    }
    assert forall j :: 0 <= j < |f[1..]| ==> f[1..][j] == f[j + 1];
  }

  // ---------------------------------------------------------------- an environment in which it matters

  lemma {:induction false} Listed(words: set<string>) returns (list: seq<string>)
    ensures forall w :: w in list <==> w in words
    decreases |words|
  {
    if words == {} {
      list := [];
    } else {
      var w :| w in words;
      list := Listed(words - {w});
      list := [w] + list;
    }
  }

  /** All literals of group `i` are true and all others false, as far as the word `w` has no say. */
  ghost predicate Decides(env: Env, f: Formula, i: int, w: string)
  {
    forall i', k' :: 0 <= i' < |f| && 0 <= k' < |f[i']| && f[i'][k'].word != w ==>
      (EvalLiteral(env, f[i'][k']) <==> i' == i)
  }

  function TrueWords(f: Formula, i: int, w: string): set<string>
  {
    set i', k' | 0 <= i' < |f| && 0 <= k' < |f[i']| && f[i'][k'].word != w && (i' == i) == (f[i'][k'].bangs % 2 == 0)
      :: f[i'][k'].word
  }

  lemma Deciding(f: Formula, i: int, w: string) returns (env: Env, env': Env)
    requires WellFormed(f) && Independent(f) && IsWord(w) && w != "UK"
    ensures Differ(env, env', w) && Decides(env, f, i, w) && Decides(env', f, i, w)
  {
    var words := TrueWords(f, i, w);
    var list := Listed(words);
    env, env' := Env("", list), Env("", [w] + list);
    forall i', k' | 0 <= i' < |f| && 0 <= k' < |f[i']| && f[i'][k'].word != w
      ensures (EvalLiteral(env, f[i'][k']) <==> i' == i) && (EvalLiteral(env', f[i'][k']) <==> i' == i)
    {
      var l := f[i'][k'];
      assert GoodGroup(f[i']) && IsWord(l.word);
      assert l.word in words <==> (i' == i) == (l.bangs % 2 == 0);
    }
  }

  /** Then the formula has the value of the literal. */
  lemma LiteralDecides(env: Env, f: Formula, i: nat, k: nat)
    requires WellFormed(f) && Independent(f) && i < |f| && k < |f[i]| && Decides(env, f, i, f[i][k].word)
    ensures Eval(env, f) <==> EvalLiteral(env, f[i][k])
  {
    var w := f[i][k].word;
    if EvalLiteral(env, f[i][k]) {
      assert EvalGroup(env, f[i]);
    }
    forall j | 0 <= j < |f| && j != i ensures !EvalGroup(env, f[j]) {
      assert GoodGroup(f[j]);
      assert f[j][0].word != w && !EvalLiteral(env, f[j][0]);
    }
  }

  /** Among formulas with different words, the code gives the value that is meant, whatever matches, exactly for those
      in which every word has no `!` or an odd number of them. */
  lemma UnderstoodExactly(f: Formula)
    requires WellFormed(f) && Independent(f)
    ensures (forall env :: Run(env, Postfix(Print(f))) == Push(Bit(Eval(env, f)), Nil)) <==> Plain(f)
  {
    if Plain(f) {
      forall env ensures Run(env, Postfix(Print(f))) == Push(Bit(Eval(env, f)), Nil) { CompiledValue(env, f); }
    } else {
      var i, k := FindLast(f);
      var w := f[i][k].word;
      assert GoodGroup(f[i]);
      var env, env' := Deciding(f, i, w);
      LiteralDecides(env, f, i, k);
      LiteralDecides(env', f, i, k);
      FormulaFalls(env, env', w, None, f, i, k);
      CompiledMeaning(env, f);
      CompiledMeaning(env', f);
    }
  }
}
