/** `QLogicalParser` of common/qlogicalparser.h: boolean expressions over words, compiled from infix to
    postfix and run on a stack machine. */
module LogicalParser {

  predicate IsOperator(c: char) { c == '&' || c == '|' || c == '!' }

  function Priority(c: char): int
  {
    if c == '|' then 1 else if c == '&' then 2 else if c == '!' then 3 else -1
  }

  /** `std::stack` */
  datatype Stack<T> = Nil | Push(top: T, rest: Stack<T>)

  // ---------------------------------------------------------------- infix to postfix

  /** The word being read, the operator stack and the postfix tokens so far. */
  datatype Conv = Conv(t: string, stk: Stack<char>, v: seq<string>)

  /** The top operator moves to the output. */
  function Popped(st: Conv): Conv
    requires st.stk.Push?
  {
    Conv(st.t, st.stk.rest, st.v + [[st.stk.top]])
  }

  /** Operators that bind at least as tightly as `c` move to the output. */
  function PopOver(c: char, st: Conv): Conv
    decreases st.stk
  {
    if st.stk.Push? && Priority(c) <= Priority(st.stk.top) then PopOver(c, Popped(st)) else st
  }

  function FeedOp(c: char, st: Conv): Conv
  {
    var p := PopOver(c, st);
    p.(stk := Push(c, p.stk))
  }

  /** One round of the loop: the first character of the rest of the expression. */
  function FeedChar(s: string, st: Conv): Conv
    requires s != ""
  {
    if IsOperator(s[0]) then FeedOp(s[0], st)
    else if |s| == 1 || IsOperator(s[1]) then Conv("", st.stk, st.v + [st.t + [s[0]]])
    else st.(t := st.t + [s[0]])
  }

  function Feed(s: string, st: Conv): Conv
    decreases |s|
  {
    if s == "" then st else Feed(s[1..], FeedChar(s, st))
  }

  /** The operators left at the end. */
  function Drain(st: Conv): seq<string>
    decreases st.stk
  {
    if st.stk.Nil? then st.v else Drain(Popped(st))
  }

  function Postfix(grammar: string): seq<string>
  {
    Drain(Feed(grammar, Conv("", Nil, [])))
  }

  /** `InToPost` */
  method InToPost(grammar: string) returns (v: seq<string>)
    ensures v == Postfix(grammar)
  {
    v := [];
    var t: string, stk: Stack<char> := "", Nil;
    var pos := 0;
    while pos != |grammar|
      invariant 0 <= pos <= |grammar|
      invariant Feed(grammar[pos..], Conv(t, stk, v)) == Feed(grammar, Conv("", Nil, []))
    {
      ghost var rest, st := grammar[pos..], Conv(t, stk, v);
      var c := grammar[pos];
      if c == '&' || c == '|' || c == '!' {
        while stk.Push? && Priority(c) <= Priority(stk.top)
          invariant PopOver(c, Conv(t, stk, v)) == PopOver(c, st)
          decreases stk
        {
          v := v + [[stk.top]];
          stk := stk.rest;
        }
        stk := Push(c, stk);
      } else if pos == |grammar| - 1 || IsOperator(grammar[pos + 1]) {
        v := v + [t + [c]];
        t := "";
      } else {
        t := t + [c];
      }
      assert FeedChar(rest, st) == Conv(t, stk, v);
      assert rest[1..] == grammar[pos + 1..];
      pos := pos + 1;
    }
    while stk.Push?
      invariant Drain(Conv(t, stk, v)) == Postfix(grammar)
      decreases stk
    {
      v := v + [[stk.top]];
      stk := stk.rest;
    }
  }

  // ---------------------------------------------------------------- the stack machine

  /** The key and the meanings that words are matched against. */
  datatype Env = Env(key: string, meanings: seq<string>)

  predicate Matches(env: Env, word: string)
  {
    word == "UK" || word == env.key || word in env.meanings
  }

  function Bit(b: bool): int { if b then 1 else 0 }

  predicate IsOpToken(tok: string) { tok == "&" || tok == "|" || tok == "!" }

  /** What one token does to the operand stack; an operator without its operands clears it. */
  function Exec(env: Env, stack: Stack<int>, tok: string): Stack<int>
  {
    if tok == "!" then
      if stack.Nil? then Nil else Push(Bit(stack.top != 1), stack.rest)
    else if tok == "&" then
      if stack.Nil? || stack.rest.Nil? then Nil else Push(Bit(stack.rest.top == 1 && stack.top == 1), stack.rest.rest)
    else if tok == "|" then
      if stack.Nil? || stack.rest.Nil? then Nil else Push(Bit(stack.rest.top == 1 || stack.top == 1), stack.rest.rest)
    else Push(Bit(Matches(env, tok)), stack)
  }

  function Run(env: Env, v: seq<string>): Stack<int>
    decreases |v|
  {
    if v == [] then Nil else Exec(env, Run(env, v[..|v| - 1]), v[|v| - 1])
  }

  /** What the final loop of `CalRun` leaves in `result`: the bottom of the stack. */
  function Bottom(stack: Stack<int>): int
  {
    if stack.Nil? then 0 else if stack.rest.Nil? then stack.top else Bottom(stack.rest)
  }

  class Parser {
    var s: Stack<int>   // the operand stack

    constructor ()
      ensures s == Nil
    {
      s := Nil;
    }

    /** `DoOperator`, with `Get1Operand`, `Get2Operands` and `Clear`. */
    method DoOperator(op: string, ghost env: Env) returns (v: int)
      requires IsOpToken(op)
      modifies this
      ensures s == Exec(env, old(s), op)
      ensures s.Nil? ==> v == 0
    {
      var left, right, res := 0, 0, false;
      v := 0;
      if op == "!" {
        if s.Push? {
          right, s, res := s.top, s.rest, true;
        }
      } else if s.Push? {
        right, s := s.top, s.rest;
        if s.Push? {
          left, s, res := s.top, s.rest, true;
        }
      }
      if res {
        if op == "!" {
          v := if right == 1 then 0 else 1;
        } else if op == "&" {
          v := if left == 1 && right == 1 then 1 else 0;
        } else {
          v := if left == 1 || right == 1 then 1 else 0;
        }
        s := Push(v, s);
      } else {
        s := Nil;
      }
    }

    /** `CalRun`: the bottom of the final stack; the stack is empty again afterwards, on any input. */
    method CalRun(env: Env, v: seq<string>) returns (result: int)
      requires s == Nil
      modifies this
      ensures s == Nil && result == Bottom(Run(env, v))
    {
      result := 0;
      var i := 0;
      while i != |v|
        invariant 0 <= i <= |v| && s == Run(env, v[..i])
        invariant s.Nil? ==> result == 0
      {
        assert v[..i + 1][..i] == v[..i];
        if v[i] == "&" || v[i] == "|" || v[i] == "!" {
          result := DoOperator(v[i], env);
        } else {
          var tag := 0;
          if v[i] == "UK" || v[i] == env.key || v[i] in env.meanings { tag := 1; }
          s := Push(tag, s);
        }
        i := i + 1;
      }
      assert v[..i] == v;
      while s.Push?
        invariant (if s.Nil? then result else Bottom(s)) == Bottom(Run(env, v))
        decreases s
      {
        result, s := s.top, s.rest;
      }
    }

    /** `parse`: the value of the formula, if the text is that of a well-formed one. */
    method Parse(grammar: string, env: Env) returns (r: bool)
      requires s == Nil
      modifies this
      ensures s == Nil && (r <==> Bottom(Run(env, Postfix(grammar))) == 1)
      ensures IsWord(grammar) ==> (r <==> grammar == "UK" || grammar == env.key || grammar in env.meanings)
      ensures forall f :: WellFormed(f) && grammar == Print(f) ==> (r <==> HeardFormula(env, None, f))
      ensures forall f :: WellFormed(f) && Plain(f) && grammar == Print(f) ==> (r <==> Eval(env, f))
    {
      var v := InToPost(grammar);
      var tag := CalRun(env, v);
      r := tag == 1;
      if IsWord(grammar) { WordValue(env, grammar); }
      forall f | WellFormed(f) && grammar == Print(f) ensures r <==> HeardFormula(env, None, f) {
        CompiledMeaning(env, f);
      }
      forall f | WellFormed(f) && Plain(f) && grammar == Print(f) ensures r <==> Eval(env, f) {
        CompiledValue(env, f);
      }
    }
  }

  // ---------------------------------------------------------------- formulas

  /** A word with any number of `!` before it; conjunctions of literals; disjunctions of conjunctions. */
  datatype Literal = Literal(bangs: nat, word: string)

  type Group = seq<Literal>

  type Formula = seq<Group>

  predicate IsWord(w: string)
  {
    w != "" && forall i :: 0 <= i < |w| ==> !IsOperator(w[i])
  }

  predicate WellFormed(f: Formula)
  {
    f != [] && forall i :: 0 <= i < |f| ==> GoodGroup(f[i])
  }

  predicate GoodGroup(g: Group)
  {
    g != [] && forall i :: 0 <= i < |g| ==> IsWord(g[i].word)
  }

  function Bangs(n: nat): string
  {
    if n == 0 then "" else "!" + Bangs(n - 1)
  }

  function PrintLiteral(l: Literal): string { Bangs(l.bangs) + l.word }

  function PrintGroup(g: Group): string
    requires g != []
  {
    if |g| == 1 then PrintLiteral(g[0]) else PrintLiteral(g[0]) + "&" + PrintGroup(g[1..])
  }

  function Print(f: Formula): string
    requires f != [] && forall i :: 0 <= i < |f| ==> f[i] != []
  {
    if |f| == 1 then PrintGroup(f[0]) else PrintGroup(f[0]) + "|" + Print(f[1..])
  }

  /** The meaning: `!` before `&` before `|`. */
  predicate EvalLiteral(env: Env, l: Literal) { Matches(env, l.word) != (l.bangs % 2 == 1) }

  predicate EvalGroup(env: Env, g: Group)
  {
    forall i :: 0 <= i < |g| ==> EvalLiteral(env, g[i])
  }

  predicate Eval(env: Env, f: Formula)
  {
    exists i :: 0 <= i < |f| && EvalGroup(env, f[i])
  }

  // ---------------------------------------------------------------- what the code makes of a formula

  /** A result still waiting for its right operand, if any. */
  datatype Pending = None | Some(b: bool)

  function And(a: Pending, b: bool): bool { (a.Some? ==> a.b) && b }

  function Or(a: Pending, b: bool): bool { (a.Some? && a.b) || b }

  /** The disjunction and the conjunction so far. */
  datatype Context = Context(ors: Pending, ands: Pending)

  /** The value read last is negated: the conjunction so far, or else the disjunction so far, or else nothing. */
  function Negated(c: Context): Context
  {
    if c.ands.Some? then Context(c.ors, Some(!c.ands.b))
    else if c.ors.Some? then Context(Some(!c.ors.b), None)
    else c
  }

  /** Of several `!` the last one negates the word, and each one before it the value read last. */
  function Shaken(c: Context, bangs: nat): Context
  {
    if bangs > 0 && bangs % 2 == 0 then Negated(c) else c
  }

  predicate Heard(env: Env, l: Literal) { Matches(env, l.word) != (l.bangs > 0) }

  /** A conjunction in its context: the disjunction before it, which it may have negated, and its value. */
  function HeardGroup(env: Env, c: Context, g: Group): (Pending, bool)
    requires g != []
    decreases |g|
  {
    var c' := Shaken(c, g[0].bangs);
    var b := And(c'.ands, Heard(env, g[0]));
    if |g| == 1 then (c'.ors, b) else HeardGroup(env, Context(c'.ors, Some(b)), g[1..])
  }

  /** The value that the code gives to a formula, after the disjunction so far. */
  function HeardFormula(env: Env, ors: Pending, f: Formula): bool
    requires f != [] && forall i :: 0 <= i < |f| ==> f[i] != []
    decreases |f|
  {
    var (ors', b) := HeardGroup(env, Context(ors, None), f[0]);
    if |f| == 1 then Or(ors', b) else HeardFormula(env, Some(Or(ors', b)), f[1..])
  }

  // ---------------------------------------------------------------- the conversion, followed through

  lemma {:induction false} RunAppend(env: Env, v: seq<string>, tok: string)
    ensures Run(env, v + [tok]) == Exec(env, Run(env, v), tok)
  {
    assert (v + [tok])[..|v|] == v;
  }

  /** The operators and the values that a context leaves on the two stacks. */
  function Ops(c: Context): Stack<char>
  {
    var base := if c.ors.None? then Nil else Push('|', Nil);
    if c.ands.None? then base else Push('&', base)
  }

  function Vals(c: Context): Stack<int>
  {
    var base := if c.ors.None? then Nil else Push(Bit(c.ors.b), Nil);
    if c.ands.None? then base else Push(Bit(c.ands.b), base)
  }

  /** The operators on the stack and the values on the machine. */
  ghost predicate Holding(env: Env, st: Conv, ops: Stack<char>, vals: Stack<int>)
  {
    st.t == "" && st.stk == ops && Run(env, st.v) == vals
  }

  /** Between literals. */
  ghost predicate Ready(env: Env, st: Conv, c: Context)
  {
    Holding(env, st, Ops(c), Vals(c))
  }

  /** After a literal: its word is on the machine, its last `!` still on the stack. */
  ghost predicate Full(env: Env, st: Conv, c: Context, l: Literal)
  {
    Holding(env, st, if l.bangs > 0 then Push('!', Ops(c)) else Ops(c), Push(Bit(Matches(env, l.word)), Vals(c)))
  }

  ghost predicate Ends(rest: string) { rest == "" || IsOperator(rest[0]) }

  /** Reading a word character by character. */
  lemma {:induction false} FeedWord(w: string, rest: string, st: Conv)
    requires IsWord(w) && Ends(rest)
    ensures Feed(w + rest, st) == Feed(rest, Conv("", st.stk, st.v + [st.t + w]))
    decreases |w|
  {
    var s := w + rest;
    if |w| == 1 {
      assert s[1..] == rest;
      assert st.t + [s[0]] == st.t + w;
    } else {
      assert s[1..] == w[1..] + rest && s[1] == w[1];
      FeedWord(w[1..], rest, FeedChar(s, st));
      assert (st.t + [w[0]]) + w[1..] == st.t + w;
    }
  }

  /** A word becomes one token, and the token one value. */
  lemma {:induction false} WordIsPushed(env: Env, w: string, rest: string, st: Conv)
    requires IsWord(w) && Ends(rest) && st.t == ""
    ensures Feed(w + rest, st) == Feed(rest, Conv("", st.stk, st.v + [w]))
    ensures Run(env, st.v + [w]) == Push(Bit(Matches(env, w)), Run(env, st.v))
  {
    FeedWord(w, rest, st);
    assert st.t + w == w;
    RunAppend(env, st.v, w);
    assert !IsOperator(w[0]);
  }

  /** The literal is complete: its last `!`, if any, has been applied. */
  lemma {:induction false} ApplyNot(env: Env, st: Conv, c: Context, l: Literal) returns (st': Conv)
    requires Full(env, st, c, l)
    ensures st' == if l.bangs > 0 then Popped(st) else st
    ensures Holding(env, st', Ops(c), Push(Bit(Heard(env, l)), Vals(c)))
  {
    st' := if l.bangs > 0 then Popped(st) else st;
    RunAppend(env, st.v, "!");
  }

  /** The conjunction is complete. */
  lemma {:induction false} ApplyAnd(env: Env, st: Conv, c: Context, b: bool) returns (st': Conv)
    requires Holding(env, st, Ops(c), Push(Bit(b), Vals(c)))
    ensures st' == if c.ands.None? then st else Popped(st)
    ensures var c' := Context(c.ors, None); Holding(env, st', Ops(c'), Push(Bit(And(c.ands, b)), Vals(c')))
  {
    st' := if c.ands.None? then st else Popped(st);
    RunAppend(env, st.v, "&");
  }

  /** The disjunction is complete. */
  lemma {:induction false} ApplyOr(env: Env, st: Conv, ors: Pending, b: bool) returns (st': Conv)
    requires var c := Context(ors, None); Holding(env, st, Ops(c), Push(Bit(b), Vals(c)))
    ensures st' == if ors.None? then st else Popped(st)
    ensures Holding(env, st', Nil, Push(Bit(Or(ors, b)), Nil))
  {
    st' := if ors.None? then st else Popped(st);
    RunAppend(env, st.v, "|");
  }

  lemma {:induction false} OnAnd(env: Env, st: Conv, c: Context, l: Literal)
    requires Full(env, st, c, l)
    ensures Ready(env, FeedOp('&', st), Context(c.ors, Some(And(c.ands, Heard(env, l)))))
  {
    var st1 := ApplyNot(env, st, c, l);
    var st2 := ApplyAnd(env, st1, c, Heard(env, l));
    assert PopOver('&', st) == PopOver('&', st1);
    assert PopOver('&', st1) == PopOver('&', st2);
  }

  lemma {:induction false} OnOr(env: Env, st: Conv, c: Context, l: Literal)
    requires Full(env, st, c, l)
    ensures Ready(env, FeedOp('|', st), Context(Some(Or(c.ors, And(c.ands, Heard(env, l)))), None))
  {
    var st1 := ApplyNot(env, st, c, l);
    var st2 := ApplyAnd(env, st1, c, Heard(env, l));
    var st3 := ApplyOr(env, st2, c.ors, And(c.ands, Heard(env, l)));
    assert PopOver('|', st) == PopOver('|', st1);
    assert PopOver('|', st1) == PopOver('|', st2);
    assert PopOver('|', st2) == PopOver('|', st3);
  }

  lemma {:induction false} OnEnd(env: Env, st: Conv, c: Context, l: Literal)
    requires Full(env, st, c, l)
    ensures Run(env, Drain(st)) == Push(Bit(Or(c.ors, And(c.ands, Heard(env, l)))), Nil)
  {
    var st1 := ApplyNot(env, st, c, l);
    var st2 := ApplyAnd(env, st1, c, Heard(env, l));
    var st3 := ApplyOr(env, st2, c.ors, And(c.ands, Heard(env, l)));
    assert Drain(st) == Drain(st1);
    assert Drain(st1) == Drain(st2);
    assert Drain(st2) == Drain(st3);
  }

  lemma {:induction false} FeedFirst(c: char, tail: string, st: Conv)
    requires IsOperator(c)
    ensures Feed([c] + tail, st) == Feed(tail, FeedOp(c, st))
  {
    assert ([c] + tail)[1..] == tail;
  }

  /** After at least one `!`. */
  ghost predicate Banged(env: Env, st: Conv, c: Context)
  {
    Holding(env, st, Push('!', Ops(c)), Vals(c))
  }

  /** What `!` before `!` does: the one on the stack is applied to the value read last. */
  lemma {:induction false} FeedBang(env: Env, st: Conv, c: Context)
    requires Banged(env, st, c)
    ensures Banged(env, FeedOp('!', st), Negated(c))
  {
    RunAppend(env, st.v, "!");
    assert PopOver('!', st) == PopOver('!', Popped(st)) == Popped(st);
  }

  lemma BangFirst(n: nat, tail: string)
    requires n > 0
    ensures Bangs(n) + tail == "!" + (Bangs(n - 1) + tail)
  {
  }

  function NegatedTimes(c: Context, n: nat): Context
    decreases n
  {
    if n == 0 then c else NegatedTimes(Negated(c), n - 1)
  }

  lemma {:induction false} NegatedTwice(c: Context, n: nat)
    ensures NegatedTimes(c, n) == if n % 2 == 0 then c else Negated(c)
    decreases n
  {
    if n > 0 { NegatedTwice(Negated(c), n - 1); }
  }

  /** Any number of further `!`. */
  lemma {:induction false} FeedMore(env: Env, st: Conv, c: Context, n: nat, tail: string) returns (st': Conv)
    requires Banged(env, st, c)
    ensures Feed(Bangs(n) + tail, st) == Feed(tail, st') && Banged(env, st', NegatedTimes(c, n))
    decreases n
  {
    if n == 0 {
      assert Bangs(0) + tail == tail;
      st' := st;
    } else {
      FeedBang(env, st, c);
      BangFirst(n, tail);
      FeedFirst('!', Bangs(n - 1) + tail, st);
      st' := FeedMore(env, FeedOp('!', st), Negated(c), n - 1, tail);
    }
  }

  lemma {:induction false} FirstBang(env: Env, st: Conv, c: Context)
    requires Ready(env, st, c)
    ensures Banged(env, FeedOp('!', st), c)
  {
    assert PopOver('!', st) == st;
  }

  /** All `!` of a literal. */
  lemma {:induction false} FeedBangs(env: Env, st: Conv, c: Context, n: nat, tail: string) returns (st': Conv)
    requires Ready(env, st, c)
    ensures Feed(Bangs(n) + tail, st) == Feed(tail, st')
    ensures if n > 0 then Banged(env, st', Shaken(c, n)) else Ready(env, st', Shaken(c, n))
  {
    if n == 0 {
      assert Bangs(0) + tail == tail;
      st' := st;
    } else {
      BangFirst(n, tail);
      FeedFirst('!', Bangs(n - 1) + tail, st);
      FirstBang(env, st, c);
      NegatedTwice(c, n - 1);
      st' := FeedMore(env, FeedOp('!', st), c, n - 1, tail);
    }
  }

  /** Reading a literal. */
  lemma {:induction false} FeedLiteral(env: Env, st: Conv, c: Context, l: Literal, rest: string) returns (st': Conv)
    requires Ready(env, st, c) && IsWord(l.word) && Ends(rest)
    ensures Feed(PrintLiteral(l) + rest, st) == Feed(rest, st') && Full(env, st', Shaken(c, l.bangs), l)
  {
    assert PrintLiteral(l) + rest == Bangs(l.bangs) + (l.word + rest);
    var pre := FeedBangs(env, st, c, l.bangs, l.word + rest);
    WordIsPushed(env, l.word, rest, pre);
    st' := Conv("", pre.stk, pre.v + [l.word]);
  }

  lemma {:induction false} Join(a: string, op: string, b: string, rest: string)
    requires |op| == 1
    ensures (a + op + b) + rest == a + (op + (b + rest)) && (op + (b + rest))[1..] == b + rest && rest + "" == rest
    ensures a + op + b == a + (op + b) && (op + b)[1..] == b
  {
  }

  lemma {:induction false} FirstOfGroup(g: Group, rest: string)
    requires GoodGroup(g) && |g| > 1
    ensures GoodGroup(g[1..]) && PrintGroup(g) + rest == PrintLiteral(g[0]) + ("&" + (PrintGroup(g[1..]) + rest))
  {
    Join(PrintLiteral(g[0]), "&", PrintGroup(g[1..]), rest);
  }

  /** A conjunction has been read up to its last literal `l`; what is still open makes up the value that is heard. */
  ghost predicate GroupRead(env: Env, st: Conv, c: Context, g: Group, rest: string, st': Conv, c': Context, l: Literal)
    requires g != []
  {
    && Feed(PrintGroup(g) + rest, st) == Feed(rest, st') && Full(env, st', c', l)
    && HeardGroup(env, c, g) == (c'.ors, And(c'.ands, Heard(env, l)))
  }

  lemma {:induction false} ReadLast(env: Env, st: Conv, c: Context, g: Group, rest: string) returns (st': Conv)
    requires Ready(env, st, c) && GoodGroup(g) && |g| == 1 && Ends(rest)
    ensures GroupRead(env, st, c, g, rest, st', Shaken(c, g[0].bangs), g[0])
  {
    st' := FeedLiteral(env, st, c, g[0], rest);
  }

  lemma {:induction false} ReadMore(env: Env, st: Conv, c: Context, g: Group, rest: string, st1: Conv, c1: Context,
                                    st': Conv, c': Context, l: Literal)
    requires GoodGroup(g) && |g| > 1
    requires Feed(PrintLiteral(g[0]) + ("&" + (PrintGroup(g[1..]) + rest)), st) == Feed(PrintGroup(g[1..]) + rest, st1)
    requires c1 == After(env, c, g[0]) && GroupRead(env, st1, c1, g[1..], rest, st', c', l)
    ensures GroupRead(env, st, c, g, rest, st', c', l)
  {
    FirstOfGroup(g, rest);
  }

  /** The context after a literal and `&`. */
  function After(env: Env, c: Context, l: Literal): Context
  {
    var c' := Shaken(c, l.bangs);
    Context(c'.ors, Some(And(c'.ands, Heard(env, l))))
  }

  lemma {:induction false} FeedGroup(env: Env, st: Conv, c: Context, g: Group, rest: string)
      returns (st': Conv, c': Context, l: Literal)
    requires Ready(env, st, c) && GoodGroup(g) && (rest == "" || rest[0] == '|')
    ensures GroupRead(env, st, c, g, rest, st', c', l)
    decreases |g|
  {
    if |g| == 1 {
      st' := ReadLast(env, st, c, g, rest);
      c', l := Shaken(c, g[0].bangs), g[0];
    } else {
      FirstOfGroup(g, rest);
      var st1 := FeedConjunct(env, st, c, g[0], PrintGroup(g[1..]) + rest);
      st', c', l := FeedGroup(env, st1, After(env, c, g[0]), g[1..], rest);
      ReadMore(env, st, c, g, rest, st1, After(env, c, g[0]), st', c', l);
    }
  }

  /** Reading a literal and the `&` after it. */
  lemma {:induction false} FeedConjunct(env: Env, st: Conv, c: Context, l: Literal, tail: string) returns (st': Conv)
    requires Ready(env, st, c) && IsWord(l.word)
    ensures Feed(PrintLiteral(l) + ("&" + tail), st) == Feed(tail, st')
    ensures Ready(env, st', After(env, c, l))
  {
    var st1 := FeedLiteral(env, st, c, l, "&" + tail);
    OnAnd(env, st1, Shaken(c, l.bangs), l);
    FeedFirst('&', tail, st1);
    st' := FeedOp('&', st1);
  }

  /** Reading a conjunction and the `|` after it. */
  lemma {:induction false} FeedDisjunct(env: Env, st: Conv, ors: Pending, g: Group, tail: string) returns (st': Conv)
    requires Ready(env, st, Context(ors, None)) && GoodGroup(g)
    ensures Feed(PrintGroup(g) + ("|" + tail), st) == Feed(tail, st')
    ensures var h := HeardGroup(env, Context(ors, None), g); Ready(env, st', Context(Some(Or(h.0, h.1)), None))
  {
    var st1, c, l := FeedGroup(env, st, Context(ors, None), g, "|" + tail);
    OnOr(env, st1, c, l);
    FeedFirst('|', tail, st1);
    st' := FeedOp('|', st1);
  }

  lemma {:induction false} FeedFormula(env: Env, st: Conv, ors: Pending, f: Formula)
    requires Ready(env, st, Context(ors, None)) && WellFormed(f)
    ensures Run(env, Drain(Feed(Print(f), st))) == Push(Bit(HeardFormula(env, ors, f)), Nil)
    decreases |f|
  {
    if |f| == 1 {
      assert Print(f) == PrintGroup(f[0]) + "";
      var st', c, l := FeedGroup(env, st, Context(ors, None), f[0], "");
      OnEnd(env, st', c, l);
    } else {
      var tail, h := Print(f[1..]), HeardGroup(env, Context(ors, None), f[0]);
      assert Print(f) == PrintGroup(f[0]) + ("|" + tail) by { Join(PrintGroup(f[0]), "|", tail, ""); }
      var st' := FeedDisjunct(env, st, ors, f[0], tail);
      FeedFormula(env, st', Some(Or(h.0, h.1)), f[1..]);
    }
  }

  /** For every formula of words joined by `&` and `|`, with any number of `!` before each word: conversion followed by
      the machine gives the value that `HeardFormula` describes, as the only value on the stack. */
  lemma {:induction false} CompiledMeaning(env: Env, f: Formula)
    requires WellFormed(f)
    ensures Run(env, Postfix(Print(f))) == Push(Bit(HeardFormula(env, None, f)), Nil)
  {
    FeedFormula(env, Conv("", Nil, []), None, f);
  }

  // ---------------------------------------------------------------- when it is the value that was meant

  /** Every word has no `!` or an odd number of them. */
  predicate Plain(f: Formula)
  {
    forall i :: 0 <= i < |f| ==> PlainGroup(f[i])
  }

  predicate PlainGroup(g: Group)
  {
    forall i :: 0 <= i < |g| ==> g[i].bangs == 0 || g[i].bangs % 2 == 1
  }

  lemma {:induction false} EvalGroupSplits(env: Env, g: Group)
    requires g != []
    ensures EvalGroup(env, g) == (EvalLiteral(env, g[0]) && EvalGroup(env, g[1..]))
  {
    if EvalGroup(env, g[1..]) {
      assert forall i :: 1 <= i < |g| ==> g[i] == g[1..][i - 1];
    }
  }

  lemma {:induction false} EvalSplits(env: Env, f: Formula)
    requires f != []
    ensures Eval(env, f) == (EvalGroup(env, f[0]) || Eval(env, f[1..]))
  {
    if Eval(env, f) {
      var i :| 0 <= i < |f| && EvalGroup(env, f[i]);
      assert i > 0 ==> EvalGroup(env, f[1..][i - 1]);
    }
    if Eval(env, f[1..]) {
      var i :| 0 <= i < |f[1..]| && EvalGroup(env, f[1..][i]);
      assert EvalGroup(env, f[i + 1]);
    }
  }

  lemma {:induction false} PlainGroupHeard(env: Env, c: Context, g: Group)
    requires g != [] && PlainGroup(g)
    ensures HeardGroup(env, c, g) == (c.ors, And(c.ands, EvalGroup(env, g)))
    decreases |g|
  {
    EvalGroupSplits(env, g);
    if |g| > 1 { PlainGroupHeard(env, After(env, c, g[0]), g[1..]); }
  }

  lemma {:induction false} PlainHeard(env: Env, ors: Pending, f: Formula)
    requires WellFormed(f) && Plain(f)
    ensures HeardFormula(env, ors, f) == Or(ors, Eval(env, f))
    decreases |f|
  {
    EvalSplits(env, f);
    PlainGroupHeard(env, Context(ors, None), f[0]);
    if |f| > 1 { PlainHeard(env, Some(Or(ors, EvalGroup(env, f[0]))), f[1..]); }
  }

  /** Then it is the value of the formula under precedence `!` over `&` over `|`. */
  lemma {:induction false} CompiledValue(env: Env, f: Formula)
    requires WellFormed(f) && Plain(f)
    ensures Run(env, Postfix(Print(f))) == Push(Bit(Eval(env, f)), Nil)
  {
    CompiledMeaning(env, f);
    PlainHeard(env, None, f);
  }

  /** A word alone is true exactly when it is "UK", the key or one of the meanings. */
  lemma {:induction false} WordValue(env: Env, w: string)
    requires IsWord(w)
    ensures Run(env, Postfix(w)) == Push(if w == "UK" || w == env.key || w in env.meanings then 1 else 0, Nil)
  {
    CompiledMeaning(env, [[Literal(0, w)]]);
    assert Bangs(0) + w == w;
    assert Print([[Literal(0, w)]]) == w;
  }

  /** The three tests of a word give the same in both environments. */
  predicate SameTests(e: Env, e': Env, w: string)
  {
    (w == "UK" || w == e.key || w in e.meanings) <==> (w == "UK" || w == e'.key || w in e'.meanings)
  }

  /** Nothing else of the environment matters, whatever the tokens are. */
  lemma {:induction false} OnlyTestsMatter(e: Env, e': Env, v: seq<string>)
    requires forall i :: 0 <= i < |v| ==> SameTests(e, e', v[i])
    ensures Run(e, v) == Run(e', v)
    decreases |v|
  {
    if v != [] { OnlyTestsMatter(e, e', v[..|v| - 1]); }
  }

  /** The value of a formula depends on the environment only through these tests of its words. */
  lemma {:induction false} ValueByTests(e: Env, e': Env, f: Formula)
    requires WellFormed(f)
    requires forall i, j :: 0 <= i < |f| && 0 <= j < |f[i]| ==> SameTests(e, e', f[i][j].word)
    ensures Run(e, Postfix(Print(f))) == Run(e', Postfix(Print(f)))
  {
    CompiledMeaning(e, f);
    CompiledMeaning(e', f);
    SameHeard(e, e', None, f);
  }

  lemma {:induction false} SameHeardGroup(e: Env, e': Env, c: Context, g: Group)
    requires g != [] && forall j :: 0 <= j < |g| ==> SameTests(e, e', g[j].word)
    ensures HeardGroup(e, c, g) == HeardGroup(e', c, g)
    decreases |g|
  {
    assert SameTests(e, e', g[0].word);
    if |g| > 1 { SameHeardGroup(e, e', After(e, c, g[0]), g[1..]); }
  }

  lemma {:induction false} SameHeard(e: Env, e': Env, ors: Pending, f: Formula)
    requires f != [] && forall i :: 0 <= i < |f| ==> f[i] != []
    requires forall i, j :: 0 <= i < |f| && 0 <= j < |f[i]| ==> SameTests(e, e', f[i][j].word)
    ensures HeardFormula(e, ors, f) == HeardFormula(e', ors, f)
    decreases |f|
  {
    SameHeardGroup(e, e', Context(ors, None), f[0]);
    if |f| > 1 {
      var h := HeardGroup(e, Context(ors, None), f[0]);
      SameHeard(e, e', Some(Or(h.0, h.1)), f[1..]);
    }
  }

  /** A lone word with `n` times `!` is evaluated as its negation for every `n > 0`, so exactly when `n` is zero or
      odd as it is meant. */
  lemma {:induction false} LoneWord(env: Env, w: string, n: nat)
    requires IsWord(w)
    ensures Run(env, Postfix(Bangs(n) + w)) == Push(Bit(EvalLiteral(env, Literal(n, w))), Nil) <==> n == 0 || n % 2 == 1
  {
    CompiledMeaning(env, [[Literal(n, w)]]);
    assert Print([[Literal(n, w)]]) == Bangs(n) + w;
  }

  /** An even number of `!` also negates what came before: `a&!!b` is read as `!a&!b`. */
  lemma {:induction false} EarlierValueNegated(env: Env, a: string, b: string, n: nat)
    requires IsWord(a) && IsWord(b) && n > 0 && n % 2 == 0
    ensures Run(env, Postfix(a + "&" + Bangs(n) + b)) == Push(Bit(!Matches(env, a) && !Matches(env, b)), Nil)
  {
    var g := [Literal(0, a), Literal(n, b)];
    CompiledMeaning(env, [g]);
    assert g[1..] == [Literal(n, b)];
    assert PrintLiteral(g[0]) == "" + a == a && PrintGroup(g[1..]) == Bangs(n) + b;
    assert Print([g]) == PrintGroup(g) == a + "&" + (Bangs(n) + b) == a + "&" + Bangs(n) + b;
    assert HeardGroup(env, Context(None, None), g) == HeardGroup(env, After(env, Context(None, None), g[0]), g[1..]);
  }
}
