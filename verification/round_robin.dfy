/** The weighted round-robin scheduler of common/qlbcluster.h.

    Dividing every weight and `current_weight_` by the greatest common divisor of the weights turns the
    scheduler into one that counts down by one.  Fairness is proved for that unit scheduler, over the
    picks of any number of calls, and the class is shown to follow it. */
module RoundRobin {
  import opened Arithmetic

  // ---------------------------------------------------------------- the unit scheduler

  /** `server_iter_` and `current_weight_` in units. */
  datatype State = State(at: nat, level: nat)

  function Max(k: seq<nat>): (m: nat)
    ensures forall i :: 0 <= i < |k| ==> k[i] <= m
    ensures k != [] ==> m in k
  {
    if k == [] then 0
    else
      var m := Max(k[..|k| - 1]);
      if m < k[|k| - 1] then k[|k| - 1] else m
  }

  ghost predicate Cluster(k: seq<nat>)
  {
    k != [] && forall i :: 0 <= i < |k| ==> k[i] > 0
  }

  /** In the cycle: a server and a level between one and the highest weight. */
  ghost predicate InCycle(k: seq<nat>, s: State)
  {
    s.at < |k| && 1 <= s.level <= Max(k)
  }

  /** One round of the `while(true)` loop. */
  function Next(k: seq<nat>, s: State): (s': State)
    requires k != [] && s.at < |k|
  {
    if s.at + 1 < |k| then State(s.at + 1, s.level)
    else State(0, if s.level <= 1 then Max(k) else s.level - 1)
  }

  predicate Picks(k: seq<nat>, s: State)
    requires s.at < |k|
  {
    k[s.at] >= s.level
  }

  lemma NextInCycle(k: seq<nat>, s: State)
    requires Cluster(k) && InCycle(k, s)
    ensures InCycle(k, Next(k, s))
  {
    assert k[0] <= Max(k);
  }

  /** How far the heaviest server is ahead; it is picked whenever it comes up. */
  function Ahead(k: seq<nat>, s: State, top: nat): (d: nat)
    requires s.at < |k| && top < |k|
    ensures 1 <= d <= |k|
  {
    if s.at < top then top - s.at else top - s.at + |k|
  }

  ghost function Heaviest(k: seq<nat>): (i: nat)
    requires k != []
    ensures i < |k| && k[i] == Max(k)
  {
    var i :| 0 <= i < |k| && k[i] == Max(k);
    i
  }

  /** Where one call of `get_server_WRR` ends. */
  ghost function Call(k: seq<nat>, s: State): (e: State)
    requires Cluster(k) && InCycle(k, s)
    ensures InCycle(k, e) && Picks(k, e)
    decreases Ahead(k, s, Heaviest(k))
  {
    NextInCycle(k, s);
    var s' := Next(k, s);
    if Picks(k, s') then s' else Call(k, s')
  }

  /** The servers that the next `p` calls return. */
  ghost function Served(k: seq<nat>, s: State, p: nat): (r: seq<nat>)
    requires Cluster(k) && InCycle(k, s)
    ensures |r| == p
    decreases p
  {
    if p == 0 then [] else var e := Call(k, s); [e.at] + Served(k, e, p - 1)
  }

  // ---------------------------------------------------------------- counting over loop rounds

  ghost function After(k: seq<nat>, s: State, m: nat): (s': State)
    requires Cluster(k) && InCycle(k, s)
    ensures InCycle(k, s')
    decreases m
  {
    if m == 0 then s else NextInCycle(k, s); After(k, Next(k, s), m - 1)
  }

  /** The servers picked in the next `m` rounds. */
  ghost function Seen(k: seq<nat>, s: State, m: nat): (r: seq<nat>)
    requires Cluster(k) && InCycle(k, s)
    ensures forall i :: 0 <= i < |r| ==> r[i] < |k|
    decreases m
  {
    if m == 0 then []
    else
      NextInCycle(k, s);
      var s' := Next(k, s);
      (if Picks(k, s') then [s'.at] else []) + Seen(k, s', m - 1)
  }

  /** How often `q` occurs. */
  function Count(r: seq<nat>, q: nat): (n: nat)
  {
    if r == [] then 0 else (if r[0] == q then 1 else 0) + Count(r[1..], q)
  }

  /** How often server `q` is picked in the next `m` rounds. */
  ghost function Hits(k: seq<nat>, s: State, m: nat, q: nat): (h: nat)
    requires Cluster(k) && InCycle(k, s)
    decreases m
  {
    if m == 0 then 0
    else
      NextInCycle(k, s);
      var s' := Next(k, s);
      (if Picks(k, s') && s'.at == q then 1 else 0) + Hits(k, s', m - 1, q)
  }

  lemma {:induction false} HitsAreSeen(k: seq<nat>, s: State, m: nat, q: nat)
    requires Cluster(k) && InCycle(k, s)
    ensures Count(Seen(k, s, m), q) == Hits(k, s, m, q)
    decreases m
  {
    if m > 0 {
      NextInCycle(k, s);
      var s' := Next(k, s);
      HitsAreSeen(k, s', m - 1, q);
      if Picks(k, s') {
        assert Seen(k, s, m)[1..] == Seen(k, s', m - 1);
      } else {
        assert Seen(k, s, m) == Seen(k, s', m - 1);
      }
    }
  }

  lemma {:induction false} AfterSum(k: seq<nat>, s: State, a: nat, b: nat, q: nat)
    requires Cluster(k) && InCycle(k, s)
    ensures After(k, s, a + b) == After(k, After(k, s, a), b)
    ensures Hits(k, s, a + b, q) == Hits(k, s, a, q) + Hits(k, After(k, s, a), b, q)
    decreases a
  {
    if a > 0 {
      NextInCycle(k, s);
      AfterSum(k, Next(k, s), a - 1, b, q);
    }
  }

  /** Calls and rounds see the same servers in the same order. */
  lemma {:induction false} ServedIsSeen(k: seq<nat>, s: State, m: nat)
    requires Cluster(k) && InCycle(k, s)
    ensures Served(k, s, |Seen(k, s, m)|) == Seen(k, s, m)
    decreases m
  {
    if m > 0 {
      NextInCycle(k, s);
      var s' := Next(k, s);
      ServedIsSeen(k, s', m - 1);
      if Picks(k, s') { assert Seen(k, s, m)[1..] == Seen(k, s', m - 1); }
    }
  }

  /** Rounds within one row, at one level. */
  lemma {:induction false} Row(k: seq<nat>, s: State, m: nat, q: nat)
    requires Cluster(k) && InCycle(k, s) && s.at + m < |k|
    ensures After(k, s, m) == State(s.at + m, s.level)
    ensures Hits(k, s, m, q) == if s.at < q <= s.at + m && k[q] >= s.level then 1 else 0
    decreases m
  {
    if m > 0 {
      NextInCycle(k, s);
      Row(k, Next(k, s), m - 1, q);
    }
  }

  function Below(k: seq<nat>, level: nat): (l: nat) { if level <= 1 then Max(k) else level - 1 }

  /** A whole row, from the end of the row above. */
  lemma WholeRow(k: seq<nat>, level: nat, q: nat)
    requires Cluster(k) && InCycle(k, State(|k| - 1, level)) && q < |k|
    ensures After(k, State(|k| - 1, level), |k|) == State(|k| - 1, Below(k, level))
    ensures Hits(k, State(|k| - 1, level), |k|, q) == if k[q] >= Below(k, level) then 1 else 0
  {
    var s := State(|k| - 1, level);
    NextInCycle(k, s);
    Row(k, Next(k, s), |k| - 1, q);
  }

  /** The end of the last row: the cycle starts over after it. */
  function Start(k: seq<nat>): State
    requires k != []
  {
    State(|k| - 1, 1)
  }

  function RoundsIn(k: seq<nat>, rows: nat): nat
  {
    if rows == 0 then 0 else RoundsIn(k, rows - 1) + |k|
  }

  /** The first `i` rows of the cycle: server `q` has been picked in those whose level it reaches. */
  lemma {:induction false} Rows(k: seq<nat>, i: nat, q: nat)
    requires Cluster(k) && InCycle(k, Start(k)) && 1 <= i <= Max(k) && q < |k|
    ensures After(k, Start(k), RoundsIn(k, i)) == State(|k| - 1, Max(k) - i + 1)
    ensures Hits(k, Start(k), RoundsIn(k, i), q) == if k[q] > Max(k) - i then k[q] - (Max(k) - i) else 0
    decreases i
  {
    if i == 1 {
      assert RoundsIn(k, 1) == |k|;
      WholeRow(k, 1, q);
    } else {
      Rows(k, i - 1, q);
      AfterSum(k, Start(k), RoundsIn(k, i - 1), |k|, q);
      WholeRow(k, Max(k) - (i - 1) + 1, q);
    }
  }

  /** Rounds in one full cycle. */
  function Cycle(k: seq<nat>): nat { RoundsIn(k, Max(k)) }

  /** Every state of the cycle is reached from its start. */
  lemma OnTheCycle(k: seq<nat>, s: State) returns (m: nat)
    requires Cluster(k) && InCycle(k, s)
    ensures InCycle(k, Start(k)) && After(k, Start(k), m) == s
  {
    var rows := Max(k) - s.level;
    var last := State(|k| - 1, s.level + 1);
    if rows == 0 {
      last := Start(k);
    } else {
      Rows(k, rows, 0);
    }
    NextInCycle(k, last);
    Row(k, Next(k, last), s.at, 0);
    AfterSum(k, Start(k), RoundsIn(k, rows), s.at + 1, 0);
    m := RoundsIn(k, rows) + s.at + 1;
  }

  /** One full cycle from any state picks server `q` exactly `k[q]` times. */
  lemma CycleIsFair(k: seq<nat>, s: State, q: nat)
    requires Cluster(k) && InCycle(k, s) && q < |k|
    ensures Hits(k, s, Cycle(k), q) == k[q]
  {
    var s0, n := Start(k), Cycle(k);
    var m := OnTheCycle(k, s);
    Rows(k, Max(k), q);
    AfterSum(k, s0, m, n, q);
    AfterSum(k, s0, n, m, q);
  }

  // ---------------------------------------------------------------- the window

  function Sum(k: seq<nat>): nat
  {
    if k == [] then 0 else Sum(k[..|k| - 1]) + k[|k| - 1]
  }

  /** A sequence of indices is as long as its counts add up to. */
  lemma {:induction false} CountsAddUp(r: seq<nat>, k: seq<nat>)
    requires forall i :: 0 <= i < |r| ==> r[i] < |k|
    requires forall q: nat :: q < |k| ==> Count(r, q) == k[q]
    ensures |r| == Sum(k)
    decreases |k|
  {
    if k != [] {
      var n := |k| - 1;
      var rest := Others(r, n);
      forall q: nat | q < n ensures Count(rest, q) == k[q] { OthersCount(r, n, q); }
      OthersCount(r, n, n);
      CountsAddUp(rest, k[..n]);
    }
  }

  /** The entries other than `n`. */
  function Others(r: seq<nat>, n: nat): (o: seq<nat>)
    ensures forall i :: 0 <= i < |o| ==> o[i] != n && o[i] in r
  {
    if r == [] then [] else (if r[0] == n then [] else [r[0]]) + Others(r[1..], n)
  }

  lemma {:induction false} OthersCount(r: seq<nat>, n: nat, q: nat)
    ensures |r| == |Others(r, n)| + Count(r, n)
    ensures q != n ==> Count(Others(r, n), q) == Count(r, q)
  {
    if r != [] {
      OthersCount(r[1..], n, q);
      if r[0] == n {
        assert Others(r, n) == Others(r[1..], n);
      } else {
        assert Others(r, n)[1..] == Others(r[1..], n);
      }
    }
  }

  /** Any window of as many calls as the weights add up to, in units, returns server `q` exactly as often
      as its weight says. */
  lemma WindowIsFair(k: seq<nat>, s: State, q: nat)
    requires Cluster(k) && InCycle(k, s) && q < |k|
    ensures Count(Served(k, s, Sum(k)), q) == k[q]
  {
    var r: seq<nat> := Seen(k, s, Cycle(k));
    forall i: nat | i < |k| ensures Count(r, i) == k[i] {
      HitsAreSeen(k, s, Cycle(k), i);
      CycleIsFair(k, s, i);
    }
    CountsAddUp(r, k);
    ServedIsSeen(k, s, Cycle(k));
  }

  // ---------------------------------------------------------------- the class

  predicate DividesAll(d: nat, w: seq<nat>)
    requires d > 0
  {
    forall i :: 0 <= i < |w| ==> w[i] % d == 0
  }

  function Min(w: seq<nat>): (m: nat)
    requires w != []
    ensures forall i :: 0 <= i < |w| ==> m <= w[i]
    ensures m in w
  {
    if |w| == 1 then w[0]
    else
      var m := Min(w[..|w| - 1]);
      if w[|w| - 1] < m then w[|w| - 1] else m
  }

  /** The countdown of `gcd`. */
  function Countdown(w: seq<nat>, m: nat): (g: nat)
    ensures g <= m
  {
    if m == 0 || DividesAll(m, w) then m else Countdown(w, m - 1)
  }

  function Gcd(w: seq<nat>): nat
    requires w != []
  {
    Countdown(w, Min(w))
  }

  lemma {:induction false} CountdownIsGreatest(w: seq<nat>, m: nat, d: nat)
    requires 1 <= d <= m && DividesAll(d, w)
    ensures d <= Countdown(w, m) && DividesAll(Countdown(w, m), w)
  {
    if !DividesAll(m, w) { CountdownIsGreatest(w, m - 1, d); }
  }

  /** `gcd` returns the greatest common divisor of positive weights, and zero as soon as one weight is
      zero. */
  lemma {:induction false} GcdIsGreatest(w: seq<nat>, d: nat)
    requires w != [] && d > 0
    ensures 0 in w ==> Gcd(w) == 0
    ensures 0 !in w ==> Gcd(w) > 0 && DividesAll(Gcd(w), w)
    ensures 0 !in w && DividesAll(d, w) ==> d <= Gcd(w)
  {
    if 0 !in w {
      assert Min(w) > 0;
      assert DividesAll(1, w);
      CountdownIsGreatest(w, Min(w), 1);
      if DividesAll(d, w) {
        var i :| 0 <= i < |w| && w[i] == Min(w);
        DivisorIsSmaller(d, w[i]);
        CountdownIsGreatest(w, Min(w), d);
      }
    }
  }

  lemma DivisorIsSmaller(d: nat, x: nat)
    requires d > 0 && x > 0 && x % d == 0
    ensures d <= x
  {
    ExactQuotient(x, d);
    Monotone(d, 1, x / d);
  }

  function Unit(x: nat, g: nat): (u: nat) { if g == 0 then 0 else x / g }

  /** The weights in units of their greatest common divisor. */
  function Units(w: seq<nat>): (k: seq<nat>)
    requires w != []
    ensures |k| == |w|
  {
    seq(|w|, i requires 0 <= i < |w| => Unit(w[i], Gcd(w)))
  }

  lemma Exact(w: seq<nat>, i: nat)
    requires w != [] && 0 !in w && i < |w|
    ensures Gcd(w) > 0 && w[i] == Gcd(w) * Units(w)[i] && Units(w)[i] > 0
  {
    GcdIsGreatest(w, 1);
    var g := Gcd(w);
    assert w[i] % g == 0 && w[i] in w;
    ExactQuotient(w[i], g);
  }

  lemma ExactQuotient(x: nat, g: nat)
    requires g > 0 && x > 0 && x % g == 0
    ensures x == g * (x / g) && x / g > 0
  {
    var q := x / g;
    assert x == g * q + x % g;
    if q <= 0 { Monotone(g, q, 0); }
  }

  lemma Scale(w: seq<nat>)
    requires w != [] && 0 !in w
    ensures Gcd(w) > 0 && Cluster(Units(w)) && Max(w) == Gcd(w) * Max(Units(w))
  {
    var k := Units(w);
    forall i | 0 <= i < |w| ensures k[i] > 0 { Exact(w, i); }
    var a, b := Heaviest(w), Heaviest(k);
    Exact(w, a);
    Exact(w, b);
    Monotone(Gcd(w), k[a], k[b]);
  }

  lemma {:induction false} SumScales(w: seq<nat>, k: seq<nat>, g: nat)
    requires |w| == |k| && forall i :: 0 <= i < |w| ==> w[i] == g * k[i]
    ensures Sum(w) == g * Sum(k)
  {
    if w != [] { SumScales(w[..|w| - 1], k[..|k| - 1], g); }
  }

  /** Fairness in weights: any window of `sum(w) / gcd(w)` calls, from any state of the cycle, returns
      server `q` exactly `w[q] / gcd(w)` times. */
  lemma FairShare(w: seq<nat>, s: State, q: nat)
    requires w != [] && 0 !in w && InCycle(Units(w), s) && q < |w|
    ensures Gcd(w) > 0 && Cluster(Units(w)) && Sum(w) % Gcd(w) == 0
    ensures Count(Served(Units(w), s, Sum(w) / Gcd(w)), q) == w[q] / Gcd(w)
  {
    Scale(w);
    SumInUnits(w);
    WeightInUnits(w, q);
    WindowIsFair(Units(w), s, q);
  }

  lemma SumInUnits(w: seq<nat>)
    requires w != [] && 0 !in w
    ensures Gcd(w) > 0 && Sum(w) % Gcd(w) == 0 && Sum(w) / Gcd(w) == Sum(Units(w))
  {
    var g, k := Gcd(w), Units(w);
    Exact(w, 0);
    forall i | 0 <= i < |w| ensures w[i] == g * k[i] { Exact(w, i); }
    SumScales(w, k, g);
    Divide(g, Sum(k));
  }

  lemma WeightInUnits(w: seq<nat>, q: nat)
    requires w != [] && 0 !in w && q < |w|
    ensures Gcd(w) > 0 && w[q] / Gcd(w) == Units(w)[q]
  {
    Exact(w, q);
  }

  lemma Divide(g: nat, x: nat)
    requires g > 0
    ensures (g * x) % g == 0 && (g * x) / g == x
  {
    Quotient(g * x, g, x, 0);
  }

  /** `server_iter_` and `current_weight_`, and one round of the loop on them. */
  datatype Cursor = Cursor(at: nat, weight: int)

  function Round(w: seq<nat>, c: Cursor): (c': Cursor)
    requires w != [] && c.at < |w|
    ensures c'.at < |w|
  {
    if c.at + 1 < |w| then Cursor(c.at + 1, c.weight)
    else
      var less := c.weight - Gcd(w);
      Cursor(0, if less <= 0 then Max(w) else less)
  }

  ghost predicate Corresponds(w: seq<nat>, c: Cursor, s: State)
    requires w != []
  {
    c.at == s.at && c.weight == Gcd(w) * s.level
  }

  /** A round on weights is a round on units. */
  lemma RoundRefines(w: seq<nat>, c: Cursor, s: State)
    requires w != [] && 0 !in w && Corresponds(w, c, s) && InCycle(Units(w), s)
    ensures Corresponds(w, Round(w, c), Next(Units(w), s))
    ensures w[Round(w, c).at] >= Round(w, c).weight <==> Picks(Units(w), Next(Units(w), s))
  {
    Scale(w);
    var g, s' := Gcd(w), Next(Units(w), s);
    LessOne(g, s.level);
    Exact(w, s'.at);
    Compare(g, Units(w)[s'.at], s'.level);
  }

  lemma LessOne(g: nat, level: nat)
    requires g > 0 && level >= 1
    ensures g * level - g == g * (level - 1)
    ensures g * level - g <= 0 <==> level <= 1
  {
    if level >= 2 { Monotone(g, 1, level - 1); }
  }

  lemma Compare(g: nat, a: nat, b: nat)
    requires g > 0
    ensures g * a >= g * b <==> a >= b
  {
    if a >= b { Monotone(g, b, a); } else { StrictlyMonotone(g, a, b); }
  }

  /** Once a weight is zero the divisor is zero and the level never falls: in no round is a server below the current
      level picked. */
  lemma {:induction false} ZeroWeightStarves(w: seq<nat>, c: Cursor, rounds: nat, q: nat)
    requires w != [] && 0 in w && c.at < |w| && c.weight > 0 && q < |w| && w[q] < c.weight
    ensures var c' := RoundsOf(w, c, rounds); c'.weight == c.weight && (w[c'.at] >= c'.weight ==> c'.at != q)
    decreases rounds
  {
    GcdIsGreatest(w, 1);
    if rounds > 0 { ZeroWeightStarves(w, Round(w, c), rounds - 1, q); }
  }

  lemma {:induction false} LevelStays(w: seq<nat>, c: Cursor, rounds: nat)
    requires w != [] && 0 in w && c.at < |w| && c.weight > 0
    ensures RoundsOf(w, c, rounds).weight == c.weight
    decreases rounds
  {
    GcdIsGreatest(w, 1);
    if rounds > 0 { LevelStays(w, Round(w, c), rounds - 1); }
  }

  function RoundsOf(w: seq<nat>, c: Cursor, rounds: nat): (c': Cursor)
    requires w != [] && c.at < |w|
    ensures c'.at < |w|
    decreases rounds
  {
    if rounds == 0 then c else RoundsOf(w, Round(w, c), rounds - 1)
  }

  /** With a weight of zero and a level above all weights no server is ever picked. */
  lemma NeverEnds(w: seq<nat>, c: Cursor, rounds: nat)
    requires w != [] && 0 in w && c.at < |w| && c.weight > Max(w)
    ensures var c' := RoundsOf(w, c, rounds); c'.weight == c.weight && w[c'.at] < c'.weight
  {
    LevelStays(w, c, rounds);
    assert w[RoundsOf(w, c, rounds).at] <= Max(w);
  }

  /** The call ends: unless some server has no weight and the level is above all weights. */
  predicate Ending(w: seq<nat>, c: Cursor)
  {
    w != [] && c.at < |w| && (0 in w ==> c.weight <= Max(w))
  }

  /** How far the level is above the highest weight, and how far the next row or else the heaviest server is
      ahead. */
  function Excess(m: nat, weight: int): nat { if weight > m then weight - m else 0 }

  function Far(n: nat, m: nat, c: Cursor, top: nat): nat
    requires c.at < n && top < n
  {
    if c.weight > m then n - c.at else if c.at < top then top - c.at else top - c.at + n
  }

  /** In these states every round that picks no server brings the end of the call nearer. */
  lemma RoundProgress(w: seq<nat>, c: Cursor, top: nat)
    requires Ending(w, c) && top < |w| && w[top] == Max(w)
    ensures var c', m := Round(w, c), Max(w);
            && Ending(w, c')
            && (w[c'.at] < c'.weight ==>
                  || Excess(m, c'.weight) < Excess(m, c.weight)
                  || (Excess(m, c'.weight) == Excess(m, c.weight) && Far(|w|, m, c', top) < Far(|w|, m, c, top)))
  {
    GcdIsGreatest(w, 1);
    var g, m := Gcd(w), Max(w);
    assert c.weight > m ==> g > 0;
  }

  /** How a call ends: at which cursor, whether with -1, after how many rounds. */
  datatype Outcome = Outcome(cursor: Cursor, none: bool, rounds: nat)

  /** The round finds that no server has weight. */
  predicate FindsNone(w: seq<nat>, c: Cursor)
    requires w != []
  {
    c.at + 1 >= |w| && c.weight - Gcd(w) <= 0 && Max(w) == 0
  }

  ghost function CallFrom(w: seq<nat>, c: Cursor): (o: Outcome)
    requires Ending(w, c)
    ensures o.rounds >= 1 && o.cursor.at < |w|
    ensures o.none ==> Max(w) == 0 && o.cursor.weight == 0
    ensures !o.none ==> w[o.cursor.at] >= o.cursor.weight
    ensures Ending(w, o.cursor)
    decreases Excess(Max(w), c.weight), Far(|w|, Max(w), c, Heaviest(w))
  {
    RoundProgress(w, c, Heaviest(w));
    var c' := Round(w, c);
    if FindsNone(w, c) then Outcome(c', true, 1)
    else if w[c'.at] >= c'.weight then Outcome(c', false, 1)
    else
      var o := CallFrom(w, c');
      Outcome(o.cursor, o.none, o.rounds + 1)
  }

  /** A call with a weight of zero and a positive level that some weight reaches: the level stays, so no server below it
      is returned by this call or any later one. */
  lemma {:induction false} StarvedCall(w: seq<nat>, c: Cursor)
    requires Ending(w, c) && 0 in w && c.weight > 0
    ensures var o := CallFrom(w, c); !o.none && o.cursor.weight == c.weight && w[o.cursor.at] >= c.weight
    decreases Excess(Max(w), c.weight), Far(|w|, Max(w), c, Heaviest(w))
  {
    GcdIsGreatest(w, 1);
    RoundProgress(w, c, Heaviest(w));
    var c' := Round(w, c);
    if w[c'.at] < c'.weight { StarvedCall(w, c'); }
  }

  /** In the cycle: one call of the unit scheduler, in at most as many rounds as there are servers. */
  lemma {:induction false} CycleCall(w: seq<nat>, c: Cursor, s: State)
    requires w != [] && 0 !in w && Corresponds(w, c, s) && Cluster(Units(w)) && InCycle(Units(w), s)
    ensures Ending(w, c)
    ensures var o := CallFrom(w, c);
            && !o.none && Corresponds(w, o.cursor, Call(Units(w), s))
            && o.rounds <= Ahead(Units(w), s, Heaviest(Units(w)))
    decreases Ahead(Units(w), s, Heaviest(Units(w)))
  {
    var k := Units(w);
    RoundRefines(w, c, s);
    Closer(k, s, Heaviest(k));
    HasWeight(w);
    if !Picks(k, Next(k, s)) { CycleCall(w, Round(w, c), Next(k, s)); }
  }

  lemma HasWeight(w: seq<nat>)
    requires w != [] && 0 !in w
    ensures Max(w) > 0
  {
    assert w[0] in w;
  }

  /** No server has weight: -1 on the wrap, otherwise the next server. */
  lemma IdleCall(w: seq<nat>, c: Cursor)
    requires w != [] && c.at < |w| && c.weight <= 0 && Max(w) == 0
    ensures Ending(w, c)
    ensures var o := CallFrom(w, c);
            o.rounds == 1 && o.none == (c.at + 1 == |w|) && o.cursor.weight <= 0
                && (!o.none ==> o.cursor.at == c.at + 1)
  {
    GcdIsGreatest(w, 1);
    assert w[0] <= Max(w) && w[0] in w;
  }

  /** The scheduler object: the weights of the servers in use, and the cursor. */
  class Balancer {
    var weights: seq<nat>       // server_info_[i].weight, i < server_now_
    var serverIter: nat
    var currentWeight: int
    ghost var level: nat        // currentWeight in units

    constructor (w: seq<nat>, iter: nat, current: int, ghost units: nat)
      ensures weights == w && serverIter == iter && currentWeight == current && level == units
    {
      weights, serverIter, currentWeight, level := w, iter, current, units;
    }

    ghost function Abs(): State
      reads this
    {
      State(serverIter, level)
    }

    /** All servers have weight, and the cursor is somewhere in the cycle: the level is a positive
        multiple of the divisor and at most the highest weight. */
    ghost predicate Good()
      reads this
    {
      && weights != [] && 0 !in weights && Cluster(Units(weights))
      && Corresponds(weights, Cursor(serverIter, currentWeight), Abs()) && InCycle(Units(weights), Abs())
    }

    method MaxWeight() returns (m: nat)
      ensures m == Max(weights)
    {
      m := 0;
      for i := 0 to |weights|
        invariant m == Max(weights[..i])
      {
        assert weights[..i + 1][..i] == weights[..i];
        if m < weights[i] { m := weights[i]; }
      }
      assert weights[..|weights|] == weights;
    }

    method IsCommon(d: nat) returns (isCommon: bool)
      requires d > 0
      ensures isCommon <==> DividesAll(d, weights)
    {
      for i := 0 to |weights|
        invariant forall q :: 0 <= q < i ==> weights[q] % d == 0
      {
        if weights[i] % d != 0 { return false; }
      }
      return true;
    }

    method GcdOfWeights() returns (g: int)
      ensures g == if weights == [] then -1 else Gcd(weights)
    {
      if |weights| == 0 { return -1; }
      var min := weights[0];
      for i := 0 to |weights|
        invariant i == 0 ==> min == weights[0]
        invariant i > 0 ==> min == Min(weights[..i])
      {
        assert weights[..i + 1][..i] == weights[..i];
        if weights[i] < min { min := weights[i]; }
      }
      assert weights[..|weights|] == weights;
      while min >= 1
        invariant Countdown(weights, min) == Gcd(weights)
      {
        var isCommon := IsCommon(min);
        if isCommon { break; }
        min := min - 1;
      }
      g := min;
    }

    /** One round of the loop: the next server, a lower level when the cursor wraps.  `none` when no
        server has weight. */
    method Advance(j: nat) returns (next: nat, none: bool)
      requires j < |weights|
      modifies this`currentWeight
      ensures Cursor(next, currentWeight) == Round(weights, Cursor(j, old(currentWeight)))
      ensures none <==> next == 0 && old(currentWeight) - Gcd(weights) <= 0 && Max(weights) == 0
    {
      next := if j + 1 == |weights| then 0 else j + 1;
      none := false;
      if next == 0 {
        var g := GcdOfWeights();
        currentWeight := currentWeight - g;
        if currentWeight <= 0 {
          currentWeight := MaxWeight();
          none := currentWeight == 0;
        }
      }
    }

    ghost function Here(): Cursor
      reads this
    {
      Cursor(serverIter, currentWeight)
    }

    /** `get_server_WRR`, from every state where it ends: a server whose weight reaches the level, or -1 (the cursor
        stays), which only happens when no server has weight. */
    method GetServerWRR() returns (r: int, ghost rounds: nat)
      requires Ending(weights, Here())
      modifies this`serverIter, this`currentWeight
      ensures var o := CallFrom(weights, old(Here()));
              && currentWeight == o.cursor.weight && rounds == o.rounds
              && r == (if o.none then -1 else serverIter)
              && serverIter == if o.none then old(serverIter) else o.cursor.at
    {
      ghost var start := CallFrom(weights, Here());
      var j, none := serverIter, false;
      rounds := 0;
      while true
        invariant Ending(weights, Cursor(j, currentWeight)) && serverIter == old(serverIter)
        invariant var o := CallFrom(weights, Cursor(j, currentWeight));
                  start == Outcome(o.cursor, o.none, rounds + o.rounds)
        decreases Excess(Max(weights), currentWeight),
                  Far(|weights|, Max(weights), Cursor(j, currentWeight), Heaviest(weights))
      {
        RoundProgress(weights, Cursor(j, currentWeight), Heaviest(weights));
        j, none := Advance(j);
        rounds := rounds + 1;
        if none { return -1, rounds; }
        if weights[j] >= currentWeight {
          serverIter := j;
          return j, rounds;
        }
      }
    }

    /** A call while every server has weight and the level is in the cycle: one call of the unit scheduler, within as
        many rounds as there are servers. */
    method GetServerInCycle() returns (r: nat, ghost rounds: nat)
      requires Good()
      modifies this`serverIter, this`currentWeight, this`level
      ensures Good() && Calls(Units(weights), old(Abs()), Abs()) && r == serverIter && 1 <= rounds <= |weights|
    {
      ghost var s := Abs();
      CycleCall(weights, Here(), s);
      var server;
      server, rounds := GetServerWRR();
      r := server;
      level := Call(Units(weights), s).level;
    }

    /** A window of `p` calls in the cycle returns what the unit scheduler does; over `sum(w) / gcd(w)` calls that is
        server `q` exactly `w[q] / gcd(w)` times. */
    method Serve(p: nat) returns (r: seq<nat>)
      requires Good()
      modifies this`serverIter, this`currentWeight, this`level
      ensures Good() && r == Served(Units(weights), old(Abs()), p)
      ensures Gcd(weights) > 0 && p == Sum(weights) / Gcd(weights) ==>
                forall q :: 0 <= q < |weights| ==> Count(r, q) == weights[q] / Gcd(weights)
    {
      r := ServeEach(p);
      if Gcd(weights) > 0 && p == Sum(weights) / Gcd(weights) {
        forall q | 0 <= q < |weights| ensures Count(r, q) == weights[q] / Gcd(weights) {
          FairShare(weights, old(Abs()), q);
        }
      }
    }

    method ServeEach(p: nat) returns (r: seq<nat>)
      requires Good()
      modifies this`serverIter, this`currentWeight, this`level
      ensures Good() && |r| == p && Serves(Units(weights), old(Abs()), r)
      decreases p
    {
      if p == 0 { return []; }
      ghost var k, s := Units(weights), Abs();
      var first, rounds := GetServerInCycle();
      ghost var e := Abs();
      var rest := ServeEach(p - 1);
      r := [first] + rest;
      ServedNext(k, s, e, rest);
    }
  }

  /** One call of the unit scheduler, and a window of them. */
  ghost predicate Calls(k: seq<nat>, s: State, e: State)
  {
    Cluster(k) && InCycle(k, s) && e == Call(k, s)
  }

  ghost predicate Serves(k: seq<nat>, s: State, r: seq<nat>)
  {
    Cluster(k) && InCycle(k, s) && r == Served(k, s, |r|)
  }

  lemma ServedNext(k: seq<nat>, s: State, e: State, rest: seq<nat>)
    requires Calls(k, s, e) && Serves(k, e, rest)
    ensures Serves(k, s, [e.at] + rest)
  {
  }

  lemma Closer(k: seq<nat>, s: State, top: nat)
    requires Cluster(k) && InCycle(k, s) && top < |k| && k[top] == Max(k)
    ensures InCycle(k, Next(k, s))
    ensures !Picks(k, Next(k, s)) ==> Ahead(k, Next(k, s), top) + 1 == Ahead(k, s, top)
  {
    NextInCycle(k, s);
  }
}
