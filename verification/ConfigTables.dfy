/** The LALR(1) automaton of libconfig's configuration grammar: the packed tables the
    parser generator emitted (grammar.c), the grammar they encode, and the finite facts
    that make the driver sound and complete.

    Symbols are the generator's internal numbers: terminals 0..22, nonterminals 23..42. */
module ConfigTables {

  const STATES: nat := 47
  const TERMINALS: nat := 23
  const SYMBOLS: nat := 43
  const RULES: nat := 40
  const FINAL: nat := 6
  const LAST: nat := 35
  const PACT_NINF: int := -26

  // yypact: offset of a state's row in yytable, or PACT_NINF.
  function YyPact(i: nat): int
    requires i < 47
  {
    match i
    case 0 => -8 case 1 => -26 case 2 => 12 case 3 => -8 case 4 => -26 case 5 => 5
    case 6 => -26 case 7 => -26 case 8 => 0 case 9 => -26 case 10 => -26 case 11 => -26
    case 12 => -26 case 13 => -26 case 14 => -26 case 15 => -26 case 16 => -26 case 17 => -26
    case 18 => -26 case 19 => -26 case 20 => -26 case 21 => -6 case 22 => 10 case 23 => -26
    case 24 => -26 case 25 => 23 case 26 => 0 case 27 => -8 case 28 => -26 case 29 => -26
    case 30 => -26 case 31 => -26 case 32 => -26 case 33 => 3 case 34 => 7 case 35 => -26
    case 36 => 6 case 37 => 8 case 38 => -8 case 39 => 14 case 40 => 23 case 41 => -26
    case 42 => 0 case 43 => -26 case 44 => -26 case 45 => -26 case _ => -26
  }

  // yydefact: a state's default reduction, 0 for none.
  function YyDefact(i: nat): int
    requires i < 47
  {
    match i
    case 0 => 2 case 1 => 11 case 2 => 0 case 3 => 3 case 4 => 4 case 5 => 0
    case 6 => 1 case 7 => 5 case 8 => 0 case 9 => 23 case 10 => 24 case 11 => 26
    case 12 => 25 case 13 => 27 case 14 => 28 case 15 => 21 case 16 => 13 case 17 => 15
    case 18 => 38 case 19 => 18 case 20 => 19 case 21 => 8 case 22 => 29 case 23 => 17
    case 24 => 20 case 25 => 36 case 26 => 32 case 27 => 6 case 28 => 10 case 29 => 9
    case 30 => 12 case 31 => 22 case 32 => 34 case 33 => 37 case 34 => 0 case 35 => 30
    case 36 => 33 case 37 => 0 case 38 => 7 case 39 => 0 case 40 => 0 case 41 => 14
    case 42 => 0 case 43 => 16 case 44 => 39 case 45 => 35 case _ => 31
  }

  // yytable: the packed shift and goto targets.
  function YyTable(i: nat): int
    requires i < 36
  {
    match i
    case 0 => 7 case 1 => 35 case 2 => 1 case 3 => 9 case 4 => 10 case 5 => 11
    case 6 => 12 case 7 => 13 case 8 => 14 case 9 => 15 case 10 => 32 case 11 => 28
    case 12 => 6 case 13 => 16 case 14 => 29 case 15 => 17 case 16 => 8 case 17 => 46
    case 18 => 18 case 19 => 31 case 20 => 40 case 21 => 41 case 22 => 38 case 23 => 42
    case 24 => 43 case 25 => 45 case 26 => 9 case 27 => 10 case 28 => 11 case 29 => 12
    case 30 => 13 case 31 => 14 case 32 => 15 case 33 => 44 case 34 => 0 case _ => 7
  }

  // yycheck: the row each slot of yytable belongs to.
  function YyCheck(i: nat): int
    requires i < 36
  {
    match i
    case 0 => 3 case 1 => 26 case 2 => 10 case 3 => 3 case 4 => 4 case 5 => 5
    case 6 => 6 case 7 => 7 case 8 => 8 case 9 => 9 case 10 => 25 case 11 => 17
    case 12 => 0 case 13 => 13 case 14 => 20 case 15 => 15 case 16 => 11 case 17 => 42
    case 18 => 18 case 19 => 9 case 20 => 17 case 21 => 14 case 22 => 27 case 23 => 17
    case 24 => 16 case 25 => 40 case 26 => 3 case 27 => 4 case 28 => 5 case 29 => 6
    case 30 => 7 case 31 => 8 case 32 => 9 case 33 => 19 case 34 => -1 case _ => 38
  }

  // yypgoto: offset of a nonterminal's column in yytable.
  function YyPgoto(i: nat): int
    requires i < 20
  {
    match i
    case 0 => -26 case 1 => -26 case 2 => -5 case 3 => -26 case 4 => -26 case 5 => -3
    case 6 => -26 case 7 => -26 case 8 => -26 case 9 => -26 case 10 => -26 case 11 => -25
    case 12 => -26 case 13 => -15 case 14 => -26 case 15 => -26 case 16 => -26 case 17 => -26
    case 18 => -26 case _ => -26
  }

  // yydefgoto: a nonterminal's default goto.
  function YyDefgoto(i: nat): int
    requires i < 20
  {
    match i
    case 0 => -1 case 1 => 2 case 2 => 3 case 3 => 39 case 4 => 30 case 5 => 4
    case 6 => 5 case 7 => 19 case 8 => 25 case 9 => 20 case 10 => 26 case 11 => 21
    case 12 => 22 case 13 => 23 case 14 => 36 case 15 => 37 case 16 => 33 case 17 => 34
    case 18 => 24 case _ => 27
  }

  // yystos: the symbol that leads into a state.
  function YyStos(i: nat): int
    requires i < 47
  {
    match i
    case 0 => 0 case 1 => 10 case 2 => 24 case 3 => 25 case 4 => 28 case 5 => 29
    case 6 => 0 case 7 => 28 case 8 => 11 case 9 => 3 case 10 => 4 case 11 => 5
    case 12 => 6 case 13 => 7 case 14 => 8 case 15 => 9 case 16 => 13 case 17 => 15
    case 18 => 18 case 19 => 30 case 20 => 32 case 21 => 34 case 22 => 35 case 23 => 36
    case 24 => 41 case 25 => 31 case 26 => 33 case 27 => 42 case 28 => 17 case 29 => 20
    case 30 => 27 case 31 => 9 case 32 => 36 case 33 => 39 case 34 => 40 case 35 => 34
    case 36 => 37 case 37 => 38 case 38 => 25 case 39 => 26 case 40 => 17 case 41 => 14
    case 42 => 17 case 43 => 16 case 44 => 19 case 45 => 36 case _ => 34
  }

  // yyr1: the left-hand side of a rule.
  function YyR1(i: nat): int
    requires i < 40
  {
    match i
    case 0 => 0 case 1 => 23 case 2 => 24 case 3 => 24 case 4 => 25 case 5 => 25
    case 6 => 26 case 7 => 26 case 8 => 27 case 9 => 27 case 10 => 27 case 11 => 29
    case 12 => 28 case 13 => 31 case 14 => 30 case 15 => 33 case 16 => 32 case 17 => 34
    case 18 => 34 case 19 => 34 case 20 => 34 case 21 => 35 case 22 => 35 case 23 => 36
    case 24 => 36 case 25 => 36 case 26 => 36 case 27 => 36 case 28 => 36 case 29 => 36
    case 30 => 37 case 31 => 37 case 32 => 38 case 33 => 38 case 34 => 39 case 35 => 39
    case 36 => 40 case 37 => 40 case 38 => 42 case _ => 41
  }

  // yyr2: the length of a rule's right-hand side.
  function YyR2(i: nat): int
    requires i < 40
  {
    match i
    case 0 => 0 case 1 => 2 case 2 => 0 case 3 => 1 case 4 => 1 case 5 => 2
    case 6 => 0 case 7 => 1 case 8 => 0 case 9 => 1 case 10 => 1 case 11 => 0
    case 12 => 5 case 13 => 0 case 14 => 4 case 15 => 0 case 16 => 4 case 17 => 1
    case 18 => 1 case 19 => 1 case 20 => 1 case 21 => 1 case 22 => 2 case 23 => 1
    case 24 => 1 case 25 => 1 case 26 => 1 case 27 => 1 case 28 => 1 case 29 => 1
    case 30 => 1 case 31 => 3 case 32 => 0 case 33 => 1 case 34 => 1 case 35 => 3
    case 36 => 0 case 37 => 1 case 38 => 0 case _ => 4
  }

  // yyrhs: the right-hand side of a rule.
  function Rhs(r: nat): seq<nat>
    requires r < 40
  {
    match r
    case 1 => [24, 0]
    case 2 => []
    case 3 => [25]
    case 4 => [28]
    case 5 => [25, 28]
    case 6 => []
    case 7 => [25]
    case 8 => []
    case 9 => [20]
    case 10 => [17]
    case 11 => []
    case 12 => [10, 29, 11, 34, 27]
    case 13 => []
    case 14 => [13, 31, 40, 14]
    case 15 => []
    case 16 => [15, 33, 38, 16]
    case 17 => [36]
    case 18 => [30]
    case 19 => [32]
    case 20 => [41]
    case 21 => [9]
    case 22 => [35, 9]
    case 23 => [3]
    case 24 => [4]
    case 25 => [6]
    case 26 => [5]
    case 27 => [7]
    case 28 => [8]
    case 29 => [35]
    case 30 => [34]
    case 31 => [37, 17, 34]
    case 32 => []
    case 33 => [37]
    case 34 => [36]
    case 35 => [39, 17, 36]
    case 36 => []
    case 37 => [39]
    case 38 => []
    case _ => [18, 42, 26, 19]
  }

  // Edge(p, q): the automaton can move from p to q, by a shift or by a goto.
  predicate Edge(p: nat, q: nat)
  {
    match q
    case 1 => p == 0 || p == 3 || p == 27 || p == 38
    case 2 => p == 0
    case 3 => p == 0
    case 4 => p == 0 || p == 27
    case 5 => p == 1
    case 6 => p == 2
    case 7 => p == 3 || p == 38
    case 8 => p == 5
    case 9 => p == 8 || p == 25 || p == 26 || p == 40 || p == 42
    case 10 => p == 8 || p == 25 || p == 26 || p == 40 || p == 42
    case 11 => p == 8 || p == 25 || p == 26 || p == 40 || p == 42
    case 12 => p == 8 || p == 25 || p == 26 || p == 40 || p == 42
    case 13 => p == 8 || p == 25 || p == 26 || p == 40 || p == 42
    case 14 => p == 8 || p == 25 || p == 26 || p == 40 || p == 42
    case 15 => p == 8 || p == 25 || p == 26 || p == 40 || p == 42
    case 22 => p == 8 || p == 25 || p == 26 || p == 40 || p == 42
    case 16 => p == 8 || p == 26 || p == 42
    case 17 => p == 8 || p == 26 || p == 42
    case 18 => p == 8 || p == 26 || p == 42
    case 19 => p == 8 || p == 26 || p == 42
    case 20 => p == 8 || p == 26 || p == 42
    case 23 => p == 8 || p == 26 || p == 42
    case 24 => p == 8 || p == 26 || p == 42
    case 21 => p == 8
    case 25 => p == 16
    case 26 => p == 17
    case 27 => p == 18
    case 28 => p == 21
    case 29 => p == 21
    case 30 => p == 21
    case 31 => p == 22
    case 32 => p == 25
    case 33 => p == 25
    case 34 => p == 25
    case 35 => p == 26
    case 36 => p == 26
    case 37 => p == 26
    case 38 => p == 27
    case 39 => p == 27
    case 40 => p == 33
    case 41 => p == 34
    case 42 => p == 36
    case 43 => p == 37
    case 44 => p == 39
    case 45 => p == 40
    case 46 => p == 42
    case _ => false
  }

  datatype Move = Shift(target: nat) | Reduce(rule: nat) | Error

  function DefaultMove(s: nat): Move
    requires s < STATES
  {
    if YyDefact(s) == 0 then Error else Reduce(YyDefact(s))
  }

  // What the driver does in state s with lookahead t.
  function Decide(s: nat, t: nat): Move
    requires s < STATES && t < TERMINALS
  {
    var n := YyPact(s);
    if n == PACT_NINF || n + t < 0 || LAST < n + t || YyCheck(n + t) != t then DefaultMove(s)
    else
      var a := YyTable(n + t);
      if a == 0 then Error else Shift(a)
  }

  // The state entered after reducing to nonterminal a with state s on top.
  function Goto(s: nat, a: nat): nat
    requires s < STATES && TERMINALS < a < SYMBOLS
  {
    var k := YyPgoto(a - TERMINALS) + s;
    if 0 <= k <= LAST && YyCheck(k) == s then YyTable(k) else YyDefgoto(a - TERMINALS)
  }

  predicate Viable(st: seq<nat>)
  {
    && |st| > 0 && st[0] == 0
    && (forall i | 0 <= i < |st| :: st[i] < STATES)
    && (forall i | 0 < i < |st| :: Edge(st[i - 1], st[i]))
  }

  // A shift follows an edge into a state that its symbol leads to.
  lemma ShiftFollowsEdge(s: nat, t: nat)
    requires s < STATES && t < TERMINALS && Decide(s, t).Shift?
    ensures Decide(s, t).target < STATES
    ensures Edge(s, Decide(s, t).target) && YyStos(Decide(s, t).target) == t
  {
    if s < 22 { ShiftLow(s, t); } else { hide Edge; ShiftHigh(s, t); }
  }

  lemma ShiftLow(s: nat, t: nat)
    requires s < 22 && t < TERMINALS && Decide(s, t).Shift?
    ensures Decide(s, t).target < STATES
    ensures Edge(s, Decide(s, t).target) && YyStos(Decide(s, t).target) == t
  {
  }

  lemma ShiftHigh(s: nat, t: nat)
    requires 22 <= s < STATES && t < TERMINALS && Decide(s, t).Shift?
    ensures Decide(s, t).target < STATES
    ensures Edge(s, Decide(s, t).target) && YyStos(Decide(s, t).target) == t
  {
  }

  // How many reductions can still follow a state before a token must be shifted, weighted
  // so that every reduction lowers 8 * (stack height) + Rank(top).
  function Rank(s: nat): nat
    requires s < STATES
  {
    match s
    case 0 => 18 case 1 => 9 case 2 => 9 case 3 => 10 case 4 => 11 case 7 => 3
    case 9 => 11 case 10 => 11 case 11 => 11 case 12 => 11 case 13 => 11 case 14 => 11
    case 15 => 12 case 16 => 18 case 17 => 18 case 18 => 18 case 19 => 10 case 20 => 10
    case 21 => 9 case 22 => 11 case 23 => 10 case 24 => 10 case 25 => 9 case 26 => 9
    case 27 => 9 case 28 => 1 case 29 => 1 case 31 => 4 case 32 => 2 case 33 => 1
    case 35 => 2 case 36 => 1 case 38 => 1 case _ => 0
  }

  // The top of the stack spells the right-hand side of r, and popping it uncovers
  // a state with an edge on r's left-hand side.
  ghost predicate Reducible(st: seq<nat>, r: nat)
    requires Viable(st) && 1 < r < RULES
  {
    && YyR2(r) < |st|
    && (forall k: nat | k < YyR2(r) :: YyStos(st[|st| - YyR2(r) + k]) == Rhs(r)[k])
    && var q := Goto(st[|st| - YyR2(r) - 1], YyR1(r));
       && q < STATES && Edge(st[|st| - YyR2(r) - 1], q) && YyStos(q) == YyR1(r)
       && Rank(q) + 8 < Rank(st[|st| - 1]) + 8 * YyR2(r)
  }

  lemma RuleShape(r: nat)
    requires 1 < r < RULES
    ensures |Rhs(r)| == YyR2(r) <= 5 && TERMINALS < YyR1(r) < SYMBOLS
    ensures forall k: nat | k < |Rhs(r)| :: Rhs(r)[k] < SYMBOLS
  {
  }

  lemma ReduceEmpty(st: seq<nat>)
    requires Viable(st) && st[|st| - 1] != FINAL && var s := st[|st| - 1]; YyDefact(s) != 0 && YyR2(YyDefact(s)) == 0
    ensures Reducible(st, YyDefact(st[|st| - 1]))
  {
    var s := st[|st| - 1];
    EmptyFrom(s);
    RuleShape(YyDefact(s));
    hide Edge, Goto, YyStos, YyR1, YyR2, YyDefact, Rhs, Rank;
  }

  // Where a rule without symbols takes the automaton.
  lemma EmptyFrom(s: nat)
    requires s < STATES && s != FINAL && YyDefact(s) != 0 && YyR2(YyDefact(s)) == 0
    ensures 1 < YyDefact(s) < RULES
    ensures var r := YyDefact(s); var q := Goto(s, YyR1(r));
      q < STATES && Edge(s, q) && YyStos(q) == YyR1(r) && Rank(q) + 8 < Rank(s)
  {
    if s < 21 { EmptyLow(s); } else { EmptyHigh(s); }
  }

  lemma EmptyLow(s: nat)
    requires s < 21 && s != FINAL && YyDefact(s) != 0 && YyR2(YyDefact(s)) == 0
    ensures 1 < YyDefact(s) < RULES
    ensures var r := YyDefact(s); var q := Goto(s, YyR1(r));
      q < STATES && Edge(s, q) && YyStos(q) == YyR1(r) && Rank(q) + 8 < Rank(s)
  {
  }

  lemma EmptyHigh(s: nat)
    requires 21 <= s < STATES && s != FINAL && YyDefact(s) != 0 && YyR2(YyDefact(s)) == 0
    ensures 1 < YyDefact(s) < RULES
    ensures var r := YyDefact(s); var q := Goto(s, YyR1(r));
      q < STATES && Edge(s, q) && YyStos(q) == YyR1(r) && Rank(q) + 8 < Rank(s)
  {
  }

  lemma ReduceUnit(st: seq<nat>)
    requires Viable(st) && st[|st| - 1] != FINAL && var s := st[|st| - 1]; YyDefact(s) != 0 && YyR2(YyDefact(s)) == 1
    ensures Reducible(st, YyDefact(st[|st| - 1]))
  {
    var s := st[|st| - 1];
    if s < 15 { UnitLow(st); } else if s < 24 { hide Edge; UnitMid(st); } else { hide Edge; UnitHigh(st); }
  }

  lemma UnitLow(st: seq<nat>)
    requires Viable(st) && var s := st[|st| - 1]; s < 15 && YyDefact(s) != 0 && YyR2(YyDefact(s)) == 1
    ensures Reducible(st, YyDefact(st[|st| - 1]))
  {
    assert |st| > 1 && Edge(st[|st| - 2], st[|st| - 1]);
  }

  lemma UnitMid(st: seq<nat>)
    requires Viable(st) && var s := st[|st| - 1]; 15 <= s < 24 && YyDefact(s) != 0 && YyR2(YyDefact(s)) == 1
    ensures Reducible(st, YyDefact(st[|st| - 1]))
  {
    assert |st| > 1 && Edge(st[|st| - 2], st[|st| - 1]);
  }

  lemma UnitHigh(st: seq<nat>)
    requires Viable(st) && var s := st[|st| - 1]; 24 <= s && YyDefact(s) != 0 && YyR2(YyDefact(s)) == 1
    ensures Reducible(st, YyDefact(st[|st| - 1]))
  {
    assert |st| > 1 && Edge(st[|st| - 2], st[|st| - 1]);
  }

  lemma ReduceTwo(st: seq<nat>)
    requires Viable(st) && (st[|st| - 1] == 7 || st[|st| - 1] == 31)
    ensures Reducible(st, YyDefact(st[|st| - 1]))
  {
    if st[|st| - 1] == 7 { ReduceMember(st); } else { ReduceString(st); }
  }

  lemma ReduceMember(st: seq<nat>)
    requires Viable(st) && st[|st| - 1] == 7
    ensures Reducible(st, YyDefact(7))
  {
    var m := |st|;
    assert m > 1 && Edge(st[m - 2], st[m - 1]);
    assert m > 2 && Edge(st[m - 3], st[m - 2]);
  }

  lemma ReduceString(st: seq<nat>)
    requires Viable(st) && st[|st| - 1] == 31
    ensures Reducible(st, YyDefact(31))
  {
    var m := |st|;
    assert m > 1 && Edge(st[m - 2], st[m - 1]);
    assert m > 2 && Edge(st[m - 3], st[m - 2]);
  }

  lemma ReduceThree(st: seq<nat>)
    requires Viable(st) && (st[|st| - 1] == 45 || st[|st| - 1] == 46)
    ensures Reducible(st, YyDefact(st[|st| - 1]))
  {
    var m := |st|;
    assert m > 1 && Edge(st[m - 2], st[m - 1]);
    assert m > 2 && Edge(st[m - 3], st[m - 2]);
    assert m > 3 && Edge(st[m - 4], st[m - 3]);
  }

  lemma ReduceArray(st: seq<nat>)
    requires Viable(st) && st[|st| - 1] == 41
    ensures Reducible(st, YyDefact(st[|st| - 1]))
  {
    var m := |st|;
    assert m > 1 && Edge(st[m - 2], st[m - 1]);
    assert m > 2 && Edge(st[m - 3], st[m - 2]);
    assert m > 3 && Edge(st[m - 4], st[m - 3]);
    assert m > 4 && Edge(st[m - 5], st[m - 4]);
  }

  lemma ReduceList(st: seq<nat>)
    requires Viable(st) && st[|st| - 1] == 43
    ensures Reducible(st, YyDefact(st[|st| - 1]))
  {
    var m := |st|;
    assert m > 1 && Edge(st[m - 2], st[m - 1]);
    assert m > 2 && Edge(st[m - 3], st[m - 2]);
    assert m > 3 && Edge(st[m - 4], st[m - 3]);
    assert m > 4 && Edge(st[m - 5], st[m - 4]);
  }

  lemma ReduceGroup(st: seq<nat>)
    requires Viable(st) && st[|st| - 1] == 44
    ensures Reducible(st, YyDefact(st[|st| - 1]))
  {
    var m := |st|;
    assert m > 1 && Edge(st[m - 2], st[m - 1]);
    assert m > 2 && Edge(st[m - 3], st[m - 2]);
    assert m > 3 && Edge(st[m - 4], st[m - 3]);
    assert m > 4 && Edge(st[m - 5], st[m - 4]);
  }

  lemma ReduceSetting(st: seq<nat>)
    requires Viable(st) && st[|st| - 1] == 30
    ensures Reducible(st, YyDefact(st[|st| - 1]))
  {
    var m := |st|;
    assert m > 1 && Edge(st[m - 2], st[m - 1]);
    assert m > 2 && Edge(st[m - 3], st[m - 2]);
    assert m > 3 && Edge(st[m - 4], st[m - 3]);
    assert m > 4 && Edge(st[m - 5], st[m - 4]);
    assert m > 5 && Edge(st[m - 6], st[m - 5]);
  }

  lemma LongRules(s: nat)
    requires s < STATES && s != FINAL && YyDefact(s) != 0 && YyR2(YyDefact(s)) > 1
    ensures s == 7 || s == 30 || s == 31 || s == 41 || 43 <= s <= 46
  {
  }

  // Every reduction finds its rule's symbols on the stack.
  lemma ReduceMatches(st: seq<nat>)
    requires Viable(st) && st[|st| - 1] != FINAL && YyDefact(st[|st| - 1]) != 0
    ensures 1 < YyDefact(st[|st| - 1]) < RULES && Reducible(st, YyDefact(st[|st| - 1]))
  {
    RuleShape(YyDefact(st[|st| - 1]));
    if YyR2(YyDefact(st[|st| - 1])) == 0 {
      ReduceEmpty(st);
    } else if YyR2(YyDefact(st[|st| - 1])) == 1 {
      ReduceUnit(st);
    } else {
      hide Edge;
      var s := st[|st| - 1];
      LongRules(s);
      if s == 30 { ReduceSetting(st); }
      else if s == 7 || s == 31 { ReduceTwo(st); }
      else if s >= 45 { ReduceThree(st); }
      else if s == 41 { ReduceArray(st); }
      else if s == 43 { ReduceList(st); }
      else { ReduceGroup(st); }
    }
  }

  // ---------- What the automaton expects ----------

  predicate ValueStart(p: nat) { p == 8 || p == 26 || p == 42 }

  predicate ScalarStart(p: nat) { ValueStart(p) || p == 25 || p == 40 }

  predicate SettingStart(p: nat) { p == 0 || p == 3 || p == 27 || p == 38 }

  // The transition of the automaton on symbol x from state p, or -1 if x cannot come next.
  function Target(p: nat, x: nat): int
  {
    match x
    case 0 => if p == 2 then 6 else -1
    case 3 => if ScalarStart(p) then 9 else -1
    case 4 => if ScalarStart(p) then 10 else -1
    case 5 => if ScalarStart(p) then 11 else -1
    case 6 => if ScalarStart(p) then 12 else -1
    case 7 => if ScalarStart(p) then 13 else -1
    case 8 => if ScalarStart(p) then 14 else -1
    case 9 => if ScalarStart(p) then 15 else if p == 22 then 31 else -1
    case 10 => if SettingStart(p) then 1 else -1
    case 11 => if p == 5 then 8 else -1
    case 13 => if ValueStart(p) then 16 else -1
    case 14 => if p == 34 then 41 else -1
    case 15 => if ValueStart(p) then 17 else -1
    case 16 => if p == 37 then 43 else -1
    case 17 => if p == 21 then 28 else if p == 33 then 40 else if p == 36 then 42 else -1
    case 18 => if ValueStart(p) then 18 else -1
    case 19 => if p == 39 then 44 else -1
    case 20 => if p == 21 then 29 else -1
    case 24 => if p == 0 then 2 else -1
    case 25 => if p == 0 then 3 else if p == 27 then 38 else -1
    case 26 => if p == 27 then 39 else -1
    case 27 => if p == 21 then 30 else -1
    case 28 => if p == 0 || p == 27 then 4 else if p == 3 || p == 38 then 7 else -1
    case 29 => if p == 1 then 5 else -1
    case 30 => if ValueStart(p) then 19 else -1
    case 31 => if p == 16 then 25 else -1
    case 32 => if ValueStart(p) then 20 else -1
    case 33 => if p == 17 then 26 else -1
    case 34 => if p == 8 then 21 else if p == 26 then 35 else if p == 42 then 46 else -1
    case 35 => if ScalarStart(p) then 22 else -1
    case 36 => if ValueStart(p) then 23 else if p == 25 then 32 else if p == 40 then 45 else -1
    case 37 => if p == 26 then 36 else -1
    case 38 => if p == 26 then 37 else -1
    case 39 => if p == 25 then 33 else -1
    case 40 => if p == 25 then 34 else -1
    case 41 => if ValueStart(p) then 24 else -1
    case 42 => if p == 18 then 27 else -1
    case _ => -1
  }

  predicate Expected(p: nat, x: nat) { Target(p, x) >= 0 }

  // The packed tables realise Target: on terminals the driver shifts, ...
  lemma TargetShifts(p: nat, t: nat)
    requires p < STATES && t < TERMINALS && Expected(p, t)
    ensures Target(p, t) < STATES && Decide(p, t) == Shift(Target(p, t))
    ensures Edge(p, Target(p, t)) && YyStos(Target(p, t)) == t
  {
    if t < 9 { ScalarShifts(p, t); } else { hide Edge; MarkShifts(p, t); }
  }

  lemma ScalarShifts(p: nat, t: nat)
    requires p < STATES && t < 9 && Expected(p, t)
    ensures Target(p, t) < STATES && Decide(p, t) == Shift(Target(p, t))
    ensures Edge(p, Target(p, t)) && YyStos(Target(p, t)) == t
  {
  }

  lemma MarkShifts(p: nat, t: nat)
    requires p < STATES && 9 <= t < TERMINALS && Expected(p, t)
    ensures Target(p, t) < STATES && Decide(p, t) == Shift(Target(p, t))
    ensures Edge(p, Target(p, t)) && YyStos(Target(p, t)) == t
  {
  }

  // ... and after a reduction it goes to the target.
  lemma TargetGoes(p: nat, a: nat)
    requires p < STATES && TERMINALS < a < SYMBOLS && Expected(p, a)
    ensures Target(p, a) < STATES && Goto(p, a) == Target(p, a)
    ensures Edge(p, Target(p, a)) && YyStos(Target(p, a)) == a
  {
    if a < 34 { LowGoes(p, a); } else { hide Edge; HighGoes(p, a); }
  }

  lemma LowGoes(p: nat, a: nat)
    requires p < STATES && TERMINALS < a < 34 && Expected(p, a)
    ensures Target(p, a) < STATES && Goto(p, a) == Target(p, a)
    ensures Edge(p, Target(p, a)) && YyStos(Target(p, a)) == a
  {
  }

  lemma HighGoes(p: nat, a: nat)
    requires p < STATES && 34 <= a < SYMBOLS && Expected(p, a)
    ensures Target(p, a) < STATES && Goto(p, a) == Target(p, a)
    ensures Edge(p, Target(p, a)) && YyStos(Target(p, a)) == a
  {
  }

  // The state after the first i symbols of rule r, started in p.
  function Mid(p: nat, r: nat, i: nat): int
    requires 1 < r < RULES && i <= |Rhs(r)|
  {
    if i == 0 then p
    else match r
      case 5 => if i == 2 then 7 else if p == 0 then 3 else 38
      case 12 => if i == 1 then 1 else if i == 2 then 5 else if i == 3 then 8 else if i == 4 then 21 else 30
      case 14 => if i == 1 then 16 else if i == 2 then 25 else if i == 3 then 34 else 41
      case 16 => if i == 1 then 17 else if i == 2 then 26 else if i == 3 then 37 else 43
      case 22 => if i == 1 then 22 else 31
      case 31 => if i == 1 then 36 else if i == 2 then 42 else 46
      case 35 => if i == 1 then 33 else if i == 2 then 40 else 45
      case 39 => if i == 1 then 18 else if i == 2 then 27 else if i == 3 then 39 else 44
      case _ => Target(p, Rhs(r)[0])
  }

  // Each symbol of an expected rule is expected where the automaton then stands.
  lemma MidStep(p: nat, r: nat, i: nat)
    requires p < STATES && 1 < r < RULES && i < |Rhs(r)| && Expected(p, YyR1(r))
    ensures 0 <= Mid(p, r, i) < STATES && Rhs(r)[i] < SYMBOLS
    ensures 0 <= Mid(p, r, i + 1) == Target(Mid(p, r, i), Rhs(r)[i])
  {
    if r == 12 { MidSetting(p, i); } else if r < 20 { hide Target; MidLow(p, r, i); } else if r < 32 { hide Target; MidHigh(p, r, i); } else { hide Target; MidTop(p, r, i); }
  }

  lemma MidSetting(p: nat, i: nat)
    requires p < STATES && i < |Rhs(12)| && Expected(p, YyR1(12))
    ensures 0 <= Mid(p, 12, i) < STATES && Rhs(12)[i] < SYMBOLS
    ensures 0 <= Mid(p, 12, i + 1) == Target(Mid(p, 12, i), Rhs(12)[i])
  {
  }

  lemma MidLow(p: nat, r: nat, i: nat)
    requires p < STATES && 1 < r < 20 && r != 12 && i < |Rhs(r)| && Expected(p, YyR1(r))
    ensures 0 <= Mid(p, r, i) < STATES && Rhs(r)[i] < SYMBOLS
    ensures 0 <= Mid(p, r, i + 1) == Target(Mid(p, r, i), Rhs(r)[i])
  {
  }

  lemma MidHigh(p: nat, r: nat, i: nat)
    requires p < STATES && 20 <= r < 32 && i < |Rhs(r)| && Expected(p, YyR1(r))
    ensures 0 <= Mid(p, r, i) < STATES && Rhs(r)[i] < SYMBOLS
    ensures 0 <= Mid(p, r, i + 1) == Target(Mid(p, r, i), Rhs(r)[i])
  {
  }

  lemma MidTop(p: nat, r: nat, i: nat)
    requires p < STATES && 32 <= r < RULES && i < |Rhs(r)| && Expected(p, YyR1(r))
    ensures 0 <= Mid(p, r, i) < STATES && Rhs(r)[i] < SYMBOLS
    ensures 0 <= Mid(p, r, i + 1) == Target(Mid(p, r, i), Rhs(r)[i])
  {
  }

  // ---------- Lookahead ----------

  predicate Nullable(x: nat)
  {
    x == 24 || x == 26 || x == 27 || x == 29 || x == 31 || x == 33 || x == 38 || x == 40 || x == 42
  }

  predicate StartsScalar(t: nat) { 3 <= t <= 9 }

  predicate StartsValue(t: nat) { StartsScalar(t) || t == 13 || t == 15 || t == 18 }

  // Terminal t can begin a string derived from symbol x.
  predicate First(x: nat, t: nat)
  {
    if x < TERMINALS then t == x
    else match x
      case 24 => t == 10
      case 25 => t == 10
      case 26 => t == 10
      case 27 => t == 17 || t == 20
      case 28 => t == 10
      case 30 => t == 13
      case 32 => t == 15
      case 34 => StartsValue(t)
      case 35 => t == 9
      case 36 => StartsScalar(t)
      case 37 => StartsValue(t)
      case 38 => StartsValue(t)
      case 39 => StartsScalar(t)
      case 40 => StartsScalar(t)
      case 41 => t == 18
      case _ => false
  }

  lemma FirstClosed(r: nat, i: nat, t: nat)
    requires 1 < r < RULES && i < |Rhs(r)| && First(Rhs(r)[i], t)
    requires forall k | 0 <= k < i :: Nullable(Rhs(r)[k])
    ensures First(YyR1(r), t)
  {
    if i > 0 { assert Nullable(Rhs(r)[0]); }
  }

  lemma NullableClosed(r: nat)
    requires 1 < r < RULES && forall k | 0 <= k < |Rhs(r)| :: Nullable(Rhs(r)[k])
    ensures Nullable(YyR1(r))
  {
    if |Rhs(r)| > 0 { assert Nullable(Rhs(r)[0]); }
  }

  // Terminal t may follow a value that was started in state p.
  predicate AfterValue(p: nat, t: nat)
  {
    t == 17 || (if p == 8 then t == 20 || t == 10 || t == 0 || t == 19
                else if p == 26 || p == 42 then t == 16
                else t == 14)
  }

  // Terminal t may follow nonterminal a where a was started in state p.
  predicate Look(p: nat, a: nat, t: nat)
  {
    match a
    case 24 => t == 0
    case 25 => t == 10 || (if p == 0 then t == 0 else t == 19)
    case 26 => t == 19
    case 27 => t == 10 || t == 0 || t == 19
    case 28 => t == 10 || (if p == 0 || p == 3 then t == 0 else t == 19)
    case 30 => AfterValue(p, t)
    case 32 => AfterValue(p, t)
    case 34 => AfterValue(p, t)
    case 35 => AfterValue(p, t) || t == 9
    case 36 => AfterValue(p, t)
    case 37 => t == 17 || t == 16
    case 38 => t == 16
    case 39 => t == 17 || t == 14
    case 40 => t == 14
    case 41 => AfterValue(p, t)
    case _ => true
  }

  // Terminal t may come where rule r, started in p, has j symbols behind it.
  predicate Follows(p: nat, r: nat, j: nat, t: nat)
    requires 1 < r < RULES && j <= |Rhs(r)|
    decreases |Rhs(r)| - j
  {
    if j == |Rhs(r)| then Look(p, YyR1(r), t)
    else First(Rhs(r)[j], t) || (Nullable(Rhs(r)[j]) && Follows(p, r, j + 1, t))
  }

  // What follows a nonterminal inside rule r is an allowed lookahead for it.
  lemma LookStep(p: nat, r: nat, i: nat, t: nat)
    requires p < STATES && 1 < r < RULES && i < |Rhs(r)| && Rhs(r)[i] >= TERMINALS
    requires Expected(p, YyR1(r)) && Follows(p, r, i + 1, t) && 0 <= Mid(p, r, i)
    ensures Look(Mid(p, r, i), Rhs(r)[i], t)
  {
    hide Look, Mid, Target, First;
    if r == 12 { LookSetting(p, i, t); }
    else if r < 17 { LookLow(p, r, i, t); }
    else if r < 20 { LookValue(p, r, i, t); }
    else if r < 31 { LookUnit(p, r, i, t); }
    else if r < 35 { LookList(p, r, i, t); }
    else { LookArray(p, r, i, t); }
  }

  lemma LookSetting(p: nat, i: nat, t: nat)
    requires p < STATES && i < |Rhs(12)| && Rhs(12)[i] >= TERMINALS
    requires Expected(p, YyR1(12)) && Follows(p, 12, i + 1, t) && 0 <= Mid(p, 12, i)
    ensures Look(Mid(p, 12, i), Rhs(12)[i], t)
  {
  }

  lemma LookLow(p: nat, r: nat, i: nat, t: nat)
    requires p < STATES && 1 < r < RULES && i < |Rhs(r)| && Rhs(r)[i] >= TERMINALS && r < 17 && r != 12
    requires Expected(p, YyR1(r)) && Follows(p, r, i + 1, t) && 0 <= Mid(p, r, i)
    ensures Look(Mid(p, r, i), Rhs(r)[i], t)
  {
  }

  lemma LookValue(p: nat, r: nat, i: nat, t: nat)
    requires p < STATES && 1 < r < RULES && i < |Rhs(r)| && Rhs(r)[i] >= TERMINALS && 17 <= r < 20
    requires Expected(p, YyR1(r)) && Follows(p, r, i + 1, t) && 0 <= Mid(p, r, i)
    ensures Look(Mid(p, r, i), Rhs(r)[i], t)
  {
  }

  lemma LookUnit(p: nat, r: nat, i: nat, t: nat)
    requires p < STATES && 1 < r < RULES && i < |Rhs(r)| && Rhs(r)[i] >= TERMINALS && 20 <= r < 31
    requires Expected(p, YyR1(r)) && Follows(p, r, i + 1, t) && 0 <= Mid(p, r, i)
    ensures Look(Mid(p, r, i), Rhs(r)[i], t)
  {
  }

  lemma LookList(p: nat, r: nat, i: nat, t: nat)
    requires p < STATES && 1 < r < RULES && i < |Rhs(r)| && Rhs(r)[i] >= TERMINALS && 31 <= r < 35
    requires Expected(p, YyR1(r)) && Follows(p, r, i + 1, t) && 0 <= Mid(p, r, i)
    ensures Look(Mid(p, r, i), Rhs(r)[i], t)
  {
  }

  lemma LookArray(p: nat, r: nat, i: nat, t: nat)
    requires p < STATES && 1 < r < RULES && i < |Rhs(r)| && Rhs(r)[i] >= TERMINALS && 35 <= r
    requires Expected(p, YyR1(r)) && Follows(p, r, i + 1, t) && 0 <= Mid(p, r, i)
    ensures Look(Mid(p, r, i), Rhs(r)[i], t)
  {
  }

  // At the end of rule r every allowed lookahead makes the driver reduce.
  lemma LookReduces(p: nat, r: nat, t: nat)
    requires p < STATES && 1 < r < RULES && t < TERMINALS
    requires Expected(p, YyR1(r)) && Look(p, YyR1(r), t) && 0 <= Mid(p, r, |Rhs(r)|) < STATES
    ensures Decide(Mid(p, r, |Rhs(r)|), t) == Reduce(r)
  {
    hide Look, Mid, Target, Decide;
    if r < 13 { ReducesLow(p, r, t); }
    else if r < 22 { ReducesMid(p, r, t); }
    else if r < 30 { ReducesScalar(p, r, t); }
    else if r < 35 { ReducesList(p, r, t); }
    else { ReducesArray(p, r, t); }
  }

  lemma ReducesLow(p: nat, r: nat, t: nat)
    requires p < STATES && 1 < r < RULES && t < TERMINALS && r < 13
    requires Expected(p, YyR1(r)) && Look(p, YyR1(r), t) && 0 <= Mid(p, r, |Rhs(r)|) < STATES
    ensures Decide(Mid(p, r, |Rhs(r)|), t) == Reduce(r)
  {
  }

  lemma ReducesMid(p: nat, r: nat, t: nat)
    requires p < STATES && 1 < r < RULES && t < TERMINALS && 13 <= r < 22
    requires Expected(p, YyR1(r)) && Look(p, YyR1(r), t) && 0 <= Mid(p, r, |Rhs(r)|) < STATES
    ensures Decide(Mid(p, r, |Rhs(r)|), t) == Reduce(r)
  {
    if r < 17 { ReducesBracket(p, r, t); } else { ReducesValue(p, r, t); }
  }

  lemma ReducesBracket(p: nat, r: nat, t: nat)
    requires p < STATES && 1 < r < RULES && t < TERMINALS && 13 <= r < 17
    requires Expected(p, YyR1(r)) && Look(p, YyR1(r), t) && 0 <= Mid(p, r, |Rhs(r)|) < STATES
    ensures Decide(Mid(p, r, |Rhs(r)|), t) == Reduce(r)
  {
  }

  lemma ReducesValue(p: nat, r: nat, t: nat)
    requires p < STATES && 1 < r < RULES && t < TERMINALS && 17 <= r < 22
    requires Expected(p, YyR1(r)) && Look(p, YyR1(r), t) && 0 <= Mid(p, r, |Rhs(r)|) < STATES
    ensures Decide(Mid(p, r, |Rhs(r)|), t) == Reduce(r)
  {
  }

  lemma ReducesScalar(p: nat, r: nat, t: nat)
    requires p < STATES && 1 < r < RULES && t < TERMINALS && 22 <= r < 30
    requires Expected(p, YyR1(r)) && Look(p, YyR1(r), t) && 0 <= Mid(p, r, |Rhs(r)|) < STATES
    ensures Decide(Mid(p, r, |Rhs(r)|), t) == Reduce(r)
  {
    if r < 26 { ReducesShort(p, r, t); } else { ReducesLong(p, r, t); }
  }

  lemma ReducesShort(p: nat, r: nat, t: nat)
    requires p < STATES && 1 < r < RULES && t < TERMINALS && 22 <= r < 26
    requires Expected(p, YyR1(r)) && Look(p, YyR1(r), t) && 0 <= Mid(p, r, |Rhs(r)|) < STATES
    ensures Decide(Mid(p, r, |Rhs(r)|), t) == Reduce(r)
  {
  }

  lemma ReducesLong(p: nat, r: nat, t: nat)
    requires p < STATES && 1 < r < RULES && t < TERMINALS && 26 <= r < 30
    requires Expected(p, YyR1(r)) && Look(p, YyR1(r), t) && 0 <= Mid(p, r, |Rhs(r)|) < STATES
    ensures Decide(Mid(p, r, |Rhs(r)|), t) == Reduce(r)
  {
  }

  lemma ReducesList(p: nat, r: nat, t: nat)
    requires p < STATES && 1 < r < RULES && t < TERMINALS && 30 <= r < 35
    requires Expected(p, YyR1(r)) && Look(p, YyR1(r), t) && 0 <= Mid(p, r, |Rhs(r)|) < STATES
    ensures Decide(Mid(p, r, |Rhs(r)|), t) == Reduce(r)
  {
  }

  lemma ReducesArray(p: nat, r: nat, t: nat)
    requires p < STATES && 1 < r < RULES && t < TERMINALS && 35 <= r
    requires Expected(p, YyR1(r)) && Look(p, YyR1(r), t) && 0 <= Mid(p, r, |Rhs(r)|) < STATES
    ensures Decide(Mid(p, r, |Rhs(r)|), t) == Reduce(r)
  {
  }
}
