/** Derivation trees of the configuration grammar, what their semantic actions do, and the
    proof that the table-driven parser accepts exactly the derivations that fit its stack. */
module ConfigDerivation {
  import opened ConfigData
  import opened ConfigTables
  import opened ConfigParser

  datatype PTree = Leaf(tok: Token) | Node(rule: nat, kids: seq<PTree>)

  // t is a derivation of grammar symbol x.
  ghost predicate Derives(t: PTree, x: nat)
  {
    match t
    case Leaf(tok) => x == Code(tok)
    case Node(r, kids) =>
      && 1 < r < RULES && x == YyR1(r) && |kids| == |Rhs(r)|
      && forall i | 0 <= i < |kids| :: Derives(kids[i], Rhs(r)[i])
  }

  function Yield(t: PTree): seq<Token>
  {
    match t
    case Leaf(tok) => [tok]
    case Node(_, kids) => Yields(kids)
  }

  function Yields(ts: seq<PTree>): seq<Token>
  {
    if ts == [] then [] else Yields(ts[..|ts| - 1]) + Yield(ts[|ts| - 1])
  }

  // The semantic value of a tree's root: that of its first child.
  function Val(t: PTree): Token
  {
    match t
    case Leaf(tok) => tok
    case Node(_, kids) => if kids == [] then TError else Val(kids[0])
  }

  function LastVal(ts: seq<PTree>, prev: Token): Token
  {
    if ts == [] then prev else Val(ts[|ts| - 1])
  }

  // The semantic actions of a derivation, left to right; prev is the value to its left.
  function Exec(t: PTree, prev: Token, c: Ctx): Option<Ctx>
  {
    match t
    case Leaf(_) => Some(c)
    case Node(r, kids) =>
      match ExecAll(kids, prev, c)
      case None => None
      case Some(d) => Act(r, LastVal(kids, prev), d)
  }

  function ExecAll(ts: seq<PTree>, prev: Token, c: Ctx): Option<Ctx>
  {
    if ts == [] then Some(c)
    else
      var front := ts[..|ts| - 1];
      match ExecAll(front, prev, c)
      case None => None
      case Some(d) => Exec(ts[|ts| - 1], LastVal(front, prev), d)
  }

  function Max(a: nat, b: nat): nat { if a < b then b else a }

  // How many stack slots the parser needs to recognise a derivation.
  function Need(t: PTree): nat
  {
    match t
    case Leaf(_) => 1
    case Node(_, kids) => Max(1, NeedAll(kids))
  }

  function NeedAll(ts: seq<PTree>): nat
  {
    if ts == [] then 0 else Max(NeedAll(ts[..|ts| - 1]), |ts| - 1 + Need(ts[|ts| - 1]))
  }

  lemma YieldsConcat(a: seq<PTree>, b: seq<PTree>)
    ensures Yields(a + b) == Yields(a) + Yields(b)
  {
    if b == [] {
      assert a + b == a;
    } else {
      var n := |b| - 1;
      assert (a + b)[..|a + b| - 1] == a + b[..n];
      YieldsConcat(a, b[..n]);
      assert (Yields(a) + Yields(b[..n])) + Yield(b[n]) == Yields(a) + (Yields(b[..n]) + Yield(b[n]));
    }
  }

  lemma YieldsFirst(ts: seq<PTree>, i: nat)
    requires i < |ts|
    ensures Yields(ts[i..]) == Yield(ts[i]) + Yields(ts[i + 1..])
  {
    assert ts[i..] == [ts[i]] + ts[i + 1..];
    YieldsConcat([ts[i]], ts[i + 1..]);
    assert [ts[i]][..0] == [];
  }

  lemma ExecAllConcat(a: seq<PTree>, b: seq<PTree>, prev: Token, c: Ctx)
    ensures ExecAll(a + b, prev, c)
         == match ExecAll(a, prev, c) case None => None case Some(d) => ExecAll(b, LastVal(a, prev), d)
  {
    if b == [] {
      assert a + b == a;
    } else {
      var n := |b| - 1;
      assert (a + b)[..|a + b| - 1] == a + b[..n];
      ExecAllConcat(a, b[..n], prev, c);
    }
  }

  // ---------- First sets ----------

  lemma FirstOfYield(t: PTree, x: nat)
    requires Derives(t, x)
    ensures if Yield(t) == [] then Nullable(x) else First(x, Code(Yield(t)[0]))
  {
    match t
    case Leaf(tok) =>
    case Node(r, kids) =>
      FirstOfKids(r, kids, 0);
      if Yield(t) == [] { NullableClosed(r); }
      assert kids[0..] == kids;
  }

  lemma FirstOfKids(r: nat, kids: seq<PTree>, i: nat)
    requires 1 < r < RULES && |kids| == |Rhs(r)| && i <= |kids|
    requires forall k | 0 <= k < |kids| :: Derives(kids[k], Rhs(r)[k])
    requires forall k | 0 <= k < i :: Nullable(Rhs(r)[k])
    ensures if Yields(kids[i..]) == [] then forall k | 0 <= k < |kids| :: Nullable(Rhs(r)[k])
            else First(YyR1(r), Code(Yields(kids[i..])[0]))
    decreases kids, |kids| - i
  {
    hide Rhs, YyR1, Nullable, First;
    if i < |kids| {
      YieldsFirst(kids, i);
      FirstOfYield(kids[i], Rhs(r)[i]);
      if Yield(kids[i]) == [] {
        FirstOfKids(r, kids, i + 1);
      } else {
        FirstClosed(r, i, Code(Yield(kids[i])[0]));
      }
    }
  }

  // The lookahead before the remaining symbols of a rule.
  lemma PeekFollows(p: nat, r: nat, kids: seq<PTree>, j: nat, rest: seq<Token>)
    requires 1 < r < RULES && |kids| == |Rhs(r)| && j <= |kids|
    requires forall k | 0 <= k < |kids| :: Derives(kids[k], Rhs(r)[k])
    requires Look(p, YyR1(r), Peek(rest))
    ensures Follows(p, r, j, Peek(Yields(kids[j..]) + rest))
    decreases |kids| - j
  {
    hide Rhs, YyR1, Nullable, First, Look;
    if j == |kids| {
      assert kids[j..] == [];
      assert Yields(kids[j..]) + rest == rest;
    } else {
      YieldsFirst(kids, j);
      FirstOfYield(kids[j], Rhs(r)[j]);
      if Yield(kids[j]) == [] {
        PeekFollows(p, r, kids, j + 1, rest);
        assert Yields(kids[j..]) == Yields(kids[j + 1..]);
      }
    }
  }

  // ---------- Completeness ----------

  function Fits(p: PState, n: nat): bool { |p.states| + n < MAX_DEPTH }

  // Parsing t from p: the symbol derived by t is pushed, unless the stack is exhausted
  // or an action gives up.
  function After(p: PState, t: PTree, x: nat, rest: seq<Token>): Option<Ctx>
    requires Good(p) && x < SYMBOLS && Expected(TopState(p), x)
  {
    if !Fits(p, Need(t)) then None
    else match Exec(t, TopVal(p), p.ctx)
      case None => None
      case Some(c) =>
        StepGood(p, x, Val(t), c);
        Run(Pushed(p, Target(TopState(p), x), Val(t), c), rest)
  }

  lemma StepGood(p: PState, x: nat, v: Token, c: Ctx)
    requires Good(p) && x < SYMBOLS && Expected(TopState(p), x)
    ensures Target(TopState(p), x) < STATES && Good(Pushed(p, Target(TopState(p), x), v, c))
  {
    hide Target, Edge;
    SymbolKinds(TopState(p), x);
    if x < TERMINALS { TargetShifts(TopState(p), x); } else { TargetGoes(TopState(p), x); }
  }

  // The start symbol of the augmented grammar is never expected, nor is anything after the end.
  lemma SymbolKinds(s: nat, x: nat)
    requires Expected(s, x)
    ensures x < TERMINALS || TERMINALS < x < SYMBOLS
    ensures s != FINAL
  {
  }

  function MidState(s: nat, r: nat, i: nat): nat
    requires 1 < r < RULES && i <= |Rhs(r)|
  {
    if Mid(s, r, i) < 0 then 0 else Mid(s, r, i)
  }

  // The parser state after the first i symbols of rule r, begun in p.
  function Advanced(p: PState, r: nat, kids: seq<PTree>, i: nat, c: Ctx): PState
    requires Good(p) && 1 < r < RULES && i <= |kids| == |Rhs(r)|
  {
    PState(p.states + seq(i, (j: nat) requires j < i => MidState(TopState(p), r, j + 1)),
           p.vals + seq(i, (j: nat) requires j < i => Val(kids[j])), c)
  }

  ghost predicate RuleInstance(p: PState, r: nat, kids: seq<PTree>, rest: seq<Token>)
    requires Good(p)
  {
    && 1 < r < RULES && |kids| == |Rhs(r)|
    && (forall k | 0 <= k < |kids| :: Derives(kids[k], Rhs(r)[k]))
    && Expected(TopState(p), YyR1(r)) && Look(TopState(p), YyR1(r), Peek(rest))
  }

  lemma AdvancedPushed(p: PState, r: nat, kids: seq<PTree>, i: nat, c: Ctx, d: Ctx)
    requires Good(p) && 1 < r < RULES && i < |kids| == |Rhs(r)| && 0 <= Mid(TopState(p), r, i + 1)
    ensures Pushed(Advanced(p, r, kids, i, c), Mid(TopState(p), r, i + 1), Val(kids[i]), d)
         == Advanced(p, r, kids, i + 1, d)
  {
    hide Rhs, Mid, Edge, Val;
  }

  lemma AdvanceStep(p: PState, r: nat, kids: seq<PTree>, i: nat, c: Ctx, d: Ctx, rest: seq<Token>)
    requires Good(p) && RuleInstance(p, r, kids, rest) && i < |kids| && Good(Advanced(p, r, kids, i, c))
    ensures var q := Advanced(p, r, kids, i, c);
      && TopState(q) == Mid(TopState(p), r, i) && TopVal(q) == LastVal(kids[..i], TopVal(p))
      && Rhs(r)[i] < SYMBOLS && Expected(TopState(q), Rhs(r)[i])
      && (Rhs(r)[i] >= TERMINALS ==> Look(TopState(q), Rhs(r)[i], Peek(Yields(kids[i + 1..]) + rest)))
      && Pushed(q, Target(TopState(q), Rhs(r)[i]), Val(kids[i]), d) == Advanced(p, r, kids, i + 1, d)
      && Good(Advanced(p, r, kids, i + 1, d))
  {
    hide Rhs, YyR1, Target, Look, Edge, First, Nullable, Follows, Derives, Yields;
    var s := TopState(p);
    var q := Advanced(p, r, kids, i, c);
    MidStep(s, r, i);
    assert Mid(s, r, 0) == s;
    hide Mid;
    AdvancedPushed(p, r, kids, i, c, d);
    PeekFollows(s, r, kids, i + 1, rest);
    if Rhs(r)[i] >= TERMINALS { LookStep(s, r, i, Peek(Yields(kids[i + 1..]) + rest)); }
    StepGood(q, Rhs(r)[i], Val(kids[i]), d);
  }

  // Parsing from p when the first i children of a rule instance have been recognised.
  function AfterKids(p: PState, r: nat, kids: seq<PTree>, i: nat, rest: seq<Token>): Option<Ctx>
    requires Good(p) && 1 < r < RULES && i <= |kids| == |Rhs(r)| && Good(Advanced(p, r, kids, i, p.ctx))
  {
    if !Fits(p, NeedAll(kids[..i])) then None
    else match ExecAll(kids[..i], TopVal(p), p.ctx)
      case None => None
      case Some(c) => Run(Advanced(p, r, kids, i, c), Yields(kids[i..]) + rest)
  }

  lemma TakeOne(kids: seq<PTree>, i: nat, prev: Token, c: Ctx)
    requires i < |kids|
    ensures NeedAll(kids[..i + 1]) == Max(NeedAll(kids[..i]), i + Need(kids[i]))
    ensures ExecAll(kids[..i + 1], prev, c)
         == match ExecAll(kids[..i], prev, c)
            case None => None
            case Some(d) => Exec(kids[i], LastVal(kids[..i], prev), d)
  {
    assert kids[..i + 1][..i] == kids[..i];
  }

  lemma {:induction false} CompleteKids(p: PState, r: nat, kids: seq<PTree>, i: nat, rest: seq<Token>)
    requires Good(p) && RuleInstance(p, r, kids, rest) && i <= |kids|
    ensures Good(Advanced(p, r, kids, i, p.ctx))
    ensures Run(p, Yields(kids) + rest) == AfterKids(p, r, kids, i, rest)
    decreases kids, i
  {
    hide Rhs, YyR1, Target, Look, Edge, First, Nullable, Mid, Follows, Run, Decide, Exec, ExecAll, MidState;
    if i == 0 {
      if |p.states| >= MAX_DEPTH { RunExhausted(p, Yields(kids) + rest); }
      ExecNothing(TopVal(p), p.ctx);
      assert kids[0..] == kids && kids[..0] == [];
      assert Advanced(p, r, kids, 0, p.ctx) == p;
    } else {
      var k := i - 1;
      CompleteKids(p, r, kids, k, rest);
      TakeOne(kids, k, TopVal(p), p.ctx);
      AdvanceStep(p, r, kids, k, p.ctx, p.ctx, rest);
      if Fits(p, NeedAll(kids[..k])) && ExecAll(kids[..k], TopVal(p), p.ctx).Some? {
        CompleteKid(p, r, kids, k, ExecAll(kids[..k], TopVal(p), p.ctx).value, rest);
      }
    }
  }

  // One more symbol, when those before it have been read.
  lemma {:induction false} CompleteKid(p: PState, r: nat, kids: seq<PTree>, k: nat, c: Ctx, rest: seq<Token>)
    requires Good(p) && RuleInstance(p, r, kids, rest) && k < |kids| && Good(Advanced(p, r, kids, k, p.ctx))
    requires Fits(p, NeedAll(kids[..k])) && ExecAll(kids[..k], TopVal(p), p.ctx) == Some(c)
    ensures Good(Advanced(p, r, kids, k + 1, p.ctx))
    ensures Run(Advanced(p, r, kids, k, c), Yields(kids[k..]) + rest) == AfterKids(p, r, kids, k + 1, rest)
    decreases kids, k
  {
    hide Rhs, YyR1, Target, Look, Edge, First, Nullable, Mid, Follows, Run, Decide, Exec, ExecAll, MidState;
    TakeOne(kids, k, TopVal(p), p.ctx);
    YieldsFirst(kids, k);
    var next := Yields(kids[k + 1..]) + rest;
    assert Yields(kids[k..]) + rest == Yield(kids[k]) + next;
    var q := Advanced(p, r, kids, k, c);
    AdvanceStep(p, r, kids, k, p.ctx, p.ctx, rest);
    AdvanceStep(p, r, kids, k, c, p.ctx, rest);
    Complete(q, kids[k], Rhs(r)[k], next);
    if Fits(q, Need(kids[k])) && Exec(kids[k], TopVal(q), c).Some? {
      AdvanceStep(p, r, kids, k, c, Exec(kids[k], TopVal(q), c).value, rest);
    }
  }

  // A reduction in the driver.
  lemma RunReduces(q: PState, r: nat, input: seq<Token>)
    requires Good(q) && |q.states| < MAX_DEPTH && TopState(q) != FINAL
    requires 1 < r < RULES && Decide(TopState(q), Peek(input)) == Reduce(r) && Reducible(q.states, r)
    ensures Run(q, input)
         == match Act(r, TopVal(q), q.ctx)
            case None => None
            case Some(d) => (ReducedGood(q, r, d); Run(Reduced(q, r, d), input))
  {
    hide Decide, Act, Reduced, Reducible;
  }

  // With all children on the stack, the driver reduces.
  lemma FinishDecides(p: PState, r: nat, kids: seq<PTree>, c: Ctx, rest: seq<Token>)
    requires Good(p) && RuleInstance(p, r, kids, rest) && Good(Advanced(p, r, kids, |kids|, c))
    ensures var q := Advanced(p, r, kids, |kids|, c);
      && TopVal(q) == LastVal(kids, TopVal(p)) && TopState(q) != FINAL
      && Decide(TopState(q), Peek(rest)) == Reduce(r) && Reducible(q.states, r)
  {
    var s := TopState(p);
    var q := Advanced(p, r, kids, |kids|, c);
    RuleShape(r);
    if |kids| > 0 { MidStep(s, r, |kids| - 1); }
    assert Mid(s, r, 0) == s;
    hide Rhs, YyR1, Target, Look, Edge, First, Nullable, Mid, Follows, Decide, YyDefact, Goto, YyR2, YyStos, Rank;
    assert TopState(q) == Mid(s, r, |kids|);
    LookReduces(s, r, Peek(rest));
    NotFinal(q, Peek(rest));
    DefaultReduces(TopState(q), Peek(rest));
    ReduceMatches(q.states);
  }

  // The reduction puts the left-hand side where the children stood.
  lemma FinishReduced(p: PState, r: nat, kids: seq<PTree>, c: Ctx, d: Ctx)
    requires Good(p) && 1 < r < RULES && |kids| == |Rhs(r)| && Good(Advanced(p, r, kids, |kids|, c))
    requires Expected(TopState(p), YyR1(r)) && Reducible(Advanced(p, r, kids, |kids|, c).states, r)
    ensures var q := Advanced(p, r, kids, |kids|, c);
      Reduced(q, r, d) == Pushed(p, Target(TopState(p), YyR1(r)), Val(Node(r, kids)), d)
  {
    hide Rhs, YyR1, Target, Edge, Mid, Goto, YyR2, YyStos;
    RuleShape(r);
    TargetGoes(TopState(p), YyR1(r));
    assert Popped(Advanced(p, r, kids, |kids|, c), |kids|) == PState(p.states, p.vals, c);
  }

  lemma FinishRule(p: PState, r: nat, kids: seq<PTree>, c: Ctx, rest: seq<Token>)
    requires Good(p) && RuleInstance(p, r, kids, rest) && Good(Advanced(p, r, kids, |kids|, c))
    requires |p.states| + |kids| < MAX_DEPTH
    ensures TopVal(Advanced(p, r, kids, |kids|, c)) == LastVal(kids, TopVal(p))
    ensures Run(Advanced(p, r, kids, |kids|, c), rest)
         == match Act(r, LastVal(kids, TopVal(p)), c)
            case None => None
            case Some(d) =>
              (StepGood(p, YyR1(r), Val(Node(r, kids)), d);
               Run(Pushed(p, Target(TopState(p), YyR1(r)), Val(Node(r, kids)), d), rest))
  {
    var q := Advanced(p, r, kids, |kids|, c);
    FinishDecides(p, r, kids, c, rest);
    hide Rhs, YyR1, Target, Look, Edge, Mid, Decide, Goto, YyR2, Act, YyStos, Rank, Run, Reduced, Reducible;
    RunReduces(q, r, rest);
    if Act(r, TopVal(q), c).Some? {
      FinishReduced(p, r, kids, c, Act(r, TopVal(q), c).value);
    }
  }

  lemma RunExhausted(p: PState, input: seq<Token>)
    requires Good(p) && |p.states| >= MAX_DEPTH
    ensures Run(p, input) == None
  {
  }

  lemma ExecNothing(prev: Token, c: Ctx)
    ensures ExecAll([], prev, c) == Some(c)
  {
  }

  lemma NotFinal(q: PState, t: nat)
    requires Good(q) && t < TERMINALS && Decide(TopState(q), t).Reduce? && Decide(TopState(q), t).rule != 1
    ensures TopState(q) != FINAL
  {
  }

  // Every derivation of x, read where x is expected, takes the parser to x's target.
  lemma {:induction false} Complete(p: PState, t: PTree, x: nat, rest: seq<Token>)
    requires Good(p) && x < SYMBOLS && Expected(TopState(p), x) && Derives(t, x)
    requires x >= TERMINALS ==> Look(TopState(p), x, Peek(rest))
    ensures Run(p, Yield(t) + rest) == After(p, t, x, rest)
    decreases t
  {
    hide Rhs, YyR1, Target, Look, Edge, First, Nullable, Mid, Follows, YyDefact, Goto, YyR2, Act;
    SymbolKinds(TopState(p), x);
    match t
    case Leaf(tok) =>
      TargetShifts(TopState(p), x);
      assert ([tok] + rest)[1..] == rest;
    case Node(r, kids) =>
      hide Decide, Run, ExecAll;
      RuleShape(r);
      CompleteKids(p, r, kids, |kids|, rest);
      assert kids[..|kids|] == kids && kids[|kids|..] == [];
      assert Yields(kids[|kids|..]) + rest == rest;
      NeedCovers(kids);
      if Fits(p, NeedAll(kids)) && ExecAll(kids, TopVal(p), p.ctx).Some? {
        var c := ExecAll(kids, TopVal(p), p.ctx).value;
        FinishRule(p, r, kids, c, rest);
        if Act(r, LastVal(kids, TopVal(p)), c).Some? {
          var d := Act(r, LastVal(kids, TopVal(p)), c).value;
          StepGood(p, YyR1(r), Val(t), d);
          if !Fits(p, 1) { RunExhausted(Pushed(p, Target(TopState(p), x), Val(t), d), rest); }
        }
      }
  }

  lemma NeedCovers(kids: seq<PTree>)
    ensures |kids| <= NeedAll(kids)
  {
    if kids != [] { NeedPositive(kids[|kids| - 1]); }
  }

  lemma NeedPositive(t: PTree)
    ensures Need(t) >= 1
  {
  }

  // ---------- Soundness ----------

  // The trees of the forest stand on the stack, one above the other.
  ghost predicate Aligned(states: seq<nat>, vals: seq<Token>, forest: seq<PTree>)
  {
    && |forest| + 1 == |states| == |vals|
    && (forall i | 0 < i < |states| ::
          states[i] < STATES && Derives(forest[i - 1], YyStos(states[i])) && vals[i] == Val(forest[i - 1]))
  }

  lemma AlignedPush(states: seq<nat>, vals: seq<Token>, forest: seq<PTree>, s: nat, t: PTree)
    requires Aligned(states, vals, forest) && s < STATES && Derives(t, YyStos(s))
    ensures Aligned(states + [s], vals + [Val(t)], forest + [t])
  {
    hide YyStos, Derives, Val;
  }

  // The trees recognised so far stand on the stack, and the context is the effect of
  // their actions.
  ghost predicate Recognised(p: PState, forest: seq<PTree>)
    requires Good(p)
  {
    && Aligned(p.states, p.vals, forest) && TopState(p) != FINAL && p.vals[0] == TError
    && ExecAll(forest, TError, InitialCtx()) == Some(p.ctx)
  }

  lemma TopValIsLast(p: PState, forest: seq<PTree>)
    requires Good(p) && Recognised(p, forest)
    ensures TopVal(p) == LastVal(forest, TError)
  {
  }

  lemma RecogniseLeaf(p: PState, forest: seq<PTree>, tok: Token, s: nat)
    requires Good(p) && Recognised(p, forest)
    requires s < STATES && s != FINAL && Edge(TopState(p), s) && YyStos(s) == Code(tok)
    ensures Recognised(Shifted(p, s, tok), forest + [Leaf(tok)])
    ensures Yields(forest + [Leaf(tok)]) == Yields(forest) + [tok]
  {
    hide YyStos, Edge;
    assert (forest + [Leaf(tok)])[..|forest|] == forest;
    AlignedPush(p.states, p.vals, forest, s, Leaf(tok));
    assert (forest + [Leaf(tok)])[|forest|] == Leaf(tok);
    assert Exec(Leaf(tok), LastVal(forest, TError), p.ctx) == Some(p.ctx);
  }

  // The trees of the symbols on top of the stack derive the right-hand side being reduced.
  lemma KidsDerive(p: PState, forest: seq<PTree>, r: nat, n: nat)
    requires Good(p) && Aligned(p.states, p.vals, forest) && 1 < r < RULES && Reducible(p.states, r)
    requires n == YyR2(r)
    ensures n <= |forest| && Derives(Node(r, forest[|forest| - n..]), YyR1(r))
  {
    hide YyStos, Edge, YyR1, YyR2, Rhs, Goto, Rank, Derives;
    RuleShape(r);
    var kids := forest[|forest| - n..];
    forall i | 0 <= i < n ensures Derives(kids[i], Rhs(r)[i]) {
      assert YyStos(p.states[|p.states| - n + i]) == Rhs(r)[i];
    }
    DerivesNode(r, kids);
  }

  lemma AlignedPop(p: PState, forest: seq<PTree>, n: nat)
    requires Good(p) && Aligned(p.states, p.vals, forest) && n <= |forest|
    ensures Aligned(Popped(p, n).states, Popped(p, n).vals, forest[..|forest| - n])
    ensures n > 0 ==> Dollar(p, n) == Val(forest[|forest| - n])
  {
    hide YyStos, Edge, Derives, Val;
  }

  // What a reduction pushes.
  lemma ReducedParts(p: PState, r: nat, c: Ctx) returns (g: nat)
    requires Good(p) && 1 < r < RULES && Reducible(p.states, r)
    ensures YyR2(r) < |p.states| && g < STATES && YyStos(g) == YyR1(r)
    ensures Reduced(p, r, c) == Pushed(Popped(p, YyR2(r)), g, Dollar(p, YyR2(r)), c)
  {
    hide YyStos, Edge, YyR1, YyR2, Rhs, Goto, Rank;
    RuleShape(r);
    g := Goto(p.states[|p.states| - YyR2(r) - 1], YyR1(r));
  }

  lemma Regroup(base: PState, front: seq<PTree>, node: PTree, g: nat, c: Ctx)
    requires |base.vals| > 0 && Aligned(base.states, base.vals, front) && base.vals[0] == TError
    requires g < STATES && Derives(node, YyStos(g)) && YyStos(g) > 0
    requires ExecAll(front + [node], TError, InitialCtx()) == Some(c)
    requires Good(Pushed(base, g, Val(node), c))
    ensures Recognised(Pushed(base, g, Val(node), c), front + [node])
  {
    hide YyStos, Edge, Derives, ExecAll, Aligned, Viable, Val;
    AlignedPush(base.states, base.vals, front, g, node);
    FinalUnreachable(Pushed(base, g, Val(node), c), YyStos(g));
  }

  lemma RecogniseNode(p: PState, forest: seq<PTree>, r: nat, c: Ctx) returns (grown: seq<PTree>)
    requires Good(p) && Recognised(p, forest) && 1 < r < RULES && Reducible(p.states, r)
    requires Act(r, TopVal(p), p.ctx) == Some(c) && Good(Reduced(p, r, c))
    ensures Recognised(Reduced(p, r, c), grown)
    ensures Yields(grown) == Yields(forest)
  {
    hide YyStos, Edge, YyR1, YyR2, Rhs, Act, Derives, ExecAll, Yields, Reduced, Reducible, Viable, Aligned, Val, Dollar;
    var n := YyR2(r);
    RuleShape(r);
    KidsDerive(p, forest, r, n);
    var front, kids := forest[..|forest| - n], forest[|forest| - n..];
    assert forest == front + kids;
    AlignedPop(p, forest, n);
    TopValIsLast(p, forest);
    NodeVal(p, forest, r, n);
    GrownEffect(front, r, kids, c, p.ctx, TopVal(p));
    grown := front + [Node(r, kids)];
    var g := ReducedParts(p, r, c);
    Regroup(Popped(p, n), front, Node(r, kids), g, c);
  }

  // The value a reduction pushes is that of its tree.
  lemma NodeVal(p: PState, forest: seq<PTree>, r: nat, n: nat)
    requires Good(p) && Aligned(p.states, p.vals, forest) && n <= |forest| && 1 < r < RULES && n == YyR2(r)
    ensures n <= |p.vals| && Dollar(p, n) == Val(Node(r, forest[|forest| - n..]))
    ensures |Popped(p, n).vals| > 0 && Popped(p, n).vals[0] == p.vals[0]
  {
    hide YyStos, Edge, Derives;
    AlignedPop(p, forest, n);
  }

  lemma DerivesNode(r: nat, kids: seq<PTree>)
    requires 1 < r < RULES && |kids| == |Rhs(r)| && forall i | 0 <= i < |kids| :: Derives(kids[i], Rhs(r)[i])
    ensures Derives(Node(r, kids), YyR1(r))
  {
  }

  // Grouping the last trees under a rule adds its action to their effect.
  lemma GrownEffect(front: seq<PTree>, r: nat, kids: seq<PTree>, c: Ctx, before: Ctx, v: Token)
    requires ExecAll(front + kids, TError, InitialCtx()) == Some(before)
    requires v == LastVal(front + kids, TError) && Act(r, v, before) == Some(c)
    ensures ExecAll(front + [Node(r, kids)], TError, InitialCtx()) == Some(c)
    ensures Yields(front + [Node(r, kids)]) == Yields(front + kids)
  {
    hide Act;
    var grown := front + [Node(r, kids)];
    assert grown[..|front|] == front;
    YieldsConcat(front, kids);
    ExecAllConcat(front, kids, TError, InitialCtx());
  }

  // The accepting state is entered only on the end of input.
  lemma FinalUnreachable(p: PState, x: nat)
    requires Good(p) && YyStos(TopState(p)) == x > 0
    ensures TopState(p) != FINAL
  {
  }

  // When the end of input is shifted, the stack holds one configuration.
  lemma AtEnd(p: PState)
    requires Good(p) && TopState(p) == 2
    ensures |p.states| == 2 && YyStos(2) == 24
  {
    assert |p.states| > 1 && Edge(p.states[|p.states| - 2], 2);
    assert |p.states| > 2 ==> Edge(p.states[|p.states| - 3], p.states[|p.states| - 2]);
  }

  ghost predicate Reduces(p: PState, input: seq<Token>, r: nat)
    requires Good(p)
  {
    && r == YyDefact(TopState(p)) && 1 < r < RULES && Reducible(p.states, r)
    && Act(r, TopVal(p), p.ctx).Some?
    && var q := Reduced(p, r, Act(r, TopVal(p), p.ctx).value);
       && Good(q) && Run(p, input) == Run(q, input)
       && 8 * |q.states| + Rank(TopState(q)) < 8 * |p.states| + Rank(TopState(p))
  }

  // What one step of a successful run is.
  lemma RunStep(p: PState, input: seq<Token>)
    requires Good(p) && TopState(p) != FINAL && Run(p, input).Some?
    ensures !Decide(TopState(p), Peek(input)).Error?
    ensures Decide(TopState(p), Peek(input)).Reduce? ==>
      Reduces(p, input, Decide(TopState(p), Peek(input)).rule)
    ensures Decide(TopState(p), Peek(input)).Shift? ==>
      var s := Decide(TopState(p), Peek(input)).target;
      && s < STATES && Edge(TopState(p), s) && YyStos(s) == Peek(input)
      && (input != [] ==> Run(p, input) == Run(Shifted(p, s, input[0]), input[1..]))
  {
    hide YyStos, Edge, YyDefact, YyR1, YyR2, Rhs, Goto, Rank, Act, Target, Look, YyPact, YyTable, YyCheck;
    match Decide(TopState(p), Peek(input))
    case Error =>
      assert false;
    case Reduce(r) =>
      DefaultReduces(TopState(p), Peek(input));
      ReduceMatches(p.states);
      ReducedGood(p, r, Act(r, TopVal(p), p.ctx).value);
    case Shift(s) =>
      ShiftFollowsEdge(TopState(p), Peek(input));
  }

  lemma {:induction false} Sound(p: PState, input: seq<Token>, forest: seq<PTree>) returns (t: PTree)
    requires Good(p) && Recognised(p, forest) && Run(p, input).Some?
    ensures Derives(t, 24) && Yield(t) == Yields(forest) + input
    ensures Exec(t, TError, InitialCtx()) == Run(p, input)
    decreases |input|, 8 * |p.states| + Rank(TopState(p))
  {
    hide YyStos, Edge, YyDefact, YyR1, YyR2, Rhs, Goto, Rank, Act, Target, Look, Run, Exec, ExecAll, Yields;
    RunStep(p, input);
    match Decide(TopState(p), Peek(input))
    case Reduce(r) =>
      hide Decide;
      var c := Act(r, TopVal(p), p.ctx).value;
      var grown := RecogniseNode(p, forest, r, c);
      t := Sound(Reduced(p, r, c), input, grown);
    case Shift(s) =>
      if input == [] {
        EndShift(TopState(p));
        AtEnd(p);
        FinishParse(p);
        t := forest[0];
        OneTree(forest);
      } else {
        hide Decide;
        ShiftedNotFinal(s, input[0]);
        RecogniseLeaf(p, forest, input[0], s);
        t := Sound(Shifted(p, s, input[0]), input[1..], forest + [Leaf(input[0])]);
        assert Yields(forest) + input == (Yields(forest) + [input[0]]) + input[1..];
      }
    case Error =>
      assert false;
  }

  lemma OneTree(forest: seq<PTree>)
    requires |forest| == 1
    ensures Yields(forest) == Yield(forest[0])
    ensures ExecAll(forest, TError, InitialCtx()) == Exec(forest[0], TError, InitialCtx())
  {
    assert forest[..0] == [];
    assert [] + Yield(forest[0]) == Yield(forest[0]);
  }

  lemma ShiftedNotFinal(s: nat, tok: Token)
    requires s < STATES && YyStos(s) == Code(tok)
    ensures s != FINAL
  {
  }

  // ---------- The parser decides the grammar ----------

  function Parse(input: seq<Token>): Option<Ctx> { Run(Initial(), input) }

  lemma ParseDerivation(t: PTree)
    requires Derives(t, 24)
    ensures Parse(Yield(t))
         == if Need(t) + 1 < MAX_DEPTH then Exec(t, TError, InitialCtx()) else None
  {
    var p := Initial();
    Complete(p, t, 24, []);
    assert Yield(t) + [] == Yield(t);
    if Need(t) + 1 < MAX_DEPTH && Exec(t, TError, InitialCtx()).Some? {
      var c := Exec(t, TError, InitialCtx()).value;
      StepGood(p, 24, Val(t), c);
      FinishParse(Pushed(p, 2, Val(t), c));
    }
  }

  lemma FinishParse(q: PState)
    requires Good(q) && q.states == [0, 2]
    ensures Run(q, []) == Some(q.ctx)
  {
    ShiftFollowsEdge(2, 0);
    assert Decide(2, 0) == Shift(6);
    var e := Shifted(q, 6, TError);
    assert Run(e, []) == Some(q.ctx);
  }

  // The parser accepts exactly the token sequences that have a derivation which fits the
  // stack and whose actions succeed, and ends with the effect of those actions.
  lemma ParserDecidesGrammar(input: seq<Token>, c: Ctx)
    ensures Parse(input) == Some(c)
       <==> exists t :: Derives(t, 24) && Yield(t) == input && Need(t) + 1 < MAX_DEPTH
                     && Exec(t, TError, InitialCtx()) == Some(c)
  {
    if Parse(input) == Some(c) {
      var t := Sound(Initial(), input, []);
      assert Yield(t) == input;
      ParseDerivation(t);
    }
    forall t | Derives(t, 24) && Yield(t) == input && Need(t) + 1 < MAX_DEPTH
            && Exec(t, TError, InitialCtx()) == Some(c)
      ensures Parse(input) == Some(c)
    {
      ParseDerivation(t);
    }
  }
}
