/** Reading a configuration: the scanner, the parse context with its actions on the settings
    in memory, and the parser loop (scanner.c, grammar.c, and config_read_string). */
module ConfigReader {
  import opened ConfigData
  import opened ConfigScanner
  import opened ConfigHeap
  import opened ConfigSettings
  import opened ConfigTables
  import opened ConfigParser
  import opened ConfigSafety
  import ConfigDerivation
  import ConfigMeaning
  import opened ConfigRoundTrip

  class Scanner {
    var rest: string

    constructor (text: string)
      ensures rest == text
    {
      rest := text;
    }

    // yylex: the next token, or None at the end of the input.
    method NextToken() returns (t: Option<Token>)
      modifies this
      ensures t == None ==> Lex(old(rest)) == [] == Lex(rest)
      ensures t.Some? ==> Lex(old(rest)) == [t.value] + Lex(rest)
      ensures |rest| <= |old(rest)|
    {
      var mode := InInitial;
      while rest != ""
        invariant Tokens(rest, mode) == Lex(old(rest)) && |rest| <= |old(rest)|
        decreases |rest|
      {
        match mode
        case InComment =>
          if |rest| > 1 && rest[..2] == "*/" {
            rest, mode := rest[2..], InInitial;
          } else {
            rest := rest[1..];
          }
        case InString(buf) =>
          if rest[0] == '\"' {
            rest := rest[1..];
            return Some(TString(buf));
          }
          var p := StringPiece(rest);
          rest, mode := rest[p.len..], InString(buf + p.text);
        case InInitial =>
          var m := Pick(rest);
          var text := rest[..m.len];
          rest := rest[m.len..];
          if m.rule == 1 {
            mode := InComment;
          } else if m.rule == 5 {
            mode := InString("");
          } else if m.rule != 21 && m.rule != 22 && m.rule != 40 {
            return Some(TokenOf(m.rule, text));
          }
      }
      return None;
    }
  }

  lemma GrownLoaded(nodes: seq<Node>, p: nat, name: Option<string>, a: Load, b: Load)
    requires p < |nodes|
    ensures Loaded(Grown(nodes, p, name, a), |nodes|, b) == Grown(nodes, p, name, b)
    ensures Grown(nodes, p, name, a)[|nodes|].load == a
  {
  }

  lemma LoadedTwice(nodes: seq<Node>, i: nat, a: Load, b: Load)
    requires i < |nodes|
    ensures Loaded(Loaded(nodes, i, a), i, b) == Loaded(nodes, i, b)
  {
  }

  class ParseContext {
    const config: Config
    var parent: int
    var setting: int
    var str: Option<string>
    // The open aggregates that parent and its ancestors stand for.
    ghost var ctx: Ctx

    ghost predicate Valid()
      reads this, config
    {
      && config.Valid() && 0 <= parent < |config.nodes| && OpenChain(config.nodes, parent)
      && config.nodes[parent].load.Aggregate?
      && ctx.frames == Frames(config.nodes, parent) && ctx.str == str
      && (ctx.unset ==>
            var e := config.nodes[parent].elems;
            && config.nodes[parent].load == Aggregate(Group)
            && e != [] && setting == e[|e| - 1]
            && config.nodes[setting].load == Untyped && config.nodes[setting].elems == [])
    }

    constructor (c: Config)
      requires c.Valid() && c.nodes == [Node(-1, None, Aggregate(Group), [])]
      ensures Valid() && config == c && ctx == InitialCtx()
    {
      config := c;
      parent, setting, str := 0, 0, None;
      ctx := InitialCtx();
      new;
      assert Frames(c.nodes, 0) == [Frame(None, Group, [])];
    }

    // Rule 11: a named setting.
    method Named(name: string) returns (ok: bool)
      requires Valid() && Top(ctx).kind == Group
      modifies this, config
      ensures ok <==> AddNamed(old(ctx), name).Some?
      ensures ok ==> Valid() && ctx == AddNamed(old(ctx), name).value
    {
      HasNamedIsMember(config.nodes, parent, name);
      GrownFrames(config.nodes, parent, Some(name), Untyped);
      setting := config.Add(parent, Some(name), Untyped);
      ok := setting != -1;
      if ok {
        ctx := AddNamed(ctx, name).value;
      }
    }

    // An aggregate begins as a new element of a list.
    method BeginElement(k: Kind)
      requires Valid() && Top(ctx).kind == List
      modifies this, config
      ensures Open(old(ctx), k).Some? && Valid() && ctx == Open(old(ctx), k).value
    {
      hide OuterFrames, Tree, OpenChain, Trees;
      GrownOpens(config.nodes, parent, k);
      parent := config.Add(parent, None, Aggregate(k));
      ctx := Open(ctx, k).value;
    }

    // An aggregate begins as the value of the setting just named.
    method BeginValue(k: Kind)
      requires Valid() && SettingPending(ctx)
      modifies this, config
      ensures Open(old(ctx), k).Some? && Valid() && ctx == Open(old(ctx), k).value
    {
      hide OuterFrames, Tree, OpenChain;
      LastChild(config.nodes, parent);
      LoadedOpens(config.nodes, parent, k);
      config.SetType(setting, k);
      parent := setting;
      setting := -1;
      ctx := Open(ctx, k).value;
    }

    // Rules 13, 15 and 38: an aggregate begins.
    method Begin(k: Kind) returns (ok: bool)
      requires Valid() && (Top(ctx).kind == List || SettingPending(ctx))
      modifies this, config
      ensures ok && Open(old(ctx), k).Some? && Valid() && ctx == Open(old(ctx), k).value
    {
      if config.nodes[parent].load == Aggregate(List) {
        BeginElement(k);
      } else {
        BeginValue(k);
      }
      ok := true;
    }

    // Rules 14, 16 and 39: an aggregate ends.
    method End() returns (ok: bool)
      requires Valid() && |ctx.frames| >= 2
      modifies this
      ensures ok && Close(old(ctx)).Some? && Valid() && ctx == Close(old(ctx)).value
    {
      ChainDepth(config.nodes, parent);
      ClosedFrames(config.nodes, parent);
      if parent != -1 {
        parent := config.nodes[parent].parent;
      }
      ctx := Close(ctx).value;
      ok := true;
    }

    // A scalar inside an array or list.
    method Element(v: Load) returns (ok: bool)
      requires Valid() && IsSettable(v) && Top(ctx).kind != Group
      modifies this, config
      ensures ok <==> Put(old(ctx), v).Some?
      ensures ok ==> Valid() && ctx == Put(old(ctx), v).value
    {
      hide OuterFrames, Tree, Trees, OpenChain;
      StoredFresh(v);
      ghost var was := config.nodes;
      FirstElem(was, parent);
      GrownFrames(was, parent, None, v);
      var e := config.AppendElem(parent, v);
      if e == -1 { return false; }
      GrownLoaded(was, parent, None, Stored(Zero(v), v).value, v);
      if v.Int? || v.Int64? {
        var formatted := config.SetFormat(e, v.fmt);
      }
      assert config.nodes == Grown(was, parent, None, v);
      ctx := Put(ctx, v).value;
      ok := true;
    }

    // A scalar as the value of the setting just named.
    method Value(v: Load) returns (ok: bool)
      requires Valid() && IsSettable(v) && SettingPending(ctx)
      modifies this, config
      ensures ok && Put(old(ctx), v).Some? && Valid() && ctx == Put(old(ctx), v).value
    {
      hide OuterFrames, Tree, OpenChain;
      StoredFresh(v);
      ghost var was := config.nodes;
      LastChild(was, parent);
      LoadedFrames(was, parent, v);
      LoadedTwice(was, setting, Stored(Untyped, v).value, v);
      var stored := config.Set(setting, v);
      if v.Int? || v.Int64? {
        var formatted := config.SetFormat(setting, v.fmt);
      }
      assert config.nodes == Loaded(was, setting, v);
      ctx := Put(ctx, v).value;
      ok := true;
    }

    // Rules 23 to 29: a scalar.
    method Scalar(v: Load) returns (ok: bool)
      requires Valid() && IsSettable(v) && (Top(ctx).kind != Group || SettingPending(ctx))
      modifies this, config
      ensures ok <==> Put(old(ctx), v).Some?
      ensures ok ==> Valid() && ctx == Put(old(ctx), v).value
    {
      if config.nodes[parent].load == Aggregate(Array) || config.nodes[parent].load == Aggregate(List) {
        ok := Element(v);
      } else {
        ok := Value(v);
      }
    }

    // The semantic action of a rule.
    method Action(r: nat, v: Token) returns (ok: bool)
      requires Valid() && Usable(r, v, ctx)
      modifies this, config
      ensures ok <==> Act(r, v, old(ctx)).Some?
      ensures ok ==> Valid() && ctx == Act(r, v, old(ctx)).value
    {
      hide Put, Open, Close, AddNamed;
      match r
      case 11 => ok := Named(v.text);
      case 13 => ok := Begin(Array);
      case 15 => ok := Begin(List);
      case 38 => ok := Begin(Group);
      case 14 => ok := End();
      case 16 => ok := End();
      case 39 => ok := End();
      case 21 => ok := Text(v.text);
      case 22 => ok := Text(v.text);
      case 29 =>
        var s := str;
        str, ctx := None, ctx.(str := None);
        ok := Scalar(Str(s));
      case _ =>
        if 23 <= r <= 28 {
          ok := Scalar(LoadOf(v));
        } else {
          ok := true;
        }
    }

    method Text(s: string) returns (ok: bool)
      requires Valid()
      modifies this
      ensures ok && Valid() && ctx == Collect(old(ctx), s)
    {
      str := Some((if str.Some? then str.value else "") + s);
      ctx := Collect(ctx, s);
      ok := true;
    }
  }

  lemma ChainDepth(nodes: seq<Node>, p: nat)
    requires Wf(nodes) && p < |nodes| && OpenChain(nodes, p)
    ensures |Frames(nodes, p)| >= 2 <==> p > 0
  {
  }

  // The last child of p as the frame of p shows it.
  lemma LastChild(nodes: seq<Node>, p: nat)
    requires Wf(nodes) && p < |nodes| && OpenChain(nodes, p) && nodes[p].elems != []
    requires var s := nodes[p].elems[|nodes[p].elems| - 1]; nodes[s].elems == []
    ensures var d := LastFrame(Frames(nodes, p)).done; var s := nodes[p].elems[|nodes[p].elems| - 1];
      |d| == |nodes[p].elems| && d[|d| - 1] == Setting(nodes[s].name, nodes[s].load, [])
  {
    var s := nodes[p].elems[|nodes[p].elems| - 1];
    assert Tree(nodes, s).elems == [];
  }

  // The children of p as the frame of p shows them.
  lemma FirstElem(nodes: seq<Node>, p: nat)
    requires Wf(nodes) && p < |nodes| && OpenChain(nodes, p)
    ensures var d := LastFrame(Frames(nodes, p)).done;
      |d| == |nodes[p].elems| && (d != [] ==> d[0].load == nodes[nodes[p].elems[0]].load)
  {
  }

  // ---------- The parser loop ----------

  // yychar: no lookahead read yet, the end of the input, or a token.
  datatype Lookahead = Empty | End | Next(tok: Token)

  // The tokens still to be parsed.
  function Remaining(la: Lookahead, rest: string): seq<Token>
  {
    match la
    case Empty => Lex(rest)
    case End => []
    case Next(tok) => [tok] + Lex(rest)
  }

  function LookaheadCode(la: Lookahead): (t: nat)
    ensures t < TERMINALS
  {
    if la.Next? then Code(la.tok) else 0
  }

  // States without a row in the table reduce whatever comes next.
  lemma ConsistentState(s: nat, t: nat)
    requires s < STATES && t < TERMINALS && YyPact(s) == PACT_NINF
    ensures Decide(s, t) == DefaultMove(s)
  {
  }

  const INITIAL_DEPTH: nat := 200

  lemma StepShift(p: PState, q: nat, v: Token, input: seq<Token>)
    requires Good(p) && Consistent(p) && |p.states| < MAX_DEPTH && TopState(p) != FINAL
    requires Decide(TopState(p), Peek(input)) == Shift(q) && v == if input == [] then TError else input[0]
    requires q < STATES && Edge(TopState(p), q) && YyStos(q) == Peek(input)
    ensures Good(Shifted(p, q, v)) && Consistent(Shifted(p, q, v))
    ensures input != [] ==> Run(p, input) == Run(Shifted(p, q, v), input[1..])
    ensures input == [] ==> Run(p, input) == Run(Shifted(p, q, v), []) && Rank(q) + 8 < Rank(TopState(p))
  {
    hide YyStos, Edge, Rank, Decide;
    if input == [] { EndShift(TopState(p)); }
    ShiftConsistent(p, q, v, Peek(input));
  }

  lemma StepReduce(p: PState, r: nat, c: Ctx, input: seq<Token>)
    requires Good(p) && Consistent(p) && |p.states| < MAX_DEPTH && TopState(p) != FINAL
    requires Decide(TopState(p), Peek(input)) == Reduce(r)
    requires Act(r, TopVal(p), p.ctx) == Some(c)
    ensures r == YyDefact(TopState(p)) && 1 < r < RULES && Reducible(p.states, r)
    ensures Good(Reduced(p, r, c)) && Consistent(Reduced(p, r, c))
    ensures Run(p, input) == Run(Reduced(p, r, c), input)
    ensures 8 * |Reduced(p, r, c).states| + Rank(TopState(Reduced(p, r, c))) < 8 * |p.states| + Rank(TopState(p))
  {
    hide YyStos, Edge, Rank, Decide, Act, YyDefact, YyR1, YyR2, Goto, Rhs, Consistent;
    DefaultReduces(TopState(p), Peek(input));
    ReduceMatches(p.states);
    ReducedGood(p, r, c);
    ReduceConsistent(p, r, c);
  }

  lemma StepFails(p: PState, input: seq<Token>)
    requires Good(p) && TopState(p) != FINAL
    requires var m := Decide(TopState(p), Peek(input));
      m.Error? || (m.Reduce? && Act(m.rule, TopVal(p), p.ctx) == None)
    ensures Run(p, input) == None
  {
    hide Decide, Act;
  }

  lemma StepAccepts(p: PState, input: seq<Token>)
    requires Good(p) && |p.states| < MAX_DEPTH && TopState(p) == FINAL
    ensures Run(p, input) == Some(p.ctx)
  {
  }

  // The parser with its stacks: yyss, yyvs, yystacksize and yychar.
  class Parser {
    const sc: Scanner
    const pc: ParseContext
    var states: seq<nat>
    var vals: seq<Token>
    var depth: nat
    var la: Lookahead

    ghost predicate Valid()
      reads this, sc, pc, pc.config
    {
      && pc.Valid() && Good(State()) && Consistent(State()) && |states| <= depth <= MAX_DEPTH
      && (la == End ==> Lex(sc.rest) == [])
    }

    ghost function State(): PState
      reads this, pc
    {
      PState(states, vals, pc.ctx)
    }

    ghost function Input(): seq<Token>
      reads this, sc
    {
      Remaining(la, sc.rest)
    }

    ghost function Outcome(): Option<Ctx>
      requires Valid()
      reads this, sc, pc, pc.config
    {
      Run(State(), Input())
    }

    ghost function Weight(): int
      requires Valid()
      reads this, sc, pc, pc.config
    {
      8 * |states| + Rank(states[|states| - 1])
    }

    constructor (s: Scanner, p: ParseContext)
      requires p.Valid() && p.ctx == InitialCtx()
      ensures sc == s && pc == p && Valid() && State() == Initial() && Input() == Lex(s.rest)
    {
      sc, pc := s, p;
      states, vals, depth, la := [0], [TError], INITIAL_DEPTH, Empty;
      InitialConsistent();
    }

    // yysetstate: the stacks grow up to their limit.
    method MakeRoom() returns (ok: bool)
      requires Valid()
      modifies this`depth
      ensures Valid()
      ensures ok ==> |states| < depth
      ensures !ok ==> Outcome() == None
    {
      hide Consistent, Run, Lex;
      if depth <= |states| {
        if MAX_DEPTH <= depth {
          ConfigDerivation.RunExhausted(State(), Input());
          return false;
        }
        depth := if 2 * depth > MAX_DEPTH then MAX_DEPTH else 2 * depth;
      }
      return true;
    }

    // yybackup: choose a move, reading a lookahead only if the state needs one.
    method Choose() returns (move: Move)
      requires Valid()
      modifies this`la, sc
      ensures Valid() && State() == old(State()) && Input() == old(Input())
      ensures move == Decide(states[|states| - 1], Peek(Input()))
      ensures la == Empty ==> !move.Shift?
    {
      hide YyPact, YyTable, YyCheck, YyDefact, Consistent, Run, Lex;
      var s := states[|states| - 1];
      if YyPact(s) == PACT_NINF {
        ConsistentState(s, Peek(Input()));
        return DefaultMove(s);
      }
      if la == Empty {
        var t := sc.NextToken();
        la := if t.Some? then Next(t.value) else End;
      }
      return Decide(s, LookaheadCode(la));
    }

    // The lookahead goes onto the stack.
    method DoShift(q: nat)
      requires Valid() && |states| < depth && states[|states| - 1] != FINAL && la != Empty
      requires Decide(states[|states| - 1], Peek(Input())) == Shift(q)
      modifies this
      ensures Valid() && Outcome() == old(Outcome())
      ensures |Input()| < old(|Input()|) || (|Input()| == old(|Input()|) && Weight() < old(Weight()))
    {
      hide Decide, Run, Consistent, Edge, YyStos, Rank, Lex;
      ghost var p, input := State(), Input();
      ShiftFollowsEdge(states[|states| - 1], Peek(input));
      var v := if la.Next? then la.tok else TError;
      StepShift(p, q, v, input);
      states, vals := states + [q], vals + [v];
      la := Empty;
      assert State() == Shifted(p, q, v);
      assert Remaining(Empty, sc.rest) == if input == [] then [] else input[1..];
    }

    // The action of a rule, and its left-hand side instead of its right-hand side.
    method DoReduce(r: nat) returns (ok: bool)
      requires Valid() && |states| < depth && states[|states| - 1] != FINAL
      requires Decide(states[|states| - 1], Peek(Input())) == Reduce(r)
      modifies this, pc, pc.config
      ensures !ok ==> old(Outcome()) == None
      ensures ok ==> Valid() && Outcome() == old(Outcome()) && Input() == old(Input()) && Weight() < old(Weight())
    {
      hide Decide, Run, Consistent, Edge, YyStos, Rank, YyDefact, YyR1, YyR2, Rhs, Goto, Act, Usable, Lex;
      ghost var p, input := State(), Input();
      DefaultReduces(states[|states| - 1], Peek(input));
      ReduceUsable(p, r);
      ok := pc.Action(r, vals[|vals| - 1]);
      if !ok {
        StepFails(p, input);
        return;
      }
      StepReduce(p, r, pc.ctx, input);
      RuleShape(r);
      var n := YyR2(r);
      var dollar := if n == 0 then TError else vals[|vals| - n];
      states, vals := states[..|states| - n], vals[..|vals| - n];
      states, vals := states + [Goto(states[|states| - 1], YyR1(r))], vals + [dollar];
      assert State() == Reduced(p, r, pc.ctx);
    }
  
    // yyparse: 0 when the input is accepted, 1 for a syntax error or an abandoned action,
    // 2 when the stack is exhausted.
    method YyParse() returns (result: nat)
      requires Valid()
      modifies this, sc, pc, pc.config
      ensures result == 0 <==> old(Outcome()).Some?
      ensures result == 0 ==> pc.Valid() && old(Outcome()) == Some(pc.ctx)
    {
      hide Run, Consistent, Edge, Lex, Decide, Rank;
      ghost var goal := Outcome();
      while true
        invariant Valid() && Outcome() == goal
        decreases |Input()|, Weight()
      {
        var room := MakeRoom();
        if !room { return 2; }
        if states[|states| - 1] == FINAL {
          StepAccepts(State(), Input());
          return 0;
        }
        var move := Choose();
        match move
        case Error =>
          StepFails(State(), Input());
          return 1;
        case Shift(q) =>
          DoShift(q);
        case Reduce(r) =>
          var ok := DoReduce(r);
          if !ok { return 1; }
      }
    }
  }

  // config_read_string: the settings a text describes, with the root at record 0. When
  // reading fails, nothing is said about the settings read before the error.
  method ReadString(text: string) returns (ok: bool, config: Config)
    ensures fresh(config)
    ensures ok <==> Read(text).Some?
    ensures ok ==> config.Valid() && Read(text) == Some(Tree(config.nodes, 0))
  {
    hide Lex, Run;
    config := new Config();
    var pc := new ParseContext(config);
    var sc := new Scanner(text);
    var parser := new Parser(sc, pc);
    var result := parser.YyParse();
    ok := result == 0;
    if ok {
      ConfigMeaning.ParsedTreeWellFormed(Lex(text), pc.ctx);
      ParsedRoot(Lex(text), pc.ctx);
      ChainDepth(config.nodes, pc.parent);
    }
  }

  // Parsing ends at the root.
  lemma ParsedRoot(input: seq<Token>, c: Ctx)
    requires ConfigDerivation.Parse(input) == Some(c)
    ensures |c.frames| == 1 && c.frames[0].name == None && c.frames[0].kind == Group
  {
    ConfigMeaning.ParserBuildsMeaning(input, c);
  }
}
