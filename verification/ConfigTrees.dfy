/** The derivation of a written configuration in the grammar. */
module ConfigTrees {
  import opened ConfigData
  import opened ConfigWriter
  import opened ConfigTables
  import opened ConfigParser
  import opened ConfigDerivation
  import opened ConfigMeaning
  import opened ConfigTokens

  // ---------- The derivation of a written tree ----------

  function ScalarRule(t: Token): nat
  {
    match t
    case TBool(_) => 23
    case TInt(_) => 24
    case TInt64(_) => 25
    case THex(_) => 26
    case THex64(_) => 27
    case TFloat(_) => 28
    case _ => 29
  }

  function ScalarTree(s: Setting, st: Style): PTree
  {
    var t := ScalarToken(s.load, st);
    if t.TString? then Node(29, [Node(21, [Leaf(t)])]) else Node(ScalarRule(t), [Leaf(t)])
  }

  function ValueTree(s: Setting, st: Style): PTree
    decreases s, 1
  {
    if !s.load.Aggregate? then Node(17, [ScalarTree(s, st)])
    else
      match s.load.kind
      case Group =>
        var body := if s.elems == [] then Node(6, []) else Node(7, [MembersTree(s.elems, st)]);
        Node(20, [Node(39, [Leaf(TGroupStart), Node(38, []), body, Leaf(TGroupEnd)])])
      case List =>
        var body := if s.elems == [] then Node(32, []) else Node(33, [ListTree(s.elems, st)]);
        Node(19, [Node(16, [Leaf(TListStart), Node(15, []), body, Leaf(TListEnd)])])
      case Array =>
        var body := if s.elems == [] then Node(36, []) else Node(37, [ArrayTree(s.elems, st)]);
        Node(18, [Node(14, [Leaf(TArrayStart), Node(13, []), body, Leaf(TArrayEnd)])])
  }

  function ListTree(es: seq<Setting>, st: Style): PTree
    requires es != []
    decreases es, 0
  {
    var last := ValueTree(es[|es| - 1], st);
    if |es| == 1 then Node(30, [last]) else Node(31, [ListTree(es[..|es| - 1], st), Leaf(TComma), last])
  }

  function ArrayTree(es: seq<Setting>, st: Style): PTree
    requires es != []
    decreases es, 0
  {
    var last := ScalarTree(es[|es| - 1], st);
    if |es| == 1 then Node(34, [last]) else Node(35, [ArrayTree(es[..|es| - 1], st), Leaf(TComma), last])
  }

  function MembersTree(es: seq<Setting>, st: Style): PTree
    requires es != []
    decreases es, 0
  {
    var last := SettingTree(es[|es| - 1], st);
    if |es| == 1 then Node(4, [last]) else Node(5, [MembersTree(es[..|es| - 1], st), last])
  }

  function SettingTree(s: Setting, st: Style): PTree
    decreases s, 2
  {
    Node(12, [Leaf(TName(if s.name.Some? then s.name.value else "")), Node(11, []), Leaf(TEquals), ValueTree(s, st),
              Node(9, [Leaf(TSemicolon)])])
  }

  function RootTree(es: seq<Setting>, st: Style): PTree
  {
    if es == [] then Node(2, []) else Node(3, [MembersTree(es, st)])
  }

  // ---------- The stack a tree needs ----------

  // The parser stack entries needed to read a value, the elements of a list, the members
  // of a group, and one setting.
  function ValueDepth(s: Setting): nat
    decreases s, 0
  {
    if !s.load.Aggregate? || s.elems == [] then (if s.load.Aggregate? then 4 else 1)
    else
      Max(4, 2 + match s.load.kind
                 case Group => MembersDepth(s.elems)
                 case List => ListDepth(s.elems)
                 case Array => if |s.elems| == 1 then 1 else 3)
  }

  function ListDepth(es: seq<Setting>): nat
    decreases es, 0
  {
    if es == [] then 0
    else if |es| == 1 then ValueDepth(es[0])
    else Max(ListDepth(es[..|es| - 1]), 2 + ValueDepth(es[|es| - 1]))
  }

  function MembersDepth(es: seq<Setting>): nat
    decreases es, 0
  {
    if es == [] then 0
    else if |es| == 1 then Max(5, 3 + ValueDepth(es[0]))
    else Max(MembersDepth(es[..|es| - 1]), 1 + Max(5, 3 + ValueDepth(es[|es| - 1])))
  }

  // The tree fits the parser's stack of 10000 entries.
  predicate Shallow(root: Setting) { Max(1, MembersDepth(root.elems)) + 1 < MAX_DEPTH }

  // ---------- The derivation is right ----------

  // t derives x, yields the tokens, means the settings, and needs so much stack.
  ghost predicate Represents(t: PTree, x: nat, tokens: seq<Token>, ns: seq<Setting>, need: nat)
  {
    Derives(t, x) && Yield(t) == tokens && Mean(t) == Some(ns) && Need(t) == need
  }

  lemma Yields1(kids: seq<PTree>)
    requires |kids| == 1
    ensures Yields(kids) == Yield(kids[0])
    ensures NeedAll(kids) == Need(kids[0])
  {
    assert kids[..0] == [];
    assert [] + Yield(kids[0]) == Yield(kids[0]);
  }

  lemma YieldsNext(kids: seq<PTree>)
    requires |kids| > 1
    ensures Yields(kids) == Yields(kids[..|kids| - 1]) + Yield(kids[|kids| - 1])
    ensures NeedAll(kids) == Max(NeedAll(kids[..|kids| - 1]), |kids| - 1 + Need(kids[|kids| - 1]))
  {
    hide Yield, Need, Max;
  }

  lemma ScalarTreeRight(s: Setting, st: Style)
    requires Printable(s) && !s.load.Aggregate?
    ensures Represents(ScalarTree(s, st), 36, [ScalarToken(s.load, st)], [Normal(s.(name := None), st)], 1)
  {
    var t := ScalarTree(s, st);
    var tok := ScalarToken(s.load, st);
    assert s.elems == [] && Normal(s.(name := None), st) == Setting(None, NormalLoad(s.load, st), []);
    Yields1(t.kids);
    if t.rule == 29 {
      var text := t.kids[0];
      Yields1(text.kids);
      assert TextOf(Leaf(tok)) == tok.text;
      assert Derives(Leaf(tok), 9);
      assert Derives(text, 35);
      assert Derives(t, 36);
    } else {
      ScalarLeaf(t.rule, tok);
    }
  }

  lemma ScalarLeaf(r: nat, tok: Token)
    requires 23 <= r <= 28 && r == ScalarRule(tok)
    ensures Derives(Node(r, [Leaf(tok)]), 36)
  {
    assert Derives(Leaf(tok), Rhs(r)[0]);
  }

  predicate UnitRule(r: nat)
  {
    r == 3 || r == 4 || r == 7 || 17 <= r <= 20 || r == 30 || r == 33 || r == 34 || r == 37
  }

  // A unit rule changes nothing but the symbol.
  lemma Wrap(r: nat, t: PTree, x: nat, tokens: seq<Token>, ns: seq<Setting>, need: nat)
    requires UnitRule(r) && x == Rhs(r)[0] && Represents(t, x, tokens, ns, need)
    ensures Represents(Node(r, [t]), YyR1(r), tokens, ns, Max(1, need))
  {
    hide YyR1;
    Yields1([t]);
    assert |Rhs(r)| == 1;
    assert Derives([t][0], Rhs(r)[0]);
  }

  lemma Empty(r: nat)
    requires r == 2 || r == 6 || r == 32 || r == 36
    ensures Represents(Node(r, []), YyR1(r), [], [], 1)
  {
  }

  // An opening token, its marker, a body and a closing token make an aggregate value.
  lemma Bracket(k: Kind, body: PTree, tokens: seq<Token>, ns: seq<Setting>, need: nat)
    requires var x := if k == Group then 26 else if k == List then 38 else 40; Represents(body, x, tokens, ns, need)
    ensures var r := if k == Group then 39 else if k == List then 16 else 14;
      var marker := if k == Group then 38 else if k == List then 15 else 13;
      Represents(Node(r, [Leaf(StartToken(k)), Node(marker, []), body, Leaf(EndToken(k))]), YyR1(r),
                 [StartToken(k)] + tokens + [EndToken(k)], [Setting(None, Aggregate(k), ns)], Max(4, 2 + need))
  {
    var r := if k == Group then 39 else if k == List then 16 else 14;
    var marker := if k == Group then 38 else if k == List then 15 else 13;
    var kids := [Leaf(StartToken(k)), Node(marker, []), body, Leaf(EndToken(k))];
    hide Derives, Mean, Yield, Yields, Need, NeedAll;
    BracketYield(kids);
    BracketDerives(k, r, marker, body);
    BracketMeans(r, kids);
    Leaves(StartToken(k), EndToken(k), marker, r, kids);
  }

  lemma Leaves(a: Token, b: Token, marker: nat, r: nat, kids: seq<PTree>)
    ensures Yield(Leaf(a)) == [a] && Need(Leaf(a)) == 1 && Yield(Leaf(b)) == [b] && Need(Leaf(b)) == 1
    ensures Yield(Node(marker, [])) == [] && Need(Node(marker, [])) == 1
    ensures Yield(Node(r, kids)) == Yields(kids) && Need(Node(r, kids)) == Max(1, NeedAll(kids))
  {
  }

  lemma BracketYield(kids: seq<PTree>)
    requires |kids| == 4
    ensures Yields(kids) == Yield(kids[0]) + Yield(kids[1]) + Yield(kids[2]) + Yield(kids[3])
    ensures NeedAll(kids)
         == Max(Max(Max(Need(kids[0]), 1 + Need(kids[1])), 2 + Need(kids[2])), 3 + Need(kids[3]))
  {
    hide Yield, Need;
    YieldsNext(kids);
    YieldsNext(kids[..3]);
    assert kids[..3][..2] == kids[..2];
    YieldsNext(kids[..2]);
    assert kids[..2][..1] == kids[..1];
    Yields1(kids[..1]);
  }

  lemma BracketDerives(k: Kind, r: nat, marker: nat, body: PTree)
    requires r == if k == Group then 39 else if k == List then 16 else 14
    requires marker == if k == Group then 38 else if k == List then 15 else 13
    requires Derives(body, if k == Group then 26 else if k == List then 38 else 40)
    ensures Derives(Node(r, [Leaf(StartToken(k)), Node(marker, []), body, Leaf(EndToken(k))]), YyR1(r))
  {
    match k
    case Group => GroupDerives(body);
    case List => ListDerives(body);
    case Array => ArrayDerives(body);
  }

  lemma GroupDerives(body: PTree)
    requires Derives(body, 26)
    ensures Derives(Node(39, [Leaf(TGroupStart), Node(38, []), body, Leaf(TGroupEnd)]), YyR1(39))
  {
    assert Derives(Node(38, []), 42);
  }

  lemma ListDerives(body: PTree)
    requires Derives(body, 38)
    ensures Derives(Node(16, [Leaf(TListStart), Node(15, []), body, Leaf(TListEnd)]), YyR1(16))
  {
    assert Derives(Node(15, []), 33);
  }

  lemma ArrayDerives(body: PTree)
    requires Derives(body, 40)
    ensures Derives(Node(14, [Leaf(TArrayStart), Node(13, []), body, Leaf(TArrayEnd)]), YyR1(14))
  {
    assert Derives(Node(13, []), 31);
  }

  lemma BracketMeans(r: nat, kids: seq<PTree>)
    requires (r == 14 || r == 16 || r == 39) && |kids| == 4 && Mean(kids[2]).Some?
    ensures Mean(Node(r, kids)) == Some([Setting(None, Aggregate(KindOf(r)), Mean(kids[2]).value)])
  {
  }

  // Three children: a sequence so far, a comma, and one more value.
  lemma Append(r: nat, a: PTree, x: nat, ta: seq<Token>, na: seq<Setting>, da: nat,
               b: PTree, y: nat, tb: seq<Token>, nb: Setting, db: nat)
    requires (r == 31 && x == 37 && y == 34) || (r == 35 && x == 39 && y == 36)
    requires Represents(a, x, ta, na, da) && Represents(b, y, tb, [nb], db) && da >= 1 && db >= 1
    requires r == 35 && na != [] ==> SameType(na[0].load, nb.load)
    ensures Represents(Node(r, [a, Leaf(TComma), b]), x, ta + [TComma] + tb, na + [nb], Max(da, 2 + db))
  {
    var kids := [a, Leaf(TComma), b];
    AppendDerives(r, a, x, b, y);
    hide Derives, SameType;
    YieldsNext(kids);
    assert kids[..2] == [a, Leaf(TComma)];
    YieldsNext(kids[..2]);
    assert kids[..2][..1] == [a];
    Yields1([a]);
  }

  lemma AppendDerives(r: nat, a: PTree, x: nat, b: PTree, y: nat)
    requires (r == 31 && x == 37 && y == 34) || (r == 35 && x == 39 && y == 36)
    requires Derives(a, x) && Derives(b, y)
    ensures Derives(Node(r, [a, Leaf(TComma), b]), x)
  {
    assert Derives(Leaf(TComma), 17);
  }

  lemma {:induction false} ValueTreeRight(s: Setting, st: Style)
    requires Printable(s) && PlainNames(s)
    ensures Represents(ValueTree(s, st), 34, ValueTokens(s, st), [Normal(s.(name := None), st)], ValueDepth(s))
    decreases s, 2
  {
    hide Represents;
    if !s.load.Aggregate? {
      ScalarTreeRight(s, st);
      Wrap(17, ScalarTree(s, st), 36, ValueTokens(s, st), [Normal(s.(name := None), st)], 1);
    } else if s.load.kind == Group {
      GroupTreeRight(s, st);
    } else {
      ListTreeRight(s, st);
    }
  }

  function BodyTokens(es: seq<Setting>, st: Style): seq<Token>
    requires es != []
  {
    ItemTokens(es[..|es| - 1], st) + ValueTokens(es[|es| - 1], st)
  }

  ghost predicate PlainItems(es: seq<Setting>)
  {
    Items(es) && Nameless(es) && forall i | 0 <= i < |es| :: PlainNames(es[i])
  }

  lemma NormalsOne(es: seq<Setting>, st: Style)
    requires |es| == 1
    ensures Normals(es, st) == [Normal(es[0], st)]
  {
    assert es[..0] == [];
  }

  lemma NormalsFirst(es: seq<Setting>, st: Style)
    requires es != []
    ensures Normals(es, st)[0] == Normal(es[0], st)
  {
    if |es| > 1 { NormalsFirst(es[..|es| - 1], st); }
  }

  lemma BodyTokensStep(es: seq<Setting>, st: Style)
    requires |es| > 1
    ensures BodyTokens(es, st) == BodyTokens(es[..|es| - 1], st) + [TComma] + ValueTokens(es[|es| - 1], st)
  {
    hide ValueTokens;
  }

  lemma BodyTokensOne(es: seq<Setting>, st: Style)
    requires |es| == 1
    ensures BodyTokens(es, st) == ValueTokens(es[0], st)
  {
    assert es[..0] == [];
  }

  lemma {:induction false} DepthPositive(s: Setting)
    ensures ValueDepth(s) >= 1
  {
  }

  lemma {:induction false} ListTreeIs(es: seq<Setting>, st: Style)
    requires es != [] && PlainItems(es)
    ensures Represents(ListTree(es, st), 37, BodyTokens(es, st), Normals(es, st), ListDepth(es)) && ListDepth(es) >= 1
    decreases es, 0
  {
    hide Represents, BodyTokens, ValueTokens, Normal, ValueDepth, ValueTree;
    var n := |es| - 1;
    ValueTreeRight(es[n], st);
    DepthPositive(es[n]);
    assert es[n].(name := None) == es[n];
    if n == 0 {
      BodyTokensOne(es, st);
      NormalsOne(es, st);
      Wrap(30, ValueTree(es[0], st), 34, ValueTokens(es[0], st), [Normal(es[0], st)], ValueDepth(es[0]));
      ElemLeftSides();
    } else {
      ListTreeIs(es[..n], st);
      BodyTokensStep(es, st);
      Append(31, ListTree(es[..n], st), 37, BodyTokens(es[..n], st), Normals(es[..n], st), ListDepth(es[..n]),
             ValueTree(es[n], st), 34, ValueTokens(es[n], st), Normal(es[n], st), ValueDepth(es[n]));
    }
  }

  lemma LeftSides()
    ensures YyR1(2) == 24 && YyR1(3) == 24 && YyR1(4) == 25 && YyR1(6) == 26 && YyR1(7) == 26
    ensures YyR1(17) == 34 && YyR1(18) == 34 && YyR1(19) == 34 && YyR1(20) == 34
    ensures YyR1(14) == 30 && YyR1(16) == 32 && YyR1(39) == 41
  {
  }

  lemma ElemLeftSides()
    ensures YyR1(30) == 37 && YyR1(32) == 38 && YyR1(33) == 38 && YyR1(34) == 39 && YyR1(36) == 40 && YyR1(37) == 40
  {
  }

  lemma SameTypeNormal(a: Load, b: Load, st: Style)
    requires SameType(a, b)
    ensures SameType(NormalLoad(a, st), NormalLoad(b, st))
  {
  }

  function ArrayDepth(es: seq<Setting>): nat { if |es| <= 1 then 1 else 3 }

  lemma {:induction false} ArrayTreeIs(es: seq<Setting>, st: Style)
    requires es != [] && PlainItems(es) && OneScalarType(es)
    ensures Represents(ArrayTree(es, st), 39, BodyTokens(es, st), Normals(es, st), ArrayDepth(es))
    decreases es, 0
  {
    hide Represents, BodyTokens, NormalLoad, SameType, ScalarTree, ScalarToken;
    var n := |es| - 1;
    ScalarTreeRight(es[n], st);
    assert es[n].(name := None) == es[n];
    if n == 0 {
      BodyTokensOne(es, st);
      NormalsOne(es, st);
      Wrap(34, ScalarTree(es[0], st), 36, ValueTokens(es[0], st), [Normal(es[0], st)], 1);
      ElemLeftSides();
    } else {
      ArrayTreeIs(es[..n], st);
      BodyTokensStep(es, st);
      NormalsFirst(es[..n], st);
      SameTypeNormal(es[0].load, es[n].load, st);
      Append(35, ArrayTree(es[..n], st), 39, BodyTokens(es[..n], st), Normals(es[..n], st), ArrayDepth(es[..n]),
             ScalarTree(es[n], st), 36, ValueTokens(es[n], st), Normal(es[n], st), 1);
    }
  }

  // The part of a list or array between its brackets.
  function Body(s: Setting, st: Style): PTree
    requires s.load.Aggregate? && s.load.kind != Group
  {
    if s.load.kind == List then (if s.elems == [] then Node(32, []) else Node(33, [ListTree(s.elems, st)]))
    else if s.elems == [] then Node(36, [])
    else Node(37, [ArrayTree(s.elems, st)])
  }

  function BodyDepth(s: Setting): nat
  {
    if s.elems == [] then 1 else if s.load == Aggregate(List) then ListDepth(s.elems) else ArrayDepth(s.elems)
  }

  lemma {:induction false} BodyRight(s: Setting, st: Style)
    requires Printable(s) && PlainNames(s) && s.load.Aggregate? && s.load.kind != Group
    ensures Represents(Body(s, st), if s.load.kind == List then 38 else 40,
                       if s.elems == [] then [] else BodyTokens(s.elems, st), Normals(s.elems, st), BodyDepth(s))
    decreases s, 0
  {
    hide Represents, BodyTokens, ListTree, ArrayTree, ListDepth;
    ElemLeftSides();
    hide YyR1;
    var es := s.elems;
    if es == [] {
      Empty(if s.load.kind == List then 32 else 36);
    } else if s.load.kind == List {
      ListTreeIs(es, st);
      Wrap(33, ListTree(es, st), 37, BodyTokens(es, st), Normals(es, st), ListDepth(es));
    } else {
      ArrayTreeIs(es, st);
      Wrap(37, ArrayTree(es, st), 39, BodyTokens(es, st), Normals(es, st), ArrayDepth(es));
    }
  }

  lemma {:induction false} ListTreeRight(s: Setting, st: Style)
    requires Printable(s) && PlainNames(s) && s.load.Aggregate? && s.load.kind != Group
    ensures Represents(ValueTree(s, st), 34, ValueTokens(s, st), [Normal(s.(name := None), st)], ValueDepth(s))
    decreases s, 1
  {
    LeftSides();
    hide Represents, ItemTokens, ListTree, ArrayTree, ListDepth, YyR1;
    BodyRight(s, st);
    var k := s.load.kind;
    var tokens := if s.elems == [] then [] else BodyTokens(s.elems, st);
    Bracket(k, Body(s, st), tokens, Normals(s.elems, st), BodyDepth(s));
    Wrap(if k == List then 19 else 18, ValueTree(s, st).kids[0], if k == List then 32 else 30, ValueTokens(s, st),
         [Normal(s.(name := None), st)], ValueDepth(s));
  }

  lemma {:induction false} GroupTreeRight(s: Setting, st: Style)
    requires Printable(s) && PlainNames(s) && s.load == Aggregate(Group)
    ensures Represents(ValueTree(s, st), 34, ValueTokens(s, st), [Normal(s.(name := None), st)], ValueDepth(s))
    decreases s, 0
  {
    hide Represents, MemberTokens, MembersTree, MembersDepth;
    LeftSides();
    hide YyR1;
    var es := s.elems;
    var body: PTree;
    var depth: nat;
    if es == [] {
      body, depth := Node(6, []), 1;
      Empty(6);
      NoMemberTokens(st);
    } else {
      MembersTreeIs(es, st);
      body, depth := Node(7, [MembersTree(es, st)]), MembersDepth(es);
      Wrap(7, MembersTree(es, st), 25, MemberTokens(es, st), Normals(es, st), depth);
    }
    Bracket(Group, body, MemberTokens(es, st), Normals(es, st), depth);
    Wrap(20, ValueTree(s, st).kids[0], 41, ValueTokens(s, st), [Normal(s.(name := None), st)], ValueDepth(s));
  }

  lemma NoMemberTokens(st: Style)
    ensures MemberTokens([], st) == []
  {
  }

  ghost predicate PlainMembers(es: seq<Setting>)
  {
    Members(es) && DistinctNames(es) && forall i | 0 <= i < |es| :: PlainNames(es[i])
  }

  lemma PlainPrefix(es: seq<Setting>, n: nat)
    requires PlainMembers(es) && |es| == n + 1
    ensures PlainMembers(es[..n]) && DistinctNames(es[..n] + [es[n]])
    ensures PlainNames(es[n]) && Members([es[n]])
  {
    assert es[..n] + [es[n]] == es;
  }

  lemma {:induction false} MembersTreeIs(es: seq<Setting>, st: Style)
    requires es != [] && PlainMembers(es)
    ensures Represents(MembersTree(es, st), 25, MemberTokens(es, st), Normals(es, st), MembersDepth(es))
    ensures MembersDepth(es) >= 5
    decreases es, 0
  {
    hide Represents, SettingTokens, Normal, ValueDepth, SettingTree, DistinctNames, PlainNames;
    var n := |es| - 1;
    PlainPrefix(es, n);
    SettingTreeRight(es[n], st);
    var depth := Max(5, 3 + ValueDepth(es[n]));
    if n == 0 {
      NormalsOne(es, st);
      assert es[..0] == [] && [] + SettingTokens(es[0], st) == SettingTokens(es[0], st);
      Wrap(4, SettingTree(es[0], st), 28, SettingTokens(es[0], st), [Normal(es[0], st)], depth);
      LeftSides();
    } else {
      MembersTreeIs(es[..n], st);
      NoSuchMember(es[..n], es[n], st);
      AppendMember(MembersTree(es[..n], st), MemberTokens(es[..n], st), Normals(es[..n], st), MembersDepth(es[..n]),
                   SettingTree(es[n], st), SettingTokens(es[n], st), Normal(es[n], st), depth);
    }
  }

  lemma {:induction false} NoSuchMember(es: seq<Setting>, s: Setting, st: Style)
    requires DistinctNames(es + [s])
    ensures Normal(s, st).name.Some? && !HasMember(Normals(es, st), Normal(s, st).name.value)
  {
    var ns := es + [s];
    assert ns[|es|] == s;
    NormalsNames(es, st);
    forall i | 0 <= i < |es|
      ensures Normals(es, st)[i].name.Some? && Stem(Normals(es, st)[i].name.value) != Stem(s.name.value)
    {
      assert ns[i] == es[i] && ns[i].name != ns[|es|].name;
      StemOfValid(es[i].name.value);
      StemOfValid(s.name.value);
    }
  }

  lemma StemOfValid(s: string)
    requires ValidName(s)
    ensures Stem(s) == s
  {
    StemOfName(s);
  }

  lemma {:induction false} NormalsNames(es: seq<Setting>, st: Style)
    ensures forall i | 0 <= i < |es| :: Normals(es, st)[i].name == es[i].name
  {
    if es != [] { NormalsNames(es[..|es| - 1], st); }
  }

  lemma AppendMember(a: PTree, ta: seq<Token>, na: seq<Setting>, da: nat, b: PTree, tb: seq<Token>, nb: Setting, db: nat)
    requires Represents(a, 25, ta, na, da) && Represents(b, 28, tb, [nb], db) && da >= 1 && db >= 1
    requires nb.name.Some? && !HasMember(na, nb.name.value)
    ensures Represents(Node(5, [a, b]), 25, ta + tb, na + [nb], Max(da, 1 + db))
  {
    var kids := [a, b];
    assert Derives(kids[0], 25) && Derives(kids[1], 28);
    assert Derives(Node(5, kids), 25);
    hide Derives, HasMember;
    YieldsNext(kids);
    assert kids[..1] == [a];
    Yields1([a]);
  }

  lemma {:induction false} SettingTreeRight(s: Setting, st: Style)
    requires Printable(s) && PlainNames(s) && s.name.Some? && ValidName(s.name.value)
    ensures Represents(SettingTree(s, st), 28, SettingTokens(s, st), [Normal(s, st)], Max(5, 3 + ValueDepth(s)))
    decreases s, 3
  {
    ValueTreeRight(s, st);
    NamedTree(s.name.value, ValueTree(s, st), ValueTokens(s, st), Normal(s.(name := None), st), ValueDepth(s));
  }

  lemma NamedTree(name: string, v: PTree, tokens: seq<Token>, ns: Setting, depth: nat)
    requires ValidName(name) && Represents(v, 34, tokens, [ns], depth)
    ensures Represents(Node(12, [Leaf(TName(name)), Node(11, []), Leaf(TEquals), v, Node(9, [Leaf(TSemicolon)])]), 28,
                       [TName(name), TEquals] + tokens + [TSemicolon], [ns.(name := Some(name))], Max(5, 3 + depth))
  {
    NamedDerives(name, v);
    NamedMeans(name, v, ns);
    NamedYield(name, v);
    hide Derives, Mean, Yield, Need;
  }

  lemma NamedYield(name: string, v: PTree)
    ensures var t := Node(12, [Leaf(TName(name)), Node(11, []), Leaf(TEquals), v, Node(9, [Leaf(TSemicolon)])]);
      Yield(t) == [TName(name), TEquals] + Yield(v) + [TSemicolon] && Need(t) == Max(5, 3 + Need(v))
  {
    var kids := [Leaf(TName(name)), Node(11, []), Leaf(TEquals), v, Node(9, [Leaf(TSemicolon)])];
    YieldsNext(kids);
    BracketYield(kids[..4]);
    Yields1([Leaf(TSemicolon)]);
  }

  lemma NamedMeans(name: string, v: PTree, ns: Setting)
    requires ValidName(name) && Mean(v) == Some([ns])
    ensures Mean(Node(12, [Leaf(TName(name)), Node(11, []), Leaf(TEquals), v, Node(9, [Leaf(TSemicolon)])]))
         == Some([ns.(name := Some(name))])
  {
  }

  lemma NamedDerives(name: string, v: PTree)
    requires Derives(v, 34)
    ensures Derives(Node(12, [Leaf(TName(name)), Node(11, []), Leaf(TEquals), v, Node(9, [Leaf(TSemicolon)])]), 28)
  {
    assert Derives(Node(11, []), 29);
    assert Derives(Leaf(TSemicolon), 20);
    assert Derives(Node(9, [Leaf(TSemicolon)]), 27);
  }
}
