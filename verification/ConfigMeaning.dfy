/** What a derivation of the configuration grammar means, defined on the tree alone, and the
    proof that the parser's in-place actions build exactly that. */
module ConfigMeaning {
  import opened ConfigData
  import opened ConfigTables
  import opened ConfigParser
  import opened ConfigDerivation

  // The text of a string: adjacent literals are joined.
  function TextOf(t: PTree): string
  {
    match t
    case Leaf(tok) => if tok.TString? then tok.text else ""
    case Node(r, kids) =>
      if kids == [] then ""
      else if |kids| == 1 then TextOf(kids[0])
      else TextOf(kids[0]) + TextOf(kids[1])
  }

  // The settings a derivation denotes, or None when a group repeats a name, a name is not
  // valid, or an array mixes types. A value denotes one setting without a name.
  function Mean(t: PTree): Option<seq<Setting>>
  {
    match t
    case Leaf(_) => Some([])
    case Node(r, kids) =>
      if r == 12 && |kids| == 5 then
        var v := Mean(kids[3]);
        if kids[0].Leaf? && kids[0].tok.TName? && ValidName(kids[0].tok.text) && v.Some? && v.value != [] then
          Some([v.value[0].(name := Some(kids[0].tok.text))])
        else None
      else if r == 5 && |kids| == 2 then
        var l, s := Mean(kids[0]), Mean(kids[1]);
        if l.Some? && s.Some? && s.value != [] && s.value[0].name.Some?
           && !HasMember(l.value, s.value[0].name.value) then
          Some(l.value + [s.value[0]])
        else None
      else if (r == 31 || r == 35) && |kids| == 3 then
        var l, v := Mean(kids[0]), Mean(kids[2]);
        if l.Some? && v.Some? && v.value != []
           && (r == 35 && l.value != [] ==> SameType(l.value[0].load, v.value[0].load)) then
          Some(l.value + [v.value[0]])
        else None
      else if (r == 14 || r == 16 || r == 39) && |kids| == 4 then
        var es := Mean(kids[2]);
        if es.None? then None else Some([Setting(None, Aggregate(KindOf(r)), es.value)])
      else if r == 29 && |kids| == 1 then Some([Setting(None, Str(Some(TextOf(kids[0]))), [])])
      else if 23 <= r <= 28 && |kids| == 1 && kids[0].Leaf? then Some([Setting(None, LoadOf(kids[0].tok), [])])
      else if |kids| == 1 then Mean(kids[0])
      else Some([])
  }

  function KindOf(r: nat): Kind
  {
    if r == 14 then Array else if r == 16 then List else Group
  }

  // A value takes its place in the innermost open aggregate.
  function Place(c: Ctx, v: Setting): Option<Ctx>
  {
    if c.frames == [] then None
    else
      var f := Top(c);
      if f.kind == Group then
        if c.unset && f.done != [] then
          var last := f.done[|f.done| - 1];
          Some(SetTop(c, f.(done := f.done[..|f.done| - 1] + [v.(name := last.name)])).(unset := false))
        else None
      else if f.kind == Array && f.done != [] && !SameType(f.done[0].load, v.load) then None
      else Some(SetTop(c, f.(done := f.done + [v])).(unset := false))
  }

  // A value may come: in a list, in an array if it is a scalar, or for a fresh setting.
  ghost predicate Ready(c: Ctx, x: nat)
  {
    && c.frames != [] && c.str == None
    && match Top(c).kind
       case List => true
       case Array => x == 36
       case Group => c.unset && Top(c).done != [] && Top(c).done[|Top(c).done| - 1].elems == []
  }

  ghost predicate IsValue(x: nat) { x == 30 || x == 32 || x == 34 || x == 36 || x == 41 }

  ghost predicate IsElems(x: nat) { 37 <= x <= 40 }

  ghost predicate IsMembers(x: nat) { 24 <= x <= 26 }

  // The innermost aggregate is empty and no value is pending.
  ghost predicate Blank(c: Ctx)
  {
    c.frames != [] && c.str == None && !c.unset && Top(c).done == []
  }

  function Filled(c: Ctx, es: seq<Setting>): Ctx
    requires c.frames != []
  {
    SetTop(c, Top(c).(done := es))
  }

  lemma Exec1(kids: seq<PTree>, prev: Token, c: Ctx)
    requires |kids| == 1
    ensures ExecAll(kids, prev, c) == Exec(kids[0], prev, c) && LastVal(kids, prev) == Val(kids[0])
  {
    assert kids[..0] == [];
  }

  lemma Exec2(kids: seq<PTree>, prev: Token, c: Ctx)
    requires |kids| == 2
    ensures ExecAll(kids, prev, c)
         == match Exec(kids[0], prev, c) case None => None case Some(d) => Exec(kids[1], Val(kids[0]), d)
    ensures LastVal(kids, prev) == Val(kids[1])
  {
    Exec1(kids[..1], prev, c);
  }

  lemma ExecNext(kids: seq<PTree>, prev: Token, c: Ctx)
    requires |kids| > 1
    ensures ExecAll(kids, prev, c)
         == match ExecAll(kids[..|kids| - 1], prev, c)
            case None => None
            case Some(d) => Exec(kids[|kids| - 1], Val(kids[|kids| - 2]), d)
  {
  }

  // ---------- The rules of each symbol ----------

  lemma Alternatives(r: nat)
    requires 1 < r < RULES
    ensures YyR1(r) == 24 ==> r == 2 || r == 3
    ensures YyR1(r) == 25 ==> r == 4 || r == 5
    ensures YyR1(r) == 26 ==> r == 6 || r == 7
    ensures YyR1(r) == 27 ==> 8 <= r <= 10
    ensures YyR1(r) == 28 ==> r == 12
    ensures YyR1(r) == 29 ==> r == 11
    ensures YyR1(r) == 30 ==> r == 14
    ensures YyR1(r) == 31 ==> r == 13
    ensures YyR1(r) == 32 ==> r == 16
    ensures YyR1(r) == 33 ==> r == 15
    ensures YyR1(r) == 34 ==> 17 <= r <= 20
    ensures YyR1(r) == 35 ==> r == 21 || r == 22
    ensures YyR1(r) == 36 ==> 23 <= r <= 29
    ensures YyR1(r) == 37 ==> r == 30 || r == 31
    ensures YyR1(r) == 38 ==> r == 32 || r == 33
    ensures YyR1(r) == 39 ==> r == 34 || r == 35
    ensures YyR1(r) == 40 ==> r == 36 || r == 37
    ensures YyR1(r) == 41 ==> r == 39
    ensures YyR1(r) == 42 ==> r == 38
  {
  }

  // A nonterminal is derived by a node of one of its rules, a terminal by a leaf.
  lemma Inversion(t: PTree, x: nat)
    requires Derives(t, x)
    ensures x < TERMINALS <==> t.Leaf?
    ensures t.Leaf? ==> Code(t.tok) == x
    ensures t.Node? ==> 1 < t.rule < RULES && YyR1(t.rule) == x && |t.kids| == |Rhs(t.rule)|
    ensures t.Node? ==> forall i | 0 <= i < |t.kids| :: Derives(t.kids[i], Rhs(t.rule)[i])
  {
    if t.Node? { RuleShape(t.rule); }
  }

  // ---------- Strings ----------

  lemma {:induction false} ExecText(t: PTree, prev: Token, c: Ctx)
    requires Derives(t, 35)
    ensures Exec(t, prev, c) == Some(Collect(c, TextOf(t)))
  {
    hide YyR1, Derives;
    Inversion(t, 35);
    Alternatives(t.rule);
    var kids := t.kids;
    if t.rule == 21 {
      Exec1(kids, prev, c);
      Inversion(kids[0], 9);
    } else {
      Exec2(kids, prev, c);
      Inversion(kids[1], 9);
      ExecText(kids[0], prev, c);
      var s := if c.str.Some? then c.str.value else "";
      assert (s + TextOf(kids[0])) + kids[1].tok.text == s + (TextOf(kids[0]) + kids[1].tok.text);
    }
  }

  // ---------- Values, lists and groups ----------

  // The parser builds what the derivation means.
  ghost predicate Builds(e: Option<Ctx>, c: Ctx, m: Option<seq<Setting>>)
  {
    match m
    case None => e == None
    case Some(vs) => |vs| == 1 && vs[0].name == None && e == Place(c, vs[0])
  }

  lemma ExecScalar(t: PTree, prev: Token, c: Ctx)
    requires Derives(t, 36) && Ready(c, 36)
    ensures Builds(Exec(t, prev, c), c, Mean(t))
  {
    hide YyR1, Derives;
    Inversion(t, 36);
    Alternatives(t.rule);
    var kids := t.kids;
    Exec1(kids, prev, c);
    if t.rule == 29 {
      ExecText(kids[0], prev, c);
      assert "" + TextOf(kids[0]) == TextOf(kids[0]);
    } else {
      Inversion(kids[0], Rhs(t.rule)[0]);
    }
  }

  lemma {:induction false} ExecValue(t: PTree, x: nat, prev: Token, c: Ctx)
    requires Derives(t, x) && IsValue(x) && Ready(c, x)
    ensures Builds(Exec(t, prev, c), c, Mean(t))
    decreases t, 2
  {
    hide YyR1, Derives;
    if x == 36 {
      ExecScalar(t, prev, c);
    } else {
      Inversion(t, x);
      Alternatives(t.rule);
        if x == 34 {
        Exec1(t.kids, prev, c);
        ExecValue(t.kids[0], Rhs(t.rule)[0], prev, c);
      } else {
        ExecAggregate(t, x, prev, c);
      }
    }
  }

  lemma OpenBlank(c: Ctx, x: nat, k: Kind)
    requires Ready(c, x) && x != 36
    ensures Open(c, k).Some? && Blank(Open(c, k).value) && Top(Open(c, k).value).kind == k
  {
  }

  lemma CloseFilled(c: Ctx, x: nat, k: Kind, es: seq<Setting>)
    requires Ready(c, x) && x != 36 && Open(c, k).Some?
    ensures Close(Filled(Open(c, k).value, es)) == Place(c, Setting(None, Aggregate(k), es))
  {
    var d := Filled(Open(c, k).value, es);
    var n := |c.frames|;
    assert |d.frames| == n + 1 && d.frames[n].done == es;
    assert d.frames[..n - 1] == c.frames[..n - 1];
    assert Close(d).value.frames == Place(c, Setting(None, Aggregate(k), es)).value.frames;
  }

  lemma ExecMarker(t: PTree, x: nat, prev: Token, c: Ctx)
    requires Derives(t, x) && (x == 31 || x == 33 || x == 42)
    ensures Exec(t, prev, c) == Open(c, if x == 31 then Array else if x == 33 then List else Group)
  {
    hide YyR1, Derives;
    Inversion(t, x);
    Alternatives(t.rule);
  }

  lemma {:induction false} ExecAggregate(t: PTree, x: nat, prev: Token, c: Ctx)
    requires Derives(t, x) && (x == 30 || x == 32 || x == 41) && Ready(c, x)
    ensures Builds(Exec(t, prev, c), c, Mean(t))
    decreases t, 0
  {
    hide YyR1, Derives, Place, Open, Close;
    Inversion(t, x);
    Alternatives(t.rule);
    var kids := t.kids;
    var k := KindOf(t.rule);
    Inversion(kids[0], Rhs(t.rule)[0]);
    Inversion(kids[3], Rhs(t.rule)[3]);
    ExecMarker(kids[1], Rhs(t.rule)[1], Val(kids[0]), c);
    OpenBlank(c, x, k);
    var d := Open(c, k).value;
    ExecBracket(kids, prev, c, d);
    hide ExecAll;
    if t.rule == 39 {
      ExecMembers(kids[2], 26, Val(kids[1]), d);
    } else {
      ExecElems(kids[2], Rhs(t.rule)[2], Val(kids[1]), d);
    }
    if Mean(kids[2]).Some? { CloseFilled(c, x, k, Mean(kids[2]).value); }
  }

  // A token, a marker that opens an aggregate, its contents and a token.
  lemma ExecBracket(kids: seq<PTree>, prev: Token, c: Ctx, d: Ctx)
    requires |kids| == 4 && kids[0].Leaf? && kids[3].Leaf? && Exec(kids[1], Val(kids[0]), c) == Some(d)
    ensures ExecAll(kids, prev, c) == Exec(kids[2], Val(kids[1]), d)
  {
    Exec2(kids[..2], prev, c);
    ExecNext(kids[..3], prev, c);
    assert kids[..3][..2] == kids[..2];
    ExecNext(kids, prev, c);
    hide ExecAll;
  }

  lemma Refilled(c: Ctx, a: seq<Setting>, b: seq<Setting>)
    requires c.frames != []
    ensures Filled(Filled(c, a), b) == Filled(c, b)
    ensures Top(Filled(c, a)) == Top(c).(done := a)
    ensures a == Top(c).done ==> Filled(c, a) == c
  {
    var n := |c.frames|;
    assert Filled(c, a).frames[..n - 1] == c.frames[..n - 1];
  }

  // A value in a list or array is appended, if its type suits the first element.
  lemma PlaceElem(c: Ctx, es: seq<Setting>, m: seq<Setting>)
    requires Blank(c) && Top(c).kind != Group && |m| == 1
    ensures Place(Filled(c, es), m[0])
         == if Top(c).kind == Array && es != [] && !SameType(es[0].load, m[0].load) then None
            else Some(Filled(c, es + m))
    ensures Top(c).kind == List || Top(c).kind == Array ==> Ready(Filled(c, es), 36)
    ensures Top(c).kind == List ==> Ready(Filled(c, es), 34)
  {
    Refilled(c, es, es + m);
    assert [m[0]] == m;
  }

  lemma NoAction(r: nat, v: Token, c: Ctx)
    requires 1 < r < 11 || 17 <= r <= 20 || 30 <= r <= 37
    ensures Act(r, v, c) == Some(c)
  {
  }

  lemma NoMember(name: string)
    ensures !HasMember([], name)
  {
  }

  lemma {:induction false} ExecNextElem(t: PTree, x: nat, es: seq<Setting>, prev: Token, c: Ctx)
    requires Derives(t, x) && Blank(c) && (if Top(c).kind == List then x == 34 else Top(c).kind == Array && x == 36)
    ensures Mean(t).Some? ==> |Mean(t).value| == 1 && es + Mean(t).value == es + [Mean(t).value[0]]
    ensures Exec(t, prev, Filled(c, es))
         == if Mean(t).None? || (x == 36 && es != [] && !SameType(es[0].load, Mean(t).value[0].load)) then None
            else Some(Filled(c, es + Mean(t).value))
    decreases t, 3
  {
    hide Derives, Place, Filled, SameType;
    PlaceElem(c, es, [Setting(None, Untyped, [])]);
    ExecValue(t, x, prev, Filled(c, es));
    if Mean(t).Some? { PlaceElem(c, es, Mean(t).value); }
  }

  lemma {:induction false} ExecElems(t: PTree, x: nat, prev: Token, c: Ctx)
    requires Derives(t, x) && IsElems(x) && Blank(c)
    requires Top(c).kind == if x <= 38 then List else Array
    ensures Exec(t, prev, c) == match Mean(t) case None => None case Some(es) => Some(Filled(c, es))
    decreases t, 1
  {
    hide YyR1, Derives, Place, Filled, Act, SameType, Blank;
    Inversion(t, x);
    Alternatives(t.rule);
    if t.rule == 31 || t.rule == 35 {
      hide Rhs, Exec, Mean;
      ExecLonger(t, x, prev, c);
    } else {
      FilledNothing(c);
      var kids := t.kids;
      NoAction(t.rule, LastVal(kids, prev), c);
      if t.rule == 32 || t.rule == 36 {
      } else {
        Exec1(kids, prev, c);
        if t.rule == 30 || t.rule == 34 {
          ExecNextElem(kids[0], Rhs(t.rule)[0], [], prev, c);
          if Mean(t).Some? {
            assert [] + Mean(t).value == Mean(t).value;
            NoAction(t.rule, LastVal(kids, prev), Filled(c, Mean(t).value));
          }
        } else {
          ExecElems(kids[0], Rhs(t.rule)[0], prev, c);
          if Mean(t).Some? { NoAction(t.rule, LastVal(kids, prev), Filled(c, Mean(t).value)); }
        }
      }
    }
  }

  // A list or array followed by a comma and one more element.
  lemma {:induction false} ExecLonger(t: PTree, x: nat, prev: Token, c: Ctx)
    requires Derives(t, x) && IsElems(x) && Blank(c) && t.Node? && (t.rule == 31 || t.rule == 35)
    requires Top(c).kind == if x <= 38 then List else Array
    ensures Exec(t, prev, c) == match Mean(t) case None => None case Some(es) => Some(Filled(c, es))
    decreases t, 0
  {
    hide YyR1, Derives, Place, Filled, Act, SameType, Blank;
    Inversion(t, x);
    Alternatives(t.rule);
    var kids := t.kids;
    var e := ExecAll(kids, prev, c);
    if e.Some? { NoAction(t.rule, LastVal(kids, prev), e.value); }
    ExecElems(kids[0], x, prev, c);
    Inversion(kids[1], 17);
    Exec2(kids[..2], prev, c);
    ExecNext(kids, prev, c);
    if Mean(kids[0]).Some? {
      ExecNextElem(kids[2], Rhs(t.rule)[2], Mean(kids[0]).value, Val(kids[1]), c);
    }
  }

  lemma FilledNothing(c: Ctx)
    requires Blank(c)
    ensures c.frames != [] && Filled(c, []) == c
  {
    Refilled(c, [], []);
  }

  lemma {:induction false} ExecMembers(t: PTree, x: nat, prev: Token, c: Ctx)
    requires Derives(t, x) && IsMembers(x) && Blank(c) && Top(c).kind == Group
    ensures Exec(t, prev, c) == match Mean(t) case None => None case Some(es) => Some(Filled(c, es))
    decreases t, 1
  {
    hide YyR1, Derives, Filled, HasMember, Act;
    Inversion(t, x);
    Alternatives(t.rule);
    Refilled(c, [], []);
    var kids := t.kids;
    var e := ExecAll(kids, prev, c);
    if e.Some? { NoAction(t.rule, LastVal(kids, prev), e.value); }
    if t.rule == 2 || t.rule == 6 {
    } else if t.rule == 5 {
      Exec2(kids, prev, c);
      ExecMembers(kids[0], 25, prev, c);
      if Mean(kids[0]).Some? {
        ExecNextMember(kids[1], Mean(kids[0]).value, Val(kids[0]), c);
      }
    } else {
      Exec1(kids, prev, c);
      if t.rule == 4 {
        Refilled(c, [], []);
        ExecNextMember(kids[0], [], prev, c);
        if Mean(t).Some? {
          assert [] + Mean(t).value == Mean(t).value;
          NoMember(Mean(t).value[0].name.value);
        }
      } else {
        ExecMembers(kids[0], 25, prev, c);
      }
    }
  }

  lemma {:induction false} ExecNextMember(t: PTree, es: seq<Setting>, prev: Token, c: Ctx)
    requires Derives(t, 28) && Blank(c) && Top(c).kind == Group
    ensures Mean(t).Some? ==> |Mean(t).value| == 1 && Mean(t).value[0].name.Some?
    ensures Mean(t).Some? ==> es + Mean(t).value == es + [Mean(t).value[0]]
    ensures Exec(t, prev, Filled(c, es))
         == if Mean(t).None? || HasMember(es, Mean(t).value[0].name.value) then None
            else Some(Filled(c, es + Mean(t).value))
    decreases t, 1
  {
    hide Filled, HasMember;
    Refilled(c, es, es);
    FilledBlank(c, es);
    ExecSetting(t, prev, Filled(c, es));
    if Mean(t).Some? {
      Refilled(c, es, es + Mean(t).value);
      FilledBlank(c, es + Mean(t).value);
    }
  }

  lemma FilledBlank(c: Ctx, es: seq<Setting>)
    requires c.frames != [] && !c.unset
    ensures Filled(c, es).str == c.str && Filled(c, es).(unset := false) == Filled(c, es)
    ensures Filled(c, es).frames != []
  {
  }

  lemma ExecTerminator(t: PTree, prev: Token, c: Ctx)
    requires Derives(t, 27)
    ensures Exec(t, prev, c) == Some(c)
  {
    hide YyR1, Derives;
    Inversion(t, 27);
    Alternatives(t.rule);
    if t.kids != [] {
      Exec1(t.kids, prev, c);
      Inversion(t.kids[0], Rhs(t.rule)[0]);
    }
  }

  lemma ExecName(kids: seq<PTree>, prev: Token, c: Ctx)
    requires |kids| == 2 && Derives(kids[0], 10) && Derives(kids[1], 29)
    ensures kids[0].Leaf? && kids[0].tok.TName?
    ensures ExecAll(kids, prev, c) == AddNamed(c, kids[0].tok.text)
  {
    hide YyR1, Derives;
    Inversion(kids[0], 10);
    Inversion(kids[1], 29);
    Alternatives(kids[1].rule);
    Exec2(kids, prev, c);
  }

  lemma NamedOrNot(c: Ctx, name: string)
    requires c.frames != [] && Top(c).kind == Group
    ensures AddNamed(c, name).Some? <==> ValidName(name) && !HasMember(Top(c).done, name)
  {
  }

  // A value completes the setting that was just named.
  lemma PlaceNamed(c: Ctx, name: string, v: Setting)
    requires AddNamed(c, name).Some? && c.str == None
    ensures Ready(AddNamed(c, name).value, 34)
    ensures Place(AddNamed(c, name).value, v)
         == Some(Filled(c, Top(c).done + [v.(name := Some(name))]).(unset := false))
  {
    var d := AddNamed(c, name).value;
    var n := |c.frames|;
    assert d.frames[..n - 1] == c.frames[..n - 1];
    assert Top(d).done[..|Top(d).done| - 1] == Top(c).done;
  }

  // The five parts of a setting: its name is added, and then its value completes it.
  lemma ExecParts(kids: seq<PTree>, prev: Token, c: Ctx)
    requires |kids| == 5 && Derives(kids[0], 10) && Derives(kids[1], 29) && Derives(kids[2], 11) && Derives(kids[4], 27)
    ensures kids[0].Leaf? && kids[0].tok.TName?
    ensures ExecAll(kids, prev, c)
         == match AddNamed(c, kids[0].tok.text)
            case None => None
            case Some(d) => Exec(kids[3], Val(kids[2]), d)
  {
    hide YyR1, Derives, AddNamed, Exec;
    ExecName(kids[..2], prev, c);
    ExecNext(kids[..3], prev, c);
    assert kids[..3][..2] == kids[..2];
    ExecEquals(kids[2], Val(kids[1]));
    ExecNext(kids[..4], prev, c);
    assert kids[..4][..3] == kids[..3];
    ExecNext(kids, prev, c);
    hide ExecAll;
    var d := AddNamed(c, kids[0].tok.text);
    if d.Some? && Exec(kids[3], Val(kids[2]), d.value).Some? {
      ExecTerminator(kids[4], Val(kids[3]), Exec(kids[3], Val(kids[2]), d.value).value);
    }
  }

  lemma ExecEquals(t: PTree, prev: Token)
    requires Derives(t, 11)
    ensures forall c :: Exec(t, prev, c) == Some(c)
  {
    hide YyR1, Derives;
    Inversion(t, 11);
  }

  lemma {:induction false} ExecSetting(t: PTree, prev: Token, c: Ctx)
    requires Derives(t, 28) && c.frames != [] && c.str == None && Top(c).kind == Group
    ensures Mean(t).Some? ==> |Mean(t).value| == 1 && Mean(t).value[0].name.Some?
    ensures Exec(t, prev, c)
         == if Mean(t).None? || HasMember(Top(c).done, Mean(t).value[0].name.value) then None
            else Some(Filled(c, Top(c).done + Mean(t).value).(unset := false))
    decreases t, 0
  {
    hide YyR1, Derives, Place, Ready, AddNamed, Filled, HasMember;
    Inversion(t, 28);
    Alternatives(t.rule);
    var kids := t.kids;
    ExecParts(kids, prev, c);
    ExecRule12(t, prev, c);
    var name := kids[0].tok.text;
    NamedOrNot(c, name);
    hide Exec, ExecAll;
    var d := AddNamed(c, name);
    if d.Some? {
      PlaceNamed(c, name, Setting(None, Untyped, []));
      ExecValue(kids[3], 34, Val(kids[2]), d.value);
      if Mean(kids[3]).Some? { PlaceNamed(c, name, Mean(kids[3]).value[0]); }
    }
  }

  lemma ExecRule12(t: PTree, prev: Token, c: Ctx)
    requires t.Node? && t.rule == 12
    ensures Exec(t, prev, c) == ExecAll(t.kids, prev, c)
  {
    hide ExecAll;
  }

  // ---------- The parser's answer ----------

  // The tree below the root once parsing has come back to it.
  function RootCtx(es: seq<Setting>): Ctx
  {
    Ctx([Frame(None, Group, es)], false, None)
  }

  lemma ConfigurationMeans(t: PTree)
    requires Derives(t, 24)
    ensures Exec(t, TError, InitialCtx()) == match Mean(t) case None => None case Some(es) => Some(RootCtx(es))
  {
    ExecMembers(t, 24, TError, InitialCtx());
    assert forall es :: Filled(InitialCtx(), es).frames == [Frame(None, Group, es)];
  }

  // The parser accepts a token sequence exactly when it has a derivation that fits the
  // stack and has a meaning; it then stands at the root again, and has built that meaning.
  lemma ParserBuildsMeaning(input: seq<Token>, c: Ctx)
    ensures Parse(input) == Some(c)
       <==> exists t :: Derives(t, 24) && Yield(t) == input && Need(t) + 1 < MAX_DEPTH
                     && Mean(t).Some? && c == RootCtx(Mean(t).value)
  {
    hide Derives, Mean, Parse, Exec, Yield, Need;
    ParserDecidesGrammar(input, c);
    forall t | Derives(t, 24)
      ensures Exec(t, TError, InitialCtx()) == Some(c) <==> Mean(t).Some? && c == RootCtx(Mean(t).value)
    {
      ConfigurationMeans(t);
    }
  }

  // ---------- Well-formed settings ----------

  ghost predicate DistinctNames(es: seq<Setting>)
  {
    && (forall i | 0 <= i < |es| :: es[i].name.Some? && ValidName(es[i].name.value))
    && (forall i, j | 0 <= i < j < |es| :: es[i].name != es[j].name)
  }

  ghost predicate Nameless(es: seq<Setting>)
  {
    forall i | 0 <= i < |es| :: es[i].name == None
  }

  ghost predicate IsScalar(v: Load) { !v.Untyped? && !v.Aggregate? }

  ghost predicate OneScalarType(es: seq<Setting>)
  {
    forall i | 0 <= i < |es| :: IsScalar(es[i].load) && SameType(es[0].load, es[i].load)
  }

  // Groups have valid and distinct names, arrays one scalar type, nothing is untyped.
  ghost predicate WellFormed(s: Setting)
  {
    && (forall i | 0 <= i < |s.elems| :: WellFormed(s.elems[i]))
    && match s.load
       case Untyped => false
       case Aggregate(k) => WellFormedElems(k, s.elems)
       case _ => s.elems == []
  }

  ghost predicate WellFormedElems(k: Kind, es: seq<Setting>)
  {
    match k
    case Group => DistinctNames(es)
    case Array => Nameless(es) && OneScalarType(es)
    case List => Nameless(es)
  }

  ghost predicate AllWellFormed(es: seq<Setting>)
  {
    forall i | 0 <= i < |es| :: WellFormed(es[i])
  }

  // What the meaning of a derivation of each symbol looks like.
  ghost predicate Tidy(x: nat, es: seq<Setting>)
  {
    AllWellFormed(es)
    && (IsValue(x) ==> |es| == 1 && es[0].name == None)
    && (x == 36 ==> IsScalar(es[0].load))
    && (x == 28 ==> |es| == 1 && DistinctNames(es))
    && (IsMembers(x) ==> DistinctNames(es))
    && (IsElems(x) ==> Nameless(es))
    && (x == 39 || x == 40 ==> OneScalarType(es))
  }

  lemma {:induction false} MeanTidy(t: PTree, x: nat)
    requires Derives(t, x) && Mean(t).Some?
    requires IsValue(x) || IsElems(x) || IsMembers(x) || x == 28
    ensures Tidy(x, Mean(t).value)
    decreases t, 1
  {
    hide YyR1, Derives, Mean, Tidy;
    Inversion(t, x);
    Alternatives(t.rule);
    if t.rule == 12 || t.rule == 5 {
      MeanTidyNamed(t, x);
    } else if t.rule == 31 || t.rule == 35 {
      MeanTidyMore(t, x);
    } else if t.rule == 14 || t.rule == 16 || t.rule == 39 {
      MeanTidyAggregate(t, x);
    } else {
      MeanTidySingle(t, x);
    }
  }

  lemma {:induction false} MeanTidyNamed(t: PTree, x: nat)
    requires Derives(t, x) && Mean(t).Some? && t.Node? && ((t.rule == 12 && x == 28) || (t.rule == 5 && x == 25))
    ensures Tidy(x, Mean(t).value)
    decreases t, 0
  {
    hide YyR1, Derives;
    Inversion(t, x);
    var kids := t.kids;
    if t.rule == 12 {
      MeanTidy(kids[3], 34);
      RenamedWellFormed(Mean(kids[3]).value[0], Mean(t).value[0].name);
    } else {
      MeanTidy(kids[0], 25);
      MeanTidy(kids[1], 28);
      NewNameDistinct(Mean(kids[0]).value, Mean(kids[1]).value[0]);
    }
  }

  lemma {:induction false} MeanTidyMore(t: PTree, x: nat)
    requires Derives(t, x) && Mean(t).Some? && t.Node? && ((t.rule == 31 && x == 37) || (t.rule == 35 && x == 39))
    ensures Tidy(x, Mean(t).value)
    decreases t, 0
  {
    hide YyR1, Derives;
    Inversion(t, x);
    MeanTidy(t.kids[0], x);
    MeanTidy(t.kids[2], Rhs(t.rule)[2]);
    if t.rule == 35 { SameTypeReflexive(Mean(t.kids[2]).value[0].load); }
  }

  lemma {:induction false} MeanTidyAggregate(t: PTree, x: nat)
    requires Derives(t, x) && Mean(t).Some? && t.Node?
    requires (t.rule == 14 && x == 30) || (t.rule == 16 && x == 32) || (t.rule == 39 && x == 41)
    ensures Tidy(x, Mean(t).value)
    decreases t, 0
  {
    hide YyR1, Derives;
    Inversion(t, x);
    MeanTidy(t.kids[2], Rhs(t.rule)[2]);
  }

  lemma {:induction false} MeanTidySingle(t: PTree, x: nat)
    requires Derives(t, x) && Mean(t).Some? && t.Node?
    requires IsValue(x) || IsElems(x) || IsMembers(x)
    requires !(t.rule in {5, 12, 14, 16, 31, 35, 39})
    ensures Tidy(x, Mean(t).value)
    decreases t, 0
  {
    hide YyR1, Derives;
    Inversion(t, x);
    Alternatives(t.rule);
    var kids := t.kids;
    if 23 <= t.rule <= 28 {
      Inversion(kids[0], Rhs(t.rule)[0]);
    } else if t.rule != 29 && |kids| == 1 {
      MeanTidy(kids[0], Rhs(t.rule)[0]);
      if t.rule == 34 { SameTypeReflexive(Mean(kids[0]).value[0].load); }
    }
  }

  lemma SameTypeReflexive(v: Load)
    ensures SameType(v, v)
  {
  }

  lemma RenamedWellFormed(s: Setting, name: Option<string>)
    requires WellFormed(s)
    ensures WellFormed(s.(name := name))
  {
  }

  lemma NewNameDistinct(es: seq<Setting>, s: Setting)
    requires s.name.Some? && DistinctNames(es) && DistinctNames([s]) && !HasMember(es, s.name.value)
    ensures DistinctNames(es + [s])
  {
    assert [s][0] == s;
    var ns := es + [s];
    forall i | 0 <= i < |es| ensures es[i].name != s.name {
      assert Stem(es[i].name.value) != Stem(s.name.value);
    }
  }

  // Whatever the parser accepts is a well-formed tree.
  lemma ParsedTreeWellFormed(input: seq<Token>, c: Ctx)
    requires Parse(input) == Some(c)
    ensures |c.frames| == 1 && WellFormed(Setting(None, Aggregate(Group), Top(c).done))
  {
    hide Derives, Mean, Parse, Exec, Yield, Need;
    ParserBuildsMeaning(input, c);
    var t :| Derives(t, 24) && Yield(t) == input && Need(t) + 1 < MAX_DEPTH
          && Mean(t).Some? && c == RootCtx(Mean(t).value);
    MeanTidy(t, 24);
  }
}
