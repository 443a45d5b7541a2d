/** The parser's actions never use a missing setting: whenever a rule is reduced, the setting
    or parent its action dereferences is there, and the value it reads is of the right type. */
module ConfigSafety {
  import opened ConfigData
  import opened ConfigTables
  import opened ConfigParser

  // What the action of a rule takes for granted.
  ghost predicate Usable(r: nat, v: Token, c: Ctx)
  {
    && c.frames != []
    && (r == 11 ==> v.TName? && Top(c).kind == Group)
    && (r == 13 || r == 15 || r == 38 ==> Top(c).kind == List || SettingPending(c))
    && (r == 14 || r == 16 || r == 39 ==> |c.frames| >= 2)
    && (r == 21 || r == 22 ==> v.TString?)
    && (r == 23 ==> v.TBool?) && (r == 24 ==> v.TInt?) && (r == 25 ==> v.TInt64?)
    && (r == 26 ==> v.THex?) && (r == 27 ==> v.THex64?) && (r == 28 ==> v.TFloat?)
    && (23 <= r <= 29 ==> Top(c).kind != Group || SettingPending(c))
  }

  // ctx->setting is a child of the open group that has no type yet.
  ghost predicate SettingPending(c: Ctx)
    requires c.frames != []
  {
    Top(c).kind == Group && c.unset && Top(c).done != []
  }

  // The kinds of the open aggregates, read off the state stack.
  function Kinds(st: seq<nat>): (ks: seq<Kind>)
    ensures |ks| > 0
  {
    if |st| <= 1 then [Group]
    else
      var ks := Kinds(st[..|st| - 1]);
      match st[|st| - 1]
      case 25 => ks + [Array]
      case 26 => ks + [List]
      case 27 => ks + [Group]
      case _ => ks
  }

  function LastKind(st: seq<nat>): Kind
  {
    Kinds(st)[|Kinds(st)| - 1]
  }

  // The states in which the value of the setting just named is still to come.
  predicate Waits(s: nat) { 8 <= s <= 18 || s == 22 || s == 31 }

  predicate Pending(st: seq<nat>)
  {
    st != [] && (st[|st| - 1] == 5 || (Waits(st[|st| - 1]) && Pending(st[..|st| - 1])))
  }

  // The context agrees with the state stack, and shifted tokens lie under their states.
  ghost predicate Consistent(p: PState)
    requires Good(p)
  {
    && |p.ctx.frames| == |Kinds(p.states)|
    && (forall i | 0 <= i < |p.ctx.frames| :: p.ctx.frames[i].kind == Kinds(p.states)[i])
    && (Pending(p.states) ==> p.ctx.unset && Top(p.ctx).done != [])
    && (forall i | 0 < i < |p.states| && YyStos(p.states[i]) < TERMINALS && p.states[i] != FINAL ::
          Code(p.vals[i]) == YyStos(p.states[i]))
  }

  predicate InGroup(s: nat) { s == 0 || s == 1 || s == 3 || s == 5 || s == 8 || s == 27 || s == 38 }

  predicate InList(s: nat) { s == 26 || s == 36 || s == 42 }

  predicate InArray(s: nat) { s == 25 || s == 33 || s == 40 }

  lemma {:induction false} TopKind(st: seq<nat>)
    requires Viable(st)
    ensures InGroup(st[|st| - 1]) ==> LastKind(st) == Group
    ensures InList(st[|st| - 1]) ==> LastKind(st) == List
    ensures InArray(st[|st| - 1]) ==> LastKind(st) == Array
    decreases |st|
  {
    if |st| > 1 {
      var n := |st| - 1;
      TopKind(st[..n]);
      SameAggregate(st[n - 1], st[n]);
      hide Edge;
    }
  }

  lemma SameAggregate(p: nat, q: nat)
    requires Edge(p, q)
    ensures q != 0
    ensures InGroup(q) && q != 27 ==> InGroup(p)
    ensures InList(q) && q != 26 ==> InList(p)
    ensures InArray(q) && q != 25 ==> InArray(p)
  {
  }

  // Where a value starts, there is a list, an array, or a setting waiting for it.
  lemma ValueContext(p: PState, st: seq<nat>)
    requires Good(p) && Consistent(p) && Viable(st) && Kinds(st) == Kinds(p.states)
    requires Pending(st) ==> Pending(p.states)
    requires ScalarStart(st[|st| - 1])
    ensures Top(p.ctx).kind == LastKind(st)
    ensures ValueStart(st[|st| - 1]) ==> Top(p.ctx).kind == List || SettingPending(p.ctx)
    ensures Top(p.ctx).kind != Group || SettingPending(p.ctx)
  {
    hide Edge, YyStos;
    TopKind(st);
    if st[|st| - 1] == 8 { EqualsPends(st); }
  }

  lemma EqualsPends(st: seq<nat>)
    requires Viable(st) && st[|st| - 1] == 8
    ensures Pending(st)
  {
    assert |st| > 1 && Edge(st[|st| - 2], st[|st| - 1]);
    var n := |st| - 1;
    assert st[..n][|st[..n]| - 1] == 5;
    assert Pending(st[..n]);
  }

  // Whatever the driver reduces, the action's assumptions hold.
  lemma ReduceUsable(p: PState, r: nat)
    requires Good(p) && Consistent(p) && TopState(p) != FINAL && r == YyDefact(TopState(p)) != 0
    ensures Usable(r, TopVal(p), p.ctx)
  {
    var st := p.states;
    var n := |st| - 1;
    var s := st[n];
    ActionStates(s);
    hide YyDefact;
    if s == 1 {
      assert YyStos(1) == 10;
      TopKind(st);
    } else if 9 <= s <= 14 || 16 <= s <= 18 || s == 22 {
      ValueFollows(st[n - 1], s);
      TerminalStates(s);
      hide Edge, YyStos;
      assert Pending(st[..n]) ==> Pending(st);
      ValueContext(p, st[..n]);
    } else if s == 15 || s == 31 {
      assert YyStos(s) == 9;
    } else if s == 41 || s == 43 || s == 44 {
      AggregateOpen(st);
    }
  }

  // The states whose reductions have actions.
  lemma ActionStates(s: nat)
    requires s < STATES && YyDefact(s) != 0
    ensures var r := YyDefact(s);
      && (r == 11 ==> s == 1) && (r == 13 ==> s == 16) && (r == 15 ==> s == 17) && (r == 38 ==> s == 18)
      && (r == 14 ==> s == 41) && (r == 16 ==> s == 43) && (r == 39 ==> s == 44)
      && (r == 21 ==> s == 15) && (r == 22 ==> s == 31)
      && (r == 23 ==> s == 9) && (r == 24 ==> s == 10) && (r == 25 ==> s == 12)
      && (r == 26 ==> s == 11) && (r == 27 ==> s == 13) && (r == 28 ==> s == 14) && (r == 29 ==> s == 22)
  {
  }

  lemma ValueFollows(p: nat, s: nat)
    requires Edge(p, s) && (9 <= s <= 14 || 16 <= s <= 18 || s == 22)
    ensures ScalarStart(p) && (16 <= s <= 18 ==> ValueStart(p))
  {
  }

  lemma TerminalStates(s: nat)
    ensures s == 9 ==> YyStos(s) == 3
    ensures s == 10 ==> YyStos(s) == 4
    ensures s == 11 ==> YyStos(s) == 5
    ensures s == 12 ==> YyStos(s) == 6
    ensures s == 13 ==> YyStos(s) == 7
    ensures s == 14 ==> YyStos(s) == 8
  {
  }

  lemma AggregateOpen(st: seq<nat>)
    requires Viable(st) && var s := st[|st| - 1]; s == 41 || s == 43 || s == 44
    ensures |st| > 4 && |Kinds(st)| >= 2
    ensures Kinds(st) == Kinds(st[..|st| - 4]) + [AggregateKind(st[|st| - 1])]
  {
    var m := |st|;
    AggregateStates(st);
    hide Viable, Kinds;
    KindsShort(st, m - 2);
    assert st[..m - 2] == st[..m - 3] + [st[m - 3]] && st[..m - 3] == st[..m - 4] + [st[m - 4]];
    KindsPush(st[..m - 3], st[m - 3]);
    KindsPush(st[..m - 4], st[m - 4]);
  }

  // The four states of a complete aggregate, of which the second holds it open.
  lemma AggregateStates(st: seq<nat>)
    requires Viable(st) && var s := st[|st| - 1]; s == 41 || s == 43 || s == 44
    ensures var m := |st|;
      && m > 4 && !(25 <= st[m - 4] <= 27) && !(25 <= st[m - 2] <= 27)
      && st[m - 3] == match AggregateKind(st[m - 1]) case Array => 25 case List => 26 case Group => 27
  {
    var m := |st|;
    assert m > 1 && Edge(st[m - 2], st[m - 1]);
    assert m > 2 && Edge(st[m - 3], st[m - 2]);
    assert m > 3 && Edge(st[m - 4], st[m - 3]);
  }

  function AggregateKind(s: nat): Kind
  {
    if s == 41 then Array else if s == 43 then List else Group
  }

  lemma {:induction false} KindsShort(st: seq<nat>, m: nat)
    requires 0 < m <= |st| && forall i | m <= i < |st| :: !(25 <= st[i] <= 27)
    ensures Kinds(st) == Kinds(st[..m])
    decreases |st|
  {
    if m < |st| {
      var n := |st| - 1;
      KindsShort(st[..n], m);
      assert st[..n][..m] == st[..m];
    } else {
      assert st[..m] == st;
    }
  }

  lemma KindsPush(st: seq<nat>, s: nat)
    requires st != []
    ensures Kinds(st + [s]) == Kinds(st) + (if s == 25 then [Array] else if s == 26 then [List]
                                            else if s == 27 then [Group] else [])
    ensures Pending(st + [s]) <==> s == 5 || (Waits(s) && Pending(st))
  {
    assert (st + [s])[..|st|] == st;
  }

  function CtxKinds(c: Ctx): seq<Kind>
  {
    seq(|c.frames|, i requires 0 <= i < |c.frames| => c.frames[i].kind)
  }

  // How an action changes the open aggregates.
  lemma ActKinds(r: nat, v: Token, c: Ctx, d: Ctx)
    requires Act(r, v, c) == Some(d) && c.frames != []
    ensures d.frames != []
    ensures r == 13 ==> CtxKinds(d) == CtxKinds(c) + [Array]
    ensures r == 15 ==> CtxKinds(d) == CtxKinds(c) + [List]
    ensures r == 38 ==> CtxKinds(d) == CtxKinds(c) + [Group]
    ensures r == 14 || r == 16 || r == 39 ==> CtxKinds(d) == CtxKinds(c)[..|c.frames| - 1]
    ensures r != 13 && r != 14 && r != 15 && r != 16 && r != 38 && r != 39 ==> CtxKinds(d) == CtxKinds(c)
    ensures r == 11 ==> d.unset && Top(d).done != []
    ensures r == 21 || r == 22 ==> d.unset == c.unset && d.frames == c.frames
  {
    if r == 11 {
      AddNamedKinds(c, v.text);
    } else if r == 13 || r == 15 || r == 38 {
      OpenKinds(c, if r == 13 then Array else if r == 15 then List else Group);
    } else if r == 14 || r == 16 || r == 39 {
      CloseKinds(c);
    } else if 23 <= r <= 28 {
      PutKinds(c, LoadOf(v));
    } else if r == 29 {
      PutKinds(c.(str := None), Str(c.str));
      CollectKinds(c, c.(str := None));
    }
    hide AddNamed, Open, Close, Put, LoadOf, CtxKinds;
    if r == 21 || r == 22 { CollectKinds(c, d); }
  }

  lemma CollectKinds(c: Ctx, d: Ctx)
    requires d.frames == c.frames
    ensures CtxKinds(d) == CtxKinds(c)
  {
  }

  lemma AddNamedKinds(c: Ctx, name: string)
    requires AddNamed(c, name).Some?
    ensures var d := AddNamed(c, name).value;
      CtxKinds(d) == CtxKinds(c) && d.frames != [] && d.unset && Top(d).done != []
  {
  }

  lemma OpenKinds(c: Ctx, k: Kind)
    requires Open(c, k).Some?
    ensures CtxKinds(Open(c, k).value) == CtxKinds(c) + [k] && Open(c, k).value.frames != []
  {
  }

  lemma CloseKinds(c: Ctx)
    requires Close(c).Some?
    ensures CtxKinds(Close(c).value) == CtxKinds(c)[..|c.frames| - 1] && Close(c).value.frames != []
  {
  }

  lemma PutKinds(c: Ctx, v: Load)
    requires Put(c, v).Some?
    ensures CtxKinds(Put(c, v).value) == CtxKinds(c) && Put(c, v).value.frames != []
  {
  }

  // The states that reductions lead to.
  lemma ReductionStates(q: nat, r: nat)
    requires q < STATES && 1 < r < RULES && YyStos(q) == YyR1(r)
    ensures YyStos(q) > TERMINALS
    ensures q == 25 <==> r == 13
    ensures q == 26 <==> r == 15
    ensures q == 27 <==> r == 38
    ensures q == 5 <==> r == 11
    ensures Waits(q) <==> r == 21 || r == 22
  {
  }

  // The markers of open aggregates are popped only with their aggregate.
  lemma PoppedKinds(st: seq<nat>, r: nat)
    requires Viable(st) && st[|st| - 1] != FINAL && r == YyDefact(st[|st| - 1]) != 0 && 1 < r < RULES && Reducible(st, r)
    ensures var b := st[..|st| - YyR2(r)];
      Kinds(st) == Kinds(b) + (if r == 14 then [Array] else if r == 16 then [List] else if r == 39 then [Group] else [])
  {
    hide Edge, Goto, Rank, Kinds, YyDefact;
    ActionStates(st[|st| - 1]);
    if r == 14 || r == 16 || r == 39 {
      hide YyStos, Rhs;
      AggregateOpen(st);
    } else {
      hide YyStos, Rhs, YyR2, YyR1;
      var m := |st| - YyR2(r);
      forall i | m <= i < |st| ensures !(25 <= st[i] <= 27) {
        assert YyStos(st[|st| - YyR2(r) + (i - m)]) == Rhs(r)[i - m];
        NoMarker(r, i - m, st[i]);
      }
      KindsShort(st, m);
    }
  }

  lemma NoMarker(r: nat, k: nat, s: nat)
    requires 1 < r < RULES && k < |Rhs(r)| && s < STATES && YyStos(s) == Rhs(r)[k]
    requires r != 14 && r != 16 && r != 39
    ensures !(25 <= s <= 27)
  {
  }

  // While a value is awaited, so it is below the string that is being read.
  lemma StringPends(st: seq<nat>, r: nat)
    requires Viable(st) && r == YyDefact(st[|st| - 1]) && (r == 21 || r == 22)
    requires YyR2(r) < |st| && Pending(st[..|st| - YyR2(r)])
    ensures Pending(st)
  {
    ActionStates(st[|st| - 1]);
    var m := |st|;
    if r == 22 {
      assert Edge(st[m - 2], st[m - 1]);
      assert st[..m - 1][..m - 2] == st[..m - 2];
      assert Pending(st[..m - 1]);
    }
  }

  lemma ReduceConsistent(p: PState, r: nat, c: Ctx)
    requires Good(p) && Consistent(p) && TopState(p) != FINAL && r == YyDefact(TopState(p)) != 0
    requires 1 < r < RULES && Reducible(p.states, r) && Act(r, TopVal(p), p.ctx) == Some(c)
    requires Good(Reduced(p, r, c))
    ensures Consistent(Reduced(p, r, c))
  {
    hide YyDefact, YyR1, YyR2, Rhs, Goto, Edge, Rank, YyStos, Waits, Act, CtxKinds, Kinds;
    RuleShape(r);
    var n := YyR2(r);
    var b := p.states[..|p.states| - n];
    var q := Goto(b[|b| - 1], YyR1(r));
    ReductionStates(q, r);
    if (r == 21 || r == 22) && Pending(b) { StringPends(p.states, r); }
    ActKinds(r, TopVal(p), p.ctx, c);
    KindsPush(b, q);
    ReduceKinds(p, r, c, b, q);
    FramesOfKinds(Reduced(p, r, c));
  }

  lemma ReduceKinds(p: PState, r: nat, c: Ctx, b: seq<nat>, q: nat)
    requires Good(p) && Consistent(p) && TopState(p) != FINAL && r == YyDefact(TopState(p)) != 0
    requires 1 < r < RULES && Reducible(p.states, r) && Act(r, TopVal(p), p.ctx) == Some(c)
    requires b != [] && b == p.states[..|p.states| - YyR2(r)] && q < STATES && YyStos(q) == YyR1(r)
    ensures CtxKinds(c) == Kinds(b + [q])
  {
    hide YyDefact, YyR1, YyR2, Rhs, Goto, Edge, Rank, YyStos, Waits, Act, Kinds;
    PoppedKinds(p.states, r);
    ReductionStates(q, r);
    ActKinds(r, TopVal(p), p.ctx, c);
    KindsPush(b, q);
    assert CtxKinds(p.ctx) == Kinds(p.states);
  }

  lemma FramesOfKinds(p: PState)
    requires CtxKinds(p.ctx) == Kinds(p.states)
    ensures |p.ctx.frames| == |Kinds(p.states)|
    ensures forall i | 0 <= i < |p.ctx.frames| :: p.ctx.frames[i].kind == Kinds(p.states)[i]
  {
    forall i | 0 <= i < |p.ctx.frames| ensures p.ctx.frames[i].kind == Kinds(p.states)[i] {
      assert CtxKinds(p.ctx)[i] == p.ctx.frames[i].kind;
    }
  }

  lemma ShiftConsistent(p: PState, s: nat, v: Token, t: nat)
    requires Good(p) && Consistent(p) && s < STATES && Edge(TopState(p), s) && YyStos(s) == t < TERMINALS
    requires s == FINAL || Code(v) == t
    ensures Consistent(Shifted(p, s, v))
  {
    ShiftStates(TopState(p), s, t);
    hide Edge, YyStos, Waits;
    KindsPush(p.states, s);
  }

  lemma ShiftStates(p: nat, s: nat, t: nat)
    requires s < STATES && Edge(p, s) && YyStos(s) == t < TERMINALS
    ensures s != 5 && !(25 <= s <= 27)
  {
  }

  lemma InitialConsistent()
    ensures Good(Initial()) && Consistent(Initial())
  {
  }
}
