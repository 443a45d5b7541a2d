/** Settings whose names read as booleans. */
module ConfigNames {
  import opened ConfigData
  import opened ConfigWriter
  import opened ConfigLexing
  import opened ConfigTables
  import opened ConfigDerivation
  import opened ConfigTokens
  import opened ConfigTrees

  // ---------- Names that read as booleans ----------

  // A token sequence in which something other than a name comes before an equals sign.
  ghost predicate StrayEquals(ts: seq<Token>)
  {
    exists i :: 0 < i < |ts| && ts[i] == TEquals && !ts[i - 1].TName?
  }

  ghost predicate EqualsNamed(ts: seq<Token>)
  {
    forall i | 0 <= i < |ts| && ts[i] == TEquals :: i > 0 && ts[i - 1].TName?
  }

  lemma EqualsNamedConcat(a: seq<Token>, b: seq<Token>)
    requires EqualsNamed(a) && EqualsNamed(b)
    ensures EqualsNamed(a + b)
  {
    var c := a + b;
    forall i | 0 <= i < |c| && c[i] == TEquals ensures i > 0 && c[i - 1].TName? {
      if i >= |a| { assert b[i - |a|] == TEquals; }
    }
  }

  // In every derivation an equals sign is preceded by a name.
  lemma {:induction false} DerivedEquals(t: PTree, x: nat)
    requires Derives(t, x) && x != 11
    ensures EqualsNamed(Yield(t))
    decreases t
  {
    if t.Node? {
      if t.rule == 12 {
        SettingEquals(t);
      } else {
        hide Rhs, YyR1;
        OnlySettingsHaveEquals(t.rule);
        DerivedEqualsAll(t.kids, Rhs(t.rule));
      }
    }
  }

  lemma OnlySettingsHaveEquals(r: nat)
    requires 1 < r < RULES && r != 12
    ensures forall i | 0 <= i < |Rhs(r)| :: Rhs(r)[i] != 11
  {
  }

  lemma {:induction false} DerivedEqualsAll(kids: seq<PTree>, xs: seq<nat>)
    requires |kids| == |xs| && forall i | 0 <= i < |kids| :: Derives(kids[i], xs[i]) && xs[i] != 11
    ensures EqualsNamed(Yields(kids))
    decreases kids
  {
    if kids != [] {
      var n := |kids| - 1;
      DerivedEqualsAll(kids[..n], xs[..n]);
      DerivedEquals(kids[n], xs[n]);
      EqualsNamedConcat(Yields(kids[..n]), Yield(kids[n]));
    }
  }

  lemma {:induction false} SettingEquals(t: PTree)
    requires Derives(t, 28) && t.Node? && t.rule == 12
    ensures EqualsNamed(Yield(t))
    decreases t, 0
  {
    hide Rhs, YyR1;
    SettingKids(t);
    var kids := t.kids;
    DerivedEquals(kids[3], 34);
    DerivedEquals(kids[4], 27);
    MarkerYield(kids[1]);
    hide Derives;
    YieldsNext(kids);
    BracketYield(kids[..4]);
    var head := [kids[0].tok, TEquals];
    assert EqualsNamed(head);
    assert Yield(kids[0]) + Yield(kids[1]) + Yield(kids[2]) == head;
    hide Yield, Yields;
    EqualsNamedConcat(head, Yield(kids[3]));
    EqualsNamedConcat(head + Yield(kids[3]), Yield(kids[4]));
  }

  lemma SettingKids(t: PTree)
    requires Derives(t, 28) && t.Node? && t.rule == 12
    ensures |t.kids| == 5 && Derives(t.kids[1], 29) && Derives(t.kids[3], 34) && Derives(t.kids[4], 27)
    ensures t.kids[0].Leaf? && t.kids[0].tok.TName? && t.kids[2] == Leaf(TEquals)
  {
    var kids := t.kids;
    assert Derives(kids[0], 10) && Derives(kids[1], 29) && Derives(kids[2], 11);
    assert Derives(kids[3], 34) && Derives(kids[4], 27);
  }

  lemma MarkerYield(t: PTree)
    requires Derives(t, 29)
    ensures Yield(t) == []
  {
  }

  lemma StrayConcat(a: seq<Token>, b: seq<Token>, c: seq<Token>)
    requires StrayEquals(b)
    ensures StrayEquals(a + b + c)
  {
    var i :| 0 < i < |b| && b[i] == TEquals && !b[i - 1].TName?;
    var d := a + b + c;
    assert d[|a| + i] == b[i] && d[|a| + i - 1] == b[i - 1];
  }

  lemma {:induction false} StrayMember(es: seq<Setting>, k: nat, st: Style)
    requires k < |es| && StrayEquals(SettingTokens(es[k], st))
    ensures StrayEquals(MemberTokens(es, st))
    decreases es
  {
    hide SettingTokens;
    var n := |es| - 1;
    if k == n {
      StrayConcat(MemberTokens(es[..n], st), SettingTokens(es[n], st), []);
      assert MemberTokens(es[..n], st) + SettingTokens(es[n], st) + [] == MemberTokens(es, st);
    } else {
      StrayMember(es[..n], k, st);
      StrayConcat([], MemberTokens(es[..n], st), SettingTokens(es[n], st));
      assert [] + MemberTokens(es[..n], st) + SettingTokens(es[n], st) == MemberTokens(es, st);
    }
  }

  lemma {:induction false} StrayItem(es: seq<Setting>, k: nat, st: Style)
    requires k < |es| && StrayEquals(ValueTokens(es[k], st))
    ensures StrayEquals(ItemTokens(es, st))
    decreases es
  {
    hide ValueTokens;
    var n := |es| - 1;
    if k == n {
      StrayConcat(ItemTokens(es[..n], st), ValueTokens(es[n], st), [TComma]);
    } else {
      StrayItem(es[..n], k, st);
      StrayConcat([], ItemTokens(es[..n], st), ValueTokens(es[n], st) + [TComma]);
      assert [] + ItemTokens(es[..n], st) + (ValueTokens(es[n], st) + [TComma]) == ItemTokens(es, st);
    }
  }

  // A name spelling true or false leaves a boolean before an equals sign.
  lemma {:induction false} StrayValue(s: Setting, st: Style)
    requires Printable(s) && !PlainNames(s.(name := None))
    ensures StrayEquals(ValueTokens(s, st))
    decreases s, 0
  {
    var es := s.elems;
    var k :| 0 <= k < |es| && !PlainNames(es[k]);
    assert s.load.Aggregate?;
    if s.load.kind == Group {
      StraySetting(es[k], st);
      StrayMember(es, k, st);
      StrayConcat([TGroupStart], MemberTokens(es, st), [TGroupEnd]);
    } else {
      assert es[k].name == None && es[k].(name := None) == es[k];
      StrayValue(es[k], st);
      StrayList(s, k, st);
    }
  }

  lemma StrayWithin(a: seq<Token>, items: seq<Token>, last: seq<Token>, z: seq<Token>)
    requires StrayEquals(items) || StrayEquals(last)
    ensures StrayEquals(a + (items + (last + z)))
  {
    hide StrayEquals;
    if StrayEquals(items) {
      StrayConcat(a, items, last + z);
      assert a + items + (last + z) == a + (items + (last + z));
    } else {
      StrayConcat(a + items, last, z);
      assert a + items + last + z == a + (items + (last + z));
    }
  }

  lemma StrayList(s: Setting, k: nat, st: Style)
    requires s.load.Aggregate? && s.load.kind != Group && k < |s.elems| && StrayEquals(ValueTokens(s.elems[k], st))
    ensures StrayEquals(ValueTokens(s, st))
  {
    hide StrayEquals, ValueTokens, ItemTokens, WriteValue, WriteItems;
    var es := s.elems;
    var n := |es| - 1;
    if k < n { StrayItem(es[..n], k, st); }
    StrayWithin([StartToken(s.load.kind)], ItemTokens(es[..n], st), ValueTokens(es[n], st), [EndToken(s.load.kind)]);
    ListShape(s, 0, st, "");
  }

  lemma {:induction false} StraySetting(s: Setting, st: Style)
    requires Printable(s) && s.name.Some? && ValidName(s.name.value) && !PlainNames(s)
    ensures StrayEquals(SettingTokens(s, st))
    decreases s, 1
  {
    var head := [NameToken(s.name.value), TEquals];
    if NameToken(s.name.value) != TName(s.name.value) {
      assert head[1] == TEquals && !head[1 - 1].TName?;
      StrayConcat([], head, ValueTokens(s, st) + [TSemicolon]);
      assert [] + head + (ValueTokens(s, st) + [TSemicolon]) == SettingTokens(s, st);
    } else {
      StrayValue(s, st);
      StrayConcat(head, ValueTokens(s, st), [TSemicolon]);
    }
  }
}
