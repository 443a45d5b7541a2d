/** Writing a configuration and reading it back. */
module ConfigRoundTrip {
  import opened ConfigData
  import opened ConfigScanner
  import opened ConfigWriter
  import opened ConfigTables
  import opened ConfigDerivation
  import opened ConfigMeaning
  import opened ConfigTokens
  import opened ConfigTrees
  import opened ConfigNames

  // ---------- The round trip ----------

  // Reading a configuration text: the root setting, or None when reading fails.
  function Read(text: string): Option<Setting>
  {
    match Parse(Lex(text))
    case None => None
    case Some(c) => if c.frames == [] then None else Some(Setting(None, Aggregate(Group), Top(c).done))
  }

  ghost predicate IsRoot(root: Setting) { root.name == None && root.load == Aggregate(Group) && Printable(root) }

  lemma LexConfig(root: Setting, st: Style)
    requires IsRoot(root)
    ensures Lex(WriteConfig(root, st)) == MemberTokens(root.elems, st)
  {
    hide WriteMembers, MemberTokens;
    var body := WriteMembers(root.elems, 1, st);
    assert WriteValue(root, 0, st) == body;
    assert WriteConfig(root, st) == body + "";
    LexMembers(root.elems, 1, st, "");
    assert Lex("") == [];
  }

  lemma ParsePlain(root: Setting, st: Style)
    requires IsRoot(root) && PlainNames(root)
    ensures Parse(MemberTokens(root.elems, st))
         == if Shallow(root) then Some(RootCtx(Normals(root.elems, st))) else None
  {
    hide Parse, Exec;
    LeftSides();
    hide YyR1;
    var es := root.elems;
    var t := RootTree(es, st);
    if es == [] {
      Empty(2);
    } else {
      MembersTreeIs(es, st);
      Wrap(3, MembersTree(es, st), 25, MemberTokens(es, st), Normals(es, st), MembersDepth(es));
    }
    ParseDerivation(t);
    ConfigurationMeans(t);
  }

  lemma ParseStray(tokens: seq<Token>)
    requires StrayEquals(tokens)
    ensures Parse(tokens) == None
  {
    hide Parse, Derives, Yield, Mean, Need;
    if Parse(tokens).Some? {
      ParserBuildsMeaning(tokens, Parse(tokens).value);
      var t :| Derives(t, 24) && Yield(t) == tokens;
      DerivedEquals(t, 24);
      assert false;
    }
  }

  // Reading back what was written gives the normal form of the tree, exactly when no
  // setting's name spells true or false and the nesting fits the parser's stack; otherwise
  // reading fails.
  lemma RoundTrip(root: Setting, st: Style)
    requires IsRoot(root)
    ensures Read(WriteConfig(root, st))
         == if PlainNames(root) && Shallow(root) then Some(Normal(root, st)) else None
  {
    hide Lex, Parse, WriteConfig, MemberTokens, Normals;
    LexConfig(root, st);
    if PlainNames(root) {
      ParsePlain(root, st);
    } else {
      assert root.(name := None) == root;
      StrayValue(root, st);
      StrayRoot(root, st);
      ParseStray(MemberTokens(root.elems, st));
    }
  }

  lemma StrayRoot(root: Setting, st: Style)
    requires IsRoot(root) && StrayEquals(ValueTokens(root, st))
    ensures StrayEquals(MemberTokens(root.elems, st))
  {
    hide MemberTokens;
    var m := MemberTokens(root.elems, st);
    var ts := [TGroupStart] + m + [TGroupEnd];
    assert ValueTokens(root, st) == ts;
    var i :| 0 < i < |ts| && ts[i] == TEquals && !ts[i - 1].TName?;
    if i == 1 { MembersBegin(root.elems, st); }
    assert m[i - 1] == ts[i] && m[i - 2] == ts[i - 1];
  }

  lemma {:induction false} MembersBegin(es: seq<Setting>, st: Style)
    ensures MemberTokens(es, st) == [] || MemberTokens(es, st)[0] != TEquals
    decreases es
  {
    if es != [] {
      MembersBegin(es[..|es| - 1], st);
      assert SettingTokens(es[|es| - 1], st)[0] != TEquals;
    }
  }

  // The tree itself comes back exactly if, moreover, it is its own normal form: its booleans are
  // 0 or 1, its strings are present, and no number has another format than it seems to have.
  lemma RoundTripExact(root: Setting, st: Style)
    requires IsRoot(root)
    ensures Read(WriteConfig(root, st)) == Some(root)
       <==> PlainNames(root) && Shallow(root) && Canonical(root, st)
  {
    hide Read, WriteConfig, Normal, Shallow, Canonical;
    RoundTrip(root, st);
    CanonicalIsNormal(root, st);
  }
}
