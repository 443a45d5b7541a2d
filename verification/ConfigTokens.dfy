/** The tokens of a written configuration, and that the scanner reads them back. */
module ConfigTokens {
  import opened ConfigData
  import opened ConfigText
  import opened ConfigScanner
  import opened ConfigWriter
  import opened ConfigLexing
  import opened ConfigMeaning

  // ---------- What is written, and what it should be read as ----------

  // A well-formed tree without floats, whose strings are byte strings.
  ghost predicate Printable(s: Setting)
  {
    && WellFormed(s)
    && (forall i | 0 <= i < |s.elems| :: Printable(s.elems[i]))
    && !s.load.Float?
    && (s.load.Str? && s.load.sval.Some? ==> AllOf(s.load.sval.value, IsByte))
  }

  // No setting is called true or false, in any letter case.
  ghost predicate PlainNames(s: Setting)
  {
    && (forall i | 0 <= i < |s.elems| :: PlainNames(s.elems[i]))
    && (s.name.Some? ==> NameToken(s.name.value) == TName(s.name.value))
  }

  // What the text of a value stands for: the default format is spelt out, every true
  // boolean is 1, and a missing string is empty.
  function NormalLoad(v: Load, st: Style): Load
  {
    match v
    case Int(i, f) => Int(i, Effective(f, st))
    case Int64(l, f) => Int64(l, Effective(f, st))
    case Bool(b) => Bool(if b != 0 then 1 else 0)
    case Str(t) => Str(Some(if t.Some? then t.value else ""))
    case _ => v
  }

  function Normal(s: Setting, st: Style): Setting
  {
    Setting(s.name, NormalLoad(s.load, st), Normals(s.elems, st))
  }

  function Normals(es: seq<Setting>, st: Style): (ns: seq<Setting>)
    ensures |ns| == |es|
  {
    if es == [] then [] else Normals(es[..|es| - 1], st) + [Normal(es[|es| - 1], st)]
  }

  // The normal form differs from the tree in these places only.
  ghost predicate Canonical(s: Setting, st: Style)
  {
    && (forall i | 0 <= i < |s.elems| :: Canonical(s.elems[i], st))
    && match s.load
       case Int(_, f) => f == Decimal ==> st.format == Decimal
       case Int64(_, f) => f == Decimal ==> st.format == Decimal
       case Bool(b) => b == 0 || b == 1
       case Str(t) => t.Some?
       case _ => true
  }

  // A tree is its own normal form exactly if its booleans are 0 or 1, its strings are present,
  // and no number leaves its format to a default other than decimal.
  lemma {:induction false} CanonicalIsNormal(s: Setting, st: Style)
    ensures Normal(s, st) == s <==> Canonical(s, st)
    decreases s
  {
    hide NormalLoad;
    CanonicalLoad(s, st);
    CanonicalElems(s.elems, st);
  }

  lemma CanonicalLoad(s: Setting, st: Style)
    ensures NormalLoad(s.load, st) == s.load <==> Canonical(s.(elems := []), st)
  {
  }

  lemma {:induction false} CanonicalElems(es: seq<Setting>, st: Style)
    ensures Normals(es, st) == es <==> forall i | 0 <= i < |es| :: Canonical(es[i], st)
    decreases es
  {
    if es != [] {
      hide Normal, Canonical;
      var n := |es| - 1;
      CanonicalElems(es[..n], st);
      CanonicalIsNormal(es[n], st);
      assert es == es[..n] + [es[n]];
      assert forall i | 0 <= i < n :: es[..n][i] == es[i];
      var ns := Normals(es, st);
      assert ns == Normals(es[..n], st) + [Normal(es[n], st)];
      if ns == es { assert ns[..n] == es[..n] && ns[n] == es[n]; }
    }
  }

  // The token of a scalar.
  function ScalarToken(v: Load, st: Style): Token
  {
    match v
    case Bool(b) => TBool(if b != 0 then 1 else 0)
    case Int(i, f) => if Effective(f, st) == Hexadecimal then THex(i) else TInt(i)
    case Int64(l, f) => if Effective(f, st) == Hexadecimal then THex64(l) else TInt64(l)
    case Float(t) => TFloat(t)
    case Str(t) => TString(if t.Some? then t.value else "")
    case _ => TGarbage
  }

  function StartToken(k: Kind): Token
  {
    match k case Group => TGroupStart case Array => TArrayStart case List => TListStart
  }

  function EndToken(k: Kind): Token
  {
    match k case Group => TGroupEnd case Array => TArrayEnd case List => TListEnd
  }

  function ValueTokens(s: Setting, st: Style): seq<Token>
    decreases s, 0
  {
    if s.load.Aggregate? then
      [StartToken(s.load.kind)]
      + (if s.load.kind == Group then MemberTokens(s.elems, st)
         else if s.elems == [] then []
         else ItemTokens(s.elems[..|s.elems| - 1], st) + ValueTokens(s.elems[|s.elems| - 1], st))
      + [EndToken(s.load.kind)]
    else [ScalarToken(s.load, st)]
  }

  function ItemTokens(es: seq<Setting>, st: Style): seq<Token>
    decreases es, 0
  {
    if es == [] then []
    else ItemTokens(es[..|es| - 1], st) + ValueTokens(es[|es| - 1], st) + [TComma]
  }

  function MemberTokens(es: seq<Setting>, st: Style): seq<Token>
    decreases es, 0
  {
    if es == [] then []
    else MemberTokens(es[..|es| - 1], st) + SettingTokens(es[|es| - 1], st)
  }

  function SettingTokens(s: Setting, st: Style): seq<Token>
    decreases s, 1
  {
    [NameToken(if s.name.Some? then s.name.value else ""), TEquals] + ValueTokens(s, st) + [TSemicolon]
  }

  // ---------- The scanner reads what the writer wrote ----------

  ghost predicate Members(es: seq<Setting>)
  {
    && (forall i | 0 <= i < |es| :: Printable(es[i]))
    && (forall i | 0 <= i < |es| :: es[i].name.Some? && ValidName(es[i].name.value))
  }

  ghost predicate Items(es: seq<Setting>)
  {
    forall i | 0 <= i < |es| :: Printable(es[i])
  }

  lemma LexScalar(s: Setting, depth: nat, st: Style, rest: string)
    requires Printable(s) && !s.load.Aggregate? && Ends(rest)
    ensures Lex(WriteValue(s, depth, st) + rest) == ValueTokens(s, st) + Lex(rest)
  {
    hide Lex, Digits, Signed, EscapedText;
    match s.load
    case Bool(b) => LexBool(b != 0, rest);
    case Int(i, f) =>
      if Effective(f, st) == Hexadecimal { LexHex(i, rest); } else { LexInt(i, rest); }
    case Int64(l, f) =>
      if Effective(f, st) == Hexadecimal { LexHex64(l, rest); } else { LexInt64(l, rest); }
    case Str(t) => LexString(if t.Some? then t.value else "", rest);
  }

  lemma {:induction false} LexValue(s: Setting, depth: nat, st: Style, rest: string)
    requires Printable(s) && Ends(rest) && depth > 0
    ensures Lex(WriteValue(s, depth, st) + rest) == ValueTokens(s, st) + Lex(rest)
    decreases s, 1
  {
    if !s.load.Aggregate? {
      LexScalar(s, depth, st, rest);
    } else if s.load.kind == Group {
      LexGroup(s, depth, st, rest);
    } else {
      LexList(s, depth, st, rest);
    }
  }

  lemma {:induction false} LexGroup(s: Setting, depth: nat, st: Style, rest: string)
    requires Printable(s) && s.load == Aggregate(Group) && depth > 0
    ensures Lex(WriteValue(s, depth, st) + rest) == ValueTokens(s, st) + Lex(rest)
    decreases s, 0
  {
    hide Lex, Indent;
    var body := WriteMembers(s.elems, depth + 1, st);
    var close := Indent(depth, st) + ("}" + rest);
    calc {
      Lex(WriteValue(s, depth, st) + rest);
      { assert WriteValue(s, depth, st) + rest == "\n" + (Indent(depth, st) + ("{" + ("\n" + (body + close)))); }
      Lex("\n" + (Indent(depth, st) + ("{" + ("\n" + (body + close)))));
      { LexNewline(Indent(depth, st) + ("{" + ("\n" + (body + close)))); }
      { LexIndent(depth, st, "{" + ("\n" + (body + close))); }
      { LexMark('{', "\n" + (body + close)); }
      { LexNewline(body + close); }
      [TGroupStart] + Lex(body + close);
      { LexMembers(s.elems, depth + 1, st, close); }
      [TGroupStart] + (MemberTokens(s.elems, st) + Lex(close));
      { LexIndent(depth, st, "}" + rest); LexMark('}', rest); }
      [TGroupStart] + (MemberTokens(s.elems, st) + ([TGroupEnd] + Lex(rest)));
      ValueTokens(s, st) + Lex(rest);
    }
  }

  lemma EmptyListShape(s: Setting, depth: nat, st: Style, rest: string)
    requires s.load.Aggregate? && s.load.kind != Group && s.elems == []
    ensures WriteValue(s, depth, st) + rest == Opener(s.load.kind) + (Closer(s.load.kind) + rest)
    ensures ValueTokens(s, st) == [StartToken(s.load.kind), EndToken(s.load.kind)]
  {
  }

  lemma ListShape(s: Setting, depth: nat, st: Style, rest: string)
    requires s.load.Aggregate? && s.load.kind != Group && s.elems != []
    ensures var n := |s.elems| - 1;
      && WriteValue(s, depth, st) + rest
      == Opener(s.load.kind) + (WriteItems(s.elems[..n], depth + 1, st)
                                + (WriteValue(s.elems[n], depth + 1, st) + (" " + (Closer(s.load.kind) + rest))))
      && ValueTokens(s, st)
      == [StartToken(s.load.kind)] + (ItemTokens(s.elems[..n], st) + (ValueTokens(s.elems[n], st) + [EndToken(s.load.kind)]))
  {
    hide WriteItems, ItemTokens;
  }

  lemma LexBrackets(k: Kind, rest: string)
    requires k != Group
    ensures Lex(Opener(k) + rest) == [StartToken(k)] + Lex(rest)
    ensures Lex(Closer(k) + rest) == [EndToken(k)] + Lex(rest)
  {
    hide Lex;
    var a := if k == List then '(' else '[';
    assert Opener(k) + rest == [a] + ([' '] + rest);
    LexMark(a, [' '] + rest);
    LexBlank(' ', rest);
    LexMark(if k == List then ')' else ']', rest);
  }

  lemma {:induction false} LexList(s: Setting, depth: nat, st: Style, rest: string)
    requires Printable(s) && s.load.Aggregate? && s.load.kind != Group && depth > 0
    ensures Lex(WriteValue(s, depth, st) + rest) == ValueTokens(s, st) + Lex(rest)
    decreases s, 0
  {
    hide Lex, WriteValue, ValueTokens, WriteItems, ItemTokens, Opener, Closer;
    var k := s.load.kind;
    var close := Closer(k) + rest;
    LexBrackets(k, rest);
    if s.elems == [] {
      EmptyListShape(s, depth, st, rest);
      LexBrackets(k, close);
    } else {
      var n := |s.elems| - 1;
      ListShape(s, depth, st, rest);
      var last := WriteValue(s.elems[n], depth + 1, st) + (" " + close);
      LexBrackets(k, WriteItems(s.elems[..n], depth + 1, st) + last);
      LexItems(s.elems[..n], depth + 1, st, last);
      LexValue(s.elems[n], depth + 1, st, " " + close);
      LexBlank(' ', close);
    }
  }

  lemma {:induction false} LexItems(es: seq<Setting>, depth: nat, st: Style, rest: string)
    requires Items(es) && depth > 0
    ensures Lex(WriteItems(es, depth, st) + rest) == ItemTokens(es, st) + Lex(rest)
    decreases es, 0
  {
    hide Lex, WriteValue, ValueTokens;
    if es == [] {
      assert "" + rest == rest;
    } else {
      var n := |es| - 1;
      var tail := "," + (" " + rest);
      assert WriteItems(es, depth, st) + rest
          == WriteItems(es[..n], depth, st) + (WriteValue(es[n], depth, st) + tail);
      LexItems(es[..n], depth, st, WriteValue(es[n], depth, st) + tail);
      LexValue(es[n], depth, st, tail);
      LexMark(',', " " + rest);
      LexBlank(' ', rest);
    }
  }

  lemma {:induction false} LexMembers(es: seq<Setting>, depth: nat, st: Style, rest: string)
    requires Members(es) && depth > 0
    ensures Lex(WriteMembers(es, depth, st) + rest) == MemberTokens(es, st) + Lex(rest)
    decreases es, 0
  {
    hide Lex, WriteSetting, SettingTokens;
    if es == [] {
      assert "" + rest == rest;
    } else {
      var n := |es| - 1;
      assert WriteMembers(es, depth, st) + rest
          == WriteMembers(es[..n], depth, st) + (WriteSetting(es[n], depth, st) + rest);
      LexMembers(es[..n], depth, st, WriteSetting(es[n], depth, st) + rest);
      LexSetting(es[n], depth, st, rest);
    }
  }

  lemma {:induction false} LexSetting(s: Setting, depth: nat, st: Style, rest: string)
    requires Printable(s) && s.name.Some? && ValidName(s.name.value) && depth > 0
    ensures Lex(WriteSetting(s, depth, st) + rest) == SettingTokens(s, st) + Lex(rest)
    decreases s, 2
  {
    hide Lex, Indent, WriteValue, ValueTokens, NameToken, ValidName;
    var name := s.name.value;
    var mark := if s.load == Aggregate(Group) then ':' else '=';
    var tail := ";" + ("\n" + rest);
    var value := WriteValue(s, depth, st) + tail;
    assert WriteSetting(s, depth, st) + rest == Indent(depth, st) + (name + ([' '] + ([mark] + ([' '] + value))));
    LexIndent(depth, st, name + ([' '] + ([mark] + ([' '] + value))));
    LexName(name, [' '] + ([mark] + ([' '] + value)));
    LexBlank(' ', [mark] + ([' '] + value));
    LexMark(mark, [' '] + value);
    LexBlank(' ', value);
    LexValue(s, depth, st, tail);
    LexMark(';', "\n" + rest);
    LexNewline(rest);
  }
}
