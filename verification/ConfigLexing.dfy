/** What the scanner makes of each piece of text the writer emits. */
module ConfigLexing {
  import opened ConfigData
  import opened ConfigText
  import opened ConfigScanner
  import opened ConfigWriter

  lemma SpanOf(a: string, b: string, p: char -> bool)
    requires forall i | 0 <= i < |a| :: p(a[i])
    requires b == [] || !p(b[0])
    ensures Span(a + b, p) == |a|
  {
    if a == [] {
      assert a + b == b;
    } else {
      assert p(a[0]);
      assert (a + b)[1..] == a[1..] + b;
      SpanOf(a[1..], b, p);
    }
  }

  // ---------- Which rules cannot match, by first character ----------

  predicate StartsLayout(c: char)
  {
    c == '/' || c == '\"' || c == '\n' || c == '\r' || c == '\U{0C}' || IsBlank(c) || c == '=' || c == ':' || c == '#'
  }

  predicate StartsNumber(c: char) { IsDigit(c) || c == '+' || c == '-' || c == '.' }

  predicate StartsName(c: char) { IsAlpha(c) || c == '*' }

  lemma NoLayout(s: string)
    requires s != [] && !StartsLayout(s[0])
    ensures LayoutMatch(s).len == 0
  {
  }

  lemma NoWord(s: string)
    requires s != [] && !StartsName(s[0])
    ensures WordMatch(s).len == 0
  {
    WordStarts(s, "true");
    WordStarts(s, "false");
  }

  lemma WordStarts(s: string, word: string)
    requires s != [] && |word| > 0 && IsAlpha(word[0])
    ensures WordLen(s, word) > 0 ==> IsAlpha(s[0]) && WordLen(s, word) == |word|
  {
  }

  lemma NoNumber(s: string)
    requires s != [] && !StartsNumber(s[0])
    ensures NumberMatch(s).len == 0
  {
  }

  lemma NoPunctuation(s: string)
    requires s != [] && (StartsLayout(s[0]) || StartsName(s[0]) || StartsNumber(s[0]))
    ensures PunctuationMatch(s).len == 0
  {
  }

  // The rule groups begin with different characters, so only one of them competes.
  lemma PickOne(s: string)
    requires s != []
    ensures StartsLayout(s[0]) && LayoutMatch(s).len > 0 ==> Pick(s) == LayoutMatch(s)
    ensures StartsName(s[0]) && WordMatch(s).len > 0 ==> Pick(s) == WordMatch(s)
    ensures StartsNumber(s[0]) && NumberMatch(s).len > 0 ==> Pick(s) == NumberMatch(s)
    ensures PunctuationMatch(s).len > 0 ==> Pick(s) == PunctuationMatch(s)
  {
    hide LayoutMatch, WordMatch, NumberMatch;
    if !StartsName(s[0]) { NoWord(s); }
    if !StartsNumber(s[0]) { NoNumber(s); }
    if !StartsLayout(s[0]) { NoLayout(s); }
    if StartsLayout(s[0]) || StartsName(s[0]) || StartsNumber(s[0]) { NoPunctuation(s); }
  }

  // One step of the token stream.
  lemma LexStep(s: string)
    requires s != []
    ensures var m := Pick(s);
      && (m.rule == 21 || m.rule == 22 || m.rule == 40 ==> Lex(s) == Lex(s[m.len..]))
      && (m.rule == 5 ==> Lex(s) == Tokens(s[m.len..], InString("")))
      && (23 <= m.rule <= 39 ==>
            Lex(s) == [TokenOf(m.rule, s[..m.len])] + Lex(s[m.len..]))
  {
    hide Pick, TokenOf, StringPiece;
  }

  // ---------- Layout and punctuation ----------

  lemma PickBlank(s: string)
    requires s != [] && IsBlank(s[0])
    ensures Pick(s) == Match(22, Span(s, IsBlank))
  {
    hide Pick, WordMatch, NumberMatch, PunctuationMatch, CommentLen;
    PickOne(s);
    NoComment(s);
  }

  lemma NoComment(s: string)
    requires s != [] && s[0] != '#' && s[0] != '/'
    ensures CommentLen(s) == 0
  {
  }

  lemma LexBlank(c: char, rest: string)
    requires IsBlank(c)
    ensures Lex([c] + rest) == Lex(rest)
  {
    hide Pick, Lex;
    var s := [c] + rest;
    PickBlank(s);
    LexStep(s);
    assert s[1..] == rest;
    var n := Span(rest, IsBlank);
    assert s[1 + n..] == rest[n..];
    if rest != [] && IsBlank(rest[0]) {
      PickBlank(rest);
      LexStep(rest);
    } else {
      assert n == 0 && rest[0..] == rest;
    }
  }

  lemma LexRepeat(c: char, n: nat, rest: string)
    requires IsBlank(c)
    ensures Lex(Repeat(c, n) + rest) == Lex(rest)
  {
    if n == 0 {
      assert Repeat(c, 0) + rest == rest;
    } else {
      assert Repeat(c, n) + rest == [c] + (Repeat(c, n - 1) + rest);
      LexBlank(c, Repeat(c, n - 1) + rest);
      LexRepeat(c, n - 1, rest);
    }
  }

  lemma LexIndent(depth: nat, st: Style, rest: string)
    ensures Lex(Indent(depth, st) + rest) == Lex(rest)
  {
    hide Lex, Repeat;
    if depth <= 1 {
      assert "" + rest == rest;
    } else if st.tabWidth > 0 {
      LexRepeat(' ', (depth - 1) * st.tabWidth, rest);
    } else {
      LexRepeat('\t', depth - 1, rest);
    }
  }

  lemma LexNewline(rest: string)
    ensures Lex("\n" + rest) == Lex(rest)
  {
    var s := "\n" + rest;
    hide Pick, WordMatch, NumberMatch, PunctuationMatch, CommentLen, Lex;
    assert s[1..] == rest;
    PickOne(s);
    NoComment(s);
    assert LayoutMatch(s) == Match(21, 1);
    LexStep(s);
  }

  // The token of a punctuation mark.
  function Mark(c: char): Option<Token>
  {
    match c
    case ',' => Some(TComma)
    case '{' => Some(TGroupStart)
    case '}' => Some(TGroupEnd)
    case '[' => Some(TArrayStart)
    case ']' => Some(TArrayEnd)
    case '(' => Some(TListStart)
    case ')' => Some(TListEnd)
    case ';' => Some(TSemicolon)
    case '=' => Some(TEquals)
    case ':' => Some(TEquals)
    case _ => None
  }

  lemma LexMark(c: char, rest: string)
    requires Mark(c).Some?
    ensures Lex([c] + rest) == [Mark(c).value] + Lex(rest)
  {
    var s := [c] + rest;
    hide Pick, TokenOf, Lex;
    PickMark(s);
    LexStep(s);
    assert s[1..] == rest;
    assert s[..1] == [c];
  }

  lemma PickMark(s: string)
    requires s != [] && Mark(s[0]).Some?
    ensures Pick(s).len == 1 && 23 <= Pick(s).rule <= 39 && TokenOf(Pick(s).rule, s[..1]) == Mark(s[0]).value
    ensures !(27 <= Pick(s).rule <= 34)
  {
    hide Pick, WordMatch, NumberMatch, CommentLen, FloatLen, HexLen, IntLen;
    PickOne(s);
    NoComment(s);
    if s[0] == '=' || s[0] == ':' {
      assert LayoutMatch(s) == Match(23, 1);
    }
  }

  // ---------- Names ----------

  predicate Spells(s: string, word: string)
  {
    |s| == |word| && forall i | 0 <= i < |word| :: ToLower(s[i]) == word[i]
  }

  // The token a name is read as: true and false are booleans in any letter case.
  function NameToken(name: string): Token
  {
    if Spells(name, "true") then TBool(1)
    else if Spells(name, "false") then TBool(0)
    else TName(name)
  }

  lemma WordLenOf(name: string, rest: string, word: string)
    requires rest == [] || !IsNameChar(rest[0])
    requires word == "true" || word == "false"
    ensures WordLen(name + rest, word) <= |name|
    ensures WordLen(name + rest, word) == |name| && |name| > 0 <==> Spells(name, word)
  {
    var s := name + rest;
    if WordLen(s, word) > |name| {
      assert ToLower(s[|name|]) == word[|name|];
      assert IsAlpha(word[|name|]);
    } else if WordLen(s, word) == |name| {
      assert forall i | 0 <= i < |name| :: s[i] == name[i];
    }
    if Spells(name, word) {
      assert forall i | 0 <= i < |name| :: s[i] == name[i];
    }
  }

  lemma LexName(name: string, rest: string)
    requires ValidName(name) && (rest == [] || !IsNameChar(rest[0]))
    ensures Lex(name + rest) == [NameToken(name)] + Lex(rest)
  {
    var s := name + rest;
    hide Pick, Lex, TokenOf, NameToken;
    PickName(name, rest);
    LexStep(s);
    assert s[|name|..] == rest && s[..|name|] == name;
  }

  lemma PickName(name: string, rest: string)
    requires ValidName(name) && (rest == [] || !IsNameChar(rest[0]))
    ensures Pick(name + rest).len == |name| && 27 <= Pick(name + rest).rule <= 29
    ensures TokenOf(Pick(name + rest).rule, name) == NameToken(name)
  {
    var s := name + rest;
    hide Pick, LayoutMatch, NumberMatch, PunctuationMatch, FloatLen, HexLen, IntLen;
    PickOne(s);
    assert s[1..] == name[1..] + rest;
    SpanOf(name[1..], rest, IsNameChar);
    assert NameLen(s) == |name|;
    WordLenOf(name, rest, "true");
    WordLenOf(name, rest, "false");
    hide WordLen, NameLen, Spells;
    NotBoth(name);
  }

  lemma NotBoth(name: string)
    ensures !(Spells(name, "true") && Spells(name, "false"))
  {
  }

  // ---------- Numbers ----------

  // The characters the writer puts after a value.
  predicate Ends(rest: string)
  {
    rest != [] && (rest[0] == ',' || rest[0] == ' ' || rest[0] == ';')
  }

  predicate EndsOrL(rest: string) { Ends(rest) || (rest != [] && rest[0] == 'L') }

  predicate IsNumeral(t: string)
  {
    |t| > SignLen(t) && forall i | SignLen(t) <= i < |t| :: IsDigit(t[i])
  }

  lemma SignedIsNumeral(n: int)
    ensures IsNumeral(Signed(n)) && (Signed(n)[0] == '-' || IsDigit(Signed(n)[0]))
  {
    DigitsAre(if n < 0 then -n else n, 10);
  }

  lemma NumeralLens(t: string, rest: string)
    requires IsNumeral(t) && EndsOrL(rest)
    ensures IntLen(t + rest) == |t| && FloatLen(t + rest) == 0 && HexLen(t + rest) == 0
  {
    var s := t + rest;
    var k := SignLen(t);
    assert SignLen(s) == k;
    assert s[k..] == t[k..] + rest;
    SpanOf(t[k..], rest, IsDigit);
    assert s[|t|] == rest[0];
    assert s[|t|..] == rest;
    if |t| > 1 { assert IsDigit(t[1]); }
  }

  lemma SuffixLens(rest: string)
    ensures Ends(rest) ==> SuffixLen(rest) == 0 && SuffixLen("L" + rest) == 1
  {
  }

  lemma LexInt(n: int32, rest: string)
    requires Ends(rest)
    ensures Lex(Signed(n) + rest) == [TInt(n)] + Lex(rest)
  {
    hide Pick, Lex, TokenOf, FloatLen, HexLen, IntLen, Signed, SuffixLen, LayoutMatch, WordMatch, PunctuationMatch;
    var t := Signed(n);
    var s := t + rest;
    SignedIsNumeral(n);
    NumeralLens(t, rest);
    SuffixLens(rest);
    assert s[|t|..] == rest && s[..|t|] == t;
    assert NumberMatch(s) == Match(31, |t|);
    PickOne(s);
    LexStep(s);
    ParsePrinted(n);
    TokenOfInt(t);
  }

  lemma TokenOfInt(t: string)
    ensures TokenOf(31, t) == TInt(Atoi(t))
  {
  }

  lemma LexInt64(n: int64, rest: string)
    requires Ends(rest)
    ensures Lex((Signed(n) + "L") + rest) == [TInt64(n)] + Lex(rest)
  {
    hide Pick, Lex, TokenOf, FloatLen, HexLen, IntLen, Signed, SuffixLen, LayoutMatch, WordMatch, PunctuationMatch;
    var t := Signed(n);
    var s := (t + "L") + rest;
    SignedIsNumeral(n);
    assert s == t + ("L" + rest);
    NumeralLens(t, "L" + rest);
    NumeralLens(t, "L");
    SuffixLens(rest);
    assert s[|t|..] == "L" + rest && s[|t| + 1..] == rest && s[..|t| + 1] == t + "L";
    assert NumberMatch(s) == Match(32, |t| + 1);
    PickOne(s);
    LexStep(s);
    ParsePrinted(n);
    TokenOfInt64(t + "L");
    assert (t + "L")[..|t|] == t;
  }

  lemma TokenOfInt64(t: string)
    ensures TokenOf(32, t) == TInt64(Atoll(t[..IntLen(t)]))
  {
  }

  lemma HexLens(d: string, rest: string)
    requires d != [] && AllOf(d, IsHexDigit) && EndsOrL(rest)
    ensures HexLen("0x" + d + rest) == 2 + |d| && IntLen("0x" + d + rest) == 1 && FloatLen("0x" + d + rest) == 0
  {
    var s := "0x" + d + rest;
    assert s[2..] == d + rest;
    SpanOf(d, rest, IsHexDigit);
    assert s[0..] == s && SignLen(s) == 0;
    assert s == "0" + (s[1..]) && s[1] == 'x';
    SpanOf("0", s[1..], IsDigit);
  }

  lemma LexHex(i: int32, rest: string)
    requires Ends(rest)
    ensures Lex("0x" + Digits(Unsigned(i, TWO32), 16) + rest) == [THex(i)] + Lex(rest)
  {
    hide Pick, Lex, TokenOf, FloatLen, HexLen, IntLen, SuffixLen, LayoutMatch, WordMatch, PunctuationMatch, Digits;
    var d := Digits(Unsigned(i, TWO32), 16);
    var s := "0x" + d + rest;
    DigitsAre(Unsigned(i, TWO32), 16);
    HexLens(d, rest);
    SuffixLens(rest);
    assert s[1] == 'x' && s[2 + |d|..] == rest && s[..2 + |d|] == "0x" + d;
    SuffixOther(s[1..]);
    assert NumberMatch(s) == Match(33, 2 + |d|);
    PickOne(s);
    LexStep(s);
    HexPrinted(i, 0);
    TokenOfHex(d);
  }

  lemma SuffixOther(s: string)
    requires s != [] && s[0] != 'L'
    ensures SuffixLen(s) == 0
  {
  }

  lemma TokenOfHex(d: string)
    requires d != []
    ensures TokenOf(33, "0x" + d) == THex(HexToInt(d))
  {
    assert ("0x" + d)[2..] == d;
  }

  lemma LexHex64(l: int64, rest: string)
    requires Ends(rest)
    ensures Lex(("0x" + Digits(Unsigned(l, TWO64), 16) + "L") + rest) == [THex64(l)] + Lex(rest)
  {
    hide Pick, Lex, TokenOf, FloatLen, HexLen, IntLen, SuffixLen, LayoutMatch, WordMatch, PunctuationMatch, Digits;
    var d := Digits(Unsigned(l, TWO64), 16);
    var s := ("0x" + d + "L") + rest;
    DigitsAre(Unsigned(l, TWO64), 16);
    assert s == "0x" + d + ("L" + rest);
    HexLens(d, "L" + rest);
    HexLens(d, "L");
    SuffixLens(rest);
    assert s[1] == 'x' && s[2 + |d|..] == "L" + rest && s[3 + |d|..] == rest && s[..3 + |d|] == "0x" + d + "L";
    SuffixOther(s[1..]);
    assert NumberMatch(s) == Match(34, 3 + |d|);
    PickOne(s);
    LexStep(s);
    HexPrinted(0, l);
    TokenOfHex64("0x" + d + "L");
    assert ("0x" + d + "L")[2..2 + |d|] == d;
  }

  lemma TokenOfHex64(t: string)
    requires HexLen(t) > 2
    ensures TokenOf(34, t) == THex64(HexToInt64(t[2..HexLen(t)]))
  {
  }

  // ---------- Strings and booleans ----------

  // The bytes of a C string: none is NUL.
  predicate IsByte(c: char) { 0 < c as int < 256 }

  lemma LexEscaped(c: char, rest: string, buf: string)
    requires IsByte(c)
    ensures Tokens(Escaped(c) + rest, InString(buf)) == Tokens(rest, InString(buf + [c]))
  {
    var s := Escaped(c) + rest;
    PieceOfEscaped(c, rest);
    hide Escaped, StringPiece;
    assert s[|Escaped(c)|..] == rest;
  }

  lemma PieceOfEscaped(c: char, rest: string)
    requires IsByte(c)
    ensures Escaped(c) != [] && Escaped(c)[0] != '\"'
    ensures StringPiece(Escaped(c) + rest) == Piece([c], |Escaped(c)|)
  {
    var s := Escaped(c) + rest;
    if c < ' ' && c != '\n' && c != '\r' && c != '\t' && c != '\U{0C}' {
      var n := c as nat;
      assert s[1] == 'x' && s[2] == DigitChar(n / 16) && s[3] == DigitChar(n % 16);
      assert DigitVal(s[2]) * 16 + DigitVal(s[3]) == n;
    }
  }

  lemma {:induction false} LexEscapedText(t: string, rest: string, buf: string)
    requires AllOf(t, IsByte)
    ensures Tokens(EscapedText(t) + rest, InString(buf)) == Tokens(rest, InString(buf + t))
    decreases |t|
  {
    hide Tokens, Escaped;
    if t == [] {
      assert "" + rest == rest && buf + "" == buf;
    } else {
      var k := |t| - 1;
      assert EscapedText(t) + rest == EscapedText(t[..k]) + (Escaped(t[k]) + rest);
      LexEscapedText(t[..k], Escaped(t[k]) + rest, buf);
      LexEscaped(t[k], rest, buf + t[..k]);
      assert (buf + t[..k]) + [t[k]] == buf + t;
    }
  }

  lemma LexString(t: string, rest: string)
    requires AllOf(t, IsByte)
    ensures Lex(("\"" + EscapedText(t) + "\"") + rest) == [TString(t)] + Lex(rest)
  {
    var s := ("\"" + EscapedText(t) + "\"") + rest;
    hide EscapedText, Pick, Tokens, Lex;
    PickQuote(s);
    LexStep(s);
    assert s[1..] == EscapedText(t) + ("\"" + rest);
    LexEscapedText(t, "\"" + rest, "");
    assert "" + t == t;
    LexCloseQuote(t, rest);
  }

  lemma LexCloseQuote(t: string, rest: string)
    ensures Tokens("\"" + rest, InString(t)) == [TString(t)] + Lex(rest)
  {
    hide Pick, StringPiece, TokenOf;
    assert ("\"" + rest)[1..] == rest;
  }

  lemma PickQuote(s: string)
    requires s != [] && s[0] == '\"'
    ensures Pick(s) == Match(5, 1)
  {
    hide Pick, WordMatch, NumberMatch, PunctuationMatch, CommentLen;
    PickOne(s);
    NoComment(s);
  }

  lemma LexBool(b: bool, rest: string)
    requires Ends(rest)
    ensures Lex((if b then "true" else "false") + rest) == [TBool(if b then 1 else 0)] + Lex(rest)
  {
    hide Lex;
    LexName(if b then "true" else "false", rest);
  }
}
