/** The scanner of libconfig (scanner.c): its token rules, longest match first. */
module ConfigScanner {
  import opened ConfigData
  import opened ConfigText

  // ---------- How far each rule of the initial state matches ----------

  function Span(s: string, p: char -> bool): (n: nat)
    ensures n <= |s|
  {
    if s != [] && p(s[0]) then 1 + Span(s[1..], p) else 0
  }

  predicate IsBlank(c: char) { c == ' ' || c == '\t' }

  predicate NotNewline(c: char) { c != '\n' }

  function ToLower(c: char): char
  {
    if 'A' <= c <= 'Z' then c - 'A' + 'a' else c
  }

  // s begins with a word, in any letter case.
  function WordLen(s: string, word: string): nat
  {
    if |s| >= |word| && (forall i | 0 <= i < |word| :: ToLower(s[i]) == word[i]) then |word| else 0
  }

  function CharLen(s: string, a: char, b: char, c: char): nat
  {
    if s != [] && (s[0] == a || s[0] == b || s[0] == c) then 1 else 0
  }

  function NameLen(s: string): (n: nat)
    ensures n <= |s|
  {
    if s != [] && (IsAlpha(s[0]) || s[0] == '*') then 1 + Span(s[1..], IsNameChar) else 0
  }

  function SignLen(s: string): (n: nat)
    ensures n <= |s|
  {
    if s != [] && (s[0] == '+' || s[0] == '-') then 1 else 0
  }

  function IntLen(s: string): (n: nat)
    ensures n <= |s|
  {
    var d := Span(s[SignLen(s)..], IsDigit);
    if d > 0 then SignLen(s) + d else 0
  }

  // One or two letters L.
  function SuffixLen(s: string): (n: nat)
    ensures n <= |s|
  {
    if s == [] || s[0] != 'L' then 0 else if |s| > 1 && s[1] == 'L' then 2 else 1
  }

  function Suffixed(s: string, n: nat): (m: nat)
    requires n <= |s|
    ensures m <= |s|
  {
    if n > 0 && SuffixLen(s[n..]) > 0 then n + SuffixLen(s[n..]) else 0
  }

  function HexLen(s: string): (n: nat)
    ensures n <= |s| && (n > 0 ==> n > 2)
  {
    if |s| > 2 && s[0] == '0' && (s[1] == 'x' || s[1] == 'X') && Span(s[2..], IsHexDigit) > 0
    then 2 + Span(s[2..], IsHexDigit) else 0
  }

  function ExponentLen(s: string): (n: nat)
    ensures n <= |s|
  {
    if s == [] || (s[0] != 'e' && s[0] != 'E') then 0
    else
      var k := 1 + SignLen(s[1..]);
      var d := Span(s[k..], IsDigit);
      if d > 0 then k + d else 0
  }

  function FloatLen(s: string): (n: nat)
    ensures n <= |s|
  {
    var k := SignLen(s);
    var m := k + Span(s[k..], IsDigit);
    if m < |s| && s[m] == '.' then
      var e := m + 1 + Span(s[m + 1..], IsDigit);
      e + ExponentLen(s[e..])
    else if m > k && ExponentLen(s[m..]) > 0 then m + ExponentLen(s[m..])
    else 0
  }

  // A comment to the end of the line; it must be followed by a newline.
  function CommentLen(s: string): (n: nat)
    ensures n <= |s|
  {
    var k := if s != [] && s[0] == '#' then 1 else if |s| > 1 && s[..2] == "//" then 2 else 0;
    var e := k + Span(s[k..], NotNewline);
    if k > 0 && e < |s| then e else 0
  }

  // ---------- The longest match ----------

  // A rule, by its number in the scanner's action switch, and how much it matches.
  datatype Match = Match(rule: nat, len: nat)

  // The longer match wins, the earlier rule on a tie.
  function Longer(a: Match, b: Match): Match { if b.len > a.len then b else a }

  function PunctuationMatch(s: string): (m: Match)
    ensures m.len <= |s|
  {
    if s == [] then Match(41, 0)
    else if s[0] == ',' then Match(24, 1)
    else if s[0] == '{' then Match(25, 1)
    else if s[0] == '}' then Match(26, 1)
    else if s[0] == '[' then Match(35, 1)
    else if s[0] == ']' then Match(36, 1)
    else if s[0] == '(' then Match(37, 1)
    else if s[0] == ')' then Match(38, 1)
    else if s[0] == ';' then Match(39, 1)
    else Match(41, 0)
  }

  function WordMatch(s: string): (m: Match)
    ensures m.len <= |s|
  {
    Longer(Longer(Match(27, WordLen(s, "true")), Match(28, WordLen(s, "false"))), Match(29, NameLen(s)))
  }

  function NumberMatch(s: string): (m: Match)
    ensures m.len <= |s|
  {
    Longer(Longer(Longer(Longer(Match(30, FloatLen(s)), Match(31, IntLen(s))),
                         Match(32, Suffixed(s, IntLen(s)))),
                  Match(33, HexLen(s))),
           Match(34, Suffixed(s, HexLen(s))))
  }

  function LayoutMatch(s: string): (m: Match)
    ensures m.len <= |s|
  {
    Longer(Longer(Longer(Longer(Longer(
      Match(1, if |s| > 1 && s[..2] == "/*" then 2 else 0),
      Match(5, CharLen(s, '\"', '\"', '\"'))),
      Match(21, CharLen(s, '\n', '\r', '\U{0C}'))),
      Match(22, Span(s, IsBlank))),
      Match(23, CharLen(s, '=', ':', ':'))),
      Match(40, CommentLen(s)))
  }

  // The rule that fires on a non-empty input: rule 41 matches any one character.
  function Pick(s: string): (m: Match)
    requires s != []
    ensures 0 < m.len <= |s|
  {
    hide LayoutMatch, WordMatch, NumberMatch, PunctuationMatch;
    Longer(Longer(Longer(Longer(LayoutMatch(s), WordMatch(s)), NumberMatch(s)), PunctuationMatch(s)), Match(41, 1))
  }

  // The token a rule returns for the text it matched.
  function TokenOf(rule: nat, text: string): Token
  {
    match rule
    case 23 => TEquals
    case 24 => TComma
    case 25 => TGroupStart
    case 26 => TGroupEnd
    case 27 => TBool(1)
    case 28 => TBool(0)
    case 29 => TName(text)
    case 30 => TFloat(text)
    case 31 => TInt(Atoi(text))
    case 32 => TInt64(Atoll(text[..IntLen(text)]))
    case 33 => if |text| > 2 then THex(HexToInt(text[2..])) else TGarbage
    case 34 => if HexLen(text) > 2 then THex64(HexToInt64(text[2..HexLen(text)])) else TGarbage
    case 35 => TArrayStart
    case 36 => TArrayEnd
    case 37 => TListStart
    case 38 => TListEnd
    case 39 => TSemicolon
    case _ => TGarbage
  }

  // ---------- Strings ----------

  // One step inside a string: the text appended and the input consumed, or the closing quote.
  datatype Piece = Piece(text: string, len: nat)

  predicate IsHexEscape(s: string)
  {
    |s| >= 4 && s[0] == '\\' && (s[1] == 'x' || s[1] == 'X') && IsHexDigit(s[2]) && IsHexDigit(s[3])
  }

  // A NUL byte ends a C string, so nothing is appended for it.
  function ByteText(n: nat): string
    requires n < 256
  {
    if n == 0 then "" else [n as char]
  }

  function StringPiece(s: string): (p: Piece)
    requires s != []
    ensures 0 < p.len <= |s|
  {
    if s[0] != '\\' then Piece([s[0]], 1)
    else if |s| > 1 && s[1] == 'n' then Piece("\n", 2)
    else if |s| > 1 && s[1] == 'r' then Piece("\r", 2)
    else if |s| > 1 && s[1] == 't' then Piece("\t", 2)
    else if |s| > 1 && s[1] == 'f' then Piece("\U{0C}", 2)
    else if |s| > 1 && s[1] == '\\' then Piece("\\", 2)
    else if |s| > 1 && s[1] == '\"' then Piece("\"", 2)
    else if IsHexEscape(s) then Piece(ByteText(DigitVal(s[2]) * 16 + DigitVal(s[3])), 4)
    else Piece("\\", 1)
  }

  // ---------- The token stream ----------

  // The start conditions of the scanner that this model has.
  datatype Mode = InInitial | InComment | InString(buf: string)

  // The tokens of an input from a given start condition; an unfinished string or comment
  // ends the input.
  function Tokens(s: string, mode: Mode): seq<Token>
    decreases |s|
  {
    if s == [] then []
    else match mode
      case InComment =>
        if |s| > 1 && s[..2] == "*/" then Tokens(s[2..], InInitial) else Tokens(s[1..], InComment)
      case InString(buf) =>
        if s[0] == '\"' then [TString(buf)] + Tokens(s[1..], InInitial)
        else
          var p := StringPiece(s);
          Tokens(s[p.len..], InString(buf + p.text))
      case InInitial =>
        var m := Pick(s);
        if m.rule == 1 then Tokens(s[m.len..], InComment)
        else if m.rule == 5 then Tokens(s[m.len..], InString(""))
        else if m.rule == 21 || m.rule == 22 || m.rule == 40 then Tokens(s[m.len..], InInitial)
        else [TokenOf(m.rule, s[..m.len])] + Tokens(s[m.len..], InInitial)
  }

  function Lex(s: string): seq<Token> { Tokens(s, InInitial) }
}
