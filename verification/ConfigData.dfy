/** The data of libconfig: settings as values, the tokens of its language, and the parse
    context as a stack of open aggregates (what ctx->parent and its ancestors denote). */
module ConfigData {

  datatype Option<+T> = None | Some(value: T)

  type int32 = x: int | -0x8000_0000 <= x < 0x8000_0000
  type int64 = x: int | -0x8000_0000_0000_0000 <= x < 0x8000_0000_0000_0000

  // CONFIG_FORMAT_DEFAULT and CONFIG_FORMAT_HEX.
  datatype Format = Decimal | Hexadecimal

  datatype Kind = Group | Array | List

  // A setting's type together with its value. A double is carried as text.
  datatype Load =
    | Untyped
    | Int(ival: int32, fmt: Format)
    | Int64(llval: int64, fmt: Format)
    | Float(text: string)
    | Str(sval: Option<string>)
    | Bool(flag: int32)
    | Aggregate(kind: Kind)

  datatype Setting = Setting(name: Option<string>, load: Load, elems: seq<Setting>)

  datatype Token =
    | TBool(ival: int32)
    | TInt(ival: int32)
    | THex(ival: int32)
    | TInt64(llval: int64)
    | THex64(llval: int64)
    | TFloat(text: string)
    | TString(text: string)
    | TName(text: string)
    | TEquals
    | TArrayStart
    | TArrayEnd
    | TListStart
    | TListEnd
    | TComma
    | TGroupStart
    | TGroupEnd
    | TSemicolon
    | TGarbage
    | TError

  // yytranslate: the internal number of a token. End of input is 0.
  function Code(t: Token): (n: nat)
    ensures 3 <= n < 23
  {
    match t
    case TBool(_) => 3
    case TInt(_) => 4
    case THex(_) => 5
    case TInt64(_) => 6
    case THex64(_) => 7
    case TFloat(_) => 8
    case TString(_) => 9
    case TName(_) => 10
    case TEquals => 11
    case TArrayStart => 13
    case TArrayEnd => 14
    case TListStart => 15
    case TListEnd => 16
    case TComma => 17
    case TGroupStart => 18
    case TGroupEnd => 19
    case TSemicolon => 20
    case TGarbage => 21
    case TError => 22
  }

  // ---------- Names ----------

  predicate IsAlpha(c: char) { 'a' <= c <= 'z' || 'A' <= c <= 'Z' }

  predicate IsDigit(c: char) { '0' <= c <= '9' }

  predicate IsNameChar(c: char) { IsAlpha(c) || IsDigit(c) || c == '*' || c == '_' || c == '-' }

  predicate ValidName(s: string)
  {
    |s| > 0 && (IsAlpha(s[0]) || s[0] == '*') && forall i | 0 < i < |s| :: IsNameChar(s[i])
  }

  predicate IsPathToken(c: char) { c == ':' || c == '.' || c == '/' }

  // The part of a path that name comparison looks at.
  function Stem(s: string): string
  {
    if s == [] || IsPathToken(s[0]) then [] else [s[0]] + Stem(s[1..])
  }

  lemma StemOfName(s: string)
    requires forall i | 0 <= i < |s| :: IsNameChar(s[i])
    ensures Stem(s) == s
  {
    if s != [] {
      assert IsNameChar(s[0]);
      StemOfName(s[1..]);
    }
  }

  // ---------- Scalar types ----------

  // Two values have the same CONFIG_TYPE.
  predicate SameType(a: Load, b: Load)
  {
    match a
    case Untyped => b.Untyped?
    case Int(_, _) => b.Int?
    case Int64(_, _) => b.Int64?
    case Float(_) => b.Float?
    case Str(_) => b.Str?
    case Bool(_) => b.Bool?
    case Aggregate(k) => b.Aggregate? && b.kind == k
  }

  // What a scalar token stores in a setting: value, type and format.
  function LoadOf(t: Token): Load
  {
    match t
    case TBool(i) => Bool(i)
    case TInt(i) => Int(i, Decimal)
    case THex(i) => Int(i, Hexadecimal)
    case TInt64(l) => Int64(l, Decimal)
    case THex64(l) => Int64(l, Hexadecimal)
    case TFloat(x) => Float(x)
    case TString(s) => Str(Some(s))
    case _ => Untyped
  }

  // ---------- The parse context ----------

  // An open aggregate: the children it has so far.
  datatype Frame = Frame(name: Option<string>, kind: Kind, done: seq<Setting>)

  // frames: the open aggregates, the root first and ctx->parent last.
  // unset: ctx->setting is the last child of ctx->parent and has no type yet.
  // str: the string collected so far.
  datatype Ctx = Ctx(frames: seq<Frame>, unset: bool, str: Option<string>)

  function Top(c: Ctx): Frame
    requires c.frames != []
  {
    c.frames[|c.frames| - 1]
  }

  function SetTop(c: Ctx, f: Frame): Ctx
    requires c.frames != []
  {
    c.(frames := c.frames[..|c.frames| - 1] + [f])
  }

  function InitialCtx(): Ctx
  {
    Ctx([Frame(None, Group, [])], false, None)
  }

  predicate HasMember(done: seq<Setting>, name: string)
  {
    exists k | 0 <= k < |done| :: done[k].name.Some? && Stem(done[k].name.value) == Stem(name)
  }

  // A named setting without a type is added to the group ctx->parent.
  function AddNamed(c: Ctx, name: string): Option<Ctx>
  {
    if c.frames == [] || Top(c).kind != Group || !ValidName(name) || HasMember(Top(c).done, name) then None
    else
      var f := Top(c);
      Some(SetTop(c, f.(done := f.done + [Setting(Some(name), Untyped, [])])).(unset := true))
  }

  // An aggregate starts: as a new element of a list, or as the value of the fresh setting.
  function Open(c: Ctx, k: Kind): Option<Ctx>
  {
    if c.frames == [] then None
    else
      var f := Top(c);
      if f.kind == List then
        Some(Ctx(c.frames + [Frame(None, k, [])], false, c.str))
      else if f.kind == Group && c.unset && f.done != [] then
        var last := f.done[|f.done| - 1];
        Some(Ctx(c.frames[..|c.frames| - 1] + [f.(done := f.done[..|f.done| - 1]), Frame(last.name, k, [])],
                 false, c.str))
      else None
  }

  // The innermost aggregate is complete and becomes the last child of its parent.
  function Close(c: Ctx): Option<Ctx>
  {
    if |c.frames| < 2 then None
    else
      var f := Top(c);
      var p := c.frames[|c.frames| - 2];
      Some(Ctx(c.frames[..|c.frames| - 2] + [p.(done := p.done + [Setting(f.name, Aggregate(f.kind), f.done)])],
               false, c.str))
  }

  // A scalar is appended to an array or list, or becomes the value of the fresh setting.
  function Put(c: Ctx, v: Load): Option<Ctx>
  {
    if c.frames == [] then None
    else
      var f := Top(c);
      if f.kind == Group then
        if c.unset && f.done != [] then
          var last := f.done[|f.done| - 1];
          Some(SetTop(c, f.(done := f.done[..|f.done| - 1] + [last.(load := v)])).(unset := false))
        else None
      else if f.kind == Array && f.done != [] && !SameType(f.done[0].load, v) then None
      else Some(SetTop(c, f.(done := f.done + [Setting(None, v, [])])).(unset := false))
  }

  function Collect(c: Ctx, s: string): Ctx
  {
    c.(str := Some((if c.str.Some? then c.str.value else "") + s))
  }

  // The semantic action of a grammar rule; v is the value on top of the value stack.
  // None means the parse is abandoned.
  function Act(rule: nat, v: Token, c: Ctx): Option<Ctx>
  {
    match rule
    case 11 => if v.TName? then AddNamed(c, v.text) else None
    case 13 => Open(c, Array)
    case 14 => Close(c)
    case 15 => Open(c, List)
    case 16 => Close(c)
    case 21 => if v.TString? then Some(Collect(c, v.text)) else None
    case 22 => if v.TString? then Some(Collect(c, v.text)) else None
    case 23 => if v.TBool? then Put(c, LoadOf(v)) else None
    case 24 => if v.TInt? then Put(c, LoadOf(v)) else None
    case 25 => if v.TInt64? then Put(c, LoadOf(v)) else None
    case 26 => if v.THex? then Put(c, LoadOf(v)) else None
    case 27 => if v.THex64? then Put(c, LoadOf(v)) else None
    case 28 => if v.TFloat? then Put(c, LoadOf(v)) else None
    case 29 => Put(c.(str := None), Str(c.str))
    case 38 => Open(c, Group)
    case 39 => Close(c)
    case _ => Some(c)
  }
}
