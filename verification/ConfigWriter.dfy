/** The writer of libconfig (libconfig.c, __config_write_setting and __config_write_value)
    as a function from a setting to text. */
module ConfigWriter {
  import opened ConfigData
  import opened ConfigText

  // How a configuration is printed: its tab width and its default number format.
  datatype Style = Style(tabWidth: nat, format: Format)

  function Repeat(c: char, n: nat): string { seq(n, _ => c) }

  // Two levels of nesting and more are indented, by spaces or else by tabs.
  function Indent(depth: nat, st: Style): string
  {
    if depth <= 1 then ""
    else if st.tabWidth > 0 then Repeat(' ', (depth - 1) * st.tabWidth)
    else Repeat('\t', depth - 1)
  }

  function Effective(f: Format, st: Style): Format
  {
    if f == Decimal then st.format else f
  }

  function Escaped(c: char): string
  {
    if c == '\"' || c == '\\' then ['\\', c]
    else if c == '\n' then "\\n"
    else if c == '\r' then "\\r"
    else if c == '\U{0C}' then "\\f"
    else if c == '\t' then "\\t"
    else if c >= ' ' then [c]
    else "\\x" + [DigitChar(c as nat / 16), DigitChar(c as nat % 16)]
  }

  function EscapedText(s: string): string
  {
    if s == [] then "" else EscapedText(s[..|s| - 1]) + Escaped(s[|s| - 1])
  }

  function Opener(k: Kind): string { if k == List then "( " else "[ " }

  function Closer(k: Kind): string { if k == List then ")" else "]" }

  function WriteValue(s: Setting, depth: nat, st: Style): string
    decreases s, 0
  {
    match s.load
    case Bool(b) => if b != 0 then "true" else "false"
    case Int(i, f) =>
      if Effective(f, st) == Hexadecimal then "0x" + Digits(Unsigned(i, TWO32), 16) else Signed(i)
    case Int64(l, f) =>
      if Effective(f, st) == Hexadecimal then "0x" + Digits(Unsigned(l, TWO64), 16) + "L" else Signed(l) + "L"
    case Float(text) => text
    case Str(t) => "\"" + EscapedText(if t.Some? then t.value else "") + "\""
    case Untyped => "???"
    case Aggregate(k) =>
      if k == Group then
        (if depth > 0 then "\n" + Indent(depth, st) + "{\n" else "")
        + WriteMembers(s.elems, depth + 1, st)
        + Indent(depth, st) + (if depth > 0 then "}" else "")
      else
        Opener(k)
        + (if s.elems == [] then ""
           else WriteItems(s.elems[..|s.elems| - 1], depth + 1, st)
                + WriteValue(s.elems[|s.elems| - 1], depth + 1, st) + " ")
        + Closer(k)
  }

  // The elements of a list or array that are followed by another one.
  function WriteItems(es: seq<Setting>, depth: nat, st: Style): string
    decreases es, 0
  {
    if es == [] then ""
    else WriteItems(es[..|es| - 1], depth, st) + WriteValue(es[|es| - 1], depth, st) + ", "
  }

  function WriteMembers(es: seq<Setting>, depth: nat, st: Style): string
    decreases es, 0
  {
    if es == [] then ""
    else WriteMembers(es[..|es| - 1], depth, st) + WriteSetting(es[|es| - 1], depth, st)
  }

  function WriteSetting(s: Setting, depth: nat, st: Style): string
    decreases s, 1
  {
    Indent(depth, st)
    + (if s.name.Some? then s.name.value + (if s.load == Aggregate(Group) then " : " else " = ") else "")
    + WriteValue(s, depth, st)
    + (if depth > 0 then ";\n" else "")
  }

  function WriteConfig(root: Setting, st: Style): string { WriteSetting(root, 0, st) }
}
