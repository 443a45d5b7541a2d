/** Writing the settings in memory to a stream (libconfig.c, config_write). */
module ConfigPrinter {
  import opened ConfigData
  import opened ConfigText
  import opened ConfigHeap
  import opened ConfigSettings
  import opened ConfigWriter

  class Stream {
    var out: string

    constructor ()
      ensures out == ""
    {
      out := "";
    }

    method Puts(s: string)
      modifies this
      ensures out == old(out) + s
    {
      out := out + s;
    }

    // __config_indent; callers ask for at least two levels.
    method PutIndent(depth: nat, st: Style)
      modifies this
      ensures out == old(out) + Indent(depth, st)
    {
      if depth > 1 {
        if st.tabWidth > 0 {
          out := out + seq((depth - 1) * st.tabWidth, _ => ' ');
        } else {
          var i := 0;
          while i < depth - 1
            invariant 0 <= i <= depth - 1
            invariant out == old(out) + Repeat('\t', i)
          {
            assert Repeat('\t', i) + "\t" == Repeat('\t', i + 1);
            out := out + "\t";
            i := i + 1;
          }
        }
      }
    }

    method PutString(s: string)
      modifies this
      ensures out == old(out) + EscapedText(s)
    {
      var i := 0;
      while i < |s|
        invariant 0 <= i <= |s|
        invariant out == old(out) + EscapedText(s[..i])
      {
        assert s[..i + 1][..i] == s[..i];
        out := out + Escaped(s[i]);
        i := i + 1;
      }
      assert s[..|s|] == s;
    }
  }

  lemma TreeShape(nodes: seq<Node>, i: nat)
    requires Wf(nodes) && i < |nodes|
    ensures Tree(nodes, i).name == nodes[i].name && Tree(nodes, i).load == nodes[i].load
    ensures Tree(nodes, i).elems == Trees(nodes, nodes[i].elems)
  {
  }

  // __config_write_value.
  method WriteValueTo(c: Config, i: nat, depth: nat, st: Style, stream: Stream)
    requires c.Valid() && i < |c.nodes|
    modifies stream
    ensures stream.out == old(stream.out) + WriteValue(Tree(c.nodes, i), depth, st)
    decreases |c.nodes| - i, 1
  {
    TreeShape(c.nodes, i);
    match c.nodes[i].load
    case Bool(b) => stream.Puts(if b != 0 then "true" else "false");
    case Int(n, f) =>
      if Effective(f, st) == Hexadecimal {
        stream.Puts("0x" + Digits(Unsigned(n, TWO32), 16));
      } else {
        stream.Puts(Signed(n));
      }
    case Int64(n, f) =>
      if Effective(f, st) == Hexadecimal {
        stream.Puts("0x" + Digits(Unsigned(n, TWO64), 16) + "L");
      } else {
        stream.Puts(Signed(n) + "L");
      }
    case Float(text) => stream.Puts(text);
    case Str(s) =>
      stream.Puts("\"");
      if s.Some? {
        stream.PutString(s.value);
      }
      stream.Puts("\"");
    case Untyped => stream.Puts("???");
    case Aggregate(k) =>
      if k == Group {
        WriteGroupTo(c, i, depth, st, stream);
      } else {
        WriteListTo(c, i, depth, st, stream);
      }
  }

  lemma GroupText(s: Setting, depth: nat, st: Style)
    requires s.load == Aggregate(Group)
    ensures WriteValue(s, depth, st)
         == Opening(depth, st) + WriteMembers(s.elems, depth + 1, st) + Closing(depth, st)
  {
    hide WriteMembers, Indent;
  }

  lemma MembersStep(ts: seq<Setting>, n: nat, depth: nat, st: Style)
    requires n < |ts|
    ensures WriteMembers(ts[..n + 1], depth, st) == WriteMembers(ts[..n], depth, st) + WriteSetting(ts[n], depth, st)
  {
    hide WriteSetting;
    assert ts[..n + 1][..n] == ts[..n];
  }

  // The text of the first n elements of a list of m.
  function ListText(ts: seq<Setting>, n: nat, depth: nat, st: Style): string
    requires n <= |ts|
  {
    if n == 0 then ""
    else WriteItems(ts[..n - 1], depth, st) + WriteValue(ts[n - 1], depth, st) + (if n < |ts| then ", " else " ")
  }

  lemma ListTextShape(s: Setting, depth: nat, st: Style)
    requires s.load.Aggregate? && s.load.kind != Group
    ensures WriteValue(s, depth, st)
         == Opener(s.load.kind) + ListText(s.elems, |s.elems|, depth + 1, st) + Closer(s.load.kind)
  {
    hide WriteItems;
  }

  lemma ListTextStep(ts: seq<Setting>, n: nat, depth: nat, st: Style)
    requires n < |ts|
    ensures ListText(ts, n + 1, depth, st)
         == ListText(ts, n, depth, st) + WriteValue(ts[n], depth, st) + (if n + 1 < |ts| then ", " else " ")
  {
    hide WriteValue;
    if n > 0 { assert ts[..n][..n - 1] == ts[..n - 1]; }
  }

  // The list and array cases: elements separated by commas, with a space after each.
  method WriteListTo(c: Config, i: nat, depth: nat, st: Style, stream: Stream)
    requires c.Valid() && i < |c.nodes| && c.nodes[i].load.Aggregate? && c.nodes[i].load.kind != Group
    modifies stream
    ensures stream.out == old(stream.out) + WriteValue(Tree(c.nodes, i), depth, st)
    decreases |c.nodes| - i, 0, 1
  {
    TreeShape(c.nodes, i);
    hide Tree, WriteValue, ListText, Opener, Closer;
    var k := c.nodes[i].load.kind;
    var e := c.nodes[i].elems;
    ghost var ts := Tree(c.nodes, i).elems;
    ghost var was := stream.out;
    ListTextShape(Tree(c.nodes, i), depth, st);
    stream.Puts(Opener(k));
    var n := 0;
    ghost var head := stream.out;
    NoListText(ts, depth + 1, st);
    while n < |e|
      invariant 0 <= n <= |e| == |ts|
      invariant stream.out == head + ListText(ts, n, depth + 1, st)
    {
      ListTextStep(ts, n, depth + 1, st);
      Join(head, ListText(ts, n, depth + 1, st), WriteValue(ts[n], depth + 1, st), if n + 1 < |e| then ", " else " ");
      WriteValueTo(c, e[n], depth + 1, st, stream);
      PutSeparator(n + 1 < |e|, stream);
      n := n + 1;
    }
    stream.Puts(Closer(k));
    Join(was, Opener(k), ListText(ts, |ts|, depth + 1, st), Closer(k));
  }

  method PutSeparator(more: bool, stream: Stream)
    modifies stream
    ensures stream.out == old(stream.out) + (if more then ", " else " ")
  {
    if more {
      stream.Puts(",");
    }
    stream.Puts(" ");
  }

  lemma NoListText(ts: seq<Setting>, depth: nat, st: Style)
    ensures ListText(ts, 0, depth, st) == ""
  {
  }

  lemma Join(a: string, b: string, c: string, d: string)
    ensures ((a + b) + c) + d == a + (b + c + d)
  {
  }

  // The group case.
  method WriteGroupTo(c: Config, i: nat, depth: nat, st: Style, stream: Stream)
    requires c.Valid() && i < |c.nodes| && c.nodes[i].load == Aggregate(Group)
    modifies stream
    ensures stream.out == old(stream.out) + WriteValue(Tree(c.nodes, i), depth, st)
    decreases |c.nodes| - i, 0, 1
  {
    TreeShape(c.nodes, i);
    hide Wf, Tree, WriteValue, WriteMembers, Opening, Closing;
    ghost var was := stream.out;
    ghost var body := WriteMembers(Tree(c.nodes, i).elems, depth + 1, st);
    GroupText(Tree(c.nodes, i), depth, st);
    OpenGroup(depth, st, stream);
    WriteMembersTo(c, i, depth + 1, st, stream);
    CloseGroup(depth, st, stream);
    Join(was, Opening(depth, st), body, Closing(depth, st));
  }

  // The members of a group, one after the other.
  method WriteMembersTo(c: Config, i: nat, depth: nat, st: Style, stream: Stream)
    requires c.Valid() && i < |c.nodes| && c.nodes[i].load == Aggregate(Group)
    modifies stream
    ensures stream.out == old(stream.out) + WriteMembers(Tree(c.nodes, i).elems, depth, st)
    decreases |c.nodes| - i, 0, 0
  {
    TreeShape(c.nodes, i);
    hide Tree, WriteSetting, WriteMembers;
    var e := c.nodes[i].elems;
    ghost var ts := Tree(c.nodes, i).elems;
    ghost var was := stream.out;
    NoMembers(ts, depth, st);
    var n := 0;
    while n < |e|
      invariant 0 <= n <= |e| == |ts|
      invariant stream.out == was + WriteMembers(ts[..n], depth, st)
    {
      MembersStep(ts, n, depth, st);
      WriteSettingTo(c, e[n], depth, st, stream);
      Pair(was, WriteMembers(ts[..n], depth, st), WriteSetting(ts[n], depth, st));
      n := n + 1;
    }
    assert ts[..|ts|] == ts;
  }

  lemma Pair(a: string, b: string, c: string)
    ensures (a + b) + c == a + (b + c)
  {
  }

  function Opening(depth: nat, st: Style): string
  {
    if depth > 0 then "\n" + Indent(depth, st) + "{\n" else ""
  }

  function Closing(depth: nat, st: Style): string
  {
    Indent(depth, st) + (if depth > 0 then "}" else "")
  }

  lemma NoMembers(ts: seq<Setting>, depth: nat, st: Style)
    ensures WriteMembers(ts[..0], depth, st) == ""
  {
  }

  method OpenGroup(depth: nat, st: Style, stream: Stream)
    modifies stream
    ensures stream.out == old(stream.out) + Opening(depth, st)
  {
    hide Indent;
    if depth > 0 {
      stream.Puts("\n");
      stream.PutIndent(depth, st);
      stream.Puts("{\n");
    }
  }

  method CloseGroup(depth: nat, st: Style, stream: Stream)
    modifies stream
    ensures stream.out == old(stream.out) + Closing(depth, st)
  {
    hide Indent;
    stream.PutIndent(depth, st);
    if depth > 0 {
      stream.Puts("}");
    }
  }

  // __config_write_setting.
  method WriteSettingTo(c: Config, i: nat, depth: nat, st: Style, stream: Stream)
    requires c.Valid() && i < |c.nodes|
    modifies stream
    ensures stream.out == old(stream.out) + WriteSetting(Tree(c.nodes, i), depth, st)
    decreases |c.nodes| - i, 2
  {
    TreeShape(c.nodes, i);
    hide Tree, WriteValue, Indent;
    ghost var was := stream.out;
    ghost var name := "";
    stream.PutIndent(depth, st);
    if c.nodes[i].name.Some? {
      name := c.nodes[i].name.value + (if c.nodes[i].load == Aggregate(Group) then " : " else " = ");
      Join(stream.out, c.nodes[i].name.value, if c.nodes[i].load == Aggregate(Group) then " : " else " = ", "");
      stream.Puts(c.nodes[i].name.value);
      stream.Puts(if c.nodes[i].load == Aggregate(Group) then " : " else " = ");
    }
    assert stream.out == (was + Indent(depth, st)) + name;
    ghost var value := WriteValue(Tree(c.nodes, i), depth, st);
    WriteValueTo(c, i, depth, st, stream);
    if depth > 0 {
      stream.Puts(";\n");
    }
    Join(was, Indent(depth, st), name, value);
    Join(was, Indent(depth, st) + name + value, if depth > 0 then ";\n" else "", "");
  }

  // config_write: the whole configuration, from the root.
  method Write(c: Config, st: Style) returns (text: string)
    requires c.Valid()
    ensures text == WriteConfig(Tree(c.nodes, 0), st)
  {
    var stream := new Stream();
    WriteSettingTo(c, 0, 0, st, stream);
    text := stream.out;
  }
}
