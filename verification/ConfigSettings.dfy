/** The operations of libconfig.c on settings: search, add, set, and the element setters. */
module ConfigSettings {
  import opened ConfigData
  import opened ConfigHeap

  // The value a typed setter stores over an old value, or None when the types do not agree.
  // Conversions to and from floats are not modelled.
  function Stored(was: Load, v: Load): Option<Load>
  {
    match v
    case Int(i, _) =>
      (match was
       case Untyped => Some(Int(i, Decimal))
       case Int(_, f) => Some(Int(i, f))
       case _ => None)
    case Int64(l, _) =>
      (match was
       case Untyped => Some(Int64(l, Decimal))
       case Int64(_, f) => Some(Int64(l, f))
       case Int(_, f) => Some(Int(if -0x8000_0000 <= l < 0x8000_0000 then l else 0, f))
       case _ => None)
    case _ => if IsPlain(v) && (was.Untyped? || SameType(was, v)) then Some(v) else None
  }

  // A value is taken by a setting of its type or of none, and a 64-bit value also by a 32-bit
  // number, which becomes 0 if the value does not fit. A format is kept.
  lemma StoredMeans(was: Load, v: Load)
    requires IsSettable(v)
    ensures Stored(was, v).Some? <==> was.Untyped? || SameType(was, v) || (v.Int64? && was.Int?)
    ensures was.Untyped? || SameType(was, v) ==>
              Stored(was, v) == Some(Formatted(v, if was.Int? || was.Int64? then was.fmt else Decimal))
    ensures v.Int64? && was.Int? ==>
              Stored(was, v).value == was.(ival := if -0x8000_0000 <= v.llval <= 0x7fff_ffff then v.llval else 0)
  {
  }

  predicate IsPlain(v: Load) { v.Float? || v.Str? || v.Bool? }

  predicate IsSettable(v: Load) { !v.Untyped? && !v.Aggregate? }

  // A freshly created setting of v's type.
  function Zero(v: Load): Load
  {
    match v
    case Int(_, _) => Int(0, Decimal)
    case Int64(_, _) => Int64(0, Decimal)
    case Float(_) => Float("")
    case Str(_) => Str(None)
    case Bool(_) => Bool(0)
    case _ => v
  }

  function Formatted(v: Load, f: Format): Load
  {
    match v
    case Int(i, _) => Int(i, f)
    case Int64(l, _) => Int64(l, f)
    case _ => v
  }

  // Storing v in a new setting of its type and then setting its format stores all of v.
  lemma StoredFresh(v: Load)
    requires IsSettable(v)
    ensures Stored(Zero(v), v).Some? && SameType(Stored(Zero(v), v).value, v)
    ensures Stored(Untyped, v) == Stored(Zero(v), v)
    ensures v.Int? || v.Int64? ==> Formatted(Stored(Zero(v), v).value, v.fmt) == v
    ensures !v.Int? && !v.Int64? ==> Stored(Zero(v), v) == Some(v)
  {
  }

  // Child c carries the name under path comparison.
  predicate Named(nodes: seq<Node>, c: nat, name: string)
    requires c < |nodes|
  {
    nodes[c].name.Some? && Stem(name) == Stem(nodes[c].name.value)
  }

  ghost predicate HasNamed(nodes: seq<Node>, p: nat, name: string)
    requires Wf(nodes) && p < |nodes|
  {
    exists k | 0 <= k < |nodes[p].elems| :: Named(nodes, nodes[p].elems[k], name)
  }

  lemma HasNamedIsMember(nodes: seq<Node>, p: nat, name: string)
    requires Wf(nodes) && p < |nodes|
    ensures HasNamed(nodes, p, name) <==> HasMember(Trees(nodes, nodes[p].elems), name)
  {
    var ts := Trees(nodes, nodes[p].elems);
    forall k | 0 <= k < |ts| ensures ts[k].name == nodes[nodes[p].elems[k]].name {
    }
    if HasNamed(nodes, p, name) {
      var k :| 0 <= k < |nodes[p].elems| && Named(nodes, nodes[p].elems[k], name);
      assert Stem(ts[k].name.value) == Stem(name);
    }
  }

  predicate HasNames(ts: seq<Setting>) { exists k | 0 <= k < |ts| :: ts[k].name.Some? }

  method NameCompare(a: string, b: string) returns (r: int)
    ensures r == 0 <==> Stem(a) == Stem(b)
  {
    var i := 0;
    while true
      invariant 0 <= i <= |a| && i <= |b|
      invariant Stem(a) == Stem(b) <==> Stem(a[i..]) == Stem(b[i..])
      decreases |a| - i
    {
      var pd := i == |a| || IsPathToken(a[i]);
      var qd := i == |b| || IsPathToken(b[i]);
      if pd && qd {
        return 0;
      } else if pd {
        return -1;
      } else if qd {
        return 1;
      } else if a[i] < b[i] {
        assert Stem(a[i..])[0] == a[i] && Stem(b[i..])[0] == b[i];
        return -1;
      } else if a[i] > b[i] {
        assert Stem(a[i..])[0] == a[i] && Stem(b[i..])[0] == b[i];
        return 1;
      }
      StemStep(a, i);
      StemStep(b, i);
      assert Stem(a[i..])[1..] == Stem(a[i + 1..]) && Stem(b[i..])[1..] == Stem(b[i + 1..]);
      i := i + 1;
    }
  }

  lemma StemStep(s: string, i: nat)
    requires i < |s| && !IsPathToken(s[i])
    ensures Stem(s[i..]) == [s[i]] + Stem(s[i + 1..])
  {
    assert s[i..][1..] == s[i + 1..];
  }

  method ValidateName(name: string) returns (ok: bool)
    ensures ok == ValidName(name)
  {
    if name == "" { return false; }
    if !IsAlpha(name[0]) && name[0] != '*' { return false; }
    var i := 1;
    while i < |name|
      invariant 1 <= i <= |name|
      invariant forall k | 0 < k < i :: IsNameChar(name[k])
    {
      if !IsNameChar(name[i]) { return false; }
      i := i + 1;
    }
    return true;
  }

  class Config {
    var nodes: seq<Node>

    ghost predicate Valid()
      reads this
    {
      Wf(nodes)
    }

    // config_init: an empty root group.
    constructor ()
      ensures Valid() && nodes == [Node(-1, None, Aggregate(Group), [])]
    {
      nodes := [Node(-1, None, Aggregate(Group), [])];
    }

    ghost predicate FirstNamed(p: nat, name: string, k: nat)
      requires Valid() && p < |nodes| && k < |nodes[p].elems|
      reads this
    {
      && Named(nodes, nodes[p].elems[k], name)
      && forall j | 0 <= j < k :: !Named(nodes, nodes[p].elems[j], name)
    }

    // __config_list_search: the first child of p with the name, or -1.
    method Search(p: nat, name: string) returns (r: int)
      requires Valid() && p < |nodes|
      ensures r == -1 <==> !HasNamed(nodes, p, name)
      ensures r != -1 ==> (exists k | 0 <= k < |nodes[p].elems| :: FirstNamed(p, name, k) && r == nodes[p].elems[k])
    {
      var i := 0;
      while i < |nodes[p].elems|
        invariant 0 <= i <= |nodes[p].elems|
        invariant forall j | 0 <= j < i :: !Named(nodes, nodes[p].elems[j], name)
      {
        var c := nodes[p].elems[i];
        if nodes[c].name.Some? {
          var cmp := NameCompare(name, nodes[c].name.value);
          if cmp == 0 {
            assert FirstNamed(p, name, i);
            return c;
          }
        }
        i := i + 1;
      }
      return -1;
    }

    // config_setting_get_member.
    method GetMember(p: nat, name: string) returns (r: int)
      requires Valid() && p < |nodes|
      ensures r == -1 <==> nodes[p].load != Aggregate(Group) || !HasNamed(nodes, p, name)
      ensures r != -1 ==> (exists k | 0 <= k < |nodes[p].elems| :: FirstNamed(p, name, k) && r == nodes[p].elems[k])
    {
      if nodes[p].load != Aggregate(Group) { return -1; }
      r := Search(p, name);
    }

    // config_setting_get_elem.
    method GetElem(p: nat, idx: nat) returns (r: int)
      requires Valid() && p < |nodes|
      ensures r == if nodes[p].load.Aggregate? && idx < |nodes[p].elems| then nodes[p].elems[idx] as int else -1
    {
      if !nodes[p].load.Aggregate? || idx >= |nodes[p].elems| { return -1; }
      return nodes[p].elems[idx];
    }

    // config_setting_create.
    method Create(p: nat, name: Option<string>, v: Load) returns (r: int)
      requires Valid() && p < |nodes|
      modifies this
      ensures Valid()
      ensures nodes == if old(nodes[p]).load.Aggregate? then Grown(old(nodes), p, name, v) else old(nodes)
      ensures r == if old(nodes[p]).load.Aggregate? then |old(nodes)| else -1
    {
      if !nodes[p].load.Aggregate? { return -1; }
      r := |nodes|;
      GrownWf(nodes, p, name, v);
      nodes := nodes[p := nodes[p].(elems := nodes[p].elems + [|nodes|])] + [Node(p, name, v, [])];
    }

    // The name config_setting_add gives a child: none inside arrays and lists.
    ghost function GivenName(p: nat, name: Option<string>): Option<string>
      requires p < |nodes|
      reads this
    {
      if nodes[p].load == Aggregate(Array) || nodes[p].load == Aggregate(List) then None else name
    }

    ghost predicate Refuses(p: nat, name: Option<string>)
      requires Valid() && p < |nodes|
      reads this
    {
      || !nodes[p].load.Aggregate?
      || (GivenName(p, name).Some? && !ValidName(name.value))
      || (nodes[p].load == Aggregate(Group) && name.Some? && HasNamed(nodes, p, name.value))
    }

    // Adding a NULL name to a group that has a named child: the comparison dereferences it.
    ghost predicate NullName(p: nat, name: Option<string>)
      requires Valid() && p < |nodes|
      reads this
    {
      && nodes[p].load == Aggregate(Group) && name.None?
      && exists k | 0 <= k < |nodes[p].elems| :: nodes[nodes[p].elems[k]].name.Some?
    }

    // Whether config_setting_add would dereference a NULL name.
    method ReadsNullName(p: nat, name: Option<string>) returns (yes: bool)
      requires Valid() && p < |nodes|
      ensures yes == NullName(p, name)
    {
      if nodes[p].load != Aggregate(Group) || name.Some? { return false; }
      var i := 0;
      while i < |nodes[p].elems|
        invariant 0 <= i <= |nodes[p].elems|
        invariant forall k | 0 <= k < i :: nodes[nodes[p].elems[k]].name.None?
      {
        if nodes[nodes[p].elems[i]].name.Some? { return true; }
        i := i + 1;
      }
      return false;
    }

    // config_setting_add.
    method Add(p: int, name: Option<string>, v: Load) returns (r: int)
      requires Valid() && -1 <= p < |nodes| && (p >= 0 ==> !NullName(p, name))
      modifies this
      ensures Valid()
      ensures p == -1 || old(Refuses(p, name)) ==> r == -1 && nodes == old(nodes)
      ensures p >= 0 && !old(Refuses(p, name)) ==>
                r == |old(nodes)| && nodes == Grown(old(nodes), p, old(GivenName(p, name)), v)
    {
      if p == -1 { return -1; }
      var given := name;
      if nodes[p].load == Aggregate(Array) || nodes[p].load == Aggregate(List) { given := None; }
      if given.Some? {
        var ok := ValidateName(given.value);
        if !ok { return -1; }
        var m := GetMember(p, given.value);
        if m != -1 { return -1; }
      }
      r := Create(p, given, v);
    }

    // config_setting_set_int, _int64, _float, _bool, _string: the setting has the type already,
    // or none yet; a 32-bit number also takes a 64-bit value, as 0 if it is too large.
    method Set(i: nat, v: Load) returns (ok: bool)
      requires Valid() && i < |nodes| && IsSettable(v)
      modifies this
      ensures Valid()
      ensures ok <==> Stored(old(nodes[i]).load, v).Some?
      ensures nodes == if ok then Loaded(old(nodes), i, Stored(old(nodes[i]).load, v).value) else old(nodes)
    {
      var was := nodes[i].load;
      var now := was;
      match v {
        case Int(x, _) =>
          if was.Untyped? { now := Int(x, Decimal); }
          else if was.Int? { now := was.(ival := x); }
          else { return false; }
        case Int64(x, _) =>
          if was.Untyped? { now := Int64(x, Decimal); }
          else if was.Int64? { now := was.(llval := x); }
          else if was.Int? { now := was.(ival := if x > 0x7fff_ffff || x < -0x8000_0000 then 0 else x); }
          else { return false; }
        case _ =>
          if !was.Untyped? && !SameType(was, v) { return false; }
          now := v;
      }
      LoadedWf(nodes, i, now);
      nodes := nodes[i := nodes[i].(load := now)];
      ok := true;
    }

    // Assigning a setting's type, as the parser does when an aggregate starts.
    method SetType(i: nat, k: Kind)
      requires Valid() && i < |nodes|
      modifies this
      ensures Valid() && nodes == Loaded(old(nodes), i, Aggregate(k))
    {
      LoadedWf(nodes, i, Aggregate(k));
      nodes := nodes[i := nodes[i].(load := Aggregate(k))];
    }

    // config_setting_set_format.
    method SetFormat(i: nat, f: Format) returns (ok: bool)
      requires Valid() && i < |nodes|
      modifies this
      ensures Valid()
      ensures ok <==> old(nodes[i]).load.Int? || old(nodes[i]).load.Int64?
      ensures nodes == Loaded(old(nodes), i, Formatted(old(nodes[i]).load, f))
    {
      ok := nodes[i].load.Int? || nodes[i].load.Int64?;
      LoadedWf(nodes, i, Formatted(nodes[i].load, f));
      if ok {
        nodes := nodes[i := nodes[i].(load := Formatted(nodes[i].load, f))];
      }
    }

    // __config_vector_checktype: an array takes only its first element's type.
    method CheckType(p: nat, v: Load) returns (ok: bool)
      requires Valid() && p < |nodes|
      ensures ok == (nodes[p].elems == [] || nodes[p].load == Aggregate(List)
                     || SameType(nodes[nodes[p].elems[0]].load, v))
    {
      if nodes[p].elems == [] { return true; }
      if nodes[p].load == Aggregate(List) { return true; }
      return SameType(nodes[nodes[p].elems[0]].load, v);
    }

    // config_setting_set_int_elem and its kin with a negative index: append an element.
    method AppendElem(p: nat, v: Load) returns (r: int)
      requires Valid() && p < |nodes| && IsSettable(v)
      modifies this
      ensures Valid()
      ensures var q := old(nodes[p]);
        r != -1 <==> (q.load == Aggregate(List)
                      || (q.load == Aggregate(Array)
                          && (q.elems == [] || SameType(old(nodes)[q.elems[0]].load, v))))
      ensures r == -1 ==> nodes == old(nodes)
      ensures r != -1 ==> r == |old(nodes)| && nodes == Grown(old(nodes), p, None, Stored(Zero(v), v).value)
    {
      if nodes[p].load != Aggregate(Array) && nodes[p].load != Aggregate(List) { return -1; }
      var ok := CheckType(p, v);
      if !ok { return -1; }
      r := Create(p, None, Zero(v));
      StoredFresh(v);
      ok := Set(r, v);
    }

    // config_setting_set_int_elem and its kin with an index: overwrite an element.
    method SetElem(p: nat, idx: nat, v: Load) returns (r: int)
      requires Valid() && p < |nodes| && IsSettable(v)
      modifies this
      ensures Valid()
      ensures var q := old(nodes[p]);
        if (q.load == Aggregate(Array) || q.load == Aggregate(List)) && idx < |q.elems|
           && Stored(old(nodes)[q.elems[idx]].load, v).Some?
        then r == q.elems[idx] && nodes == Loaded(old(nodes), r, Stored(old(nodes)[r].load, v).value)
        else r == -1 && nodes == old(nodes)
    {
      if nodes[p].load != Aggregate(Array) && nodes[p].load != Aggregate(List) { return -1; }
      var e := GetElem(p, idx);
      if e == -1 { return -1; }
      var ok := Set(e, v);
      if !ok { return -1; }
      return e;
    }
  }
}
