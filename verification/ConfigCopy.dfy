/** Copying a setting below another one (conf.c, config_setting_copy and its helpers). The
    source and the destination may belong to the same configuration. A copy that would
    dereference a NULL pointer is reported as a fault. */
module ConfigCopy {
  import opened ConfigData
  import opened ConfigHeap
  import opened ConfigSettings
  import ConfigMeaning

  // ---------- What copying brings about ----------

  predicate IsInteger(v: Load) { v.Int? || v.Int64? }

  // config_setting_copy_simple: what it adds behind the children of an aggregate of kind k, or
  // None for a fault. A group refuses names that are not valid or not new.
  function SimpleCopy(front: seq<Setting>, k: Kind, e: Setting): Option<seq<Setting>>
    decreases e, 1
  {
    if k == Group && e.name.None? && HasNames(front) then None
    else if k == Group && e.name.Some? && (!ValidName(e.name.value) || HasMember(front, e.name.value)) then Some([])
    else
      match CopyOf(e)
      case None => None
      case Some(c) => Some([c.(name := if k == Group then e.name else None)])
  }

  // config_setting_copy_elem: elements without a type are dropped, and scalars that an array does
  // not take; for a number the setter's NULL is then dereferenced.
  function ElemCopy(front: seq<Setting>, k: Kind, e: Setting): Option<seq<Setting>>
    decreases e, 2
  {
    if e.load.Aggregate? then SimpleCopy(front, k, e)
    else if e.load.Untyped? then Some([])
    else if k == Array && front != [] && !SameType(front[0].load, e.load) then
      if IsInteger(e.load) then None else Some([])
    else Some([Setting(None, e.load, [])])
  }

  function ChildCopy(front: seq<Setting>, k: Kind, e: Setting): Option<seq<Setting>>
    decreases e, 3
  {
    if k == Group then SimpleCopy(front, k, e) else ElemCopy(front, k, e)
  }

  // The children copied one after the other.
  function CopiesOf(es: seq<Setting>, k: Kind): Option<seq<Setting>>
    decreases es
  {
    if es == [] then Some([])
    else
      match CopiesOf(es[..|es| - 1], k)
      case None => None
      case Some(front) =>
        match ChildCopy(front, k, es[|es| - 1])
        case None => None
        case Some(c) => Some(front + c)
  }

  function CopyOf(s: Setting): Option<Setting>
    decreases s, 0
  {
    if !s.load.Aggregate? then Some(s.(elems := []))
    else
      match CopiesOf(s.elems, s.load.kind)
      case None => None
      case Some(es) => Some(s.(elems := es))
  }

  // ---------- When the copy equals the source ----------

  // Names are in order: in groups they are valid and new, and missing only before the first one
  // that is not; elsewhere there are none.
  predicate NameFits(k: Kind, es: seq<Setting>, i: nat)
    requires i < |es|
  {
    var name := es[i].name;
    if k != Group then name == None
    else if name.None? then !HasNames(es[..i])
    else ValidName(name.value) && !HasMember(es[..i], name.value)
  }

  // Elements of lists and arrays have a type, and scalars in an array that of its first element.
  predicate TypeFits(k: Kind, es: seq<Setting>, i: nat)
    requires i < |es|
  {
    k == Group
    || (!es[i].load.Untyped? && (k == Array && !es[i].load.Aggregate? ==> SameType(es[0].load, es[i].load)))
  }

  predicate Tidy(s: Setting)
  {
    if !s.load.Aggregate? then s.elems == []
    else forall i | 0 <= i < |s.elems| :: Tidy(s.elems[i]) && NameFits(s.load.kind, s.elems, i)
  }

  predicate Uniform(s: Setting)
  {
    s.load.Aggregate? ==> forall i | 0 <= i < |s.elems| :: Uniform(s.elems[i]) && TypeFits(s.load.kind, s.elems, i)
  }

  // The copy equals the source exactly when the names are in order, every element has a type and
  // every array one scalar type.
  lemma {:induction false} CopyIsFaithful(s: Setting)
    ensures CopyOf(s) == Some(s) <==> Tidy(s) && Uniform(s)
    decreases s, 0
  {
    if s.load.Aggregate? {
      var es, k := s.elems, s.load.kind;
      CopiesAreFaithful(es, k);
      FitsEach(s);
    } else {
      assert CopyOf(s) == Some(s.(elems := []));
    }
  }

  predicate Fits(k: Kind, es: seq<Setting>, i: nat)
    requires i < |es|
  {
    Tidy(es[i]) && Uniform(es[i]) && NameFits(k, es, i) && TypeFits(k, es, i)
  }

  lemma FitsEach(s: Setting)
    requires s.load.Aggregate?
    ensures Tidy(s) && Uniform(s) <==> forall i | 0 <= i < |s.elems| :: Fits(s.load.kind, s.elems, i)
  {
    forall i | 0 <= i < |s.elems|
      ensures Fits(s.load.kind, s.elems, i)
         <==> Tidy(s.elems[i]) && NameFits(s.load.kind, s.elems, i) && Uniform(s.elems[i]) && TypeFits(s.load.kind, s.elems, i)
    {
    }
    hide NameFits, TypeFits, Fits;
  }

  lemma {:induction false} CopiesAreFaithful(es: seq<Setting>, k: Kind)
    ensures CopiesOf(es, k).Some? ==> |CopiesOf(es, k).value| <= |es|
    ensures CopiesOf(es, k) == Some(es) <==> forall i | 0 <= i < |es| :: Fits(k, es, i)
    decreases es
  {
    if es != [] {
      var n := |es| - 1;
      CopiesAreFaithful(es[..n], k);
      ChildIsFaithful(es[..n], k, es[n]);
      forall i | 0 <= i < n ensures Fits(k, es[..n], i) == Fits(k, es, i) {
        assert es[..n][..i] == es[..i];
      }
      hide ChildCopy, Fits;
      assert es == es[..n] + [es[n]];
      var front := CopiesOf(es[..n], k);
      if front.Some? && ChildCopy(front.value, k, es[n]).Some? {
        AtMostOne(front.value, k, es[n]);
        LastApart(front.value, ChildCopy(front.value, k, es[n]).value, es[..n], es[n]);
      }
    }
  }

  lemma LastApart(front: seq<Setting>, c: seq<Setting>, es: seq<Setting>, e: Setting)
    requires |front| <= |es| && |c| <= 1
    ensures front + c == es + [e] <==> front == es && c == [e]
  {
    if front + c == es + [e] {
      assert |front| == |es|;
      assert (front + c)[..|es|] == front && (es + [e])[..|es|] == es;
      assert (front + c)[|es|] == c[0];
    }
  }

  lemma ChildIsFaithful(es: seq<Setting>, k: Kind, e: Setting)
    ensures ChildCopy(es, k, e) == Some([e]) <==> Fits(k, es + [e], |es|)
    decreases e, 1
  {
    var all := es + [e];
    assert all[..|es|] == es && all[|es|] == e && (es != [] ==> all[0] == es[0]);
    CopyIsFaithful(e);
    CopyKeepsName(e);
    hide HasMember, HasNames, CopyOf, Uniform, Tidy;
    if k == Group || e.load.Aggregate? {
      SimpleIsFaithful(es, k, e);
    } else if CopyOf(e) == Some(e) {
      assert e.elems == [];
    }
  }

  lemma SimpleIsFaithful(es: seq<Setting>, k: Kind, e: Setting)
    ensures SimpleCopy(es, k, e) == Some([e]) <==> CopyOf(e) == Some(e) && NameFits(k, es + [e], |es|)
  {
    CopyKeepsName(e);
    var all := es + [e];
    assert all[..|es|] == es && all[|es|] == e;
    hide CopyOf, HasMember, HasNames;
    var r := SimpleCopy(es, k, e);
    if CopyOf(e).Some? {
      var c := CopyOf(e).value;
      assert k != Group || e.name == c.name;
      if r.Some? && r.value != [] {
        assert r == Some([c.(name := if k == Group then e.name else None)]);
        assert r == Some([e]) ==> r.value[0] == e;
      }
    }
  }

  lemma AtMostOne(front: seq<Setting>, k: Kind, e: Setting)
    ensures ChildCopy(front, k, e).Some? ==> |ChildCopy(front, k, e).value| <= 1
  {
    var simple := SimpleCopy(front, k, e);
    assert simple.Some? ==> |simple.value| <= 1;
  }

  lemma CopyKeepsName(s: Setting)
    ensures CopyOf(s).Some? ==> CopyOf(s).value.name == s.name && CopyOf(s).value.load == s.load
  {
  }

  // ---------- When copying faults ----------

  // The type an array of copies takes: that of the first element that has one.
  function FirstType(es: seq<Setting>): Load
  {
    if es == [] then Untyped
    else
      var first := FirstType(es[..|es| - 1]);
      if first.Untyped? then es[|es| - 1].load else first
  }

  // An array's number of another type than its first element with a type.
  predicate Odd(es: seq<Setting>, i: nat)
    requires i < |es|
  {
    IsInteger(es[i].load) && !FirstType(es[..i]).Untyped? && !SameType(FirstType(es[..i]), es[i].load)
  }

  predicate HasOdd(s: Setting)
  {
    s.load.Aggregate? && exists i | 0 <= i < |s.elems| :: HasOdd(s.elems[i]) || (s.load.kind == Array && Odd(s.elems, i))
  }

  // If the names are in order, copying faults exactly when some array has an odd number.
  lemma {:induction false} CopyFaults(s: Setting)
    requires Tidy(s)
    ensures CopyOf(s) == None <==> HasOdd(s)
    decreases s, 0
  {
    if s.load.Aggregate? { CopiesFault(s.elems, s.load.kind); }
  }

  ghost predicate AnyOdd(es: seq<Setting>, k: Kind)
  {
    exists i | 0 <= i < |es| :: HasOdd(es[i]) || (k == Array && Odd(es, i))
  }

  lemma {:induction false} CopiesFault(es: seq<Setting>, k: Kind)
    requires forall i | 0 <= i < |es| :: Tidy(es[i]) && NameFits(k, es, i)
    ensures CopiesOf(es, k) == None <==> AnyOdd(es, k)
    ensures CopiesOf(es, k).Some? ==> LooksLike(CopiesOf(es, k).value, es, k)
    decreases es
  {
    if es != [] {
      var n := |es| - 1;
      PrefixTidy(es, n, k);
      CopiesFault(es[..n], k);
      AnyOddNext(es, n, k);
      hide CopiesOf, AnyOdd, LooksLike, HasOdd, Odd, Tidy, ChildCopy;
      if CopiesOf(es[..n], k).Some? {
        ChildFaults(CopiesOf(es[..n], k).value, es, n, k);
      }
      CopiesNext(es, n, k);
      assert es[..n + 1] == es;
    }
  }

  lemma PrefixTidy(es: seq<Setting>, n: nat, k: Kind)
    requires n < |es| && forall i | 0 <= i < |es| :: Tidy(es[i]) && NameFits(k, es, i)
    ensures forall i | 0 <= i < n :: Tidy(es[..n][i]) && NameFits(k, es[..n], i)
  {
    forall i | 0 <= i < n ensures NameFits(k, es[..n], i) == NameFits(k, es, i) {
      assert es[..n][..i] == es[..i];
    }
  }

  lemma AnyOddNext(es: seq<Setting>, n: nat, k: Kind)
    requires |es| == n + 1
    ensures AnyOdd(es, k) <==> AnyOdd(es[..n], k) || HasOdd(es[n]) || (k == Array && Odd(es, n))
  {
    forall i: nat | i < n ensures Odd(es[..n], i) == Odd(es, i) && es[..n][i] == es[i] {
      assert es[..n][..i] == es[..i];
    }
    hide Odd, HasOdd;
    if AnyOdd(es[..n], k) {
      var i: nat :| i < n && (HasOdd(es[..n][i]) || (k == Array && Odd(es[..n], i)));
      assert HasOdd(es[i]) || (k == Array && Odd(es, i));
    }
    if AnyOdd(es, k) {
      var i: nat :| i < |es| && (HasOdd(es[i]) || (k == Array && Odd(es, i)));
      if i < n { assert HasOdd(es[..n][i]) || (k == Array && Odd(es[..n], i)); }
    }
  }

  // What matters of the copies so far: in groups the names, in arrays the first type.
  ghost predicate LooksLike(c: seq<Setting>, es: seq<Setting>, k: Kind)
  {
    match k
    case Group => |c| == |es| && forall i | 0 <= i < |es| :: c[i].name == es[i].name
    case Array => if c == [] then FirstType(es).Untyped? else c[0].load == FirstType(es) && !c[0].load.Untyped?
    case List => true
  }

  lemma ChildFaults(c: seq<Setting>, es: seq<Setting>, n: nat, k: Kind)
    requires |es| == n + 1 && Tidy(es[n]) && NameFits(k, es, n) && LooksLike(c, es[..n], k)
    ensures ChildCopy(c, k, es[n]) == None <==> HasOdd(es[n]) || (k == Array && Odd(es, n))
    ensures ChildCopy(c, k, es[n]).Some? ==> LooksLike(c + ChildCopy(c, k, es[n]).value, es, k)
    decreases es[n], 1
  {
    CopyFaults(es[n]);
    if k == Group { MemberLike(c, es, n); } else { ElemLike(c, es, n, k); }
  }

  lemma MemberLike(c: seq<Setting>, es: seq<Setting>, n: nat)
    requires |es| == n + 1 && NameFits(Group, es, n) && LooksLike(c, es[..n], Group)
    ensures SimpleCopy(c, Group, es[n]).Some? == CopyOf(es[n]).Some?
    ensures CopyOf(es[n]).Some? ==> LooksLike(c + SimpleCopy(c, Group, es[n]).value, es, Group)
  {
    SameMembers(c, es[..n], es[n].name);
    hide HasMember, HasNames, CopyOf;
  }

  lemma ElemLike(c: seq<Setting>, es: seq<Setting>, n: nat, k: Kind)
    requires |es| == n + 1 && k != Group && LooksLike(c, es[..n], k)
    ensures ElemCopy(c, k, es[n]) == None
       <==> (es[n].load.Aggregate? && CopyOf(es[n]) == None) || (k == Array && Odd(es, n))
    ensures ElemCopy(c, k, es[n]).Some? ==> LooksLike(c + ElemCopy(c, k, es[n]).value, es, k)
  {
    CopyKeepsName(es[n]);
    hide CopyOf;
    assert FirstType(es) == if FirstType(es[..n]).Untyped? then es[n].load else FirstType(es[..n]);
    if es[n].load.Aggregate? {
      assert ElemCopy(c, k, es[n]) == SimpleCopy(c, k, es[n]);
    } else if ElemCopy(c, k, es[n]).Some? {
      var d := ElemCopy(c, k, es[n]).value;
      assert d == [] || d == [Setting(None, es[n].load, [])];
    }
  }

  lemma SameMembers(a: seq<Setting>, b: seq<Setting>, name: Option<string>)
    requires |a| == |b| && forall i | 0 <= i < |a| :: a[i].name == b[i].name
    ensures name.Some? ==> HasMember(a, name.value) == HasMember(b, name.value)
    ensures HasNames(a) == HasNames(b)
  {
  }

  // An array of 1 and "x" is copied without its second element; with "x" before 1 copying faults.
  lemma MixedArrays()
    ensures var one, x := Setting(None, Int(1, Decimal), []), Setting(None, Str(Some("x")), []);
      && Tidy(Setting(None, Aggregate(Array), [one, x])) && Tidy(Setting(None, Aggregate(Array), [x, one]))
      && CopyOf(Setting(None, Aggregate(Array), [one, x])) == Some(Setting(None, Aggregate(Array), [one]))
      && CopyOf(Setting(None, Aggregate(Array), [x, one])) == None
  {
    var one, x := Setting(None, Int(1, Decimal), []), Setting(None, Str(Some("x")), []);
    FirstOnly(one, x);
    FirstOnly(x, one);
  }

  lemma FirstOnly(a: Setting, b: Setting)
    requires !a.load.Aggregate? && !a.load.Untyped? && !b.load.Aggregate? && !b.load.Untyped?
    requires a.name == b.name == None && a.elems == b.elems == [] && !SameType(a.load, b.load)
    ensures Tidy(Setting(None, Aggregate(Array), [a, b]))
    ensures CopiesOf([a, b], Array) == if IsInteger(b.load) then None else Some([a])
  {
    var s := Setting(None, Aggregate(Array), [a, b]);
    assert Tidy(a) && Tidy(b);
    assert forall i | 0 <= i < 2 :: Tidy(s.elems[i]) && NameFits(Array, s.elems, i);
    assert [a, b][..1] == [a] && [a][..0] == [];
    assert ElemCopy([], Array, a) == Some([a]);
    assert [] + [a] == [a] && [a] + [] == [a];
    assert CopiesOf([a], Array) == Some([a]);
    assert ChildCopy([a], Array, b) == if IsInteger(b.load) then None else Some([]);
  }

  // Whatever the parser has read is copied faithfully.
  lemma {:induction false} ParsedIsFaithful(s: Setting)
    requires ConfigMeaning.WellFormed(s)
    ensures CopyOf(s) == Some(s)
  {
    CopyIsFaithful(s);
    WellFormedFits(s);
  }

  lemma {:induction false} WellFormedFits(s: Setting)
    requires ConfigMeaning.WellFormed(s)
    ensures Tidy(s) && Uniform(s)
    decreases s
  {
    if s.load.Aggregate? {
      forall i | 0 <= i < |s.elems| ensures Fits(s.load.kind, s.elems, i) {
        WellFormedFits(s.elems[i]);
        if s.load.kind == Group { NewMember(s.elems, i); }
      }
      FitsEach(s);
    }
  }

  lemma NewMember(es: seq<Setting>, i: nat)
    requires ConfigMeaning.DistinctNames(es) && i < |es|
    ensures !HasMember(es[..i], es[i].name.value)
  {
    forall k | 0 <= k < i ensures Stem(es[k].name.value) != Stem(es[i].name.value) {
      assert es[k].name != es[i].name;
      StemOfName(es[k].name.value);
      StemOfName(es[i].name.value);
    }
  }

  lemma CopiesNext(es: seq<Setting>, i: nat, k: Kind)
    requires i < |es|
    ensures CopiesOf(es[..i + 1], k)
         == match CopiesOf(es[..i], k)
            case None => None
            case Some(front) =>
              match ChildCopy(front, k, es[i])
              case None => None
              case Some(c) => Some(front + c)
  {
    assert es[..i + 1][..i] == es[..i];
  }

  // ---------- Records ----------

  // b is a with new records below p: ts are p's new children, nothing else has changed.
  ghost predicate Extends(a: seq<Node>, b: seq<Node>, p: nat, ts: seq<Setting>)
    requires Wf(a) && Wf(b)
  {
    && p < |a| <= |b| && (ts == [] ==> b == a)
    && (forall i | 0 <= i < |a| && i != p :: b[i] == a[i])
    && b[p] == a[p].(elems := b[p].elems)
    && |b[p].elems| == |a[p].elems| + |ts| && a[p].elems <= b[p].elems
    && (forall j | |a[p].elems| <= j < |b[p].elems| ::
          b[p].elems[j] >= |a| && Tree(b, b[p].elems[j]) == ts[j - |a[p].elems|])
  }

  lemma ExtendsTree(a: seq<Node>, b: seq<Node>, p: nat, ts: seq<Setting>, i: nat)
    requires Wf(a) && Wf(b) && Extends(a, b, p, ts) && i < |a| && !Within(a, i, p)
    ensures Tree(b, i) == Tree(a, i)
  {
    TreeSame(a, b, i);
  }

  lemma {:induction false} ExtendsWithin(a: seq<Node>, b: seq<Node>, p: nat, ts: seq<Setting>, i: nat, x: nat)
    requires Wf(a) && Wf(b) && Extends(a, b, p, ts) && i < |a| && x < |a|
    ensures Within(b, i, x) == Within(a, i, x)
    decreases x
  {
    if x > i { ExtendsWithin(a, b, p, ts, i, a[x].parent); }
  }

  // Adding more children to p.
  lemma ExtendsTwice(a: seq<Node>, b: seq<Node>, c: seq<Node>, p: nat, ts: seq<Setting>, more: seq<Setting>)
    requires Wf(a) && Wf(b) && Wf(c) && Extends(a, b, p, ts) && Extends(b, c, p, more)
    ensures Extends(a, c, p, ts + more)
  {
    forall j | |a[p].elems| <= j < |c[p].elems|
      ensures c[p].elems[j] >= |a| && Tree(c, c[p].elems[j]) == (ts + more)[j - |a[p].elems|]
    {
      if j < |b[p].elems| {
        assert c[p].elems[j] == b[p].elems[j];
        ExtendsTree(b, c, p, more, b[p].elems[j]);
      }
    }
  }

  lemma ExtendsNothing(a: seq<Node>, p: nat)
    requires Wf(a) && p < |a|
    ensures Extends(a, a, p, [])
  {
  }

  lemma ExtendsGrown(a: seq<Node>, p: nat, name: Option<string>, v: Load)
    requires Wf(a) && p < |a|
    ensures Wf(Grown(a, p, name, v)) && Extends(a, Grown(a, p, name, v), p, [Setting(name, v, [])])
  {
    GrownWf(a, p, name, v);
    GrownTree(a, p, name, v, p);
  }

  // Filling a new child k of p: seen from before, p got one child.
  lemma ExtendsBelow(a: seq<Node>, g: seq<Node>, b: seq<Node>, p: nat, name: Option<string>, v: Load, ts: seq<Setting>)
    requires Wf(a) && Wf(g) && Wf(b) && p < |a| && g == Grown(a, p, name, v) && Extends(g, b, |a|, ts)
    ensures Extends(a, b, p, [Setting(name, v, ts)])
  {
    var k := |a|;
    assert g[k].elems == [] && b[p] == g[p];
    assert Tree(b, k).elems == ts;
  }

  // A record outside p keeps its value, and stays apart, when a child k of p is filled.
  lemma Apart(a: seq<Node>, b: seq<Node>, p: nat, name: Option<string>, v: Load, ts: seq<Setting>, c: nat)
    requires Wf(a) && p < |a| && Wf(Grown(a, p, name, v)) && Wf(b)
    requires Extends(Grown(a, p, name, v), b, |a|, ts) && c < |a| && !Within(a, c, p)
    ensures !Within(b, c, |a|) && b[c] == a[c] && Tree(b, c) == Tree(a, c)
  {
    var g := Grown(a, p, name, v);
    ExtendsGrown(a, p, name, v);
    ExtendsWithin(a, g, p, [Setting(name, v, [])], c, p);
    ExtendsWithin(g, b, |a|, ts, c, |a|);
    ExtendsTree(a, g, p, [Setting(name, v, [])], c);
    ExtendsTree(g, b, |a|, ts, c);
    assert c != p;
  }

  lemma ChildApart(a: seq<Node>, s: nat, p: nat, i: nat)
    requires Wf(a) && s < |a| && p < |a| && !Within(a, s, p) && i < |a[s].elems|
    ensures !Within(a, a[s].elems[i], p)
    ensures Tree(a, a[s].elems[i]) == Tree(a, s).elems[i] && |Tree(a, s).elems| == |a[s].elems|
  {
    if Within(a, a[s].elems[i], p) { WithinChild(a, s, a[s].elems[i], p); }
  }

  // ---------- Copying ----------

  // A setter on a fresh setting, and then its format.
  method Fill(dst: Config, k: nat, v: Load, ghost was: seq<Node>, ghost p: nat, ghost name: Option<string>)
    requires dst.Valid() && Wf(was) && p < |was| == k && IsSettable(v)
    requires dst.nodes == Grown(was, p, name, Zero(v))
    modifies dst
    ensures dst.Valid() && dst.nodes == Grown(was, p, name, v)
  {
    StoredFresh(v);
    var ok := dst.Set(k, v);
    if v.Int? || v.Int64? {
      ok := dst.SetFormat(k, v.fmt);
    }
    assert dst.nodes == Grown(was, p, name, v);
  }

  // s is a setting of src with value t, and p, an aggregate of dst, is not below it.
  ghost predicate CanCopy(dst: Config, p: nat, src: Config, s: nat, t: Setting)
    reads dst, src
  {
    && dst.Valid() && src.Valid() && p < |dst.nodes| && s < |src.nodes|
    && t == Tree(src.nodes, s) && dst.nodes[p].load.Aggregate?
    && (dst == src ==> !Within(src.nodes, s, p))
  }

  ghost function Children(dst: Config, p: nat): seq<Setting>
    requires dst.Valid() && p < |dst.nodes|
    reads dst
  {
    Trees(dst.nodes, dst.nodes[p].elems)
  }

  // The children added below p are those expected, unless a fault is.
  twostate predicate Outcome(dst: Config, p: nat, fault: bool, new expected: Option<seq<Setting>>)
    requires old(dst.Valid())
    reads dst
  {
    && fault == expected.None?
    && (!fault ==> dst.Valid() && Extends(old(dst.nodes), dst.nodes, p, expected.value))
  }

  // What config_setting_add does with the name, in terms of values.
  lemma NamesAre(dst: Config, p: nat, name: Option<string>)
    requires dst.Valid() && p < |dst.nodes| && dst.nodes[p].load.Aggregate?
    ensures var k, front := dst.nodes[p].load.kind, Children(dst, p);
      && (dst.NullName(p, name) <==> k == Group && name.None? && HasNames(front))
      && (dst.Refuses(p, name) <==> k == Group && name.Some? && (!ValidName(name.value) || HasMember(front, name.value)))
      && dst.GivenName(p, name) == if k == Group then name else None
  {
    var front, ids := Children(dst, p), dst.nodes[p].elems;
    assert forall i | 0 <= i < |ids| :: front[i].name == dst.nodes[ids[i]].name;
    if name.Some? { HasNamedIsMember(dst.nodes, p, name.value); }
    if HasNames(front) {
      var i :| 0 <= i < |front| && front[i].name.Some?;
      assert dst.nodes[ids[i]].name.Some?;
    }
  }

  // config_setting_copy_simple.
  method CopySimple(dst: Config, p: nat, src: Config, s: nat, ghost t: Setting) returns (fault: bool)
    requires CanCopy(dst, p, src, s, t)
    modifies dst
    ensures Outcome(dst, p, fault, SimpleCopy(old(Children(dst, p)), old(dst.nodes[p].load.kind), t))
    decreases t, 1
  {
    var v := src.nodes[s].load;
    if v.Aggregate? {
      fault := CopyAggregate(dst, p, src, s, t);
    } else {
      fault := CopyScalar(dst, p, src, s, t);
    }
  }

  method CopyScalar(dst: Config, p: nat, src: Config, s: nat, ghost t: Setting) returns (fault: bool)
    requires CanCopy(dst, p, src, s, t) && !t.load.Aggregate?
    modifies dst
    ensures Outcome(dst, p, fault, SimpleCopy(old(Children(dst, p)), old(dst.nodes[p].load.kind), t))
  {
    ghost var was := dst.nodes;
    SourceShape(src.nodes, s, t);
    NamesAre(dst, p, t.name);
    hide HasNames, HasMember, Trees, Tree, Extends;
    var name, v := src.nodes[s].name, src.nodes[s].load;
    ghost var given := dst.GivenName(p, name);
    ExtendsGrown(was, p, given, v);
    ExtendsNothing(was, p);
    fault := dst.ReadsNullName(p, name);
    if fault { return; }
    var k := dst.Add(p, name, Zero(v));
    if k == -1 { return; }
    if !v.Untyped? { Fill(dst, k, v, was, p, given); }
  }

  // config_setting_copy_elem: p is a list or an array.
  method CopyElem(dst: Config, p: nat, src: Config, s: nat, ghost t: Setting) returns (fault: bool)
    requires CanCopy(dst, p, src, s, t) && dst.nodes[p].load != Aggregate(Group)
    modifies dst
    ensures Outcome(dst, p, fault, ElemCopy(old(Children(dst, p)), old(dst.nodes[p].load.kind), t))
    decreases t, 1
  {
    var v := src.nodes[s].load;
    SourceShape(src.nodes, s, t);
    if v.Aggregate? {
      fault := CopyAggregate(dst, p, src, s, t);
    } else if !v.Untyped? {
      assert dst.nodes[p].load.kind.List? || dst.nodes[p].load.kind.Array?;
      fault := AppendCopy(dst, p, v, t);
    } else {
      ExtendsNothing(dst.nodes, p);
      fault := false;
    }
  }

  // A scalar is appended by its setter; a refused number's format is set through NULL.
  method AppendCopy(dst: Config, p: nat, v: Load, ghost t: Setting) returns (fault: bool)
    requires dst.Valid() && p < |dst.nodes| && IsSettable(v) && t.load == v
    requires dst.nodes[p].load == Aggregate(List) || dst.nodes[p].load == Aggregate(Array)
    modifies dst
    ensures Outcome(dst, p, fault, ElemCopy(old(Children(dst, p)), old(dst.nodes[p].load.kind), t))
  {
    ghost var was := dst.nodes;
    ExtendsGrown(was, p, None, v);
    ExtendsNothing(was, p);
    StoredFresh(v);
    if was[p].elems != [] {
      assert Children(dst, p)[0].load == was[was[p].elems[0]].load;
    }
    hide Extends;
    var k := dst.AppendElem(p, v);
    if v.Int? || v.Int64? {
      if k == -1 { return true; }
      var ok := dst.SetFormat(k, v.fmt);
    }
    if k != -1 { assert dst.nodes == Grown(was, p, None, v); }
    fault := false;
  }

  // The new aggregate k has the copies of the first i elements of es.
  ghost predicate Partial(g: seq<Node>, b: seq<Node>, k: nat, es: seq<Setting>, i: nat)
  {
    && Wf(g) && Wf(b) && k < |g| <= |b| && g[k].load.Aggregate? && g[k].elems == [] && i <= |es|
    && CopiesOf(es[..i], g[k].load.kind).Some?
    && Extends(g, b, k, CopiesOf(es[..i], g[k].load.kind).value)
  }

  lemma PartialChildren(g: seq<Node>, b: seq<Node>, k: nat, es: seq<Setting>, i: nat)
    requires Partial(g, b, k, es, i)
    ensures Trees(b, b[k].elems) == CopiesOf(es[..i], g[k].load.kind).value && b[k].load == g[k].load
  {
  }

  lemma PartialNext(g: seq<Node>, b: seq<Node>, c: seq<Node>, k: nat, es: seq<Setting>, i: nat, more: Option<seq<Setting>>)
    requires Partial(g, b, k, es, i) && i < |es|
    requires more == ChildCopy(CopiesOf(es[..i], g[k].load.kind).value, g[k].load.kind, es[i])
    ensures more.None? ==> CopiesOf(es[..i + 1], g[k].load.kind).None?
    ensures more.Some? && Wf(c) && Extends(b, c, k, more.value) ==> Partial(g, c, k, es, i + 1)
  {
    CopiesNext(es, i, g[k].load.kind);
    if more.Some? && Wf(c) && Extends(b, c, k, more.value) {
      ExtendsTwice(g, b, c, k, CopiesOf(es[..i], g[k].load.kind).value, more.value);
    }
  }

  // The next child.
  method CopyChild(dst: Config, k: nat, src: Config, c: nat, ghost g: seq<Node>, ghost es: seq<Setting>, ghost i: nat)
    returns (fault: bool)
    requires i < |es| && Partial(g, dst.nodes, k, es, i) && CanCopy(dst, k, src, c, es[i])
    modifies dst
    ensures if fault then CopiesOf(es[..i + 1], g[k].load.kind).None? else Partial(g, dst.nodes, k, es, i + 1)
    decreases es[i], 2
  {
    ghost var before, kind := dst.nodes, g[k].load.kind;
    ghost var more := ChildCopy(CopiesOf(es[..i], kind).value, kind, es[i]);
    PartialChildren(g, before, k, es, i);
    hide Partial, Extends, CopiesOf, Trees, Tree, SimpleCopy, ElemCopy;
    if dst.nodes[k].load == Aggregate(Group) {
      fault := CopySimple(dst, k, src, c, es[i]);
    } else {
      fault := CopyElem(dst, k, src, c, es[i]);
    }
    PartialNext(g, before, dst.nodes, k, es, i, more);
  }

  // The children of record s of a are still in b, and apart from k.
  ghost predicate Kept(a: seq<Node>, s: nat, b: seq<Node>, k: nat)
    requires Wf(a) && s < |a|
  {
    && Wf(b) && s < |b| && k < |b| && b[s] == a[s]
    && forall i | 0 <= i < |a[s].elems| ::
         var c := a[s].elems[i]; c < |b| && Tree(b, c) == Tree(a, c) && !Within(b, c, k)
  }

  lemma SourceKept(was: seq<Node>, b: seq<Node>, p: nat, given: Option<string>, v: Load, es: seq<Setting>, n: nat, s: nat)
    requires Wf(was) && p < |was| && v.Aggregate? && Wf(Grown(was, p, given, v)) && Wf(b)
    requires Partial(Grown(was, p, given, v), b, |was|, es, n) && s < |was| && !Within(was, s, p)
    ensures Kept(was, s, b, |was|)
  {
    var ts := CopiesOf(es[..n], v.kind).value;
    Apart(was, b, p, given, v, ts, s);
    forall i | 0 <= i < |was[s].elems|
      ensures var c := was[s].elems[i]; c < |b| && Tree(b, c) == Tree(was, c) && !Within(b, c, |was|)
    {
      ChildApart(was, s, p, i);
      Apart(was, b, p, given, v, ts, was[s].elems[i]);
    }
  }

  // config_setting_copy_aggregate.
  method CopyAggregate(dst: Config, p: nat, src: Config, s: nat, ghost t: Setting) returns (fault: bool)
    requires CanCopy(dst, p, src, s, t) && t.load.Aggregate?
    modifies dst
    ensures Outcome(dst, p, fault, SimpleCopy(old(Children(dst, p)), old(dst.nodes[p].load.kind), t))
    decreases t, 0, 1
  {
    ghost var was, source := dst.nodes, src.nodes;
    SourceShape(source, s, t);
    NamesAre(dst, p, t.name);
    hide Tree, Trees, Within, CopiesOf, Extends, HasNames, HasMember;
    var name, v := src.nodes[s].name, src.nodes[s].load;
    ghost var given := dst.GivenName(p, name);
    ExtendsNothing(was, p);
    fault := dst.ReadsNullName(p, name);
    if fault { return; }
    var k := dst.Add(p, name, v);
    if k == -1 { return; }
    fault := CopyChildren(dst, p, src, s, k, was, source, given, t);
    if !fault {
      ExtendsBelow(was, Grown(was, p, given, v), dst.nodes, p, given, v, CopiesOf(t.elems, v.kind).value);
    }
  }

  // The loop of config_setting_copy_aggregate, which fills the new child k of p.
  method CopyChildren(dst: Config, ghost p: nat, src: Config, s: nat, k: nat, ghost was: seq<Node>,
                      ghost source: seq<Node>, ghost given: Option<string>, ghost t: Setting) returns (fault: bool)
    requires Wf(was) && p < |was| == k && t.load.Aggregate? && dst.Valid() && dst.nodes == Grown(was, p, given, t.load)
    requires Wf(source) && s < |source| && t == Tree(source, s)
    requires if dst == src then source == was && !Within(source, s, p) else src.nodes == source
    modifies dst
    ensures fault == CopiesOf(t.elems, t.load.kind).None?
    ensures !fault ==>
              dst.Valid() && Extends(Grown(was, p, given, t.load), dst.nodes, k, CopiesOf(t.elems, t.load.kind).value)
    decreases t, 0, 0
  {
    ghost var g := dst.nodes;
    SourceShape(source, s, t);
    Started(dst, p, src, s, k, was, source, given, t);
    hide Halfway, CopiesOf, Extends;
    fault := false;
    var n := |src.nodes[s].elems|;
    var i := 0;
    while i < n
      invariant 0 <= i <= n == |t.elems| && !fault
      invariant Halfway(dst, p, src, s, k, was, source, given, t, i)
    {
      fault := CopyOne(dst, p, src, s, k, was, source, given, t, i);
      if fault {
        FaultStays(t.elems, i + 1, t.load.kind);
        return;
      }
      i := i + 1;
    }
    Finished(dst, p, src, s, k, was, source, given, t);
  }

  // The first i children have been copied, and the source is as it was.
  ghost predicate Halfway(dst: Config, p: nat, src: Config, s: nat, k: nat, was: seq<Node>, source: seq<Node>,
                          given: Option<string>, t: Setting, i: nat)
    requires Wf(was) && p < |was| == k && t.load.Aggregate? && Wf(source) && s < |source| && t == Tree(source, s)
    reads dst, src
  {
    && i <= |t.elems| && Partial(Grown(was, p, given, t.load), dst.nodes, k, t.elems, i)
    && if dst == src then source == was && !Within(source, s, p) && Kept(source, s, src.nodes, k) else src.nodes == source
  }

  lemma Started(dst: Config, p: nat, src: Config, s: nat, k: nat, was: seq<Node>, source: seq<Node>,
                given: Option<string>, t: Setting)
    requires Wf(was) && p < |was| == k && t.load.Aggregate? && dst.nodes == Grown(was, p, given, t.load)
    requires Wf(source) && s < |source| && t == Tree(source, s)
    requires if dst == src then source == was && !Within(source, s, p) else src.nodes == source
    ensures Halfway(dst, p, src, s, k, was, source, given, t, 0)
    ensures s < |src.nodes| && |src.nodes[s].elems| == |t.elems|
  {
    SourceShape(source, s, t);
    PartialStart(was, p, given, t.load, t.elems);
    PartialValid(dst.nodes, dst.nodes, k, t.elems, 0);
    hide Tree, Within, CopiesOf, Extends, Partial;
    if dst == src { SourceKept(was, dst.nodes, p, given, t.load, t.elems, 0, s); }
  }

  lemma Finished(dst: Config, p: nat, src: Config, s: nat, k: nat, was: seq<Node>, source: seq<Node>,
                 given: Option<string>, t: Setting)
    requires Wf(was) && p < |was| == k && t.load.Aggregate? && Wf(source) && s < |source| && t == Tree(source, s)
    requires Halfway(dst, p, src, s, k, was, source, given, t, |t.elems|)
    ensures dst.Valid() && Wf(Grown(was, p, given, t.load)) && CopiesOf(t.elems, t.load.kind).Some?
    ensures Extends(Grown(was, p, given, t.load), dst.nodes, k, CopiesOf(t.elems, t.load.kind).value)
  {
    assert t.elems[..|t.elems|] == t.elems;
    PartialValid(Grown(was, p, given, t.load), dst.nodes, k, t.elems, |t.elems|);
    hide Tree, Within, CopiesOf, Extends, Partial, Wf;
  }

  // One round of the loop.
  method CopyOne(dst: Config, ghost p: nat, src: Config, s: nat, k: nat, ghost was: seq<Node>, ghost source: seq<Node>,
                 ghost given: Option<string>, ghost t: Setting, i: nat) returns (fault: bool)
    requires Wf(was) && p < |was| == k && t.load.Aggregate? && Wf(source) && s < |source| && t == Tree(source, s)
    requires Halfway(dst, p, src, s, k, was, source, given, t, i) && i < |t.elems|
    modifies dst
    ensures fault ==> CopiesOf(t.elems[..i + 1], t.load.kind).None?
    ensures !fault ==>
              && Halfway(dst, p, src, s, k, was, source, given, t, i + 1)
              && s < |src.nodes| && |src.nodes[s].elems| == |t.elems|
    decreases t.elems[i], 3
  {
    ghost var g := Grown(was, p, given, t.load);
    SourceShape(source, s, t);
    PartialValid(g, dst.nodes, k, t.elems, i);
    ChildReady(dst, src, source, s, k, t, i, g);
    hide Tree, Within, CopiesOf, Extends, CanCopy, Partial, Kept, Wf;
    fault := CopyChild(dst, k, src, src.nodes[s].elems[i], g, t.elems, i);
    if !fault {
      PartialValid(g, dst.nodes, k, t.elems, i + 1);
      if dst == src { StillKept(was, dst.nodes, p, given, t, i + 1, s); }
    }
  }

  lemma StillKept(was: seq<Node>, b: seq<Node>, p: nat, given: Option<string>, t: Setting, n: nat, s: nat)
    requires Wf(was) && p < |was| && t.load.Aggregate? && Wf(Grown(was, p, given, t.load)) && Wf(b)
    requires Partial(Grown(was, p, given, t.load), b, |was|, t.elems, n) && s < |was| && !Within(was, s, p)
    ensures Kept(was, s, b, |was|) && s < |b| && b[s] == was[s]
  {
    SourceKept(was, b, p, given, t.load, t.elems, n, s);
  }

  lemma PartialValid(g: seq<Node>, b: seq<Node>, k: nat, es: seq<Setting>, i: nat)
    requires Partial(g, b, k, es, i)
    ensures Wf(g) && Wf(b) && k < |b| && b[k].load == g[k].load && g[k].load.Aggregate? && i <= |es|
    ensures CopiesOf(es[..i], g[k].load.kind).Some? && Extends(g, b, k, CopiesOf(es[..i], g[k].load.kind).value)
  {
  }

  // The next child of the source can be copied.
  lemma ChildReady(dst: Config, src: Config, source: seq<Node>, s: nat, k: nat, t: Setting, i: nat, g: seq<Node>)
    requires dst.Valid() && Wf(source) && s < |source| && t == Tree(source, s) && i < |t.elems|
    requires Partial(g, dst.nodes, k, t.elems, i)
    requires if dst == src then Kept(source, s, src.nodes, k) else src.nodes == source
    ensures s < |src.nodes| && i < |src.nodes[s].elems| == |t.elems|
    ensures CanCopy(dst, k, src, src.nodes[s].elems[i], t.elems[i])
  {
    SourceChild(source, s, t, i);
    SourceShape(source, s, t);
    PartialValid(g, dst.nodes, k, t.elems, i);
    hide Tree, Within, Partial, Wf;
  }

  lemma {:induction false} FaultStays(es: seq<Setting>, i: nat, k: Kind)
    requires i <= |es| && CopiesOf(es[..i], k).None?
    ensures CopiesOf(es, k).None?
    decreases |es| - i
  {
    if i == |es| {
      assert es[..i] == es;
    } else {
      CopiesNext(es, i, k);
      FaultStays(es, i + 1, k);
    }
  }

  lemma SourceShape(a: seq<Node>, s: nat, t: Setting)
    requires Wf(a) && s < |a| && t == Tree(a, s)
    ensures t.name == a[s].name && t.load == a[s].load && |t.elems| == |a[s].elems|
  {
  }

  lemma SourceChild(a: seq<Node>, s: nat, t: Setting, i: nat)
    requires Wf(a) && s < |a| && t == Tree(a, s) && i < |a[s].elems|
    ensures |t.elems| == |a[s].elems| && t.elems[i] == Tree(a, a[s].elems[i])
  {
  }

  lemma PartialStart(was: seq<Node>, p: nat, given: Option<string>, v: Load, es: seq<Setting>)
    requires Wf(was) && p < |was| && v.Aggregate?
    ensures Partial(Grown(was, p, given, v), Grown(was, p, given, v), |was|, es, 0)
    ensures Extends(was, Grown(was, p, given, v), p, [Setting(given, v, [])])
  {
    ExtendsGrown(was, p, given, v);
    ExtendsNothing(Grown(was, p, given, v), |was|);
    assert es[..0] == [];
  }

  // config_setting_copy: a copy of s below p, which must be a group or a list. A group
  // that already has the name, or a name that is not valid, leaves the destination as it is.
  method Copy(dst: Config, p: nat, src: Config, s: nat, ghost t: Setting) returns (ok: bool, fault: bool)
    requires dst.Valid() && src.Valid() && p < |dst.nodes| && s < |src.nodes| && t == Tree(src.nodes, s)
    requires dst == src ==> !Within(src.nodes, s, p)
    modifies dst
    ensures ok <==> old(dst.nodes[p]).load == Aggregate(Group) || old(dst.nodes[p]).load == Aggregate(List)
    ensures !ok ==> !fault && dst.nodes == old(dst.nodes)
    ensures ok ==> Outcome(dst, p, fault, SimpleCopy(old(Children(dst, p)), old(dst.nodes[p]).load.kind, t))
  {
    if dst.nodes[p].load != Aggregate(Group) && dst.nodes[p].load != Aggregate(List) { return false, false; }
    ok := true;
    SourceShape(src.nodes, s, t);
    if src.nodes[s].load.Aggregate? {
      fault := CopyAggregate(dst, p, src, s, t);
    } else {
      fault := CopySimple(dst, p, src, s, t);
    }
  }
}
