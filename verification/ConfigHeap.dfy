/** Settings as the C code keeps them: records that point to their parent and children.
    A pointer is an index into the sequence of records, -1 is NULL, record 0 is the root. */
module ConfigHeap {
  import opened ConfigData

  datatype Node = Node(parent: int, name: Option<string>, load: Load, elems: seq<nat>)

  // Children are allocated after their parent and point back to it; no child occurs twice.
  ghost predicate Wf(nodes: seq<Node>)
  {
    && nodes != [] && nodes[0].parent == -1
    && (forall i | 0 < i < |nodes| :: 0 <= nodes[i].parent < i)
    && (forall i, k | 0 <= i < |nodes| && 0 <= k < |nodes[i].elems| ::
          i < nodes[i].elems[k] < |nodes| && nodes[nodes[i].elems[k]].parent == i)
    && (forall i, j, k | 0 <= i < |nodes| && 0 <= j < k < |nodes[i].elems| :: nodes[i].elems[j] < nodes[i].elems[k])
  }

  // The value a setting stands for.
  ghost function Tree(nodes: seq<Node>, i: nat): Setting
    requires Wf(nodes) && i < |nodes|
    decreases |nodes| - i
  {
    var e := nodes[i].elems;
    Setting(nodes[i].name, nodes[i].load,
            seq(|e|, k requires 0 <= k < |e| => Tree(nodes, e[k])))
  }

  ghost predicate Allocated(nodes: seq<Node>, ids: seq<nat>)
  {
    forall k | 0 <= k < |ids| :: ids[k] < |nodes|
  }

  ghost function Trees(nodes: seq<Node>, ids: seq<nat>): (ts: seq<Setting>)
    requires Wf(nodes) && Allocated(nodes, ids)
    ensures |ts| == |ids|
  {
    seq(|ids|, k requires 0 <= k < |ids| => Tree(nodes, ids[k]))
  }

  // i is x or an ancestor of x.
  ghost predicate Within(nodes: seq<Node>, i: nat, x: nat)
    requires Wf(nodes) && x < |nodes|
    decreases x
  {
    x == i || (x > i && Within(nodes, i, nodes[x].parent))
  }

  lemma {:induction false} WithinChild(nodes: seq<Node>, i: nat, c: nat, x: nat)
    requires Wf(nodes) && c < |nodes| && nodes[c].parent == i && x < |nodes| && Within(nodes, c, x)
    ensures Within(nodes, i, x)
    decreases x
  {
    if x != c { WithinChild(nodes, i, c, nodes[x].parent); }
  }

  // A setting's value depends only on the records below it.
  lemma {:induction false} TreeSame(a: seq<Node>, b: seq<Node>, i: nat)
    requires Wf(a) && Wf(b) && i < |a| <= |b|
    requires forall x: nat | x < |a| && Within(a, i, x) :: b[x] == a[x]
    ensures Tree(b, i) == Tree(a, i)
    decreases |a| - i
  {
    var e := a[i].elems;
    assert Within(a, i, i);
    forall k | 0 <= k < |e| ensures Tree(b, e[k]) == Tree(a, e[k]) {
      forall x: nat | x < |a| && Within(a, e[k], x) ensures b[x] == a[x] {
        WithinChild(a, i, e[k], x);
      }
      TreeSame(a, b, e[k]);
    }
    assert Tree(b, i).elems == Tree(a, i).elems;
  }

  // ---------- Two primitive changes ----------

  // A new record becomes the last child of p.
  function Grown(nodes: seq<Node>, p: nat, name: Option<string>, v: Load): seq<Node>
    requires p < |nodes|
  {
    nodes[p := nodes[p].(elems := nodes[p].elems + [|nodes|])] + [Node(p, name, v, [])]
  }

  lemma GrownWf(nodes: seq<Node>, p: nat, name: Option<string>, v: Load)
    requires Wf(nodes) && p < |nodes|
    ensures Wf(Grown(nodes, p, name, v))
  {
    var b := Grown(nodes, p, name, v);
    forall i, k | 0 <= i < |b| && 0 <= k < |b[i].elems|
      ensures i < b[i].elems[k] < |b| && b[b[i].elems[k]].parent == i
    {
    }
  }

  lemma GrownTree(nodes: seq<Node>, p: nat, name: Option<string>, v: Load, i: nat)
    requires Wf(nodes) && p < |nodes| && i < |nodes| && Wf(Grown(nodes, p, name, v))
    ensures !Within(nodes, i, p) ==> Tree(Grown(nodes, p, name, v), i) == Tree(nodes, i)
    ensures Tree(Grown(nodes, p, name, v), |nodes|) == Setting(name, v, [])
  {
    var b := Grown(nodes, p, name, v);
    if !Within(nodes, i, p) { TreeSame(nodes, b, i); }
    assert Tree(b, |nodes|).elems == [];
  }

  // A childless record gets another value.
  function Loaded(nodes: seq<Node>, i: nat, v: Load): seq<Node>
    requires i < |nodes|
  {
    nodes[i := nodes[i].(load := v)]
  }

  lemma LoadedWf(nodes: seq<Node>, i: nat, v: Load)
    requires Wf(nodes) && i < |nodes|
    ensures Wf(Loaded(nodes, i, v))
  {
    var b := Loaded(nodes, i, v);
    assert forall j | 0 <= j < |b| :: b[j].elems == nodes[j].elems && b[j].parent == nodes[j].parent;
  }

  lemma LoadedTree(nodes: seq<Node>, i: nat, v: Load, x: nat)
    requires Wf(nodes) && i < |nodes| && x < |nodes| && Wf(Loaded(nodes, i, v))
    ensures !Within(nodes, x, i) ==> Tree(Loaded(nodes, i, v), x) == Tree(nodes, x)
    ensures nodes[i].elems == [] ==> Tree(Loaded(nodes, i, v), i) == Setting(nodes[i].name, v, [])
  {
    if !Within(nodes, x, i) { TreeSame(nodes, Loaded(nodes, i, v), x); }
    if nodes[i].elems == [] { assert Tree(Loaded(nodes, i, v), i).elems == []; }
  }

  // ---------- The chain of open aggregates ----------

  // p and its ancestors are each the last child of their parent.
  ghost predicate OpenChain(nodes: seq<Node>, p: nat)
    requires Wf(nodes) && p < |nodes|
    decreases p
  {
    && nodes[p].load.Aggregate?
    && (p > 0 ==>
          var q := nodes[p].parent;
          nodes[q].elems != [] && nodes[q].elems[|nodes[q].elems| - 1] == p && OpenChain(nodes, q))
  }

  // A child that is not the last one of its parent is not on the chain above p.
  lemma {:induction false} ChainAvoids(nodes: seq<Node>, p: nat, q: nat, k: nat)
    requires Wf(nodes) && p < |nodes| && OpenChain(nodes, p) && q < |nodes| && k + 1 < |nodes[q].elems|
    ensures !Within(nodes, nodes[q].elems[k], p)
    decreases p
  {
    var x := nodes[q].elems[k];
    if p > x { ChainAvoids(nodes, nodes[p].parent, q, k); }
  }

  // The frames of the proper ancestors of p: all their children but the last are complete.
  ghost function OuterFrames(nodes: seq<Node>, p: nat): seq<Frame>
    requires Wf(nodes) && p < |nodes| && OpenChain(nodes, p)
    decreases p
  {
    if p == 0 then []
    else
      var q := nodes[p].parent;
      OuterFrames(nodes, q)
      + [Frame(nodes[q].name, nodes[q].load.kind, Trees(nodes, nodes[q].elems[..|nodes[q].elems| - 1]))]
  }

  ghost function Frames(nodes: seq<Node>, p: nat): seq<Frame>
    requires Wf(nodes) && p < |nodes| && OpenChain(nodes, p)
  {
    OuterFrames(nodes, p) + [Frame(nodes[p].name, nodes[p].load.kind, Trees(nodes, nodes[p].elems))]
  }

  // Changes at p and below leave the frames above p alone.
  lemma {:induction false} OuterSame(a: seq<Node>, b: seq<Node>, p: nat, top: nat)
    requires Wf(a) && Wf(b) && p <= top < |a| <= |b| && OpenChain(a, p)
    requires b[p].load.Aggregate? && b[p].parent == a[p].parent
    requires forall x: nat | x < p :: b[x] == a[x] || !Within(a, x, p)
    requires forall q: nat, k: nat | q < p && Within(a, q, p) && k + 1 < |a[q].elems| ::
               Tree(b, a[q].elems[k]) == Tree(a, a[q].elems[k])
    ensures OpenChain(b, p) && OuterFrames(b, p) == OuterFrames(a, p)
    decreases p
  {
    if p > 0 {
      var q := a[p].parent;
      assert Within(a, q, q) && Within(a, q, p);
      forall x: nat | x < q ensures b[x] == a[x] || !Within(a, x, q) {
        if Within(a, x, q) { assert Within(a, x, p); }
      }
      forall r: nat, k: nat | r < q && Within(a, r, q) && k + 1 < |a[r].elems|
        ensures Tree(b, a[r].elems[k]) == Tree(a, a[r].elems[k])
      {
        assert Within(a, r, p);
      }
      OuterSame(a, b, q, top);
      var ids := a[q].elems[..|a[q].elems| - 1];
      assert Trees(b, ids) == Trees(a, ids);
    }
  }

  // Only p or records below p change: the frames above p stay.
  lemma OuterKept(a: seq<Node>, b: seq<Node>, p: nat)
    requires Wf(a) && Wf(b) && p < |a| <= |b| && OpenChain(a, p)
    requires forall x: nat | x < p :: b[x] == a[x]
    requires b[p].load.Aggregate? && b[p].parent == a[p].parent
    requires forall i: nat | i < |a| && !Within(a, i, p) :: Tree(b, i) == Tree(a, i)
    ensures OpenChain(b, p) && OuterFrames(b, p) == OuterFrames(a, p)
  {
    forall q: nat, k: nat | q < p && Within(a, q, p) && k + 1 < |a[q].elems|
      ensures Tree(b, a[q].elems[k]) == Tree(a, a[q].elems[k])
    {
      ChainAvoids(a, p, q, k);
    }
    OuterSame(a, b, p, p);
  }

  function LastFrame(fs: seq<Frame>): Frame
    requires fs != []
  {
    fs[|fs| - 1]
  }

  function WithLast(fs: seq<Frame>, ts: seq<Setting>): seq<Frame>
    requires fs != []
  {
    fs[..|fs| - 1] + [LastFrame(fs).(done := ts)]
  }

  lemma GrownOuter(nodes: seq<Node>, p: nat, name: Option<string>, v: Load)
    requires Wf(nodes) && p < |nodes| && OpenChain(nodes, p)
    ensures var b := Grown(nodes, p, name, v);
      && Wf(b) && OpenChain(b, p) && OuterFrames(b, p) == OuterFrames(nodes, p)
  {
    var b := Grown(nodes, p, name, v);
    GrownWf(nodes, p, name, v);
    forall i: nat | i < |nodes| && !Within(nodes, i, p) ensures Tree(b, i) == Tree(nodes, i) {
      GrownTree(nodes, p, name, v, i);
    }
    OuterKept(nodes, b, p);
  }

  lemma GrownTop(nodes: seq<Node>, p: nat, name: Option<string>, v: Load)
    requires Wf(nodes) && p < |nodes|
    ensures var b := Grown(nodes, p, name, v);
      && Wf(b) && Trees(b, nodes[p].elems) == Trees(nodes, nodes[p].elems)
      && Trees(b, b[p].elems) == Trees(nodes, nodes[p].elems) + [Setting(name, v, [])]
  {
    var b := Grown(nodes, p, name, v);
    GrownWf(nodes, p, name, v);
    var e := nodes[p].elems;
    forall k | 0 <= k < |e| ensures Tree(b, e[k]) == Tree(nodes, e[k]) {
      GrownTree(nodes, p, name, v, e[k]);
    }
    GrownTree(nodes, p, name, v, p);
    assert b[p].elems == e + [|nodes|];
    assert forall k | 0 <= k < |e| :: Trees(b, b[p].elems)[k] == Tree(b, e[k]);
  }

  lemma GrownFrames(nodes: seq<Node>, p: nat, name: Option<string>, v: Load)
    requires Wf(nodes) && p < |nodes| && OpenChain(nodes, p)
    ensures var b := Grown(nodes, p, name, v);
      && Wf(b) && OpenChain(b, p)
      && Frames(b, p) == WithLast(Frames(nodes, p), LastFrame(Frames(nodes, p)).done + [Setting(name, v, [])])
      && OuterFrames(b, p) == OuterFrames(nodes, p) && Trees(b, nodes[p].elems) == Trees(nodes, nodes[p].elems)
  {
    GrownOuter(nodes, p, name, v);
    GrownTop(nodes, p, name, v);
    hide Tree, OuterFrames, Trees;
  }

  lemma GrownOpens(nodes: seq<Node>, p: nat, k: Kind)
    requires Wf(nodes) && p < |nodes| && OpenChain(nodes, p)
    ensures var b := Grown(nodes, p, None, Aggregate(k));
      && Wf(b) && OpenChain(b, |nodes|)
      && Frames(b, |nodes|) == Frames(nodes, p) + [Frame(None, k, [])]
  {
    var b := Grown(nodes, p, None, Aggregate(k));
    GrownFrames(nodes, p, None, Aggregate(k));
    assert b[p].elems[..|b[p].elems| - 1] == nodes[p].elems;
    assert Trees(b, b[|nodes|].elems) == [];
  }

  lemma LoadedOuter(nodes: seq<Node>, p: nat, v: Load)
    requires Wf(nodes) && p < |nodes| && OpenChain(nodes, p) && nodes[p].elems != []
    ensures var s := nodes[p].elems[|nodes[p].elems| - 1]; var b := Loaded(nodes, s, v);
      && Wf(b) && OpenChain(b, p) && OuterFrames(b, p) == OuterFrames(nodes, p)
  {
    var s := nodes[p].elems[|nodes[p].elems| - 1];
    var b := Loaded(nodes, s, v);
    LoadedWf(nodes, s, v);
    forall q: nat, k: nat | q < p && Within(nodes, q, p) && k + 1 < |nodes[q].elems|
      ensures Tree(b, nodes[q].elems[k]) == Tree(nodes, nodes[q].elems[k])
    {
      ChainAvoids(nodes, p, q, k);
      assert nodes[nodes[q].elems[k]].parent == q;
      LoadedTree(nodes, s, v, nodes[q].elems[k]);
    }
    OuterSame(nodes, b, p, p);
  }

  lemma LoadedTop(nodes: seq<Node>, p: nat, v: Load)
    requires Wf(nodes) && p < |nodes| && nodes[p].elems != []
    requires var s := nodes[p].elems[|nodes[p].elems| - 1]; nodes[s].elems == []
    ensures var n := |nodes[p].elems| - 1; var s := nodes[p].elems[n]; var b := Loaded(nodes, s, v);
      && Wf(b) && Trees(b, nodes[p].elems[..n]) == Trees(nodes, nodes[p].elems[..n])
      && Trees(b, nodes[p].elems) == Trees(nodes, nodes[p].elems[..n]) + [Setting(nodes[s].name, v, [])]
      && Trees(nodes, nodes[p].elems[..n]) == Trees(nodes, nodes[p].elems)[..n]
  {
    var e := nodes[p].elems;
    var n := |e| - 1;
    var b := Loaded(nodes, e[n], v);
    LoadedWf(nodes, e[n], v);
    LoadedTree(nodes, e[n], v, e[n]);
    forall k | 0 <= k < n ensures Tree(b, e[k]) == Tree(nodes, e[k]) {
      SiblingApart(nodes, p, k, n);
      LoadedTree(nodes, e[n], v, e[k]);
    }
    hide Tree, Loaded, Wf;
    assert Trees(b, e[..n]) == Trees(nodes, e[..n]);
    TreesFront(nodes, e);
    TreesFront(b, e);
  }

  lemma TreesFront(nodes: seq<Node>, ids: seq<nat>)
    requires Wf(nodes) && Allocated(nodes, ids) && ids != []
    ensures var n := |ids| - 1;
      && Trees(nodes, ids) == Trees(nodes, ids[..n]) + [Tree(nodes, ids[n])]
      && Trees(nodes, ids[..n]) == Trees(nodes, ids)[..n]
  {
    hide Tree, Wf;
  }

  lemma SiblingApart(nodes: seq<Node>, p: nat, j: nat, k: nat)
    requires Wf(nodes) && p < |nodes| && j < k < |nodes[p].elems|
    ensures !Within(nodes, nodes[p].elems[j], nodes[p].elems[k])
  {
    assert nodes[p].elems[j] > p;
    assert nodes[nodes[p].elems[k]].parent == p;
  }

  lemma LoadedFrames(nodes: seq<Node>, p: nat, v: Load)
    requires Wf(nodes) && p < |nodes| && OpenChain(nodes, p) && nodes[p].elems != []
    requires var s := nodes[p].elems[|nodes[p].elems| - 1]; nodes[s].elems == []
    ensures var n := |nodes[p].elems| - 1; var s := nodes[p].elems[n]; var b := Loaded(nodes, s, v);
      && Wf(b) && OpenChain(b, p) && OuterFrames(b, p) == OuterFrames(nodes, p)
      && Frames(b, p) == WithLast(Frames(nodes, p),
                                  LastFrame(Frames(nodes, p)).done[..n] + [Setting(nodes[s].name, v, [])])
      && Trees(b, nodes[p].elems[..n]) == LastFrame(Frames(nodes, p)).done[..n]
  {
    LoadedOuter(nodes, p, v);
    LoadedTop(nodes, p, v);
    hide Tree, OuterFrames, Trees;
    var s := nodes[p].elems[|nodes[p].elems| - 1];
    assert p != s;
  }

  lemma LoadedOpens(nodes: seq<Node>, p: nat, k: Kind)
    requires Wf(nodes) && p < |nodes| && OpenChain(nodes, p) && nodes[p].elems != []
    requires var s := nodes[p].elems[|nodes[p].elems| - 1]; nodes[s].elems == []
    ensures var n := |nodes[p].elems| - 1; var s := nodes[p].elems[n]; var b := Loaded(nodes, s, Aggregate(k));
      && Wf(b) && OpenChain(b, s)
      && Frames(b, s) == WithLast(Frames(nodes, p), LastFrame(Frames(nodes, p)).done[..n])
                         + [Frame(nodes[s].name, k, [])]
  {
    LoadedFrames(nodes, p, Aggregate(k));
    var s := nodes[p].elems[|nodes[p].elems| - 1];
    var b := Loaded(nodes, s, Aggregate(k));
    assert b[p].elems == nodes[p].elems && b[p].name == nodes[p].name && b[p].load == nodes[p].load;
    assert Trees(b, b[s].elems) == [];
  }

  lemma ClosedFrames(nodes: seq<Node>, p: nat)
    requires Wf(nodes) && 0 < p < |nodes| && OpenChain(nodes, p)
    ensures var q := nodes[p].parent; var fs := Frames(nodes, p); var n := |fs|;
      && n >= 2 && OpenChain(nodes, q)
      && Frames(nodes, q) == WithLast(fs[..n - 1], fs[n - 2].done
                                      + [Setting(fs[n - 1].name, Aggregate(fs[n - 1].kind), fs[n - 1].done)])
  {
    var q := nodes[p].parent;
    var e := nodes[q].elems;
    assert Tree(nodes, p) == Setting(nodes[p].name, nodes[p].load, Trees(nodes, nodes[p].elems));
    assert Trees(nodes, e) == Trees(nodes, e[..|e| - 1]) + [Tree(nodes, p)];
  }
}
