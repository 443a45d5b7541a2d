/** Finding settings by path, and removing them (libconfig.c). */
module ConfigLookup {
  import opened ConfigData
  import opened ConfigText
  import opened ConfigScanner
  import opened ConfigHeap
  import opened ConfigSettings

  // ---------- Paths ----------

  predicate NotPathToken(c: char) { !IsPathToken(c) }

  // The path from its first segment on.
  function Trimmed(path: string): string { path[Span(path, IsPathToken)..] }

  // The length of the segment a path starts with.
  function SegmentLen(path: string): (n: nat)
    ensures n <= |path|
  {
    Span(path, NotPathToken)
  }

  predicate IsSpace(c: char) { c == ' ' || '\t' <= c <= '\r' }

  // atoi: blanks, a sign, and digits as far as they go.
  function AtoiOf(s: string): int32
  {
    var t := s[Span(s, IsSpace)..];
    Atoi(t[..NumberLen(t)])
  }

  // The first child from place k on with the name, or -1.
  function MemberFrom(nodes: seq<Node>, p: nat, name: string, k: nat): (r: int)
    requires Wf(nodes) && p < |nodes| && k <= |nodes[p].elems|
    ensures -1 <= r < |nodes| && (r >= 0 ==> r > p)
    decreases |nodes[p].elems| - k
  {
    if k == |nodes[p].elems| then -1
    else if Named(nodes, nodes[p].elems[k], name) then nodes[p].elems[k]
    else MemberFrom(nodes, p, name, k + 1)
  }

  function ElementAt(nodes: seq<Node>, p: nat, index: int): (r: int)
    requires Wf(nodes) && p < |nodes|
    ensures -1 <= r < |nodes| && (r >= 0 ==> r > p)
  {
    if nodes[p].load.Aggregate? && 0 <= index < |nodes[p].elems| then nodes[p].elems[index] else -1
  }

  // What one segment of a path leads to: an element, or the first member of that name.
  function Step(nodes: seq<Node>, p: nat, segment: string): (r: int)
    requires Wf(nodes) && p < |nodes| && segment != []
    ensures -1 <= r < |nodes| && (r >= 0 ==> r > p)
  {
    if segment[0] == '[' then ElementAt(nodes, p, AtoiOf(segment[1..]))
    else if nodes[p].load == Aggregate(Group) then MemberFrom(nodes, p, segment, 0)
    else -1
  }

  // What a path leads to: segment after segment, or -1.
  function Resolve(nodes: seq<Node>, p: nat, path: string): (r: int)
    requires Wf(nodes) && p < |nodes|
    ensures -1 <= r < |nodes|
    decreases |path|
  {
    var t := Trimmed(path);
    if t == [] then p
    else
      var n := SegmentLen(t);
      SegmentNotEmpty(path);
      var f := Step(nodes, p, t[..n]);
      if f == -1 then -1 else Resolve(nodes, f, t[n..])
  }

  lemma {:induction false} SpanIs(s: string, p: char -> bool)
    ensures forall i | 0 <= i < Span(s, p) :: p(s[i])
    ensures Span(s, p) < |s| ==> !p(s[Span(s, p)])
    decreases |s|
  {
    if s != [] && p(s[0]) { SpanIs(s[1..], p); }
  }

  lemma SegmentNotEmpty(path: string)
    ensures Trimmed(path) != [] ==> !IsPathToken(Trimmed(path)[0]) && SegmentLen(Trimmed(path)) > 0
    ensures |Trimmed(path)| <= |path|
  {
    SpanIs(path, IsPathToken);
  }

  // ---------- config_lookup_from ----------

  // A path that ends in a segment of a single bracket, where what comes before leads to a setting
  // that has no element 0: the loop then leaves with nothing of the path left, as if it had succeeded.
  predicate EndsInBracket(nodes: seq<Node>, p: nat, path: string)
    requires Wf(nodes) && p < |nodes|
  {
    && path != [] && path[|path| - 1] == '['
    && var before := path[..|path| - 1];
       && (before == [] || IsPathToken(before[|before| - 1]))
       && Resolve(nodes, p, before) != -1
       && ElementAt(nodes, Resolve(nodes, p, before), 0) == -1
  }

  // The result of the code: like Resolve, but for that case.
  function Found(nodes: seq<Node>, p: nat, path: string): (r: int)
    requires Wf(nodes) && p < |nodes|
    ensures -1 <= r < |nodes|
    decreases |path|
  {
    var t := Trimmed(path);
    if t == [] then p
    else
      var n := SegmentLen(t);
      SegmentNotEmpty(path);
      var f := Step(nodes, p, t[..n]);
      if f == -1 then (if t == "[" then p else -1) else Found(nodes, f, t[n..])
  }

  // The lookup finds what the path leads to, and nothing if it leads nowhere, exactly if the path
  // does not end in a bracket that leads nowhere.
  lemma {:induction false} FoundIsResolved(nodes: seq<Node>, p: nat, path: string)
    requires Wf(nodes) && p < |nodes|
    ensures Found(nodes, p, path) == Resolve(nodes, p, path) <==> !EndsInBracket(nodes, p, path)
    decreases |path|
  {
    var t := Trimmed(path);
    SegmentNotEmpty(path);
    if t == [] {
      TrimmedTail(path);
    } else {
      var n := SegmentLen(t);
      var f := Step(nodes, p, t[..n]);
      hide Wf, Step, EndsInBracket;
      BracketUnfolds(nodes, p, path);
      if f != -1 { FoundIsResolved(nodes, f, t[n..]); }
    }
  }

  // A path is separators and what is left when they are trimmed.
  lemma TrimmedTail(path: string)
    ensures var m := Span(path, IsPathToken);
      && path == path[..m] + Trimmed(path) && (forall i | 0 <= i < m :: IsPathToken(path[i]))
      && (Trimmed(path) == [] ==> m == |path|)
  {
    var m := Span(path, IsPathToken);
    SpanIs(path, IsPathToken);
    assert Trimmed(path) == path[m..];
    hide Span, Trimmed, IsPathToken;
    assert path == path[..m] + path[m..];
  }

  lemma {:induction false} SpanCut(a: string, b: string, p: char -> bool)
    requires a <= b && Span(b, p) <= |a|
    ensures Span(a, p) == Span(b, p)
    decreases |a|
  {
    if a != [] && p(a[0]) { SpanCut(a[1..], b[1..], p); }
  }

  // A path cut off behind its first segment starts with the same segment.
  lemma CutPath(path: string, cut: nat)
    requires var t := Trimmed(path); |path| - |t| + SegmentLen(t) <= cut <= |path|
    ensures var t := Trimmed(path); var u := t[..cut - (|path| - |t|)]; var n := SegmentLen(t);
      && Trimmed(path[..cut]) == u && SegmentLen(u) == n
      && u[..n] == t[..n] && u[n..] == t[n..cut - (|path| - |t|)]
  {
    var t, q := Trimmed(path), path[..cut];
    SpanCut(q, path, IsPathToken);
    assert Trimmed(q) == t[..cut - (|path| - |t|)];
    SpanCut(Trimmed(q), t, NotPathToken);
  }

  // It takes the same first step.
  lemma ResolveCut(nodes: seq<Node>, p: nat, path: string, cut: nat)
    requires Wf(nodes) && p < |nodes| && Trimmed(path) != []
    requires var t := Trimmed(path); |path| - |t| + SegmentLen(t) <= cut <= |path|
    ensures SegmentLen(Trimmed(path)) > 0
    ensures var t := Trimmed(path); var n := SegmentLen(t); var f := Step(nodes, p, t[..n]);
      Resolve(nodes, p, path[..cut])
      == if f == -1 then -1 else Resolve(nodes, f, t[n..cut - (|path| - |t|)])
  {
    hide Step, Wf, Span, Trimmed, SegmentLen;
    SegmentNotEmpty(path);
    SegmentNotEmpty(path[..cut]);
    CutPath(path, cut);
  }

  // Whether a path ends in a bracket that leads nowhere shows at its last segment.
  lemma BracketUnfolds(nodes: seq<Node>, p: nat, path: string)
    requires Wf(nodes) && p < |nodes| && Trimmed(path) != [] && SegmentLen(Trimmed(path)) > 0
    ensures var t := Trimmed(path); var n := SegmentLen(t); var f := Step(nodes, p, t[..n]);
      EndsInBracket(nodes, p, path) <==> if f == -1 then t == "[" else EndsInBracket(nodes, f, t[n..])
  {
    var t := Trimmed(path);
    var n := SegmentLen(t);
    hide EndsInBracket, Step, Wf, Span, Trimmed;
    if t == "[" {
      LastBracket(nodes, p, path);
      assert t[..n] == "[" && t[n..] == "";
    } else if |t| == n {
      OneSegment(nodes, p, path);
      assert t[n..] == "";
    } else {
      MoreSegments(nodes, p, path);
    }
  }

  lemma MoreSegments(nodes: seq<Node>, p: nat, path: string)
    requires Wf(nodes) && p < |nodes| && SegmentLen(Trimmed(path)) < |Trimmed(path)| && SegmentLen(Trimmed(path)) > 0
    ensures var t := Trimmed(path); var n := SegmentLen(t); var f := Step(nodes, p, t[..n]);
      EndsInBracket(nodes, p, path) <==> f != -1 && EndsInBracket(nodes, f, t[n..])
  {
    var t := Trimmed(path);
    var n := SegmentLen(t);
    TrimmedTail(path);
    SpanIs(t, NotPathToken);
    hide Resolve, Step, Wf, Span, ElementAt, Trimmed;
    var rest := t[n..];
    assert IsPathToken(rest[0]);
    ResolveCut(nodes, p, path, |path| - 1);
    var before, behind := path[..|path| - 1], rest[..|rest| - 1];
    assert behind == t[n..|t| - 1];
    assert path[|path| - 1] == rest[|rest| - 1];
    if behind != [] {
      assert before[|before| - 1] == t[|t| - 2] == behind[|behind| - 1];
    }
  }

  // Nothing but separators before the bracket.
  lemma LastBracket(nodes: seq<Node>, p: nat, path: string)
    requires Wf(nodes) && p < |nodes| && Trimmed(path) == "["
    ensures SegmentLen("[") == 1 && "["[..1] == "[" && Step(nodes, p, "[") == ElementAt(nodes, p, 0)
    ensures EndsInBracket(nodes, p, path) <==> ElementAt(nodes, p, 0) == -1
    ensures forall f: nat | f < |nodes| :: !EndsInBracket(nodes, f, "")
  {
    var before := path[..|path| - 1];
    TrimmedTail(path);
    assert Span("[", NotPathToken) == 1 && "["[1..] == "" && Span("", IsSpace) == 0;
    assert ""[0..] == "" && AtoiOf("") == 0;
    SpanCut(before, path, IsPathToken);
    assert Trimmed(before) == [];
  }

  // A last segment that is more than a bracket.
  lemma OneSegment(nodes: seq<Node>, p: nat, path: string)
    requires Wf(nodes) && p < |nodes| && Trimmed(path) != [] && Trimmed(path) != "["
    requires SegmentLen(Trimmed(path)) == |Trimmed(path)|
    ensures !EndsInBracket(nodes, p, path) && forall f: nat | f < |nodes| :: !EndsInBracket(nodes, f, "")
  {
    var t := Trimmed(path);
    TrimmedTail(path);
    SpanIs(t, NotPathToken);
    hide Resolve, ElementAt, Step, Wf, Span, Trimmed;
    if |t| > 1 { assert path[|path| - 2] == t[|t| - 2]; } else { assert path[|path| - 1] == t[0]; }
  }

  // In an empty configuration the path of a single bracket finds the root.
  lemma BracketFindsTheRoot()
    ensures var nodes := [Node(-1, None, Aggregate(Group), [])];
      Wf(nodes) && Found(nodes, 0, "[") == 0 && Resolve(nodes, 0, "[") == -1
  {
    var nodes := [Node(-1, None, Aggregate(Group), [])];
    assert Wf(nodes);
    assert Span("[", IsPathToken) == 0 && Trimmed("[") == "[";
    assert ""[0..] == "" && "["[1..] == "";
    assert Span("[", NotPathToken) == 1;
    assert SegmentLen("[") == 1 && "["[..1] == "[";
    assert Step(nodes, 0, "[") == -1;
  }

  // One segment, at place p of the path: the setting it leads to, and the place reached; a
  // bracket is passed over.
  method LookupStep(c: Config, setting: nat, path: string, p: nat) returns (found: int, q: nat)
    requires c.Valid() && setting < |c.nodes| && p < |path| && !IsPathToken(path[p])
    ensures SegmentLen(path[p..]) > 0 && found == Step(c.nodes, setting, path[p..][..SegmentLen(path[p..])])
    ensures q == if path[p] == '[' then p + 1 else p
    ensures q + Span(path[q..], NotPathToken) == p + SegmentLen(path[p..])
  {
    q := p;
    assert path[p..][1..] == path[p + 1..];
    ghost var segment := path[p..][..SegmentLen(path[p..])];
    hide Wf, AtoiOf, MemberFrom;
    if path[p] == '[' {
      q := p + 1;
      var index := AtoiOf(path[q..]);
      AtoiStops(segment, path[p..]);
      found := -1;
      if index >= 0 {
        found := c.GetElem(setting, index);
      }
    } else {
      found := c.GetMember(setting, path[p..]);
      MemberOfSegment(c, setting, path[p..], found);
    }
  }

  method LookupFrom(c: Config, i: nat, path: string) returns (r: int)
    requires c.Valid() && i < |c.nodes|
    ensures r == Found(c.nodes, i, path)
  {
    hide Wf, Step, Found, Span;
    var setting: nat := i;
    var p := 0;
    assert path[0..] == path;
    while true
      invariant 0 <= p <= |path| && setting < |c.nodes|
      invariant Found(c.nodes, setting, path[p..]) == Found(c.nodes, i, path)
      decreases |path| - p
    {
      FoundUnfolds(c.nodes, setting, path, p);
      p := p + Span(path[p..], IsPathToken);
      if p == |path| {
        return setting;
      }
      var found, q := LookupStep(c, setting, path, p);
      if found == -1 {
        BareBracket(path, p);
        return if q < |path| then -1 else setting;
      }
      setting := found;
      p := q + Span(path[q..], NotPathToken);
    }
  }

  // One round of Found at place p of a path; the segment starts at place q.
  lemma FoundUnfolds(nodes: seq<Node>, s: nat, path: string, p: nat)
    requires Wf(nodes) && s < |nodes| && p <= |path|
    ensures var q := p + Span(path[p..], IsPathToken);
      && q <= |path| && (q < |path| ==> !IsPathToken(path[q]) && SegmentLen(path[q..]) > 0)
      && Found(nodes, s, path[p..])
         == if q == |path| then s
            else
              var n := SegmentLen(path[q..]);
              var f := Step(nodes, s, path[q..][..n]);
              if f == -1 then (if path[q..] == "[" then s else -1) else Found(nodes, f, path[q + n..])
  {
    var q := p + Span(path[p..], IsPathToken);
    hide Wf, Step, Span;
    SegmentNotEmpty(path[p..]);
    assert Trimmed(path[p..]) == path[q..];
    if q < |path| { assert path[q..][SegmentLen(path[q..])..] == path[q + SegmentLen(path[q..])..]; }
  }

  lemma BareBracket(path: string, p: nat)
    requires p < |path|
    ensures path[p..] == "[" <==> path[p] == '[' && p + 1 == |path|
  {
  }

  // A number in a path is not read beyond its segment.
  lemma AtoiStops(segment: string, path: string)
    requires segment == path[..SegmentLen(path)] && segment != []
    ensures AtoiOf(path[1..]) == AtoiOf(segment[1..])
  {
    SpanIs(path, NotPathToken);
    AtoiPrefix(segment[1..], path[1..]);
  }

  lemma AtoiPrefix(a: string, b: string)
    requires a <= b && (|a| < |b| ==> IsPathToken(b[|a|]))
    ensures AtoiOf(b) == AtoiOf(a)
  {
    SpanPrefix(a, b, IsSpace);
    var n := Span(a, IsSpace);
    var s, t := a[n..], b[n..];
    assert s <= t && (|s| < |t| ==> IsPathToken(t[|s|]));
    NumberPrefix(s, t);
    hide NumberLen, Atoi, Span;
  }

  // The length of a sign and the digits behind it.
  function NumberLen(t: string): (n: nat)
    ensures n <= |t|
  {
    var sign := if t != [] && (t[0] == '-' || t[0] == '+') then 1 else 0;
    sign + Span(t[sign..], IsDigit)
  }

  lemma NumberPrefix(s: string, t: string)
    requires s <= t && (|s| < |t| ==> IsPathToken(t[|s|]))
    ensures NumberLen(s) == NumberLen(t) && s[..NumberLen(s)] == t[..NumberLen(t)]
  {
    var sign := if s != [] && (s[0] == '-' || s[0] == '+') then 1 else 0;
    SpanPrefix(s[sign..], t[sign..], IsDigit);
  }

  lemma {:induction false} SpanPrefix(a: string, b: string, p: char -> bool)
    requires a <= b && (|a| < |b| ==> !p(b[|a|]))
    ensures Span(b, p) == Span(a, p)
    decreases |a|
  {
    if a != [] && p(a[0]) { SpanPrefix(a[1..], b[1..], p); }
  }

  // Searching with the rest of the path is searching with its first segment.
  lemma MemberOfSegment(c: Config, p: nat, path: string, r: int)
    requires c.Valid() && p < |c.nodes| && SegmentLen(path) > 0 && path[0] != '['
    requires r == -1 <==> c.nodes[p].load != Aggregate(Group) || !HasNamed(c.nodes, p, path)
    requires r != -1 ==> exists k | 0 <= k < |c.nodes[p].elems| :: c.FirstNamed(p, path, k) && r == c.nodes[p].elems[k]
    ensures r == Step(c.nodes, p, path[..SegmentLen(path)])
  {
    var segment := path[..SegmentLen(path)];
    StemIsSegment(path);
    StemIsSegment(segment);
    assert segment[..SegmentLen(segment)] == segment by { SegmentOfSegment(path); }
    assert forall k | 0 <= k < |c.nodes[p].elems| :: Named(c.nodes, c.nodes[p].elems[k], path)
                                                   <==> Named(c.nodes, c.nodes[p].elems[k], segment);
    if r != -1 {
      var k :| 0 <= k < |c.nodes[p].elems| && c.FirstNamed(p, path, k) && r == c.nodes[p].elems[k];
      FirstMember(c.nodes, p, segment, k, 0);
    } else if c.nodes[p].load == Aggregate(Group) {
      NoMember(c.nodes, p, segment, 0);
    }
  }

  lemma {:induction false} StemIsSegment(path: string)
    ensures Stem(path) == path[..SegmentLen(path)]
    decreases |path|
  {
    if path != [] && !IsPathToken(path[0]) { StemIsSegment(path[1..]); }
  }

  lemma SegmentOfSegment(path: string)
    ensures SegmentLen(path[..SegmentLen(path)]) == SegmentLen(path)
  {
    SpanIs(path, NotPathToken);
    SpanPrefix(path[..SegmentLen(path)], path, NotPathToken);
  }

  lemma {:induction false} FirstMember(nodes: seq<Node>, p: nat, name: string, k: nat, from: nat)
    requires Wf(nodes) && p < |nodes| && from <= k < |nodes[p].elems| && Named(nodes, nodes[p].elems[k], name)
    requires forall j | 0 <= j < k :: !Named(nodes, nodes[p].elems[j], name)
    ensures MemberFrom(nodes, p, name, from) == nodes[p].elems[k]
    decreases k - from
  {
    if from < k { FirstMember(nodes, p, name, k, from + 1); }
  }

  lemma {:induction false} NoMember(nodes: seq<Node>, p: nat, name: string, from: nat)
    requires Wf(nodes) && p < |nodes| && from <= |nodes[p].elems|
    requires forall j | 0 <= j < |nodes[p].elems| :: !Named(nodes, nodes[p].elems[j], name)
    ensures MemberFrom(nodes, p, name, from) == -1
    decreases |nodes[p].elems| - from
  {
    if from < |nodes[p].elems| { NoMember(nodes, p, name, from + 1); }
  }

  // ---------- The path of a setting ----------

  // Setting i can be named: it and the settings around it are where their parents say, members
  // have valid names that nobody before them has, and elements have indices that an int can hold.
  ghost predicate Addressable(nodes: seq<Node>, i: nat)
    requires Wf(nodes) && i < |nodes|
    decreases i
  {
    i > 0 ==>
      var p := nodes[i].parent;
      && Addressable(nodes, p)
      && exists k: nat :: PlaceIn(nodes, p, i, k)
  }

  // i is child k of p, and can be told from the others.
  ghost predicate PlaceIn(nodes: seq<Node>, p: nat, i: nat, k: nat)
    requires Wf(nodes) && p < |nodes| && i < |nodes|
  {
    && k < |nodes[p].elems| && nodes[p].elems[k] == i && nodes[p].load.Aggregate?
    && if nodes[p].load == Aggregate(Group) then
         && nodes[i].name.Some? && ValidName(nodes[i].name.value)
         && forall j | 0 <= j < k :: !Named(nodes, nodes[p].elems[j], nodes[i].name.value)
       else k < 0x8000_0000
  }

  // The segment that leads to child k of p.
  ghost function Segment(nodes: seq<Node>, p: nat, i: nat, k: nat): string
    requires Wf(nodes) && p < |nodes| && i < |nodes| && PlaceIn(nodes, p, i, k)
  {
    if nodes[p].load == Aggregate(Group) then nodes[i].name.value else "[" + Digits(k, 10)
  }

  // The names and indices from the root down to i, separated by dots.
  ghost function PathTo(nodes: seq<Node>, i: nat): string
    requires Wf(nodes) && i < |nodes| && Addressable(nodes, i)
    decreases i
  {
    if i == 0 then ""
    else
      var p := nodes[i].parent;
      var k: nat :| PlaceIn(nodes, p, i, k);
      PathTo(nodes, p) + "." + Segment(nodes, p, i, k)
  }

  lemma {:induction false} SpanAll(s: string, p: char -> bool)
    requires forall i | 0 <= i < |s| :: p(s[i])
    ensures Span(s, p) == |s|
    decreases |s|
  {
    if s != [] { SpanAll(s[1..], p); }
  }

  // A span that ends inside stays when the text goes on.
  lemma {:induction false} SpanInside(a: string, b: string, p: char -> bool)
    requires Span(a, p) < |a|
    ensures Span(a + b, p) == Span(a, p)
    decreases |a|
  {
    if p(a[0]) {
      assert (a + b)[1..] == a[1..] + b;
      SpanInside(a[1..], b, p);
    }
  }

  lemma {:induction false} SpanOver(a: string, b: string, p: char -> bool)
    requires Span(a, p) == |a|
    ensures Span(a + b, p) == |a| + Span(b, p)
    decreases |a|
  {
    if a == [] {
      assert a + b == b;
    } else {
      assert (a + b)[1..] == a[1..] + b;
      SpanOver(a[1..], b, p);
    }
  }

  // A path goes on from where its first part leads.
  lemma {:induction false} ResolveOn(nodes: seq<Node>, p: nat, a: string, s: string)
    requires Wf(nodes) && p < |nodes| && Resolve(nodes, p, a) >= 0
    ensures Resolve(nodes, p, a + "." + s) == Resolve(nodes, Resolve(nodes, p, a), s)
    decreases |a|
  {
    hide Wf, Step;
    var t := Trimmed(a);
    var whole := a + "." + s;
    if t == [] {
      SpanIs(a, IsPathToken);
      assert Span(a, IsPathToken) == |a|;
      assert whole == a + ("." + s) && ("." + s)[1..] == s;
      SpanOver(a, "." + s, IsPathToken);
      assert Trimmed(whole) == Trimmed(s);
    } else {
      SpanInside(a, "." + s, IsPathToken);
      assert whole == a + ("." + s);
      var u := t + "." + s;
      assert Trimmed(whole) == u;
      SegmentNotEmpty(a);
      SpanPrefix(t, u, NotPathToken);
      var n := SegmentLen(t);
      assert SegmentLen(u) == n && u[..n] == t[..n] && u[n..] == t[n..] + "." + s;
      ResolveOn(nodes, Step(nodes, p, t[..n]), t[n..], s);
    }
  }

  // A path of one segment.
  lemma ResolveOne(nodes: seq<Node>, p: nat, segment: string)
    requires Wf(nodes) && p < |nodes| && segment != [] && forall i | 0 <= i < |segment| :: !IsPathToken(segment[i])
    ensures Resolve(nodes, p, segment) == Step(nodes, p, segment)
  {
    hide Wf, Step;
    SpanAll(segment, NotPathToken);
    assert Span(segment, IsPathToken) == 0 && Trimmed(segment) == segment;
    assert segment[..|segment|] == segment && segment[|segment|..] == [];
    assert Trimmed("") == "";
  }

  lemma IndexRead(k: nat)
    requires k < 0x8000_0000
    ensures AtoiOf(Digits(k, 10)) == k
    ensures |Digits(k, 10)| > 0 && forall i | 0 <= i < |Digits(k, 10)| :: IsDigit(Digits(k, 10)[i])
  {
    var d := Digits(k, 10);
    hide Digits, ParseSigned, AtoiOf, NumberLen;
    DigitsAre(k, 10);
    AtoiPrinted(k);
    AllNumber(d);
  }

  lemma AtoiPrinted(k: nat)
    requires k < 0x8000_0000
    ensures Atoi(Digits(k, 10)) == k
  {
    hide Digits, ParseSigned;
    ParsePrinted(k);
  }

  lemma AllNumber(d: string)
    requires d != [] && forall i | 0 <= i < |d| :: IsDigit(d[i])
    ensures AtoiOf(d) == Atoi(d)
  {
    SpanAll(d, IsDigit);
    assert IsDigit(d[0]) && Span(d, IsSpace) == 0;
    assert d[0..] == d && NumberLen(d) == |d| && d[..|d|] == d;
    hide Atoi, NumberLen, Span;
  }

  lemma SegmentLeads(nodes: seq<Node>, p: nat, i: nat, k: nat)
    requires Wf(nodes) && p < |nodes| && i < |nodes| && PlaceIn(nodes, p, i, k)
    ensures Resolve(nodes, p, Segment(nodes, p, i, k)) == i
  {
    var segment := Segment(nodes, p, i, k);
    hide Resolve, Digits, Wf, AtoiOf;
    if nodes[p].load == Aggregate(Group) {
      assert forall j | 0 <= j < |segment| :: j > 0 ==> IsNameChar(segment[j]);
      ResolveOne(nodes, p, segment);
      FirstMember(nodes, p, segment, k, 0);
    } else {
      IndexRead(k);
      assert forall j | 0 < j < |segment| :: segment[j] == Digits(k, 10)[j - 1];
      ResolveOne(nodes, p, segment);
      assert segment[1..] == Digits(k, 10);
    }
  }

  // Every setting is found at its path.
  lemma {:induction false} FoundAtItsPath(nodes: seq<Node>, i: nat)
    requires Wf(nodes) && i < |nodes| && Addressable(nodes, i)
    ensures Resolve(nodes, 0, PathTo(nodes, i)) == i && Found(nodes, 0, PathTo(nodes, i)) == i
    decreases i
  {
    hide Wf, Segment, PlaceIn, Resolve, Found;
    if i == 0 {
      NothingToResolve(nodes);
    } else {
      var p, k := LastSegment(nodes, i);
      FoundAtItsPath(nodes, p);
      ResolveOn(nodes, 0, PathTo(nodes, p), Segment(nodes, p, i, k));
      SegmentLeads(nodes, p, i, k);
    }
    ResolvedIsFound(nodes, 0, PathTo(nodes, i));
  }

  lemma LastSegment(nodes: seq<Node>, i: nat) returns (p: nat, k: nat)
    requires Wf(nodes) && 0 < i < |nodes| && Addressable(nodes, i)
    ensures p < i && Addressable(nodes, p) && PlaceIn(nodes, p, i, k)
    ensures PathTo(nodes, i) == PathTo(nodes, p) + "." + Segment(nodes, p, i, k)
  {
    hide PlaceIn, Segment;
    p := nodes[i].parent;
    k :| PlaceIn(nodes, p, i, k) && PathTo(nodes, i) == PathTo(nodes, p) + "." + Segment(nodes, p, i, k);
  }

  lemma NothingToResolve(nodes: seq<Node>)
    requires Wf(nodes)
    ensures Resolve(nodes, 0, "") == 0
  {
  }

  lemma {:induction false} ResolvedIsFound(nodes: seq<Node>, p: nat, path: string)
    requires Wf(nodes) && p < |nodes| && Resolve(nodes, p, path) >= 0
    ensures Found(nodes, p, path) == Resolve(nodes, p, path)
    decreases |path|
  {
    hide Wf, Step;
    var t := Trimmed(path);
    if t != [] {
      SegmentNotEmpty(path);
      ResolvedIsFound(nodes, Step(nodes, p, t[..SegmentLen(t)]), t[SegmentLen(t)..]);
    }
  }

  // ---------- Removing ----------

  // Child k of p is taken out; the children behind it move up.
  function Pruned(nodes: seq<Node>, p: nat, k: nat): seq<Node>
    requires p < |nodes| && k < |nodes[p].elems|
  {
    nodes[p := nodes[p].(elems := nodes[p].elems[..k] + nodes[p].elems[k + 1..])]
  }

  lemma PrunedWf(nodes: seq<Node>, p: nat, k: nat)
    requires Wf(nodes) && p < |nodes| && k < |nodes[p].elems|
    ensures Wf(Pruned(nodes, p, k))
  {
    var b := Pruned(nodes, p, k);
    forall j | 0 <= j < |b[p].elems| ensures b[p].elems[j] == nodes[p].elems[if j < k then j else j + 1] {
    }
  }

  // The setting loses just that child, and settings that do not contain it are unchanged.
  lemma PrunedTree(nodes: seq<Node>, p: nat, k: nat, i: nat)
    requires Wf(nodes) && p < |nodes| && k < |nodes[p].elems| && i < |nodes|
    ensures Wf(Pruned(nodes, p, k))
    ensures var t := Tree(nodes, p);
      Tree(Pruned(nodes, p, k), p) == t.(elems := t.elems[..k] + t.elems[k + 1..])
    ensures !Within(nodes, i, p) ==> Tree(Pruned(nodes, p, k), i) == Tree(nodes, i)
  {
    var b := Pruned(nodes, p, k);
    PrunedWf(nodes, p, k);
    if !Within(nodes, i, p) { TreeSame(nodes, b, i); }
    var e := nodes[p].elems;
    forall j | 0 <= j < |e| ensures Tree(b, e[j]) == Tree(nodes, e[j]) {
      assert nodes[e[j]].parent == p && e[j] > p;
      assert !Within(nodes, e[j], p);
      TreeSame(nodes, b, e[j]);
    }
    var t := Tree(nodes, p);
    assert Tree(b, p).elems == t.elems[..k] + t.elems[k + 1..];
  }

  // Removing the child just added restores the setting.
  lemma RemoveUndoesAdd(nodes: seq<Node>, p: nat, name: Option<string>, v: Load)
    requires Wf(nodes) && p < |nodes|
    ensures Wf(Grown(nodes, p, name, v)) && Wf(Pruned(Grown(nodes, p, name, v), p, |nodes[p].elems|))
    ensures Tree(Pruned(Grown(nodes, p, name, v), p, |nodes[p].elems|), p) == Tree(nodes, p)
  {
    var b := Grown(nodes, p, name, v);
    GrownTop(nodes, p, name, v);
    PrunedTree(b, p, |nodes[p].elems|, p);
    assert Tree(b, p).elems == Trees(b, b[p].elems) && Tree(nodes, p).elems == Trees(nodes, nodes[p].elems);
  }

  // __config_list_remove.
  method ListRemove(c: Config, p: nat, k: nat)
    requires c.Valid() && p < |c.nodes| && k < |c.nodes[p].elems|
    modifies c
    ensures c.Valid() && c.nodes == Pruned(old(c.nodes), p, k)
  {
    PrunedWf(c.nodes, p, k);
    c.nodes := c.nodes[p := c.nodes[p].(elems := c.nodes[p].elems[..k] + c.nodes[p].elems[k + 1..])];
  }

  // config_setting_remove: the first member of that name goes.
  method Remove(c: Config, p: int, name: string) returns (ok: bool)
    requires c.Valid() && -1 <= p < |c.nodes|
    modifies c
    ensures c.Valid()
    ensures ok <==> p >= 0 && old(c.nodes)[p].load == Aggregate(Group) && old(HasNamed(c.nodes, p, name))
    ensures !ok ==> c.nodes == old(c.nodes)
    ensures ok ==> exists k: nat :: k < |old(c.nodes)[p].elems| && old(c.FirstNamed(p, name, k))
                                   && c.nodes == Pruned(old(c.nodes), p, k)
  {
    if p == -1 {
      return false;
    }
    if c.nodes[p].load != Aggregate(Group) {
      return false;
    }
    var k := 0;
    while k < |c.nodes[p].elems|
      invariant c.nodes == old(c.nodes) && 0 <= k <= |c.nodes[p].elems|
      invariant forall j | 0 <= j < k :: !Named(c.nodes, c.nodes[p].elems[j], name)
    {
      var e := c.nodes[p].elems[k];
      if c.nodes[e].name.Some? {
        var cmp := NameCompare(name, c.nodes[e].name.value);
        if cmp == 0 {
          assert c.FirstNamed(p, name, k);
          ListRemove(c, p, k);
          return true;
        }
      }
      k := k + 1;
    }
    return false;
  }

  // config_setting_remove_elem.
  method RemoveElem(c: Config, p: int, idx: nat) returns (ok: bool)
    requires c.Valid() && -1 <= p < |c.nodes|
    modifies c
    ensures c.Valid()
    ensures ok <==> p >= 0 && old(c.nodes)[p].load.Aggregate? && idx < |old(c.nodes)[p].elems|
    ensures c.nodes == if ok then Pruned(old(c.nodes), p, idx) else old(c.nodes)
  {
    if p == -1 {
      return false;
    }
    if !c.nodes[p].load.Aggregate? || c.nodes[p].elems == [] {
      return false;
    }
    if idx >= |c.nodes[p].elems| {
      return false;
    }
    ListRemove(c, p, idx);
    ok := true;
  }
}
