/** The ranking of famous players (char_mapif.c): a list of fixed size, kept sorted by moving the
    player whose fame has changed. */
module FameList {
  // An empty place has player 0 and fame 0.
  datatype Entry = Entry(id: int, fame: int, name: string)

  // The first place held by the player, or the end.
  function PlaceOf(list: seq<Entry>, id: int, n: nat): (p: nat)
    requires n <= |list|
    ensures n <= p <= |list| && (p < |list| ==> list[p].id == id)
    ensures forall i | n <= i < p :: list[i].id != id
    decreases |list| - n
  {
    if n == |list| || list[n].id == id then n else PlaceOf(list, id, n + 1)
  }

  // The first place whose fame is not above the given one, or the end.
  function PlaceFor(list: seq<Entry>, fame: int, n: nat): (p: nat)
    requires n <= |list|
    ensures n <= p <= |list| && (p < |list| ==> list[p].fame <= fame)
    ensures forall i | n <= i < p :: list[i].fame > fame
    decreases |list| - n
  {
    if n == |list| || list[n].fame <= fame then n else PlaceFor(list, fame, n + 1)
  }

  // The entry at one place is moved to another; those in between make way.
  function Moved(list: seq<Entry>, from: nat, to: nat): (r: seq<Entry>)
    requires from < |list| && to < |list|
    ensures |r| == |list|
  {
    if to <= from then list[..to] + [list[from]] + list[to..from] + list[from + 1..]
    else list[..from] + list[from + 1..to + 1] + [list[from]] + list[to + 1..]
  }

  // The list after a player's fame has been reported.
  function Updated(list: seq<Entry>, id: int, fame: int, name: string): (r: seq<Entry>)
    ensures |r| == |list|
  {
    var p, f := PlaceOf(list, id, 0), PlaceFor(list, fame, 0);
    if p == |list| && f == |list| then list
    else if f == p then list[p := list[p].(fame := fame)]
    else if p == |list| then Moved(list, |list| - 1, f)[f := Entry(id, fame, name)]
    else
      var to := if f == |list| then f - 1 else f;
      var m := Moved(list, p, to);
      m[to := m[to].(fame := fame)]
  }

  // ---------- Properties ----------

  ghost predicate Sorted(list: seq<Entry>) { forall i, j | 0 <= i < j < |list| :: list[i].fame >= list[j].fame }

  ghost predicate NoRepeats(list: seq<Entry>)
  {
    forall i, j | 0 <= i < j < |list| && list[i].id != 0 :: list[i].id != list[j].id
  }

  predicate Listed(list: seq<Entry>, id: int) { PlaceOf(list, id, 0) < |list| }

  // A listed player's fame falls, though not below that of everybody behind, and nobody behind
  // has just the new fame.
  predicate Misplaced(list: seq<Entry>, id: int, fame: int)
  {
    var p, f := PlaceOf(list, id, 0), PlaceFor(list, fame, 0);
    p < f < |list| && list[f].fame < fame
  }

  lemma MovedIs(list: seq<Entry>, from: nat, to: nat, k: nat)
    requires from < |list| && to < |list| && k < |list|
    ensures Moved(list, from, to)[k]
         == if k == to then list[from]
            else if to <= k <= from then list[k - 1]
            else if from <= k <= to then list[k + 1]
            else list[k]
  {
    if to <= from {
      var a, b, c := list[..to], list[to..from], list[from + 1..];
      assert Moved(list, from, to) == a + ([list[from]] + (b + c));
      PieceAt(a, [list[from]] + (b + c), k);
      if k > to {
        PieceAt(b, c, k - to - 1);
        SliceAt(list, to, from, k - 1);
        if k > from { TailAt(list, from + 1, k); }
      }
    } else {
      var a, b, c := list[..from], list[from + 1..to + 1], list[to + 1..];
      assert Moved(list, from, to) == a + (b + ([list[from]] + c));
      PieceAt(a, b + ([list[from]] + c), k);
      if k >= from {
        PieceAt(b, [list[from]] + c, k - from);
        SliceAt(list, from + 1, to + 1, k + 1);
        if k > to { TailAt(list, to + 1, k); }
      }
    }
  }

  lemma PieceAt(a: seq<Entry>, b: seq<Entry>, k: nat)
    requires k < |a + b|
    ensures (a + b)[k] == if k < |a| then a[k] else b[k - |a|]
  {
  }

  lemma SliceAt(list: seq<Entry>, lo: nat, hi: nat, k: nat)
    requires lo <= hi <= |list|
    ensures lo <= k < hi ==> list[lo..hi][k - lo] == list[k]
  {
  }

  lemma TailAt(list: seq<Entry>, lo: nat, k: nat)
    requires lo <= k < |list|
    ensures list[lo..][k - lo] == list[k]
  {
  }

  // Where the player goes.
  function Target(list: seq<Entry>, id: int, fame: int): nat
  {
    var p, f := PlaceOf(list, id, 0), PlaceFor(list, fame, 0);
    if f == |list| && p < |list| then f - 1 else f
  }

  // The entry at place k when e goes from place p, or from outside, to another place.
  function Shifted(list: seq<Entry>, p: nat, to: nat, e: Entry, k: nat): Entry
    requires k < |list| && to < |list| && p <= |list|
  {
    if k == to then e
    else if to < k <= p then list[k - 1]
    else if p <= k < to then list[k + 1]
    else list[k]
  }

  lemma UpdatedIs(list: seq<Entry>, id: int, fame: int, name: string, k: nat)
    requires k < |list| && Target(list, id, fame) < |list|
    ensures var p, to := PlaceOf(list, id, 0), Target(list, id, fame);
      Updated(list, id, fame, name)[k]
      == Shifted(list, p, to, if p == |list| then Entry(id, fame, name) else list[p].(fame := fame), k)
  {
    var p, f := PlaceOf(list, id, 0), PlaceFor(list, fame, 0);
    hide Moved, PlaceOf, PlaceFor;
    var to := Target(list, id, fame);
    if f == p {
      assert Updated(list, id, fame, name) == list[p := list[p].(fame := fame)];
    } else if p == |list| {
      MovedIs(list, p - 1, f, k);
      assert Updated(list, id, fame, name) == Moved(list, p - 1, f)[f := Entry(id, fame, name)];
    } else {
      MovedIs(list, p, to, k);
      var m := Moved(list, p, to);
      assert Updated(list, id, fame, name) == m[to := m[to].(fame := fame)];
      MovedIs(list, p, to, to);
    }
  }

  // After an update the list is sorted, except exactly when the player is put one place too low.
  lemma UpdateSorts(list: seq<Entry>, id: int, fame: int, name: string)
    requires Sorted(list)
    ensures Sorted(Updated(list, id, fame, name)) <==> !Misplaced(list, id, fame)
  {
    if Target(list, id, fame) < |list| {
      var p, to := PlaceOf(list, id, 0), Target(list, id, fame);
      var e := if p == |list| then Entry(id, fame, name) else list[p].(fame := fame);
      forall k: nat | k < |list| ensures Updated(list, id, fame, name)[k] == Shifted(list, p, to, e, k) {
        UpdatedIs(list, id, fame, name, k);
      }
      hide Updated, Shifted, Sorted, Misplaced;
      var r := Updated(list, id, fame, name);
      if Misplaced(list, id, fame) {
        OutOfOrder(list, id, fame, e);
        NotSorted(r, to - 1, to);
      } else {
        forall i: nat, j: nat | i < j < |list| ensures r[i].fame >= r[j].fame { InOrder(list, id, fame, e, i, j); }
        IsSorted(r);
      }
    }
  }

  lemma IsSorted(list: seq<Entry>)
    requires forall i: nat, j: nat | i < j < |list| :: list[i].fame >= list[j].fame
    ensures Sorted(list)
  {
  }

  lemma NotSorted(list: seq<Entry>, i: nat, j: nat)
    requires i < j < |list| && list[i].fame < list[j].fame
    ensures !Sorted(list)
  {
  }

  lemma OutOfOrder(list: seq<Entry>, id: int, fame: int, e: Entry)
    requires Sorted(list) && Misplaced(list, id, fame) && e.fame == fame
    ensures 0 < Target(list, id, fame) < |list|
    ensures var p, to := PlaceOf(list, id, 0), Target(list, id, fame);
      Shifted(list, p, to, e, to - 1).fame < Shifted(list, p, to, e, to).fame
  {
    hide Sorted;
  }

  lemma InOrder(list: seq<Entry>, id: int, fame: int, e: Entry, i: nat, j: nat)
    requires Sorted(list) && !Misplaced(list, id, fame) && e.fame == fame
    requires i < j < |list| && Target(list, id, fame) < |list|
    ensures var p, to := PlaceOf(list, id, 0), Target(list, id, fame);
      Shifted(list, p, to, e, i).fame >= Shifted(list, p, to, e, j).fame
  {
    var f, to := PlaceFor(list, fame, 0), Target(list, id, fame);
    assert f < |list| ==> forall k | f <= k < |list| :: list[k].fame <= fame;
  }

  // Three players of fame 30, 20 and 10: when the first falls to 25 the list reads 20, 25, 10.
  lemma OnePlaceTooLow()
    ensures var list := [Entry(1, 30, "a"), Entry(2, 20, "b"), Entry(3, 10, "c")];
      && Sorted(list) && Misplaced(list, 1, 25)
      && Updated(list, 1, 25, "a") == [Entry(2, 20, "b"), Entry(1, 25, "a"), Entry(3, 10, "c")]
  {
    var list := [Entry(1, 30, "a"), Entry(2, 20, "b"), Entry(3, 10, "c")];
    assert PlaceOf(list, 1, 0) == 0;
    assert PlaceFor(list, 25, 0) == PlaceFor(list, 25, 1) == 1;
  }

  lemma UpdateKeepsPlayersApart(list: seq<Entry>, id: int, fame: int, name: string)
    requires NoRepeats(list) && id != 0
    ensures NoRepeats(Updated(list, id, fame, name))
  {
    if Target(list, id, fame) < |list| {
      var p, to := PlaceOf(list, id, 0), Target(list, id, fame);
      var e := if p == |list| then Entry(id, fame, name) else list[p].(fame := fame);
      forall k: nat | k < |list| ensures Updated(list, id, fame, name)[k] == Shifted(list, p, to, e, k) {
        UpdatedIs(list, id, fame, name, k);
      }
      hide Updated;
    }
  }

  // ---------- Runs ----------

  // A report: a player, the fame and the name.
  datatype Report = Report(id: int, fame: int, name: string)

  function Run(list: seq<Entry>, rs: seq<Report>): seq<Entry>
  {
    if rs == [] then list
    else
      var r := rs[|rs| - 1];
      Updated(Run(list, rs[..|rs| - 1]), r.id, r.fame, r.name)
  }

  // The fame last reported of every player, on top of what was known before.
  function History(known: map<int, int>, rs: seq<Report>): map<int, int>
  {
    if rs == [] then known else History(known, rs[..|rs| - 1])[rs[|rs| - 1].id := rs[|rs| - 1].fame]
  }

  // The reported player finds the right place, and does not fall below the last of the list.
  predicate WellPlaced(list: seq<Entry>, r: Report)
  {
    && r.id > 0 && !Misplaced(list, r.id, r.fame)
    && (Listed(list, r.id) ==>
          r.fame >= list[PlaceOf(list, r.id, 0)].fame || r.fame >= list[|list| - 1].fame)
  }

  ghost predicate AllWellPlaced(list: seq<Entry>, rs: seq<Report>)
  {
    forall n | 0 <= n < |rs| :: WellPlaced(Run(list, rs[..n]), rs[n])
  }

  // The list is the top of the history: sorted, without repetitions, true to the reports, and
  // nobody outside has more fame than the last one inside.
  ghost predicate TopOf(list: seq<Entry>, history: map<int, int>)
  {
    && Sorted(list) && NoRepeats(list) && 0 !in history
    && (forall i | 0 <= i < |list| && list[i].id != 0 :: list[i].id in history && history[list[i].id] == list[i].fame)
    && (forall id: int | id in history && !Listed(list, id) && |list| > 0 :: history[id] <= list[|list| - 1].fame)
  }

  // The last entry does not lose fame.
  lemma LastRises(list: seq<Entry>, r: Report)
    requires Sorted(list) && WellPlaced(list, r) && Target(list, r.id, r.fame) < |list|
    ensures Updated(list, r.id, r.fame, r.name)[|list| - 1].fame >= list[|list| - 1].fame
  {
    UpdatedIs(list, r.id, r.fame, r.name, |list| - 1);
    hide Updated;
    var p, to, n := PlaceOf(list, r.id, 0), Target(list, r.id, r.fame), |list| - 1;
    if to == n {
      assert r.fame >= list[n].fame;
    }
  }

  // Only the last can drop out.
  lemma OthersStay(list: seq<Entry>, r: Report, id: int)
    requires Target(list, r.id, r.fame) < |list| && id != r.id && PlaceOf(list, id, 0) < |list| - 1
    ensures Listed(Updated(list, r.id, r.fame, r.name), id)
  {
    var q, to, p := PlaceOf(list, id, 0), Target(list, r.id, r.fame), PlaceOf(list, r.id, 0);
    var k := if to <= q < p then q + 1 else if p < q <= to then q - 1 else q;
    UpdatedIs(list, r.id, r.fame, r.name, k);
    hide Updated;
    assert Updated(list, r.id, r.fame, r.name)[k].id == id;
  }

  // Entries other than the reported player's are old entries of other players.
  lemma OldEntries(list: seq<Entry>, r: Report, k: nat)
    requires Sorted(list) && NoRepeats(list) && WellPlaced(list, r)
    requires k < |list| && Target(list, r.id, r.fame) < |list| && k != Target(list, r.id, r.fame)
    ensures exists j :: 0 <= j < |list| && list[j].id != r.id && Updated(list, r.id, r.fame, r.name)[k] == list[j]
  {
    UpdatedIs(list, r.id, r.fame, r.name, k);
    var p, to := PlaceOf(list, r.id, 0), Target(list, r.id, r.fame);
    var j := if to < k <= p then k - 1 else if p <= k < to then k + 1 else k;
    assert j != p && (p < |list| ==> list[p].id == r.id);
    if p < |list| && j > p { assert list[p].id != list[j].id; }
    assert list[j].id != r.id;
  }

  // The entries stay true to the reports.
  lemma EntriesTrue(list: seq<Entry>, history: map<int, int>, r: Report, i: nat)
    requires TopOf(list, history) && WellPlaced(list, r) && Target(list, r.id, r.fame) < |list| && i < |list|
    ensures var e, h := Updated(list, r.id, r.fame, r.name)[i], history[r.id := r.fame];
      e.id != 0 ==> e.id in h && h[e.id] == e.fame
  {
    var to := Target(list, r.id, r.fame);
    if i == to {
      UpdatedIs(list, r.id, r.fame, r.name, to);
    } else {
      OldEntries(list, r, i);
      hide Updated, WellPlaced;
      var j :| 0 <= j < |list| && list[j].id != r.id && Updated(list, r.id, r.fame, r.name)[i] == list[j];
    }
  }

  // Outsiders still have no more than the last.
  lemma OutsidersBelow(list: seq<Entry>, history: map<int, int>, r: Report, id: int)
    requires TopOf(list, history) && WellPlaced(list, r) && Target(list, r.id, r.fame) < |list|
    requires id in history[r.id := r.fame] && !Listed(Updated(list, r.id, r.fame, r.name), id)
    ensures history[r.id := r.fame][id] <= Updated(list, r.id, r.fame, r.name)[|list| - 1].fame
  {
    LastRises(list, r);
    UpdatedIs(list, r.id, r.fame, r.name, Target(list, r.id, r.fame));
    hide Updated, WellPlaced;
    assert id != r.id;
    if Listed(list, id) {
      if PlaceOf(list, id, 0) < |list| - 1 { OthersStay(list, r, id); }
      assert list[PlaceOf(list, id, 0)].id == id;
    }
  }

  lemma UpdateKeepsTop(list: seq<Entry>, history: map<int, int>, r: Report)
    requires TopOf(list, history) && WellPlaced(list, r)
    ensures TopOf(Updated(list, r.id, r.fame, r.name), history[r.id := r.fame])
  {
    var l, h := Updated(list, r.id, r.fame, r.name), history[r.id := r.fame];
    UpdateSorts(list, r.id, r.fame, r.name);
    UpdateKeepsPlayersApart(list, r.id, r.fame, r.name);
    if Target(list, r.id, r.fame) < |list| {
      hide Updated, Sorted, NoRepeats, Target;
      forall i: nat | i < |l| && l[i].id != 0 ensures l[i].id in h && h[l[i].id] == l[i].fame {
        EntriesTrue(list, history, r, i);
      }
      forall id: int | id in h && !Listed(l, id) ensures h[id] <= l[|l| - 1].fame {
        OutsidersBelow(list, history, r, id);
      }
    }
  }

  // A player whose fame rises, or stays, is well placed.
  lemma RisersArePlaced(list: seq<Entry>, r: Report)
    requires Sorted(list) && NotLowered(list, r)
    ensures WellPlaced(list, r)
  {
  }

  function Above(list: seq<Entry>): (m: int)
    ensures m > 0 && forall i | 0 <= i < |list| :: list[i].id < m
  {
    if list == [] then 1
    else
      var m, id := Above(list[..|list| - 1]), list[|list| - 1].id;
      if id < m then m else id + 1
  }

  // A report keeps the list the top of every history it may be the top of exactly if the player
  // is well placed.
  lemma TopKeptExactly(list: seq<Entry>, some: map<int, int>, r: Report)
    requires TopOf(list, some) && r.id > 0 && |list| > 0
    ensures WellPlaced(list, r)
            <==> forall h: map<int, int> | TopOf(list, h) :: TopOf(Updated(list, r.id, r.fame, r.name), h[r.id := r.fame])
  {
    var l := Updated(list, r.id, r.fame, r.name);
    if WellPlaced(list, r) {
      forall h: map<int, int> | TopOf(list, h) ensures TopOf(l, h[r.id := r.fame]) { UpdateKeepsTop(list, h, r); }
    } else if Misplaced(list, r.id, r.fame) {
      UpdateSorts(list, r.id, r.fame, r.name);
      assert !TopOf(l, some[r.id := r.fame]);
    } else {
      Overtaken(list, some, r);
    }
  }

  // An outsider may have the fame of the last of the list.
  lemma OutsiderJoins(list: seq<Entry>, history: map<int, int>, x: int)
    requires TopOf(list, history) && |list| > 0 && x > 0 && forall i | 0 <= i < |list| :: list[i].id < x
    ensures TopOf(list, history[x := list[|list| - 1].fame])
  {
    hide Sorted, NoRepeats;
    assert !Listed(list, x);
  }

  // A player who falls below the last goes to the end, and no new player comes in.
  lemma FallsToTheEnd(list: seq<Entry>, r: Report, x: int)
    requires Sorted(list) && Listed(list, r.id) && !Misplaced(list, r.id, r.fame) && r.fame < list[|list| - 1].fame
    requires r.id < x && forall i | 0 <= i < |list| :: list[i].id < x
    ensures Updated(list, r.id, r.fame, r.name)[|list| - 1].fame == r.fame
    ensures !Listed(Updated(list, r.id, r.fame, r.name), x)
  {
    var n := |list| - 1;
    forall k: nat | k < |list| ensures Updated(list, r.id, r.fame, r.name)[k].id < x {
      UpdatedIs(list, r.id, r.fame, r.name, k);
    }
    UpdatedIs(list, r.id, r.fame, r.name, n);
    hide Updated;
  }

  // An outsider with the fame of the last of the list has more than a player who falls below.
  lemma Overtaken(list: seq<Entry>, some: map<int, int>, r: Report)
    requires TopOf(list, some) && r.id > 0 && Listed(list, r.id) && !Misplaced(list, r.id, r.fame)
    requires r.fame < list[|list| - 1].fame
    ensures exists h: map<int, int> ::
              TopOf(list, h) && !TopOf(Updated(list, r.id, r.fame, r.name), h[r.id := r.fame])
  {
    var x := Above(list);
    assert list[PlaceOf(list, r.id, 0)].id == r.id;
    OutsiderJoins(list, some, x);
    FallsToTheEnd(list, r, x);
    var h := some[x := list[|list| - 1].fame];
    hide Updated, Listed, Misplaced, Sorted, NoRepeats;
    assert x in h[r.id := r.fame] && h[r.id := r.fame][x] == list[|list| - 1].fame;
    assert !TopOf(Updated(list, r.id, r.fame, r.name), h[r.id := r.fame]);
  }

  // Whatever list a run starts from, over well placed reports it stays the top of the full history.
  lemma {:induction false} RunKeepsTop(list: seq<Entry>, known: map<int, int>, rs: seq<Report>)
    requires TopOf(list, known) && AllWellPlaced(list, rs)
    ensures TopOf(Run(list, rs), History(known, rs))
    decreases |rs|
  {
    hide TopOf, Updated, WellPlaced;
    if rs != [] {
      var n := |rs| - 1;
      assert forall m | 0 <= m < n :: rs[..n][..m] == rs[..m] && rs[..n][m] == rs[m];
      RunKeepsTop(list, known, rs[..n]);
      UpdateKeepsTop(Run(list, rs[..n]), History(known, rs[..n]), rs[n]);
    }
  }

  // Nobody who is listed is ever reported with less fame.
  ghost predicate NeverLowers(list: seq<Entry>, rs: seq<Report>)
  {
    forall n | 0 <= n < |rs| :: NotLowered(Run(list, rs[..n]), rs[n])
  }

  predicate NotLowered(list: seq<Entry>, r: Report)
  {
    r.id > 0 && (Listed(list, r.id) ==> list[PlaceOf(list, r.id, 0)].fame <= r.fame)
  }

  lemma NeverLowersBefore(list: seq<Entry>, rs: seq<Report>, n: nat)
    requires NeverLowers(list, rs) && |rs| == n + 1
    ensures NeverLowers(list, rs[..n]) && NotLowered(Run(list, rs[..n]), rs[n])
  {
    hide NotLowered, Run;
    assert forall m | 0 <= m < n :: rs[..n][..m] == rs[..m] && rs[..n][m] == rs[m];
  }

  // In particular, if no listed player's fame is ever lowered.
  lemma {:induction false} RisingRunKeepsTop(list: seq<Entry>, known: map<int, int>, rs: seq<Report>)
    requires TopOf(list, known) && NeverLowers(list, rs)
    ensures TopOf(Run(list, rs), History(known, rs))
    decreases |rs|
  {
    hide Updated, NotLowered, TopOf, NeverLowers;
    if rs != [] {
      var n := |rs| - 1;
      NeverLowersBefore(list, rs, n);
      RisingRunKeepsTop(list, known, rs[..n]);
      RiserKeepsTop(Run(list, rs[..n]), History(known, rs[..n]), rs[n]);
    }
  }

  lemma RiserKeepsTop(list: seq<Entry>, history: map<int, int>, r: Report)
    requires TopOf(list, history) && NotLowered(list, r)
    ensures TopOf(Updated(list, r.id, r.fame, r.name), history[r.id := r.fame])
  {
    hide NoRepeats, Updated;
    RisersArePlaced(list, r);
    UpdateKeepsTop(list, history, r);
  }

  // The fame of the players listed.
  function FameOf(list: seq<Entry>): map<int, int>
  {
    map i | 0 <= i < |list| && list[i].id != 0 :: list[i].id := list[PlaceOf(list, list[i].id, 0)].fame
  }

  // A run may start from any sorted list of different players, such as one loaded from the
  // database.
  lemma ListIsTop(list: seq<Entry>)
    requires Sorted(list) && NoRepeats(list)
    ensures TopOf(list, FameOf(list))
  {
    forall i | 0 <= i < |list| && list[i].id != 0
      ensures list[i].id in FameOf(list) && FameOf(list)[list[i].id] == list[i].fame && Listed(list, list[i].id)
    {
      var p := PlaceOf(list, list[i].id, 0);
      assert p <= i;
    }
  }

  // ---------- The handler ----------

  // ARR_MOVE.
  method Move(list: array<Entry>, from: nat, to: nat)
    requires from < list.Length && to < list.Length
    modifies list
    ensures list[..] == Moved(old(list[..]), from, to)
  {
    hide Moved;
    var backup := list[from];
    var k := from;
    if from < to {
      while k < to
        invariant from <= k <= to
        invariant forall i | 0 <= i < list.Length ::
                    list[i] == if from <= i < k then old(list[i + 1]) else old(list[i])
      {
        list[k] := list[k + 1];
        k := k + 1;
      }
    } else if from > to {
      while k > to
        invariant to <= k <= from
        invariant forall i | 0 <= i < list.Length ::
                    list[i] == if k < i <= from then old(list[i - 1]) else old(list[i])
      {
        list[k] := list[k - 1];
        k := k - 1;
      }
    }
    list[to] := backup;
    forall i: nat | i < list.Length ensures list[i] == Moved(old(list[..]), from, to)[i] {
      MovedIs(old(list[..]), from, to, i);
    }
  }

  // chmapif_parse_updfamelist, on the list of one profession.
  method ParseUpdate(list: array<Entry>, id: int, fame: int, name: string)
    modifies list
    ensures list[..] == Updated(old(list[..]), id, fame, name)
  {
    ghost var was := list[..];
    var player, place := 0, 0;
    while player < list.Length && list[player].id != id
      invariant player <= list.Length && PlaceOf(was, id, 0) == PlaceOf(was, id, player)
    {
      player := player + 1;
    }
    while place < list.Length && list[place].fame > fame
      invariant place <= list.Length && PlaceFor(was, fame, 0) == PlaceFor(was, fame, place)
    {
      place := place + 1;
    }
    if player == list.Length && place == list.Length {
      return;
    }
    if place == player {
      list[player] := list[player].(fame := fame);
    } else if player == list.Length {
      Move(list, list.Length - 1, place);
      list[place] := Entry(id, fame, name);
    } else {
      if place == list.Length {
        place := place - 1;
      }
      Move(list, player, place);
      list[place] := list[place].(fame := fame);
    }
  }
}
