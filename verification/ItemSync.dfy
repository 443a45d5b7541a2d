/** Saving a character's items (char.c): the rows of the owner are matched against the items in
    memory, and only rows that differ are updated, deleted or inserted. */
module ItemSync {
  const MAX_SLOTS: nat := 4

  datatype Item = Item(nameid: nat, amount: int, equip: nat, identify: int, refine: int, attribute: int,
                       expireTime: nat, favorite: int, bound: int, card: seq<nat>, uniqueId: nat)

  predicate Slotted(it: Item) { |it.card| == MAX_SLOTS }

  type Slots = it: Item | Slotted(it) witness Item(0, 0, 0, 0, 0, 0, 0, 0, 0, [0, 0, 0, 0], 0)

  // A row: its owner and the stored item. Only the inventory has the column `favorite`.
  datatype Row = Row(owner: int, item: Slots)

  // The columns a save compares and writes: everything but `unique_id`, and `favorite` only if
  // the table has it.
  function Columns(it: Slots, favorites: bool): Slots
  {
    it.(uniqueId := 0, favorite := if favorites then it.favorite else 0)
  }

  // What an INSERT stores; a column that is not mentioned is zero.
  function Inserted(it: Slots, favorites: bool): Slots { it.(favorite := if favorites then it.favorite else 0) }

  // ---------- The database ----------

  datatype Statement = Update(id: int) | Delete(id: int) | Insert(ids: seq<int>)

  // A table with an automatic key. Every statement may fail, and then has no effect, and so may
  // every fetch of a row.
  class Table {
    var rows: map<int, Row>
    var nextId: int
    // The statements that took effect, and how many statements and fetches have failed.
    ghost var log: seq<Statement>
    ghost var faults: nat
    ghost var missed: nat

    ghost predicate Valid() reads this { nextId >= 0 && forall k | k in rows :: 0 <= k < nextId }

    // Every key of the owner, once.
    ghost predicate Enumerates(ids: seq<int>, owner: int)
      reads this
    {
      && NoRepeats(ids)
      && (forall i | 0 <= i < |ids| :: ids[i] in rows && rows[ids[i]].owner == owner)
      && AllKeys(rows, owner, ids)
    }

    // SELECT ... WHERE owner: the keys of the result, in some order.
    method Select(owner: int) returns (ok: bool, ids: seq<int>)
      requires Valid()
      modifies `faults
      ensures ok ==> Enumerates(ids, owner)
      ensures faults == old(faults) + if ok then 0 else 1
    {
      ok := *;
      if !ok {
        faults := faults + 1;
      }
      ids := [];
      var k := 0;
      while k < nextId
        invariant 0 <= k <= nextId
        invariant forall i | 0 <= i < |ids| :: ids[i] < k && ids[i] in rows && rows[ids[i]].owner == owner
        invariant forall i, j | 0 <= i < j < |ids| :: ids[i] != ids[j]
        invariant forall j | 0 <= j < k && j in rows && rows[j].owner == owner :: j in ids
      {
        if k in rows && rows[k].owner == owner {
          ids := ids + [k];
        }
        k := k + 1;
      }
    }

    // Whether the next row of a result can be fetched.
    method Fetch() returns (ok: bool)
      modifies `missed
      ensures missed == old(missed) + if ok then 0 else 1
    {
      ok := *;
      if !ok {
        missed := missed + 1;
      }
    }

    // UPDATE ... WHERE id: every column but the owner and `unique_id`.
    method Set(id: int, it: Slots, favorites: bool) returns (ok: bool)
      requires id in rows
      modifies `rows, `log, `faults
      ensures faults == old(faults) + if ok then 0 else 1
      ensures !ok ==> rows == old(rows) && log == old(log)
      ensures ok ==> log == old(log) + [Update(id)] && id in rows && rows == old(rows)[id := rows[id]]
      ensures ok ==>
                && rows[id].owner == old(rows)[id].owner
                && rows[id].item.uniqueId == old(rows)[id].item.uniqueId
                && Columns(rows[id].item, favorites) == Columns(it, favorites)
    {
      ok := *;
      if ok {
        var was := rows[id].item;
        var now := it.(uniqueId := was.uniqueId, favorite := if favorites then it.favorite else was.favorite);
        rows := rows[id := Row(rows[id].owner, now)];
        log := log + [Update(id)];
      } else {
        faults := faults + 1;
      }
    }

    method Remove(id: int) returns (ok: bool)
      modifies `rows, `log, `faults
      ensures faults == old(faults) + if ok then 0 else 1
      ensures !ok ==> rows == old(rows) && log == old(log)
      ensures ok ==> log == old(log) + [Delete(id)] && rows == old(rows) - {id}
    {
      ok := *;
      if ok {
        rows := rows - {id};
        log := log + [Delete(id)];
      } else {
        faults := faults + 1;
      }
    }

    // INSERT of several rows, all or none.
    method Add(owner: int, items: seq<Slots>, favorites: bool) returns (ok: bool, ghost ids: seq<int>)
      requires Valid()
      modifies `rows, `nextId, `log, `faults
      ensures Valid() && faults == old(faults) + if ok then 0 else 1
      ensures !ok ==> rows == old(rows) && log == old(log) && ids == []
      ensures ok ==>
                && log == old(log) + [Insert(ids)] && NoRepeats(ids) && (forall i | 0 <= i < |ids| :: ids[i] >= old(nextId))
                && Grown(rows, old(rows), owner, ids, items, favorites)
    {
      ok := *;
      ids := [];
      if ok {
        var i := 0;
        while i < |items|
          invariant 0 <= i == |ids| <= |items| && Valid() && log == old(log) && faults == old(faults) && nextId >= old(nextId)
          invariant forall a | 0 <= a < i :: ids[a] >= old(nextId)
          invariant forall a | 0 <= a < i :: ids[a] < nextId && ids[a] in rows
          invariant forall a, b | 0 <= a < b < i :: ids[a] != ids[b]
          invariant forall k :: k in rows <==> k in old(rows) || k in ids
          invariant forall k | k in old(rows) :: k !in ids && rows[k] == old(rows)[k]
          invariant forall a | 0 <= a < i :: rows[ids[a]] == Row(owner, Inserted(items[a], favorites))
        {
          rows := rows[nextId := Row(owner, Inserted(items[i], favorites))];
          ids := ids + [nextId];
          nextId := nextId + 1;
          i := i + 1;
        }
        log := log + [Insert(ids)];
      } else {
        faults := faults + 1;
      }
    }
  }

  // ---------- What a save has to bring about ----------

  predicate Keys(rows: map<int, Row>, ids: seq<int>) { forall i | 0 <= i < |ids| :: ids[i] in rows }

  // How many of the rows with the given keys hold v.
  function Stored(rows: map<int, Row>, ids: seq<int>, favorites: bool, v: Slots): nat
    requires Keys(rows, ids)
  {
    if ids == [] then 0
    else Stored(rows, ids[..|ids| - 1], favorites, v) + Holds(rows[ids[|ids| - 1]].item, favorites, v)
  }

  function Holds(it: Slots, favorites: bool, v: Slots): nat { if Columns(it, favorites) == v then 1 else 0 }

  // How many of the first n items are v, and neither empty nor flagged.
  function Left(items: seq<Slots>, flag: seq<bool>, n: nat, favorites: bool, v: Slots): nat
    requires n <= |items| == |flag|
  {
    if n == 0 then 0
    else
      Left(items, flag, n - 1, favorites, v)
      + if items[n - 1].nameid != 0 && !flag[n - 1] then Holds(items[n - 1], favorites, v) else 0
  }

  // How many of the items in memory are v; empty slots do not count.
  function Wanted(items: seq<Slots>, favorites: bool, v: Slots): nat
  {
    Left(items, seq(|items|, _ => false), |items|, favorites, v)
  }

  lemma {:induction false} StoredSame(a: map<int, Row>, b: map<int, Row>, ids: seq<int>, favorites: bool, v: Slots)
    requires Keys(a, ids) && Keys(b, ids) && forall i | 0 <= i < |ids| :: a[ids[i]] == b[ids[i]]
    ensures Stored(a, ids, favorites, v) == Stored(b, ids, favorites, v)
    decreases |ids|
  {
    hide Holds;
    if ids != [] { StoredSame(a, b, ids[..|ids| - 1], favorites, v); }
  }

  // One more key.
  lemma StoredPush(rows: map<int, Row>, ids: seq<int>, k: int, favorites: bool, v: Slots)
    requires k in rows && Keys(rows, ids)
    ensures Stored(rows, ids + [k], favorites, v) == Stored(rows, ids, favorites, v) + Holds(rows[k].item, favorites, v)
  {
    hide Holds;
    assert (ids + [k])[..|ids|] == ids;
  }

  lemma {:induction false} StoredConcat(rows: map<int, Row>, ids: seq<int>, more: seq<int>, favorites: bool, v: Slots)
    requires Keys(rows, ids) && Keys(rows, more)
    ensures Keys(rows, ids + more)
    ensures Stored(rows, ids + more, favorites, v) == Stored(rows, ids, favorites, v) + Stored(rows, more, favorites, v)
    decreases |more|
  {
    hide Holds, Stored;
    if more == [] {
      assert ids + more == ids;
      StoredNone(rows, favorites, v);
    } else {
      var n := |more| - 1;
      StoredConcat(rows, ids, more[..n], favorites, v);
      assert ids + more == ids + more[..n] + [more[n]] && more == more[..n] + [more[n]];
      StoredPush(rows, ids + more[..n], more[n], favorites, v);
      StoredPush(rows, more[..n], more[n], favorites, v);
    }
  }

  lemma StoredNone(rows: map<int, Row>, favorites: bool, v: Slots)
    ensures Stored(rows, [], favorites, v) == 0
  {
  }

  // The order of the keys does not matter.
  lemma {:induction false} StoredAnyOrder(rows: map<int, Row>, ids: seq<int>, others: seq<int>, favorites: bool, v: Slots)
    requires Keys(rows, ids) && Keys(rows, others) && SameKeys(ids, others)
    ensures Stored(rows, ids, favorites, v) == Stored(rows, others, favorites, v)
    decreases |ids|
  {
    hide Holds, Stored, SameKeys, Keys;
    if others != [] { NotEmpty(ids, others); }
    if ids != [] {
      var n := |ids| - 1;
      var i := KeyTaken(ids, others);
      StoredWithout(rows, others, i, favorites, v);
      StoredWithout(rows, ids, n, favorites, v);
      assert ids[..n] + ids[n + 1..] == ids[..n];
      StoredAnyOrder(rows, ids[..n], others[..i] + others[i + 1..], favorites, v);
    }
  }

  lemma NotEmpty(ids: seq<int>, others: seq<int>)
    requires SameKeys(ids, others) && others != []
    ensures ids != []
  {
    assert others[0] in ids;
  }

  ghost predicate Within(ids: seq<int>, others: seq<int>) { forall i | 0 <= i < |ids| :: ids[i] in others }

  ghost predicate NoRepeats(ids: seq<int>) { forall i, j | 0 <= i < j < |ids| :: ids[i] != ids[j] }

  // Two lists of the same keys, without repetitions.
  ghost predicate SameKeys(ids: seq<int>, others: seq<int>)
  {
    NoRepeats(ids) && NoRepeats(others) && Within(ids, others) && Within(others, ids)
  }

  // The last key of one list can be taken from both.
  lemma KeyTaken(ids: seq<int>, others: seq<int>) returns (i: nat)
    requires SameKeys(ids, others) && ids != []
    ensures i < |others| && others[i] == ids[|ids| - 1]
    ensures SameKeys(ids[..|ids| - 1], others[..i] + others[i + 1..])
  {
    var n := |ids| - 1;
    assert ids[n] in others;
    i :| 0 <= i < |others| && others[i] == ids[n];
    var front, rest := ids[..n], others[..i] + others[i + 1..];
    RestDistinct(others, i);
    assert front + [ids[n]] == ids;
    hide NoRepeats;
    forall j | 0 <= j < n ensures front[j] in rest {
      LastApart(ids, j);
      assert front[j] == ids[j] && ids[j] in others;
      StillIn(others, i, ids[j]);
    }
    forall j | 0 <= j < |rest| ensures rest[j] in front {
      StillFront(ids, others, i, j);
    }
    FrontDistinct(ids);
  }

  lemma RestDistinct(others: seq<int>, i: nat)
    requires NoRepeats(others) && i < |others|
    ensures NoRepeats(others[..i] + others[i + 1..])
  {
  }

  lemma FrontDistinct(ids: seq<int>)
    requires NoRepeats(ids) && ids != []
    ensures NoRepeats(ids[..|ids| - 1])
  {
  }

  lemma LastApart(ids: seq<int>, j: nat)
    requires NoRepeats(ids) && j < |ids| - 1
    ensures ids[j] != ids[|ids| - 1]
  {
  }

  lemma StillIn(others: seq<int>, i: nat, k: int)
    requires i < |others| && k in others && k != others[i]
    ensures k in others[..i] + others[i + 1..]
  {
    var m :| 0 <= m < |others| && others[m] == k;
    assert (others[..i] + others[i + 1..])[if m < i then m else m - 1] == k;
  }

  lemma StillFront(ids: seq<int>, others: seq<int>, i: nat, j: nat)
    requires NoRepeats(others) && Within(others, ids) && ids != [] && i < |others| && others[i] == ids[|ids| - 1]
    requires j < |others| - 1
    ensures (others[..i] + others[i + 1..])[j] in ids[..|ids| - 1]
  {
    var m := if j < i then j else j + 1;
    assert others[m] in ids && others[m] != others[i];
    var l :| 0 <= l < |ids| && ids[l] == others[m];
    assert ids[..|ids| - 1][l] == others[m];
  }

  lemma {:induction false} StoredWithout(rows: map<int, Row>, ids: seq<int>, i: nat, favorites: bool, v: Slots)
    requires i < |ids| && Keys(rows, ids)
    ensures Keys(rows, ids[..i] + ids[i + 1..])
    ensures Stored(rows, ids[..i] + ids[i + 1..], favorites, v) + Holds(rows[ids[i]].item, favorites, v)
         == Stored(rows, ids, favorites, v)
    decreases |ids|
  {
    hide Holds, Stored, Keys;
    var n := |ids| - 1;
    KeysOfFront(rows, ids);
    if i == n {
      assert ids[..i] + ids[i + 1..] == ids[..n];
    } else {
      StoredWithout(rows, ids[..n], i, favorites, v);
      var front := ids[..n][..i] + ids[..n][i + 1..];
      assert ids[..i] + ids[i + 1..] == front + [ids[n]];
      KeysPush(rows, front, ids[n]);
      StoredPush(rows, front, ids[n], favorites, v);
    }
    StoredPush(rows, ids[..n], ids[n], favorites, v);
    assert ids == ids[..n] + [ids[n]];
  }

  lemma KeysOfFront(rows: map<int, Row>, ids: seq<int>)
    requires Keys(rows, ids) && ids != []
    ensures Keys(rows, ids[..|ids| - 1]) && ids[|ids| - 1] in rows
    ensures forall i | 0 <= i < |ids| :: ids[i] in rows
  {
  }

  lemma KeysPush(rows: map<int, Row>, ids: seq<int>, k: int)
    requires Keys(rows, ids) && k in rows
    ensures Keys(rows, ids + [k])
  {
  }

  lemma {:induction false} LeftFlagged(items: seq<Slots>, flag: seq<bool>, n: nat, i: nat, favorites: bool, v: Slots)
    requires i < |items| == |flag| && n <= |items| && items[i].nameid != 0 && !flag[i]
    ensures Left(items, flag, n, favorites, v)
         == Left(items, flag[i := true], n, favorites, v) + if i < n then Holds(items[i], favorites, v) else 0
    decreases n
  {
    hide Holds;
    if n > 0 { LeftFlagged(items, flag, n - 1, i, favorites, v); }
  }

  // ---------- Saving ----------

  // They are the same item: the second card is not compared.
  predicate SameItem(a: Slots, b: Slots)
  {
    a.nameid == b.nameid && a.card[0] == b.card[0] && a.card[2] == b.card[2] && a.card[3] == b.card[3]
  }

  // The first item that may take the place of the row, or the end of the items.
  method FindItem(items: seq<Slots>, flag: array<bool>, row: Slots) returns (i: nat)
    requires flag.Length == |items|
    ensures i <= |items|
    ensures i < |items| ==> items[i].nameid != 0 && !flag[i] && SameItem(items[i], row)
    ensures forall k | 0 <= k < i && items[k].nameid != 0 && !flag[k] :: !SameItem(items[k], row)
  {
    i := 0;
    while i < |items|
      invariant 0 <= i <= |items|
      invariant forall k | 0 <= k < i && items[k].nameid != 0 && !flag[k] :: !SameItem(items[k], row)
    {
      if items[i].nameid != 0 && !flag[i] {
        if SameItem(items[i], row) {
          return;
        }
      }
      i := i + 1;
    }
  }

  // Nothing to do: every column is the same already.
  predicate Unchanged(a: Slots, b: Slots, favorites: bool)
  {
    && a.card == b.card && a.amount == b.amount && a.equip == b.equip && a.identify == b.identify
    && a.refine == b.refine && a.attribute == b.attribute && a.expireTime == b.expireTime
    && (favorites ==> a.favorite == b.favorite) && a.bound == b.bound
  }

  // The rows of the given keys hold what the flagged items and those still unflagged make up.
  ghost predicate Balanced(rows: map<int, Row>, ids: seq<int>, items: seq<Slots>, flag: seq<bool>, favorites: bool)
    requires Keys(rows, ids) && |flag| == |items|
  {
    forall v: Slots ::
      Stored(rows, ids, favorites, v) + Left(items, flag, |items|, favorites, v) == Wanted(items, favorites, v)
  }

  // The rows other than the given one are untouched.
  ghost predicate SameBut(a: map<int, Row>, b: map<int, Row>, id: int)
  {
    forall k: int | k != id :: SameRow(a, b, k)
  }

  predicate SameRow(a: map<int, Row>, b: map<int, Row>, k: int)
  {
    (k in a <==> k in b) && (k in a && k in b ==> a[k] == b[k])
  }

  // What has become of a row: it holds item i, which is flagged now, or it is gone.
  ghost predicate Handled(rows: map<int, Row>, before: map<int, Row>, id: int, items: seq<Slots>,
                          flag: seq<bool>, flagBefore: seq<bool>, i: nat, favorites: bool)
    requires id in before && |flagBefore| == |items|
  {
    if i < |items| then
      && items[i].nameid != 0 && !flagBefore[i] && flag == flagBefore[i := true]
      && id in rows && rows[id].owner == before[id].owner && rows[id].item.uniqueId == before[id].item.uniqueId
      && Columns(rows[id].item, favorites) == Columns(items[i], favorites)
    else
      flag == flagBefore && id !in rows
  }

  // One row of the result set.
  method HandleRow(table: Table, items: seq<Slots>, flag: array<bool>, id: int, favorites: bool)
    returns (errors: nat, ghost i: nat)
    requires id in table.rows && flag.Length == |items| && table.Valid()
    modifies table`rows, table`log, table`faults, flag
    ensures table.Valid() && SameBut(table.rows, old(table.rows), id)
    ensures errors == table.faults - old(table.faults)
    ensures id in table.rows ==>
              && table.rows[id].owner == old(table.rows)[id].owner
              && table.rows[id].item.uniqueId == old(table.rows)[id].item.uniqueId
    ensures table.log == old(table.log) || table.log == old(table.log) + [Update(id)]
                                        || table.log == old(table.log) + [Delete(id)]
    ensures errors == 0 ==>
              Handled(table.rows, old(table.rows), id, items, flag[..], old(flag[..]), i, favorites)
  {
    errors := 0;
    var row := table.rows[id].item;
    var j := FindItem(items, flag, row);
    i := j;
    if j < |items| {
      if !Unchanged(items[j], row, favorites) {
        var ok := table.Set(id, items[j], favorites);
        if !ok {
          errors := errors + 1;
        }
      }
      flag[j] := true;
    } else {
      var ok := table.Remove(id);
      if !ok {
        errors := errors + 1;
      }
    }
  }

  lemma HandledBalances(rows: map<int, Row>, before: map<int, Row>, id: int, ids: seq<int>, items: seq<Slots>,
                        flag: seq<bool>, flagBefore: seq<bool>, i: nat, favorites: bool)
    requires Keys(before, ids) && id in before && id !in ids && |flag| == |flagBefore| == |items|
    requires Balanced(before, ids, items, flagBefore, favorites) && SameBut(rows, before, id)
    requires Handled(rows, before, id, items, flag, flagBefore, i, favorites)
    ensures Keys(rows, ids)
    ensures i < |items| ==> Balanced(rows, ids + [id], items, flag, favorites)
    ensures i >= |items| ==> Balanced(rows, ids, items, flag, favorites)
  {
    forall j | 0 <= j < |ids| ensures ids[j] in rows && rows[ids[j]] == before[ids[j]] {
      assert ids[j] in before && ids[j] != id;
      assert SameRow(rows, before, ids[j]);
    }
    hide Holds, Left, Stored;
    forall v: Slots
      ensures Stored(rows, ids, favorites, v) == Stored(before, ids, favorites, v)
      ensures i < |items| ==>
                Stored(rows, ids + [id], favorites, v) + Left(items, flag, |items|, favorites, v)
                == Wanted(items, favorites, v)
    {
      StoredSame(rows, before, ids, favorites, v);
      if i < |items| {
        StoredPush(rows, ids, id, favorites, v);
        LeftFlagged(items, flagBefore, |items|, i, favorites, v);
        assert Stored(before, ids, favorites, v) + Left(items, flagBefore, |items|, favorites, v)
            == Wanted(items, favorites, v);
      }
    }
  }

  // The items that are to be inserted.
  function Counted(items: seq<Slots>, favorites: bool, v: Slots): nat
  {
    if items == [] then 0
    else Counted(items[..|items| - 1], favorites, v) + Holds(items[|items| - 1], favorites, v)
  }

  method Unmatched(items: seq<Slots>, flag: array<bool>, ghost favorites: bool) returns (rest: seq<Slots>)
    requires flag.Length == |items|
    ensures forall v: Slots :: Counted(rest, favorites, v) == Left(items, flag[..], |items|, favorites, v)
  {
    rest := [];
    var i := 0;
    while i < |items|
      invariant 0 <= i <= |items|
      invariant forall v: Slots :: Counted(rest, favorites, v) == Left(items, flag[..], i, favorites, v)
    {
      if items[i].nameid != 0 && !flag[i] {
        ghost var was := rest;
        rest := rest + [items[i]];
        assert rest[..|was|] == was;
      }
      i := i + 1;
    }
  }

  lemma InsertedHolds(it: Slots, favorites: bool, v: Slots)
    ensures Holds(Inserted(it, favorites), favorites, v) == Holds(it, favorites, v)
  {
    assert Columns(Inserted(it, favorites), favorites) == Columns(it, favorites);
  }

  // The inserted rows add what was left.
  lemma {:induction false} StoredAdded(rows: map<int, Row>, ids: seq<int>, more: seq<int>, items: seq<Slots>,
                                       favorites: bool, v: Slots)
    requires Keys(rows, ids) && Keys(rows, more) && |more| == |items|
    requires forall i | 0 <= i < |more| :: rows[more[i]].item == Inserted(items[i], favorites)
    ensures Keys(rows, ids + more)
    ensures Stored(rows, ids + more, favorites, v) == Stored(rows, ids, favorites, v) + Counted(items, favorites, v)
    decreases |more|
  {
    hide Holds, Stored;
    if more == [] {
      assert ids + more == ids;
    } else {
      var n := |more| - 1;
      StoredAdded(rows, ids, more[..n], items[..n], favorites, v);
      assert ids + more == ids + more[..n] + [more[n]];
      StoredPush(rows, ids + more[..n], more[n], favorites, v);
      InsertedHolds(items[n], favorites, v);
    }
  }

  // From start on, every statement changes or deletes one of the given rows, and none twice.
  ghost predicate Once(log: seq<Statement>, start: nat, ids: seq<int>)
  {
    && start <= |log|
    && (forall i | start <= i < |log| :: !log[i].Insert? && log[i].id in ids)
    && (forall i, j | start <= i < j < |log| :: log[i].id != log[j].id)
  }

  // The same, but for an insertion at the end.
  ghost predicate OnceThenInsert(log: seq<Statement>, start: nat, ids: seq<int>)
  {
    Once(log, start, ids) || (|log| > start && log[|log| - 1].Insert? && Once(log[..|log| - 1], start, ids))
  }

  lemma OnceStep(log: seq<Statement>, start: nat, ids: seq<int>, n: nat, s: Statement)
    requires n < |ids| && Once(log, start, ids[..n]) && ids[n] !in ids[..n] && !s.Insert? && s.id == ids[n]
    ensures Once(log + [s], start, ids[..n + 1])
  {
    var longer := log + [s];
    forall i | start <= i < |longer| ensures !longer[i].Insert? && longer[i].id in ids[..n + 1] {
      if i < |log| {
        var j :| 0 <= j < n && ids[..n][j] == log[i].id;
        assert ids[..n + 1][j] == log[i].id;
      } else {
        assert ids[..n + 1][n] == s.id;
      }
    }
  }

  lemma OnceMore(log: seq<Statement>, start: nat, ids: seq<int>, n: nat)
    requires n < |ids| && Once(log, start, ids[..n])
    ensures Once(log, start, ids[..n + 1])
  {
    forall i | start <= i < |log| ensures log[i].id in ids[..n + 1] {
      var j :| 0 <= j < n && ids[..n][j] == log[i].id;
      assert ids[..n + 1][j] == log[i].id;
    }
  }

  // Rows that are still there keep their owner and their `unique_id`.
  ghost predicate Keeps(rows: map<int, Row>, before: map<int, Row>)
  {
    forall k: int :: k in rows && k in before ==>
      rows[k].owner == before[k].owner && rows[k].item.uniqueId == before[k].item.uniqueId
  }

  // The rows kept of the first n.
  ghost predicate KeptOf(rows: map<int, Row>, owner: int, ids: seq<int>, n: nat, kept: seq<int>)
    requires n <= |ids|
  {
    && NoRepeats(kept)
    && (forall i | 0 <= i < |kept| :: kept[i] in rows && rows[kept[i]].owner == owner && kept[i] in ids[..n])
    && (forall i | 0 <= i < n && ids[i] in rows :: ids[i] in kept)
  }

  // The rows still to come.
  ghost predicate Ahead(rows: map<int, Row>, owner: int, ids: seq<int>, n: nat)
    requires n <= |ids|
  {
    && NoRepeats(ids)
    && (forall i | n <= i < |ids| :: ids[i] in rows && rows[ids[i]].owner == owner)
    && (forall i | n <= i < |ids| :: ids[i] !in ids[..n])
  }

  // All others are as before.
  ghost predicate OthersSame(rows: map<int, Row>, before: map<int, Row>, owner: int, ids: seq<int>, n: nat)
    requires n <= |ids|
  {
    && (forall k: int | k !in ids[..n] :: SameRow(rows, before, k))
    && (forall k: int :: Owned(rows, owner, k) ==> k in before) && Keeps(rows, before)
  }

  // When n rows of the result set are done.
  ghost predicate Progress(rows: map<int, Row>, before: map<int, Row>, owner: int, ids: seq<int>, n: nat, kept: seq<int>)
    requires n <= |ids|
  {
    KeptOf(rows, owner, ids, n, kept) && Ahead(rows, owner, ids, n) && OthersSame(rows, before, owner, ids, n)
  }

  lemma ProgressStarts(table: Table, owner: int, ids: seq<int>)
    requires table.Enumerates(ids, owner)
    ensures Progress(table.rows, table.rows, owner, ids, 0, [])
  {
  }

  lemma ProgressStep(now: map<int, Row>, rows: map<int, Row>, before: map<int, Row>, owner: int, ids: seq<int>,
                     n: nat, kept: seq<int>)
    requires n < |ids| && Progress(rows, before, owner, ids, n, kept) && SameBut(now, rows, ids[n])
    requires ids[n] in now ==>
               now[ids[n]].owner == rows[ids[n]].owner && now[ids[n]].item.uniqueId == rows[ids[n]].item.uniqueId
    ensures ids[n] in rows && Keys(rows, kept) && ids[n] !in kept
    ensures Progress(now, before, owner, ids, n + 1, if ids[n] in now then kept + [ids[n]] else kept)
  {
    KeptApart(rows, owner, ids, n, kept);
    AheadStep(now, rows, owner, ids, n);
    KeptStep(now, rows, owner, ids, n, kept);
    OthersStep(now, rows, before, owner, ids, n);
    hide KeptOf, Ahead, OthersSame, SameBut;
  }

  lemma KeptApart(rows: map<int, Row>, owner: int, ids: seq<int>, n: nat, kept: seq<int>)
    requires n < |ids| && KeptOf(rows, owner, ids, n, kept) && Ahead(rows, owner, ids, n)
    ensures ids[n] in rows && rows[ids[n]].owner == owner && Keys(rows, kept) && ids[n] !in kept
  {
  }

  lemma AheadStep(now: map<int, Row>, rows: map<int, Row>, owner: int, ids: seq<int>, n: nat)
    requires n < |ids| && Ahead(rows, owner, ids, n) && SameBut(now, rows, ids[n])
    ensures Ahead(now, owner, ids, n + 1)
  {
    forall i | n < i < |ids| ensures ids[i] in now && now[ids[i]].owner == owner && ids[i] !in ids[..n + 1] {
      assert SameRow(now, rows, ids[i]);
      assert ids[..n + 1] == ids[..n] + [ids[n]];
    }
  }

  lemma KeptStep(now: map<int, Row>, rows: map<int, Row>, owner: int, ids: seq<int>, n: nat, kept: seq<int>)
    requires n < |ids| && KeptOf(rows, owner, ids, n, kept) && SameBut(now, rows, ids[n]) && ids[n] !in kept
    requires ids[n] in now ==> now[ids[n]].owner == owner
    ensures KeptOf(now, owner, ids, n + 1, if ids[n] in now then kept + [ids[n]] else kept)
  {
    var id := ids[n];
    var longer := if id in now then kept + [id] else kept;
    assert ids[..n + 1] == ids[..n] + [id];
    forall i | 0 <= i < |kept| ensures kept[i] != id && SameRow(now, rows, kept[i]) && kept[i] in ids[..n + 1] {
      assert kept[i] in ids[..n];
    }
    forall i | 0 <= i < n + 1 && ids[i] in now ensures ids[i] in longer {
      if i == n {
        assert longer[|kept|] == id;
      } else {
        assert ids[i] == id || SameRow(now, rows, ids[i]);
        assert ids[i] == id || ids[i] in kept;
      }
    }
  }

  lemma OthersStep(now: map<int, Row>, rows: map<int, Row>, before: map<int, Row>, owner: int, ids: seq<int>, n: nat)
    requires n < |ids| && OthersSame(rows, before, owner, ids, n) && SameBut(now, rows, ids[n])
    requires ids[n] in rows && rows[ids[n]].owner == owner
    requires ids[n] in now ==>
               now[ids[n]].owner == rows[ids[n]].owner && now[ids[n]].item.uniqueId == rows[ids[n]].item.uniqueId
    ensures OthersSame(now, before, owner, ids, n + 1)
  {
    var id := ids[n];
    assert ids[..n + 1] == ids[..n] + [id];
    forall k: int ensures Owned(now, owner, k) ==> k in before && Owned(rows, owner, k) {
      assert k == id || SameRow(now, rows, k);
    }
    forall k: int | k in now && k in before
      ensures now[k].owner == before[k].owner && now[k].item.uniqueId == before[k].item.uniqueId
    {
      assert k == id || SameRow(now, rows, k);
    }
    forall k: int | k !in ids[..n + 1] ensures SameRow(now, before, k) {
      assert SameRow(now, rows, k) && SameRow(rows, before, k);
    }
  }

  predicate Owned(rows: map<int, Row>, owner: int, k: int) { k in rows && rows[k].owner == owner }

  ghost predicate AllKeys(rows: map<int, Row>, owner: int, ids: seq<int>)
  {
    forall k: int | Owned(rows, owner, k) :: k in ids
  }

  // At the end the rows kept and those not fetched are all rows of the owner.
  lemma KeptAreAll(rows: map<int, Row>, before: map<int, Row>, owner: int, ids: seq<int>, n: nat, kept: seq<int>)
    requires n <= |ids| && Progress(rows, before, owner, ids, n, kept) && AllKeys(before, owner, ids)
    ensures var all := kept + ids[n..]; AllKeys(rows, owner, all) && RowsOf(rows, all, owner) && NoRepeats(all)
    ensures RowsOf(rows, kept, owner) && RowsOf(rows, ids[n..], owner)
    ensures forall i | n <= i < |ids| :: SameRow(rows, before, ids[i])
  {
    var all, rest := kept + ids[n..], ids[n..];
    forall i | 0 <= i < |rest| ensures rest[i] == ids[n + i] && rest[i] in rows && rest[i] !in kept {
      forall j | 0 <= j < |kept| ensures kept[j] != ids[n + i] { assert kept[j] in ids[..n]; }
    }
    forall k: int | Owned(rows, owner, k) ensures k in all {
      assert k in ids[..n] || (SameRow(rows, before, k) && Owned(before, owner, k));
      var i :| 0 <= i < |ids| && ids[i] == k;
      if i < n {
        assert ids[i] in kept;
      } else {
        assert rest[i - n] == k;
      }
    }
    forall i, j | 0 <= i < j < |all| ensures all[i] != all[j] {
      if i < |kept| <= j { assert all[j] == rest[j - |kept|]; }
    }
  }

  // Other owners' rows are as before.
  lemma OthersKept(rows: map<int, Row>, before: map<int, Row>, owner: int, ids: seq<int>, n: nat, kept: seq<int>)
    requires n <= |ids| && Progress(rows, before, owner, ids, n, kept)
    requires forall i | 0 <= i < |ids| :: ids[i] in before && before[ids[i]].owner == owner
    ensures forall k | k in before && before[k].owner != owner :: k in rows && rows[k] == before[k]
    ensures forall k | k in rows && rows[k].owner != owner :: k in before
  {
    forall k | k in before && before[k].owner != owner ensures k in rows && rows[k] == before[k] {
      assert k !in ids[..n];
      assert SameRow(rows, before, k);
    }
    forall i | 0 <= i < |ids| && ids[i] in rows ensures rows[ids[i]].owner == owner {
      if i < n { assert ids[i] in kept; }
    }
    forall k | k in rows && rows[k].owner != owner ensures k in before {
      assert k !in ids[..n];
      assert SameRow(rows, before, k);
    }
  }

  // The inserted rows complete the table.
  lemma Completed(rows: map<int, Row>, before: map<int, Row>, owner: int, kept: seq<int>, unread: seq<int>,
                  more: seq<int>, rest: seq<Slots>, items: seq<Slots>, flag: seq<bool>, favorites: bool,
                  ids: seq<int>, v: Slots)
    requires AllKeys(before, owner, kept + unread) && NoRepeats(kept + unread) && NoRepeats(more)
    requires RowsOf(before, kept + unread, owner) && Keys(before, kept) && Keys(before, unread)
    requires |flag| == |items| && Balanced(before, kept, items, flag, favorites)
    requires Counted(rest, favorites, v) == Left(items, flag, |items|, favorites, v)
    requires Grown(rows, before, owner, more, rest, favorites)
    requires NoRepeats(ids) && AllKeys(rows, owner, ids) && RowsOf(rows, ids, owner)
    ensures Keys(rows, ids)
    ensures Stored(rows, ids, favorites, v) == Wanted(items, favorites, v) + Stored(before, unread, favorites, v)
  {
    hide Stored, Counted, Left, Wanted, Holds;
    assert Stored(before, kept, favorites, v) + Left(items, flag, |items|, favorites, v) == Wanted(items, favorites, v);
    hide Balanced;
    var all := kept + unread;
    AllTogether(rows, before, owner, all, more, rest, ids, favorites);
    StoredSame(rows, before, all, favorites, v);
    StoredConcat(before, kept, unread, favorites, v);
    StoredAdded(rows, all, more, rest, favorites, v);
    StoredAnyOrder(rows, ids, all + more, favorites, v);
  }

  lemma AllTogether(rows: map<int, Row>, before: map<int, Row>, owner: int, kept: seq<int>, more: seq<int>,
                    rest: seq<Slots>, ids: seq<int>, favorites: bool)
    requires AllKeys(before, owner, kept) && Keys(before, kept) && NoRepeats(kept) && NoRepeats(more)
    requires forall i | 0 <= i < |kept| :: before[kept[i]].owner == owner
    requires Grown(rows, before, owner, more, rest, favorites)
    requires NoRepeats(ids) && AllKeys(rows, owner, ids)
    requires forall i | 0 <= i < |ids| :: ids[i] in rows && rows[ids[i]].owner == owner
    ensures Keys(rows, kept) && Keys(rows, more) && Keys(rows, kept + more) && SameKeys(ids, kept + more)
    ensures forall i | 0 <= i < |kept| :: rows[kept[i]] == before[kept[i]]
  {
    var all := kept + more;
    forall i | 0 <= i < |kept| ensures kept[i] in rows && rows[kept[i]] == before[kept[i]] && kept[i] !in more {
      assert kept[i] in before;
    }
    forall i | 0 <= i < |ids| ensures ids[i] in all {
      if ids[i] in before {
        assert Owned(before, owner, ids[i]);
        var j :| 0 <= j < |kept| && kept[j] == ids[i];
        assert all[j] == ids[i];
      } else {
        var j :| 0 <= j < |more| && more[j] == ids[i];
        assert all[|kept| + j] == ids[i];
      }
    }
    forall i | 0 <= i < |all| ensures all[i] in ids {
      assert Owned(rows, owner, all[i]);
    }
    forall i, j | 0 <= i < j < |all| ensures all[i] != all[j] {
      if i < |kept| <= j { assert all[j] in more; }
    }
  }

  // Rows have been added for an owner, and nothing else has changed.
  ghost predicate Grown(rows: map<int, Row>, before: map<int, Row>, owner: int, more: seq<int>, items: seq<Slots>,
                        favorites: bool)
  {
    && |more| == |items|
    && (forall k | k in rows :: k in before || k in more)
    && (forall k | k in before :: k in rows && k !in more && rows[k] == before[k])
    && (forall i | 0 <= i < |more| :: more[i] in rows && rows[more[i]] == Row(owner, Inserted(items[i], favorites)))
  }

  ghost predicate OthersUntouched(rows: map<int, Row>, before: map<int, Row>, owner: int)
  {
    && (forall k | k in before && before[k].owner != owner :: k in rows && rows[k] == before[k])
    && (forall k | k in rows && rows[k].owner != owner :: k in before)
  }

  // The rows of the owner hold the items in memory and what the unread rows held before, however
  // they are listed.
  ghost predicate InLineBut(table: Table, items: seq<Slots>, owner: int, favorites: bool, before: map<int, Row>,
                            unread: seq<int>)
    requires Keys(before, unread)
    reads table
  {
    forall ids, v: Slots | table.Enumerates(ids, owner) ::
      Stored(table.rows, ids, favorites, v) == Wanted(items, favorites, v) + Stored(before, unread, favorites, v)
  }

  // The rows of the owner hold exactly the items in memory, however they are listed.
  ghost predicate InLine(table: Table, items: seq<Slots>, owner: int, favorites: bool)
    reads table
  {
    forall ids, v: Slots | table.Enumerates(ids, owner) ::
      Stored(table.rows, ids, favorites, v) == Wanted(items, favorites, v)
  }

  // They hold just the items exactly if every row has been read.
  lemma InLineIfAllRead(table: Table, items: seq<Slots>, owner: int, favorites: bool, before: map<int, Row>,
                        unread: seq<int>, ids: seq<int>)
    requires Keys(before, unread) && InLineBut(table, items, owner, favorites, before, unread)
    requires table.Enumerates(ids, owner)
    ensures InLine(table, items, owner, favorites) <==> unread == []
  {
    hide Stored, Wanted, Holds, Columns;
    if unread == [] {
      forall es, v: Slots | table.Enumerates(es, owner)
        ensures Stored(table.rows, es, favorites, v) == Wanted(items, favorites, v)
      {
        StoredNone(before, favorites, v);
      }
    } else {
      var n := |unread| - 1;
      var v := Columns(before[unread[n]].item, favorites);
      LastHolds(before, unread, favorites);
      assert Stored(table.rows, ids, favorites, v) == Wanted(items, favorites, v) + Stored(before, unread, favorites, v);
    }
  }

  // Owner 1 has one row and no items in memory, no statement fails, but the row cannot be fetched:
  // a save counts no error, and the row is still there.
  lemma FailedFetchGoesUnnoticed(table: Table)
    requires table.rows == map[0 := Row(1, Item(501, 1, 0, 1, 0, 0, 0, 0, 0, [0, 0, 0, 0], 0))] && table.missed > 0
    ensures Saved(table, [], 1, false, 0, [0], table.rows, table.log, table.faults, table.missed - 1)
    ensures !InLine(table, [], 1, false)
  {
    assert table.Enumerates([0], 1) by {
      assert forall k: int | Owned(table.rows, 1, k) :: k == [0][0];
    }
    forall ids, v: Slots | table.Enumerates(ids, 1)
      ensures Stored(table.rows, ids, false, v) == Wanted([], false, v) + Stored(table.rows, [0], false, v)
    {
      assert forall k: int | Owned(table.rows, 1, k) :: k in ids && k in [0];
      StoredAnyOrder(table.rows, ids, [0], false, v);
    }
    InLineIfAllRead(table, [], 1, false, table.rows, [0], [0]);
    hide InLine, InLineBut;
    assert RowsOf(table.rows, [], 1) && OnceThenInsert(table.log, |table.log|, []);
  }

  lemma LastHolds(rows: map<int, Row>, ids: seq<int>, favorites: bool)
    requires Keys(rows, ids) && ids != []
    ensures Stored(rows, ids, favorites, Columns(rows[ids[|ids| - 1]].item, favorites)) > 0
  {
    hide Columns;
  }

  // The rows matched so far: none of them, with every item still to place.
  lemma NothingMatched(rows: map<int, Row>, items: seq<Slots>, flag: seq<bool>, favorites: bool)
    requires flag == seq(|items|, _ => false)
    ensures Balanced(rows, [], items, flag, favorites)
  {
  }

  // The items no row stood for are inserted with one statement; n rows have been read.
  method InsertRest(table: Table, items: seq<Slots>, flag: array<bool>, owner: int, favorites: bool, errors: nat,
                    ghost before: map<int, Row>, ghost ids: seq<int>, ghost n: nat, ghost kept: seq<int>)
    returns (total: nat)
    requires table.Valid() && flag.Length == |items| && AllKeys(before, owner, ids) && Keys(table.rows, kept)
    requires forall k: int | k in before :: k < table.nextId
    requires n <= |ids| && RowsOf(before, ids, owner) && Progress(table.rows, before, owner, ids, n, kept)
    requires errors == 0 ==> Balanced(table.rows, kept, items, flag[..], favorites)
    modifies table`rows, table`nextId, table`log, table`faults
    ensures total == errors + table.faults - old(table.faults)
    ensures table.log == old(table.log) || exists more :: table.log == old(table.log) + [Insert(more)]
    ensures table.Valid() && OthersUntouched(table.rows, before, owner)
    ensures Keeps(table.rows, before) && Keys(before, ids[n..])
    ensures total == 0 ==> InLineBut(table, items, owner, favorites, before, ids[n..])
  {
    total := errors;
    ghost var was, f, unread := table.rows, flag[..], ids[n..];
    KeptAreAll(was, before, owner, ids, n, kept);
    OthersKept(was, before, owner, ids, n, kept);
    assert Keeps(was, before);
    hide Progress, Balanced, AllKeys, Keys;
    var rest := Unmatched(items, flag, favorites);
    ghost var more: seq<int> := [];
    if rest != [] {
      var ok;
      ok, more := table.Add(owner, rest, favorites);
      if !ok {
        total := total + 1;
      }
    }
    assert Keeps(table.rows, before) by {
      forall k: int | k in table.rows && k in before
        ensures table.rows[k].owner == before[k].owner && table.rows[k].item.uniqueId == before[k].item.uniqueId
      {
        assert forall i | 0 <= i < |more| :: more[i] != k;
      }
    }
    AreKeys(before, was, ids, n, kept, owner);
    if total == 0 {
      assert Grown(table.rows, was, owner, more, rest, favorites);
      forall es, v: Slots | table.Enumerates(es, owner)
        ensures Stored(table.rows, es, favorites, v) == Wanted(items, favorites, v) + Stored(before, unread, favorites, v)
      {
        Completed(table.rows, was, owner, kept, unread, more, rest, items, f, favorites, es, v);
        StoredSame(was, before, unread, favorites, v);
      }
    }
  }

  lemma AreKeys(before: map<int, Row>, was: map<int, Row>, ids: seq<int>, n: nat, kept: seq<int>, owner: int)
    requires n <= |ids| && RowsOf(before, ids, owner) && RowsOf(was, kept, owner) && RowsOf(was, ids[n..], owner)
    requires forall i | n <= i < |ids| :: SameRow(was, before, ids[i])
    ensures Keys(before, ids[n..]) && Keys(was, ids[n..]) && Keys(was, kept)
    ensures forall i | 0 <= i < |ids[n..]| :: was[ids[n..][i]] == before[ids[n..][i]]
  {
    var unread := ids[n..];
    forall i | 0 <= i < |unread| ensures unread[i] in before && unread[i] in was && was[unread[i]] == before[unread[i]] {
      assert unread[i] == ids[n + i];
      assert SameRow(was, before, ids[n + i]);
    }
  }

  // The keys of some of the owner's rows.
  ghost predicate RowsOf(rows: map<int, Row>, ids: seq<int>, owner: int)
  {
    forall i | 0 <= i < |ids| :: ids[i] in rows && rows[ids[i]].owner == owner
  }

  // The statements since then change or delete rows of the owner, none twice, and insert once at
  // the end if at all.
  ghost predicate TouchedOnce(log: seq<Statement>, was: seq<Statement>, rows: map<int, Row>, owner: int)
  {
    was <= log && exists ids :: RowsOf(rows, ids, owner) && OnceThenInsert(log, |was|, ids)
  }

  // What a save has done since the table had the given rows, statements, faults and failed
  // fetches. The errors are the statements that failed. If none did, the rows of the owner are in
  // line with the items in memory, but for rows that could not be fetched: the errors do not count
  // those.
  ghost predicate Saved(table: Table, items: seq<Slots>, owner: int, favorites: bool, errors: nat, unread: seq<int>,
                        rows: map<int, Row>, log: seq<Statement>, faults: nat, missed: nat)
    reads table
  {
    && OthersUntouched(table.rows, rows, owner) && Keeps(table.rows, rows) && TouchedOnce(table.log, log, rows, owner)
    && errors == table.faults - faults
    && Keys(rows, unread) && RowsOf(rows, unread, owner) && (unread == [] <==> table.missed == missed)
    && (errors == 0 ==> InLineBut(table, items, owner, favorites, rows, unread))
    && (errors == 0 ==> (InLine(table, items, owner, favorites) <==> unread == []))
  }

  // Both savers.
  method SaveRows(table: Table, items: seq<Slots>, owner: int, favorites: bool) returns (errors: nat, ghost unread: seq<int>)
    requires table.Valid()
    modifies table
    ensures table.Valid()
    ensures Saved(table, items, owner, favorites, errors, unread,
                  old(table.rows), old(table.log), old(table.faults), old(table.missed))
  {
    var ok, ids := table.Select(owner);
    assert ok ==> RowsOf(old(table.rows), ids, owner);
    if !ok {
      assert RowsOf(old(table.rows), [], owner) && OnceThenInsert(table.log, |old(table.log)|, []);
      return 1, [];
    }
    ghost var before, start := table.rows, |table.log|;
    var flag := new bool[|items|](_ => false);
    var n;
    ghost var kept;
    errors, n, kept := MatchRows(table, items, flag, owner, favorites, ids);
    ghost var log := table.log;
    errors := InsertRest(table, items, flag, owner, favorites, errors, before, ids, n, kept);
    unread := ids[n..];
    hide Progress, Balanced, Once, InLine, InLineBut;
    TouchedSoFar(table.log, log, old(table.log), before, owner, ids, n);
    assert RowsOf(before, unread, owner);
    if errors == 0 {
      ghost var all := Enumeration(table, owner);
      InLineIfAllRead(table, items, owner, favorites, before, unread, all);
    }
  }

  lemma TouchedSoFar(log: seq<Statement>, matched: seq<Statement>, was: seq<Statement>, rows: map<int, Row>, owner: int,
                     ids: seq<int>, n: nat)
    requires n <= |ids| && RowsOf(rows, ids, owner) && was <= matched && Once(matched, |was|, ids[..n])
    requires log == matched || exists more :: log == matched + [Insert(more)]
    ensures TouchedOnce(log, was, rows, owner)
  {
    hide Once;
    assert RowsOf(rows, ids[..n], owner);
    assert log != matched ==> log[..|log| - 1] == matched;
    assert OnceThenInsert(log, |was|, ids[..n]);
  }

  // The loop over the rows, which ends early if one cannot be fetched.
  method MatchRows(table: Table, items: seq<Slots>, flag: array<bool>, ghost owner: int, favorites: bool, ids: seq<int>)
    returns (errors: nat, n: nat, ghost kept: seq<int>)
    requires table.Valid() && table.Enumerates(ids, owner) && flag.Length == |items|
    requires forall i | 0 <= i < |items| :: !flag[i]
    modifies table`rows, table`log, table`faults, table`missed, flag
    ensures errors == table.faults - old(table.faults) && (n == |ids| <==> table.missed == old(table.missed))
    ensures table.Valid() && n <= |ids| && Progress(table.rows, old(table.rows), owner, ids, n, kept)
    ensures Keys(table.rows, kept) && (errors == 0 ==> Balanced(table.rows, kept, items, flag[..], favorites))
    ensures old(table.log) <= table.log && Once(table.log, |old(table.log)|, ids[..n])
  {
    ghost var before, start := table.rows, |table.log|;
    errors, n, kept := 0, 0, [];
    ProgressStarts(table, owner, ids);
    NothingMatched(table.rows, items, flag[..], favorites);
    assert forall i, j | 0 <= i < j < |ids| :: ids[i] != ids[j];
    hide Progress, Balanced, Handled, SameBut, Once, Keys;
    NothingYet(table.log, ids);
    while n < |ids|
      invariant 0 <= n <= |ids| && table.Valid()
      invariant errors == table.faults - old(table.faults) && table.missed == old(table.missed)
      invariant Progress(table.rows, before, owner, ids, n, kept) && Keys(table.rows, kept)
      invariant errors == 0 ==> Balanced(table.rows, kept, items, flag[..], favorites)
      invariant old(table.log) <= table.log && Once(table.log, start, ids[..n])
    {
      var fetched := table.Fetch();
      if !fetched { break; }
      ghost var log := table.log;
      errors, kept := HandleNext(table, items, flag, owner, favorites, ids, n, errors, before, kept);
      if table.log == log {
        OnceMore(log, start, ids, n);
      } else {
        OnceStep(log, start, ids, n, table.log[|log|]);
      }
      n := n + 1;
    }
  }

  lemma NothingYet(log: seq<Statement>, ids: seq<int>)
    ensures Once(log, |log|, ids[..0])
  {
  }

  // There is a list of the owner's keys.
  lemma Enumeration(table: Table, owner: int) returns (ids: seq<int>)
    ensures table.Enumerates(ids, owner)
  {
    var keys := set k | k in table.rows && table.rows[k].owner == owner;
    ids := Listing(keys);
    forall i | 0 <= i < |ids| ensures ids[i] in table.rows && table.rows[ids[i]].owner == owner {
      assert ids[i] in keys;
    }
    forall k: int | Owned(table.rows, owner, k) ensures k in ids {
      assert k in keys;
    }
  }

  lemma {:induction false} Listing(keys: set<int>) returns (ids: seq<int>)
    ensures NoRepeats(ids) && (forall i | 0 <= i < |ids| :: ids[i] in keys) && forall k: int | k in keys :: k in ids
    decreases keys
  {
    ids := [];
    if k: int :| k in keys {
      var rest := Listing(keys - {k});
      ids := rest + [k];
      assert ids[|rest|] == k;
      forall j: int | j in keys ensures j in ids {
        assert j == k || j in keys - {k};
      }
    }
  }

  method HandleNext(table: Table, items: seq<Slots>, flag: array<bool>, ghost owner: int, favorites: bool, ids: seq<int>, n: nat,
                    errors: nat, ghost before: map<int, Row>, ghost kept: seq<int>)
    returns (total: nat, ghost keeps: seq<int>)
    requires n < |ids| && table.Valid() && flag.Length == |items| && Keys(table.rows, kept)
    requires Progress(table.rows, before, owner, ids, n, kept)
    requires errors == 0 ==> Balanced(table.rows, kept, items, flag[..], favorites)
    modifies table`rows, table`log, table`faults, flag
    ensures table.Valid() && Keys(table.rows, keeps) && Progress(table.rows, before, owner, ids, n + 1, keeps)
    ensures total == 0 ==> Balanced(table.rows, keeps, items, flag[..], favorites)
    ensures total == errors + table.faults - old(table.faults)
    ensures table.log == old(table.log) || table.log == old(table.log) + [Update(ids[n])]
                                        || table.log == old(table.log) + [Delete(ids[n])]
  {
    hide Balanced, SameBut;
    ghost var rows, flagBefore := table.rows, flag[..];
    assert ids[n] in table.rows;
    var e, i := HandleRow(table, items, flag, ids[n], favorites);
    ProgressStep(table.rows, rows, before, owner, ids, n, kept);
    hide Progress;
    if errors == 0 && e == 0 {
      HandledBalances(table.rows, rows, ids[n], kept, items, flag[..], flagBefore, i, favorites);
    }
    keeps := if ids[n] in table.rows then kept + [ids[n]] else kept;
    ProgressKeys(table.rows, before, owner, ids, n + 1, keeps);
    total := errors + e;
  }

  lemma ProgressKeys(rows: map<int, Row>, before: map<int, Row>, owner: int, ids: seq<int>, n: nat, kept: seq<int>)
    requires n <= |ids| && Progress(rows, before, owner, ids, n, kept)
    ensures Keys(rows, kept)
  {
  }

  // ---------- The two entry points ----------

  datatype TableSwitch = TableInventory | TableCart | TableStorage | TableGuildStorage | OtherTable

  class Database {
    const inventory: Table
    const cart: Table
    const storage: Table
    const guildStorage: Table

    constructor (inventory: Table, cart: Table, storage: Table, guildStorage: Table)
      ensures this.inventory == inventory && this.cart == cart
      ensures this.storage == storage && this.guildStorage == guildStorage
    {
      this.inventory, this.cart, this.storage, this.guildStorage := inventory, cart, storage, guildStorage;
    }

    function Of(t: TableSwitch): Table?
    {
      match t
      case TableInventory => inventory
      case TableCart => cart
      case TableStorage => storage
      case TableGuildStorage => guildStorage
      case OtherTable => null
    }

    // char_memitemdata_to_sql, which leaves the column `favorite` alone.
    method MemItemDataToSql(items: seq<Slots>, id: int, t: TableSwitch) returns (errors: nat, ghost unread: seq<int>)
      requires Of(t) != null ==> Of(t).Valid()
      modifies Of(t)
      ensures Of(t) == null ==> errors > 0
      ensures Of(t) != null ==>
                && Of(t).Valid()
                && Saved(Of(t), items, id, false, errors, unread,
                         old(Of(t).rows), old(Of(t).log), old(Of(t).faults), old(Of(t).missed))
    {
      var table := Of(t);
      if table == null {
        return 1, [];
      }
      errors, unread := SaveRows(table, items, id, false);
    }

    // char_inventory_to_sql.
    method InventoryToSql(items: seq<Slots>, id: int) returns (errors: nat, ghost unread: seq<int>)
      requires inventory.Valid()
      modifies inventory
      ensures inventory.Valid()
      ensures Saved(inventory, items, id, true, errors, unread,
                    old(inventory.rows), old(inventory.log), old(inventory.faults), old(inventory.missed))
    {
      errors, unread := SaveRows(inventory, items, id, true);
    }
  }
}
