/** Saving a character's quests (int_quest.c): the stored quests are read into an array, which is
    compacted in place as they are matched with the quests to be saved. */
module QuestSync {
  datatype Quest = Quest(id: int, time: nat, count: seq<int>, state: int)

  // The primary key of the table.
  datatype Key = Key(who: int, quest: int)

  // ---------- The table ----------

  // Statements may fail at any time; an insertion also fails if the key is taken.
  class Table {
    var rows: map<Key, Quest>
    // How many statements that write have failed, and how many queries and fetches.
    ghost var faults: nat
    ghost var missed: nat

    ghost predicate Valid() reads this { forall k | k in rows :: rows[k].id == k.quest }

    // Whether a query, or the fetch of a row of its result, succeeds.
    method Read() returns (ok: bool)
      modifies `missed
      ensures missed == old(missed) + if ok then 0 else 1
    {
      ok := *;
      if !ok {
        missed := missed + 1;
      }
    }

    // mapif_quest_update: the time is not written.
    method Update(who: int, q: Quest) returns (ok: bool)
      requires Valid()
      modifies `rows, `faults
      ensures Valid() && ok == (faults == old(faults)) && faults >= old(faults)
      ensures rows == if ok && Key(who, q.id) in old(rows)
                      then old(rows)[Key(who, q.id) := q.(time := old(rows)[Key(who, q.id)].time)] else old(rows)
    {
      ok := *;
      if !ok {
        faults := faults + 1;
      } else if Key(who, q.id) in rows {
        rows := rows[Key(who, q.id) := q.(time := rows[Key(who, q.id)].time)];
      }
    }

    // mapif_quest_add.
    method Add(who: int, q: Quest) returns (ok: bool)
      requires Valid()
      modifies `rows, `faults
      ensures Valid() && ok == (faults == old(faults) && Key(who, q.id) !in old(rows)) && faults >= old(faults)
      ensures rows == if ok then old(rows)[Key(who, q.id) := q] else old(rows)
    {
      ok := *;
      if !ok {
        faults := faults + 1;
      } else if Key(who, q.id) in rows {
        ok := false;
      } else {
        rows := rows[Key(who, q.id) := q];
      }
    }

    // mapif_quest_delete.
    method Delete(who: int, id: int) returns (ok: bool)
      requires Valid()
      modifies `rows, `faults
      ensures Valid() && ok == (faults == old(faults)) && faults >= old(faults)
      ensures rows == if ok then old(rows) - {Key(who, id)} else old(rows)
    {
      ok := *;
      if !ok {
        faults := faults + 1;
      } else {
        rows := rows - {Key(who, id)};
      }
    }
  }

  // ---------- What a save has to bring about ----------

  // Quest id is among the first n.
  predicate Among(qs: seq<Quest>, n: nat, id: int)
    requires n <= |qs|
  {
    exists m :: 0 <= m < n && qs[m].id == id
  }

  ghost predicate DistinctIds(qs: seq<Quest>, n: nat)
    requires n <= |qs|
  {
    forall i, j | 0 <= i < j < n :: qs[i].id != qs[j].id
  }

  // A submitted quest as it should be stored: an old quest keeps its time.
  function Merged(before: map<Key, Quest>, who: int, q: Quest): Quest
  {
    if Key(who, q.id) in before then q.(time := before[Key(who, q.id)].time) else q
  }

  predicate SameRow(a: map<Key, Quest>, b: map<Key, Quest>, k: Key)
  {
    (k in a <==> k in b) && (k in a && k in b ==> a[k] == b[k])
  }

  // The first n quests are stored, all other rows are as before.
  ghost predicate StoredUpTo(rows: map<Key, Quest>, before: map<Key, Quest>, who: int, qs: seq<Quest>, n: nat)
    requires n <= |qs|
  {
    && (forall m | 0 <= m < n :: Key(who, qs[m].id) in rows && rows[Key(who, qs[m].id)] == Merged(before, who, qs[m]))
    && (forall k: Key | k.who != who || !Among(qs, n, k.quest) :: SameRow(rows, before, k))
  }

  // The rows of other characters are untouched.
  ghost predicate OthersSame(rows: map<Key, Quest>, before: map<Key, Quest>, who: int)
  {
    forall k: Key | k.who != who :: SameRow(rows, before, k)
  }

  // None of the first n quests is stored without having been read.
  ghost predicate NoneUnread(unread: set<Key>, who: int, qs: seq<Quest>, n: nat)
    requires n <= |qs|
  {
    forall m | 0 <= m < n :: Key(who, qs[m].id) !in unread
  }

  // The submitted quests are stored, and besides them there are just the rows that were not read.
  ghost predicate SavedBut(rows: map<Key, Quest>, before: map<Key, Quest>, who: int, qs: seq<Quest>, unread: set<Key>)
  {
    && (forall m | 0 <= m < |qs| :: Key(who, qs[m].id) in rows && rows[Key(who, qs[m].id)] == Merged(before, who, qs[m]))
    && (forall id: int | Key(who, id) in rows :: Among(qs, |qs|, id) || Key(who, id) in unread)
    && (forall k | k in unread :: k in rows && SameRow(rows, before, k))
  }

  // The character's rows are exactly the submitted quests.
  ghost predicate Saved(rows: map<Key, Quest>, before: map<Key, Quest>, who: int, qs: seq<Quest>)
  {
    && (forall m | 0 <= m < |qs| :: Key(who, qs[m].id) in rows && rows[Key(who, qs[m].id)] == Merged(before, who, qs[m]))
    && (forall id: int | Key(who, id) in rows :: Among(qs, |qs|, id))
  }

  // The quests still in the array: those read from before that have not been submitted so far.
  ghost predicate Remaining(log: seq<Quest>, before: map<Key, Quest>, who: int, qs: seq<Quest>, n: nat)
    requires n <= |qs|
  {
    && (forall i, j | 0 <= i < j < |log| :: log[i].id != log[j].id)
    && (forall i | 0 <= i < |log| :: Key(who, log[i].id) in before && before[Key(who, log[i].id)] == log[i]
                                     && !Among(qs, n, log[i].id))
    && (forall id: int | Key(who, id) in before && !Among(qs, n, id) :: exists i :: 0 <= i < |log| && log[i].id == id)
  }

  lemma AmongNext(qs: seq<Quest>, n: nat, id: int)
    requires n < |qs|
    ensures Among(qs, n + 1, id) <==> Among(qs, n, id) || qs[n].id == id
  {
    if qs[n].id == id { assert qs[n].id == id; }
  }

  // A quest that is among the old ones leaves the array.
  lemma Matched(log: seq<Quest>, j: nat, before: map<Key, Quest>, who: int, qs: seq<Quest>, n: nat)
    requires n < |qs| && j < |log| && log[j].id == qs[n].id && Remaining(log, before, who, qs, n)
    ensures Remaining(log[..j] + log[j + 1..], before, who, qs, n + 1)
    ensures !Among(qs, n, qs[n].id)
  {
    var rest := log[..j] + log[j + 1..];
    forall i | 0 <= i < |rest| ensures !Among(qs, n + 1, rest[i].id) {
      AmongNext(qs, n, rest[i].id);
      assert rest[i] == log[if i < j then i else i + 1];
    }
    forall id: int | Key(who, id) in before && !Among(qs, n + 1, id) ensures exists i :: 0 <= i < |rest| && rest[i].id == id {
      AmongNext(qs, n, id);
      StaysListed(log, j, id);
    }
    WithoutOne(log, j);
    hide Among;
  }

  lemma StaysListed(log: seq<Quest>, j: nat, id: int)
    requires j < |log| && id != log[j].id && exists i :: 0 <= i < |log| && log[i].id == id
    ensures var rest := log[..j] + log[j + 1..]; exists i :: 0 <= i < |rest| && rest[i].id == id
  {
    var i :| 0 <= i < |log| && log[i].id == id;
    assert (log[..j] + log[j + 1..])[if i < j then i else i - 1].id == id;
  }

  lemma WithoutOne(log: seq<Quest>, j: nat)
    requires j < |log| && forall i, k | 0 <= i < k < |log| :: log[i].id != log[k].id
    ensures var rest := log[..j] + log[j + 1..]; forall i, k | 0 <= i < k < |rest| :: rest[i].id != rest[k].id
  {
  }

  // A quest that is not among them leaves it as it is.
  lemma Unmatched(log: seq<Quest>, before: map<Key, Quest>, who: int, qs: seq<Quest>, n: nat)
    requires n < |qs| && Remaining(log, before, who, qs, n) && forall i | 0 <= i < |log| :: log[i].id != qs[n].id
    ensures Remaining(log, before, who, qs, n + 1)
    ensures Key(who, qs[n].id) in before ==> Among(qs, n, qs[n].id)
  {
    forall i | 0 <= i < |log| ensures !Among(qs, n + 1, log[i].id) { AmongNext(qs, n, log[i].id); }
    forall id: int | Key(who, id) in before && !Among(qs, n + 1, id) ensures exists i :: 0 <= i < |log| && log[i].id == id {
      AmongNext(qs, n, id);
    }
  }

  // One more quest is stored.
  lemma StoredNext(now: map<Key, Quest>, rows: map<Key, Quest>, before: map<Key, Quest>, who: int, qs: seq<Quest>, n: nat)
    requires n < |qs| && StoredUpTo(rows, before, who, qs, n) && !Among(qs, n, qs[n].id)
    requires now == rows[Key(who, qs[n].id) := Merged(before, who, qs[n])]
    ensures StoredUpTo(now, before, who, qs, n + 1)
  {
    forall k: Key | k.who != who || !Among(qs, n + 1, k.quest) ensures SameRow(now, before, k) {
      AmongNext(qs, n, k.quest);
      assert k.who != who || !Among(qs, n, k.quest);
      assert SameRow(rows, before, k);
      assert k != Key(who, qs[n].id);
    }
    forall m | 0 <= m < n + 1
      ensures Key(who, qs[m].id) in now && now[Key(who, qs[m].id)] == Merged(before, who, qs[m])
    {
      if m < n { assert qs[m].id != qs[n].id; }
    }
  }

  // ---------- Saving ----------

  // The character's quests, each once.
  ghost predicate Lists(ids: seq<int>, rows: map<Key, Quest>, who: int)
  {
    && (forall i, j | 0 <= i < j < |ids| :: ids[i] != ids[j])
    && (forall i | 0 <= i < |ids| :: Key(who, ids[i]) in rows)
    && (forall id: int | Key(who, id) in rows :: exists i :: 0 <= i < |ids| && ids[i] == id)
  }

  // The rows from number n on.
  ghost function From(ids: seq<int>, who: int, n: nat): set<Key>
    requires n <= |ids|
  {
    set i | n <= i < |ids| :: Key(who, ids[i])
  }

  // mapif_quests_fromsql: ids are the quests in the order of the result. The query may fail, and
  // so may fetching any of the rows; the array then ends early.
  method FromSql(table: Table, who: int, ids: seq<int>) returns (log: array<Quest>)
    requires table.Valid() && Lists(ids, table.rows, who)
    modifies table`missed
    ensures fresh(log) && log.Length <= |ids| && (table.missed == old(table.missed) ==> log.Length == |ids|)
    ensures log.Length < |ids| ==> table.missed > old(table.missed)
    ensures Remaining(log[..], table.rows - From(ids, who, log.Length), who, [], 0)
  {
    var selected := table.Read();
    if !selected || ids == [] {
      log := new Quest[0];
    } else {
      var first := table.rows[Key(who, ids[0])];
      log := new Quest[|ids|](_ => first);
      var i := 0;
      while i < |ids|
        invariant 0 <= i <= |ids| && fresh(log) && log.Length == |ids|
        invariant forall k | 0 <= k < i :: log[k] == table.rows[Key(who, ids[k])]
        invariant table.missed == old(table.missed)
      {
        var fetched := table.Read();
        if !fetched { break; }
        log[i] := table.rows[Key(who, ids[i])];
        i := i + 1;
      }
      if i < |ids| {
        var part := log;
        log := new Quest[i](k requires 0 <= k < i reads part => part[k]);
      }
    }
    ReadSoFar(log[..], table.rows, who, ids);
  }

  lemma ReadSoFar(log: seq<Quest>, rows: map<Key, Quest>, who: int, ids: seq<int>)
    requires (forall k | k in rows :: rows[k].id == k.quest) && Lists(ids, rows, who) && |log| <= |ids|
    requires forall i | 0 <= i < |log| :: log[i] == rows[Key(who, ids[i])]
    ensures Remaining(log, rows - From(ids, who, |log|), who, [], 0)
  {
    var seen := rows - From(ids, who, |log|);
    forall i | 0 <= i < |log| ensures Key(who, log[i].id) in seen { assert log[i].id == ids[i]; }
    forall id: int | Key(who, id) in seen ensures exists i :: 0 <= i < |log| && log[i].id == id {
      var i :| 0 <= i < |ids| && ids[i] == id;
      assert i < |log| && log[i].id == id;
    }
  }

  // The first of n quests with the given number, or n.
  method FindQuest(log: array<Quest>, n: nat, id: int) returns (j: nat)
    requires n <= log.Length
    ensures j <= n && (j < n ==> log[j].id == id) && forall i | 0 <= i < j :: log[i].id != id
  {
    j := 0;
    while j < n && log[j].id != id
      invariant j <= n && forall i | 0 <= i < j :: log[i].id != id
    {
      j := j + 1;
    }
  }

  // memmove: quest j goes, the others move up.
  method Compact(log: array<Quest>, j: nat, n: nat)
    requires j <= n < log.Length
    modifies log
    ensures log[..n] == old(log[..j]) + old(log[j + 1..n + 1])
  {
    var k := j;
    while k < n
      invariant j <= k <= n
      invariant forall i | 0 <= i < log.Length :: log[i] == if j <= i < k then old(log[i + 1]) else old(log[i])
    {
      log[k] := log[k + 1];
      k := k + 1;
    }
  }

  // A submitted quest that is stored already, at place j of the array.
  method SaveOld(table: Table, who: int, log: array<Quest>, j: nat, q: Quest) returns (ok: bool)
    requires table.Valid() && j < log.Length && log[j].id == q.id
    modifies table`rows, table`faults
    ensures table.Valid() && ok == (table.faults == old(table.faults)) && table.faults >= old(table.faults)
    ensures OthersSame(table.rows, old(table.rows), who)
    ensures ok && Key(who, q.id) in old(table.rows) && old(table.rows)[Key(who, q.id)] == log[j] ==>
              table.rows == old(table.rows)[Key(who, q.id) := q.(time := log[j].time)]
  {
    ok := true;
    if q.count != log[j].count || q.state != log[j].state {
      ok := table.Update(who, q);
    }
  }

  // What an answer of success stands for after n quests.
  ghost predicate Fine(table: Table, faults: nat, unread: set<Key>, who: int, qs: seq<Quest>, n: nat)
    requires n <= |qs|
    reads table
  {
    table.faults == faults && DistinctIds(qs, n) && NoneUnread(unread, who, qs, n)
  }

  // One submitted quest; n quests are left in the array.
  method SaveOne(table: Table, who: int, log: array<Quest>, n: nat, qs: seq<Quest>, i: nat, success: bool,
                 ghost before: map<Key, Quest>, ghost unread: set<Key>, ghost faults: nat)
    returns (left: nat, ok: bool)
    requires table.Valid() && n <= log.Length && i < |qs| && table.faults >= faults && unread <= before.Keys
    requires Remaining(log[..n], before - unread, who, qs, i) && OthersSame(table.rows, before, who)
    requires success == Fine(table, faults, unread, who, qs, i)
    requires success ==> StoredUpTo(table.rows, before, who, qs, i)
    modifies table`rows, table`faults, log
    ensures table.Valid() && left <= log.Length && table.faults >= faults
    ensures Remaining(log[..left], before - unread, who, qs, i + 1) && OthersSame(table.rows, before, who)
    ensures ok == Fine(table, faults, unread, who, qs, i + 1)
    ensures ok ==> StoredUpTo(table.rows, before, who, qs, i + 1)
  {
    left := n;
    var j := FindQuest(log, n, qs[i].id);
    if j < n {
      left, ok := SaveFound(table, who, log, n, j, qs, i, success, before, unread, faults);
    } else {
      assert forall k | 0 <= k < n :: log[..n][k].id != qs[i].id;
      ok := SaveNew(table, who, log[..n], qs, i, success, before, unread, faults);
    }
  }

  // A quest found at place j of the array, which is compacted.
  method SaveFound(table: Table, who: int, log: array<Quest>, n: nat, j: nat, qs: seq<Quest>, i: nat, success: bool,
                   ghost before: map<Key, Quest>, ghost unread: set<Key>, ghost faults: nat)
    returns (left: nat, ok: bool)
    requires table.Valid() && j < n <= log.Length && i < |qs| && table.faults >= faults && log[j].id == qs[i].id
    requires Remaining(log[..n], before - unread, who, qs, i) && OthersSame(table.rows, before, who)
    requires success == Fine(table, faults, unread, who, qs, i)
    requires success ==> StoredUpTo(table.rows, before, who, qs, i)
    modifies table`rows, table`faults, log
    ensures table.Valid() && left == n - 1 && table.faults >= faults
    ensures Remaining(log[..left], before - unread, who, qs, i + 1) && OthersSame(table.rows, before, who)
    ensures ok == Fine(table, faults, unread, who, qs, i + 1)
    ensures ok ==> StoredUpTo(table.rows, before, who, qs, i + 1)
  {
    ghost var rows, all := table.rows, log[..n];
    assert all[j] == log[j];
    Matched(all, j, before - unread, who, qs, i);
    FineFound(table, faults, unread, who, qs, i);
    hide Remaining, DistinctIds, NoneUnread;
    var done := SaveOld(table, who, log, j, qs[i]);
    ok := success && done;
    left := n - 1;
    if ok { OldStored(table.rows, rows, before, who, qs, i, log[j]); }
    hide StoredUpTo;
    Compact(log, j, left);
    assert log[..left] == all[..j] + all[j + 1..];
  }

  // A quest that is not in the array.
  method SaveNew(table: Table, who: int, ghost log: seq<Quest>, qs: seq<Quest>, i: nat, success: bool,
                 ghost before: map<Key, Quest>, ghost unread: set<Key>, ghost faults: nat) returns (ok: bool)
    requires table.Valid() && i < |qs| && table.faults >= faults && unread <= before.Keys
    requires Remaining(log, before - unread, who, qs, i) && OthersSame(table.rows, before, who)
    requires forall k | 0 <= k < |log| :: log[k].id != qs[i].id
    requires success == Fine(table, faults, unread, who, qs, i)
    requires success ==> StoredUpTo(table.rows, before, who, qs, i)
    modifies table`rows, table`faults
    ensures table.Valid() && table.faults >= faults
    ensures Remaining(log, before - unread, who, qs, i + 1) && OthersSame(table.rows, before, who)
    ensures ok == Fine(table, faults, unread, who, qs, i + 1)
    ensures ok ==> StoredUpTo(table.rows, before, who, qs, i + 1)
  {
    ghost var rows := table.rows;
    Unmatched(log, before - unread, who, qs, i);
    FineNew(unread, who, qs, i);
    hide Remaining, DistinctIds, NoneUnread, Among;
    var done := table.Add(who, qs[i]);
    ok := success && done;
    if success { NewStored(table.rows, rows, before, unread, who, qs, i); }
  }

  lemma FineFound(table: Table, faults: nat, unread: set<Key>, who: int, qs: seq<Quest>, n: nat)
    requires n < |qs| && !Among(qs, n, qs[n].id) && Key(who, qs[n].id) !in unread
    ensures DistinctIds(qs, n + 1) == DistinctIds(qs, n) && NoneUnread(unread, who, qs, n + 1) == NoneUnread(unread, who, qs, n)
  {
  }

  lemma FineNew(unread: set<Key>, who: int, qs: seq<Quest>, n: nat)
    requires n < |qs|
    ensures DistinctIds(qs, n + 1) && NoneUnread(unread, who, qs, n + 1)
       <==> DistinctIds(qs, n) && NoneUnread(unread, who, qs, n) && !Among(qs, n, qs[n].id) && Key(who, qs[n].id) !in unread
  {
  }

  lemma OldStored(now: map<Key, Quest>, rows: map<Key, Quest>, before: map<Key, Quest>, who: int, qs: seq<Quest>,
                  n: nat, was: Quest)
    requires n < |qs| && StoredUpTo(rows, before, who, qs, n) && !Among(qs, n, qs[n].id)
    requires was.id == qs[n].id && Key(who, was.id) in before && before[Key(who, was.id)] == was
    requires Key(who, was.id) in rows && rows[Key(who, was.id)] == was ==> now == rows[Key(who, was.id) := qs[n].(time := was.time)]
    ensures StoredUpTo(now, before, who, qs, n + 1)
  {
    assert SameRow(rows, before, Key(who, was.id));
    StoredNext(now, rows, before, who, qs, n);
  }

  lemma NewStored(now: map<Key, Quest>, rows: map<Key, Quest>, before: map<Key, Quest>, unread: set<Key>, who: int,
                  qs: seq<Quest>, n: nat)
    requires n < |qs| && StoredUpTo(rows, before, who, qs, n) && unread <= before.Keys
    requires Key(who, qs[n].id) in before - unread ==> Among(qs, n, qs[n].id)
    ensures Key(who, qs[n].id) in rows <==> Among(qs, n, qs[n].id) || Key(who, qs[n].id) in unread
    ensures Key(who, qs[n].id) !in rows && now == rows[Key(who, qs[n].id) := qs[n]] ==> StoredUpTo(now, before, who, qs, n + 1)
  {
    var k := Key(who, qs[n].id);
    if !Among(qs, n, qs[n].id) {
      assert SameRow(rows, before, k);
      if k !in rows && now == rows[k := qs[n]] { StoredNext(now, rows, before, who, qs, n); }
    }
  }

  // mapif_parse_quest_save: the answer is 1 exactly if no statement that writes failed, no quest
  // was submitted twice and none that is stored but could not be read. Then the stored quests are
  // the submitted ones and those that could not be read; a read that failed is not noticed.
  method Save(table: Table, who: int, qs: seq<Quest>, ids: seq<int>) returns (success: bool, ghost read: nat)
    requires table.Valid() && Lists(ids, table.rows, who)
    modifies table`rows, table`faults, table`missed
    ensures table.Valid() && OthersSame(table.rows, old(table.rows), who) && read <= |ids|
    ensures success == Fine(table, old(table.faults), From(ids, who, read), who, qs, |qs|)
    ensures success ==> SavedBut(table.rows, old(table.rows), who, qs, From(ids, who, read))
    ensures success ==> (Saved(table.rows, old(table.rows), who, qs) <==> read == |ids|)
    ensures table.missed == old(table.missed) ==> read == |ids|
    ensures read < |ids| ==> table.missed > old(table.missed)
  {
    var log := FromSql(table, who, ids);
    ghost var before, faults, missed := table.rows, table.faults, table.missed;
    var n: nat := log.Length;
    read := n;
    ghost var unread := From(ids, who, n);
    success := true;
    RemainingStarts(log[..], before, unread, who, qs);
    assert log[..n] == log[..];
    hide Remaining, StoredUpTo, DistinctIds, OthersSame, NoneUnread;
    assert unread <= before.Keys;
    var i := 0;
    while i < |qs|
      invariant 0 <= i <= |qs| && n <= log.Length && fresh(log) && table.Valid() && table.faults >= faults
      invariant table.missed == missed
      invariant Remaining(log[..n], before - unread, who, qs, i) && OthersSame(table.rows, before, who)
      invariant success == Fine(table, faults, unread, who, qs, i)
      invariant success ==> StoredUpTo(table.rows, before, who, qs, i)
    {
      n, success := SaveOne(table, who, log, n, qs, i, success, before, unread, faults);
      i := i + 1;
    }
    success := DeleteRest(table, who, log, n, qs, success, before, unread, faults);
    if success { SavedIfAllRead(table.rows, before, who, qs, ids, read); }
  }

  // The save is complete exactly if everything was read.
  lemma SavedIfAllRead(rows: map<Key, Quest>, before: map<Key, Quest>, who: int, qs: seq<Quest>, ids: seq<int>, n: nat)
    requires n <= |ids| && SavedBut(rows, before, who, qs, From(ids, who, n)) && NoneUnread(From(ids, who, n), who, qs, |qs|)
    ensures Saved(rows, before, who, qs) <==> n == |ids|
  {
    var unread := From(ids, who, n);
    if n < |ids| {
      assert Key(who, ids[n]) in unread;
      assert !Among(qs, |qs|, ids[n]);
    }
  }

  // A character has quest 5, the query fails and nothing is submitted: the answer is 1, and quest
  // 5 is still stored.
  lemma FailedReadGoesUnnoticed(table: Table)
    ensures var before := map[Key(1, 5) := Quest(5, 0, [0, 0, 0], 1)];
      && Lists([5], before, 1) && From([5], 1, 0) == {Key(1, 5)}
      && Fine(table, table.faults, From([5], 1, 0), 1, [], 0)
      && SavedBut(before, before, 1, [], From([5], 1, 0)) && !Saved(before, before, 1, [])
  {
    var before := map[Key(1, 5) := Quest(5, 0, [0, 0, 0], 1)];
    assert [5][0] == 5 && Key(1, 5) in From([5], 1, 0);
    assert !Among([], 0, 5);
  }

  lemma RemainingStarts(log: seq<Quest>, before: map<Key, Quest>, unread: set<Key>, who: int, qs: seq<Quest>)
    requires Remaining(log, before - unread, who, [], 0)
    ensures Remaining(log, before - unread, who, qs, 0) && StoredUpTo(before, before, who, qs, 0)
    ensures DistinctIds(qs, 0) && NoneUnread(unread, who, qs, 0) && OthersSame(before, before, who)
  {
  }

  // The first i quests of the array are gone from the table, all other rows are as before.
  predicate Kept(now: map<Key, Quest>, rows: map<Key, Quest>, who: int, log: seq<Quest>, i: nat, k: Key)
    requires i <= |log|
  {
    if k.who == who && Among(log, i, k.quest) then k !in now else SameRow(now, rows, k)
  }

  ghost predicate AllErased(now: map<Key, Quest>, rows: map<Key, Quest>, who: int, log: seq<Quest>, i: nat)
    requires i <= |log|
  {
    forall k: Key :: Kept(now, rows, who, log, i, k)
  }

  lemma ErasedNext(now: map<Key, Quest>, was: map<Key, Quest>, rows: map<Key, Quest>, who: int, log: seq<Quest>, i: nat)
    requires i < |log| && AllErased(was, rows, who, log, i) && now == was - {Key(who, log[i].id)}
    ensures AllErased(now, rows, who, log, i + 1)
  {
    var n := i + 1;
    forall k: Key ensures Kept(now, rows, who, log, n, k) {
      AmongNext(log, i, k.quest);
      assert Kept(was, rows, who, log, i, k);
    }
  }

  // The quests left in the array are erased.
  method DeleteRest(table: Table, who: int, log: array<Quest>, n: nat, qs: seq<Quest>, success: bool,
                    ghost before: map<Key, Quest>, ghost unread: set<Key>, ghost faults: nat) returns (ok: bool)
    requires table.Valid() && n <= log.Length && table.faults >= faults
    requires unread <= before.Keys && forall k | k in unread :: k.who == who
    requires Remaining(log[..n], before - unread, who, qs, |qs|) && OthersSame(table.rows, before, who)
    requires success == Fine(table, faults, unread, who, qs, |qs|)
    requires success ==> StoredUpTo(table.rows, before, who, qs, |qs|)
    modifies table`rows, table`faults
    ensures table.Valid() && OthersSame(table.rows, before, who)
    ensures ok == Fine(table, faults, unread, who, qs, |qs|)
    ensures ok ==> SavedBut(table.rows, before, who, qs, unread)
  {
    ok := success;
    ghost var rows := table.rows;
    var i := 0;
    while i < n
      invariant 0 <= i <= n && table.Valid() && table.faults >= faults && OthersSame(table.rows, before, who)
      invariant ok == Fine(table, faults, unread, who, qs, |qs|)
      invariant ok ==> success && AllErased(table.rows, rows, who, log[..n], i)
    {
      hide Remaining, StoredUpTo, DistinctIds, NoneUnread;
      ghost var now := table.rows;
      var done := table.Delete(who, log[i].id);
      ok := ok && done;
      if ok { ErasedNext(table.rows, now, rows, who, log[..n], i); }
      i := i + 1;
    }
    if ok { Erased(table.rows, rows, before, unread, who, qs, log[..n]); }
  }

  lemma Erased(now: map<Key, Quest>, rows: map<Key, Quest>, before: map<Key, Quest>, unread: set<Key>, who: int,
               qs: seq<Quest>, log: seq<Quest>)
    requires Remaining(log, before - unread, who, qs, |qs|) && StoredUpTo(rows, before, who, qs, |qs|)
    requires NoneUnread(unread, who, qs, |qs|) && AllErased(now, rows, who, log, |log|)
    requires unread <= before.Keys && forall k | k in unread :: k.who == who
    ensures SavedBut(now, before, who, qs, unread)
  {
    forall m | 0 <= m < |qs|
      ensures Key(who, qs[m].id) in now && now[Key(who, qs[m].id)] == Merged(before, who, qs[m])
    {
      assert Among(qs, |qs|, qs[m].id);
      assert !Among(log, |log|, qs[m].id);
      assert Kept(now, rows, who, log, |log|, Key(who, qs[m].id));
    }
    forall id: int | Key(who, id) in now ensures Among(qs, |qs|, id) || Key(who, id) in unread {
      assert Kept(now, rows, who, log, |log|, Key(who, id));
      assert Among(qs, |qs|, id) || SameRow(rows, before, Key(who, id));
    }
    forall k | k in unread ensures k in now && SameRow(now, before, k) {
      UnreadStays(rows, before, unread, who, qs, log, k);
      assert Kept(now, rows, who, log, |log|, k);
    }
  }

  lemma UnreadStays(rows: map<Key, Quest>, before: map<Key, Quest>, unread: set<Key>, who: int, qs: seq<Quest>,
                    log: seq<Quest>, k: Key)
    requires Remaining(log, before - unread, who, qs, |qs|) && StoredUpTo(rows, before, who, qs, |qs|)
    requires NoneUnread(unread, who, qs, |qs|) && k in unread && k in before && k.who == who
    ensures !Among(log, |log|, k.quest) && SameRow(rows, before, k)
  {
    assert !Among(qs, |qs|, k.quest);
    assert SameRow(rows, before, k);
  }
}
