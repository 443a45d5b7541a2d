/** The timer that saves guilds to the database one at a time and unloads those that are no longer
    needed (int_guild.c, guild_save_timer). */
module GuildSaver {
  const GS_MASK: bv16 := 0x03FF
  const GS_REMOVE: bv16 := 0x8000

  datatype Guild = Guild(id: int, flag: bv16)

  // Some part of the guild has not been saved.
  predicate Dirty(flag: bv16) { flag & GS_MASK != 0 }

  function Cleared(flag: bv16): bv16 { flag & !GS_MASK }

  lemma RemovableIsClean()
    ensures !Dirty(GS_REMOVE)
  {
  }

  // ---------- One tick ----------

  // The position after the guild saved last; the beginning if there is none, and the end if that
  // guild is no longer there.
  function Start(gs: seq<Guild>, lastId: int, n: nat): nat
    requires n <= |gs|
    decreases |gs| - n
  {
    if lastId == 0 then 0
    else if n == |gs| then |gs|
    else if gs[n].id == lastId then n + 1
    else Start(gs, lastId, n + 1)
  }

  // The first dirty guild from position n on, or the end.
  function NextDirty(gs: seq<Guild>, n: nat): (t: nat)
    requires n <= |gs|
    ensures n <= t <= |gs|
    ensures t < |gs| ==> Dirty(gs[t].flag)
    ensures forall i | n <= i < t :: !Dirty(gs[i].flag)
    decreases |gs| - n
  {
    if n == |gs| || Dirty(gs[n].flag) then n else NextDirty(gs, n + 1)
  }

  lemma {:induction false} StartInRange(gs: seq<Guild>, lastId: int, n: nat)
    requires n <= |gs|
    ensures Start(gs, lastId, n) <= |gs|
    decreases |gs| - n
  {
    if lastId != 0 && n < |gs| && gs[n].id != lastId { StartInRange(gs, lastId, n + 1); }
  }

  // The guild saved by a tick.
  function Target(gs: seq<Guild>, lastId: int): (t: nat)
    ensures t <= |gs| && (t < |gs| ==> Dirty(gs[t].flag))
  {
    StartInRange(gs, lastId, 0);
    NextDirty(gs, Start(gs, lastId, 0))
  }

  function Saved(gs: seq<Guild>, t: nat): (r: seq<Guild>)
    ensures |r| == |gs|
  {
    if t < |gs| then gs[t := gs[t].(flag := Cleared(gs[t].flag))] else gs
  }

  // The guilds that stay in memory.
  function Kept(gs: seq<Guild>): seq<Guild>
  {
    if gs == [] then []
    else Kept(gs[..|gs| - 1]) + if gs[|gs| - 1].flag == GS_REMOVE then [] else [gs[|gs| - 1]]
  }

  lemma {:induction false} KeptAre(gs: seq<Guild>, g: Guild)
    ensures g in Kept(gs) <==> g in gs && g.flag != GS_REMOVE
    decreases |gs|
  {
    if gs != [] {
      KeptAre(gs[..|gs| - 1], g);
      assert gs == gs[..|gs| - 1] + [gs[|gs| - 1]];
    }
  }

  // A guild leaves memory only without unsaved parts: it was clean before, or was written by
  // this very tick.
  lemma NothingUnsavedIsUnloaded(gs: seq<Guild>, lastId: int, i: nat)
    requires i < |gs|
    ensures Saved(gs, Target(gs, lastId))[i] !in Kept(Saved(gs, Target(gs, lastId))) ==>
              i == Target(gs, lastId) || !Dirty(gs[i].flag)
    ensures Dirty(gs[i].flag) && i != Target(gs, lastId) ==> gs[i] in Kept(Saved(gs, Target(gs, lastId)))
  {
    hide Dirty;
    RemovableIsClean();
    var s := Saved(gs, Target(gs, lastId));
    assert s[i] in s;
    KeptAre(s, s[i]);
  }

  class SaveTimer {
    var guilds: seq<Guild>
    var lastId: int
    // The guilds written so far.
    ghost var written: seq<Guild>

    constructor ()
      ensures guilds == [] && lastId == 0 && written == []
    {
      guilds, lastId := [], 0;
      written := [];
    }

    // inter_guild_tosql.
    method ToSql(g: Guild)
      modifies `written
      ensures written == old(written) + [g]
    {
      written := written + [g];
    }

    // The scan stands at position n: the guilds before it are as they will be, the others as
    // they were.
    ghost predicate Scanned(was: seq<Guild>, last: int, before: seq<Guild>, n: nat, state: int)
      requires n <= |was|
      reads this
    {
      var t := Target(was, last);
      && guilds == Kept(Saved(was, t)[..n]) + was[n..]
      && state == StateAt(was, last, n) && (state == 2 ==> t < |was|)
      && lastId == (if state == 2 then was[t].id else last)
      && written == before + if state == 2 then [was[t]] else []
    }

    // One guild of the scan; k is its place among those that are left.
    method Visit(k: nat, state: int, ghost was: seq<Guild>, ghost last: int, ghost before: seq<Guild>, ghost n: nat)
      returns (k': nat, state': int)
      requires n < |was| && Scanned(was, last, before, n, state) && k == |Kept(Saved(was, Target(was, last))[..n])|
      modifies this
      ensures Scanned(was, last, before, n + 1, state') && k' == |Kept(Saved(was, Target(was, last))[..n + 1])|
    {
      hide Dirty, Cleared, Kept, Start, StateAt, Target;
      ghost var s := Saved(was, Target(was, last));
      Stages(was, last, n);
      KeptNext(s, n);
      k', state' := k, state;
      assert guilds[k] == was[n];
      var g := guilds[k];
      Splice(Kept(s[..n]), was, n, if n == Target(was, last) then g.(flag := Cleared(g.flag)) else g);
      if state == 0 && g.id == lastId {
        state' := state + 1;
      } else if state == 1 && Dirty(g.flag) {
        ToSql(g);
        g := g.(flag := Cleared(g.flag));
        lastId := g.id;
        state' := state + 1;
      }
      assert g == s[n];
      if g.flag == GS_REMOVE {
        guilds := guilds[..k] + guilds[k + 1..];
      } else {
        guilds := guilds[k := g];
        k' := k + 1;
      }
    }

    // guild_save_timer.
    method Tick()
      modifies this
      ensures var was, t := old(guilds), Target(old(guilds), old(lastId));
        && guilds == Kept(Saved(was, t))
        && lastId == (if t < |was| then was[t].id else 0)
        && written == old(written) + if t < |was| then [was[t]] else []
    {
      hide Kept, StateAt, Target, Saved, Dirty, Start, Cleared;
      ghost var was, last, t := guilds, lastId, Target(guilds, lastId);
      Stages(was, last, 0);
      Stages(was, last, |was|);
      KeptNone(Saved(was, t));
      assert Saved(was, t)[..|was|] == Saved(was, t);
      var state := Scan(if lastId == 0 then 1 else 0);
      if state != 2 {
        lastId := 0;
      }
    }

    // From the first guild to the last.
    method Scan(first: int) returns (state: int)
      requires Scanned(guilds, lastId, written, 0, first)
      modifies this
      ensures Scanned(old(guilds), old(lastId), old(written), |old(guilds)|, state)
    {
      var was := guilds;
      ghost var last, t := lastId, Target(guilds, lastId);
      state := first;
      var k, n := 0, 0;
      KeptNone(Saved(was, t));
      hide Kept, StateAt, Target, Saved, Scanned;
      while n < |was|
        invariant 0 <= n <= |was| && Scanned(was, last, old(written), n, state)
        invariant k == |Kept(Saved(was, t)[..n])|
      {
        k, state := Visit(k, state, was, last, old(written), n);
        n := n + 1;
      }
    }
  }

  // Removing or replacing the guild the scan stands at.
  lemma Splice(done: seq<Guild>, was: seq<Guild>, n: nat, g: Guild)
    requires n < |was|
    ensures var all := done + was[n..];
      && all[|done|] == was[n] && all[..|done|] + all[|done| + 1..] == done + was[n + 1..]
      && all[|done| := g] == done + [g] + was[n + 1..]
  {
  }

  lemma KeptNone(s: seq<Guild>)
    ensures Kept(s[..0]) == []
  {
  }

  lemma KeptNext(s: seq<Guild>, n: nat)
    requires n < |s|
    ensures Kept(s[..n + 1]) == Kept(s[..n]) + if s[n].flag == GS_REMOVE then [] else [s[n]]
  {
    assert s[..n + 1][..n] == s[..n];
  }

  // How far the scan is at position n: still before the start, looking for a dirty guild, or done.
  ghost function StateAt(gs: seq<Guild>, lastId: int, n: nat): int
    requires n <= |gs|
  {
    if Target(gs, lastId) < n then 2 else if Start(gs, lastId, 0) <= n && (lastId == 0 || StartFound(gs, lastId)) then 1 else 0
  }

  ghost predicate StartFound(gs: seq<Guild>, lastId: int) { exists i :: 0 <= i < |gs| && gs[i].id == lastId }

  // How the scan moves on at position n.
  lemma Stages(gs: seq<Guild>, lastId: int, n: nat)
    requires n <= |gs|
    ensures n == 0 ==> StateAt(gs, lastId, 0) == if lastId == 0 then 1 else 0
    ensures StateAt(gs, lastId, n) == 2 <==> Target(gs, lastId) < n
    ensures StateAt(gs, lastId, n) in {0, 1, 2}
    ensures n < |gs| ==>
              var st := StateAt(gs, lastId, n);
              && StateAt(gs, lastId, n + 1) == (if st == 0 && gs[n].id == lastId then 1
                                                else if st == 1 && Dirty(gs[n].flag) then 2 else st)
              && (Target(gs, lastId) == n <==> st == 1 && Dirty(gs[n].flag))
  {
    StartInRange(gs, lastId, 0);
    if lastId != 0 { StartIs(gs, lastId, 0); }
  }

  lemma {:induction false} StartIs(gs: seq<Guild>, lastId: int, n: nat)
    requires n <= |gs| && lastId != 0
    ensures n <= Start(gs, lastId, n) <= |gs|
    ensures forall i | n <= i < Start(gs, lastId, n) - 1 :: gs[i].id != lastId
    ensures (exists i :: n <= i < |gs| && gs[i].id == lastId) ==>
              Start(gs, lastId, n) > n && gs[Start(gs, lastId, n) - 1].id == lastId
    ensures (forall i | n <= i < |gs| :: gs[i].id != lastId) ==> Start(gs, lastId, n) == |gs|
    decreases |gs| - n
  {
    if n < |gs| && gs[n].id != lastId { StartIs(gs, lastId, n + 1); }
  }

  // ---------- Every dirty guild gets its turn ----------

  ghost predicate DistinctIds(gs: seq<Guild>)
  {
    (forall i | 0 <= i < |gs| :: gs[i].id != 0) && forall i, j | 0 <= i < j < |gs| :: gs[i].id != gs[j].id
  }

  ghost predicate SameIds(gs: seq<Guild>, hs: seq<Guild>)
  {
    |gs| == |hs| && forall i | 0 <= i < |gs| :: gs[i].id == hs[i].id
  }

  lemma {:induction false} StartDependsOnIds(gs: seq<Guild>, hs: seq<Guild>, lastId: int, n: nat)
    requires SameIds(gs, hs) && n <= |gs|
    ensures Start(gs, lastId, n) == Start(hs, lastId, n)
    decreases |gs| - n
  {
    if lastId != 0 && n < |gs| && gs[n].id != lastId { StartDependsOnIds(gs, hs, lastId, n + 1); }
  }

  lemma {:induction false} StartAfter(gs: seq<Guild>, i: nat, n: nat)
    requires DistinctIds(gs) && n <= i < |gs|
    ensures Start(gs, gs[i].id, n) == i + 1
    decreases |gs| - n
  {
    if n < i {
      assert gs[n].id != gs[i].id;
      StartAfter(gs, i, n + 1);
    }
  }

  // The guild remembered by the next tick.
  function NextLast(gs: seq<Guild>, lastId: int): int
  {
    if Target(gs, lastId) < |gs| then gs[Target(gs, lastId)].id else 0
  }

  // The guild remembered after j ticks, when gss are the guilds each of them finds.
  function LastAfter(gss: seq<seq<Guild>>, lastId: int, j: nat): int
    requires j <= |gss|
    decreases j
  {
    if j == 0 then lastId else LastAfter(gss[1..], NextLast(gss[0], lastId), j - 1)
  }

  // How many ticks guild k of n waits at most, when the scan starts at position start.
  function Wait(n: nat, start: nat, k: nat): int { if start <= k then k - start + 1 else n - start + k + 2 }

  // The next tick finds what this one has left, with no guild unloaded or loaded in between; any
  // further parts of any guild may have become dirty, and the removal bit may have come or gone.
  ghost predicate Follows(gs: seq<Guild>, hs: seq<Guild>, lastId: int)
  {
    var left := Kept(Saved(gs, Target(gs, lastId)));
    && SameIds(left, gs) && SameIds(hs, gs)
    && forall i | 0 <= i < |gs| :: left[i].flag & GS_MASK & hs[i].flag == left[i].flag & GS_MASK
  }

  // The guilds that one tick after the other finds.
  ghost predicate Ticks(gss: seq<seq<Guild>>, lastId: int)
    decreases |gss|
  {
    |gss| >= 2 ==> Follows(gss[0], gss[1], lastId) && Ticks(gss[1..], NextLast(gss[0], lastId))
  }

  lemma {:induction false} KeptAll(gs: seq<Guild>)
    ensures |Kept(gs)| <= |gs| && (|Kept(gs)| == |gs| ==> Kept(gs) == gs)
    decreases |gs|
  {
    if gs != [] { KeptAll(gs[..|gs| - 1]); }
  }

  lemma MoreBits(a: bv16, b: bv16)
    requires a & GS_MASK & b == a & GS_MASK && Dirty(a)
    ensures Dirty(b)
  {
  }

  // A dirty guild that is not saved by a tick is dirty at the next one.
  lemma StaysDirty(gs: seq<Guild>, hs: seq<Guild>, lastId: int, k: nat)
    requires Follows(gs, hs, lastId) && k < |gs| && Dirty(gs[k].flag) && Target(gs, lastId) != k
    ensures Dirty(hs[k].flag)
  {
    hide Dirty;
    KeptAll(Saved(gs, Target(gs, lastId)));
    MoreBits(gs[k].flag, hs[k].flag);
  }

  lemma DistinctToo(gs: seq<Guild>, hs: seq<Guild>)
    requires DistinctIds(gs) && SameIds(gs, hs)
    ensures DistinctIds(hs)
  {
  }

  // A tick that saves another guild brings the turn of guild k nearer.
  lemma WaitShrinks(gs: seq<Guild>, lastId: int, k: nat)
    requires DistinctIds(gs) && k < |gs| && Dirty(gs[k].flag)
    ensures Start(gs, lastId, 0) <= |gs| && 1 <= Wait(|gs|, Start(gs, lastId, 0), k) <= |gs| + 1
    ensures Target(gs, lastId) != k ==>
              var next := Start(gs, NextLast(gs, lastId), 0);
              next <= |gs| && 1 <= Wait(|gs|, next, k) < Wait(|gs|, Start(gs, lastId, 0), k)
  {
    hide Dirty;
    StartInRange(gs, lastId, 0);
    var t := Target(gs, lastId);
    if t < |gs| { StartAfter(gs, t, 0); }
    assert Start(gs, NextLast(gs, lastId), 0) == if t < |gs| then t + 1 else 0;
  }

  // While no guild is loaded or unloaded, a dirty guild is written within its waiting time, which
  // is at most one tick more than there are guilds, whatever becomes dirty in the meantime.
  lemma {:induction false} SavedInTime(gss: seq<seq<Guild>>, lastId: int, k: nat) returns (j: nat)
    requires gss != [] && Ticks(gss, lastId) && DistinctIds(gss[0]) && k < |gss[0]| && Dirty(gss[0][k].flag)
    requires |gss| >= Wait(|gss[0]|, Start(gss[0], lastId, 0), k)
    ensures j < |gss| && j < Wait(|gss[0]|, Start(gss[0], lastId, 0), k) <= |gss[0]| + 1
    ensures Target(gss[j], LastAfter(gss, lastId, j)) == k
    decreases |gss|
  {
    hide Dirty, Target, Start, DistinctIds, SameIds, NextLast, Ticks, Follows, Wait, LastAfter;
    WaitShrinks(gss[0], lastId, k);
    if Target(gss[0], lastId) == k {
      j := 0;
      LastAtFirst(gss, lastId);
    } else {
      StillWaits(gss, lastId, k);
      j := SavedInTime(gss[1..], NextLast(gss[0], lastId), k);
      LastLater(gss, lastId, j);
      j := j + 1;
    }
  }

  // The next tick finds guild k dirty and nearer its turn.
  lemma StillWaits(gss: seq<seq<Guild>>, lastId: int, k: nat)
    requires gss != [] && Ticks(gss, lastId) && DistinctIds(gss[0]) && k < |gss[0]| && Dirty(gss[0][k].flag)
    requires |gss| >= Wait(|gss[0]|, Start(gss[0], lastId, 0), k) && Target(gss[0], lastId) != k
    ensures |gss| >= 2 && |gss[1]| == |gss[0]| && DistinctIds(gss[1]) && Dirty(gss[1][k].flag)
    ensures Ticks(gss[1..], NextLast(gss[0], lastId))
    ensures Wait(|gss[1]|, Start(gss[1], NextLast(gss[0], lastId), 0), k) < Wait(|gss[0]|, Start(gss[0], lastId, 0), k)
  {
    hide Dirty, Target, Start, DistinctIds, SameIds, NextLast, Ticks, Follows, Wait;
    WaitShrinks(gss[0], lastId, k);
    TicksOn(gss, lastId);
    StaysDirty(gss[0], gss[1], lastId, k);
    DistinctToo(gss[0], gss[1]);
    StartDependsOnIds(gss[1], gss[0], NextLast(gss[0], lastId), 0);
  }

  lemma TicksOn(gss: seq<seq<Guild>>, lastId: int)
    requires |gss| >= 2 && Ticks(gss, lastId)
    ensures Follows(gss[0], gss[1], lastId) && Ticks(gss[1..], NextLast(gss[0], lastId))
    ensures SameIds(gss[0], gss[1]) && SameIds(gss[1], gss[0]) && |gss[1]| == |gss[0]|
  {
    hide NextLast, Kept, Saved, Target;
  }

  lemma LastAtFirst(gss: seq<seq<Guild>>, lastId: int)
    ensures LastAfter(gss, lastId, 0) == lastId
  {
  }

  lemma LastLater(gss: seq<seq<Guild>>, lastId: int, j: nat)
    requires j + 1 <= |gss|
    ensures LastAfter(gss, lastId, j + 1) == LastAfter(gss[1..], NextLast(gss[0], lastId), j)
  {
    hide NextLast;
  }
}
