/** Parties (int_party.c): the numbers of members and of members online, the range of levels and
    the even share of experience are kept up to date step by step. */
module Party {
  const MAX_PARTY: nat := 12
  const UINT_MAX: nat := 0xFFFF_FFFF

  datatype Member = Member(accountId: nat, charId: nat, map_: nat, lv: nat, leader: bool, online: bool)

  const NOBODY: Member := Member(0, 0, 0, 0, false, false)

  // A slot is empty or holds a character with an account and a level.
  predicate Sane(m: Member) { m == NOBODY || (m.accountId > 0 && m.charId > 0 && 0 < m.lv < 0x1_0000) }

  predicate AllSane(ms: seq<Member>) { forall i | 0 <= i < |ms| :: Sane(ms[i]) }

  // ---------- What the derived fields stand for ----------

  function Occupied(ms: seq<Member>): nat
  {
    if ms == [] then 0 else Occupied(ms[..|ms| - 1]) + if ms[|ms| - 1].lv > 0 then 1 else 0
  }

  function Online(ms: seq<Member>): nat
  {
    if ms == [] then 0 else Online(ms[..|ms| - 1]) + if ms[|ms| - 1].online then 1 else 0
  }

  // Who counts for the range of levels: those online, except the child of a family.
  predicate Ranged(m: Member, family: nat) { m.online && m.charId != family }

  // The bounds of the levels that count; UINT_MAX and 0 if there are none.
  function MinLv(ms: seq<Member>, family: nat): nat
  {
    if ms == [] then UINT_MAX
    else
      var m, r := ms[|ms| - 1], MinLv(ms[..|ms| - 1], family);
      if Ranged(m, family) && m.lv < r then m.lv else r
  }

  function MaxLv(ms: seq<Member>, family: nat): nat
  {
    if ms == [] then 0
    else
      var m, r := ms[|ms| - 1], MaxLv(ms[..|ms| - 1], family);
      if Ranged(m, family) && m.lv > r then m.lv else r
  }

  lemma {:induction false} BoundsHold(ms: seq<Member>, family: nat, i: nat)
    requires i < |ms| && Ranged(ms[i], family)
    ensures MinLv(ms, family) <= ms[i].lv <= MaxLv(ms, family)
    decreases |ms|
  {
    hide Ranged;
    if i < |ms| - 1 { BoundsHold(ms[..|ms| - 1], family, i); }
  }

  lemma {:induction false} BoundsMet(ms: seq<Member>, family: nat)
    requires AllSane(ms)
    ensures MinLv(ms, family) == UINT_MAX || exists i :: 0 <= i < |ms| && Ranged(ms[i], family) && ms[i].lv == MinLv(ms, family)
    ensures MaxLv(ms, family) == 0 || exists i :: 0 <= i < |ms| && Ranged(ms[i], family) && ms[i].lv == MaxLv(ms, family)
    decreases |ms|
  {
    hide Ranged;
    if ms != [] {
      var n := |ms| - 1;
      var front := ms[..n];
      BoundsMet(front, family);
      if MinLv(ms, family) != UINT_MAX && MinLv(ms, family) == MinLv(front, family) {
        var i :| 0 <= i < |front| && Ranged(front[i], family) && front[i].lv == MinLv(front, family);
        assert ms[i] == front[i];
      }
      if MaxLv(ms, family) != 0 && MaxLv(ms, family) == MaxLv(front, family) {
        var i :| 0 <= i < |front| && Ranged(front[i], family) && front[i].lv == MaxLv(front, family);
        assert ms[i] == front[i];
      }
    }
  }

  // The range is unchanged by a change to slot i, when whoever stood there was not alone at a
  // bound and whoever stands there now is not beyond one.
  lemma RangeKept(ms: seq<Member>, i: nat, m: Member, family: nat)
    requires AllSane(ms) && Sane(m) && i < |ms|
    requires Ranged(ms[i], family) ==> MinLv(ms, family) < ms[i].lv < MaxLv(ms, family)
    requires Ranged(m, family) ==> MinLv(ms, family) <= m.lv <= MaxLv(ms, family)
    ensures MinLv(ms[i := m], family) == MinLv(ms, family) && MaxLv(ms[i := m], family) == MaxLv(ms, family)
  {
    var t := ms[i := m];
    hide MinLv, MaxLv;
    BoundsMet(ms, family);
    BoundsMet(t, family);
    forall k: nat | k < |ms| && k != i && Ranged(ms[k], family)
      ensures MinLv(t, family) <= ms[k].lv <= MaxLv(t, family)
      ensures MinLv(ms, family) <= ms[k].lv <= MaxLv(ms, family)
    {
      assert t[k] == ms[k];
      BoundsHold(t, family, k);
      BoundsHold(ms, family, k);
    }
    if Ranged(m, family) { BoundsHold(t, family, i); }
  }

  // It is changed when the new level is beyond a bound.
  lemma RangeLeft(ms: seq<Member>, i: nat, m: Member, family: nat)
    requires AllSane(ms) && i < |ms| && Ranged(m, family)
    requires m.lv < MinLv(ms, family) || m.lv > MaxLv(ms, family)
    ensures MinLv(ms[i := m], family) != MinLv(ms, family) || MaxLv(ms[i := m], family) != MaxLv(ms, family)
  {
    BoundsHold(ms[i := m], family, i);
  }

  lemma {:induction false} CountsUpdated(ms: seq<Member>, i: nat, m: Member)
    requires i < |ms|
    ensures Occupied(ms[i := m]) == Occupied(ms) - (if ms[i].lv > 0 then 1 else 0) + (if m.lv > 0 then 1 else 0)
    ensures Online(ms[i := m]) == Online(ms) - (if ms[i].online then 1 else 0) + (if m.online then 1 else 0)
    decreases |ms|
  {
    var n := |ms| - 1;
    if i < n {
      CountsUpdated(ms[..n], i, m);
      assert ms[i := m][..n] == ms[..n][i := m];
    } else {
      assert ms[i := m][..n] == ms[..n];
    }
  }

  // Whoever is online and inside the range is not the only one.
  lemma TwoAtTheBounds(ms: seq<Member>, family: nat)
    requires AllSane(ms) && MinLv(ms, family) < MaxLv(ms, family)
    ensures Online(ms) >= 2
  {
    hide MinLv, MaxLv;
    BoundsMet(ms, family);
    var j :| 0 <= j < |ms| && Ranged(ms[j], family) && ms[j].lv == MaxLv(ms, family);
    assert Sane(ms[j]);
    var i :| 0 <= i < |ms| && Ranged(ms[i], family) && ms[i].lv == MinLv(ms, family);
    CountsUpdated(ms, i, NOBODY);
    CountsUpdated(ms[i := NOBODY], j, NOBODY);
  }

  // The difference of two unsigned ints.
  function Span(lo: nat, hi: nat): int { (hi - lo) % 0x1_0000_0000 }

  lemma {:induction false} LevelsBounded(ms: seq<Member>, family: nat)
    requires AllSane(ms)
    ensures MaxLv(ms, family) < 0x1_0000 && MinLv(ms, family) <= UINT_MAX
    ensures MaxLv(ms, family) - MinLv(ms, family) <= Span(MinLv(ms, family), MaxLv(ms, family))
    decreases |ms|
  {
    if ms != [] {
      LevelsBounded(ms[..|ms| - 1], family);
      assert Sane(ms[|ms| - 1]);
    }
  }

  // ---------- The party ----------

  predicate Holds(m: Member, accountId: nat, charId: nat) { m.accountId == accountId && m.charId == charId }

  class PartyData {
    const member: array<Member>
    var count: nat
    var size: nat
    var exp: bool
    var item: nat
    var minLv: nat
    var maxLv: nat
    var family: nat

    ghost predicate Shape()
      reads this, member
    {
      member.Length == MAX_PARTY && AllSane(member[..])
    }

    // The range stored is the range of the levels that count.
    ghost predicate Exact()
      reads this, member
    {
      minLv == MinLv(member[..], family) && maxLv == MaxLv(member[..], family)
    }

    ghost predicate Counted()
      reads this, member
    {
      count == Online(member[..]) && size == Occupied(member[..])
    }

    // Even share is on only if the levels allow it.
    ghost predicate FairShare(shareLevel: nat)
      reads this
    {
      exp ==> count < 2 || maxLv - minLv <= shareLevel
    }

    ghost predicate Valid(shareLevel: nat)
      reads this, member
    {
      Shape() && Counted() && Exact() && FairShare(shareLevel)
    }

    // mapif_parse_CreateParty: the leader alone, online.
    constructor (shareLevel: nat, leader: Member, item: nat, child: nat)
      requires Sane(leader) && leader != NOBODY
      ensures Valid(shareLevel) && fresh(member) && !exp && this.item == item % 4
      ensures member[0] == leader.(leader := true, online := true)
      ensures forall i | 0 < i < MAX_PARTY :: member[i] == NOBODY
    {
      member := new Member[MAX_PARTY](i => if i == 0 then leader.(leader := true, online := true) else NOBODY);
      exp, this.item := false, item % 4;
      count, size, minLv, maxLv, family := 0, 0, 0, 0, 0;
      new;
      CalcState(shareLevel, child);
    }

    // party_check_exp_share.
    predicate CheckExpShare(shareLevel: nat)
      reads this
    {
      count < 2 || Span(minLv, maxLv) <= shareLevel
    }

    // Even share has been turned off only if the levels do not allow it, and never on.
    ghost predicate ShareKept(before: bool, shareLevel: nat)
      reads this
    {
      (exp ==> before) && (before && CheckExpShare(shareLevel) ==> exp)
    }

    // int_party_check_lv.
    method CheckLv(shareLevel: nat)
      requires Shape() && Counted()
      modifies `minLv, `maxLv, `exp
      ensures Valid(shareLevel)
      ensures exp == (old(exp) && CheckExpShare(shareLevel))
    {
      hide Ranged, AllSane;
      minLv := UINT_MAX;
      maxLv := 0;
      var i := 0;
      while i < MAX_PARTY
        invariant 0 <= i <= MAX_PARTY && exp == old(exp)
        invariant minLv == MinLv(member[..i], family) && maxLv == MaxLv(member[..i], family)
      {
        assert member[..i + 1][..i] == member[..i];
        if Ranged(member[i], family) {
          var lv := member[i].lv;
          if lv < minLv {
            minLv := lv;
          }
          if lv > maxLv {
            maxLv := lv;
          }
        }
        i := i + 1;
      }
      assert member[..MAX_PARTY] == member[..];
      LevelsBounded(member[..], family);
      if exp && !CheckExpShare(shareLevel) {
        exp := false;
      }
    }

    // int_party_calc_state. The family comes from the character table: the child among the first
    // two or three members, or 0.
    method CalcState(shareLevel: nat, child: nat)
      requires Shape()
      modifies this
      ensures Valid(shareLevel)
      ensures exp == (old(exp) && CheckExpShare(shareLevel)) && item == old(item)
      ensures family == if size == 2 || size == 3 then child else 0
    {
      hide Ranged, AllSane, Sane;
      count, size, family := 0, 0, 0;
      var i := 0;
      while i < MAX_PARTY
        invariant 0 <= i <= MAX_PARTY && exp == old(exp) && item == old(item) && family == 0
        invariant count == Online(member[..i]) && size == Occupied(member[..i])
      {
        OnlineAreOccupied(member[..], i);
        assert member[..i + 1][..i] == member[..i];
        if member[i].lv != 0 {
          size := size + 1;
          if member[i].online {
            count := count + 1;
          }
        }
        i := i + 1;
      }
      assert member[..MAX_PARTY] == member[..];
      if size == 2 || size == 3 {
        family := child;
      }
      CheckLv(shareLevel);
    }

    // The first slot that holds the character, or MAX_PARTY.
    method Find(accountId: nat, charId: nat) returns (i: nat)
      requires Shape()
      ensures i <= MAX_PARTY && (i < MAX_PARTY ==> Holds(member[i], accountId, charId))
      ensures forall k: nat | k < i :: !Holds(member[k], accountId, charId)
    {
      i := 0;
      while i < MAX_PARTY && !Holds(member[i], accountId, charId)
        invariant i <= MAX_PARTY && forall k: nat | k < i :: !Holds(member[k], accountId, charId)
      {
        i := i + 1;
      }
    }

    // mapif_parse_PartyAddMember, with the answer of the character table for CalcState.
    method AddMember(shareLevel: nat, m: Member, child: nat) returns (ok: bool)
      requires Valid(shareLevel) && Sane(m) && m != NOBODY
      modifies this, member
      ensures Valid(shareLevel)
      ensures ok <==> exists i :: 0 <= i < MAX_PARTY && old(member[i]) == NOBODY
      ensures !ok ==> member[..] == old(member[..]) && exp == old(exp) && family == old(family)
      ensures item == old(item) && ShareKept(old(exp), shareLevel)
      ensures ok ==> family == if size == 2 || size == 3 then child else 0
      ensures ok ==> exists i :: 0 <= i < MAX_PARTY && old(member[i]) == NOBODY
                                 && member[..] == old(member[..])[i := m.(leader := false)]
    {
      ghost var ms := member[..];
      FullIffNoSlot(ms);
      if size == MAX_PARTY {
        return false;
      }
      var i := 0;
      while i < MAX_PARTY && member[i].accountId != 0
        invariant i <= MAX_PARTY && forall k | 0 <= k < i :: member[k].accountId != 0
      {
        i := i + 1;
      }
      if i == MAX_PARTY {
        return false;
      }
      assert Sane(ms[i]);
      PutAt(shareLevel, i, m.(leader := false), child);
      ok := true;
    }

    // A free slot is filled.
    method PutAt(shareLevel: nat, i: nat, m: Member, child: nat)
      requires Valid(shareLevel) && Sane(m) && m != NOBODY && i < MAX_PARTY && member[i] == NOBODY
      modifies this, member
      ensures Valid(shareLevel) && member[..] == old(member[..])[i := m]
      ensures family == if size == 2 || size == 3 then child else 0
      ensures item == old(item) && ShareKept(old(exp), shareLevel)
    {
      ghost var ms := member[..];
      CountsUpdated(ms, i, m);
      member[i] := m;
      assert member[..] == ms[i := m];
      if m.online {
        count := count + 1;
      }
      size := size + 1;
      if size == 2 || size == 3 {
        CalcState(shareLevel, child);
      } else if m.lv < minLv || m.lv > maxLv || family != 0 {
        if family != 0 {
          family := 0;
        }
        CheckLv(shareLevel);
      } else {
        RangeKept(ms, i, m, family);
        AloneIsLevel(ms, family);
      }
    }

    // mapif_parse_PartyChangeOption.
    method ChangeOption(shareLevel: nat, newExp: nat, newItem: nat) returns (refused: bool)
      requires Valid(shareLevel)
      modifies `exp, `item
      ensures Valid(shareLevel) && item == newItem % 4
      ensures exp ==> newExp % 2 == 1
      ensures refused <==> newExp != 0 && !CheckExpShare(shareLevel)
      ensures newExp % 2 == 1 && !refused ==> exp
    {
      LevelsBounded(member[..], family);
      refused := false;
      exp := newExp % 2 == 1;
      if newExp != 0 && !CheckExpShare(shareLevel) {
        refused := true;
        exp := false;
      }
      item := newItem % 4;
    }

    // mapif_parse_PartyLeave: a leader who leaves breaks the party, and so does the last member.
    method Leave(shareLevel: nat, accountId: nat, charId: nat) returns (broken: bool)
      requires Valid(shareLevel) && accountId > 0
      modifies this, member
      ensures !broken ==> Valid(shareLevel)
      ensures broken ==> forall i | 0 <= i < MAX_PARTY :: member[i].accountId == 0
      ensures (forall k: nat | k < MAX_PARTY :: !Holds(old(member[k]), accountId, charId)) ==>
                member[..] == old(member[..]) && (broken <==> forall k | 0 <= k < MAX_PARTY :: old(member[k].accountId) == 0)
      ensures forall i: nat | i < MAX_PARTY && Holds(old(member[i]), accountId, charId)
                && (forall k: nat | k < i :: !Holds(old(member[k]), accountId, charId)) ::
                if old(member[i]).leader then broken
                else member[..] == old(member[..])[i := NOBODY] && family == 0
      ensures item == old(item) && ShareKept(old(exp), shareLevel)
    {
      hide Exact, Counted, FairShare;
      var i := Find(accountId, charId);
      if i >= MAX_PARTY {
        broken := CheckEmpty();
        return;
      }
      assert Sane(member[i]);
      if member[i].leader {
        BreakUp();
      } else {
        RemoveAt(shareLevel, i);
      }
      broken := CheckEmpty();
    }

    // A slot is emptied.
    method RemoveAt(shareLevel: nat, i: nat)
      requires Valid(shareLevel) && i < MAX_PARTY && member[i] != NOBODY
      modifies `count, `size, `minLv, `maxLv, `exp, `family, member
      ensures Valid(shareLevel) && member[..] == old(member[..])[i := NOBODY]
      ensures family == 0 && ShareKept(old(exp), shareLevel)
    {
      ghost var ms := member[..];
      assert Sane(ms[i]);
      CountsUpdated(ms, i, NOBODY);
      var j := member[i].lv;
      if member[i].online {
        count := count - 1;
      }
      member[i] := NOBODY;
      assert member[..] == ms[i := NOBODY];
      size := size - 1;
      if j == minLv || j == maxLv || family != 0 {
        if family != 0 {
          family := 0;
        }
        CheckLv(shareLevel);
      } else {
        if Ranged(ms[i], family) { BoundsHold(ms, family, i); }
        RangeKept(ms, i, NOBODY, family);
      }
    }

    // mapif_parse_PartyChangeMap: a member moves, logs in or out, or gains a level. The stored
    // range stays exact unless someone strictly inside it, and counted in it, reports a level
    // beyond it: that report is not looked at.
    method ChangeMap(shareLevel: nat, accountId: nat, charId: nat, map_: nat, online: bool, lv: nat)
      requires Valid(shareLevel) && accountId > 0 && 0 < lv < 0x1_0000
      modifies `count, `minLv, `maxLv, `exp, member
      ensures Shape() && Counted() && FairShare(shareLevel) && ShareKept(old(exp), shareLevel)
      ensures (forall k: nat | k < MAX_PARTY :: !Holds(old(member[k]), accountId, charId)) ==>
                member[..] == old(member[..]) && Exact()
      ensures forall i: nat | i < MAX_PARTY && Holds(old(member[i]), accountId, charId)
                && (forall k: nat | k < i :: !Holds(old(member[k]), accountId, charId)) ::
                && member[..] == old(member[..])[i := old(member[i]).(map_ := map_, online := online, lv := lv)]
                && (Exact() <==> !MissedReport(old(member[i]), online, lv, old(family), old(minLv), old(maxLv)))
    {
      hide Counted, FairShare;
      var i := Find(accountId, charId);
      if i == MAX_PARTY {
        return;
      }
      ghost var ms, m := member[..], member[i];
      ghost var lo, hi, fam := minLv, maxLv, family;
      assert Sane(ms[i]);
      SetOnline(shareLevel, i, online, lv);
      SetLevel(shareLevel, i, lv);
      SetMap(i, map_);
    }

    // The part of a report that concerns being online.
    method SetOnline(shareLevel: nat, i: nat, online: bool, lv: nat)
      requires Valid(shareLevel) && i < MAX_PARTY && 0 < lv < 0x1_0000 && member[i] != NOBODY
      modifies `count, `minLv, `maxLv, `exp, member
      ensures Valid(shareLevel)
      ensures exp == old(exp) || (member[i].lv == lv && ShareKept(old(exp), shareLevel))
      ensures online == old(member[i].online) ==>
                member[..] == old(member[..]) && minLv == old(minLv) && maxLv == old(maxLv)
      ensures online != old(member[i].online) ==>
                exists l: nat ::
                  && member[..] == old(member[..])[i := old(member[i]).(online := online, lv := l)]
                  && (l == lv || (l == old(member[i].lv) && minLv < l < maxLv && minLv < lv < maxLv))
    {
      if member[i].online != online {
        ghost var ms := member[..];
        var was := member[i].lv;
        assert Sane(ms[i]);
        CountsUpdated(ms, i, ms[i].(online := online));
        if online {
          count := count + 1;
        } else {
          count := count - 1;
        }
        if family != 0 || was <= minLv || was >= maxLv || (was != lv && (lv <= minLv || lv >= maxLv)) {
          CountsUpdated(ms, i, ms[i].(online := online, lv := lv));
          member[i] := member[i].(online := online, lv := lv);
          assert member[..] == ms[i := ms[i].(online := online, lv := lv)];
          CheckLv(shareLevel);
        } else {
          member[i] := member[i].(online := online);
          assert member[..] == ms[i := ms[i].(online := online, lv := was)];
          RangeKept(ms, i, ms[i].(online := online), family);
          AloneIsLevel(ms, family);
        }
      }
    }

    // The part of a report that concerns the level.
    method SetLevel(shareLevel: nat, i: nat, lv: nat)
      requires Valid(shareLevel) && i < MAX_PARTY && 0 < lv < 0x1_0000 && member[i] != NOBODY
      modifies `minLv, `maxLv, `exp, member
      ensures Shape() && Counted() && FairShare(shareLevel) && ShareKept(old(exp), shareLevel)
      ensures lv == old(member[i].lv) ==> minLv == old(minLv) && maxLv == old(maxLv) && exp == old(exp)
      ensures member[..] == old(member[..])[i := old(member[i]).(lv := lv)]
      ensures Exact() <==> !Missed(old(member[i]), lv, old(family), old(minLv), old(maxLv))
    {
      ghost var ms, m := member[..], member[i].(lv := lv);
      assert Sane(ms[i]);
      CountsUpdated(ms, i, m);
      if member[i].lv != lv {
        if member[i].lv == minLv || member[i].lv == maxLv {
          member[i] := member[i].(lv := lv);
          assert member[..] == ms[i := m];
          CheckLv(shareLevel);
        } else {
          member[i] := member[i].(lv := lv);
          assert member[..] == ms[i := m];
          if Ranged(ms[i], family) { BoundsHold(ms, family, i); }
          if Missed(ms[i], lv, family, minLv, maxLv) {
            RangeLeft(ms, i, m, family);
          } else {
            RangeKept(ms, i, m, family);
          }
        }
      } else {
        assert ms[i := m] == ms;
      }
    }

    method SetMap(i: nat, map_: nat)
      requires Shape() && Counted() && i < MAX_PARTY && member[i] != NOBODY
      modifies member
      ensures Shape() && Counted() && member[..] == old(member[..])[i := old(member[i]).(map_ := map_)]
      ensures Exact() <==> old(Exact())
    {
      ghost var ms, m := member[..], member[i].(map_ := map_);
      assert Sane(ms[i]);
      if member[i].map_ != map_ {
        member[i] := member[i].(map_ := map_);
      }
      assert member[..] == ms[i := m];
      CountsUpdated(ms, i, m);
      SameLevels(ms, i, m, family);
    }

    // mapif_parse_PartyShareLevel, on one party.
    method ShareLevelChanged(ghost oldLevel: nat, shareLevel: nat, child: nat)
      requires Valid(oldLevel)
      modifies this
      ensures Valid(shareLevel) && item == old(item)
    {
      if count > 1 {
        CalcState(shareLevel, child);
      }
    }

    // mapif_parse_PartyLeaderChange: the named member becomes the only leader; if there is no such
    // member, nobody leads the party any more.
    method LeaderChange(shareLevel: nat, accountId: nat, charId: nat)
      requires Valid(shareLevel) && accountId > 0
      modifies member
      ensures Valid(shareLevel)
      ensures forall k: nat | k < MAX_PARTY :: member[k] == old(member[k]).(leader := Holds(old(member[k]), accountId, charId))
    {
      ghost var ms := member[..];
      var i := 0;
      while i < MAX_PARTY
        invariant 0 <= i <= MAX_PARTY
        invariant forall k: nat | k < MAX_PARTY ::
                    member[k] == if k < i then ms[k].(leader := ms[k].accountId == accountId && ms[k].charId == charId)
                                 else ms[k]
      {
        if member[i].leader {
          member[i] := member[i].(leader := false);
        }
        if member[i].accountId == accountId && member[i].charId == charId {
          member[i] := member[i].(leader := true);
        }
        i := i + 1;
      }
      forall k | 0 <= k < MAX_PARTY ensures Sane(member[k]) { assert Sane(ms[k]); }
      LeadersDoNotCount(ms, member[..], family);
    }

    method BreakUp()
      requires member.Length == MAX_PARTY
      modifies member
      ensures forall i | 0 <= i < MAX_PARTY :: member[i] == old(member[i]).(accountId := 0)
    {
      var j := 0;
      while j < MAX_PARTY
        invariant 0 <= j <= MAX_PARTY
        invariant forall i | 0 <= i < MAX_PARTY ::
                    member[i] == if i < j then old(member[i]).(accountId := 0) else old(member[i])
      {
        member[j] := member[j].(accountId := 0);
        j := j + 1;
      }
    }

    // party_check_empty.
    method CheckEmpty() returns (empty: bool)
      requires member.Length == MAX_PARTY
      ensures empty <==> forall i | 0 <= i < MAX_PARTY :: member[i].accountId == 0
    {
      var i := 0;
      while i < MAX_PARTY && member[i].accountId == 0
        invariant 0 <= i <= MAX_PARTY && forall k | 0 <= k < i :: member[k].accountId == 0
      {
        i := i + 1;
      }
      empty := i == MAX_PARTY;
    }
  }

  // mapif_parse_PartyShareLevel: every party of the database is brought in line with the new level.
  method ParseShareLevel(parties: seq<PartyData>, ghost oldLevel: nat, shareLevel: nat, children: seq<nat>)
    requires |children| == |parties| && forall i, j | 0 <= i < j < |parties| :: parties[i] != parties[j]
    requires forall p | p in parties :: p.Valid(oldLevel)
    modifies parties
    ensures forall i | 0 <= i < |parties| :: parties[i].Valid(shareLevel) && parties[i].item == old(parties[i].item)
  {
    hide PartyData.Shape, PartyData.Counted, PartyData.Exact, PartyData.FairShare;
    assert forall i | 0 <= i < |parties| :: parties[i] in parties;
    var k := 0;
    while k < |parties|
      invariant 0 <= k <= |parties|
      invariant forall i | 0 <= i < k :: parties[i].Valid(shareLevel)
      invariant forall i | k <= i < |parties| :: parties[i].Valid(oldLevel)
      invariant forall i | 0 <= i < |parties| :: parties[i].item == old(parties[i].item)
    {
      parties[k].ShareLevelChanged(oldLevel, shareLevel, children[k]);
      k := k + 1;
    }
  }

  lemma {:induction false} FullIffNoSlot(ms: seq<Member>)
    requires AllSane(ms)
    ensures Occupied(ms) <= |ms| && (Occupied(ms) == |ms| <==> forall i | 0 <= i < |ms| :: ms[i] != NOBODY)
    decreases |ms|
  {
    if ms != [] {
      var n := |ms| - 1;
      FullIffNoSlot(ms[..n]);
      assert Sane(ms[n]);
      assert forall i | 0 <= i < n :: ms[..n][i] == ms[i];
    }
  }

  // The level of a member who counts leaves the range from strictly inside.
  predicate Missed(m: Member, lv: nat, family: nat, lo: nat, hi: nat)
  {
    Ranged(m, family) && lo < m.lv < hi && (lv < lo || lv > hi)
  }

  // Gaining or losing one level at a time is never missed.
  lemma OneLevelIsSeen(m: Member, lv: nat, family: nat, lo: nat, hi: nat)
    requires m.lv - 1 <= lv <= m.lv + 1
    ensures !Missed(m, lv, family, lo, hi)
  {
  }

  // The same for a whole report: logging in or out is always looked at.
  predicate MissedReport(m: Member, online: bool, lv: nat, family: nat, lo: nat, hi: nat)
  {
    online == m.online && Missed(m, lv, family, lo, hi)
  }

  lemma {:induction false} SameLevels(ms: seq<Member>, i: nat, m: Member, family: nat)
    requires i < |ms| && m.lv == ms[i].lv && m.online == ms[i].online && m.charId == ms[i].charId
    ensures MinLv(ms[i := m], family) == MinLv(ms, family) && MaxLv(ms[i := m], family) == MaxLv(ms, family)
    decreases |ms|
  {
    var n := |ms| - 1;
    if i < n {
      SameLevels(ms[..n], i, m, family);
      assert ms[i := m][..n] == ms[..n][i := m];
    } else {
      assert ms[i := m][..n] == ms[..n];
    }
  }

  lemma {:induction false} LeadersDoNotCount(a: seq<Member>, b: seq<Member>, family: nat)
    requires |a| == |b| && forall i | 0 <= i < |a| :: b[i] == a[i].(leader := b[i].leader)
    ensures MinLv(a, family) == MinLv(b, family) && MaxLv(a, family) == MaxLv(b, family)
    ensures Online(a) == Online(b) && Occupied(a) == Occupied(b)
    decreases |a|
  {
    if a != [] { LeadersDoNotCount(a[..|a| - 1], b[..|b| - 1], family); }
  }

  // Three members of levels 10, 50 and 99 are online when the second reports level 120: the
  // range stored, 10 to 99, is no longer the range of the levels.
  lemma RangeGoesStale()
    ensures var ms := [Member(1, 1, 0, 10, true, true), Member(2, 2, 0, 50, false, true), Member(3, 3, 0, 99, false, true)];
      && Missed(ms[1], 120, 0, MinLv(ms, 0), MaxLv(ms, 0))
      && MaxLv(ms, 0) == 99 && MaxLv(ms[1 := ms[1].(lv := 120)], 0) == 120
  {
    var a, b, c := Member(1, 1, 0, 10, true, true), Member(2, 2, 0, 50, false, true), Member(3, 3, 0, 99, false, true);
    RangeOfThree(a, b, c);
    RangeOfThree(a, b.(lv := 120), c);
    assert [a, b, c][1 := b.(lv := 120)] == [a, b.(lv := 120), c];
  }

  lemma RangeOfThree(a: Member, b: Member, c: Member)
    requires Ranged(a, 0) && Ranged(b, 0) && Ranged(c, 0) && a.lv < UINT_MAX && a.lv <= b.lv && a.lv <= c.lv
    ensures MinLv([a, b, c], 0) == a.lv && MaxLv([a, b, c], 0) == if b.lv > c.lv then b.lv else c.lv
  {
    assert [a, b, c][..2] == [a, b] && [a, b][..1] == [a] && [a][..0] == [];
    assert MinLv([a], 0) == a.lv && MaxLv([a], 0) == a.lv;
    assert MinLv([a, b], 0) == a.lv && MaxLv([a, b], 0) == b.lv;
  }

  // With at most one member online nobody is strictly inside the range.
  lemma AloneIsLevel(ms: seq<Member>, family: nat)
    requires AllSane(ms)
    ensures Online(ms) < 2 ==> MinLv(ms, family) >= MaxLv(ms, family)
  {
    if MinLv(ms, family) < MaxLv(ms, family) { TwoAtTheBounds(ms, family); }
  }

  lemma OnlineAreOccupied(ms: seq<Member>, i: nat)
    requires AllSane(ms) && i < |ms|
    ensures ms[i].lv == 0 ==> ms[i] == NOBODY
  {
    assert Sane(ms[i]);
  }
}
