/** Levels, experience and skill points of a guild (int_guild.c). */
module GuildLevels {
  const UINT64_LIMIT: nat := 0x1_0000_0000_0000_0000
  const UINT64_MAX: nat := UINT64_LIMIT - 1
  const LEVELS: nat := 100
  const MAX_GUILDSKILL: nat := 15
  const GD_SKILLBASE: int := 10000
  const GD_EXTENSION: int := 10004
  const MAX_GUILD: int := 76
  const GS_LEVEL: bv16 := 0x0100
  const GS_SKILL: bv16 := 0x0020

  // The experience table read from exp_guild.txt.
  type ExpTable = t: seq<nat> | |t| == LEVELS witness seq(LEVELS, _ => 0)

  // guild_nextexp: what it takes to leave a level, or 0 if it cannot be left.
  function NextExp(t: ExpTable, level: int): nat
  {
    if level == 0 then 1 else if 0 < level < LEVELS then t[level - 1] else 0
  }

  // ---------- Levelling ----------

  // Level, experience and skill points.
  datatype Rank = Rank(lv: int, exp: nat, points: int)

  // Levels gained one after the other, each at its price.
  function Levelled(t: ExpTable, r: Rank): Rank
    decreases LEVELS - r.lv
  {
    var next := NextExp(t, r.lv);
    if next > 0 && r.exp >= next && r.lv < LEVELS then Levelled(t, Rank(r.lv + 1, r.exp - next, r.points + 1))
    else r
  }

  // What it takes to get from one level to another.
  function Price(t: ExpTable, from: int, to: int): nat
    decreases to - from
  {
    if from >= to then 0 else NextExp(t, from) + Price(t, from + 1, to)
  }

  // Levelling ends when the next level is out of reach or there is none; every level brings a
  // skill point; and the experience spent is exactly the price of the levels gained.
  lemma {:induction false} LevellingAddsUp(t: ExpTable, r: Rank)
    requires r.lv >= 1
    ensures var s := Levelled(t, r);
      && (s.exp < NextExp(t, s.lv) || NextExp(t, s.lv) == 0)
      && s.lv >= r.lv && s.lv - s.points == r.lv - r.points
      && s.exp + Price(t, r.lv, s.lv) == r.exp
    decreases LEVELS - r.lv
  {
    var next := NextExp(t, r.lv);
    if next > 0 && r.exp >= next { LevellingAddsUp(t, Rank(r.lv + 1, r.exp - next, r.points + 1)); }
  }

  // Experience gained in two parts has the same effect as the sum gained at once.
  lemma {:induction false} GainInParts(t: ExpTable, r: Rank, b: nat)
    requires r.lv >= 1
    ensures var s := Levelled(t, r); Levelled(t, s.(exp := s.exp + b)) == Levelled(t, r.(exp := r.exp + b))
    decreases LEVELS - r.lv
  {
    var next := NextExp(t, r.lv);
    if next > 0 && r.exp >= next { GainInParts(t, Rank(r.lv + 1, r.exp - next, r.points + 1), b); }
  }

  // ---------- Rates and saturation ----------

  // The share of a member's experience that the guild gets, in 64 bits.
  function Share(rate: nat, exp: nat): nat { if rate != 100 then exp * rate % UINT64_LIMIT / 100 else exp }

  function AddSaturating(a: nat, b: nat): nat { if b > UINT64_MAX - a then UINT64_MAX else a + b }

  lemma QuotientsAdd(x: nat, y: nat)
    ensures (x + y) / 100 == x / 100 + y / 100 + if x % 100 + y % 100 >= 100 then 1 else 0
  {
  }

  // The product that a share is computed from, in 64 bits.
  function Scaled(rate: nat, exp: nat): nat { exp * rate % UINT64_LIMIT }

  // The shares of two gains add up to the share of their sum at the rate of 100 percent; at any
  // other rate exactly if the sum of the products does not wrap around and their remainders do
  // not make up a whole point together.
  lemma SharesAddUp(rate: nat, a: nat, b: nat)
    ensures Share(rate, a) + Share(rate, b) == Share(rate, a + b)
       <==> rate == 100 || (Scaled(rate, a) + Scaled(rate, b) < UINT64_LIMIT
                            && Scaled(rate, a) % 100 + Scaled(rate, b) % 100 < 100)
  {
    if rate != 100 {
      ScaledSum(rate, a, b);
      hide Scaled;
      QuotientsAdd(Scaled(rate, a), Scaled(rate, b));
    }
  }

  lemma ScaledSum(rate: nat, a: nat, b: nat)
    ensures var x, y := Scaled(rate, a), Scaled(rate, b);
      x < UINT64_LIMIT && y < UINT64_LIMIT
      && Scaled(rate, a + b) == if x + y < UINT64_LIMIT then x + y else x + y - UINT64_LIMIT
  {
    assert (a + b) * rate == a * rate + b * rate;
    SumWraps(a * rate, b * rate);
  }

  lemma SumWraps(x: nat, y: nat)
    ensures var p, q := x % UINT64_LIMIT, y % UINT64_LIMIT;
      (x + y) % UINT64_LIMIT == if p + q < UINT64_LIMIT then p + q else p + q - UINT64_LIMIT
  {
  }

  // Level, experience and skill points after a gain.
  function Gained(t: ExpTable, r: Rank, rate: nat, gain: nat): Rank
  {
    Levelled(t, r.(exp := AddSaturating(r.exp, Share(rate, gain))))
  }

  // Gaining twice is the same as gaining the sum at once, short of saturation, exactly if the
  // shares add up.
  lemma GainedTwice(t: ExpTable, r: Rank, rate: nat, a: nat, b: nat)
    requires r.lv >= 1 && r.exp + Share(rate, a) + Share(rate, b) < UINT64_MAX
    ensures Gained(t, Gained(t, r, rate, a), rate, b) == Gained(t, r, rate, a + b)
       <==> Share(rate, a) + Share(rate, b) == Share(rate, a + b)
  {
    hide Share, Levelled, Price;
    var s, u, v := r.(exp := r.exp + Share(rate, a)), Share(rate, b), Share(rate, a + b);
    LevellingAddsUp(t, s);
    GainInParts(t, s, u);
    var once, twice := r.(exp := AddSaturating(r.exp, v)), s.(exp := s.exp + u);
    LevellingAddsUp(t, once);
    LevellingAddsUp(t, twice);
    assert Gained(t, Gained(t, r, rate, a), rate, b) == Levelled(t, twice);
  }

  // At half the rate two single points bring nothing, but two points at once bring one.
  lemma RoundingLoses()
    ensures Share(50, 1) + Share(50, 1) == 0 && Share(50, 2) == 1
  {
  }

  // ---------- The guild ----------

  datatype Skill = Skill(id: int, lv: int)

  datatype Member = Member(accountId: int, lv: int, online: bool)

  // A place that is taken, by someone of a valid level.
  predicate Levelling(m: Member) { m.accountId > 0 && m.lv >= 0 }

  function LevelSum(ms: seq<Member>, n: nat): nat
    requires n <= |ms|
  {
    if n == 0 then 0 else LevelSum(ms, n - 1) + if Levelling(ms[n - 1]) then ms[n - 1].lv else 0
  }

  function Levels(ms: seq<Member>, n: nat): nat
    requires n <= |ms|
  {
    if n == 0 then 0 else Levels(ms, n - 1) + if Levelling(ms[n - 1]) then 1 else 0
  }

  function OnlineIn(ms: seq<Member>, n: nat): nat
    requires n <= |ms|
  {
    if n == 0 then 0 else OnlineIn(ms, n - 1) + if ms[n - 1].accountId > 0 && ms[n - 1].online then 1 else 0
  }

  // The mean of the levels in the first n places, rounded down.
  function MeanLevel(ms: seq<Member>, n: nat): nat
    requires n <= |ms|
  {
    if Levels(ms, n) == 0 then 0 else LevelSum(ms, n) / Levels(ms, n)
  }

  lemma {:induction false} NoLevelNoSum(ms: seq<Member>, n: nat)
    requires n <= |ms| && Levels(ms, n) == 0
    ensures LevelSum(ms, n) == 0
    decreases n
  {
    if n > 0 { NoLevelNoSum(ms, n - 1); }
  }

  function SkillLevels(s: seq<Skill>): int
  {
    if s == [] then 0 else SkillLevels(s[..|s| - 1]) + s[|s| - 1].lv
  }

  lemma {:induction false} SkillRaised(s: seq<Skill>, i: nat)
    requires i < |s|
    ensures SkillLevels(s[i := s[i].(lv := s[i].lv + 1)]) == SkillLevels(s) + 1
    decreases |s|
  {
    var n := |s| - 1;
    if i < n {
      SkillRaised(s[..n], i);
      assert s[i := s[i].(lv := s[i].lv + 1)][..n] == s[..n][i := s[i].(lv := s[i].lv + 1)];
    } else {
      assert s[i := s[i].(lv := s[i].lv + 1)][..n] == s[..n];
    }
  }

  // The level is to be saved.
  function WithLevel(flag: bv16): (r: bv16)
    ensures r & GS_LEVEL != 0
  {
    flag | GS_LEVEL
  }

  class Guild {
    var lv: int
    var exp: nat
    var nextExp: nat
    var points: int
    var skill: seq<Skill>
    var maxMember: int
    var member: seq<Member>
    var averageLv: int
    var connectMember: int
    var saveFlag: bv16

    ghost predicate Valid()
      reads this
    {
      |skill| == MAX_GUILDSKILL && |member| == MAX_GUILD && exp < UINT64_LIMIT && lv >= 1
    }

    ghost function Status(): Rank reads `lv, `exp, `points { Rank(lv, exp, points) }

    // The balance between levels gained and skills learnt.
    ghost function Balance(): int reads `lv, `points, `skill { points + SkillLevels(skill) - lv }

    constructor ()
      ensures Valid() && lv == 1 && exp == 0 && points == 0
    {
      lv, exp, nextExp, points := 1, 0, 0, 0;
      skill := seq(MAX_GUILDSKILL, i => Skill(0, 0));
      member := seq(MAX_GUILD, i => Member(0, 0, false));
      maxMember, averageLv, connectMember, saveFlag := 16, 0, 0, 0;
    }

    // guild_checkskill.
    function CheckSkill(id: int): int
      requires |skill| == MAX_GUILDSKILL
      reads `skill
    {
      var idx := id - GD_SKILLBASE;
      if idx < 0 || idx >= MAX_GUILDSKILL then 0 else skill[idx].lv
    }

    // The first part of guild_calcinfo: experience is spent on levels.
    method LevelUp(t: ExpTable)
      requires lv >= 1 && exp < UINT64_LIMIT
      modifies `lv, `exp, `points, `nextExp
      ensures lv >= 1 && exp < UINT64_LIMIT && Status() == Levelled(t, old(Status()))
      ensures nextExp == NextExp(t, lv) && (exp < nextExp || nextExp == 0)
    {
      ghost var start := Status();
      LevellingAddsUp(t, start);
      var next := NextExp(t, lv);
      while exp >= next && next > 0
        invariant lv >= 1 && exp < UINT64_LIMIT && next == NextExp(t, lv)
        invariant Levelled(t, Status()) == Levelled(t, start)
        decreases exp
      {
        exp := exp - next;
        lv := lv + 1;
        points := points + 1;
        next := NextExp(t, lv);
      }
      nextExp := next;
    }

    // The last part of guild_calcinfo: the average level and the number of members online.
    method CountMembers()
      requires |member| == MAX_GUILD && maxMember <= MAX_GUILD
      modifies `averageLv, `connectMember
      ensures var n := if maxMember < 0 then 0 else maxMember;
        averageLv == MeanLevel(member, n) && connectMember == OnlineIn(member, n)
    {
      averageLv, connectMember := 0, 0;
      var i, c := 0, 0;
      while i < maxMember
        invariant 0 <= i <= MAX_GUILD && (i <= maxMember || i == 0)
        invariant averageLv == LevelSum(member, i) && c == Levels(member, i) && connectMember == OnlineIn(member, i)
      {
        if member[i].accountId > 0 {
          if member[i].lv >= 0 {
            averageLv := averageLv + member[i].lv;
            c := c + 1;
          }
          if member[i].online {
            connectMember := connectMember + 1;
          }
        }
        i := i + 1;
      }
      if c != 0 {
        averageLv := averageLv / c;
      } else {
        NoLevelNoSum(member, i);
      }
    }

    // guild_calcinfo: whether anything changed that clients see.
    method CalcInfo(t: ExpTable) returns (changed: bool)
      requires |skill| == MAX_GUILDSKILL && |member| == MAX_GUILD && exp < UINT64_LIMIT
      modifies `lv, `exp, `points, `nextExp, `maxMember, `averageLv, `connectMember, `saveFlag
      ensures Valid()
      ensures var n := if maxMember < 0 then 0 else maxMember;
        n <= MAX_GUILD && averageLv == MeanLevel(member, n) && connectMember == OnlineIn(member, n)
      ensures Status() == Levelled(t, if old(lv) <= 0 then old(Status()).(lv := 1) else old(Status()))
      ensures nextExp == NextExp(t, lv) && (exp < nextExp || nextExp == 0)
      ensures maxMember == if 16 + CheckSkill(GD_EXTENSION) * 6 > MAX_GUILD then MAX_GUILD
                           else 16 + CheckSkill(GD_EXTENSION) * 6
      ensures changed <==> maxMember != old(maxMember) || lv != old(lv) || points != old(points)
      ensures saveFlag == if changed then WithLevel(old(saveFlag)) else old(saveFlag)
    {
      hide MeanLevel, OnlineIn, Levelled, NextExp, CheckSkill, WithLevel;
      var oldMax, oldLv, oldPoints := maxMember, lv, points;
      if lv <= 0 {
        lv := 1;
      }
      LevelUp(t);
      SetCapacity();
      CountMembers();
      changed := maxMember != oldMax || lv != oldLv || points != oldPoints;
      if changed {
        SetLevelFlag();
      }
    }

    // Six more members for every level of the extension skill.
    method SetCapacity()
      requires |skill| == MAX_GUILDSKILL
      modifies `maxMember
      ensures maxMember == if 16 + CheckSkill(GD_EXTENSION) * 6 > MAX_GUILD then MAX_GUILD
                           else 16 + CheckSkill(GD_EXTENSION) * 6
    {
      maxMember := 16 + CheckSkill(GD_EXTENSION) * 6;
      if maxMember > MAX_GUILD {
        maxMember := MAX_GUILD;
      }
    }

    // A member's experience goes up (the experience case of mapif_parse_GuildMemberInfoChange).
    method GainExp(t: ExpTable, rate: nat, oldExp: nat, newExp: nat)
      requires Valid() && oldExp < UINT64_LIMIT && newExp < UINT64_LIMIT
      modifies this
      ensures Valid() && Balance() == old(Balance()) && skill == old(skill)
      ensures newExp <= oldExp ==> Status() == old(Status())
      ensures newExp > oldExp ==>
                && Status() == Gained(t, old(Status()), rate, newExp - oldExp)
                && saveFlag & GS_LEVEL != 0
    {
      hide Levelled;
      if newExp > oldExp {
        var gain := newExp - oldExp;
        if rate != 100 {
          gain := gain * rate % UINT64_LIMIT / 100;
        }
        if gain > UINT64_MAX - exp {
          exp := UINT64_MAX;
        } else {
          exp := exp + gain;
        }
        LevellingAddsUp(t, Status());
        var _ := CalcInfo(t);
        SetLevelFlag();
      }
    }

    method SetLevelFlag()
      modifies `saveFlag
      ensures saveFlag == WithLevel(old(saveFlag))
    {
      saveFlag := saveFlag | GS_LEVEL;
    }

    // mapif_parse_GuildSkillUp: a skill point is spent if there is one.
    method SkillUp(t: ExpTable, id: int, max: int)
      requires Valid()
      modifies this
      ensures Valid() && Balance() == old(Balance())
      ensures var idx := id - GD_SKILLBASE;
        if 0 <= idx < MAX_GUILDSKILL && old(points) > 0 && old(skill[idx]).id > 0 && old(skill[idx]).lv < max then
          && skill == old(skill)[idx := old(skill[idx]).(lv := old(skill[idx]).lv + 1)]
          && Status() == Levelled(t, old(Status()).(points := old(points) - 1))
          && saveFlag & GS_LEVEL != 0 && saveFlag & GS_SKILL != 0
        else skill == old(skill) && Status() == old(Status()) && saveFlag == old(saveFlag)
    {
      hide Levelled;
      var idx := id - GD_SKILLBASE;
      if idx < 0 || idx >= MAX_GUILDSKILL {
        return;
      }
      if points > 0 && skill[idx].id > 0 && skill[idx].lv < max {
        SkillRaised(skill, idx);
        skill := skill[idx := skill[idx].(lv := skill[idx].lv + 1)];
        points := points - 1;
        LevellingAddsUp(t, Status());
        var _ := CalcInfo(t);
        SetSkillFlags();
      }
    }

    method SetSkillFlags()
      modifies `saveFlag
      ensures saveFlag & GS_LEVEL != 0 && saveFlag & GS_SKILL != 0
    {
      saveFlag := saveFlag | GS_LEVEL | GS_SKILL;
    }
  }
}
