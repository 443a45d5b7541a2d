/** Whispers between map servers (inter.c): a whisper is put to all of them, and their answers make
    up one result, unless the whisper expires first. */
module Whispers {
  const WISDATA_TTL: int := 60000
  const WISDELLIST_MAX: nat := 256

  // A whisper that waits for answers: how many are missing, and when it was sent.
  datatype Wis = Wis(count: int, tick: int)

  // A result sent back; whisper 0 stands for a request that was answered at once.
  datatype Result = Result(id: nat, flag: int)

  // What a map server has answered.
  datatype Answer = Answer(server: nat, flag: int)

  // wis_db, the number given out last, the results sent, and the history: of every whisper sent,
  // which servers were asked, what they have answered so far, and whether it expired.
  datatype State = State(db: map<nat, Wis>, wisid: nat, results: seq<Result>,
                         asked: seq<set<nat>>, answers: seq<seq<Answer>>, dropped: set<nat>)

  datatype Event =
    // The addressee does not exist, or is the sender.
    | Refused
    | Request(servers: set<nat>, tick: int)
    | Reply(server: nat, id: nat, flag: int)

  const EMPTY: State := State(map[], 0, [], [], [], {})

  // DIFF_TICK, in 32 bits.
  function DiffTick(a: int, b: int): int { (a - b + 0x8000_0000) % 0x1_0000_0000 - 0x8000_0000 }

  predicate Expired(w: Wis, now: int) { DiffTick(now, w.tick) > WISDATA_TTL }

  function Swept(db: map<nat, Wis>, now: int): map<nat, Wis>
  {
    map k | k in db && !Expired(db[k], now) :: db[k]
  }

  // Answers to a whisper are recorded whether it still waits for them or not.
  function Recorded(s: State, id: nat, a: Answer): State
  {
    if 1 <= id <= |s.answers| then s.(answers := s.answers[id - 1 := s.answers[id - 1] + [a]]) else s
  }

  function Do(s: State, e: Event): State
  {
    match e
    case Refused => s.(results := s.results + [Result(0, 1)])
    case Request(servers, tick) =>
      State(Swept(s.db, tick)[s.wisid + 1 := Wis(|servers|, tick)], s.wisid + 1, s.results,
            s.asked + [servers], s.answers + [[]], s.dropped + (s.db.Keys - Swept(s.db, tick).Keys))
    case Reply(server, id, flag) =>
      var r := Recorded(s, id, Answer(server, flag));
      if id !in s.db then r
      else
        var w := s.db[id].(count := s.db[id].count - 1);
        if w.count <= 0 || flag != 1 then r.(db := s.db - {id}, results := s.results + [Result(id, flag)])
        else r.(db := s.db[id := w])
  }

  function Run(es: seq<Event>): State
  {
    if es == [] then EMPTY else Do(Run(es[..|es| - 1]), es[|es| - 1])
  }

  // ---------- What the answers amount to ----------

  datatype Option<T> = None | Some(value: T)

  // The first answer other than 1, or the last one expected.
  function Verdict(asked: nat, answers: seq<Answer>): Option<int>
  {
    if answers == [] then None
    else
      var v := Verdict(asked, answers[..|answers| - 1]);
      var flag := answers[|answers| - 1].flag;
      if v.Some? then v else if flag != 1 || |answers| >= asked then Some(flag) else None
  }

  // The verdict is 1 only if as many servers as were asked have answered 1; any other verdict is
  // the first answer that is not 1.
  lemma {:induction false} VerdictCounts(asked: nat, answers: seq<Answer>)
    ensures Verdict(asked, answers) == None ==>
              (forall i | 0 <= i < |answers| :: answers[i].flag == 1) && (|answers| < asked || answers == [])
    ensures Verdict(asked, answers) == Some(1) ==>
              |answers| >= asked && answers != [] && forall i | 0 <= i < asked :: answers[i].flag == 1
    ensures Verdict(asked, answers).Some? && Verdict(asked, answers).value != 1 ==>
              exists i :: 0 <= i < |answers| && answers[i].flag == Verdict(asked, answers).value
                          && forall j | 0 <= j < i :: answers[j].flag == 1
    decreases |answers|
  {
    if answers != [] {
      var n := |answers| - 1;
      var front := answers[..n];
      VerdictCounts(asked, front);
      assert forall i | 0 <= i < n :: front[i] == answers[i];
      if Verdict(asked, front).Some? && Verdict(asked, front).value != 1 {
        var i :| 0 <= i < |front| && front[i].flag == Verdict(asked, front).value
              && forall j | 0 <= j < i :: front[j].flag == 1;
        assert answers[i].flag == Verdict(asked, answers).value;
      }
    }
  }

  // The servers that gave the first n answers.
  function Voices(answers: seq<Answer>, n: nat): set<nat>
    requires n <= |answers|
  {
    set i | 0 <= i < n :: answers[i].server
  }

  // Only servers that were asked have answered, and each at most once.
  ghost predicate OnceEach(asked: set<nat>, answers: seq<Answer>)
  {
    && (forall i | 0 <= i < |answers| :: answers[i].server in asked)
    && (forall i, j | 0 <= i < j < |answers| :: answers[i].server != answers[j].server)
  }

  lemma {:induction false} VoicesCounted(asked: set<nat>, answers: seq<Answer>, n: nat)
    requires OnceEach(asked, answers) && n <= |answers|
    ensures |Voices(answers, n)| == n && Voices(answers, n) <= asked
    decreases n
  {
    if n > 0 {
      VoicesCounted(asked, answers, n - 1);
      assert Voices(answers, n) == Voices(answers, n - 1) + {answers[n - 1].server};
      assert answers[n - 1].server !in Voices(answers, n - 1);
    }
  }

  lemma SubsetOfSameSize(a: set<nat>, b: set<nat>)
    requires a <= b && |a| == |b|
    ensures a == b
  {
    assert b == a + (b - a);
    assert |b - a| == 0;
  }

  // Verdict 1: every server that was asked has answered 1. Any other verdict: a server that was
  // asked gave it, and all who answered before that one answered 1.
  lemma VerdictMeans(asked: set<nat>, answers: seq<Answer>)
    requires OnceEach(asked, answers)
    ensures Verdict(|asked|, answers) == Some(1) ==> asked != {} && forall s | s in asked :: Answer(s, 1) in answers
    ensures Verdict(|asked|, answers).Some? && Verdict(|asked|, answers).value != 1 ==>
              exists i :: 0 <= i < |answers| && answers[i].flag == Verdict(|asked|, answers).value
                          && answers[i].server in asked && forall j | 0 <= j < i :: answers[j].flag == 1
    ensures Verdict(|asked|, answers) == None ==>
              answers == [] || exists s :: s in asked && forall i | 0 <= i < |answers| :: answers[i].server != s
  {
    VerdictCounts(|asked|, answers);
    VoicesCounted(asked, answers, |answers|);
    var n := |asked|;
    if Verdict(n, answers) == Some(1) {
      VoicesCounted(asked, answers, n);
      SubsetOfSameSize(Voices(answers, n), asked);
      assert answers[0].server in asked;
      forall s | s in asked ensures Answer(s, 1) in answers {
        assert s in Voices(answers, n);
        var i :| 0 <= i < n && answers[i].server == s;
        assert answers[i] == Answer(s, 1);
      }
    }
    if Verdict(n, answers) == None && answers != [] {
      var silent := asked - Voices(answers, |answers|);
      assert |asked| == |Voices(answers, |answers|)| + |silent|;
      assert silent != {};
      var s :| s in silent;
      assert s in asked && forall i | 0 <= i < |answers| :: answers[i].server != s;
    }
  }

  // ---------- At most one result ----------

  // The results sent for a whisper.
  function For(results: seq<Result>, id: nat): seq<int>
  {
    if results == [] then []
    else For(results[..|results| - 1], id) + if results[|results| - 1].id == id then [results[|results| - 1].flag] else []
  }

  lemma ForNext(results: seq<Result>, r: Result, id: nat)
    ensures For(results + [r], id) == For(results, id) + if r.id == id then [r.flag] else []
  {
    assert (results + [r])[..|results|] == results;
  }

  // While a whisper waits there is no verdict and no result; afterwards there is the verdict, or,
  // if it expired, nothing.
  ghost predicate Settled(s: State, id: nat)
    requires 1 <= id <= |s.asked| == |s.answers|
  {
    var asked, answers := |s.asked[id - 1]|, s.answers[id - 1];
    if id in s.db then
      && For(s.results, id) == [] && Verdict(asked, answers) == None && s.db[id].count == asked - |answers|
    else if id in s.dropped then For(s.results, id) == []
    else Verdict(asked, answers).Some? && For(s.results, id) == [Verdict(asked, answers).value]
  }

  ghost predicate Inv(s: State)
  {
    && |s.asked| == |s.answers| == s.wisid
    && (forall k | k in s.db :: 1 <= k <= s.wisid && k !in s.dropped)
    && (forall k | k in s.dropped :: k <= s.wisid)
    && (forall r | 0 <= r < |s.results| :: s.results[r].id <= s.wisid)
    && forall id: nat | 1 <= id <= s.wisid :: Settled(s, id)
  }

  lemma {:induction false} NoneYet(results: seq<Result>, id: nat)
    requires forall r | 0 <= r < |results| :: results[r].id < id
    ensures For(results, id) == []
    decreases |results|
  {
    if results != [] { NoneYet(results[..|results| - 1], id); }
  }

  lemma AnswerRecorded(asked: nat, answers: seq<Answer>, a: Answer)
    ensures var v := Verdict(asked, answers);
      Verdict(asked, answers + [a])
      == if v.Some? then v else if a.flag != 1 || |answers| + 1 >= asked then Some(a.flag) else None
  {
    assert (answers + [a])[..|answers|] == answers;
  }

  lemma SettledStep(s: State, e: Event, id: nat)
    requires Inv(s) && 1 <= id <= Do(s, e).wisid && |Do(s, e).asked| == |Do(s, e).answers| == Do(s, e).wisid
    ensures Settled(Do(s, e), id)
  {
    hide Expired, For, Verdict;
    if id <= s.wisid { assert Settled(s, id); }
    match e
    case Refused => ForNext(s.results, Result(0, 1), id);
    case Request(servers, _) =>
      if id == s.wisid + 1 {
        NoneYet(s.results, id);
        NoVerdict(|servers|);
      }
    case Reply(server, k, flag) =>
      ForNext(s.results, Result(k, flag), id);
      AnswerRecorded(|s.asked[id - 1]|, s.answers[id - 1], Answer(server, flag));
  }

  lemma NoVerdict(asked: nat)
    ensures Verdict(asked, []) == None
  {
  }

  lemma InvStep(s: State, e: Event)
    requires Inv(s)
    ensures Inv(Do(s, e))
  {
    hide Settled;
    forall id: nat | 1 <= id <= Do(s, e).wisid ensures Settled(Do(s, e), id) { SettledStep(s, e, id); }
  }

  lemma {:induction false} RunInv(es: seq<Event>)
    ensures Inv(Run(es))
    decreases |es|
  {
    hide Do;
    if es != [] {
      RunInv(es[..|es| - 1]);
      InvStep(Run(es[..|es| - 1]), es[|es| - 1]);
    }
  }

  // Whatever the order of requests, answers and expiries, a whisper has at most one result, and
  // that is the verdict on its answers.
  lemma AtMostOneResult(es: seq<Event>, id: nat)
    requires 1 <= id <= Run(es).wisid
    ensures |Run(es).asked| == |Run(es).answers| == Run(es).wisid
    ensures |For(Run(es).results, id)| <= 1
    ensures For(Run(es).results, id) == [] <==> id in Run(es).db || id in Run(es).dropped
    ensures For(Run(es).results, id) != [] ==>
              Verdict(|Run(es).asked[id - 1]|, Run(es).answers[id - 1]) == Some(For(Run(es).results, id)[0])
  {
    RunInv(es);
    assert Settled(Run(es), id);
  }

  // A reply to a whisper comes from a server that was asked and has not replied to it yet.
  predicate Orderly(s: State, e: Event)
  {
    e.Reply? ==>
      && 1 <= e.id <= |s.asked| && e.id <= |s.answers|
      && e.server in s.asked[e.id - 1] && !HasAnswered(s.answers[e.id - 1], e.server)
  }

  predicate HasAnswered(answers: seq<Answer>, server: nat)
  {
    exists i :: 0 <= i < |answers| && answers[i].server == server
  }

  ghost predicate AllOrderly(es: seq<Event>)
  {
    forall n | 0 <= n < |es| :: Orderly(Run(es[..n]), es[n])
  }

  lemma {:induction false} AnsweredOnceEach(es: seq<Event>, id: nat)
    requires AllOrderly(es) && 1 <= id <= Run(es).wisid
    ensures |Run(es).asked| == |Run(es).answers| == Run(es).wisid
    ensures OnceEach(Run(es).asked[id - 1], Run(es).answers[id - 1])
    decreases |es|
  {
    hide Do, Orderly, Inv, OnceEach;
    RunSizes(es);
    if es != [] {
      var n := |es| - 1;
      RunSizes(es[..n]);
      assert forall m | 0 <= m < n :: es[..n][..m] == es[..m] && es[..n][m] == es[m];
      if id <= Run(es[..n]).wisid { AnsweredOnceEach(es[..n], id); }
      assert Orderly(Run(es[..n]), es[n]);
      OnceEachStep(Run(es[..n]), es[n], id);
    }
  }

  lemma RunSizes(es: seq<Event>)
    ensures |Run(es).asked| == |Run(es).answers| == Run(es).wisid
  {
    RunInv(es);
  }

  lemma OnceEachStep(s: State, e: Event, id: nat)
    requires |s.asked| == |s.answers| == s.wisid && Orderly(s, e) && 1 <= id <= Do(s, e).wisid
    requires id <= s.wisid ==> OnceEach(s.asked[id - 1], s.answers[id - 1])
    ensures |Do(s, e).asked| == |Do(s, e).answers| == Do(s, e).wisid
    ensures OnceEach(Do(s, e).asked[id - 1], Do(s, e).answers[id - 1])
  {
    hide Swept, Expired;
  }

  // If every server asked replies at most once, and nobody else does, the result of a whisper is
  // 1 only if every server asked has answered 1, and otherwise what the first one to disagree
  // has answered.
  lemma ResultMeans(es: seq<Event>, id: nat)
    requires AllOrderly(es) && 1 <= id <= Run(es).wisid && For(Run(es).results, id) != []
    ensures id <= |Run(es).asked| == |Run(es).answers|
    ensures var result, asked, answers := For(Run(es).results, id)[0], Run(es).asked[id - 1], Run(es).answers[id - 1];
      if result == 1 then asked != {} && forall s | s in asked :: Answer(s, 1) in answers
      else exists i :: 0 <= i < |answers| && answers[i].flag == result && answers[i].server in asked
                       && forall j | 0 <= j < i :: answers[j].flag == 1
  {
    hide Run, For, Verdict;
    AtMostOneResult(es, id);
    AnsweredOnceEach(es, id);
    VerdictMeans(Run(es).asked[id - 1], Run(es).answers[id - 1]);
  }

  // ---------- The handlers ----------

  class Server {
    var db: map<nat, Wis>
    var wisid: nat
    const dellist: array<nat>
    var delnum: nat
    ghost var results: seq<Result>
    ghost var asked: seq<set<nat>>
    ghost var answers: seq<seq<Answer>>
    ghost var dropped: set<nat>

    ghost function Now(): State reads this { State(db, wisid, results, asked, answers, dropped) }

    ghost predicate Valid()
      reads this
    {
      dellist.Length == WISDELLIST_MAX && forall k | k in db :: k <= wisid
    }

    constructor ()
      ensures Valid() && Now() == EMPTY && fresh(dellist)
    {
      db, wisid, delnum := map[], 0, 0;
      dellist := new nat[WISDELLIST_MAX];
      results, asked, answers, dropped := [], [], [], {};
    }

    // wis_db->foreach with check_ttl_wisdata_sub: up to 256 expired whispers are listed.
    method ListExpired(tick: int)
      requires Valid()
      modifies `delnum, dellist
      ensures delnum <= WISDELLIST_MAX && forall i, j | 0 <= i < j < delnum :: dellist[i] < dellist[j]
      ensures forall i | 0 <= i < delnum :: dellist[i] in db && Expired(db[dellist[i]], tick)
      ensures delnum < WISDELLIST_MAX ==> forall k | k in db && Expired(db[k], tick) :: k in dellist[..delnum]
    {
      hide Expired;
      delnum := 0;
      var k := 0;
      while k <= wisid
        invariant 0 <= k <= wisid + 1 && delnum <= WISDELLIST_MAX
        invariant forall i, j | 0 <= i < j < delnum :: dellist[i] < dellist[j]
        invariant forall i | 0 <= i < delnum :: dellist[i] < k && dellist[i] in db && Expired(db[dellist[i]], tick)
        invariant delnum < WISDELLIST_MAX ==>
                    forall j: nat | j < k && j in db && Expired(db[j], tick) :: j in dellist[..delnum]
      {
        if k in db && Expired(db[k], tick) && delnum < WISDELLIST_MAX {
          ghost var listed := dellist[..delnum];
          dellist[delnum] := k;
          delnum := delnum + 1;
          assert dellist[..delnum] == listed + [k];
        }
        k := k + 1;
      }
    }

    // The listed whispers are removed.
    method RemoveListed(tick: int)
      requires Valid() && delnum <= WISDELLIST_MAX
      requires forall i, j | 0 <= i < j < delnum :: dellist[i] < dellist[j]
      requires forall i | 0 <= i < delnum :: dellist[i] in db && Expired(db[dellist[i]], tick)
      modifies `db
      ensures forall k :: k in db <==> k in old(db) && k !in dellist[..delnum]
      ensures forall k | k in db :: db[k] == old(db)[k]
      ensures |db| == |old(db)| - delnum
    {
      hide Expired;
      var i := 0;
      while i < delnum
        invariant 0 <= i <= delnum
        invariant forall k :: k in db <==> k in old(db) && k !in dellist[..i]
        invariant forall k | k in db :: db[k] == old(db)[k]
        invariant |db| == |old(db)| - i
      {
        assert dellist[i] !in dellist[..i];
        assert dellist[i] in db;
        assert db.Keys - {dellist[i]} == (db - {dellist[i]}).Keys;
        db := db - {dellist[i]};
        i := i + 1;
      }
    }

    // check_ttl_wisdata: the sweep ends, and nothing expired is left, however long the list of
    // expired whispers is.
    method CheckTtl(tick: int)
      requires Valid()
      modifies `db, `delnum, dellist
      ensures Valid() && db == Swept(old(db), tick)
    {
      hide Expired;
      var again := true;
      while again
        invariant forall k | k in db :: k in old(db) && db[k] == old(db)[k]
        invariant forall k | k in old(db) && k !in db :: Expired(old(db)[k], tick)
        invariant !again ==> forall k | k in db :: !Expired(db[k], tick)
        decreases |db|, again
      {
        ListExpired(tick);
        RemoveListed(tick);
        again := delnum >= WISDELLIST_MAX;
      }
      assert db == Swept(old(db), tick);
    }

    // mapif_parse_WisRequest: known tells whether the addressee exists, self whether it is the
    // sender; servers are the map servers the whisper is sent to.
    method ParseRequest(known: bool, self: bool, servers: set<nat>, tick: int)
      requires Valid()
      modifies this, dellist
      ensures Valid()
      ensures Now() == Do(old(Now()), if known && !self then Request(servers, tick) else Refused)
    {
      if !known {
        results := results + [Result(0, 1)];
      } else if self {
        results := results + [Result(0, 1)];
      } else {
        ghost var waiting := db.Keys;
        CheckTtl(tick);
        dropped := dropped + (waiting - db.Keys);
        wisid := wisid + 1;
        db := db[wisid := Wis(|servers|, tick)];
        asked := asked + [servers];
        answers := answers + [[]];
      }
    }

    // mapif_parse_WisReply; which server it comes from is not looked at.
    method ParseReply(ghost server: nat, id: nat, flag: int)
      requires Valid()
      modifies this
      ensures Valid() && Now() == Do(old(Now()), Reply(server, id, flag))
    {
      if 1 <= id <= |answers| {
        answers := answers[id - 1 := answers[id - 1] + [Answer(server, flag)]];
      }
      if id !in db {
        return;
      }
      var wd := db[id].(count := db[id].count - 1);
      if wd.count <= 0 || flag != 1 {
        results := results + [Result(id, flag)];
        db := db - {id};
      } else {
        db := db[id := wd];
      }
    }
  }
}
