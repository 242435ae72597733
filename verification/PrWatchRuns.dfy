/** Every interleaving of polls, enables, disables and scope changes of the pull request watch. */
module PrWatchRuns {
  import opened Options
  import opened PrWatch

  type PollId = nat

  datatype Fence = Fence(enabled: bool, scope: string, pollSeq: nat)

  /** A poll under way: the fence it read, under the scope it polls for, and what it has loaded since. */
  datatype Poll = Poll(fence: Fence, startedAt: nat, cache: Option<Cache>, log: Option<seq<Event>>)

  /** The stored rows, the polls, and how often the fence row has been written. */
  datatype World = World(
    row: Option<Fence>, cache: Cache, log: seq<Event>,
    polls: map<PollId, Poll>, writes: nat, lastCommit: Option<nat>)

  const INITIAL := World(None, map[], [], map[], 0, None)

  datatype Step =
    | ApplyFence(enabled: bool, scope: string)
    | BeginPoll(poll: PollId, scope: string, now: nat)
    | LoadCache(poll: PollId)
    | LoadLog(poll: PollId)
    | Commit(poll: PollId, answers: Answers)

  /** Every write of the fence row counts. */
  function NextFence(row: Option<Fence>, enabled: bool, scope: string): Fence {
    Fence(enabled, scope, if row.Some? then row.value.pollSeq + 1 else 1)
  }

  /** Observations go when the watch stops or its scope changes. */
  function KeptCache(row: Option<Fence>, cache: Cache, enabled: bool, scope: string): Cache {
    if !enabled || (if row.Some? then row.value.scope else "") != scope then map[] else cache
  }

  function FenceApplied(w: World, enabled: bool, scope: string): World {
    w.(row := Some(NextFence(w.row, enabled, scope)), cache := KeptCache(w.row, w.cache, enabled, scope),
       writes := w.writes + 1)
  }

  predicate FenceMatches(row: Option<Fence>, fence: Fence) {
    row.Some? && row.value.enabled && row.value.scope == fence.scope && row.value.pollSeq == fence.pollSeq
  }

  predicate Accepts(w: World, poll: PollId) {
    && poll in w.polls && w.polls[poll].cache.Some? && w.polls[poll].log.Some?
    && FenceMatches(w.row, w.polls[poll].fence)
  }

  function ChangesOf(p: Poll, answers: Answers): Changes
    requires p.cache.Some? && p.log.Some?
  {
    PollChanges(p.cache.value, p.log.value, answers, p.startedAt, p.fence.scope)
  }

  function Exec(w: World, step: Step): World {
    match step
    case ApplyFence(enabled, scope) => FenceApplied(w, enabled, scope)
    case BeginPoll(poll, scope, now) =>
      if poll in w.polls || w.row.None? || !w.row.value.enabled then w
      else w.(polls := w.polls[poll := Poll(w.row.value.(scope := scope), now, None, None)])
    case LoadCache(poll) =>
      if poll !in w.polls || w.polls[poll].cache.Some? then w
      else w.(polls := w.polls[poll := w.polls[poll].(cache := Some(w.cache))])
    case LoadLog(poll) =>
      if poll !in w.polls || w.polls[poll].log.Some? then w
      else w.(polls := w.polls[poll := w.polls[poll].(log := Some(w.log))])
    case Commit(poll, answers) =>
      if !Accepts(w, poll) then w
      else
        var p := w.polls[poll];
        var changes := ChangesOf(p, answers);
        w.(row := Some(w.row.value.(pollSeq := w.row.value.pollSeq + 1)),
           cache := Committed(w.cache, changes), log := Recording(w.log, changes.events),
           writes := w.writes + 1, lastCommit := Some(p.startedAt))
  }

  function Run(w: World, steps: seq<Step>): World
    decreases |steps|
  {
    if steps == [] then w else Run(Exec(w, steps[0]), steps[1..])
  }

  // ---- The fence ----------------------------------------------------------------------------------

  predicate PollFenced(w: World, p: Poll) {
    && w.row.Some? && p.fence.pollSeq <= w.row.value.pollSeq
    && (p.fence.pollSeq == w.row.value.pollSeq ==>
          && w.row.value.enabled
          && (p.cache.Some? ==> p.cache.value == w.cache)
          && (p.log.Some? ==> p.log.value == w.log))
  }

  predicate Fenced(w: World) {
    && (w.row.None? ==> w.cache == map[] && w.writes == 0)
    && (w.row.Some? ==>
          && w.writes == w.row.value.pollSeq
          && (!w.row.value.enabled ==> w.cache == map[])
          && (forall n :: n in w.cache ==> w.cache[n].scope == w.row.value.scope && w.cache[n].node == n))
    && (forall p :: p in w.polls ==> PollFenced(w, w.polls[p]))
  }

  /** The last of the upserts for this pull request. */
  function Latest(upserts: seq<Observation>, n: NodeId): Option<nat> {
    if upserts == [] then None
    else if upserts[|upserts| - 1].node == n then Some(|upserts| - 1)
    else Latest(upserts[..|upserts| - 1], n)
  }

  lemma {:induction false} LatestIsLast(upserts: seq<Observation>, n: NodeId)
    ensures var latest := Latest(upserts, n);
            && (latest.Some? ==> latest.value < |upserts| && upserts[latest.value].node == n)
            && (forall i :: 0 <= i < |upserts| && upserts[i].node == n ==> latest.Some? && i <= latest.value)
  {
    if upserts != [] {
      var init := upserts[..|upserts| - 1];
      LatestIsLast(init, n);
      assert forall i :: 0 <= i < |init| ==> init[i] == upserts[i];
    }
  }

  lemma {:induction false} UpsertedLatest(cache: Cache, upserts: seq<Observation>, n: NodeId)
    ensures var after, latest := Upserted(cache, upserts), Latest(upserts, n);
            if latest.Some? then latest.value < |upserts| && n in after && after[n] == upserts[latest.value]
            else (n in after <==> n in cache) && (n in cache ==> after[n] == cache[n])
  {
    if upserts != [] {
      UpsertedLatest(cache, upserts[..|upserts| - 1], n);
      LatestIsLast(upserts[..|upserts| - 1], n);
    }
  }

  // ---- What a commit leaves, spelled out ------------------------------------------------------------

  predicate HasKey(log: seq<Event>, key: Key) {
    exists i :: 0 <= i < |log| && log[i].key == key
  }

  /** The log grows by those of the events whose key is in it neither before nor from an earlier one of them. */
  predicate StoredOnce(before: seq<Event>, events: seq<Event>, after: seq<Event>) {
    && before <= after
    && (forall e :: e in events ==> HasKey(after, e.key))
    && (forall i :: |before| <= i < |after| ==> after[i] in events && !HasKey(after[..i], after[i].key))
  }

  /** A pull request has its last upsert, or what it had when there is none, unless it is deleted. */
  ghost predicate Replaced(before: Cache, upserts: seq<Observation>, deletes: seq<NodeId>, after: Cache) {
    forall n ::
      && (n in after <==> n !in deletes && (n in before || exists i :: 0 <= i < |upserts| && upserts[i].node == n))
      && (n in after ==>
            if exists i :: 0 <= i < |upserts| && upserts[i].node == n
            then exists i :: && 0 <= i < |upserts| && upserts[i].node == n && after[n] == upserts[i]
                             && forall j :: i < j < |upserts| ==> upserts[j].node != n
            else after[n] == before[n])
  }

  lemma {:induction false} RecordingStoresOnce(log: seq<Event>, events: seq<Event>)
    ensures StoredOnce(log, events, Recording(log, events))
  {
    if events != [] {
      var init, last := events[..|events| - 1], events[|events| - 1];
      RecordingStoresOnce(log, init);
      assert events == init + [last];
      var was, now := Recording(log, init), Recording(log, events);
      if Recorded(was, last.key) {
        assert now == was && HasKey(was, last.key);
      } else {
        assert now == was + [last] && now[..|was|] == was && now[|was|] == last;
        forall e | e in events ensures HasKey(now, e.key) {
          if e in init {
            var i :| 0 <= i < |was| && was[i].key == e.key;
            assert now[i].key == e.key;
          }
        }
        forall i | |log| <= i < |now| ensures now[i] in events && !HasKey(now[..i], now[i].key) {
          if i < |was| { assert now[..i] == was[..i] && now[i] == was[i]; }
        }
      }
    }
  }

  lemma CommittedReplaces(cache: Cache, changes: Changes)
    ensures Replaced(cache, changes.upserts, changes.deletes, Committed(cache, changes))
  {
    hide Upserted, Latest;
    forall n
      ensures n in Upserted(cache, changes.upserts) <==>
        n in cache || exists i :: 0 <= i < |changes.upserts| && changes.upserts[i].node == n
      ensures Latest(changes.upserts, n).Some? ==>
        && Latest(changes.upserts, n).value < |changes.upserts|
        && changes.upserts[Latest(changes.upserts, n).value].node == n
        && n in Upserted(cache, changes.upserts)
        && Upserted(cache, changes.upserts)[n] == changes.upserts[Latest(changes.upserts, n).value]
      ensures Latest(changes.upserts, n).None? && n in cache ==>
        n in Upserted(cache, changes.upserts) && Upserted(cache, changes.upserts)[n] == cache[n]
      ensures forall i :: 0 <= i < |changes.upserts| && changes.upserts[i].node == n ==>
        Latest(changes.upserts, n).Some? && i <= Latest(changes.upserts, n).value
    {
      UpsertedLatest(cache, changes.upserts, n);
      LatestIsLast(changes.upserts, n);
    }
  }

  lemma UpsertedFrom(cache: Cache, upserts: seq<Observation>, n: NodeId)
    ensures n in Upserted(cache, upserts) <==> n in cache || exists i :: 0 <= i < |upserts| && upserts[i].node == n
    ensures n in Upserted(cache, upserts) ==>
              || (n in cache && Upserted(cache, upserts)[n] == cache[n]
                  && (forall i :: 0 <= i < |upserts| ==> upserts[i].node != n))
              || (exists i :: 0 <= i < |upserts| && upserts[i].node == n && Upserted(cache, upserts)[n] == upserts[i]
                              && forall j :: i < j < |upserts| ==> upserts[j].node != n)
  {
    hide Upserted, Latest;
    UpsertedLatest(cache, upserts, n);
    LatestIsLast(upserts, n);
  }

  lemma {:induction false} UpsertScopes(cache: Cache, log: seq<Event>, seen: seq<Seen>, scope: string, i: nat)
    requires i < |SeenUpserts(cache, log, seen, scope)|
    ensures SeenUpserts(cache, log, seen, scope)[i].scope == scope
  {
    if i < |SeenUpserts(cache, log, seen[..|seen| - 1], scope)| {
      UpsertScopes(cache, log, seen[..|seen| - 1], scope, i);
    }
  }

  lemma {:induction false} LeavingScopes(cache: Cache, answers: AuthorAnswers, leaving: seq<NodeId>, i: nat)
    requires forall k :: 0 <= k < |leaving| ==> leaving[k] in cache && cache[leaving[k]].node == leaving[k]
    requires i < |LeavingUpserts(cache, answers, leaving)|
    ensures exists n ::
              n in leaving && n in cache && Left(cache, answers, n) == Some(LeavingUpserts(cache, answers, leaving)[i])
  {
    var init := leaving[..|leaving| - 1];
    if i < |LeavingUpserts(cache, answers, init)| {
      LeavingScopes(cache, answers, init, i);
      var n :| n in init && n in cache && Left(cache, answers, n) == Some(LeavingUpserts(cache, answers, init)[i]);
      assert n in leaving;
    } else {
      assert leaving[|leaving| - 1] in leaving;
    }
  }

  lemma UpsertInScope(cache: Cache, log: seq<Event>, author: AuthorAnswers, scope: string, i: nat)
    requires forall m :: m in cache ==> cache[m].scope == scope && cache[m].node == m
    requires var leaving := LeavingIds(cache, author);
             i < |SeenUpserts(cache, log, author.seen, scope) + LeavingUpserts(cache, author, leaving)|
    ensures var leaving := LeavingIds(cache, author);
            (SeenUpserts(cache, log, author.seen, scope) + LeavingUpserts(cache, author, leaving))[i].scope == scope
  {
    hide Left, LeavingIds, SeenUpserts, LeavingUpserts;
    var leaving := LeavingIds(cache, author);
    var seen := SeenUpserts(cache, log, author.seen, scope);
    if i < |seen| {
      UpsertScopes(cache, log, author.seen, scope, i);
    } else {
      LeavingScopes(cache, author, leaving, i - |seen|);
      var m :| m in leaving && m in cache &&
        Left(cache, author, m) == Some(LeavingUpserts(cache, author, leaving)[i - |seen|]);
      LeftKeepsScope(cache, author, m);
    }
  }

  lemma ChangesKeepScope(cache: Cache, log: seq<Event>, answers: Answers, at: nat, scope: string, n: NodeId)
    requires forall m :: m in cache ==> cache[m].scope == scope && cache[m].node == m
    requires n in Committed(cache, PollChanges(cache, log, answers, at, scope))
    ensures var o := Committed(cache, PollChanges(cache, log, answers, at, scope))[n]; o.scope == scope && o.node == n
  {
    hide LeavingIds, SeenEvents, SeenUpserts, LeavingUpserts, LeavingDeletes, Upserted;
    var changes := PollChanges(cache, log, answers, at, scope);
    UpsertedFrom(cache, changes.upserts, n);
    if i :| (&& 0 <= i < |changes.upserts| && changes.upserts[i].node == n
             && Upserted(cache, changes.upserts)[n] == changes.upserts[i])
    {
      UpsertInScope(cache, log, answers.author.value, scope, i);
    }
  }

  lemma LeftKeepsScope(cache: Cache, answers: AuthorAnswers, n: NodeId)
    requires n in cache
    ensures var left := Left(cache, answers, n);
            left.Some? ==> left.value.scope == cache[n].scope && left.value.node == cache[n].node
                           && left.value.lastKnown == cache[n].lastKnown
  {
  }

  lemma StepFenced(w: World, step: Step)
    requires Fenced(w)
    ensures Fenced(Exec(w, step))
  {
    hide PollChanges, Committed, Recording;
    if step.Commit? && Accepts(w, step.poll) {
      var p := w.polls[step.poll];
      forall n | n in Exec(w, step).cache
        ensures Exec(w, step).cache[n].scope == w.row.value.scope && Exec(w, step).cache[n].node == n
      {
        ChangesKeepScope(w.cache, p.log.value, step.answers, p.startedAt, p.fence.scope, n);
      }
    }
  }

  lemma {:induction false} RunFenced(w: World, steps: seq<Step>)
    requires Fenced(w)
    ensures Fenced(Run(w, steps))
    ensures w.writes <= Run(w, steps).writes
    decreases |steps|
  {
    hide Exec, Fenced;
    if steps != [] {
      StepFenced(w, steps[0]);
      WritesGrow(w, steps[0]);
      RunFenced(Exec(w, steps[0]), steps[1..]);
    }
  }

  lemma WritesGrow(w: World, step: Step)
    ensures w.writes <= Exec(w, step).writes
    ensures Exec(w, step).writes == w.writes ==>
              Exec(w, step).row == w.row && Exec(w, step).cache == w.cache && Exec(w, step).log == w.log
  {
    hide PollChanges;
  }

  /** Every stored observation was produced under the current scope, and a watch that is off has none. */
  lemma ObservationsInScope(steps: seq<Step>, n: NodeId)
    requires n in Run(INITIAL, steps).cache
    ensures var w := Run(INITIAL, steps); w.row.Some? && w.row.value.enabled && w.cache[n].scope == w.row.value.scope
  {
    hide Exec, Run;
    RunFenced(INITIAL, steps);
  }

  lemma {:induction false} UnwrittenUnchanged(w: World, steps: seq<Step>)
    requires Fenced(w) && Run(w, steps).writes == w.writes
    ensures var v := Run(w, steps); v.row == w.row && v.cache == w.cache && v.log == w.log
    decreases |steps|
  {
    hide Exec, Fenced;
    if steps != [] {
      var next := Exec(w, steps[0]);
      StepFenced(w, steps[0]);
      WritesGrow(w, steps[0]);
      RunFenced(next, steps[1..]);
      UnwrittenUnchanged(next, steps[1..]);
    }
  }

  lemma {:induction false} PollKeepsFence(w: World, steps: seq<Step>, poll: PollId)
    requires poll in w.polls
    ensures poll in Run(w, steps).polls && Run(w, steps).polls[poll].fence == w.polls[poll].fence
            && Run(w, steps).polls[poll].startedAt == w.polls[poll].startedAt
    decreases |steps|
  {
    hide Exec;
    if steps != [] {
      PollKept(w, steps[0], poll);
      PollKeepsFence(Exec(w, steps[0]), steps[1..], poll);
    }
  }

  lemma PollKept(w: World, step: Step, poll: PollId)
    requires poll in w.polls
    ensures poll in Exec(w, step).polls && Exec(w, step).polls[poll].fence == w.polls[poll].fence
            && Exec(w, step).polls[poll].startedAt == w.polls[poll].startedAt
  {
    hide PollChanges;
  }

  /**
   * Committed polls are serial: if a poll commits, nothing wrote the fence, the cache or the log between
   * its reading the fence and its commit, so what it loaded on the way is what it commits against.
   */
  lemma CommitIsSerial(before: seq<Step>, begin: Step, between: seq<Step>, poll: PollId)
    requires begin.BeginPoll? && begin.poll == poll && poll !in Run(INITIAL, before).polls
    requires poll in Exec(Run(INITIAL, before), begin).polls
    requires Accepts(Run(Exec(Run(INITIAL, before), begin), between), poll)
    ensures var w := Run(INITIAL, before); var v := Run(Exec(w, begin), between);
            && v.row == w.row && v.cache == w.cache && v.log == w.log && v.writes == w.writes
            && v.polls[poll].cache == Some(v.cache) && v.polls[poll].log == Some(v.log)
            && v.polls[poll].startedAt == begin.now
  {
    hide Run, PollChanges;
    var w := Run(INITIAL, before);
    var started := Exec(w, begin);
    RunFenced(INITIAL, before);
    StepFenced(w, begin);
    RunFenced(started, between);
    PollKeepsFence(started, between, poll);
    UnwrittenUnchanged(started, between);
  }
}
