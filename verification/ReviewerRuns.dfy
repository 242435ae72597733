/**
 * Every interleaving of reviewer polls, enables, disables and scope changes. A poll reads its fence, then the
 * cache, then whether a poll came before, then one baseline after another, and commits last.
 */
module ReviewerRuns {
  import opened Options
  import R = ReviewerWatch
  import opened PrWatchRuns

  /** A poll under way and what it has read; a baseline that is not stored is read as None. */
  datatype Reading = Reading(
    fence: Fence, cache: Option<R.Cache>, polled: Option<bool>, baselines: map<R.NodeId, Option<nat>>)

  datatype State = State(row: Option<Fence>, review: R.World, readings: map<PollId, Reading>)

  const START := State(None, R.INITIAL, map[])

  /** `found` is None when only the author role has something to commit. */
  datatype Action =
    | Fencing(enabled: bool, scope: string)
    | Begin(poll: PollId, scope: string)
    | ReadCache(poll: PollId)
    | ReadPolled(poll: PollId)
    | ReadBaseline(poll: PollId, node: R.NodeId)
    | Commits(poll: PollId, found: Option<R.Poll>)

  predicate Wipes(row: Option<Fence>, enabled: bool, scope: string) {
    !enabled || (if row.Some? then row.value.scope else "") != scope
  }

  /** The poll looks up the baseline of a pull request it asks about and has no observation of. */
  predicate LooksUp(cache: R.Cache, node: R.Node, found: R.Poll) {
    node.id !in cache && R.RequestFor(found.scope, node.status, true).Some?
  }

  predicate Finished(r: Reading, found: R.Poll) {
    && r.cache.Some? && r.polled.Some?
    && forall node :: node in found.nodes && LooksUp(r.cache.value, node, found) ==> node.id in r.baselines
  }

  function BaselinesRead(r: Reading): R.Baselines {
    map n | n in r.baselines && r.baselines[n].Some? :: r.baselines[n].value
  }

  /** What the poll concludes from what it read, which may be out of date by now. */
  function Conclusion(r: Reading, found: R.Poll): R.Changes
    requires Finished(r, found)
  {
    R.PollChanges(r.cache.value, BaselinesRead(r), r.polled.value, found)
  }

  predicate Accepted(w: State, poll: PollId, found: Option<R.Poll>) {
    && poll in w.readings && FenceMatches(w.row, w.readings[poll].fence)
    && (found.Some? ==> Finished(w.readings[poll], found.value))
  }

  function Act(w: State, action: Action): State {
    match action
    case Fencing(enabled, scope) =>
      State(Some(NextFence(w.row, enabled, scope)),
            if Wipes(w.row, enabled, scope) then R.Next(w.review, R.Wipe) else w.review, w.readings)
    case Begin(poll, scope) =>
      if poll in w.readings || w.row.None? || !w.row.value.enabled then w
      else w.(readings := w.readings[poll := Reading(w.row.value.(scope := scope), None, None, map[])])
    case ReadCache(poll) =>
      if poll !in w.readings || w.readings[poll].cache.Some? then w
      else w.(readings := w.readings[poll := w.readings[poll].(cache := Some(w.review.cache))])
    case ReadPolled(poll) =>
      if poll !in w.readings || w.readings[poll].polled.Some? then w
      else w.(readings := w.readings[poll := w.readings[poll].(polled := Some(w.review.polled))])
    case ReadBaseline(poll, node) =>
      if poll !in w.readings || node in w.readings[poll].baselines then w
      else
        var r := w.readings[poll];
        w.(readings := w.readings[
          poll := r.(baselines := r.baselines[node := R.Lookup(w.review.baselines, node)])])
    case Commits(poll, found) =>
      if !Accepted(w, poll, found) then w
      else
        State(Some(w.row.value.(pollSeq := w.row.value.pollSeq + 1)),
              if found.None? then w.review
              else R.Stored(w.review, Conclusion(w.readings[poll], found.value), found.value.at),
              w.readings)
  }

  function Reached(actions: seq<Action>): State {
    if actions == [] then START else Act(Reached(actions[..|actions| - 1]), actions[|actions| - 1])
  }

  /** The step that an action is for the reviewer role, if any. */
  function StepOf(w: State, action: Action): seq<R.Step> {
    match action
    case Fencing(enabled, scope) => if Wipes(w.row, enabled, scope) then [R.Wipe] else []
    case Commits(poll, found) => if found.Some? && Accepted(w, poll, found) then [R.Commit(found.value)] else []
    case _ => []
  }

  function StepsOf(actions: seq<Action>): seq<R.Step> {
    if actions == [] then []
    else
      var init := actions[..|actions| - 1];
      StepsOf(init) + StepOf(Reached(init), actions[|actions| - 1])
  }

  /** What each action does to the fence row and the stored state, spelled out. */
  lemma ActionsDecided(w: State, action: Action)
    ensures match action
            case Fencing(enabled, scope) =>
              var after := Act(w, action);
              && after.row == Some(Fence(enabled, scope, if w.row.Some? then w.row.value.pollSeq + 1 else 1))
              && after.readings == w.readings
              && (if enabled && (if w.row.Some? then w.row.value.scope else "") == scope then after.review == w.review
                  else after.review.cache == map[] && !after.review.polled
                       && after.review.baselines == w.review.baselines && after.review.emitted == w.review.emitted)
            case Commits(poll, found) =>
              (Act(w, action) != w ==>
                && poll in w.readings && w.row.Some? && w.row.value.enabled
                && w.row.value.scope == w.readings[poll].fence.scope
                && w.row.value.pollSeq == w.readings[poll].fence.pollSeq
                && Act(w, action).row == Some(w.row.value.(pollSeq := w.row.value.pollSeq + 1)))
            case _ => Act(w, action).row == w.row && Act(w, action).review == w.review
  {
    hide Conclusion, R.Stored, Finished;
  }

  // ---- The fence ----------------------------------------------------------------------------------

  /** A poll whose fence still matches has read what is still stored. */
  predicate UpToDate(w: State, r: Reading) {
    && w.row.Some? && r.fence.pollSeq <= w.row.value.pollSeq
    && (r.fence.pollSeq == w.row.value.pollSeq ==>
          && (r.cache.Some? ==> r.cache.value == w.review.cache)
          && (r.polled.Some? ==> r.polled.value == w.review.polled)
          && (forall n :: n in r.baselines ==> r.baselines[n] == R.Lookup(w.review.baselines, n)))
  }

  predicate AllUpToDate(w: State) {
    forall p :: p in w.readings ==> UpToDate(w, w.readings[p])
  }

  lemma ActKeeps(w: State, action: Action)
    requires AllUpToDate(w)
    ensures AllUpToDate(Act(w, action))
  {
    hide R.Stored, R.Next, R.PollChanges, R.RequestFor, BaselinesRead;
  }

  /** Only the baselines that a poll looks up matter to it. */
  lemma {:induction false} SameSeen(cache: R.Cache, a: R.Baselines, b: R.Baselines, polled: bool,
      nodes: seq<R.Node>, found: R.Poll)
    requires forall node :: node in nodes && LooksUp(cache, node, found) ==>
      R.Lookup(a, node.id) == R.Lookup(b, node.id)
    ensures R.SeenChanges(cache, a, polled, nodes, found) == R.SeenChanges(cache, b, polled, nodes, found)
  {
    hide R.RequestFor, R.Plus;
    if nodes != [] {
      var init, last := nodes[..|nodes| - 1], nodes[|nodes| - 1];
      assert nodes == init + [last];
      SameSeen(cache, a, b, polled, init, found);
    }
  }

  lemma CommitIsAtomic(w: State, poll: PollId, found: R.Poll)
    requires AllUpToDate(w) && Accepted(w, poll, Some(found))
    ensures Conclusion(w.readings[poll], found)
            == R.PollChanges(w.review.cache, w.review.baselines, w.review.polled, found)
  {
    hide R.SeenChanges, R.AllChanges, R.Leaving, LooksUp;
    var r := w.readings[poll];
    assert UpToDate(w, r);
    SameSeen(r.cache.value, BaselinesRead(r), w.review.baselines, r.polled.value, found.nodes, found);
  }

  lemma StepTaken(w: State, action: Action)
    requires AllUpToDate(w)
    ensures Act(w, action).review == (if StepOf(w, action) == [] then w.review
                                      else R.Next(w.review, StepOf(w, action)[0]))
    ensures |StepOf(w, action)| <= 1
  {
    hide R.Stored, R.PollChanges, Conclusion, Finished, AllUpToDate;
    if action.Commits? && action.found.Some? && Accepted(w, action.poll, action.found) {
      CommitIsAtomic(w, action.poll, action.found.value);
    }
  }

  /**
   * However polls, enables, disables and scope changes interleave, the reviewer role goes through a run of
   * whole polls and wipes: those that were committed, in the order of their commits.
   */
  lemma {:induction false} RunIsSerial(actions: seq<Action>)
    ensures Reached(actions).review == R.Exec(StepsOf(actions)) && AllUpToDate(Reached(actions))
  {
    hide Act, StepOf, R.Next, AllUpToDate;
    if actions == [] {
      NothingRead();
    } else {
      var init, last := actions[..|actions| - 1], actions[|actions| - 1];
      RunIsSerial(init);
      var w := Reached(init);
      ActKeeps(w, last);
      StepTaken(w, last);
      var steps, more := StepsOf(init), StepOf(w, last);
      if more == [] {
        assert StepsOf(actions) == steps;
      } else {
        assert StepsOf(actions) == steps + [more[0]];
        assert (steps + [more[0]])[..|steps|] == steps;
      }
    }
  }

  lemma NothingRead()
    ensures AllUpToDate(START)
  {
  }

  predicate FoundOnce(action: Action) {
    action.Commits? && action.found.Some? ==> R.Distinct(action.found.value.nodes)
  }

  lemma {:induction false} StepsAdmissible(actions: seq<Action>)
    requires forall i :: 0 <= i < |actions| ==> FoundOnce(actions[i])
    ensures forall i :: 0 <= i < |StepsOf(actions)| ==> R.Admissible(StepsOf(actions)[i])
  {
    hide Accepted, Reached, Wipes;
    if actions != [] { StepsAdmissible(actions[..|actions| - 1]); }
  }

  /** So what holds of every run of whole polls holds of every interleaving. */
  lemma InterleavedBalance(actions: seq<Action>, n: R.NodeId)
    requires forall i :: 0 <= i < |actions| ==> FoundOnce(actions[i])
    ensures R.Balanced(Reached(actions).review, n) && R.SeenOnce(Reached(actions).review, n)
  {
    hide Reached, StepsOf, R.Exec, R.Balanced, R.SeenOnce, R.Admissible, FoundOnce;
    RunIsSerial(actions);
    StepsAdmissible(actions);
    R.RequestsBalance(StepsOf(actions), n);
    R.ObservedOnce(StepsOf(actions), n);
  }
}
