/** What an author poll leaves behind for one pull request, spelled out case by case. */
module PrOutcomes {
  import opened Options
  import opened Readiness
  import opened PrWatch
  import opened PrWatchRuns
  import opened PrReadinessRuns
  import opened PrRepeats
  import opened PrListings
  import Text

  predicate Gone(followUp: Option<FollowUp>) {
    followUp == Some(Merged) || followUp == Some(Closed) || followUp == Some(Archived)
  }

  /**
   * A tracked pull request that the search no longer lists goes when it was merged, closed or archived, or when
   * it has been missed for the sixth time. Otherwise it stays, missed once more, with what was newly fetched of
   * its reviews and threads and everything else as it was.
   */
  lemma LeavingDecided(cache: Cache, log: seq<Event>, answers: Answers, at: nat, scope: string, n: NodeId)
    requires (forall m :: m in cache ==> cache[m].node == m) && n in cache
    requires answers.author.Some? && forall s :: s in answers.author.value.seen ==> s.node.id != n
    ensures var author, after := answers.author.value, Committed(cache, PollChanges(cache, log, answers, at, scope));
            var followUp := if n in author.followUps then Some(author.followUps[n]) else None;
            var was := cache[n];
            && (n !in after <==> Gone(followUp) || was.missingPolls >= 5)
            && (n in after ==>
                  && after[n].node == n && after[n].headSha == was.headSha && after[n].scope == was.scope
                  && after[n].lastKnown == was.lastKnown && after[n].missingPolls == was.missingPolls + 1
                  && (n in author.details ==>
                        after[n].facts == was.facts.(reviews := author.details[n].reviews,
                                                     threads := author.details[n].threads))
                  && (n !in author.details ==> after[n].facts == was.facts))
  {
    hide LeavingIds, SeenEvents, SeenUpserts, LeavingEvents, LeavingUpserts, LeavingDeletes, Left, Upserted, Latest;
    var author := answers.author.value;
    var leaving := LeavingIds(cache, author);
    LeavingListed(cache, author, n);
    SeenLeavesAlone(cache, cache, log, author.seen, scope, n);
    var seen := SeenUpserts(cache, log, author.seen, scope);
    UpsertedConcat(cache, seen, LeavingUpserts(cache, author, leaving));
    LeftOrGone(Upserted(cache, seen), cache, author, leaving, n);
    LeftSpelledOut(cache, author, n);
  }

  lemma LeftSpelledOut(cache: Cache, author: AuthorAnswers, n: NodeId)
    requires n in cache
    ensures var left := Left(cache, author, n);
            var followUp := if n in author.followUps then Some(author.followUps[n]) else None;
            && (left.None? <==> Gone(followUp) || cache[n].missingPolls >= 5)
            && (left.Some? ==>
                  left.value == cache[n].(
                    missingPolls := cache[n].missingPolls + 1,
                    facts := if n in author.details
                             then cache[n].facts.(reviews := author.details[n].reviews,
                                                  threads := author.details[n].threads)
                             else cache[n].facts))
  {
  }

  lemma LeavingListed(cache: Cache, author: AuthorAnswers, n: NodeId)
    requires n in cache && forall s :: s in author.seen ==> s.node.id != n
    ensures n in LeavingIds(cache, author)
    ensures forall m :: m in LeavingIds(cache, author) ==> m in cache && forall s :: s in author.seen ==> s.node.id != m
    ensures forall i, j :: 0 <= i < j < |LeavingIds(cache, author)| ==>
      LeavingIds(cache, author)[i] != LeavingIds(cache, author)[j]
  {
    var leaving := LeavingIds(cache, author);
    forall i, j | 0 <= i < j < |leaving| ensures leaving[i] != leaving[j] {
      assert Text.Less(leaving[i], leaving[j]);
      Text.LessTotal(leaving[i], leaving[j]);
    }
  }

  lemma SeenLeavesAlone(base: Cache, cache: Cache, log: seq<Event>, seen: seq<Seen>, scope: string, n: NodeId)
    requires n in base && forall s :: s in seen ==> s.node.id != n
    ensures var after := Upserted(base, SeenUpserts(cache, log, seen, scope)); n in after && after[n] == base[n]
  {
    hide ObserveResult, SeenUpserts, Upserted, Latest;
    var upserts := SeenUpserts(cache, log, seen, scope);
    SeenUpsertsIndexed(cache, log, seen, scope);
    UpsertedLatest(base, upserts, n);
    LatestIsLast(upserts, n);
    forall k | 0 <= k < |upserts| ensures upserts[k].node != n {
      assert seen[k] in seen;
    }
  }

  /** Of distinct leaving pull requests, each is upserted or deleted by its own case. */
  lemma {:induction false} LeftOrGone(base: Cache, cache: Cache, author: AuthorAnswers, leaving: seq<NodeId>, n: NodeId)
    requires forall m :: m in cache ==> cache[m].node == m
    requires forall i :: 0 <= i < |leaving| ==> leaving[i] in cache
    requires forall i, j :: 0 <= i < j < |leaving| ==> leaving[i] != leaving[j]
    ensures var upserted := Upserted(base, LeavingUpserts(cache, author, leaving));
            && (n in leaving && Left(cache, author, n).Some? ==>
                  && n in upserted && upserted[n] == Left(cache, author, n).value)
            && (n !in leaving || Left(cache, author, n).None? ==>
                  (n in upserted <==> n in base) && (n in base ==> upserted[n] == base[n]))
            && (n in LeavingDeletes(cache, author, leaving) <==> n in leaving && Left(cache, author, n).None?)
  {
    hide Left, Leave;
    if leaving != [] {
      var init, last := leaving[..|leaving| - 1], leaving[|leaving| - 1];
      LeftOrGone(base, cache, author, init, n);
      assert leaving == init + [last];
      LeftKeepsScope(cache, author, last);
      UpsertedConcat(base, LeavingUpserts(cache, author, init), AsUpserts(Left(cache, author, last)));
      OneUpserted(Upserted(base, LeavingUpserts(cache, author, init)), Left(cache, author, last));
    }
  }

  function AsUpserts(left: Option<Observation>): seq<Observation> {
    if left.Some? then [left.value] else []
  }

  lemma OneUpserted(cache: Cache, left: Option<Observation>)
    ensures Upserted(cache, AsUpserts(left)) == if left.Some? then cache[left.value.node := left.value] else cache
  {
    assert left.Some? ==> [left.value][..0] == [];
  }

  /** The news of a pull request that left stands in the poll's events, after those of the ones listed. */
  lemma LeavingReports(cache: Cache, log: seq<Event>, answers: Answers, at: nat, scope: string, n: NodeId)
    returns (before: seq<Event>, after: seq<Event>)
    requires n in cache && answers.author.Some? && forall s :: s in answers.author.value.seen ==> s.node.id != n
    ensures var author := answers.author.value;
            PollChanges(cache, log, answers, at, scope).events
            == before + (if n in author.news then author.news[n] else []) + after
    ensures answers.earlier + SeenEvents(cache, log, answers.author.value.seen, at, answers.author.value.news) <= before
  {
    hide SeenUpserts, LeavingUpserts, LeavingDeletes, SeenEvents, LeavingEvents, LeavingIds;
    var author := answers.author.value;
    var leaving := LeavingIds(cache, author);
    LeavingListed(cache, author, n);
    var seen := SeenEvents(cache, log, author.seen, at, author.news);
    var a, b := LeavingNews(author.news, leaving, n);
    before, after := answers.earlier + seen + a, b + answers.later;
    assert before == (answers.earlier + seen) + a;
  }

  lemma {:induction false} LeavingNews(news: map<NodeId, seq<Event>>, leaving: seq<NodeId>, n: NodeId)
    returns (a: seq<Event>, b: seq<Event>)
    requires n in leaving
    ensures LeavingEvents(news, leaving) == a + (if n in news then news[n] else []) + b
  {
    var init, last := leaving[..|leaving| - 1], leaving[|leaving| - 1];
    assert leaving == init + [last];
    if last == n {
      a, b := LeavingEvents(news, init), [];
    } else {
      a, b := LeavingNews(news, init, n);
      b := b + NewsOf(news, last);
    }
  }

  // ---- A pull request the search lists --------------------------------------------------------------

  /** What is remembered of a pull request before a poll looks at it. */
  function Remembered(cache: Cache, log: seq<Event>, n: NodeId): LastKnown {
    if n in cache then cache[n].lastKnown
    else if FirstSight(cache, log, n) then LastKnown(None, None)
    else Replay(log, n)
  }

  /** Neither the cache nor the log knows the pull request. */
  predicate FirstSight(cache: Cache, log: seq<Event>, n: NodeId) {
    n !in cache && forall i :: 0 <= i < |log| ==> log[i].key != Key(Observed, n, OfRole(Author))
  }

  /**
   * The facts a poll goes by: what the search says, the merge state when it was fetched for this very head and
   * else that of the last poll, reviews and threads when they were fetched and else those of the last poll.
   */
  predicate FactsFor(cache: Cache, s: Seen, facts: Facts) {
    && facts.isOpen == s.node.isOpen && facts.isDraft == s.node.isDraft
    && (if s.merge.Some? && s.merge.value.headSha == s.node.headSha then
          && facts.reviewDecision == s.merge.value.reviewDecision && facts.checksState == s.merge.value.checks
          && facts.mergeable == s.merge.value.mergeable && facts.mergeStateStatus == s.merge.value.status
        else if s.node.id in cache then
          var was := cache[s.node.id].facts;
          && facts.reviewDecision == was.reviewDecision && facts.checksState == was.checksState
          && facts.mergeable == was.mergeable && facts.mergeStateStatus == was.mergeStateStatus
        else
          && facts.reviewDecision == s.node.reviewDecision && facts.checksState == ChecksUnknown
          && facts.mergeable == MergeableUnknown && facts.mergeStateStatus == MergeUnknown)
    && (if s.detail.Some? then facts.reviews == s.detail.value.reviews && facts.threads == s.detail.value.threads
        else if s.node.id in cache then
          facts.reviews == cache[s.node.id].facts.reviews && facts.threads == cache[s.node.id].facts.threads
        else facts.reviews.None? && facts.threads.None?)
  }

  lemma FactsSpelledOut(cache: Cache, s: Seen)
    ensures FactsFor(cache, s, CurrentFacts(Previous(cache, s.node.id), s))
  {
  }

  lemma RememberedSpelledOut(cache: Cache, log: seq<Event>, n: NodeId)
    ensures Known(Previous(cache, n), log, n) == Remembered(cache, log, n)
    ensures Previous(cache, n).None? && !StoredObserved(log, n) <==> FirstSight(cache, log, n)
  {
    hide Replay;
  }

  /** What the cache holds of a listed pull request after the commit: what its last listing gave. */
  lemma SeenDecided(cache: Cache, log: seq<Event>, answers: Answers, at: nat, scope: string, n: NodeId, first: nat,
      last: nat)
    requires forall m :: m in cache ==> cache[m].node == m
    requires answers.author.Some? && FirstAndLast(answers.author.value.seen, n, first, last)
    ensures var s := answers.author.value.seen[last];
            var after := Committed(cache, PollChanges(cache, log, answers, at, scope));
            && n in after && after[n].node == n && after[n].headSha == s.node.headSha && after[n].scope == scope
            && after[n].missingPolls == 0 && FactsFor(cache, s, after[n].facts)
            && after[n].lastKnown.ready == (match Verdict(after[n].facts)
                                            case ReadyTrue => Some(true)
                                            case ReadyFalse => Some(false)
                                            case ReadyUnknown => Remembered(cache, log, n).ready)
            && after[n].lastKnown.mergeable == (if after[n].facts.mergeable == MergeableUnknown
                                                then Remembered(cache, log, n).mergeable
                                                else Some(after[n].facts.mergeable))
  {
    hide PollChanges, Committed, Known, Verdict, CurrentFacts, FactsFor, Remembered, StoredObserved;
    LastListingCached(cache, log, answers, at, scope, n, first, last);
    FactsSpelledOut(cache, answers.author.value.seen[last]);
    RememberedSpelledOut(cache, log, n);
  }

  function ReadyText(verdict: Ready): Option<bool> {
    match verdict case ReadyTrue => Some(true) case ReadyFalse => Some(false) case ReadyUnknown => None
  }

  /** The readiness and conflict events of one listing, given the facts and what was remembered. */
  function Transitions(s: Seen, at: nat, facts: Facts, known: LastKnown): seq<Event> {
    var key := (kind: Kind) => Key(kind, s.node.id, OfHead(s.node.headSha, at));
    var conflict :=
      if facts.mergeable == MergeableConflicting && known.mergeable != Some(MergeableConflicting)
      then [Event(key(MergeConflict), Author, at, ReadyText(Verdict(facts)), MergeableConflicting)]
      else [];
    match Verdict(facts)
    case ReadyTrue =>
      if known.ready == Some(true) then conflict
      else [Event(key(ReadyToMerge), Author, at, Some(true), facts.mergeable)] + conflict
    case ReadyFalse =>
      if known.ready == Some(true) then [Event(key(ReadinessLost), Author, at, Some(false), facts.mergeable)] + conflict
      else conflict
    case ReadyUnknown => conflict
  }

  /**
   * What is reported of one listing. At first sight: the pull request as observed, then its other news. Later:
   * its other news, then that it became ready or ceased to be, then that it has a conflict now, each only if it
   * was not so remembered.
   */
  function Report(cache: Cache, log: seq<Event>, s: Seen, at: nat, news: seq<Event>, facts: Facts): seq<Event> {
    if FirstSight(cache, log, s.node.id) then
      [Event(Key(Observed, s.node.id, OfRole(Author)), Author, at, ReadyText(Verdict(facts)), facts.mergeable)] + news
    else news + Transitions(s, at, facts, Remembered(cache, log, s.node.id))
  }

  /** What a poll reports of one listing stands together in its events, between those of the other role. */
  lemma ListingReports(cache: Cache, log: seq<Event>, answers: Answers, at: nat, scope: string, k: nat)
    returns (before: seq<Event>, facts: Facts, after: seq<Event>)
    requires answers.author.Some? && k < |answers.author.value.seen|
    ensures var s, author := answers.author.value.seen[k], answers.author.value;
            var news := if s.node.id in author.news then author.news[s.node.id] else [];
            && FactsFor(cache, s, facts)
            && PollChanges(cache, log, answers, at, scope).events
               == before + Report(cache, log, s, at, news, facts) + after
            && (k == 0 ==> before == answers.earlier)
            && |answers.later| <= |after| && after[|after| - |answers.later|..] == answers.later
  {
    hide PollChanges, ReportedEvents, FactsFor, Report, CurrentFacts;
    var s, author := answers.author.value.seen[k], answers.author.value;
    facts := CurrentFacts(Previous(cache, s.node.id), s);
    FactsSpelledOut(cache, s);
    ReportSpelledOut(cache, log, s, at, author.news);
    before, after := ListingStands(cache, log, answers, at, scope, k);
  }

  lemma ReportSpelledOut(cache: Cache, log: seq<Event>, s: Seen, at: nat, news: map<NodeId, seq<Event>>)
    ensures ReportedEvents(cache, log, s, at, news)
            == Report(cache, log, s, at, if s.node.id in news then news[s.node.id] else [],
                      CurrentFacts(Previous(cache, s.node.id), s))
  {
    hide StoredObserved, Verdict, CurrentFacts, Remembered, Known, FirstSight, TransitionEvents, Transitions;
    RememberedSpelledOut(cache, log, s.node.id);
    TransitionsSpelledOut(Remembered(cache, log, s.node.id), s, at, CurrentFacts(Previous(cache, s.node.id), s));
  }

  lemma ListingStands(cache: Cache, log: seq<Event>, answers: Answers, at: nat, scope: string, k: nat)
    returns (before: seq<Event>, after: seq<Event>)
    requires answers.author.Some? && k < |answers.author.value.seen|
    ensures PollChanges(cache, log, answers, at, scope).events
            == before
               + ReportedEvents(cache, log, answers.author.value.seen[k], at, answers.author.value.news)
               + after
    ensures k == 0 ==> before == answers.earlier
    ensures |answers.later| <= |after| && after[|after| - |answers.later|..] == answers.later
  {
    hide LeavingEvents, LeavingIds, SeenUpserts, LeavingUpserts, LeavingDeletes, SeenEvents, ReportedEvents;
    var author := answers.author.value;
    var s := author.seen[k];
    var all := SeenEvents(cache, log, author.seen, at, author.news);
    var init := SeenEvents(cache, log, author.seen[..k], at, author.news);
    SeenPrefix(cache, log, author.seen, at, author.news, k + 1);
    assert author.seen[..k + 1] == author.seen[..k] + [s];
    SeenEventsStep(cache, log, author.seen[..k], s, at, author.news);
    var reported := ReportedEvents(cache, log, s, at, author.news);
    var leaving, rest := LeavingEvents(author.news, LeavingIds(cache, author)), all[|init| + |reported|..];
    assert all == init + reported + rest;
    before, after := answers.earlier + init, rest + leaving + answers.later;
    assert answers.earlier + (all + leaving) + answers.later == before + reported + after;
    if k == 0 {
      assert author.seen[..0] == [];
      NobodySeen(cache, log, at, author.news);
      assert before == answers.earlier;
    }
  }

  lemma TransitionsSpelledOut(known: LastKnown, s: Seen, at: nat, facts: Facts)
    ensures TransitionEvents(known, s, at, facts) == Transitions(s, at, facts, known)
  {
    hide Verdict;
  }

  /** And it reports nothing else of a pull request's readiness: each such event is that of one of its listings. */
  lemma NothingElseReported(cache: Cache, log: seq<Event>, answers: Answers, at: nat, scope: string, e: Event)
    returns (k: nat, facts: Facts)
    requires ProperEvents(answers) && answers.author.Some?
    requires e in PollChanges(cache, log, answers, at, scope).events && e.key.kind != OtherEvent && e.role == Author
    ensures k < |answers.author.value.seen|
    ensures var s := answers.author.value.seen[k];
            && s.node.id == e.key.node && FactsFor(cache, s, facts) && e.at == at
            && (if FirstSight(cache, log, s.node.id) then e.key == Key(Observed, s.node.id, OfRole(Author))
                else e in Transitions(s, at, facts, Remembered(cache, log, s.node.id)))
  {
    hide PollChanges, ProperEvents, Verdict, CurrentFacts, FactsFor, Remembered, Known, StoredObserved, Transitions,
      TransitionEvents;
    var seen, n := answers.author.value.seen, e.key.node;
    EventFrom(cache, log, answers, at, scope, n, e);
    k :| 0 <= k < |seen| && seen[k].node.id == n && e in ObserveEvents(Previous(cache, n), log, seen[k], at);
    facts := CurrentFacts(Previous(cache, n), seen[k]);
    FactsSpelledOut(cache, seen[k]);
    RememberedSpelledOut(cache, log, n);
    TransitionsSpelledOut(Remembered(cache, log, n), seen[k], at, facts);
    var events := ObserveEvents(Previous(cache, n), log, seen[k], at);
    var i :| 0 <= i < |events| && events[i] == e;
    ObserveEventsProper(Previous(cache, n), log, seen[k], at, i);
  }
}
