/**
 * A search that lists a pull request more than once, with answers that differ. The log then has what any of
 * the listings reports, and the cache what the last of them gives.
 */
module PrListings {
  import opened Options
  import opened Rfc3339
  import opened Readiness
  import opened PrWatch
  import opened PrWatchRuns
  import opened PrReadinessLog
  import opened PrReadinessRuns
  import opened PrRepeats

  predicate ProperEvents(answers: Answers) {
    && (forall i :: 0 <= i < |answers.earlier| ==> ProperOther(answers.earlier[i]))
    && (forall i :: 0 <= i < |answers.later| ==> ProperOther(answers.later[i]))
    && (answers.author.Some? ==> ProperNews(answers.author.value.news))
  }

  /** This listing turns the readiness that is remembered. */
  predicate Turns(previous: Option<Observation>, known: LastKnown, s: Seen) {
    Verdict(CurrentFacts(previous, s)) == if known.ready == Some(true) then ReadyFalse else ReadyTrue
  }

  /** The first and the last listing of a pull request. */
  predicate FirstAndLast(seen: seq<Seen>, n: NodeId, first: nat, last: nat) {
    && first <= last < |seen| && seen[first].node.id == n && seen[last].node.id == n
    && forall i :: 0 <= i < |seen| && (i < first || last < i) ==> seen[i].node.id != n
  }

  /**
   * Of a pull request already known, the last listing turns its readiness if any does. Of one seen for the first
   * time, the first and the last listing are both ready or both not.
   */
  predicate ListingsAgree(cache: Cache, log: seq<Event>, seen: seq<Seen>, n: NodeId, first: nat, last: nat)
    requires FirstAndLast(seen, n, first, last)
  {
    var previous := Previous(cache, n);
    if previous.None? && !StoredObserved(log, n) then
      Verdict(CurrentFacts(previous, seen[first])) == ReadyTrue <==>
      Verdict(CurrentFacts(previous, seen[last])) == ReadyTrue
    else
      SomeListingTurns(cache, log, seen, n) ==> Turns(previous, Known(previous, log, n), seen[last])
  }

  predicate SomeListingTurns(cache: Cache, log: seq<Event>, seen: seq<Seen>, n: NodeId) {
    var previous := Previous(cache, n);
    exists i :: 0 <= i < |seen| && seen[i].node.id == n && Turns(previous, Known(previous, log, n), seen[i])
  }

  // ---- What is recorded ---------------------------------------------------------------------------

  lemma {:induction false} RecordingAdds(log: seq<Event>, events: seq<Event>) returns (more: seq<Event>)
    ensures Recording(log, events) == log + more
    ensures forall e :: e in more ==> e in events && !Recorded(log, e.key)
  {
    if events == [] {
      more := [];
    } else {
      var init, last := events[..|events| - 1], events[|events| - 1];
      more := RecordingAdds(log, init);
      assert events == init + [last];
      if !Recorded(Recording(log, init), last.key) {
        assert forall i :: 0 <= i < |log| ==> (log + more)[i] == log[i];
        more := more + [last];
      }
    }
  }

  lemma {:induction false} SeenEventFrom(cache: Cache, log: seq<Event>, seen: seq<Seen>, at: nat,
      news: map<NodeId, seq<Event>>, e: Event) returns (i: nat)
    requires ProperNews(news) && e in SeenEvents(cache, log, seen, at, news)
    ensures ProperEvent(e) && i < |seen|
    ensures forall n :: Relevant(e, n) ==>
      seen[i].node.id == n && e in ObserveEvents(Previous(cache, n), log, seen[i], at)
  {
    hide ObserveEvents, ProperEvent, ProperNews, NewsOf, Previous, StoredObserved;
    i := |seen| - 1;
    var s := seen[i];
    if e in ReportedEvents(cache, log, s, at, news) {
      var events := ObserveEvents(Previous(cache, s.node.id), log, s, at);
      if e in events {
        var k :| 0 <= k < |events| && events[k] == e;
        ObserveEventsProper(Previous(cache, s.node.id), log, s, at, k);
      } else {
        assert e in NewsOf(news, s.node.id);
        NewsIsOther(news, s.node.id, e);
      }
    } else {
      i := SeenEventFrom(cache, log, seen[..i], at, news, e);
    }
  }

  lemma NewsIsOther(news: map<NodeId, seq<Event>>, id: NodeId, e: Event)
    requires ProperNews(news) && e in NewsOf(news, id)
    ensures ProperEvent(e) && forall n :: !Relevant(e, n)
  {
    var k :| 0 <= k < |news[id]| && news[id][k] == e;
    assert ProperOther(news[id][k]);
  }

  lemma {:induction false} LeavingEventsOther(news: map<NodeId, seq<Event>>, leaving: seq<NodeId>, e: Event)
    requires ProperNews(news) && e in LeavingEvents(news, leaving)
    ensures ProperEvent(e) && forall n :: !Relevant(e, n)
  {
    hide ProperEvent, ProperNews, NewsOf;
    var k := |leaving| - 1;
    if e in NewsOf(news, leaving[k]) {
      NewsIsOther(news, leaving[k], e);
    } else {
      LeavingEventsOther(news, leaving[..k], e);
    }
  }

  /** What a poll says of a pull request's readiness, it says because of one of its listings. */
  lemma EventFrom(cache: Cache, log: seq<Event>, answers: Answers, at: nat, scope: string, n: NodeId, e: Event)
    requires ProperEvents(answers) && answers.author.Some?
    requires e in PollChanges(cache, log, answers, at, scope).events
    ensures ProperEvent(e)
    ensures Relevant(e, n) ==>
      exists i :: && 0 <= i < |answers.author.value.seen| && answers.author.value.seen[i].node.id == n
                  && e in ObserveEvents(Previous(cache, n), log, answers.author.value.seen[i], at)
  {
    hide ObserveEvents, SeenEvents, LeavingEvents, LeavingIds, SeenUpserts, LeavingUpserts, LeavingDeletes, ProperNews,
      Previous;
    var author := answers.author.value;
    if e in SeenEvents(cache, log, author.seen, at, author.news) {
      var i := SeenEventFrom(cache, log, author.seen, at, author.news, e);
    } else if e in LeavingEvents(author.news, LeavingIds(cache, author)) {
      LeavingEventsOther(author.news, LeavingIds(cache, author), e);
    } else {
      assert e in answers.earlier || e in answers.later;
    }
  }

  // ---- What is replayed ---------------------------------------------------------------------------

  /** Events that all signal the same, and that no earlier readiness event sorts after, decide the last signal. */
  lemma {:induction false} SameSignal(h: seq<Event>, more: seq<Event>, signal: bool)
    requires forall e :: e in more && Bearing(e) ==> SignalOf(e) == signal && !Overtaken(e, h)
    ensures LastSignal(SortedHistory(h + more))
            == if exists e :: e in more && Bearing(e) then Some(signal) else LastSignal(SortedHistory(h))
  {
    hide SortsBefore, Bearing, SignalOf, Insert, SortedHistory, LastSignal;
    if more == [] {
      assert h + more == h;
    } else {
      var init, last := more[..|more| - 1], more[|more| - 1];
      assert more == init + [last] && h + more == (h + init) + [last];
      SameSignal(h, init, signal);
      SortedExtended(h + init, last);
      InsertedSignal(last, SortedHistory(h + init));
      SameElements(h + init);
      assert last in more && forall e :: e in more <==> e in init || e == last;
      if Bearing(last) && Overtaken(last, h + init) {
        var x :| x in h + init && Bearing(x) && SortsBefore(last, x);
        assert x !in h && x in init;
      }
    }
  }

  lemma NotOvertaken(h: seq<Event>, e: Event, last: Option<nat>)
    requires Through(h, last) && (last.Some? ==> last.value / SECOND < e.at / SECOND)
    requires FourDigitYear(e.at) && Bearing(e)
    ensures !Overtaken(e, h)
  {
    hide SortsBefore, FourDigitYear, Bearing;
    forall x | x in h ensures !SortsBefore(e, x) {
      var i :| 0 <= i < |h| && h[i] == x;
      LaterSortsAfter(x, e);
    }
  }

  /** The readiness events a listing reports, and when it reports one. */
  lemma TurnReported(previous: Option<Observation>, log: seq<Event>, s: Seen, at: nat)
    requires previous.Some? || StoredObserved(log, s.node.id)
    ensures var known, events := Known(previous, log, s.node.id), ObserveEvents(previous, log, s, at);
            && (forall e :: e in events && Bearing(e) ==>
                  SignalOf(e) == (known.ready != Some(true)) && Turns(previous, known, s) && e.at == at)
            && (Turns(previous, known, s) ==>
                  exists e :: && e in events && Bearing(e) && Relevant(e, s.node.id) && e.key.kind != Observed
                              && e.key.discriminator == OfHead(s.node.headSha, at))
  {
    hide Verdict, CurrentFacts, Known, StoredObserved;
    var events := ObserveEvents(previous, log, s, at);
    if Turns(previous, Known(previous, log, s.node.id), s) {
      assert events[0] in events;
    }
  }

  // ---- A pull request that was known before -------------------------------------------------------

  lemma BearingTurns(cache: Cache, log: seq<Event>, answers: Answers, at: nat, scope: string, n: NodeId, e: Event)
    requires ProperEvents(answers) && answers.author.Some? && (n in cache || StoredObserved(log, n))
    requires e in PollChanges(cache, log, answers, at, scope).events && Relevant(e, n) && Bearing(e)
    ensures SomeListingTurns(cache, log, answers.author.value.seen, n) && e.at == at
    ensures SignalOf(e) == (Known(Previous(cache, n), log, n).ready != Some(true))
  {
    hide ObserveEvents, PollChanges, ProperEvents, Turns, Known, StoredObserved, Bearing, Relevant;
    var seen := answers.author.value.seen;
    EventFrom(cache, log, answers, at, scope, n, e);
    var i :| 0 <= i < |seen| && seen[i].node.id == n && e in ObserveEvents(Previous(cache, n), log, seen[i], at);
    TurnReported(Previous(cache, n), log, seen[i], at);
  }

  lemma ListingReported(cache: Cache, log: seq<Event>, answers: Answers, at: nat, scope: string, s: Seen)
    requires answers.author.Some? && s in answers.author.value.seen
    ensures forall e :: e in ObserveEvents(Previous(cache, s.node.id), log, s, at) ==>
      e in PollChanges(cache, log, answers, at, scope).events
  {
    hide ObserveEvents, SeenEvents, LeavingEvents, LeavingIds, SeenUpserts, LeavingUpserts, LeavingDeletes, Previous,
      StoredObserved, NewsOf;
    var author := answers.author.value;
    EventsOfSeen(cache, log, author.seen, at, author.news, s);
    forall e | e in ObserveEvents(Previous(cache, s.node.id), log, s, at)
      ensures e in ReportedEvents(cache, log, s, at, author.news)
    {
    }
  }

  /** A listing that turns the readiness leaves a readiness event among those that are newly stored. */
  lemma TurnStored(cache: Cache, log: seq<Event>, answers: Answers, at: nat, scope: string, n: NodeId,
      last: Option<nat>, more: seq<Event>)
    requires ProperEvents(answers) && answers.author.Some? && (n in cache || StoredObserved(log, n))
    requires ProperLog(log) && Through(History(log, n), last) && (last.Some? ==> last.value / SECOND < at / SECOND)
    requires Recording(log, PollChanges(cache, log, answers, at, scope).events) == log + more
    requires forall e :: e in more ==> e in PollChanges(cache, log, answers, at, scope).events
    requires SomeListingTurns(cache, log, answers.author.value.seen, n)
    ensures exists e :: e in History(more, n) && Bearing(e)
  {
    hide ObserveEvents, PollChanges, ProperEvents, Turns, Known, StoredObserved, Recording, Through, ProperLog;
    var seen, previous := answers.author.value.seen, Previous(cache, n);
    var i :| 0 <= i < |seen| && seen[i].node.id == n && Turns(previous, Known(previous, log, n), seen[i]);
    TurnReported(previous, log, seen[i], at);
    var e :| && e in ObserveEvents(previous, log, seen[i], at) && Bearing(e) && Relevant(e, n)
             && e.key.kind != Observed && e.key.discriminator == OfHead(seen[i].node.headSha, at);
    ListingReported(cache, log, answers, at, scope, seen[i]);
    EventsRecorded(log, PollChanges(cache, log, answers, at, scope).events);
    LaterKeysNew(log, n, e.key.kind, seen[i].node.headSha, at, last);
    var k := StoredIn(log, more, e.key);
    EventFrom(cache, log, answers, at, scope, n, e);
    EventFrom(cache, log, answers, at, scope, n, more[k]);
    SameKeyRelevant(e, more[k], n);
    InHistory(more, n, k);
    assert Bearing(more[k]);
  }

  lemma StoredIn(log: seq<Event>, more: seq<Event>, key: Key) returns (k: nat)
    requires Recorded(log + more, key) && !Recorded(log, key)
    ensures k < |more| && more[k].key == key
  {
    var i :| 0 <= i < |log + more| && (log + more)[i].key == key;
    k := i - |log|;
  }

  lemma KnownReplay(cache: Cache, log: seq<Event>, answers: Answers, at: nat, scope: string, n: NodeId,
      last: Option<nat>)
    requires ProperEvents(answers) && answers.author.Some? && (n in cache || StoredObserved(log, n))
    requires ProperLog(log) && Sound(History(log, n), last) && FourDigitYear(at)
    requires last.Some? ==> last.value / SECOND < at / SECOND
    requires Agrees(Known(Previous(cache, n), log, n), History(log, n))
    ensures Replay(Recording(log, PollChanges(cache, log, answers, at, scope).events), n).ready == Some(true)
            <==> (Known(Previous(cache, n), log, n).ready == Some(true))
                 != SomeListingTurns(cache, log, answers.author.value.seen, n)
  {
    hide PollChanges, ProperEvents, Known, StoredObserved, Recording, ProperLog, Ordered, Alternating, ObservedFirst,
      FourDigitYear, SortedHistory, LastSignal, Absorbed, Bearing, SignalOf, Relevant, SomeListingTurns, Through,
      Previous, History, HasConflict;
    var events := PollChanges(cache, log, answers, at, scope).events;
    var more := RecordingAdds(log, events);
    HistoryAppend(log, more, n);
    var h, signals := History(log, n), History(more, n);
    var ready := Known(Previous(cache, n), log, n).ready == Some(true);
    forall e | e in signals && Bearing(e)
      ensures SignalOf(e) == !ready && !Overtaken(e, h) && SomeListingTurns(cache, log, answers.author.value.seen, n)
    {
      BearingTurns(cache, log, answers, at, scope, n, e);
      NotOvertaken(h, e, last);
    }
    if SomeListingTurns(cache, log, answers.author.value.seen, n) {
      TurnStored(cache, log, answers, at, scope, n, last, more);
    }
    SameSignal(h, signals, !ready);
    ReplayedInOrder(h);
    AbsorbedSignal(SortedHistory(h + signals));
  }

  // ---- A pull request seen for the first time -----------------------------------------------------

  lemma {:induction false} SeenPrefix(cache: Cache, log: seq<Event>, seen: seq<Seen>, at: nat,
      news: map<NodeId, seq<Event>>, k: nat)
    requires k <= |seen|
    ensures SeenEvents(cache, log, seen[..k], at, news) <= SeenEvents(cache, log, seen, at, news)
  {
    hide ReportedEvents;
    if k == |seen| {
      assert seen[..k] == seen;
    } else {
      var init := seen[..|seen| - 1];
      SeenPrefix(cache, log, init, at, news, k);
      assert init[..k] == seen[..k];
    }
  }

  /** What a poll says before it comes to the first listing, and what it says from there on. */
  lemma FirstListingSplits(cache: Cache, log: seq<Event>, answers: Answers, at: nat, scope: string, n: NodeId,
      first: nat, last: nat)
    returns (before: seq<Event>, after: seq<Event>)
    requires ProperEvents(answers) && answers.author.Some? && n !in cache && !StoredObserved(log, n)
    requires FirstAndLast(answers.author.value.seen, n, first, last)
    ensures var s := answers.author.value.seen[first];
            var e := StateEvent(Observed, n, OfRole(Author), at, CurrentFacts(None, s));
            PollChanges(cache, log, answers, at, scope).events == before + [e] + after
    ensures forall e :: e in before ==> ProperEvent(e) && !Relevant(e, n)
  {
    hide LeavingEvents, LeavingIds, SeenUpserts, LeavingUpserts, LeavingDeletes, ProperNews, SeenEvents,
      StoredObserved, NewsOf, Verdict, CurrentFacts, ProperEvent, Relevant, ProperOther;
    var author := answers.author.value;
    var seen := author.seen;
    var s := seen[first];
    var e := StateEvent(Observed, n, OfRole(Author), at, CurrentFacts(None, s));
    var init := SeenEvents(cache, log, seen[..first], at, author.news);
    var all := SeenEvents(cache, log, seen, at, author.news);
    SeenPrefix(cache, log, seen, at, author.news, first + 1);
    assert seen[..first + 1] == seen[..first] + [s];
    SeenEventsStep(cache, log, seen[..first], s, at, author.news);
    assert ReportedEvents(cache, log, s, at, author.news) == [e] + NewsOf(author.news, n);
    assert init + ([e] + NewsOf(author.news, n)) <= all;
    assert init + [e] <= all;
    before := answers.earlier + init;
    after := all[|init| + 1..] + LeavingEvents(author.news, LeavingIds(cache, author)) + answers.later;
    assert all == init + [e] + all[|init| + 1..];
    forall x | x in before ensures ProperEvent(x) && !Relevant(x, n) {
      if x in answers.earlier {
        OtherAside(x, n);
      } else {
        var i := SeenEventFrom(cache, log, seen[..first], at, author.news, x);
        assert seen[..first][i] == seen[i];
      }
    }
  }

  lemma OtherAside(e: Event, n: NodeId)
    requires ProperOther(e)
    ensures ProperEvent(e) && !Relevant(e, n)
  {
  }

  lemma HistoryNoneIn(more: seq<Event>, n: NodeId)
    requires forall e :: e in more ==> !Relevant(e, n)
    ensures History(more, n) == []
  {
    hide Relevant;
    NoHistory(more, n);
  }

  /** Only the first of several first sights is stored. */
  lemma FirstStored(cache: Cache, log: seq<Event>, answers: Answers, at: nat, scope: string, n: NodeId,
      first: nat, last: nat)
    requires ProperEvents(answers) && answers.author.Some? && n !in cache && !StoredObserved(log, n)
    requires ProperLog(log) && History(log, n) == []
    requires FirstAndLast(answers.author.value.seen, n, first, last)
    ensures var s := answers.author.value.seen[first];
            var e := StateEvent(Observed, n, OfRole(Author), at, CurrentFacts(None, s));
            History(Recording(log, PollChanges(cache, log, answers, at, scope).events), n) == [e]
  {
    hide PollChanges, ProperEvents, Recording, ProperLog, History, Recorded, CurrentFacts, Verdict, ProperEvent,
      Relevant, ObserveEvents;
    var s := answers.author.value.seen[first];
    var e := StateEvent(Observed, n, OfRole(Author), at, CurrentFacts(None, s));
    var events := PollChanges(cache, log, answers, at, scope).events;
    var before, after := FirstListingSplits(cache, log, answers, at, scope, n, first, last);
    RecordingConcat(log, before + [e], after);
    RecordingConcat(log, before, [e]);
    var m1 := RecordingAdds(log, before);
    HistoryAppend(log, m1, n);
    HistoryNoneIn(m1, n);
    NotRecordedBefore(log, before, n, e);
    RecordOne(log + m1, e);
    var m2 := RecordingAdds(log + m1 + [e], after);
    LogHas(log + m1, e);
    forall x | x in m2 ensures !Relevant(x, n) {
      assert x in events;
      EventFrom(cache, log, answers, at, scope, n, x);
      if Relevant(x, n) { OneFirstSight(cache, log, answers, at, n, x, e); }
    }
    HistoryNoneIn(m2, n);
    OwnHistory(e, n);
    HistoryAppend(log + m1, [e], n);
    HistoryAppend(log + m1 + [e], m2, n);
    assert [] + [] + [e] + [] == [e];
  }

  lemma LogHas(log: seq<Event>, e: Event)
    ensures Recorded(log + [e], e.key)
  {
    assert (log + [e])[|log|] == e;
  }

  lemma OwnHistory(e: Event, n: NodeId)
    requires e.key.kind == Observed && e.key.node == n && e.role == Author
    ensures History([e], n) == [e]
  {
    WholeHistory([e], n);
  }

  lemma OneFirstSight(cache: Cache, log: seq<Event>, answers: Answers, at: nat, n: NodeId, x: Event, e: Event)
    requires answers.author.Some? && n !in cache && !StoredObserved(log, n)
    requires exists i :: && 0 <= i < |answers.author.value.seen| && answers.author.value.seen[i].node.id == n
                         && x in ObserveEvents(Previous(cache, n), log, answers.author.value.seen[i], at)
    requires e.key == Key(Observed, n, OfRole(Author))
    ensures x.key == e.key
  {
    hide CurrentFacts, Verdict, StoredObserved;
  }

  lemma NotRecordedBefore(log: seq<Event>, before: seq<Event>, n: NodeId, e: Event)
    requires !StoredObserved(log, n) && e.key == Key(Observed, n, OfRole(Author))
    requires forall x :: x in before ==> ProperEvent(x) && !Relevant(x, n)
    ensures !Recorded(Recording(log, before), e.key)
  {
    hide Recording;
    forall i | 0 <= i < |before| ensures before[i].key != e.key {
      assert ProperEvent(before[i]) && !Relevant(before[i], n);
    }
    if Recorded(Recording(log, before), e.key) { RecordedBy(log, before, e.key); }
  }

  lemma FirstReplay(cache: Cache, log: seq<Event>, answers: Answers, at: nat, scope: string, n: NodeId,
      first: nat, last: nat)
    requires ProperEvents(answers) && answers.author.Some? && n !in cache && !StoredObserved(log, n)
    requires ProperLog(log) && History(log, n) == []
    requires FirstAndLast(answers.author.value.seen, n, first, last)
    ensures Replay(Recording(log, PollChanges(cache, log, answers, at, scope).events), n).ready == Some(true)
            <==> Verdict(CurrentFacts(None, answers.author.value.seen[first])) == ReadyTrue
  {
    hide PollChanges, ProperEvents, Recording, ProperLog, History, Recorded, CurrentFacts, Verdict, SortedHistory,
      StoredObserved;
    var e := StateEvent(Observed, n, OfRole(Author), at, CurrentFacts(None, answers.author.value.seen[first]));
    FirstStored(cache, log, answers, at, scope, n, first, last);
    SortedOne(e);
    AbsorbedSignal([e]);
    NoSignal();
    LastSignalAppend([], e);
    assert [] + [e] == [e];
  }

  // ---- The cache ----------------------------------------------------------------------------------

  lemma NoneLeavingSeen(cache: Cache, author: AuthorAnswers, base: Cache, n: NodeId)
    requires n in SeenIds(author.seen) && forall m :: m in cache ==> cache[m].node == m
    requires n in base
    ensures var after := Upserted(base, LeavingUpserts(cache, author, LeavingIds(cache, author)));
            n in after && after[n] == base[n]
    ensures n !in LeavingDeletes(cache, author, LeavingIds(cache, author))
  {
    hide Upserted, LeavingIds, SeenIds, Left, LeavingUpserts, LeavingDeletes, Latest;
    var leaving := LeavingIds(cache, author);
    var upserts := LeavingUpserts(cache, author, leaving);
    UpsertedLatest(base, upserts, n);
    LatestIsLast(upserts, n);
    if Latest(upserts, n).Some? {
      var i := Latest(upserts, n).value;
      LeavingScopes(cache, author, leaving, i);
      var m :| m in leaving && m in cache && Left(cache, author, m) == Some(upserts[i]);
      LeftKeepsScope(cache, author, m);
      assert false;
    }
    DeletesLeave(cache, author, leaving);
  }

  lemma {:induction false} DeletesLeave(cache: Cache, author: AuthorAnswers, leaving: seq<NodeId>)
    requires forall i :: 0 <= i < |leaving| ==> leaving[i] in cache
    ensures forall m :: m in LeavingDeletes(cache, author, leaving) ==> m in leaving
  {
    hide Left;
    if leaving != [] {
      DeletesLeave(cache, author, leaving[..|leaving| - 1]);
      assert leaving == leaving[..|leaving| - 1] + [leaving[|leaving| - 1]];
    }
  }

  /** The cache goes by the last listing. */
  lemma LastListingCached(cache: Cache, log: seq<Event>, answers: Answers, at: nat, scope: string, n: NodeId,
      first: nat, last: nat)
    requires answers.author.Some? && FirstAndLast(answers.author.value.seen, n, first, last)
    requires forall m :: m in cache ==> cache[m].node == m
    ensures var after := Committed(cache, PollChanges(cache, log, answers, at, scope));
            n in after && after[n] == ObserveResult(Previous(cache, n), log, answers.author.value.seen[last], scope)
  {
    hide Upserted, LeavingIds, SeenEvents, SeenUpserts, LeavingEvents, LeavingUpserts, LeavingDeletes, ObserveResult;
    var author := answers.author.value;
    var seen := SeenUpserts(cache, log, author.seen, scope);
    LastListingKept(cache, cache, log, author.seen, scope, last);
    assert author.seen[last] in author.seen;
    UpsertedConcat(cache, seen, LeavingUpserts(cache, author, LeavingIds(cache, author)));
    NoneLeavingSeen(cache, author, Upserted(cache, seen), n);
  }

  // ---- Both ---------------------------------------------------------------------------------------

  /**
   * A poll in a later second that lists a pull request any number of times, however its listings differ: after
   * its commit the cache and the log agree on the pull request's readiness exactly when the listings do.
   */
  lemma AgreementSurvivesListings(w: World, poll: PollId, answers: Answers, n: NodeId, first: nat, last: nat)
    requires Inv(w) && Accepts(w, poll) && ProperEvents(answers) && FourDigitYear(w.polls[poll].startedAt)
    requires w.lastCommit.Some? ==> w.lastCommit.value / SECOND < w.polls[poll].startedAt / SECOND
    requires answers.author.Some? && FirstAndLast(answers.author.value.seen, n, first, last)
    ensures var v := Exec(w, Commit(poll, answers));
            && n in v.cache
            && ((v.cache[n].lastKnown.ready == Some(true) <==> Replay(v.log, n).ready == Some(true))
                <==> ListingsAgree(w.cache, w.log, answers.author.value.seen, n, first, last))
  {
    hide PollChanges, Committed, Recording, ProperEvents, ProperLog, History, SortedHistory, FourDigitYear, Absorbed,
      Verdict, CurrentFacts, StoredObserved, Ordered, Alternating, Through, ObservedFirst, Known;
    var p := w.polls[poll];
    assert Sound(History(w.log, n), w.lastCommit);
    LastListingCached(w.cache, w.log, answers, p.startedAt, p.fence.scope, n, first, last);
    KnownAgrees(w.cache, w.log, n, w.lastCommit);
    if n !in w.cache && !StoredObserved(w.log, n) {
      FirstReplay(w.cache, w.log, answers, p.startedAt, p.fence.scope, n, first, last);
      NothingKnown(w.cache, w.log, n);
    } else {
      KnownReplay(w.cache, w.log, answers, p.startedAt, p.fence.scope, n, w.lastCommit);
      assert Turns(Previous(w.cache, n), Known(Previous(w.cache, n), w.log, n), answers.author.value.seen[last])
        ==> SomeListingTurns(w.cache, w.log, answers.author.value.seen, n);
    }
  }

  lemma NothingKnown(cache: Cache, log: seq<Event>, n: NodeId)
    requires n !in cache && !StoredObserved(log, n)
    ensures Known(Previous(cache, n), log, n) == NOTHING_KNOWN
  {
  }

  function Twice(): Answers {
    Answers([], Some(AuthorAnswers([Looked("pr", true), Looked("pr", false)], map[], map[], map[])), [])
  }

  /** The first poll ever, about to commit. */
  function Polling(): World {
    Exec(Exec(Exec(Exec(INITIAL, ApplyFence(true, "scope")), BeginPoll(0, "scope", 0)), LoadCache(0)), LoadLog(0))
  }

  /** Listed as ready and then, in the same search, as a draft: remembered as not ready, replayed as ready. */
  lemma ListedTwiceDisagrees()
    ensures var w := Exec(Polling(), Commit(0, Twice()));
            && "pr" in w.cache && w.cache["pr"].lastKnown.ready == Some(false)
            && Replay(w.log, "pr").ready == Some(true)
  {
    hide Exec, Replay, PollChanges, Committed, Recording, History, ObserveResult, CurrentFacts, Verdict, Format;
    PollingIs();
    CommitIs();
    TwiceIs();
    NoHistory([], "pr");
    LooksLike();
    FirstReplay(map[], [], Twice(), 0, "scope", "pr", 0, 1);
    LastListingCached(map[], [], Twice(), 0, "scope", "pr", 0, 1);
  }

  lemma PollingIs()
    ensures var w := Polling();
            && w.row == Some(Fence(true, "scope", 1)) && w.cache == map[] && w.log == []
            && w.polls == map[0 := Poll(Fence(true, "scope", 1), 0, Some(map[]), Some([]))]
  {
    hide PollChanges;
  }

  lemma CommitIs()
    ensures var w, changes := Exec(Polling(), Commit(0, Twice())), PollChanges(map[], [], Twice(), 0, "scope");
            w.cache == Committed(map[], changes) && w.log == Recording([], changes.events)
  {
    hide PollChanges, Committed, Recording;
    PollingIs();
    assert Accepts(Polling(), 0);
  }

  lemma TwiceIs()
    ensures ProperEvents(Twice()) && FirstAndLast(Twice().author.value.seen, "pr", 0, 1) && !StoredObserved([], "pr")
    ensures Twice().author.value.seen == [Looked("pr", true), Looked("pr", false)]
  {
  }

  lemma LooksLike()
    ensures Verdict(CurrentFacts(None, Looked("pr", true))) == ReadyTrue
    ensures ObserveResult(None, [], Looked("pr", false), "scope").lastKnown.ready == Some(false)
  {
    hide Format, Replay;
    var facts := CurrentFacts(None, Looked("pr", false));
    assert Verdict(facts) == ReadyFalse;
  }
}
