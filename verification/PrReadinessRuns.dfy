/** Over every run of well-spaced polls, the cache and the log tell the same story. */
module PrReadinessRuns {
  import opened Options
  import opened Rfc3339
  import opened Readiness
  import opened PrWatch
  import opened PrWatchRuns
  import opened PrReadinessLog
  import opened PrRepeats

  // ---- What a poll appends to one history ---------------------------------------------------------

  /** How each kind of event is keyed. */
  predicate ProperEvent(e: Event) {
    match e.key.kind
    case OtherEvent => true
    case Observed => e.key.discriminator == OfRole(e.role)
    case _ => e.role == Author && e.key.discriminator.OfHead? && e.key.discriminator.at == e.at
  }

  predicate ProperLog(log: seq<Event>) {
    forall i :: 0 <= i < |log| ==> ProperEvent(log[i])
  }

  /** An event of a poll that is not the author role's readiness, conflict or first observation. */
  predicate ProperOther(e: Event) {
    e.key.kind == OtherEvent
    || (e.key.kind == Observed && e.role == Reviewer && e.key.discriminator == OfRole(Reviewer))
  }

  predicate ProperNews(news: map<NodeId, seq<Event>>) {
    forall n, i :: n in news && 0 <= i < |news[n]| ==> ProperOther(news[n][i])
  }

  /** A search that lists a pull request again does so with the same answers. */
  predicate ProperAnswers(answers: Answers) {
    && (forall i :: 0 <= i < |answers.earlier| ==> ProperOther(answers.earlier[i]))
    && (forall i :: 0 <= i < |answers.later| ==> ProperOther(answers.later[i]))
    && (answers.author.Some? ==> RepeatsAgree(answers.author.value.seen) && ProperNews(answers.author.value.news))
  }

  lemma {:induction false} HistoryAppend(a: seq<Event>, b: seq<Event>, node: NodeId)
    ensures History(a + b, node) == History(a, node) + History(b, node)
  {
    if b == [] {
      assert a + b == a;
    } else {
      var k := |b| - 1;
      HistoryAppend(a, b[..k], node);
      assert (a + b)[..|a + b| - 1] == a + b[..k];
      assert (a + b)[|a + b| - 1] == b[k];
    }
  }

  lemma {:induction false} NoHistory(log: seq<Event>, node: NodeId)
    requires forall i :: 0 <= i < |log| ==> !Relevant(log[i], node)
    ensures History(log, node) == []
  {
    if log != [] { NoHistory(log[..|log| - 1], node); }
  }

  lemma {:induction false} WholeHistory(log: seq<Event>, node: NodeId)
    requires forall i :: 0 <= i < |log| ==> Relevant(log[i], node)
    ensures History(log, node) == log
  {
    if log != [] {
      WholeHistory(log[..|log| - 1], node);
      assert log == log[..|log| - 1] + [log[|log| - 1]];
    }
  }

  lemma {:induction false} RecordedBy(log: seq<Event>, events: seq<Event>, key: Key)
    requires Recorded(Recording(log, events), key)
    ensures Recorded(log, key) || Recorded(events, key)
  {
    if events != [] {
      var k := |events| - 1;
      var init := Recording(log, events[..k]);
      if Recorded(init, key) {
        RecordedBy(log, events[..k], key);
        if Recorded(events[..k], key) {
          var i :| 0 <= i < k && events[..k][i].key == key;
          assert events[i].key == key;
        }
      } else {
        assert events[k].key == key;
      }
    }
  }

  predicate NewKeys(log: seq<Event>, news: seq<Event>) {
    && (forall i :: 0 <= i < |news| ==> !Recorded(log, news[i].key))
    && (forall i, j :: 0 <= i < j < |news| ==> news[i].key != news[j].key)
  }

  lemma {:induction false} RecordingHistory(log: seq<Event>, events: seq<Event>, node: NodeId)
    requires ProperLog(log) && ProperLog(events)
    requires NewKeys(log, History(events, node))
    ensures ProperLog(Recording(log, events))
    ensures History(Recording(log, events), node) == History(log, node) + History(events, node)
  {
    hide ProperEvent;
    if events != [] {
      var k := |events| - 1;
      var e := events[k];
      var init := Recording(log, events[..k]);
      NewKeysInit(log, events, node);
      RecordingHistory(log, events[..k], node);
      if Recorded(init, e.key) {
        if Relevant(e, node) { NotYetRecorded(log, events, node); }
      } else {
        assert (init + [e])[..|init|] == init;
      }
    }
  }

  lemma NotYetRecorded(log: seq<Event>, events: seq<Event>, node: NodeId)
    requires events != [] && ProperLog(events) && NewKeys(log, History(events, node))
    requires Relevant(events[|events| - 1], node)
    ensures !Recorded(Recording(log, events[..|events| - 1]), events[|events| - 1].key)
  {
    hide ProperEvent;
    var k := |events| - 1;
    var e := events[k];
    var init := History(events[..k], node);
    assert History(events, node) == init + [e];
    forall j | 0 <= j < |init| ensures init[j].key != e.key {
      assert History(events, node)[j] == init[j] && History(events, node)[|init|] == e;
    }
    forall i | 0 <= i < k ensures events[..k][i].key != e.key {
      if events[i].key == e.key {
        SameKeyRelevant(e, events[i], node);
        InHistory(events[..k], node, i);
      }
    }
    assert !Recorded(log, History(events, node)[|init|].key);
    if Recorded(Recording(log, events[..k]), e.key) { RecordedBy(log, events[..k], e.key); }
  }

  lemma NewKeysInit(log: seq<Event>, events: seq<Event>, node: NodeId)
    requires events != [] && NewKeys(log, History(events, node))
    ensures NewKeys(log, History(events[..|events| - 1], node))
  {
    var init := History(events[..|events| - 1], node);
    assert forall i :: 0 <= i < |init| ==> History(events, node)[i] == init[i];
  }

  lemma SameKeyRelevant(a: Event, b: Event, node: NodeId)
    requires ProperEvent(a) && ProperEvent(b) && a.key == b.key && Relevant(a, node)
    ensures Relevant(b, node)
  {
  }

  lemma ObserveEventsProper(previous: Option<Observation>, log: seq<Event>, s: Seen, at: nat, i: nat)
    requires i < |ObserveEvents(previous, log, s, at)|
    ensures var e := ObserveEvents(previous, log, s, at)[i];
            && ProperEvent(e) && Relevant(e, s.node.id) && e.at == at
            && (e.key.kind == Observed <==> previous.None? && !StoredObserved(log, s.node.id))
            && (e.key.kind != Observed ==> e.key.discriminator == OfHead(s.node.headSha, at))
  {
    hide Verdict, CurrentFacts, Known, StoredObserved;
  }

  /** The other news of a pull request is well keyed and leaves the histories alone. */
  lemma NewsAside(news: map<NodeId, seq<Event>>, id: NodeId, node: NodeId)
    requires ProperNews(news)
    ensures ProperLog(NewsOf(news, id)) && History(NewsOf(news, id), node) == []
  {
    hide History;
    var more := NewsOf(news, id);
    forall i | 0 <= i < |more| ensures ProperEvent(more[i]) && !Relevant(more[i], node) {
      assert ProperOther(news[id][i]);
    }
    NoHistory(more, node);
  }

  lemma ReportedHistory(cache: Cache, log: seq<Event>, s: Seen, at: nat, news: map<NodeId, seq<Event>>, node: NodeId)
    requires ProperNews(news)
    ensures var reported := ReportedEvents(cache, log, s, at, news);
            && ProperLog(reported)
            && History(reported, node)
               == if s.node.id == node then ObserveEvents(Previous(cache, node), log, s, at) else []
  {
    hide ObserveEvents, ProperEvent, History, Previous, StoredObserved, NewsOf, ProperNews;
    var events := ObserveEvents(Previous(cache, s.node.id), log, s, at);
    var more := NewsOf(news, s.node.id);
    NewsAside(news, s.node.id, node);
    forall i | 0 <= i < |events| ensures ProperEvent(events[i]) && Relevant(events[i], s.node.id) {
      ObserveEventsProper(Previous(cache, s.node.id), log, s, at, i);
    }
    if s.node.id == node { WholeHistory(events, node); } else { NoHistory(events, node); }
    HistoryAppend(events, more, node);
    HistoryAppend(more, events, node);
    assert events + [] == events == [] + events;
  }

  lemma {:induction false} SeenEventsHistory(cache: Cache, log: seq<Event>, seen: seq<Seen>, at: nat,
      news: map<NodeId, seq<Event>>, node: NodeId)
    requires DistinctSeen(seen) && ProperNews(news)
    ensures var events := SeenEvents(cache, log, seen, at, news);
            && ProperLog(events)
            && (forall k :: 0 <= k < |seen| && seen[k].node.id == node ==>
                  History(events, node) == ObserveEvents(Previous(cache, node), log, seen[k], at))
            && ((forall k :: 0 <= k < |seen| ==> seen[k].node.id != node) ==> History(events, node) == [])
  {
    hide ObserveEvents, ReportedEvents, ProperEvent, History, Previous, ProperNews, SeenEvents;
    if seen == [] {
      NoHistory([], node);
      NobodySeen(cache, log, at, news);
    } else {
      var init, last := seen[..|seen| - 1], seen[|seen| - 1];
      assert seen == init + [last] && forall i :: 0 <= i < |init| ==> init[i] == seen[i];
      SeenEventsHistory(cache, log, init, at, news, node);
      ReportedHistory(cache, log, last, at, news, node);
      SeenEventsStep(cache, log, init, last, at, news);
      var events, more := SeenEvents(cache, log, init, at, news), ReportedEvents(cache, log, last, at, news);
      HistoryAppend(events, more, node);
      if last.node.id == node {
        assert History(events, node) == [];
        assert [] + History(more, node) == History(more, node);
      } else {
        assert History(events, node) + [] == History(events, node);
      }
    }
  }

  lemma NobodySeen(cache: Cache, log: seq<Event>, at: nat, news: map<NodeId, seq<Event>>)
    ensures SeenEvents(cache, log, [], at, news) == []
  {
  }

  lemma {:induction false} LeavingEventsAside(news: map<NodeId, seq<Event>>, leaving: seq<NodeId>, node: NodeId)
    requires ProperNews(news)
    ensures ProperLog(LeavingEvents(news, leaving)) && History(LeavingEvents(news, leaving), node) == []
  {
    hide ProperEvent, History, ProperNews, NewsOf;
    if leaving == [] {
      NoHistory([], node);
    } else {
      var k := |leaving| - 1;
      LeavingEventsAside(news, leaving[..k], node);
      NewsAside(news, leaving[k], node);
      HistoryAppend(LeavingEvents(news, leaving[..k]), NewsOf(news, leaving[k]), node);
    }
  }

  // ---- Invariants ---------------------------------------------------------------------------------

  predicate Through(h: seq<Event>, last: Option<nat>) {
    h != [] ==> last.Some? && forall i :: 0 <= i < |h| ==> h[i].at / SECOND <= last.value / SECOND
  }

  predicate Sound(h: seq<Event>, last: Option<nat>) {
    Ordered(h) && ObservedFirst(h) && Alternating(h) && Through(h, last)
  }

  predicate Agrees(known: LastKnown, h: seq<Event>) {
    && h != []
    && (known.ready == Some(true) <==> LastSignal(h) == Some(true))
    && (known.mergeable == Some(MergeableConflicting) ==> HasConflict(h))
  }

  predicate WellSpaced(w: World, step: Step) {
    step.Commit? && Accepts(w, step.poll) ==>
      var at := w.polls[step.poll].startedAt;
      && ProperAnswers(step.answers) && FourDigitYear(at)
      && (w.lastCommit.Some? ==> w.lastCommit.value / SECOND < at / SECOND)
  }

  /** Each poll that commits started in a later whole second than the one that committed before it. */
  predicate WellSpacedRun(w: World, steps: seq<Step>)
    decreases |steps|
  {
    steps == [] || (WellSpaced(w, steps[0]) && WellSpacedRun(Exec(w, steps[0]), steps[1..]))
  }

  ghost predicate Inv(w: World) {
    && Fenced(w) && ProperLog(w.log)
    && (forall n: NodeId :: Sound(History(w.log, n), w.lastCommit))
    && (forall n :: n in w.cache ==> Agrees(w.cache[n].lastKnown, History(w.log, n)))
  }

  lemma StoredObservedHistory(log: seq<Event>, node: NodeId)
    requires ProperLog(log) && ObservedFirst(History(log, node))
    ensures StoredObserved(log, node) <==> History(log, node) != []
  {
    var h := History(log, node);
    if StoredObserved(log, node) {
      var i :| 0 <= i < |log| && log[i].key == Key(Observed, node, OfRole(Author));
      assert ProperEvent(log[i]) && Relevant(log[i], node);
      InHistory(log, node, i);
    }
    if h != [] {
      assert h[0].key.kind == Observed && h[0] in log && Relevant(h[0], node);
      var i :| 0 <= i < |log| && log[i] == h[0];
      assert ProperEvent(log[i]);
    }
  }

  /** Nothing in the log was keyed by a poll that starts in a later second. */
  lemma LaterKeysNew(log: seq<Event>, node: NodeId, kind: Kind, sha: string, at: nat, last: Option<nat>)
    requires ProperLog(log) && Through(History(log, node), last)
    requires last.Some? ==> last.value / SECOND < at / SECOND
    requires kind != Observed && kind != OtherEvent
    ensures !Recorded(log, Key(kind, node, OfHead(sha, at)))
  {
    forall i | 0 <= i < |log| ensures log[i].key != Key(kind, node, OfHead(sha, at)) {
      if log[i].key == Key(kind, node, OfHead(sha, at)) {
        assert ProperEvent(log[i]) && Relevant(log[i], node);
        InHistory(log, node, i);
        assert false;
      }
    }
  }

  lemma ObserveKeysNew(cache: Cache, log: seq<Event>, s: Seen, at: nat, last: Option<nat>)
    requires ProperLog(log) && ObservedFirst(History(log, s.node.id)) && Through(History(log, s.node.id), last)
    requires last.Some? ==> last.value / SECOND < at / SECOND
    ensures NewKeys(log, ObserveEvents(Previous(cache, s.node.id), log, s, at))
  {
    hide Verdict, CurrentFacts, Known, History, Through, Recorded, ObservedFirst;
    LaterKeysNew(log, s.node.id, ReadyToMerge, s.node.headSha, at, last);
    LaterKeysNew(log, s.node.id, ReadinessLost, s.node.headSha, at, last);
    LaterKeysNew(log, s.node.id, MergeConflict, s.node.headSha, at, last);
  }

  /** One more observation keeps a history sound and the memory of it in agreement. */
  lemma FirstObservation(node: NodeId, facts: Facts, at: nat)
    requires FourDigitYear(at)
    ensures var h := [StateEvent(Observed, node, OfRole(Author), at, facts)];
            Sound(h, Some(at)) && Agrees(Learned(NOTHING_KNOWN, facts), h)
  {
    hide Verdict, FourDigitYear, LastSignal;
    var e := StateEvent(Observed, node, OfRole(Author), at, facts);
    var h := [e];
    LastSignalAppend([], e);
    NoSignal();
    assert [] + [e] == h && h[..0] == [] && h[0] == e;
    assert Conflicted(e) ==> HasConflict(h);
  }

  lemma NoSignal()
    ensures LastSignal([]) == None
  {
  }

  lemma LastSignalAppend(h: seq<Event>, e: Event)
    ensures LastSignal(h + [e]) == if Bearing(e) then Some(SignalOf(e)) else LastSignal(h)
    ensures Absorbed(h + [e]) == Absorb(Absorbed(h), e)
    ensures HasConflict(h + [e]) <==> HasConflict(h) || Conflicted(e)
  {
    assert (h + [e])[..|h|] == h;
    assert forall i :: 0 <= i < |h| ==> (h + [e])[i] == h[i];
    assert (h + [e])[|h|] == e;
  }

  lemma SoundAppend(h: seq<Event>, e: Event, last: Option<nat>)
    requires h != [] && Ordered(h) && ObservedFirst(h) && Alternating(h) && Through(h, last)
    requires e.key.kind != Observed && FourDigitYear(e.at)
    requires forall i :: 0 <= i < |h| ==> Later(h[i], e)
    requires Bearing(e) ==> LastSignal(h) != Some(SignalOf(e))
    ensures Ordered(h + [e]) && ObservedFirst(h + [e]) && Alternating(h + [e])
  {
    hide FourDigitYear, Later;
    var r := h + [e];
    assert forall i :: 0 <= i <= |h| ==> r[..i] == h[..i];
    assert h[..|h|] == h;
  }

  lemma Transition(h: seq<Event>, last: nat, known: LastKnown, s: Seen, at: nat, facts: Facts)
    requires Sound(h, Some(last)) && Agrees(known, h)
    requires last / SECOND < at / SECOND && FourDigitYear(at)
    ensures var r := h + TransitionEvents(known, s, at, facts);
            Sound(r, Some(at)) && Agrees(Learned(known, facts), r)
  {
    hide FourDigitYear, Ordered, Alternating, ObservedFirst, TransitionEvents, Learned, Bearing, SignalOf, Later,
      LastSignal, HasConflict, Conflicted, Absorbed;
    var news := TransitionEvents(known, s, at, facts);
    TransitionShape(known, s, at, facts);
    forall i, k | 0 <= i < |h| && 0 <= k < |news| ensures Later(h[i], news[k]) {
      LaterSecond(h[i], news[k]);
    }
    if |news| == 0 {
      assert h + news == h;
    } else {
      var a := news[0];
      SoundAppend(h, a, Some(last));
      LastSignalAppend(h, a);
      if |news| == 1 {
        assert h + news == h + [a];
      } else {
        var b := news[1];
        assert news == [a, b];
        SoundAppend(h + [a], b, Some(at));
        LastSignalAppend(h + [a], b);
        assert h + news == h + [a] + [b];
      }
    }
  }

  lemma LaterSecond(a: Event, b: Event)
    requires a.at / SECOND < b.at / SECOND
    ensures Later(a, b)
  {
  }

  /** At most one readiness event, which says the opposite of what is remembered, and then at most one conflict. */
  lemma TransitionShape(known: LastKnown, s: Seen, at: nat, facts: Facts)
    ensures var news, learned := TransitionEvents(known, s, at, facts), Learned(known, facts);
            && |news| <= 2
            && (forall i :: 0 <= i < |news| ==>
                  && news[i].at == at && news[i].key.kind != Observed
                  && (Bearing(news[i]) ==> SignalOf(news[i]) == (known.ready != Some(true)))
                  && (!Bearing(news[i]) ==> Conflicted(news[i])))
            && (|news| == 2 ==> Bearing(news[0]) && !Bearing(news[1]) && Later(news[0], news[1]))
            && (learned.ready == Some(true) <==>
                  if |news| > 0 && Bearing(news[0]) then SignalOf(news[0]) else known.ready == Some(true))
            && (learned.mergeable == Some(MergeableConflicting) ==>
                  || known.mergeable == Some(MergeableConflicting)
                  || (|news| > 0 && Conflicted(news[|news| - 1])))
  {
    hide Verdict;
  }

  // ---- One step -----------------------------------------------------------------------------------

  predicate SeenAs(cache: Cache, log: seq<Event>, seen: seq<Seen>, scope: string, n: NodeId, o: Observation) {
    exists k :: 0 <= k < |seen| && seen[k].node.id == n && o == ObserveResult(Previous(cache, n), log, seen[k], scope)
  }

  lemma CacheAfter(cache: Cache, log: seq<Event>, answers: Answers, at: nat, scope: string, n: NodeId)
    requires forall m :: m in cache ==> cache[m].node == m
    requires n in Committed(cache, PollChanges(cache, log, answers, at, scope))
    ensures var o := Committed(cache, PollChanges(cache, log, answers, at, scope))[n];
            || (n in cache && o.lastKnown == cache[n].lastKnown
                && (answers.author.Some? ==> n !in SeenIds(answers.author.value.seen)))
            || (answers.author.Some? && SeenAs(cache, log, answers.author.value.seen, scope, n, o))
  {
    hide LeavingIds, SeenEvents, SeenUpserts, LeavingUpserts, LeavingDeletes, Upserted, ObserveResult, Left;
    var changes := PollChanges(cache, log, answers, at, scope);
    UpsertedFrom(cache, changes.upserts, n);
    if answers.author.Some? {
      var author := answers.author.value;
      var seen := SeenUpserts(cache, log, author.seen, scope);
      SeenUpsertsIndexed(cache, log, author.seen, scope);
      var leaving := LeavingIds(cache, author);
      if i :| (&& 0 <= i < |changes.upserts| && changes.upserts[i].node == n
               && Upserted(cache, changes.upserts)[n] == changes.upserts[i])
      {
        if i < |seen| {
          assert changes.upserts[i] == seen[i];
        } else {
          LeavingScopes(cache, author, leaving, i - |seen|);
          assert changes.upserts[i] == LeavingUpserts(cache, author, leaving)[i - |seen|];
          var m :| m in leaving && m in cache && Left(cache, author, m) == Some(changes.upserts[i]);
          LeftKeepsScope(cache, author, m);
        }
      } else {
        forall k | 0 <= k < |author.seen| ensures author.seen[k].node.id != n {
          assert changes.upserts[k] == seen[k];
        }
      }
    }
  }

  predicate ListedOnce(answers: Answers) {
    answers.author.Some? ==> DistinctSeen(answers.author.value.seen)
  }

  lemma NewsOfPoll(cache: Cache, log: seq<Event>, answers: Answers, at: nat, scope: string, n: NodeId)
    requires ProperAnswers(answers) && ListedOnce(answers)
    ensures var events := PollChanges(cache, log, answers, at, scope).events;
            && ProperLog(events)
            && (answers.author.Some? ==>
                  var seen := answers.author.value.seen;
                  forall k :: 0 <= k < |seen| && seen[k].node.id == n ==>
                                History(events, n) == ObserveEvents(Previous(cache, n), log, seen[k], at))
            && (answers.author.None? || n !in SeenIds(answers.author.value.seen) ==> History(events, n) == [])
  {
    hide ObserveEvents, LeavingIds, SeenUpserts, LeavingUpserts, LeavingDeletes, SeenEvents, LeavingEvents, History,
      ProperNews;
    NoHistory(answers.earlier, n);
    NoHistory(answers.later, n);
    assert ProperLog(answers.earlier) && ProperLog(answers.later);
    HistoryAppend(answers.earlier, answers.later, n);
    if answers.author.Some? {
      var author := answers.author.value;
      var seen, leaving := SeenEvents(cache, log, author.seen, at, author.news),
        LeavingEvents(author.news, LeavingIds(cache, author));
      SeenEventsHistory(cache, log, author.seen, at, author.news, n);
      LeavingEventsAside(author.news, LeavingIds(cache, author), n);
      HistoryAppend(seen, leaving, n);
      HistoryAppend(answers.earlier, seen + leaving, n);
      HistoryAppend(answers.earlier + (seen + leaving), answers.later, n);
      assert [] + (History(seen, n) + []) + [] == History(seen, n);
    }
  }

  /** Where the memory of a pull request stands before the poll looks at it. */
  lemma KnownAgrees(cache: Cache, log: seq<Event>, n: NodeId, last: Option<nat>)
    requires ProperLog(log) && Sound(History(log, n), last)
    requires n in cache ==> Agrees(cache[n].lastKnown, History(log, n))
    ensures if n !in cache && !StoredObserved(log, n) then History(log, n) == []
            else Agrees(Known(Previous(cache, n), log, n), History(log, n))
  {
    hide Ordered, Alternating, Through, StoredObserved, History, SortedHistory, Absorbed, LastSignal, HasConflict,
      ObservedFirst, ProperLog;
    StoredObservedHistory(log, n);
    if n !in cache && StoredObserved(log, n) {
      var h := History(log, n);
      ReplayedInOrder(h);
      AbsorbedSignal(SortedHistory(h));
      ConflictIsLogged(h);
    }
  }

  lemma ConflictIsLogged(h: seq<Event>)
    ensures Absorbed(SortedHistory(h)).mergeable == Some(MergeableConflicting) ==> HasConflict(h)
  {
    hide SortedHistory, Absorbed, Conflicted;
    if Absorbed(SortedHistory(h)).mergeable == Some(MergeableConflicting) {
      ConflictRemembered(SortedHistory(h));
      var i :| 0 <= i < |SortedHistory(h)| && Conflicted(SortedHistory(h)[i]);
      assert SortedHistory(h)[i] in multiset(h);
      var j :| 0 <= j < |h| && h[j] == SortedHistory(h)[i];
    }
  }

  lemma CommitHistory(w: World, poll: PollId, answers: Answers, n: NodeId)
    requires Inv(w) && Accepts(w, poll) && WellSpaced(w, Commit(poll, answers)) && ListedOnce(answers)
    ensures var p := w.polls[poll];
            var changes := PollChanges(w.cache, w.log, answers, p.startedAt, p.fence.scope);
            && ProperLog(Recording(w.log, changes.events))
            && Sound(History(Recording(w.log, changes.events), n), Some(p.startedAt))
            && (n in Committed(w.cache, changes) ==>
                  Agrees(Committed(w.cache, changes)[n].lastKnown, History(Recording(w.log, changes.events), n)))
  {
    hide Ordered, Alternating, ObservedFirst, Agrees, PollChanges, Committed, Recording, History, FourDigitYear,
         ObserveEvents, ProperLog, StoredObserved, Known, NewKeys, Learned, CurrentFacts, StateEvent, TransitionEvents;
    var p := w.polls[poll];
    var at := p.startedAt;
    var h := History(w.log, n);
    var changes := PollChanges(w.cache, w.log, answers, at, p.fence.scope);
    assert Sound(h, w.lastCommit);
    NewsOfPoll(w.cache, w.log, answers, at, p.fence.scope, n);
    KnownAgrees(w.cache, w.log, n, w.lastCommit);
    if n in Committed(w.cache, changes) { CacheAfter(w.cache, w.log, answers, at, p.fence.scope, n); }
    if answers.author.Some? && n in SeenIds(answers.author.value.seen) {
      var seen := answers.author.value.seen;
      var k :| 0 <= k < |seen| && seen[k].node.id == n;
      ObserveKeysNew(w.cache, w.log, seen[k], at, w.lastCommit);
      RecordingHistory(w.log, changes.events, n);
      ObservationAgrees(w.cache, w.log, seen[k], at, p.fence.scope, w.lastCommit);
      if n in Committed(w.cache, changes) {
        forall j | 0 <= j < |seen| && seen[j].node.id == n ensures j == k { }
      }
    } else {
      EmptyNews(w.log);
      RecordingHistory(w.log, changes.events, n);
      assert h + [] == h;
    }
  }

  lemma EmptyNews(log: seq<Event>)
    ensures NewKeys(log, [])
  {
  }

  lemma ObservationAgrees(cache: Cache, log: seq<Event>, s: Seen, at: nat, scope: string, last: Option<nat>)
    requires var n := s.node.id;
             Sound(History(log, n), last)
             && (if n !in cache && !StoredObserved(log, n) then History(log, n) == []
                 else Agrees(Known(Previous(cache, n), log, n), History(log, n)))
    requires FourDigitYear(at) && (last.Some? ==> last.value / SECOND < at / SECOND)
    ensures var r := History(log, s.node.id) + ObserveEvents(Previous(cache, s.node.id), log, s, at);
            Sound(r, Some(at)) && Agrees(ObserveResult(Previous(cache, s.node.id), log, s, scope).lastKnown, r)
  {
    hide Ordered, Alternating, ObservedFirst, FourDigitYear, StoredObserved, Verdict, History, TransitionEvents,
      Learned, StateEvent, CurrentFacts, Replay;
    var n := s.node.id;
    var facts := CurrentFacts(Previous(cache, n), s);
    if n !in cache && !StoredObserved(log, n) {
      FirstObservation(n, facts, at);
      var e := StateEvent(Observed, n, OfRole(Author), at, facts);
      assert [] + [e] == [e];
    } else {
      Transition(History(log, n), last.value, Known(Previous(cache, n), log, n), s, at, facts);
    }
  }

  lemma CommitOnceKeeps(w: World, poll: PollId, answers: Answers)
    requires Inv(w) && Accepts(w, poll) && WellSpaced(w, Commit(poll, answers)) && ListedOnce(answers)
    ensures Inv(Exec(w, Commit(poll, answers)))
  {
    hide Sound, Agrees, PollChanges, Committed, Recording, History, FourDigitYear, ProperLog, ListedOnce;
    StepFenced(w, Commit(poll, answers));
    CommitHistory(w, poll, answers, "");
    forall n: NodeId
      ensures Sound(History(Exec(w, Commit(poll, answers)).log, n), Exec(w, Commit(poll, answers)).lastCommit)
    {
      CommitHistory(w, poll, answers, n);
    }
    forall n | n in Exec(w, Commit(poll, answers)).cache
      ensures Agrees(Exec(w, Commit(poll, answers)).cache[n].lastKnown, History(Exec(w, Commit(poll, answers)).log, n))
    {
      CommitHistory(w, poll, answers, n);
    }
  }

  lemma CommitKeeps(w: World, poll: PollId, answers: Answers)
    requires Inv(w) && Accepts(w, poll) && WellSpaced(w, Commit(poll, answers))
    ensures Inv(Exec(w, Commit(poll, answers)))
  {
    hide Inv, Exec, Accepts, FourDigitYear;
    RepeatsChangeNothing(w, poll, answers);
    OnceIsProper(answers);
    CommitOnceKeeps(w, poll, OnceListed(answers));
  }

  lemma OnceIsProper(answers: Answers)
    requires ProperAnswers(answers)
    ensures ProperAnswers(OnceListed(answers)) && ListedOnce(OnceListed(answers))
  {
    hide ProperNews, ProperOther;
    if answers.author.Some? { OnceIsDistinct(answers.author.value.seen); }
  }

  lemma StepKeeps(w: World, step: Step)
    requires Inv(w) && WellSpaced(w, step)
    ensures Inv(Exec(w, step))
  {
    hide Sound, Agrees, PollChanges, Committed, Recording, History, FourDigitYear, ProperLog;
    if step.Commit? && Accepts(w, step.poll) {
      CommitKeeps(w, step.poll, step.answers);
    } else {
      StepFenced(w, step);
      assert Exec(w, step).log == w.log && Exec(w, step).lastCommit == w.lastCommit;
      assert forall n: NodeId :: Sound(History(w.log, n), w.lastCommit);
    }
  }

  lemma {:induction false} RunKeeps(w: World, steps: seq<Step>)
    requires Inv(w) && WellSpacedRun(w, steps)
    ensures Inv(Run(w, steps))
    decreases |steps|
  {
    hide Exec, Inv;
    if steps != [] {
      StepKeeps(w, steps[0]);
      RunKeeps(Exec(w, steps[0]), steps[1..]);
    }
  }

  lemma RunSound(steps: seq<Step>)
    requires WellSpacedRun(INITIAL, steps)
    ensures Inv(Run(INITIAL, steps))
  {
    hide Exec, Run, WellSpacedRun;
    RunKeeps(INITIAL, steps);
  }

  // ---- Every well-spaced run ------------------------------------------------------------------------

  /**
   * The cache remembers a pull request as ready exactly when replaying the stored events says so, through
   * any unwatching, wiping of the cache and watching again; a remembered conflict is always replayed.
   */
  lemma CacheAgreesWithReplay(steps: seq<Step>, n: NodeId)
    requires WellSpacedRun(INITIAL, steps) && n in Run(INITIAL, steps).cache
    ensures var w := Run(INITIAL, steps);
            && (w.cache[n].lastKnown.ready == Some(true) <==> Replay(w.log, n).ready == Some(true))
            && (w.cache[n].lastKnown.mergeable == Some(MergeableConflicting) ==>
                  Replay(w.log, n).mergeable == Some(MergeableConflicting))
  {
    hide Exec, Run, WellSpacedRun, History, SortsBefore, Ordered, ObservedFirst, Alternating;
    RunSound(steps);
    var w := Run(INITIAL, steps);
    var h := History(w.log, n);
    assert Sound(h, w.lastCommit) && Agrees(w.cache[n].lastKnown, h);
    ReplayedInOrder(h);
    AbsorbedSignal(SortedHistory(h));
    if HasConflict(h) { ConflictReplayed(h); }
  }

  /** In the log of one pull request, each readiness event reports the opposite of the one before it. */
  lemma ReadinessAlternates(steps: seq<Step>, n: NodeId, i: nat, j: nat)
    requires WellSpacedRun(INITIAL, steps)
    requires var h := History(Run(INITIAL, steps).log, n);
             && i < j < |h| && Bearing(h[i]) && Bearing(h[j]) && forall k :: i < k < j ==> !Bearing(h[k])
    ensures var h := History(Run(INITIAL, steps).log, n);
            && SignalOf(h[i]) != SignalOf(h[j]) && h[i].at < h[j].at
            && h[j].key.kind == (if SignalOf(h[j]) then ReadyToMerge else ReadinessLost)
  {
    hide Exec, Run, WellSpacedRun, History, FourDigitYear, Absorbed, SortedHistory;
    RunSound(steps);
    var w := Run(INITIAL, steps);
    var h := History(w.log, n);
    assert Sound(h, w.lastCommit);
    SignalCarried(h, i, j);
    assert Later(h[i], h[j]);
    assert h[i].at < h[j].at by { LaterTime(h[i].at, h[j].at); }
  }

  lemma LaterTime(a: nat, b: nat)
    requires a / SECOND < b / SECOND
    ensures a < b
  {
  }

  lemma {:induction false} SignalCarried(h: seq<Event>, i: nat, j: nat)
    requires i < j <= |h| && Bearing(h[i]) && forall k :: i < k < j ==> !Bearing(h[k])
    ensures LastSignal(h[..j]) == Some(SignalOf(h[i]))
    decreases j
  {
    assert h[..j][..j - 1] == h[..j - 1];
    if i < j - 1 { SignalCarried(h, i, j - 1); }
  }

  // ---- Two polls in one second ----------------------------------------------------------------------

  function Looked(node: NodeId, ready: bool): Seen {
    Seen(Node(node, "sha", true, !ready, DecisionApproved),
         Some(MergeInfo("sha", DecisionApproved, MergeableYes, MergeClean, ChecksPassed)),
         Some(Detail(Some([]), Some([]))))
  }

  function Answer(s: Seen): Answers {
    Answers([], Some(AuthorAnswers([s], map[], map[], map[])), [])
  }

  function OnePoll(w: World, poll: PollId, now: nat, s: Seen): World {
    Exec(Exec(Exec(Exec(w, BeginPoll(poll, "scope", now)), LoadCache(poll)), LoadLog(poll)), Commit(poll, Answer(s)))
  }

  lemma OnePollEffect(w: World, poll: PollId, now: nat, s: Seen)
    requires w.row.Some? && w.row.value.enabled && w.row.value.scope == "scope" && poll !in w.polls
    requires w.cache.Keys <= {s.node.id}
    ensures var v := OnePoll(w, poll, now, s);
            && v.row == Some(w.row.value.(pollSeq := w.row.value.pollSeq + 1))
            && v.log == Recording(w.log, ObserveEvents(Previous(w.cache, s.node.id), w.log, s, now))
            && v.cache == w.cache[s.node.id := ObserveResult(Previous(w.cache, s.node.id), w.log, s, "scope")]
            && v.polls.Keys == w.polls.Keys + {poll}
  {
    hide PollChanges, Committed, Recording, ObserveEvents, ObserveResult;
    OneChange(w.cache, w.log, s, now);
    var w1 := Exec(w, BeginPoll(poll, "scope", now));
    var w2 := Exec(w1, LoadCache(poll));
    var w3 := Exec(w2, LoadLog(poll));
    assert w3.row == w.row && w3.cache == w.cache && w3.log == w.log;
    assert w3.polls.Keys == w.polls.Keys + {poll};
    assert w3.polls[poll] == Poll(w.row.value, now, Some(w.cache), Some(w.log));
    assert Accepts(w3, poll);
  }

  lemma OneChange(cache: Cache, log: seq<Event>, s: Seen, now: nat)
    requires cache.Keys <= {s.node.id}
    ensures var changes := PollChanges(cache, log, Answer(s), now, "scope");
            && changes.events == ObserveEvents(Previous(cache, s.node.id), log, s, now)
            && Committed(cache, changes)
                 == cache[s.node.id := ObserveResult(Previous(cache, s.node.id), log, s, "scope")]
  {
    hide ObserveEvents, Known, CurrentFacts, Learned, LeavingIds, Left, SeenEvents, SeenUpserts, Upserted;
    NoneLeaving(cache, s);
    OneSeen(cache, log, s, now);
    var events := ObserveEvents(Previous(cache, s.node.id), log, s, now);
    var o := ObserveResult(Previous(cache, s.node.id), log, s, "scope");
    var changes := PollChanges(cache, log, Answer(s), now, "scope");
    assert changes.events == [] + (events + []) + [] == events;
    assert changes.upserts == [o] + [] == [o];
    assert changes.deletes == [];
    OneUpsert(cache, o);
    assert Committed(cache, changes) == cache[o.node := o] - {};
  }

  lemma OneSeen(cache: Cache, log: seq<Event>, s: Seen, now: nat)
    ensures SeenEvents(cache, log, [s], now, map[]) == ObserveEvents(Previous(cache, s.node.id), log, s, now)
    ensures SeenUpserts(cache, log, [s], "scope") == [ObserveResult(Previous(cache, s.node.id), log, s, "scope")]
  {
    hide ObserveEvents, ObserveResult, Previous, StoredObserved;
    assert [s][..0] == [] && [s][0] == s;
    var events := ObserveEvents(Previous(cache, s.node.id), log, s, now);
    assert [] + events == events == events + [];
  }

  lemma OneUpsert(cache: Cache, o: Observation)
    ensures Upserted(cache, [o]) == cache[o.node := o]
  {
    assert [o][..0] == [] && Upserted(cache, []) == cache;
  }

  lemma NoneLeaving(cache: Cache, s: Seen)
    requires cache.Keys <= {s.node.id}
    ensures LeavingIds(cache, AuthorAnswers([s], map[], map[], map[])) == []
  {
    assert s in [s] && s.node.id in SeenIds([s]);
    assert cache.Keys - SeenIds([s]) == {};
  }

  /**
   * Without the spacing the agreement fails: a pull request seen ready on a whole second and lost half a
   * second later is remembered as not ready, but replayed as ready, because the later text sorts first.
   */
  lemma SameSecondDisagrees()
    ensures var ready := OnePoll(Exec(INITIAL, ApplyFence(true, "scope")), 0, 0, Looked("pr", true));
            var w := OnePoll(ready, 1, SECOND / 2, Looked("pr", false));
            && "pr" in w.cache && w.cache["pr"].lastKnown.ready == Some(false)
            && Replay(w.log, "pr").ready == Some(true)
  {
    hide SortsBefore, Format, OnePoll, SortedHistory, Replay, ObserveEvents, ObserveResult, Recording;
    var s1, s2 := Looked("pr", true), Looked("pr", false);
    var w0 := Exec(INITIAL, ApplyFence(true, "scope"));
    OnePollEffect(w0, 0, 0, s1);
    var w1 := OnePoll(w0, 0, 0, s1);
    FirstLook();
    var first := FirstEvent();
    RecordOne([], first);
    assert [] + [first] == [first];
    OnePollEffect(w1, 1, SECOND / 2, s2);
    SecondLook(w1.cache["pr"]);
    RecordOne([first], LostEvent());
    ReplayedWrong();
    assert [first] + [LostEvent()] == [first, LostEvent()];
  }

  function FirstEvent(): Event {
    Event(Key(Observed, "pr", OfRole(Author)), Author, 0, Some(true), MergeableYes)
  }

  function LostEvent(): Event {
    Event(Key(ReadinessLost, "pr", OfHead("sha", SECOND / 2)), Author, SECOND / 2, Some(false), MergeableYes)
  }

  lemma FirstLook()
    ensures ObserveEvents(None, [], Looked("pr", true), 0) == [FirstEvent()]
    ensures var o := ObserveResult(None, [], Looked("pr", true), "scope");
            o.lastKnown == LastKnown(Some(true), Some(MergeableYes))
  {
    hide Format;
    assert !StoredObserved([], "pr");
  }

  lemma SecondLook(o: Observation)
    requires o.lastKnown == LastKnown(Some(true), Some(MergeableYes))
    ensures ObserveEvents(Some(o), [FirstEvent()], Looked("pr", false), SECOND / 2) == [LostEvent()]
    ensures ObserveResult(Some(o), [FirstEvent()], Looked("pr", false), "scope").lastKnown.ready == Some(false)
  {
    hide Format;
    var s := Looked("pr", false);
    var facts := CurrentFacts(Some(o), s);
    assert Verdict(facts) == ReadyFalse && facts.mergeable == MergeableYes;
  }

  lemma ReplayedWrong()
    ensures Replay([FirstEvent(), LostEvent()], "pr").ready == Some(true)
  {
    hide SortsBefore, Format, Insert, SortedHistory, History, Absorbed, FirstEvent, LostEvent, Bearing, SignalOf,
      Relevant, LastSignal;
    var first, lost := FirstEvent(), LostEvent();
    TwoSignals();
    NoSignal();
    TwoHistory(first, lost);
    SameSecondOrder(first, lost);
    SortedExtended([first], lost);
    assert [first] + [lost] == [first, lost];
    SortedOne(first);
    InsertedSignal(lost, [first]);
    LastSignalAppend([], first);
    assert [] + [first] == [first];
    AbsorbedSignal(SortedHistory([first, lost]));
    assert first in [first] && Overtaken(lost, [first]);
  }

  lemma TwoSignals()
    ensures var first, lost := FirstEvent(), LostEvent();
            && Bearing(first) && SignalOf(first) && Relevant(first, "pr") && first.at == 0
            && Bearing(lost) && !SignalOf(lost) && Relevant(lost, "pr") && lost.at == SECOND / 2
  {
  }

  lemma TwoHistory(a: Event, b: Event)
    requires Relevant(a, "pr") && Relevant(b, "pr")
    ensures History([a, b], "pr") == [a, b]
  {
    WholeHistory([a, b], "pr");
  }

  lemma SortedOne(e: Event)
    ensures SortedHistory([e]) == [e]
  {
    var r := SortedHistory([e]);
    assert multiset(r) == multiset{e} && |r| == |multiset(r)| == 1;
    assert r[0] in multiset(r);
  }

  lemma RecordOne(log: seq<Event>, e: Event)
    requires !Recorded(log, e.key)
    ensures Recording(log, [e]) == log + [e]
  {
    assert [e][..0] == [];
  }

  lemma SameSecondOrder(first: Event, lost: Event)
    requires first.at == 0 && lost.at == SECOND / 2
    ensures SortsBefore(lost, first) && InOrder([first])
  {
    SameSecondReversed();
  }
}
