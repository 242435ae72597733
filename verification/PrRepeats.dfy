/**
 * A search that is read page by page may list a pull request twice. When both listings got the same answers,
 * the second changes nothing.
 */
module PrRepeats {
  import opened Options
  import opened PrWatch
  import opened PrWatchRuns

  predicate DistinctSeen(seen: seq<Seen>) {
    forall i, j :: 0 <= i < j < |seen| ==> seen[i].node.id != seen[j].node.id
  }

  /** All listings of a pull request got the same answers. */
  predicate RepeatsAgree(seen: seq<Seen>) {
    forall i, j :: 0 <= i < j < |seen| && seen[i].node.id == seen[j].node.id ==> seen[i] == seen[j]
  }

  /** The first listing of each pull request. */
  function Once(seen: seq<Seen>): seq<Seen> {
    if seen == [] then []
    else
      var init, last := seen[..|seen| - 1], seen[|seen| - 1];
      Once(init) + if last.node.id in SeenIds(init) then [] else [last]
  }

  function OnceListed(answers: Answers): Answers {
    if answers.author.None? then answers
    else answers.(author := Some(answers.author.value.(seen := Once(answers.author.value.seen))))
  }

  lemma {:induction false} OnceIsDistinct(seen: seq<Seen>)
    ensures DistinctSeen(Once(seen)) && SeenIds(Once(seen)) == SeenIds(seen)
    ensures forall s :: s in Once(seen) ==> s in seen
  {
    if seen != [] {
      var init, last := seen[..|seen| - 1], seen[|seen| - 1];
      OnceIsDistinct(init);
      assert seen == init + [last];
      assert SeenIds(seen) == SeenIds(init) + {last.node.id};
      if last.node.id !in SeenIds(init) {
        var once := Once(init);
        assert Once(seen) == once + [last];
        forall i | 0 <= i < |once| ensures once[i].node.id != last.node.id {
          assert once[i].node.id in SeenIds(once);
        }
        assert SeenIds(once + [last]) == SeenIds(once) + {last.node.id};
      }
    }
  }

  // ---- The events ---------------------------------------------------------------------------------

  lemma {:induction false} RecordingConcat(log: seq<Event>, a: seq<Event>, b: seq<Event>)
    ensures Recording(log, a + b) == Recording(Recording(log, a), b)
  {
    if b == [] {
      assert a + b == a;
    } else {
      RecordingConcat(log, a, b[..|b| - 1]);
      assert (a + b)[..|a + b| - 1] == a + b[..|b| - 1];
    }
  }

  lemma {:induction false} EventsRecorded(log: seq<Event>, events: seq<Event>)
    ensures forall e :: e in events ==> Recorded(Recording(log, events), e.key)
    ensures forall k :: Recorded(log, k) ==> Recorded(Recording(log, events), k)
  {
    if events != [] {
      var init, last := events[..|events| - 1], events[|events| - 1];
      EventsRecorded(log, init);
      assert events == init + [last];
      var before, after := Recording(log, init), Recording(log, events);
      assert forall i :: 0 <= i < |before| ==> after[i] == before[i];
      assert Recorded(before, last.key) || after[|before|] == last;
    }
  }

  lemma {:induction false} NothingNew(log: seq<Event>, events: seq<Event>)
    requires forall e :: e in events ==> Recorded(log, e.key)
    ensures Recording(log, events) == log
  {
    if events != [] {
      assert events[|events| - 1] in events;
      NothingNew(log, events[..|events| - 1]);
    }
  }

  lemma {:induction false} EventsOfSeen(cache: Cache, log: seq<Event>, seen: seq<Seen>, at: nat,
      news: map<NodeId, seq<Event>>, s: Seen)
    requires s in seen
    ensures forall e :: e in ReportedEvents(cache, log, s, at, news) ==> e in SeenEvents(cache, log, seen, at, news)
  {
    hide ReportedEvents;
    var init, last := seen[..|seen| - 1], seen[|seen| - 1];
    assert seen == init + [last];
    if s != last { EventsOfSeen(cache, log, init, at, news, s); }
  }

  lemma {:induction false} SameRecording(base: seq<Event>, cache: Cache, log: seq<Event>, seen: seq<Seen>, at: nat,
      news: map<NodeId, seq<Event>>)
    requires RepeatsAgree(seen)
    ensures Recording(base, SeenEvents(cache, log, Once(seen), at, news))
            == Recording(base, SeenEvents(cache, log, seen, at, news))
  {
    hide ReportedEvents, Recorded, Recording, Once, SeenEvents;
    if seen == [] {
      OnceNothing();
    } else {
      var init, last := seen[..|seen| - 1], seen[|seen| - 1];
      assert seen == init + [last] && forall i :: 0 <= i < |init| ==> init[i] == seen[i];
      SameRecording(base, cache, log, init, at, news);
      OnceStep(init, last);
      SeenEventsStep(cache, log, init, last, at, news);
      var events, more := SeenEvents(cache, log, init, at, news), ReportedEvents(cache, log, last, at, news);
      RecordingConcat(base, events, more);
      if last.node.id in SeenIds(init) {
        assert last in init;
        EventsOfSeen(cache, log, init, at, news, last);
        EventsRecorded(base, events);
        NothingNew(Recording(base, events), more);
      } else {
        SeenEventsStep(cache, log, Once(init), last, at, news);
        RecordingConcat(base, SeenEvents(cache, log, Once(init), at, news), more);
      }
    }
  }

  lemma OnceNothing()
    ensures Once([]) == []
  {
  }

  lemma OnceStep(init: seq<Seen>, last: Seen)
    ensures Once(init + [last]) == if last.node.id in SeenIds(init) then Once(init) else Once(init) + [last]
  {
    assert (init + [last])[..|init|] == init;
  }

  lemma SeenEventsStep(cache: Cache, log: seq<Event>, init: seq<Seen>, last: Seen, at: nat,
      news: map<NodeId, seq<Event>>)
    ensures SeenEvents(cache, log, init + [last], at, news)
            == SeenEvents(cache, log, init, at, news) + ReportedEvents(cache, log, last, at, news)
  {
    hide ReportedEvents;
    assert (init + [last])[..|init|] == init;
  }

  // ---- The cache ----------------------------------------------------------------------------------

  lemma {:induction false} UpsertedConcat(cache: Cache, a: seq<Observation>, b: seq<Observation>)
    ensures Upserted(cache, a + b) == Upserted(Upserted(cache, a), b)
  {
    if b == [] {
      assert a + b == a;
    } else {
      UpsertedConcat(cache, a, b[..|b| - 1]);
      assert (a + b)[..|a + b| - 1] == a + b[..|b| - 1];
    }
  }

  lemma {:induction false} SeenUpsertsIndexed(cache: Cache, log: seq<Event>, seen: seq<Seen>, scope: string)
    ensures |SeenUpserts(cache, log, seen, scope)| == |seen|
    ensures forall k :: 0 <= k < |seen| ==>
              && SeenUpserts(cache, log, seen, scope)[k]
                 == ObserveResult(Previous(cache, seen[k].node.id), log, seen[k], scope)
              && SeenUpserts(cache, log, seen, scope)[k].node == seen[k].node.id
  {
    hide Known, CurrentFacts, Learned;
    if seen != [] { SeenUpsertsIndexed(cache, log, seen[..|seen| - 1], scope); }
  }

  /** What the cache holds of a pull request after its listings is what the last of them gave. */
  lemma LastListingKept(base: Cache, cache: Cache, log: seq<Event>, seen: seq<Seen>, scope: string, k: nat)
    requires k < |seen| && forall i :: k < i < |seen| ==> seen[i].node.id != seen[k].node.id
    ensures var after, n := Upserted(base, SeenUpserts(cache, log, seen, scope)), seen[k].node.id;
            n in after && after[n] == ObserveResult(Previous(cache, n), log, seen[k], scope)
  {
    hide ObserveResult, SeenUpserts, Upserted;
    var upserts, n := SeenUpserts(cache, log, seen, scope), seen[k].node.id;
    SeenUpsertsIndexed(cache, log, seen, scope);
    UpsertedLatest(base, upserts, n);
    LatestIsLast(upserts, n);
    assert Latest(upserts, n) == Some(k);
  }

  lemma {:induction false} SameUpserts(base: Cache, cache: Cache, log: seq<Event>, seen: seq<Seen>, scope: string)
    requires RepeatsAgree(seen)
    ensures Upserted(base, SeenUpserts(cache, log, Once(seen), scope))
            == Upserted(base, SeenUpserts(cache, log, seen, scope))
  {
    hide ObserveResult, SeenUpserts, Upserted, Once;
    if seen == [] {
      OnceNothing();
    } else {
      var init, last := seen[..|seen| - 1], seen[|seen| - 1];
      assert seen == init + [last] && forall i :: 0 <= i < |init| ==> init[i] == seen[i];
      SameUpserts(base, cache, log, init, scope);
      OnceStep(init, last);
      UpsertsStep(base, cache, log, init, last, scope);
      if last.node.id in SeenIds(init) {
        var k := LastListing(init, last.node.id);
        assert seen[k] == last;
        LastListingKept(base, cache, log, init, scope, k);
      } else {
        UpsertsStep(base, cache, log, Once(init), last, scope);
      }
    }
  }

  lemma UpsertsStep(base: Cache, cache: Cache, log: seq<Event>, init: seq<Seen>, last: Seen, scope: string)
    ensures var o := ObserveResult(Previous(cache, last.node.id), log, last, scope);
            Upserted(base, SeenUpserts(cache, log, init + [last], scope))
            == Upserted(base, SeenUpserts(cache, log, init, scope))[last.node.id := o]
  {
    hide Known, CurrentFacts, Learned;
    assert (init + [last])[..|init|] == init;
    var upserts := SeenUpserts(cache, log, init, scope);
    var o := ObserveResult(Previous(cache, last.node.id), log, last, scope);
    assert (upserts + [o])[..|upserts|] == upserts;
  }

  lemma {:induction false} LastListing(seen: seq<Seen>, n: NodeId) returns (k: nat)
    requires n in SeenIds(seen)
    ensures k < |seen| && seen[k].node.id == n && forall i :: k < i < |seen| ==> seen[i].node.id != n
  {
    k := |seen| - 1;
    if seen[k].node.id != n {
      assert n in SeenIds(seen[..k]);
      k := LastListing(seen[..k], n);
    }
  }

  lemma {:induction false} SameLeaving(cache: Cache, a: AuthorAnswers, b: AuthorAnswers, leaving: seq<NodeId>)
    requires a.followUps == b.followUps && a.details == b.details
    requires forall i :: 0 <= i < |leaving| ==> leaving[i] in cache
    ensures LeavingUpserts(cache, a, leaving) == LeavingUpserts(cache, b, leaving)
    ensures LeavingDeletes(cache, a, leaving) == LeavingDeletes(cache, b, leaving)
  {
    hide Leave;
    if leaving != [] { SameLeaving(cache, a, b, leaving[..|leaving| - 1]); }
  }

  // ---- The whole poll -----------------------------------------------------------------------------

  /** A poll that lists some pull requests again, with the same answers, commits what it would without that. */
  lemma RepeatsChangeNothing(w: World, poll: PollId, answers: Answers)
    requires answers.author.Some? ==> RepeatsAgree(answers.author.value.seen)
    ensures Exec(w, Commit(poll, answers)) == Exec(w, Commit(poll, OnceListed(answers)))
  {
    hide SeenEvents, SeenUpserts, LeavingEvents, LeavingUpserts, LeavingDeletes, Recording, Upserted, LeavingIds,
      RepeatsAgree, Once;
    if Accepts(w, poll) && answers.author.Some? {
      var p, author := w.polls[poll], answers.author.value;
      var cache, log, at, scope := p.cache.value, p.log.value, p.startedAt, p.fence.scope;
      var once := author.(seen := Once(author.seen));
      SameLeavingIds(cache, author);
      var leaving := LeavingIds(cache, author);
      SameLeaving(cache, author, once, leaving);
      var farewell := LeavingEvents(author.news, leaving);
      var all, some := SeenEvents(cache, log, author.seen, at, author.news),
        SeenEvents(cache, log, once.seen, at, author.news);
      EventsInTurn(w.log, answers.earlier, all, farewell, answers.later);
      EventsInTurn(w.log, answers.earlier, some, farewell, answers.later);
      SameRecording(Recording(w.log, answers.earlier), cache, log, author.seen, at, author.news);
      UpsertedConcat(w.cache, SeenUpserts(cache, log, author.seen, scope), LeavingUpserts(cache, author, leaving));
      UpsertedConcat(w.cache, SeenUpserts(cache, log, once.seen, scope), LeavingUpserts(cache, author, leaving));
      SameUpserts(w.cache, cache, log, author.seen, scope);
    }
  }

  lemma SameLeavingIds(cache: Cache, author: AuthorAnswers)
    ensures LeavingIds(cache, author.(seen := Once(author.seen))) == LeavingIds(cache, author)
  {
    OnceIsDistinct(author.seen);
  }

  lemma EventsInTurn(log: seq<Event>, a: seq<Event>, b: seq<Event>, c: seq<Event>, d: seq<Event>)
    ensures Recording(log, a + (b + c) + d) == Recording(Recording(Recording(Recording(log, a), b), c), d)
  {
    hide Recording;
    RecordingConcat(log, a + (b + c), d);
    RecordingConcat(log, a, b + c);
    RecordingConcat(Recording(log, a), b, c);
  }
}
