/** What a reviewer poll reports of one pull request and keeps of it, spelled out case by case. */
module ReviewerOutcomes {
  import opened Options
  import opened ReviewerWatch
  import Text

  predicate Same(a: string, b: string) {
    Text.Lower(a) == Text.Lower(b)
  }

  predicate Among(name: string, names: seq<string>) {
    exists i :: 0 <= i < |names| && Same(names[i], name)
  }

  predicate Cut(status: Status) {
    |status.nodes| < status.totalCount
  }

  /** The user is listed by name. */
  predicate ByName(scope: Scope, status: Status) {
    exists i :: 0 <= i < |status.nodes| && status.nodes[i].Some? && status.nodes[i].value.User?
                && Same(status.nodes[i].value.login, scope.login)
  }

  /** This team is listed, and requests of teams are wanted. */
  predicate ByTeam(scope: Scope, status: Status, team: string) {
    !scope.directOnly
    && exists i :: 0 <= i < |status.nodes| && status.nodes[i].Some? && status.nodes[i].value.Team?
                   && status.nodes[i].value.organization + "/" + status.nodes[i].value.slug == team
  }

  predicate Own(scope: Scope, team: string) {
    !Among(team, scope.ignoreTeams) && scope.teams.Some? && Among(team, scope.teams.value)
  }

  /** What a request is made of: the user's name, the user's own teams in order, or a team that cannot be told. */
  ghost predicate IsRequest(scope: Scope, status: Status, inSearch: bool, request: Request) {
    && (request.direct <==> ByName(scope, status) || (inSearch && scope.directOnly && Cut(status)))
    && (forall team :: team in request.teams <==> ByTeam(scope, status, team) && Own(scope, team))
    && (forall i, j :: 0 <= i < j < |request.teams| ==> Text.Less(request.teams[i], request.teams[j]))
    && (request.unresolvedTeam <==> !request.direct && request.teams == [])
    && (request.incomplete <==> !request.direct && Cut(status))
  }

  /** Outside a search a request is there exactly when the user or an own team is listed. */
  predicate Concerned(scope: Scope, status: Status) {
    ByName(scope, status)
    || exists i :: 0 <= i < |status.nodes| && status.nodes[i].Some? && status.nodes[i].value.Team?
                   && !scope.directOnly
                   && Own(scope, status.nodes[i].value.organization + "/" + status.nodes[i].value.slug)
  }

  /** The complete evidence on which a search result is dropped. */
  predicate Unconcerned(scope: Scope, status: Status) {
    && !Cut(status) && !ByName(scope, status)
    && (scope.directOnly
        || ((exists i :: 0 <= i < |status.nodes| && status.nodes[i].Some? && status.nodes[i].value.Team?)
            && forall i :: 0 <= i < |status.nodes| && status.nodes[i].Some? && status.nodes[i].value.Team? ==>
                 Among(status.nodes[i].value.organization + "/" + status.nodes[i].value.slug, scope.ignoreTeams)))
  }

  lemma RequestDecided(scope: Scope, status: Status)
    ensures RequestFor(scope, status, true).None? <==> Unconcerned(scope, status)
    ensures RequestFor(scope, status, false).None? <==> !Concerned(scope, status)
    ensures forall inSearch :: RequestFor(scope, status, inSearch).Some? ==>
      IsRequest(scope, status, inSearch, RequestFor(scope, status, inSearch).value)
  {
    hide Text.Listing, Text.Lower, RequestFor, IsRequest, Unconcerned, Concerned;
    DroppedSpelledOut(scope, status);
    OutsideSpelledOut(scope, status);
    forall inSearch | RequestFor(scope, status, inSearch).Some?
      ensures IsRequest(scope, status, inSearch, RequestFor(scope, status, inSearch).value)
    {
      RequestSpelledOut(scope, status, inSearch);
    }
  }

  lemma NamedSpelledOut(scope: Scope, status: Status)
    ensures SomeUser(scope, status.nodes) <==> ByName(scope, status)
    ensures forall team :: team in OwnTeams(scope, status.nodes) <==> ByTeam(scope, status, team) && Own(scope, team)
    ensures forall name, names :: Listed(name, names) <==> Among(name, names)
  {
    hide Text.Lower;
    assert forall name, names :: Listed(name, names) <==> Among(name, names);
    if SomeUser(scope, status.nodes) {
      var node :| node in status.nodes && NamesUser(scope, node);
      var i :| 0 <= i < |status.nodes| && status.nodes[i] == node;
    }
    if ByName(scope, status) {
      var i :| 0 <= i < |status.nodes| && status.nodes[i].Some? && status.nodes[i].value.User?
               && Same(status.nodes[i].value.login, scope.login);
      assert NamesUser(scope, status.nodes[i]);
    }
    forall team ensures team in OwnTeams(scope, status.nodes) <==> ByTeam(scope, status, team) && Own(scope, team) {
      OwnTeamSpelledOut(scope, status, team);
    }
  }

  lemma OwnTeamSpelledOut(scope: Scope, status: Status, team: string)
    ensures team in OwnTeams(scope, status.nodes) <==> ByTeam(scope, status, team) && Own(scope, team)
  {
    hide Text.Lower;
    assert forall name, names :: Listed(name, names) <==> Among(name, names);
    if team in OwnTeams(scope, status.nodes) {
      var node :| node in status.nodes && NamesOwnTeam(scope, node) && TeamName(node.value) == team;
      var i :| 0 <= i < |status.nodes| && status.nodes[i] == node;
      assert ByTeam(scope, status, team);
    }
    if ByTeam(scope, status, team) && Own(scope, team) {
      var i :| 0 <= i < |status.nodes| && status.nodes[i].Some? && status.nodes[i].value.Team?
               && status.nodes[i].value.organization + "/" + status.nodes[i].value.slug == team;
      assert NamesOwnTeam(scope, status.nodes[i]);
    }
  }

  lemma DroppedSpelledOut(scope: Scope, status: Status)
    ensures RequestFor(scope, status, true).None? <==> Unconcerned(scope, status)
  {
    hide Text.Listing, Text.Lower, RequestFor, Listed;
    DroppedOnlyOnEvidence(scope, status);
    NamedSpelledOut(scope, status);
    assert (forall node :: node in status.nodes ==> !NamesUser(scope, node)) <==> !ByName(scope, status);
    if !scope.directOnly {
      if exists node :: node in status.nodes && NamesTeam(scope, node) {
        var node :| node in status.nodes && NamesTeam(scope, node);
        var i :| 0 <= i < |status.nodes| && status.nodes[i] == node;
      }
      if i :| 0 <= i < |status.nodes| && status.nodes[i].Some? && status.nodes[i].value.Team? {
        assert NamesTeam(scope, status.nodes[i]);
      }
      IgnoredSpelledOut(scope, status);
    }
  }

  lemma IgnoredSpelledOut(scope: Scope, status: Status)
    requires !scope.directOnly
    ensures (forall node :: node in status.nodes && NamesTeam(scope, node) ==> NamesIgnored(scope, node))
            <==> forall i :: 0 <= i < |status.nodes| && status.nodes[i].Some? && status.nodes[i].value.Team? ==>
              Among(status.nodes[i].value.organization + "/" + status.nodes[i].value.slug, scope.ignoreTeams)
  {
    hide Listed, Among;
    NamedSpelledOut(scope, status);
    if forall node :: node in status.nodes && NamesTeam(scope, node) ==> NamesIgnored(scope, node) {
      forall i | 0 <= i < |status.nodes| && status.nodes[i].Some? && status.nodes[i].value.Team?
        ensures Among(status.nodes[i].value.organization + "/" + status.nodes[i].value.slug, scope.ignoreTeams)
      {
        assert NamesIgnored(scope, status.nodes[i]);
      }
    }
    if forall i :: 0 <= i < |status.nodes| && status.nodes[i].Some? && status.nodes[i].value.Team? ==>
      Among(status.nodes[i].value.organization + "/" + status.nodes[i].value.slug, scope.ignoreTeams)
    {
      forall node | node in status.nodes && NamesTeam(scope, node) ensures NamesIgnored(scope, node) {
        var i :| 0 <= i < |status.nodes| && status.nodes[i] == node;
      }
    }
  }

  lemma OutsideSpelledOut(scope: Scope, status: Status)
    ensures RequestFor(scope, status, false).None? <==> !Concerned(scope, status)
  {
    hide Text.Listing, Text.Lower, OwnTeams, SomeUser, ByName, Own;
    NamedSpelledOut(scope, status);
    ListingEmpty(OwnTeams(scope, status.nodes));
    if OwnTeams(scope, status.nodes) != {} {
      var team :| team in OwnTeams(scope, status.nodes);
      assert ByTeam(scope, status, team) && Own(scope, team);
    }
    if i :| 0 <= i < |status.nodes| && status.nodes[i].Some? && status.nodes[i].value.Team? && !scope.directOnly
            && Own(scope, status.nodes[i].value.organization + "/" + status.nodes[i].value.slug) {
      var team := status.nodes[i].value.organization + "/" + status.nodes[i].value.slug;
      assert ByTeam(scope, status, team) && team in OwnTeams(scope, status.nodes);
    }
  }

  lemma RequestSpelledOut(scope: Scope, status: Status, inSearch: bool)
    requires RequestFor(scope, status, inSearch).Some?
    ensures IsRequest(scope, status, inSearch, RequestFor(scope, status, inSearch).value)
  {
    hide Text.Lower, OwnTeams, SomeUser, ByName, ByTeam, Own, MayBeTeam, Text.Less;
    NamedSpelledOut(scope, status);
  }

  // ---- Leaving the search -----------------------------------------------------------------------------

  /** A review with an id that was not there before, and its report. */
  function ReviewReported(n: NodeId, review: Option<Review>, previous: Option<Review>): seq<Event> {
    if review.Some? && (previous.Some? ==> previous.value.id != review.value.id)
    then [Event(n, ReviewSubmitted(review.value.id))] else []
  }

  /** The last event about a tracked pull request that is not seen any more, if this poll ends it. */
  function Farewell(scope: Scope, prior: Observation, followUp: Option<FollowUp>, reviewed: bool): Option<Kind> {
    match followUp
    case None => if prior.missingPolls >= 5 then Some(Unwatched) else None
    case Some(f) =>
      match f.state
      case IsMerged => Some(Merged)
      case IsClosed => Some(Closed)
      case IsOpen =>
        if !Cut(f.status) && !Concerned(scope, f.status) then Some(Removed(reviewed))
        else if f.archived || prior.missingPolls >= 5 then Some(Unwatched)
        else None
  }

  /**
   * A tracked pull request the search does not show: first its review is reported when it is new, and then why
   * the request ended. Merged and closed are reported as such; an open one whose whole list no longer asks for
   * the user as removed, by a review or not; one that is archived, or missed for the sixth time, as unwatched.
   * Otherwise it is kept, missed once more.
   */
  lemma LeavingDecided(cache: Cache, baselines: Baselines, polled: bool, poll: Poll, n: NodeId)
    requires Keyed(cache) && Distinct(poll.nodes) && n in cache && forall node :: node in poll.nodes ==> node.id != n
    ensures var changes, prior := PollChanges(cache, baselines, polled, poll), cache[n];
            var followUp := if n in poll.followUps then Some(poll.followUps[n]) else None;
            var review :=
              if followUp.Some? then ReviewReported(n, followUp.value.status.viewerReview, prior.viewerReview) else [];
            var farewell := Farewell(poll.scope, prior, followUp, review != []);
            var after := Upserted(cache, changes.upserts) - changes.deletes;
            && Of(changes.events, n) == review + (if farewell.Some? then [Event(n, farewell.value)] else [])
            && (n in after <==> farewell.None?)
            && (n in after ==>
                  after[n] == prior.(missingPolls := prior.missingPolls + 1,
                                     viewerReview := if followUp.Some? then followUp.value.status.viewerReview
                                                     else prior.viewerReview))
  {
    hide Of, Upserted, PollChanges, LeavingOutcome, Farewell, ReviewReported;
    PollOutcome(cache, baselines, polled, poll, n);
    LeavingSpelledOut(cache, poll, n);
  }

  lemma LeavingSpelledOut(cache: Cache, poll: Poll, n: NodeId)
    requires Keyed(cache) && n in cache
    ensures var prior, o := cache[n], LeavingOutcome(cache, n, poll);
            var followUp := if n in poll.followUps then Some(poll.followUps[n]) else None;
            var review :=
              if followUp.Some? then ReviewReported(n, followUp.value.status.viewerReview, prior.viewerReview) else [];
            var farewell := Farewell(poll.scope, prior, followUp, review != []);
            && o.events == review + (if farewell.Some? then [Event(n, farewell.value)] else [])
            && (o.kept.Some? <==> farewell.None?)
            && (o.kept.Some? ==>
                  o.kept.value == prior.(missingPolls := prior.missingPolls + 1,
                                         viewerReview := if followUp.Some? then followUp.value.status.viewerReview
                                                         else prior.viewerReview))
  {
    hide RequestFor, Concerned;
    if n in poll.followUps { OutsideSpelledOut(poll.scope, poll.followUps[n].status); }
  }

  // ---- In the search ----------------------------------------------------------------------------------

  /** The events about a pull request that the search shows and that asks for the user. */
  function Greeting(n: NodeId, prior: Option<Observation>, baseline: Option<nat>, polled: bool, review: Option<Review>)
    : seq<Event>
  {
    if prior.Some? then ReviewReported(n, review, prior.value.viewerReview)
    else
      (if baseline.None? then [Event(n, Observed)]
       else if review.Some? && baseline.value < review.value.submittedAt then
         [Event(n, ReviewSubmitted(review.value.id))]
       else [])
      + (if polled then [Event(n, ReviewRequested)] else [])
  }

  /**
   * A pull request the search shows. On complete evidence that it is not the user's it is dropped, and reported
   * as removed if it was tracked. Otherwise it is tracked with its request and review and the time it was first
   * observed at: announced as observed the first time ever, as requested unless nothing was polled before.
   */
  lemma SeenDecided(cache: Cache, baselines: Baselines, polled: bool, poll: Poll, i: nat)
    requires Keyed(cache) && Distinct(poll.nodes) && i < |poll.nodes|
    ensures var changes, node := PollChanges(cache, baselines, polled, poll), poll.nodes[i];
            var n, review := node.id, node.status.viewerReview;
            var prior := if n in cache then Some(cache[n]) else None;
            var baseline := if n in baselines then Some(baselines[n]) else None;
            var after := Upserted(cache, changes.upserts) - changes.deletes;
            if Unconcerned(poll.scope, node.status) then
              && n !in after
              && Of(changes.events, n)
                 == if prior.None? then []
                    else
                      var reported := ReviewReported(n, review, prior.value.viewerReview);
                      reported + [Event(n, Removed(reported != []))]
            else
              && n in after && Of(changes.events, n) == Greeting(n, prior, baseline, polled, review)
              && after[n].node == n && after[n].viewerReview == review && after[n].missingPolls == 0
              && IsRequest(poll.scope, node.status, true, after[n].request)
              && after[n].baselineAt == (if prior.Some? then prior.value.baselineAt
                                         else if baseline.Some? then baseline.value else poll.at)
  {
    hide Of, Upserted, PollChanges, SeenOutcome, Unconcerned, IsRequest, Greeting, ReviewReported;
    PollOutcome(cache, baselines, polled, poll, poll.nodes[i].id);
    SeenSpelledOut(cache, baselines, polled, poll.nodes[i], poll);
  }

  lemma SeenSpelledOut(cache: Cache, baselines: Baselines, polled: bool, node: Node, poll: Poll)
    requires Keyed(cache)
    ensures var n, review, o := node.id, node.status.viewerReview, SeenOutcome(cache, baselines, polled, node, poll);
            var prior := if n in cache then Some(cache[n]) else None;
            var baseline := if n in baselines then Some(baselines[n]) else None;
            if Unconcerned(poll.scope, node.status) then
              && o.kept.None?
              && o.events == if prior.None? then []
                             else
                               var reported := ReviewReported(n, review, prior.value.viewerReview);
                               reported + [Event(n, Removed(reported != []))]
            else
              && o.kept.Some? && o.events == Greeting(n, prior, baseline, polled, review)
              && o.kept.value.node == n && o.kept.value.viewerReview == review && o.kept.value.missingPolls == 0
              && IsRequest(poll.scope, node.status, true, o.kept.value.request)
              && o.kept.value.baselineAt == (if prior.Some? then prior.value.baselineAt
                                             else if baseline.Some? then baseline.value else poll.at)
  {
    hide RequestFor, IsRequest, Unconcerned;
    DroppedSpelledOut(poll.scope, node.status);
    if RequestFor(poll.scope, node.status, true).Some? { RequestSpelledOut(poll.scope, node.status, true); }
  }

  // ---- Starting over ----------------------------------------------------------------------------------

  /**
   * When the watch goes off or changes its scope, nothing stays tracked, and the next poll is a first one: what
   * it finds is taken as given and no request is announced. What was ever observed stays known.
   */
  lemma StartsOver(w: World, poll: Poll, e: Event)
    requires Distinct(poll.nodes)
    ensures var wiped := Next(w, Wipe); var after := Next(wiped, Commit(poll));
            && wiped.cache == map[] && !wiped.polled && wiped.baselines == w.baselines && wiped.emitted == w.emitted
            && after.polled && w.emitted <= after.emitted
            && (e in after.emitted[|w.emitted|..] ==> e.kind == Observed || e.kind.ReviewSubmitted?)
            && (e in after.emitted[|w.emitted|..] && e.kind == Observed ==> e.node !in w.baselines)
  {
    hide Of, Upserted, PollChanges, WithBaselines, NewlyObserved;
    var wiped := Next(w, Wipe);
    var changes := PollChanges(wiped.cache, wiped.baselines, wiped.polled, poll);
    var after := Next(wiped, Commit(poll));
    assert after.emitted[|w.emitted|..] == changes.events;
    if e in changes.events {
      EventsOf(changes.events, e);
      PollOutcome(wiped.cache, wiped.baselines, wiped.polled, poll, e.node);
      if e.node in SeenIds(poll.nodes) {
        var i :| 0 <= i < |poll.nodes| && poll.nodes[i].id == e.node;
        SeenDecided(wiped.cache, wiped.baselines, wiped.polled, poll, i);
        FirstGreeting(e.node, if e.node in w.baselines then Some(w.baselines[e.node]) else None,
          poll.nodes[i].status.viewerReview, e);
      }
    }
  }

  lemma FirstGreeting(n: NodeId, baseline: Option<nat>, review: Option<Review>, e: Event)
    ensures e in Greeting(n, None, baseline, false, review) ==>
      (e.kind == Observed && baseline.None?) || e.kind.ReviewSubmitted?
  {
  }

  lemma {:induction false} EventsOf(events: seq<Event>, e: Event)
    requires e in events
    ensures e in Of(events, e.node)
  {
    var init, last := events[..|events| - 1], events[|events| - 1];
    assert events == init + [last];
    if e != last { EventsOf(init, e); }
  }
}
