/** The reviewer side of the GitHub pull request watch: which requests concern the user, and when they come and go. */
module ReviewerWatch {
  import opened Options
  import Text

  type NodeId = string

  datatype Reviewer = User(login: string) | Team(organization: string, slug: string) | Bot

  datatype Review = Review(id: string, submittedAt: nat)

  /** `nodes` may be fewer than `totalCount`; a reviewer the viewer may not see is None. */
  datatype Status = Status(totalCount: nat, nodes: seq<Option<Reviewer>>, viewerReview: Option<Review>)

  /** `teams` are the user's, None when they were never fetched. */
  datatype Scope = Scope(login: string, directOnly: bool, ignoreTeams: seq<string>, teams: Option<seq<string>>)

  datatype Request = Request(direct: bool, teams: seq<string>, unresolvedTeam: bool, incomplete: bool)

  // ---- Whose request it is -----------------------------------------------------------------------------

  predicate EqualFold(a: string, b: string) {
    Text.Lower(a) == Text.Lower(b)
  }

  predicate Listed(name: string, names: seq<string>) {
    exists i :: 0 <= i < |names| && EqualFold(names[i], name)
  }

  function TeamName(t: Reviewer): string
    requires t.Team?
  {
    t.organization + "/" + t.slug
  }

  predicate Truncated(status: Status) {
    status.totalCount > |status.nodes|
  }

  predicate NamesUser(scope: Scope, node: Option<Reviewer>) {
    node.Some? && node.value.User? && EqualFold(node.value.login, scope.login)
  }

  /** A team counts only when requests through teams are wanted. */
  predicate NamesTeam(scope: Scope, node: Option<Reviewer>) {
    node.Some? && node.value.Team? && !scope.directOnly
  }

  predicate NamesIgnored(scope: Scope, node: Option<Reviewer>) {
    NamesTeam(scope, node) && Listed(TeamName(node.value), scope.ignoreTeams)
  }

  predicate NamesEligible(scope: Scope, node: Option<Reviewer>) {
    NamesTeam(scope, node) && !Listed(TeamName(node.value), scope.ignoreTeams)
  }

  predicate NamesOwnTeam(scope: Scope, node: Option<Reviewer>) {
    NamesEligible(scope, node) && scope.teams.Some? && Listed(TeamName(node.value), scope.teams.value)
  }

  function OwnTeams(scope: Scope, nodes: seq<Option<Reviewer>>): set<string> {
    set node | node in nodes && NamesOwnTeam(scope, node) :: TeamName(node.value)
  }

  predicate SomeUser(scope: Scope, nodes: seq<Option<Reviewer>>) {
    exists node :: node in nodes && NamesUser(scope, node)
  }

  predicate SomeIgnored(scope: Scope, nodes: seq<Option<Reviewer>>) {
    exists node :: node in nodes && NamesIgnored(scope, node)
  }

  predicate SomeEligible(scope: Scope, nodes: seq<Option<Reviewer>>) {
    exists node :: node in nodes && NamesEligible(scope, node)
  }

  predicate IsDirect(scope: Scope, status: Status, inSearch: bool) {
    SomeUser(scope, status.nodes) || (inSearch && scope.directOnly && Truncated(status))
  }

  /** No team of the user's is listed, but one may be behind what is listed or what is not. */
  predicate MayBeTeam(scope: Scope, status: Status, inSearch: bool) {
    inSearch && !scope.directOnly
    && (Truncated(status) || SomeEligible(scope, status.nodes) || !SomeIgnored(scope, status.nodes))
  }

  function RequestFor(scope: Scope, status: Status, inSearch: bool): Option<Request> {
    var direct, teams := IsDirect(scope, status, inSearch), Text.Listing(OwnTeams(scope, status.nodes));
    var unresolved := !direct && teams == [] && MayBeTeam(scope, status, inSearch);
    if !direct && teams == [] && !unresolved then None
    else Some(Request(direct, teams, unresolved, !direct && Truncated(status)))
  }

  method ReviewRequest(scope: Scope, status: Status, inSearch: bool) returns (request: Option<Request>)
    ensures request == RequestFor(scope, status, inSearch)
  {
    hide EqualFold, Listed, Text.Listing, SomeUser, SomeIgnored, SomeEligible, OwnTeams;
    NobodyNamed(scope);
    assert status.nodes[..0] == [];
    var direct := inSearch && scope.directOnly && status.totalCount > |status.nodes|;
    var teams: set<string> := {};
    var ignored, eligible := false, false;
    for i := 0 to |status.nodes|
      invariant direct <==> SomeUser(scope, status.nodes[..i]) || (inSearch && scope.directOnly && Truncated(status))
      invariant ignored <==> SomeIgnored(scope, status.nodes[..i])
      invariant eligible <==> SomeEligible(scope, status.nodes[..i])
      invariant teams == OwnTeams(scope, status.nodes[..i])
    {
      var node := status.nodes[i];
      assert status.nodes[..i + 1] == status.nodes[..i] + [node];
      NamedStep(scope, status.nodes[..i], node);
      OwnTeamsStep(scope, status.nodes[..i], node);
      if node.None? { continue; }
      if node.value.User? && EqualFold(node.value.login, scope.login) { direct := true; }
      if !node.value.Team? || scope.directOnly { continue; }
      var team := TeamName(node.value);
      if Listed(team, scope.ignoreTeams) {
        ignored := true;
        continue;
      }
      eligible := true;
      if scope.teams.Some? && Listed(team, scope.teams.value) { teams := teams + {team}; }
    }
    assert status.nodes[..|status.nodes|] == status.nodes;
    var names := Text.Listing(teams);
    var unresolved := false;
    if !direct && |names| == 0 && !scope.directOnly {
      unresolved := inSearch && (!ignored || eligible || status.totalCount > |status.nodes|);
    }
    if !direct && |names| == 0 && !unresolved { return None; }
    request := Some(Request(direct, names, unresolved, !direct && status.totalCount > |status.nodes|));
  }

  lemma NobodyNamed(scope: Scope)
    ensures !SomeUser(scope, []) && !SomeIgnored(scope, []) && !SomeEligible(scope, []) && OwnTeams(scope, []) == {}
  {
  }

  lemma NamedStep(scope: Scope, nodes: seq<Option<Reviewer>>, node: Option<Reviewer>)
    ensures SomeUser(scope, nodes + [node]) <==> SomeUser(scope, nodes) || NamesUser(scope, node)
    ensures SomeIgnored(scope, nodes + [node]) <==> SomeIgnored(scope, nodes) || NamesIgnored(scope, node)
    ensures SomeEligible(scope, nodes + [node]) <==> SomeEligible(scope, nodes) || NamesEligible(scope, node)
  {
    hide NamesUser, NamesIgnored, NamesEligible;
    assert node in nodes + [node] && forall x :: x in nodes ==> x in nodes + [node];
  }

  lemma OwnTeamsStep(scope: Scope, nodes: seq<Option<Reviewer>>, node: Option<Reviewer>)
    ensures OwnTeams(scope, nodes + [node])
            == OwnTeams(scope, nodes) + (if NamesOwnTeam(scope, node) then {TeamName(node.value)} else {})
  {
    hide NamesOwnTeam;
  }

  lemma ListingEmpty(s: set<string>)
    ensures Text.Listing(s) == [] <==> s == {}
  {
  }

  /**
   * A pull request the search returned is dropped only on complete evidence: nobody listed is the user, and
   * either only direct requests are wanted, or some team is listed and each one listed is ignored.
   */
  lemma DroppedOnlyOnEvidence(scope: Scope, status: Status)
    ensures RequestFor(scope, status, true).None? <==>
      && !Truncated(status)
      && (forall node :: node in status.nodes ==> !NamesUser(scope, node))
      && (scope.directOnly
          || ((exists node :: node in status.nodes && NamesTeam(scope, node))
              && forall node :: node in status.nodes && NamesTeam(scope, node) ==> NamesIgnored(scope, node)))
  {
    hide EqualFold, Listed, Text.Listing;
    ListingEmpty(OwnTeams(scope, status.nodes));
    if scope.directOnly || forall node :: node in status.nodes && NamesTeam(scope, node) ==> NamesIgnored(scope, node) {
      assert OwnTeams(scope, status.nodes) == {};
    }
  }

  // ---- Coming and going --------------------------------------------------------------------------------

  datatype Observation = Observation(
    node: NodeId, baselineAt: nat, request: Request, viewerReview: Option<Review>, missingPolls: nat)

  datatype Kind =
    | Observed
    | ReviewRequested
    | ReviewSubmitted(review: string)
    | Removed(reviewed: bool)
    | Merged
    | Closed
    | Unwatched

  datatype Event = Event(node: NodeId, kind: Kind)

  datatype Node = Node(id: NodeId, status: Status)
  datatype State = IsMerged | IsClosed | IsOpen
  datatype FollowUp = FollowUp(state: State, archived: bool, status: Status)

  /** One poll's time and answers; `nodes` is what the search found. */
  datatype Poll = Poll(at: nat, scope: Scope, nodes: seq<Node>, followUps: map<NodeId, FollowUp>)

  /** What one pull request contributes to a poll: its events, and its observation if it is kept. */
  datatype Outcome = Outcome(events: seq<Event>, kept: Option<Observation>)

  const MAX_MISSING_POLLS: nat := 6

  function Submitted(node: NodeId, review: Option<Review>, previous: Option<Review>): seq<Event> {
    if review.None? || (previous.Some? && previous.value.id == review.value.id) then []
    else [Event(node, ReviewSubmitted(review.value.id))]
  }

  function Removal(prior: Observation, review: Option<Review>): seq<Event> {
    var submitted := Submitted(prior.node, review, prior.viewerReview);
    submitted + [Event(prior.node, Removed(submitted != []))]
  }

  /** `baseline` is stored with the pull request's first observed event; `polled` says a poll came before this one. */
  function OnSeen(prior: Option<Observation>, baseline: Option<nat>, polled: bool, node: Node, poll: Poll): Outcome {
    var request, review := RequestFor(poll.scope, node.status, true), node.status.viewerReview;
    if request.None? then Outcome(if prior.Some? then Removal(prior.value, review) else [], None)
    else if prior.Some? then
      Outcome(Submitted(node.id, review, prior.value.viewerReview),
              Some(Observation(node.id, prior.value.baselineAt, request.value, review, 0)))
    else
      var first := if baseline.None? then [Event(node.id, Observed)]
                   else if review.Some? && review.value.submittedAt > baseline.value
                   then Submitted(node.id, review, None)
                   else [];
      Outcome(first + (if polled then [Event(node.id, ReviewRequested)] else []),
              Some(Observation(node.id, if baseline.Some? then baseline.value else poll.at, request.value, review, 0)))
  }

  function Missed(prior: Observation, events: seq<Event>): Outcome {
    if prior.missingPolls + 1 >= MAX_MISSING_POLLS then Outcome(events + [Event(prior.node, Unwatched)], None)
    else Outcome(events, Some(prior.(missingPolls := prior.missingPolls + 1)))
  }

  function OnLeaving(prior: Observation, followUp: Option<FollowUp>, poll: Poll): Outcome {
    if followUp.None? then Missed(prior, [])
    else
      var f := followUp.value;
      if f.state == IsOpen && !Truncated(f.status) && RequestFor(poll.scope, f.status, false).None? then
        Outcome(Removal(prior, f.status.viewerReview), None)
      else
        var submitted := Submitted(prior.node, f.status.viewerReview, prior.viewerReview);
        match f.state
        case IsMerged => Outcome(submitted + [Event(prior.node, Merged)], None)
        case IsClosed => Outcome(submitted + [Event(prior.node, Closed)], None)
        case IsOpen =>
          if f.archived then Outcome(submitted + [Event(prior.node, Unwatched)], None)
          else Missed(prior.(viewerReview := f.status.viewerReview), submitted)
  }

  type Cache = map<NodeId, Observation>

  /** What survives wiping the cache: the baselines stored with the observed events. */
  type Baselines = map<NodeId, nat>

  datatype Changes = Changes(events: seq<Event>, upserts: seq<Observation>, deletes: set<NodeId>)

  function Lookup<T>(m: map<NodeId, T>, n: NodeId): Option<T> {
    if n in m then Some(m[n]) else None
  }

  function SeenOutcome(cache: Cache, baselines: Baselines, polled: bool, node: Node, poll: Poll): Outcome {
    OnSeen(Lookup(cache, node.id), Lookup(baselines, node.id), polled, node, poll)
  }

  function Plus(changes: Changes, node: NodeId, outcome: Outcome): Changes {
    var events := changes.events + outcome.events;
    if outcome.kept.Some? then Changes(events, changes.upserts + [outcome.kept.value], changes.deletes)
    else Changes(events, changes.upserts, changes.deletes + {node})
  }

  function SeenChanges(cache: Cache, baselines: Baselines, polled: bool, nodes: seq<Node>, poll: Poll): Changes {
    if nodes == [] then Changes([], [], {})
    else
      var last := nodes[|nodes| - 1];
      Plus(SeenChanges(cache, baselines, polled, nodes[..|nodes| - 1], poll), last.id,
           SeenOutcome(cache, baselines, polled, last, poll))
  }

  function LeavingOutcome(cache: Cache, node: NodeId, poll: Poll): Outcome
    requires node in cache
  {
    OnLeaving(cache[node], Lookup(poll.followUps, node), poll)
  }

  function AllChanges(seen: Changes, cache: Cache, leaving: seq<NodeId>, poll: Poll): Changes
    requires forall i :: 0 <= i < |leaving| ==> leaving[i] in cache
  {
    if leaving == [] then seen
    else
      var last := leaving[|leaving| - 1];
      Plus(AllChanges(seen, cache, leaving[..|leaving| - 1], poll), last, LeavingOutcome(cache, last, poll))
  }

  function SeenIds(nodes: seq<Node>): set<NodeId> {
    set n | n in nodes :: n.id
  }

  function Leaving(cache: Cache, poll: Poll): (r: seq<NodeId>)
    ensures forall i :: 0 <= i < |r| ==> r[i] in cache && r[i] !in SeenIds(poll.nodes)
  {
    var r := Text.Listing(cache.Keys - SeenIds(poll.nodes));
    assert forall i :: 0 <= i < |r| ==> r[i] in r;
    r
  }

  function PollChanges(cache: Cache, baselines: Baselines, polled: bool, poll: Poll): Changes {
    AllChanges(SeenChanges(cache, baselines, polled, poll.nodes, poll), cache, Leaving(cache, poll), poll)
  }

  /** The poll itself. `seen` and `leaving` are worked through one by one. */
  method RunReviewer(cache: Cache, baselines: Baselines, polled: bool, poll: Poll) returns (changes: Changes)
    ensures changes == PollChanges(cache, baselines, polled, poll)
  {
    hide SeenOutcome, LeavingOutcome, Leaving, Plus, SeenChanges, AllChanges;
    changes := Changes([], [], {});
    NoChanges(cache, baselines, polled, poll);
    for i := 0 to |poll.nodes|
      invariant changes == SeenChanges(cache, baselines, polled, poll.nodes[..i], poll)
    {
      SeenChangesStep(cache, baselines, polled, poll, i);
      changes := Plus(changes, poll.nodes[i].id, SeenOutcome(cache, baselines, polled, poll.nodes[i], poll));
    }
    assert poll.nodes[..|poll.nodes|] == poll.nodes;
    var leaving := Leaving(cache, poll);
    ghost var seen := changes;
    NoneLeft(seen, cache, leaving, poll);
    for i := 0 to |leaving|
      invariant changes == AllChanges(seen, cache, leaving[..i], poll)
    {
      AllChangesStep(seen, cache, leaving, poll, i);
      changes := Plus(changes, leaving[i], LeavingOutcome(cache, leaving[i], poll));
    }
    assert leaving[..|leaving|] == leaving;
  }

  lemma NoChanges(cache: Cache, baselines: Baselines, polled: bool, poll: Poll)
    ensures SeenChanges(cache, baselines, polled, poll.nodes[..0], poll) == Changes([], [], {})
  {
  }

  lemma SeenChangesStep(cache: Cache, baselines: Baselines, polled: bool, poll: Poll, i: nat)
    requires i < |poll.nodes|
    ensures SeenChanges(cache, baselines, polled, poll.nodes[..i + 1], poll)
            == Plus(SeenChanges(cache, baselines, polled, poll.nodes[..i], poll), poll.nodes[i].id,
                    SeenOutcome(cache, baselines, polled, poll.nodes[i], poll))
  {
    hide SeenOutcome, Plus;
    assert poll.nodes[..i + 1][..i] == poll.nodes[..i];
  }

  lemma NoneLeft(seen: Changes, cache: Cache, leaving: seq<NodeId>, poll: Poll)
    ensures AllChanges(seen, cache, leaving[..0], poll) == seen
  {
  }

  lemma AllChangesStep(seen: Changes, cache: Cache, leaving: seq<NodeId>, poll: Poll, i: nat)
    requires i < |leaving| && forall j :: 0 <= j < |leaving| ==> leaving[j] in cache
    ensures AllChanges(seen, cache, leaving[..i + 1], poll)
            == Plus(AllChanges(seen, cache, leaving[..i], poll), leaving[i], LeavingOutcome(cache, leaving[i], poll))
  {
    hide LeavingOutcome, Plus;
    assert leaving[..i + 1][..i] == leaving[..i];
  }

  // ---- Runs --------------------------------------------------------------------------------------------

  /** `period` holds the events since the cache was last wiped, `silent` what the first poll since took as given. */
  datatype World = World(
    cache: Cache, polled: bool, baselines: Baselines, emitted: seq<Event>, period: seq<Event>, silent: set<NodeId>)

  datatype Step = Commit(poll: Poll) | Wipe

  const INITIAL := World(map[], false, map[], [], [], {})

  function Upserted(cache: Cache, upserts: seq<Observation>): Cache {
    if upserts == [] then cache
    else Upserted(cache, upserts[..|upserts| - 1])[upserts[|upserts| - 1].node := upserts[|upserts| - 1]]
  }

  function NewlyObserved(events: seq<Event>): set<NodeId> {
    set e | e in events && e.kind == Observed :: e.node
  }

  /** The stored observed event of a pull request is never replaced. */
  function WithBaselines(baselines: Baselines, observed: set<NodeId>, at: nat): Baselines {
    map n | n in baselines.Keys + observed :: if n in baselines then baselines[n] else at
  }

  /** The commit of a poll's changes. */
  function Stored(w: World, changes: Changes, at: nat): World {
    var cache := Upserted(w.cache, changes.upserts) - changes.deletes;
    World(cache, true, WithBaselines(w.baselines, NewlyObserved(changes.events), at),
          w.emitted + changes.events, w.period + changes.events, if w.polled then w.silent else cache.Keys)
  }

  function Next(w: World, step: Step): World {
    match step
    case Wipe => w.(cache := map[], polled := false, period := [], silent := {})
    case Commit(poll) => Stored(w, PollChanges(w.cache, w.baselines, w.polled, poll), poll.at)
  }

  /** The search returns a pull request once. */
  predicate Admissible(step: Step) {
    step.Commit? ==> forall i, j :: 0 <= i < j < |step.poll.nodes| ==> step.poll.nodes[i].id != step.poll.nodes[j].id
  }

  function Exec(steps: seq<Step>): World {
    if steps == [] then INITIAL else Next(Exec(steps[..|steps| - 1]), steps[|steps| - 1])
  }

  predicate IsEntry(e: Event) {
    e.kind == ReviewRequested
  }

  predicate IsExit(e: Event) {
    e.kind.Removed? || e.kind == Merged || e.kind == Closed || e.kind == Unwatched
  }

  predicate IsObserved(e: Event) {
    e.kind == Observed
  }

  function Count(events: seq<Event>, p: Event -> bool): nat {
    if events == [] then 0
    else Count(events[..|events| - 1], p) + (if p(events[|events| - 1]) then 1 else 0)
  }

  /** The events about one pull request, in order. */
  function Of(events: seq<Event>, n: NodeId): seq<Event> {
    if events == [] then []
    else Of(events[..|events| - 1], n) + (if events[|events| - 1].node == n then [events[|events| - 1]] else [])
  }

  lemma {:induction false} CountConcat(a: seq<Event>, b: seq<Event>, p: Event -> bool)
    ensures Count(a + b, p) == Count(a, p) + Count(b, p)
  {
    if b == [] {
      assert a + b == a;
    } else {
      CountConcat(a, b[..|b| - 1], p);
      assert (a + b)[..|a + b| - 1] == a + b[..|b| - 1];
    }
  }

  lemma CountOne(e: Event, p: Event -> bool)
    ensures Count([e], p) == if p(e) then 1 else 0
    ensures Count([], p) == 0
  {
    assert [e][..0] == [];
  }

  lemma {:induction false} OfConcat(a: seq<Event>, b: seq<Event>, n: NodeId)
    ensures Of(a + b, n) == Of(a, n) + Of(b, n)
  {
    hide Of;
    if b == [] {
      assert a + b == a;
      OfNothing(n);
    } else {
      var init, last := b[..|b| - 1], b[|b| - 1];
      OfConcat(a, init, n);
      assert a + b == (a + init) + [last] && b == init + [last];
      OfStep(a + init, last, n);
      OfStep(init, last, n);
    }
  }

  lemma OfNothing(n: NodeId)
    ensures Of([], n) == []
  {
  }

  lemma OfStep(events: seq<Event>, e: Event, n: NodeId)
    ensures Of(events + [e], n) == Of(events, n) + (if e.node == n then [e] else [])
  {
    assert (events + [e])[..|events|] == events;
  }

  lemma {:induction false} OfAll(events: seq<Event>, m: NodeId, n: NodeId)
    requires forall e :: e in events ==> e.node == m
    ensures Of(events, n) == if m == n then events else []
  {
    hide Of;
    if events == [] {
      OfNothing(n);
    } else {
      var init, last := events[..|events| - 1], events[|events| - 1];
      assert last in events && events == init + [last];
      OfAll(init, m, n);
      OfStep(init, last, n);
    }
  }

  /** An outcome concerns no other pull request. */
  predicate Local(o: Outcome, n: NodeId) {
    (forall e :: e in o.events ==> e.node == n) && (o.kept.Some? ==> o.kept.value.node == n)
  }

  lemma SeenIsLocal(cache: Cache, baselines: Baselines, polled: bool, node: Node, poll: Poll)
    requires Keyed(cache)
    ensures Local(SeenOutcome(cache, baselines, polled, node, poll), node.id)
  {
    hide RequestFor;
  }

  lemma LeavingIsLocal(cache: Cache, n: NodeId, poll: Poll)
    requires Keyed(cache) && n in cache
    ensures Local(LeavingOutcome(cache, n, poll), n)
  {
    hide RequestFor;
  }

  predicate Keyed(cache: Cache) {
    forall n :: n in cache ==> cache[n].node == n
  }

  function Applied(cache: Cache, changes: Changes): Cache {
    Upserted(cache, changes.upserts) - changes.deletes
  }

  /** So far the changes say nothing about this pull request. */
  predicate Untouched(cache: Cache, changes: Changes, n: NodeId) {
    Of(changes.events, n) == [] && n !in changes.deletes && Lookup(Applied(cache, changes), n) == Lookup(cache, n)
  }

  /** The changes do to this pull request exactly what the outcome says. */
  predicate Does(cache: Cache, changes: Changes, n: NodeId, o: Outcome) {
    Of(changes.events, n) == o.events && Lookup(Applied(cache, changes), n) == o.kept
  }

  lemma PlusOther(cache: Cache, changes: Changes, m: NodeId, outcome: Outcome, n: NodeId)
    requires m != n && Local(outcome, m)
    ensures var plus := Plus(changes, m, outcome);
            && Of(plus.events, n) == Of(changes.events, n)
            && (n in plus.deletes <==> n in changes.deletes)
            && Lookup(Applied(cache, plus), n) == Lookup(Applied(cache, changes), n)
  {
    hide Of, Upserted;
    OfConcat(changes.events, outcome.events, n);
    OfAll(outcome.events, m, n);
    if outcome.kept.Some? { UpsertedStep(cache, changes.upserts, outcome.kept.value); }
  }

  lemma UpsertedStep(cache: Cache, upserts: seq<Observation>, o: Observation)
    ensures Upserted(cache, upserts + [o]) == Upserted(cache, upserts)[o.node := o]
  {
    assert (upserts + [o])[..|upserts|] == upserts;
  }

  lemma PlusSame(cache: Cache, changes: Changes, n: NodeId, outcome: Outcome)
    requires Untouched(cache, changes, n) && Local(outcome, n)
    ensures Does(cache, Plus(changes, n, outcome), n, outcome)
  {
    hide Of, Upserted;
    OfConcat(changes.events, outcome.events, n);
    OfAll(outcome.events, n, n);
    if outcome.kept.Some? { UpsertedStep(cache, changes.upserts, outcome.kept.value); }
  }

  predicate Distinct(nodes: seq<Node>) {
    forall i, j :: 0 <= i < j < |nodes| ==> nodes[i].id != nodes[j].id
  }

  lemma {:induction false} SeenEffect(cache: Cache, baselines: Baselines, polled: bool, nodes: seq<Node>, poll: Poll,
      n: NodeId)
    requires Keyed(cache) && Distinct(nodes)
    ensures n !in SeenIds(nodes) ==> Untouched(cache, SeenChanges(cache, baselines, polled, nodes, poll), n)
    ensures forall i :: 0 <= i < |nodes| && nodes[i].id == n ==>
      Does(cache, SeenChanges(cache, baselines, polled, nodes, poll), n,
          SeenOutcome(cache, baselines, polled, nodes[i], poll))
  {
    hide SeenOutcome, Local, Plus;
    if nodes == [] {
      assert Upserted(cache, []) - {} == cache;
    } else {
      var init, last := nodes[..|nodes| - 1], nodes[|nodes| - 1];
      var before := SeenChanges(cache, baselines, polled, init, poll);
      SeenEffect(cache, baselines, polled, init, poll, n);
      SeenIsLocal(cache, baselines, polled, last, poll);
      if last.id == n {
        assert n !in SeenIds(init);
        PlusSame(cache, before, n, SeenOutcome(cache, baselines, polled, last, poll));
        assert last in nodes;
      } else {
        PlusOther(cache, before, last.id, SeenOutcome(cache, baselines, polled, last, poll), n);
        assert n in SeenIds(init) ==> n in SeenIds(nodes);
      }
    }
  }

  lemma {:induction false} LeavingEffect(seen: Changes, cache: Cache, leaving: seq<NodeId>, poll: Poll, n: NodeId)
    requires Keyed(cache) && forall i :: 0 <= i < |leaving| ==> leaving[i] in cache
    requires forall i, j :: 0 <= i < j < |leaving| ==> leaving[i] != leaving[j]
    ensures var all := AllChanges(seen, cache, leaving, poll);
            && (n !in leaving ==> Of(all.events, n) == Of(seen.events, n) && (n in all.deletes <==> n in seen.deletes)
                                  && Lookup(Applied(cache, all), n) == Lookup(Applied(cache, seen), n))
            && (n in leaving && Untouched(cache, seen, n) ==> Does(cache, all, n, LeavingOutcome(cache, n, poll)))
  {
    hide LeavingOutcome, Local, Plus, Applied;
    if leaving != [] {
      var init, last := leaving[..|leaving| - 1], leaving[|leaving| - 1];
      LeavingEffect(seen, cache, init, poll, n);
      assert leaving == init + [last];
      LeavingIsLocal(cache, last, poll);
      var outcome := LeavingOutcome(cache, last, poll);
      var before := AllChanges(seen, cache, init, poll);
      if last == n {
        if Untouched(cache, seen, n) { PlusSame(cache, before, n, outcome); }
      } else {
        PlusOther(cache, before, last, outcome, n);
      }
    }
  }

  /** What a poll does to one pull request: seen, it is judged as seen; else, if tracked, as leaving; else nothing. */
  lemma PollOutcome(cache: Cache, baselines: Baselines, polled: bool, poll: Poll, n: NodeId)
    requires Keyed(cache) && Distinct(poll.nodes)
    ensures var changes := PollChanges(cache, baselines, polled, poll);
            && (forall i :: 0 <= i < |poll.nodes| && poll.nodes[i].id == n ==>
                  Does(cache, changes, n, SeenOutcome(cache, baselines, polled, poll.nodes[i], poll)))
            && (n !in SeenIds(poll.nodes) && n in cache ==> Does(cache, changes, n, LeavingOutcome(cache, n, poll)))
            && (n !in SeenIds(poll.nodes) && n !in cache ==> Does(cache, changes, n, Outcome([], None)))
  {
    hide SeenOutcome, LeavingOutcome, Applied, Of, SeenChanges, AllChanges;
    var seen, leaving := SeenChanges(cache, baselines, polled, poll.nodes, poll), Leaving(cache, poll);
    SeenEffect(cache, baselines, polled, poll.nodes, poll, n);
    LeavingDistinct(cache, poll);
    LeavingEffect(seen, cache, leaving, poll, n);
  }

  lemma LeavingDistinct(cache: Cache, poll: Poll)
    ensures var leaving := Leaving(cache, poll);
            && (forall i, j :: 0 <= i < j < |leaving| ==> leaving[i] != leaving[j])
            && (forall n :: n in leaving <==> n in cache && n !in SeenIds(poll.nodes))
  {
    var leaving := Leaving(cache, poll);
    forall i, j | 0 <= i < j < |leaving| ensures leaving[i] != leaving[j] {
      assert Text.Less(leaving[i], leaving[j]);
      Text.LessTotal(leaving[i], leaving[j]);
    }
  }

  // ---- What every run keeps ----------------------------------------------------------------------------

  /**
   * Since the last wipe, each pull request was announced (or taken as given by the first poll) once more than
   * it was seen off, if it is tracked, and as often if it is not.
   */
  predicate Balanced(w: World, n: NodeId) {
    Count(Of(w.period, n), IsEntry) + (if n in w.silent then 1 else 0)
    == Count(Of(w.period, n), IsExit) + (if n in w.cache then 1 else 0)
  }

  /** The first sight of a pull request is announced once, whatever is wiped, and its time is kept. */
  predicate SeenOnce(w: World, n: NodeId) {
    && Count(Of(w.emitted, n), IsObserved) == (if n in w.baselines then 1 else 0)
    && (n in w.cache ==> n in w.baselines && w.cache[n].baselineAt == w.baselines[n])
  }

  ghost predicate Inv(w: World) {
    && Keyed(w.cache)
    && (!w.polled ==> w.cache == map[] && w.period == [] && w.silent == {})
    && (forall n :: Balanced(w, n) && SeenOnce(w, n))
  }

  /** An outcome's events say what it does: an entry or an exit when tracking begins or ends, and no other. */
  predicate Accounts(prior: Option<Observation>, known: Option<nat>, polled: bool, o: Outcome, at: nat) {
    && Count(o.events, IsEntry) == (if polled && prior.None? && o.kept.Some? then 1 else 0)
    && Count(o.events, IsExit) == (if prior.Some? && o.kept.None? then 1 else 0)
    && Count(o.events, IsObserved) == (if prior.None? && known.None? && o.kept.Some? then 1 else 0)
    && (o.kept.Some? ==>
          o.kept.value.baselineAt
          == if prior.Some? then prior.value.baselineAt else if known.Some? then known.value else at)
  }

  lemma CountSubmitted(node: NodeId, review: Option<Review>, previous: Option<Review>)
    ensures var s := Submitted(node, review, previous);
            Count(s, IsEntry) == 0 && Count(s, IsExit) == 0 && Count(s, IsObserved) == 0
  {
    var s := Submitted(node, review, previous);
    if s == [] {
    } else {
      CountOne(s[0], IsEntry);
      CountOne(s[0], IsExit);
      CountOne(s[0], IsObserved);
    }
  }

  lemma CountPlusOne(events: seq<Event>, e: Event)
    ensures Count(events + [e], IsEntry) == Count(events, IsEntry) + (if IsEntry(e) then 1 else 0)
    ensures Count(events + [e], IsExit) == Count(events, IsExit) + (if IsExit(e) then 1 else 0)
    ensures Count(events + [e], IsObserved) == Count(events, IsObserved) + (if IsObserved(e) then 1 else 0)
  {
    assert (events + [e])[..|events|] == events;
  }

  lemma CountNone()
    ensures Count([], IsEntry) == 0 && Count([], IsExit) == 0 && Count([], IsObserved) == 0
  {
  }

  lemma SeenAccounts(prior: Option<Observation>, baseline: Option<nat>, polled: bool, node: Node, poll: Poll)
    ensures Accounts(prior, baseline, polled, OnSeen(prior, baseline, polled, node, poll), poll.at)
  {
    hide RequestFor, Count, Submitted;
    var review := node.status.viewerReview;
    CountNone();
    CountSubmitted(node.id, review, None);
    CountPlusOne([], Event(node.id, Observed));
    assert [] + [Event(node.id, Observed)] == [Event(node.id, Observed)];
    if prior.Some? {
      CountSubmitted(node.id, review, prior.value.viewerReview);
      RemovalAccounts(prior.value, review);
    } else {
      CountPlusOne([], Event(node.id, ReviewRequested));
      CountPlusOne([Event(node.id, Observed)], Event(node.id, ReviewRequested));
      CountPlusOne(Submitted(node.id, review, None), Event(node.id, ReviewRequested));
      assert forall s: seq<Event> :: s + [] == s;
    }
  }

  lemma RemovalAccounts(prior: Observation, review: Option<Review>)
    ensures var s := Removal(prior, review);
            Count(s, IsEntry) == 0 && Count(s, IsExit) == 1 && Count(s, IsObserved) == 0
  {
    hide Count, Submitted;
    var submitted := Submitted(prior.node, review, prior.viewerReview);
    CountSubmitted(prior.node, review, prior.viewerReview);
    CountPlusOne(submitted, Event(prior.node, Removed(submitted != [])));
  }

  lemma LeavingAccounts(prior: Observation, known: Option<nat>, polled: bool, followUp: Option<FollowUp>, poll: Poll)
    ensures Accounts(Some(prior), known, polled, OnLeaving(prior, followUp, poll), poll.at)
  {
    hide RequestFor, Count, Submitted;
    CountNone();
    CountPlusOne([], Event(prior.node, Unwatched));
    if followUp.Some? {
      var review := followUp.value.status.viewerReview;
      var submitted := Submitted(prior.node, review, prior.viewerReview);
      CountSubmitted(prior.node, review, prior.viewerReview);
      RemovalAccounts(prior, review);
      CountPlusOne(submitted, Event(prior.node, Merged));
      CountPlusOne(submitted, Event(prior.node, Closed));
      CountPlusOne(submitted, Event(prior.node, Unwatched));
    }
  }

  /** The outcome of a poll for one pull request accounts for what was known of it before. */
  lemma PollAccounts(w: World, poll: Poll, n: NodeId) returns (o: Outcome)
    requires Keyed(w.cache) && Distinct(poll.nodes)
    ensures Does(w.cache, PollChanges(w.cache, w.baselines, w.polled, poll), n, o)
    ensures Accounts(Lookup(w.cache, n), Lookup(w.baselines, n), w.polled, o, poll.at)
  {
    hide OnSeen, OnLeaving, PollChanges, Does, Accounts;
    PollOutcome(w.cache, w.baselines, w.polled, poll, n);
    if n in SeenIds(poll.nodes) {
      var i :| 0 <= i < |poll.nodes| && poll.nodes[i].id == n;
      o := SeenOutcome(w.cache, w.baselines, w.polled, poll.nodes[i], poll);
      SeenAccounts(Lookup(w.cache, n), Lookup(w.baselines, n), w.polled, poll.nodes[i], poll);
    } else if n in w.cache {
      o := LeavingOutcome(w.cache, n, poll);
      LeavingAccounts(w.cache[n], Lookup(w.baselines, n), w.polled, Lookup(poll.followUps, n), poll);
    } else {
      o := Outcome([], None);
      NothingAccounts(Lookup(w.baselines, n), w.polled, poll.at);
    }
  }

  lemma NothingAccounts(known: Option<nat>, polled: bool, at: nat)
    ensures Accounts(None, known, polled, Outcome([], None), at)
  {
  }

  lemma {:induction false} ObservedCounted(events: seq<Event>, n: NodeId)
    ensures n in NewlyObserved(events) <==> Count(Of(events, n), IsObserved) > 0
  {
    if events != [] {
      var init, last := events[..|events| - 1], events[|events| - 1];
      ObservedCounted(init, n);
      assert events == init + [last];
      assert n in NewlyObserved(events) <==> n in NewlyObserved(init) || (last.kind == Observed && last.node == n);
      assert Of(init, n) + [] == Of(init, n);
      CountPlusOne(Of(init, n), last);
    }
  }

  lemma CommitKeeps(w: World, poll: Poll, n: NodeId)
    requires Inv(w) && Distinct(poll.nodes)
    ensures var next := Next(w, Commit(poll));
            Balanced(next, n) && SeenOnce(next, n) && (n in next.cache ==> next.cache[n].node == n)
  {
    hide PollChanges, Upserted, Count, Of, NewlyObserved;
    var changes := PollChanges(w.cache, w.baselines, w.polled, poll);
    var o := PollAccounts(w, poll, n);
    assert Balanced(w, n) && SeenOnce(w, n);
    OfConcat(w.emitted, changes.events, n);
    OfConcat(w.period, changes.events, n);
    CountConcat(Of(w.emitted, n), o.events, IsObserved);
    CountConcat(Of(w.period, n), o.events, IsEntry);
    CountConcat(Of(w.period, n), o.events, IsExit);
    ObservedCounted(changes.events, n);
    NothingYet(n);
    KeptIsKeyed(w, poll, n, o);
  }

  lemma NothingYet(n: NodeId)
    ensures Of([], n) == [] && Count([], IsEntry) == 0 && Count([], IsExit) == 0 && Count([], IsObserved) == 0
  {
  }

  lemma KeptIsKeyed(w: World, poll: Poll, n: NodeId, o: Outcome)
    requires Keyed(w.cache) && Distinct(poll.nodes)
    requires Does(w.cache, PollChanges(w.cache, w.baselines, w.polled, poll), n, o)
    ensures o.kept.Some? ==> o.kept.value.node == n
  {
    hide PollChanges, Applied, Of, SeenOutcome, LeavingOutcome;
    PollOutcome(w.cache, w.baselines, w.polled, poll, n);
    if n in SeenIds(poll.nodes) {
      var i :| 0 <= i < |poll.nodes| && poll.nodes[i].id == n;
      SeenIsLocal(w.cache, w.baselines, w.polled, poll.nodes[i], poll);
    } else if n in w.cache {
      LeavingIsLocal(w.cache, n, poll);
    }
  }

  lemma StepKeeps(w: World, step: Step)
    requires Inv(w) && Admissible(step)
    ensures Inv(Next(w, step))
  {
    hide PollChanges, Upserted, Count, Of, Balanced, SeenOnce;
    match step
    case Wipe =>
      forall n ensures Balanced(Next(w, step), n) && SeenOnce(Next(w, step), n) {
        WipeKeeps(w, n);
      }
    case Commit(poll) =>
      var next := Next(w, step);
      forall n ensures Balanced(next, n) && SeenOnce(next, n) && (n in next.cache ==> next.cache[n].node == n) {
        CommitKeeps(w, poll, n);
      }
  }

  lemma WipeKeeps(w: World, n: NodeId)
    requires Inv(w)
    ensures Balanced(Next(w, Wipe), n) && SeenOnce(Next(w, Wipe), n)
  {
    hide Count, Of;
    assert Balanced(w, n) && SeenOnce(w, n);
    NothingYet(n);
  }

  lemma {:induction false} RunKeeps(steps: seq<Step>)
    requires forall i :: 0 <= i < |steps| ==> Admissible(steps[i])
    ensures Inv(Exec(steps))
  {
    hide Inv, Next, Admissible;
    if steps == [] {
      InitialInv();
    } else {
      RunKeeps(steps[..|steps| - 1]);
      StepKeeps(Exec(steps[..|steps| - 1]), steps[|steps| - 1]);
    }
  }

  lemma InitialInv()
    ensures Inv(INITIAL)
  {
    hide Count, Of;
    forall n: NodeId ensures Balanced(INITIAL, n) && SeenOnce(INITIAL, n) {
      NothingYet(n);
    }
  }

  /** Requests announced and requests seen off balance, for every pull request after every run. */
  lemma RequestsBalance(steps: seq<Step>, n: NodeId)
    requires forall i :: 0 <= i < |steps| ==> Admissible(steps[i])
    ensures Balanced(Exec(steps), n)
  {
    hide Exec, Balanced, SeenOnce, Admissible;
    RunKeeps(steps);
  }

  /** A pull request is announced as observed at most once in all, and later polls compare with the time of that. */
  lemma ObservedOnce(steps: seq<Step>, n: NodeId)
    requires forall i :: 0 <= i < |steps| ==> Admissible(steps[i])
    ensures SeenOnce(Exec(steps), n) && Count(Of(Exec(steps).emitted, n), IsObserved) <= 1
  {
    hide Exec, Balanced, Admissible, Count, Of;
    RunKeeps(steps);
    assert SeenOnce(Exec(steps), n);
  }

  /** A baseline, once stored, never moves. */
  lemma BaselineNeverMoves(w: World, step: Step, n: NodeId)
    requires n in w.baselines
    ensures n in Next(w, step).baselines && Next(w, step).baselines[n] == w.baselines[n]
  {
    hide PollChanges, Upserted;
  }

  /** One of these events is a removal only after the review it is put down to, and then there is nothing else. */
  ghost predicate WellPutDown(events: seq<Event>, n: NodeId) {
    && (Event(n, Removed(true)) in events ==>
          exists review :: events == [Event(n, ReviewSubmitted(review)), Event(n, Removed(true))])
    && (Event(n, Removed(false)) in events ==> events == [Event(n, Removed(false))])
  }

  lemma RemovalWellPutDown(prior: Observation, review: Option<Review>)
    ensures WellPutDown(Removal(prior, review), prior.node)
  {
    var submitted := Submitted(prior.node, review, prior.viewerReview);
    if submitted == [] {
      assert Removal(prior, review) == [Event(prior.node, Removed(false))];
    } else {
      assert Removal(prior, review) == [Event(prior.node, ReviewSubmitted(review.value.id)),
          Event(prior.node, Removed(true))];
    }
  }

  lemma SeenWellPutDown(prior: Option<Observation>, baseline: Option<nat>, polled: bool, node: Node, poll: Poll)
    requires prior.Some? ==> prior.value.node == node.id
    ensures WellPutDown(OnSeen(prior, baseline, polled, node, poll).events, node.id)
  {
    hide RequestFor, Removal;
    if prior.Some? { RemovalWellPutDown(prior.value, node.status.viewerReview); }
  }

  lemma LeavingWellPutDown(prior: Observation, followUp: Option<FollowUp>, poll: Poll)
    ensures WellPutDown(OnLeaving(prior, followUp, poll).events, prior.node)
  {
    hide RequestFor, Removal;
    if followUp.Some? { RemovalWellPutDown(prior, followUp.value.status.viewerReview); }
  }

  /** A removal is put down to a review exactly when the same poll reports that review, just before it. */
  lemma ReviewedMeansReported(cache: Cache, baselines: Baselines, polled: bool, poll: Poll, n: NodeId)
    requires Keyed(cache) && Distinct(poll.nodes)
    ensures WellPutDown(Of(PollChanges(cache, baselines, polled, poll).events, n), n)
  {
    hide PollChanges, Applied, Of, OnSeen, OnLeaving, WellPutDown;
    PollOutcome(cache, baselines, polled, poll, n);
    if n in SeenIds(poll.nodes) {
      var i :| 0 <= i < |poll.nodes| && poll.nodes[i].id == n;
      SeenWellPutDown(Lookup(cache, n), Lookup(baselines, n), polled, poll.nodes[i], poll);
    } else if n in cache {
      LeavingWellPutDown(cache[n], Lookup(poll.followUps, n), poll);
    } else {
      NothingPutDown(n);
    }
  }

  lemma NothingPutDown(n: NodeId)
    ensures WellPutDown([], n)
  {
  }
}
