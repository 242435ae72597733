/**
 * The author side of the GitHub pull request watch: what one poll concludes from the provider's answers,
 * and the fence that lets its conclusions into the cache and the event log.
 */
module PrWatch {
  import opened Options
  import opened Rfc3339
  import opened Readiness
  import Text

  type NodeId = string

  datatype Role = Author | Reviewer
  datatype Kind = Observed | ReadyToMerge | ReadinessLost | MergeConflict | OtherEvent

  /** The primary key of an event: its type, the pull request, and what tells repetitions apart. */
  datatype Discriminator = OfRole(role: Role) | OfHead(sha: string, at: nat) | OfText(text: string)
  datatype Key = Key(kind: Kind, node: NodeId, discriminator: Discriminator)

  datatype Event = Event(key: Key, role: Role, at: nat, ready: Option<bool>, mergeable: Mergeable)

  /** What the watch remembers of a pull request between polls; None where the source has an empty string. */
  datatype LastKnown = LastKnown(ready: Option<bool>, mergeable: Option<Mergeable>)

  /** `scope` records the scope hash the observation was produced under. */
  datatype Observation = Observation(
    node: NodeId, headSha: string, facts: Facts, lastKnown: LastKnown, missingPolls: nat, scope: string)

  type Cache = map<NodeId, Observation>

  const NOTHING_KNOWN := LastKnown(None, None)
  const MAX_MISSING_POLLS: nat := 6

  // ---- The provider's answers ---------------------------------------------------------------------

  datatype Node = Node(id: NodeId, headSha: string, isOpen: bool, isDraft: bool, reviewDecision: Decision)
  datatype MergeInfo = MergeInfo(
    headSha: string, reviewDecision: Decision, mergeable: Mergeable, status: MergeStatus, checks: ChecksState)
  datatype Detail = Detail(reviews: Option<seq<Review>>, threads: Option<seq<Thread>>)
  datatype Seen = Seen(node: Node, merge: Option<MergeInfo>, detail: Option<Detail>)
  datatype FollowUp = Unreachable | Merged | Closed | Archived | StillOpen

  /** `news` are the events about a pull request's feedback, checks and lifecycle. */
  datatype AuthorAnswers = AuthorAnswers(
    seen: seq<Seen>, followUps: map<NodeId, FollowUp>, details: map<NodeId, Detail>, news: map<NodeId, seq<Event>>)

  /** `earlier` and `later` are the events of a role that comes before the author's, or after it. */
  datatype Answers = Answers(earlier: seq<Event>, author: Option<AuthorAnswers>, later: seq<Event>)

  datatype Changes = Changes(events: seq<Event>, upserts: seq<Observation>, deletes: seq<NodeId>)

  // ---- The event log ------------------------------------------------------------------------------

  predicate Recorded(log: seq<Event>, key: Key) {
    exists i :: 0 <= i < |log| && log[i].key == key
  }

  predicate StoredObserved(log: seq<Event>, node: NodeId) {
    Recorded(log, Key(Observed, node, OfRole(Author)))
  }

  function KindText(kind: Kind): string {
    match kind
    case Observed => "github.pull_request.observed"
    case ReadyToMerge => "github.pull_request.ready_to_merge"
    case ReadinessLost => "github.pull_request.readiness_lost"
    case MergeConflict => "github.pull_request.merge_conflict"
    case OtherEvent => "github.pull_request.other"
  }

  function IdText(key: Key): string {
    KindText(key.kind) + ":" + key.node + ":" +
    match key.discriminator
    case OfRole(Author) => "author"
    case OfRole(Reviewer) => "reviewer"
    case OfHead(sha, at) => sha + ":" + Format(at)
    case OfText(text) => text
  }

  predicate Relevant(e: Event, node: NodeId) {
    e.key.kind != OtherEvent && e.key.node == node && e.role == Author
  }

  function History(log: seq<Event>, node: NodeId): (r: seq<Event>)
    ensures forall i :: 0 <= i < |r| ==> Relevant(r[i], node) && r[i] in log
  {
    if log == [] then []
    else
      var init := History(log[..|log| - 1], node);
      if Relevant(log[|log| - 1], node) then init + [log[|log| - 1]] else init
  }

  /** ORDER BY timestamp, id: both are text. */
  predicate SortsBefore(a: Event, b: Event) {
    Before(a.at, b.at) || (Format(a.at) == Format(b.at) && Text.Less(IdText(a.key), IdText(b.key)))
  }

  predicate InOrder(s: seq<Event>) {
    forall i, j :: 0 <= i < j < |s| ==> !SortsBefore(s[j], s[i])
  }

  lemma SortsBeforeTransitive(a: Event, b: Event, c: Event)
    requires !SortsBefore(b, a) && SortsBefore(c, a)
    ensures SortsBefore(c, b)
  {
    Text.LessTotal(Format(a.at), Format(b.at));
    Text.LessTotal(IdText(a.key), IdText(b.key));
    if Before(a.at, b.at) && Before(c.at, a.at) { Text.LessTransitive(Format(c.at), Format(a.at), Format(b.at)); }
    if Format(a.at) == Format(b.at) == Format(c.at) && IdText(a.key) != IdText(b.key) {
      Text.LessTransitive(IdText(c.key), IdText(a.key), IdText(b.key));
    }
  }

  function Insert(x: Event, s: seq<Event>): (r: seq<Event>)
    ensures multiset(r) == multiset(s) + multiset{x}
  {
    if s == [] then [x]
    else
      var last := s[|s| - 1];
      assert s == s[..|s| - 1] + [last];
      if SortsBefore(x, last) then Insert(x, s[..|s| - 1]) + [last] else s + [x]
  }

  lemma {:induction false} InsertInOrder(x: Event, s: seq<Event>)
    requires InOrder(s)
    ensures InOrder(Insert(x, s))
  {
    hide SortsBefore;
    if s != [] {
      var last := s[|s| - 1];
      var init := s[..|s| - 1];
      if SortsBefore(x, last) {
        InsertInOrder(x, init);
        var r := Insert(x, init);
        forall i | 0 <= i < |r| ensures !SortsBefore(last, r[i]) {
          assert r[i] in multiset(r);
          if r[i] == x {
            AsymmetricOrder(x, last);
          } else {
            assert r[i] in init;
          }
        }
      } else {
        forall i | 0 <= i < |s| ensures !SortsBefore(x, s[i]) {
          if i < |s| - 1 && SortsBefore(x, s[i]) { SortsBeforeTransitive(s[i], last, x); }
        }
      }
    }
  }

  lemma AsymmetricOrder(a: Event, b: Event)
    requires SortsBefore(a, b)
    ensures !SortsBefore(b, a)
  {
    Text.LessTotal(Format(a.at), Format(b.at));
    Text.LessTotal(IdText(a.key), IdText(b.key));
  }

  function SortedHistory(h: seq<Event>): (r: seq<Event>)
    ensures multiset(r) == multiset(h) && InOrder(r)
  {
    if h == [] then []
    else
      assert h == h[..|h| - 1] + [h[|h| - 1]];
      InsertInOrder(h[|h| - 1], SortedHistory(h[..|h| - 1]));
      Insert(h[|h| - 1], SortedHistory(h[..|h| - 1]))
  }

  function Absorb(known: LastKnown, e: Event): LastKnown {
    match e.key.kind
    case Observed =>
      LastKnown(if e.ready.Some? then e.ready else known.ready,
                if e.mergeable != MergeableUnknown then Some(e.mergeable) else known.mergeable)
    case MergeConflict => known.(mergeable := Some(MergeableConflicting))
    case ReadyToMerge => known.(ready := Some(true))
    case ReadinessLost => known.(ready := Some(false))
    case OtherEvent => known
  }

  function Absorbed(s: seq<Event>): LastKnown {
    if s == [] then NOTHING_KNOWN else Absorb(Absorbed(s[..|s| - 1]), s[|s| - 1])
  }

  /** What the stored events say about a pull request, read in the order the query returns them. */
  function Replay(log: seq<Event>, node: NodeId): LastKnown {
    Absorbed(SortedHistory(History(log, node)))
  }

  // ---- One observation ----------------------------------------------------------------------------

  function ReadyOption(verdict: Ready): Option<bool> {
    match verdict
    case ReadyTrue => Some(true)
    case ReadyFalse => Some(false)
    case ReadyUnknown => None
  }

  function CurrentFacts(previous: Option<Observation>, s: Seen): Facts {
    var merge := if s.merge.Some? && s.merge.value.headSha != s.node.headSha then None else s.merge;
    var carried := if previous.Some? then previous.value.facts
                   else Facts(s.node.isOpen, s.node.isDraft, s.node.reviewDecision, None, ChecksUnknown, None,
                              MergeableUnknown, MergeUnknown);
    var base := if merge.Some?
                then carried.(reviewDecision := merge.value.reviewDecision, checksState := merge.value.checks,
                              mergeable := merge.value.mergeable, mergeStateStatus := merge.value.status)
                else carried;
    var detailed := if s.detail.Some?
                    then base.(reviews := s.detail.value.reviews, threads := s.detail.value.threads)
                    else base;
    detailed.(isOpen := s.node.isOpen, isDraft := s.node.isDraft)
  }

  function Learned(known: LastKnown, facts: Facts): LastKnown {
    var verdict := Verdict(facts);
    LastKnown(if verdict != ReadyUnknown then ReadyOption(verdict) else known.ready,
              if facts.mergeable != MergeableUnknown then Some(facts.mergeable) else known.mergeable)
  }

  function StateEvent(kind: Kind, node: NodeId, discriminator: Discriminator, at: nat, facts: Facts): Event {
    Event(Key(kind, node, discriminator), Author, at, ReadyOption(Verdict(facts)), facts.mergeable)
  }

  /** The events that report a change of readiness or a new conflict. */
  function TransitionEvents(known: LastKnown, s: Seen, at: nat, facts: Facts): seq<Event> {
    var verdict := Verdict(facts);
    (if verdict == ReadyTrue && known.ready != Some(true)
     then [StateEvent(ReadyToMerge, s.node.id, OfHead(s.node.headSha, at), at, facts)]
     else if verdict == ReadyFalse && known.ready == Some(true)
     then [StateEvent(ReadinessLost, s.node.id, OfHead(s.node.headSha, at), at, facts)]
     else [])
    + (if facts.mergeable == MergeableConflicting && known.mergeable != Some(MergeableConflicting)
       then [StateEvent(MergeConflict, s.node.id, OfHead(s.node.headSha, at), at, facts)]
       else [])
  }

  function Known(previous: Option<Observation>, log: seq<Event>, node: NodeId): LastKnown {
    if previous.Some? then previous.value.lastKnown
    else if StoredObserved(log, node) then Replay(log, node)
    else NOTHING_KNOWN
  }

  function ObserveEvents(previous: Option<Observation>, log: seq<Event>, s: Seen, at: nat): seq<Event> {
    var facts := CurrentFacts(previous, s);
    if previous.None? && !StoredObserved(log, s.node.id)
    then [StateEvent(Observed, s.node.id, OfRole(Author), at, facts)]
    else TransitionEvents(Known(previous, log, s.node.id), s, at, facts)
  }

  function ObserveResult(previous: Option<Observation>, log: seq<Event>, s: Seen, scope: string): Observation {
    var facts := CurrentFacts(previous, s);
    Observation(s.node.id, s.node.headSha, facts, Learned(Known(previous, log, s.node.id), facts), 0, scope)
  }

  function Previous(cache: Cache, node: NodeId): Option<Observation> {
    if node in cache then Some(cache[node]) else None
  }

  /** A pull request that left the search is kept until it has been missing too often; None when it goes. */
  function Leave(observation: Observation, detail: Option<Detail>, followUp: FollowUp): Option<Observation> {
    var detailed := if detail.Some?
                    then
                      var facts := observation.facts.(reviews := detail.value.reviews, threads := detail.value.threads);
                      observation.(facts := facts)
                    else observation;
    var missed := detailed.(missingPolls := detailed.missingPolls + 1);
    match followUp
    case Merged | Closed | Archived => None
    case Unreachable | StillOpen => if missed.missingPolls >= MAX_MISSING_POLLS then None else Some(missed)
  }

  function SeenIds(seen: seq<Seen>): set<NodeId> {
    set s | s in seen :: s.node.id
  }

  function LeavingIds(cache: Cache, answers: AuthorAnswers): (r: seq<NodeId>)
    ensures forall i :: 0 <= i < |r| ==> r[i] in cache && r[i] !in SeenIds(answers.seen)
  {
    var r := Text.Listing(cache.Keys - SeenIds(answers.seen));
    assert forall i :: 0 <= i < |r| ==> r[i] in r;
    r
  }

  function FollowUpOf(answers: AuthorAnswers, node: NodeId): FollowUp {
    if node in answers.followUps then answers.followUps[node] else Unreachable
  }

  function DetailOf(answers: AuthorAnswers, node: NodeId): Option<Detail> {
    if node in answers.details then Some(answers.details[node]) else None
  }

  function NewsOf(news: map<NodeId, seq<Event>>, node: NodeId): seq<Event> {
    if node in news then news[node] else []
  }

  /** A first sight comes before the other news of a pull request, a change of readiness or a conflict after it. */
  function ReportedEvents(cache: Cache, log: seq<Event>, s: Seen, at: nat, news: map<NodeId, seq<Event>>): seq<Event> {
    var previous, more := Previous(cache, s.node.id), NewsOf(news, s.node.id);
    var events := ObserveEvents(previous, log, s, at);
    if previous.None? && !StoredObserved(log, s.node.id) then events + more else more + events
  }

  function SeenEvents(cache: Cache, log: seq<Event>, seen: seq<Seen>, at: nat,
      news: map<NodeId, seq<Event>>): seq<Event> {
    if seen == [] then []
    else
      var last := seen[|seen| - 1];
      SeenEvents(cache, log, seen[..|seen| - 1], at, news) + ReportedEvents(cache, log, last, at, news)
  }

  function LeavingEvents(news: map<NodeId, seq<Event>>, leaving: seq<NodeId>): seq<Event> {
    if leaving == [] then []
    else LeavingEvents(news, leaving[..|leaving| - 1]) + NewsOf(news, leaving[|leaving| - 1])
  }

  function SeenUpserts(cache: Cache, log: seq<Event>, seen: seq<Seen>, scope: string): seq<Observation> {
    if seen == [] then []
    else
      var last := seen[|seen| - 1];
      SeenUpserts(cache, log, seen[..|seen| - 1], scope) +
        [ObserveResult(Previous(cache, last.node.id), log, last, scope)]
  }

  function Left(cache: Cache, answers: AuthorAnswers, node: NodeId): Option<Observation>
    requires node in cache
  {
    Leave(cache[node], DetailOf(answers, node), FollowUpOf(answers, node))
  }

  function LeavingUpserts(cache: Cache, answers: AuthorAnswers, leaving: seq<NodeId>): seq<Observation>
    requires forall i :: 0 <= i < |leaving| ==> leaving[i] in cache
  {
    if leaving == [] then []
    else
      var left := Left(cache, answers, leaving[|leaving| - 1]);
      LeavingUpserts(cache, answers, leaving[..|leaving| - 1]) + if left.Some? then [left.value] else []
  }

  function LeavingDeletes(cache: Cache, answers: AuthorAnswers, leaving: seq<NodeId>): seq<NodeId>
    requires forall i :: 0 <= i < |leaving| ==> leaving[i] in cache
  {
    if leaving == [] then []
    else
      var left := Left(cache, answers, leaving[|leaving| - 1]);
      LeavingDeletes(cache, answers, leaving[..|leaving| - 1]) + if left.None? then [leaving[|leaving| - 1]] else []
  }

  function PollChanges(cache: Cache, log: seq<Event>, answers: Answers, at: nat, scope: string): Changes {
    if answers.author.None? then Changes(answers.earlier + answers.later, [], [])
    else
      var author := answers.author.value;
      var leaving := LeavingIds(cache, author);
      var events := SeenEvents(cache, log, author.seen, at, author.news) + LeavingEvents(author.news, leaving);
      Changes(answers.earlier + events + answers.later,
              SeenUpserts(cache, log, author.seen, scope) + LeavingUpserts(cache, author, leaving),
              LeavingDeletes(cache, author, leaving))
  }

  // ---- Committing ---------------------------------------------------------------------------------

  /** INSERT ... ON CONFLICT DO NOTHING for each event in turn. */
  function Recording(log: seq<Event>, events: seq<Event>): seq<Event> {
    if events == [] then log
    else
      var init := Recording(log, events[..|events| - 1]);
      if Recorded(init, events[|events| - 1].key) then init else init + [events[|events| - 1]]
  }

  function Upserted(cache: Cache, upserts: seq<Observation>): Cache {
    if upserts == [] then cache
    else Upserted(cache, upserts[..|upserts| - 1])[upserts[|upserts| - 1].node := upserts[|upserts| - 1]]
  }

  function Committed(cache: Cache, changes: Changes): Cache {
    Upserted(cache, changes.upserts) - set n | n in changes.deletes
  }
}
