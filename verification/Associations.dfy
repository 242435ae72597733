/** Scoring whether two captured events belong together. */
module Associations {
  import opened Options
  import opened Rfc3339
  import Text

  /** What is extracted from one event's payload, summary and project. */
  datatype Signals = Signals(
    urls: set<string>, issueRefs: set<string>, commits: set<string>, repositories: set<string>,
    branches: set<string>, titleTokens: set<string>, project: string)

  datatype Event = Event(id: string, source: string, timestamp: int, signals: Signals)

  /** A matched signal; its text and its reason are written from it. */
  datatype Signal =
    | Url(value: string)
    | RepositoryIssue(value: string)
    | Commit(value: string)
    | RepositoryBranch(repository: string, branch: string)
    | TitleTokens(overlap: real, shared: seq<string>)
    | Project(value: string)
    | Within15Minutes
    | Within2Hours

  datatype Confidence = High | Medium

  /** The suggestion id and the pattern key are functions of `eventIds`, the reasons of `matched`. */
  datatype Candidate = Candidate(
    relatedEventId: string, eventIds: seq<string>, sources: seq<string>,
    score: nat, confidence: Confidence, matched: seq<Signal>, timeDistance: int)

  const MINIMUM_SCORE := 60
  const MAX_SCORE := 100
  const MAX_DURATION: int := 0x7FFF_FFFF_FFFF_FFFF
  const MIN_DURATION: int := -0x8000_0000_0000_0000

  // ---- Specification -----------------------------------------------------------------------------------

  function FirstCommon(left: set<string>, right: set<string>): string {
    if left * right == {} then "" else Text.Least(left * right)
  }

  /** The shorter of two commits of which one begins with the other. */
  function CommitMatches(left: set<string>, right: set<string>): set<string> {
    set x, y | x in left && y in right && (y <= x || x <= y) :: if y <= x then y else x
  }

  function FirstMatchingCommit(left: set<string>, right: set<string>): string {
    var matches := CommitMatches(left, right);
    if matches == {} then "" else Text.Least(matches)
  }

  /** The tokens both have, as a fraction of those either has; None below the thresholds. */
  function TokenOverlap(left: set<string>, right: set<string>): Option<(real, seq<string>)> {
    if |left| < 3 || |right| < 3 || |left * right| < 2 then None
    else
      var overlap := |left * right| as real / |left + right| as real;
      if overlap < 0.50 then None else Some((overlap, Text.Listing(left * right)))
  }

  /** Differences of times saturate at 64 bits. */
  function Sub(a: int, b: int): int {
    if a - b > MAX_DURATION then MAX_DURATION else if a - b < MIN_DURATION then MIN_DURATION else a - b
  }

  /** Negating the least 64-bit value gives it back. */
  function AbsoluteDuration(d: int): int {
    if d >= 0 || d == MIN_DURATION then d else -d
  }

  function Named(value: string, signal: Signal): seq<Signal> {
    if value == "" then [] else [signal]
  }

  function UrlSignal(l: Signals, r: Signals): seq<Signal> {
    var v := FirstCommon(l.urls, r.urls);
    Named(v, Url(v))
  }

  function IssueSignal(l: Signals, r: Signals): seq<Signal> {
    var v := FirstCommon(l.issueRefs, r.issueRefs);
    Named(v, RepositoryIssue(v))
  }

  function CommitSignal(l: Signals, r: Signals): seq<Signal> {
    var v := FirstMatchingCommit(l.commits, r.commits);
    Named(v, Commit(v))
  }

  function BranchSignal(l: Signals, r: Signals): seq<Signal> {
    var repository, branch := FirstCommon(l.repositories, r.repositories), FirstCommon(l.branches, r.branches);
    if repository == "" then [] else Named(branch, RepositoryBranch(repository, branch))
  }

  function TokenSignal(l: Signals, r: Signals): seq<Signal> {
    match TokenOverlap(l.titleTokens, r.titleTokens)
    case None => []
    case Some(found) => [TitleTokens(found.0, found.1)]
  }

  function ProjectSignal(l: Signals, r: Signals): seq<Signal> {
    if l.project == r.project then Named(l.project, Project(l.project)) else []
  }

  function TimeSignal(distance: int): seq<Signal> {
    if distance <= 15 * MINUTE then [Within15Minutes] else if distance <= 2 * HOUR then [Within2Hours] else []
  }

  function Content(l: Signals, r: Signals): seq<Signal> {
    UrlSignal(l, r) + IssueSignal(l, r) + CommitSignal(l, r) + BranchSignal(l, r) + TokenSignal(l, r) +
      ProjectSignal(l, r)
  }

  function Matched(l: Event, r: Event): seq<Signal> {
    var content := Content(l.signals, r.signals);
    if content == [] then [] else content + TimeSignal(Distance(l, r))
  }

  function Distance(l: Event, r: Event): int {
    AbsoluteDuration(Sub(l.timestamp, r.timestamp))
  }

  function Points(signal: Signal): nat {
    match signal
    case Url(_) => 100
    case RepositoryIssue(_) => 90
    case Commit(_) => 85
    case RepositoryBranch(_, _) => 65
    case TitleTokens(overlap, _) => if overlap >= 0.80 then 50 else if overlap >= 0.60 then 40 else 30
    case Project(_) => 20
    case Within15Minutes => 10
    case Within2Hours => 5
  }

  function Total(matched: seq<Signal>): nat {
    if matched == [] then 0 else Total(matched[..|matched| - 1]) + Points(matched[|matched| - 1])
  }

  function Capped(total: nat): nat {
    if total > MAX_SCORE then MAX_SCORE else total
  }

  function EventIds(l: Event, r: Event): seq<string> {
    if Text.Less(r.id, l.id) then [r.id, l.id] else [l.id, r.id]
  }

  function Sources(l: Event, r: Event): seq<string> {
    var byId := map[l.id := l.source][r.id := r.source];
    [byId[EventIds(l, r)[0]], byId[EventIds(l, r)[1]]]
  }

  /** Events of different sources whose matched signals are worth the minimum. */
  predicate Accepted(l: Event, r: Event) {
    l.source != r.source && Total(Matched(l, r)) >= MINIMUM_SCORE
  }

  function Suggested(l: Event, r: Event): Option<Candidate> {
    if !Accepted(l, r) then None
    else
      var score := Capped(Total(Matched(l, r)));
      var confidence := if score >= 80 then High else Medium;
      Some(Candidate(r.id, EventIds(l, r), Sources(l, r), score, confidence, Matched(l, r), Distance(l, r)))
  }

  // ---- The operations ----------------------------------------------------------------------------------

  method FirstCommonValue(left: set<string>, right: set<string>) returns (value: string)
    ensures value == FirstCommon(left, right)
    ensures IsLeast(left * right, value)
  {
    LeastSpelledOut(left * right);
    var common: seq<string> := [];
    var rest := left;
    while rest != {}
      invariant rest <= left && Elements(common) == (left - rest) * right
      decreases |rest|
    {
      var v :| v in rest;
      if v in right {
        AddElement(common, v);
        common := common + [v];
      }
      rest := rest - {v};
    }
    value := FirstSorted(common, left * right);
  }

  method MatchingCommit(left: set<string>, right: set<string>) returns (value: string)
    ensures value == FirstMatchingCommit(left, right)
    ensures IsLeast(CommitMatches(left, right), value)
  {
    hide CommitMatches;
    LeastSpelledOut(CommitMatches(left, right));
    var matches: seq<string> := [];
    var rest := left;
    NoCommitMatches(right);
    assert left - rest == {};
    while rest != {}
      invariant rest <= left && Elements(matches) == CommitMatches(left - rest, right)
      decreases |rest|
    {
      var x :| x in rest;
      ghost var done := left - rest;
      matches := MatchesWith(x, right, matches);
      CommitMatchesUnion(done, {x}, right);
      rest := rest - {x};
      assert left - rest == done + {x};
    }
    assert left - rest == left;
    value := FirstSorted(matches, CommitMatches(left, right));
  }

  /** The inner loop: the matches of one commit are appended. */
  method MatchesWith(x: string, right: set<string>, matches: seq<string>) returns (more: seq<string>)
    ensures Elements(more) == Elements(matches) + CommitMatches({x}, right)
  {
    hide CommitMatches, Elements;
    more := matches;
    var rest := right;
    NoCommitMatches({x});
    assert right - rest == {};
    while rest != {}
      invariant rest <= right && Elements(more) == Elements(matches) + CommitMatches({x}, right - rest)
      decreases |rest|
    {
      var y :| y in rest;
      ghost var tried := right - rest;
      AddMatch(x, y, tried, more, matches);
      if y <= x { more := more + [y]; } else if x <= y { more := more + [x]; }
      rest := rest - {y};
      assert right - rest == tried + {y};
    }
    assert right - rest == right;
  }

  /** "" for nothing, and else the one that sorts first. */
  predicate IsLeast(values: set<string>, value: string) {
    if values == {} then value == ""
    else value in values && forall other :: other in values ==> other == value || Text.Less(value, other)
  }

  lemma LeastSpelledOut(values: set<string>)
    ensures IsLeast(values, if values == {} then "" else Text.Least(values))
  {
    if values != {} {
      forall other | other in values ensures other == Text.Least(values) || Text.Less(Text.Least(values), other) {
        Text.LessTotal(other, Text.Least(values));
      }
    }
  }

  lemma AddMatch(x: string, y: string, tried: set<string>, more: seq<string>, matches: seq<string>)
    requires Elements(more) == Elements(matches) + CommitMatches({x}, tried)
    ensures Elements(if y <= x then more + [y] else if x <= y then more + [x] else more)
            == Elements(matches) + CommitMatches({x}, tried + {y})
  {
    hide CommitMatches, Elements;
    CommitMatchesStep(x, tried, y);
    AddElement(more, y);
    AddElement(more, x);
  }

  function Elements(values: seq<string>): set<string> {
    set v | v in values
  }

  lemma AddElement(values: seq<string>, value: string)
    ensures Elements(values + [value]) == Elements(values) + {value}
  {
  }

  /** What sorting the values and taking the first gives, "" when there is none. */
  method FirstSorted(values: seq<string>, ghost those: set<string>) returns (value: string)
    requires Elements(values) == those
    ensures value == if those == {} then "" else Text.Least(those)
  {
    if |values| == 0 { return ""; }
    assert values[0] in those;
    var sorted := Text.Listing(Elements(values));
    value := sorted[0];
  }

  method AssociationTokenOverlap(left: set<string>, right: set<string>) returns (found: Option<(real, seq<string>)>)
    ensures found == TokenOverlap(left, right)
  {
    if |left| < 3 || |right| < 3 { return None; }
    var shared, union := SharedAndUnion(left, right);
    if |shared| < 2 { return None; }
    SubsetSize(shared, union);
    var overlap := |shared| as real / |union| as real;
    if overlap < 0.50 { return None; }
    found := Some((overlap, Text.Listing(shared)));
  }

  method SharedAndUnion(left: set<string>, right: set<string>) returns (shared: set<string>, union: set<string>)
    ensures shared == left * right && union == left + right
  {
    shared, union := {}, {};
    var rest := left;
    while rest != {}
      invariant rest <= left && union == left - rest && shared == (left - rest) * right
      decreases |rest|
    {
      var token :| token in rest;
      union := union + {token};
      if token in right { shared := shared + {token}; }
      rest := rest - {token};
    }
    rest := right;
    while rest != {}
      invariant rest <= right && union == left + (right - rest)
      decreases |rest|
    {
      var token :| token in rest;
      union := union + {token};
      rest := rest - {token};
    }
  }

  /** The references two events share, and the points of those. */
  method MatchReferences(left: Signals, right: Signals) returns (score: nat, matched: seq<Signal>)
    ensures score == Total(matched)
    ensures matched == UrlSignal(left, right) + IssueSignal(left, right) + CommitSignal(left, right) +
      BranchSignal(left, right)
  {
    hide FirstCommon, FirstMatchingCommit, Total, Points;
    score, matched := 0, [];
    NothingMatched();
    var url := FirstCommonValue(left.urls, right.urls);
    if url != "" { score, matched := AddSignal(score, matched, Url(url)); }
    var issue := FirstCommonValue(left.issueRefs, right.issueRefs);
    if issue != "" { score, matched := AddSignal(score, matched, RepositoryIssue(issue)); }
    assert matched == UrlSignal(left, right) + IssueSignal(left, right);
    var commit := MatchingCommit(left.commits, right.commits);
    if commit != "" { score, matched := AddSignal(score, matched, Commit(commit)); }
    var repository := FirstCommonValue(left.repositories, right.repositories);
    if repository != "" {
      var branch := FirstCommonValue(left.branches, right.branches);
      if branch != "" { score, matched := AddSignal(score, matched, RepositoryBranch(repository, branch)); }
    }
  }

  /** The signals of the two events' content, and their points. */
  method MatchContent(left: Signals, right: Signals) returns (score: nat, matched: seq<Signal>)
    ensures score == Total(matched) && matched == Content(left, right)
    ensures score > 0 <==> matched != []
  {
    hide FirstCommon, TokenOverlap, Total, Points, UrlSignal, IssueSignal, CommitSignal, BranchSignal;
    score, matched := MatchReferences(left, right);
    var tokens := AssociationTokenOverlap(left.titleTokens, right.titleTokens);
    if tokens.Some? { score, matched := AddSignal(score, matched, TitleTokens(tokens.value.0, tokens.value.1)); }
    if left.project != "" && left.project == right.project {
      score, matched := AddSignal(score, matched, Project(left.project));
    }
    PointsArePositive(matched);
  }

  lemma PointsArePositive(matched: seq<Signal>)
    ensures Total(matched) > 0 <==> matched != []
  {
  }

  method EvaluateAssociationPair(left: Event, right: Event) returns (candidate: Option<Candidate>)
    ensures candidate == Suggested(left, right)
  {
    hide Content, Text.Less, Total, Sub, AbsoluteDuration;
    if left.source == right.source { return None; }
    var timeDistance := AbsoluteDuration(Sub(left.timestamp, right.timestamp));
    var score, matched := MatchContent(left.signals, right.signals);
    if score > 0 {
      if timeDistance <= 15 * MINUTE {
        score, matched := AddSignal(score, matched, Within15Minutes);
      } else if timeDistance <= 2 * HOUR {
        score, matched := AddSignal(score, matched, Within2Hours);
      }
    }
    assert matched == Matched(left, right);
    if score > MAX_SCORE { score := MAX_SCORE; }
    if score < MINIMUM_SCORE { return None; }
    var ids := if Text.Less(right.id, left.id) then [right.id, left.id] else [left.id, right.id];
    var byId := map[left.id := left.source][right.id := right.source];
    candidate := Some(Candidate(
      right.id, ids, [byId[ids[0]], byId[ids[1]]], score, if score >= 80 then High else Medium, matched, timeDistance));
  }

  /** The score and the list of matched signals grow together. */
  method AddSignal(score: nat, matched: seq<Signal>, signal: Signal) returns (score': nat, matched': seq<Signal>)
    requires score == Total(matched)
    ensures score' == Total(matched') && matched' == matched + [signal] && score' > 0
  {
    assert (matched + [signal])[..|matched|] == matched;
    score', matched' := score + Points(signal), matched + [signal];
  }

  lemma NothingMatched()
    ensures Total([]) == 0
  {
  }

  lemma {:induction false} SubsetSize(a: set<string>, b: set<string>)
    requires a <= b
    ensures |a| <= |b|
  {
    if a != {} {
      var x :| x in a;
      SubsetSize(a - {x}, b - {x});
    }
  }

  lemma NoCommitMatches(a: set<string>)
    ensures CommitMatches({}, a) == {} && CommitMatches(a, {}) == {}
  {
  }

  lemma CommitMatchesUnion(a: set<string>, b: set<string>, right: set<string>)
    ensures CommitMatches(a + b, right) == CommitMatches(a, right) + CommitMatches(b, right)
  {
  }

  lemma CommitMatchesStep(x: string, right: set<string>, y: string)
    ensures CommitMatches({x}, right + {y})
            == CommitMatches({x}, right) + (if y <= x then {y} else if x <= y then {x} else {})
  {
  }

  // ---- Symmetry ----------------------------------------------------------------------------------------

  /** The times are less than 2^63 ns apart, some 292 years. */
  predicate Near(l: Event, r: Event) {
    -0x8000_0000_0000_0000 < l.timestamp - r.timestamp < 0x8000_0000_0000_0000
  }

  /** Both ways the same suggestion, whichever event the explanation started from. */
  predicate SameSuggestion(l: Event, r: Event) {
    match (Suggested(l, r), Suggested(r, l))
    case (None, None) => true
    case (Some(a), Some(b)) => a.(relatedEventId := "") == b.(relatedEventId := "")
    case _ => false
  }

  lemma FirstCommonSymmetric(a: set<string>, b: set<string>)
    ensures FirstCommon(a, b) == FirstCommon(b, a)
  {
    assert a * b == b * a;
  }

  lemma CommitSymmetric(a: set<string>, b: set<string>)
    ensures FirstMatchingCommit(a, b) == FirstMatchingCommit(b, a)
  {
    assert CommitMatches(a, b) == CommitMatches(b, a) by {
      CommitMatchesFlip(a, b);
      CommitMatchesFlip(b, a);
    }
  }

  lemma CommitMatchesFlip(a: set<string>, b: set<string>)
    ensures CommitMatches(a, b) <= CommitMatches(b, a)
  {
    forall v | v in CommitMatches(a, b) ensures v in CommitMatches(b, a) {
      var x, y :| x in a && y in b && (y <= x || x <= y) && v == if y <= x then y else x;
      assert v == if x <= y then x else y;
    }
  }

  lemma OverlapSymmetric(a: set<string>, b: set<string>)
    ensures TokenOverlap(a, b) == TokenOverlap(b, a)
  {
    assert a * b == b * a && a + b == b + a;
  }

  lemma ContentSymmetric(l: Signals, r: Signals)
    ensures UrlSignal(l, r) == UrlSignal(r, l) && IssueSignal(l, r) == IssueSignal(r, l)
    ensures CommitSignal(l, r) == CommitSignal(r, l) && BranchSignal(l, r) == BranchSignal(r, l)
    ensures TokenSignal(l, r) == TokenSignal(r, l) && ProjectSignal(l, r) == ProjectSignal(r, l)
  {
    hide FirstCommon, FirstMatchingCommit, TokenOverlap;
    FirstCommonSymmetric(l.urls, r.urls);
    FirstCommonSymmetric(l.issueRefs, r.issueRefs);
    CommitSymmetric(l.commits, r.commits);
    FirstCommonSymmetric(l.repositories, r.repositories);
    FirstCommonSymmetric(l.branches, r.branches);
    OverlapSymmetric(l.titleTokens, r.titleTokens);
  }

  /** The distance is the same both ways exactly for times that are near. */
  lemma DistanceSymmetric(l: Event, r: Event)
    ensures Distance(l, r) == Distance(r, l) <==> Near(l, r)
  {
  }

  /** Two events 2^63 ns apart: seen from the earlier one they count as simultaneous, from the later one they do not. */
  lemma SaturatedApart(earlier: Event, later: Event)
    requires later.timestamp - earlier.timestamp >= 0x8000_0000_0000_0000
    ensures Distance(earlier, later) < 0 && TimeSignal(Distance(earlier, later)) == [Within15Minutes]
    ensures Distance(later, earlier) == MAX_DURATION && TimeSignal(Distance(later, earlier)) == []
  {
  }

  lemma IdentitySymmetric(l: Event, r: Event)
    ensures EventIds(l, r) == EventIds(r, l)
    ensures l.source != r.source ==> (Sources(l, r) == Sources(r, l) <==> l.id != r.id)
  {
    hide Text.Less;
    Text.LessTotal(l.id, r.id);
  }

  /**
   * Two events give the same suggestion from either end, for every accepted pair exactly when their ids
   * differ and their times are near.
   */
  lemma SuggestionIsSymmetric(l: Event, r: Event)
    ensures l.id != r.id && Near(l, r) ==> SameSuggestion(l, r)
    ensures Accepted(l, r) || Accepted(r, l) ==> (SameSuggestion(l, r) <==> l.id != r.id && Near(l, r))
  {
    hide UrlSignal, IssueSignal, CommitSignal, BranchSignal, TokenSignal, ProjectSignal, TimeSignal;
    hide Total, Distance, Near, EventIds, Sources;
    ContentSymmetric(l.signals, r.signals);
    DistanceSymmetric(l, r);
    IdentitySymmetric(l, r);
    if Near(l, r) { assert Matched(l, r) == Matched(r, l); }
  }

  // ---- The stored suggestion ---------------------------------------------------------------------------

  /** The part of a suggestion's row that the candidate decides. */
  datatype Evidence = Evidence(
    eventIds: seq<string>, sources: seq<string>, score: nat, confidence: Confidence, matched: seq<Signal>)

  datatype Row = Row(evidence: Evidence, createdAt: int, updatedAt: int)

  /** Suggestions by pattern key, that is by event ids. */
  type Table = map<seq<string>, Row>

  function EvidenceOf(c: Candidate): Evidence {
    Evidence(c.eventIds, c.sources, c.score, c.confidence, c.matched)
  }

  function Later(a: int, b: int): int {
    if b > a then b else a
  }

  /** INSERT ... ON CONFLICT DO UPDATE; `before` is the order in which the database compares timestamps. */
  function Coalesced(table: Table, l: Event, r: Event, before: (int, int) -> bool): Table {
    if !Accepted(l, r) then table
    else
      var evidence, derivedAt := EvidenceOf(Suggested(l, r).value), Later(l.timestamp, r.timestamp);
      var key := evidence.eventIds;
      if key !in table then table[key := Row(evidence, derivedAt, derivedAt)]
      else
        var stored := table[key];
        table[key := Row(evidence, stored.createdAt,
                         if stored.evidence != evidence && before(stored.updatedAt, derivedAt)
                         then derivedAt else stored.updatedAt)]
  }

  /** Explaining the pair from the other end afterwards changes nothing: one row, the same in every field. */
  lemma CoalescesToOneSuggestion(table: Table, l: Event, r: Event, before: (int, int) -> bool)
    requires l.id != r.id && Near(l, r)
    ensures Coalesced(Coalesced(table, l, r, before), r, l, before) == Coalesced(table, l, r, before)
    ensures Coalesced(table, l, r, before) == Coalesced(table, r, l, before)
    ensures |Coalesced(table, l, r, before)| <= |table| + 1
  {
    hide Matched, Total, EventIds, Sources, Near, Distance, Capped, Accepted, Suggested, EvidenceOf;
    SuggestionIsSymmetric(l, r);
    SameEvidence(l, r);
    var once := Coalesced(table, l, r, before);
    if Accepted(l, r) {
      var key := EvidenceOf(Suggested(l, r).value).eventIds;
      assert once.Keys == table.Keys + {key};
    }
  }

  lemma SameEvidence(l: Event, r: Event)
    requires SameSuggestion(l, r)
    ensures Accepted(l, r) <==> Accepted(r, l)
    ensures Accepted(l, r) <==> Suggested(l, r).Some?
    ensures Accepted(l, r) ==> EvidenceOf(Suggested(l, r).value) == EvidenceOf(Suggested(r, l).value)
  {
    hide Matched, Total, EventIds, Sources, Distance, Capped;
  }

  // ---- What it takes -----------------------------------------------------------------------------------

  predicate Shares(signals: seq<Signal>) {
    signals != []
  }

  function TokenPoints(l: Signals, r: Signals): nat {
    match TokenOverlap(l.titleTokens, r.titleTokens)
    case None => 0
    case Some(found) => if found.0 >= 0.80 then 50 else if found.0 >= 0.60 then 40 else 30
  }

  /** One signal of these is enough for high confidence. */
  predicate Identifies(l: Event, r: Event) {
    Shares(UrlSignal(l.signals, r.signals)) || Shares(IssueSignal(l.signals, r.signals)) ||
      Shares(CommitSignal(l.signals, r.signals))
  }

  /**
   * Exactly what is accepted, and with high confidence. A shared project or closeness in time is never
   * enough, alone or together.
   */
  lemma WhatIsAccepted(l: Event, r: Event)
    requires l.source != r.source
    ensures var branch := Shares(BranchSignal(l.signals, r.signals));
            var project := Shares(ProjectSignal(l.signals, r.signals));
            var soon, tokens := Distance(l, r) <= 15 * MINUTE, TokenPoints(l.signals, r.signals);
            && (Accepted(l, r) <==>
                  Identifies(l, r) || branch || (tokens == 50 && (project || soon)) || (tokens == 40 && project)
                  || (tokens == 30 && project && soon))
            && (Accepted(l, r) && Suggested(l, r).value.confidence == High <==>
                  Identifies(l, r) || (branch && (tokens > 0 || project)) || (tokens == 50 && project && soon))
  {
    hide TokenOverlap, FirstCommon, FirstMatchingCommit, Distance, EventIds, Sources, Matched, Total;
    TotalMatched(l, r);
  }

  /** The points of the content's signals, written out. */
  function ContentPoints(l: Signals, r: Signals): nat {
    (if Shares(UrlSignal(l, r)) then 100 else 0) + (if Shares(IssueSignal(l, r)) then 90 else 0)
    + (if Shares(CommitSignal(l, r)) then 85 else 0) + (if Shares(BranchSignal(l, r)) then 65 else 0)
    + TokenPoints(l, r) + (if Shares(ProjectSignal(l, r)) then 20 else 0)
  }

  lemma TotalContent(l: Signals, r: Signals)
    ensures Total(Content(l, r)) == ContentPoints(l, r)
    ensures Content(l, r) == [] <==> ContentPoints(l, r) == 0
  {
    hide TokenOverlap, FirstCommon, FirstMatchingCommit, Total, UrlSignal, IssueSignal, CommitSignal, BranchSignal,
      TokenSignal, ProjectSignal, Points, TokenPoints;
    var u, i, c := UrlSignal(l, r), IssueSignal(l, r), CommitSignal(l, r);
    var b, t, p := BranchSignal(l, r), TokenSignal(l, r), ProjectSignal(l, r);
    EachSignal(l, r);
    NothingMatched();
    TotalPlus([], u);
    assert [] + u == u;
    TotalPlus(u, i);
    TotalPlus(u + i, c);
    TotalPlus(u + i + c, b);
    TotalPlus(u + i + c + b, t);
    TotalPlus(u + i + c + b + t, p);
  }

  /** Each kind of signal is there once or not at all, for its own points. */
  lemma EachSignal(l: Signals, r: Signals)
    ensures Single(UrlSignal(l, r), 100) && Single(IssueSignal(l, r), 90) && Single(CommitSignal(l, r), 85)
    ensures Single(BranchSignal(l, r), 65) && Single(ProjectSignal(l, r), 20)
    ensures Single(TokenSignal(l, r), TokenPoints(l, r)) && (TokenSignal(l, r) == [] <==> TokenPoints(l, r) == 0)
  {
    hide TokenOverlap, FirstCommon, FirstMatchingCommit;
  }

  predicate Single(signals: seq<Signal>, points: nat) {
    signals == [] || (|signals| == 1 && Points(signals[0]) == points)
  }

  lemma TimeSignals(distance: int)
    ensures |TimeSignal(distance)| <= 1
    ensures (if TimeSignal(distance) == [] then 0 else Points(TimeSignal(distance)[0]))
            == if distance <= 15 * MINUTE then 10 else if distance <= 2 * HOUR then 5 else 0
  {
  }

  lemma TotalMatched(l: Event, r: Event)
    ensures var points := ContentPoints(l.signals, r.signals);
            Total(Matched(l, r)) == if points == 0 then 0
                                    else points
                                         + (if Distance(l, r) <= 15 * MINUTE then 10
                                            else if Distance(l, r) <= 2 * HOUR then 5 else 0)
  {
    hide Content, Distance, Total, TimeSignal;
    TotalContent(l.signals, r.signals);
    var content, time := Content(l.signals, r.signals), TimeSignal(Distance(l, r));
    NothingMatched();
    TimeSignals(Distance(l, r));
    TotalPlus(content, time);
  }

  /** One more signal, or none, adds its points. */
  lemma TotalPlus(matched: seq<Signal>, more: seq<Signal>)
    requires |more| <= 1
    ensures Total(matched + more) == Total(matched) + (if more == [] then 0 else Points(more[0]))
  {
    if more == [] {
      assert matched + more == matched;
    } else {
      assert (matched + more)[..|matched|] == matched;
    }
  }

  // ---- Spelled out ---------------------------------------------------------------------------------------

  /** A commit matches when it is the beginning of one of the other side. */
  lemma MatchesExactly(left: set<string>, right: set<string>, v: string)
    ensures v in CommitMatches(left, right) <==>
      (v in right && exists x :: x in left && v <= x) || (v in left && exists y :: y in right && v <= y)
  {
    if v in CommitMatches(left, right) {
      var x, y :| x in left && y in right && (y <= x || x <= y) && v == if y <= x then y else x;
    }
    if v in right {
      if x :| x in left && v <= x { assert v == if v <= x then v else x; }
    }
    if v in left {
      if y :| y in right && v <= y {
        if y <= v { assert y == v; }
        assert v == if y <= v then y else v;
      }
    }
  }

  /** Three words on either side, two of them shared, and half of all words. */
  predicate Overlap(left: set<string>, right: set<string>) {
    |left| >= 3 && |right| >= 3 && |left * right| >= 2 && 2 * |left * right| >= |left + right|
  }

  /** 50 points from four fifths of the words on, 40 from three fifths, 30 from a half. */
  function OverlapPoints(left: set<string>, right: set<string>): nat {
    if !Overlap(left, right) then 0
    else if 5 * |left * right| >= 4 * |left + right| then 50
    else if 5 * |left * right| >= 3 * |left + right| then 40
    else 30
  }

  lemma OverlapExactly(left: set<string>, right: set<string>)
    ensures TokenOverlap(left, right).Some? <==> Overlap(left, right)
    ensures !Overlap(left, right) ==> OverlapPoints(left, right) == 0
    ensures TokenOverlap(left, right).Some? ==>
      var found := TokenOverlap(left, right).value;
      && found.0 * |left + right| as real == |left * right| as real
      && (forall token :: token in found.1 <==> token in left && token in right)
      && (forall i, j :: 0 <= i < j < |found.1| ==> Text.Less(found.1[i], found.1[j]))
      && Points(TitleTokens(found.0, found.1)) == OverlapPoints(left, right)
  {
    hide Text.Less, Text.Listing;
    if |left| >= 3 {
      SubsetSize(left, left + right);
      OverlapThresholds(|left * right|, |left + right|);
    }
  }

  lemma OverlapThresholds(part: nat, whole: nat)
    requires whole > 0
    ensures var ratio := part as real / whole as real;
            && ratio * whole as real == part as real && (ratio < 0.50 <==> 2 * part < whole)
            && forall shared :: Points(TitleTokens(ratio, shared))
                                == if 5 * part >= 4 * whole then 50 else if 5 * part >= 3 * whole then 40 else 30
  {
    RatioBounds(part, whole);
  }

  lemma RatioBounds(part: nat, whole: nat)
    requires whole > 0
    ensures var ratio := part as real / whole as real;
            && ratio * whole as real == part as real
            && (ratio >= 0.50 <==> 2 * part >= whole)
            && (ratio >= 0.80 <==> 5 * part >= 4 * whole) && (ratio >= 0.60 <==> 5 * part >= 3 * whole)
  {
    RatioAtLeast(part, whole, 1, 2);
    RatioAtLeast(part, whole, 4, 5);
    RatioAtLeast(part, whole, 3, 5);
    assert 1 as real / 2 as real == 0.50 && 4 as real / 5 as real == 0.80 && 3 as real / 5 as real == 0.60;
  }

  lemma RatioAtLeast(part: nat, whole: nat, a: nat, b: nat)
    requires whole > 0 && b > 0
    ensures part as real / whole as real * whole as real == part as real
    ensures part as real / whole as real >= a as real / b as real <==> b * part >= a * whole
  {
    var p, w, x, y := part as real, whole as real, a as real, b as real;
    var r, s := p / w, x / y;
    assert r * w == p && s * y == x;
    assert (r - s) * (w * y) == p * y - x * w;
    if r >= s { assert (r - s) * (w * y) >= 0.0; } else { assert (s - r) * (w * y) > 0.0; }
    assert p * y == (b * part) as real && x * w == (a * whole) as real;
  }

  /** What two events have in common: the values that count, "" for none. */
  datatype Shared = Shared(url: string, issue: string, commit: string, repository: string, branch: string)

  predicate IsShared(l: Signals, r: Signals, s: Shared) {
    && IsLeast(l.urls * r.urls, s.url) && IsLeast(l.issueRefs * r.issueRefs, s.issue)
    && IsLeast(CommitMatches(l.commits, r.commits), s.commit)
    && IsLeast(l.repositories * r.repositories, s.repository) && IsLeast(l.branches * r.branches, s.branch)
  }

  /** What the content of two events is worth: 100, 90, 85 and 65 points, those of the words, and 20. */
  function Worth(l: Signals, r: Signals, s: Shared): nat {
    (if s.url != "" then 100 else 0) + (if s.issue != "" then 90 else 0) + (if s.commit != "" then 85 else 0)
    + (if s.repository != "" && s.branch != "" then 65 else 0) + OverlapPoints(l.titleTokens, r.titleTokens)
    + (if l.project != "" && r.project == l.project then 20 else 0)
  }

  /** 10 points within a quarter of an hour, 5 within two hours, and none where nothing else matches. */
  function Closeness(worth: nat, distance: int): nat {
    if worth == 0 then 0
    else if distance <= 900_000_000_000 then 10
    else if distance <= 7_200_000_000_000 then 5
    else 0
  }

  /** The signals of the content that match, in their order. */
  function Reasons(l: Signals, r: Signals, s: Shared): seq<Signal> {
    (if s.url != "" then [Url(s.url)] else []) + (if s.issue != "" then [RepositoryIssue(s.issue)] else [])
    + (if s.commit != "" then [Commit(s.commit)] else [])
    + (if s.repository != "" && s.branch != "" then [RepositoryBranch(s.repository, s.branch)] else [])
    + (match TokenOverlap(l.titleTokens, r.titleTokens)
       case Some(found) => [TitleTokens(found.0, found.1)] case None => [])
    + (if l.project != "" && r.project == l.project then [Project(l.project)] else [])
  }

  /**
   * The suggestion for two events: none for events of one source or of fewer than 60 points, and otherwise the
   * points up to 100, with high confidence from 80 on, the ids in order and the sources in the order of the ids.
   */
  lemma SuggestionDecided(l: Event, r: Event) returns (s: Shared)
    ensures IsShared(l.signals, r.signals, s)
    ensures Near(l, r) ==>
      Distance(l, r) == if l.timestamp >= r.timestamp then l.timestamp - r.timestamp else r.timestamp - l.timestamp
    ensures var worth := Worth(l.signals, r.signals, s);
            var points := worth + Closeness(worth, Distance(l, r));
            if l.source == r.source || points < 60 then Suggested(l, r).None?
            else
              && Suggested(l, r).Some?
              && var c := Suggested(l, r).value;
                 && c.relatedEventId == r.id && c.score == (if points > 100 then 100 else points)
                 && (c.confidence == High <==> points >= 80) && c.timeDistance == Distance(l, r)
                 && |c.eventIds| == 2 && |c.sources| == 2 && multiset(c.eventIds) == multiset{l.id, r.id}
                 && !Text.Less(c.eventIds[1], c.eventIds[0])
                 && (l.id != r.id ==> c.sources == if c.eventIds[0] == l.id then [l.source, r.source]
                                                   else [r.source, l.source])
                 && c.matched == Reasons(l.signals, r.signals, s)
                                 + (match Closeness(worth, Distance(l, r))
                                    case 10 => [Within15Minutes] case 5 => [Within2Hours] case _ => [])
  {
    s := SharedExactly(l.signals, r.signals);
    hide Distance, Text.Less, IsShared, Worth, Reasons, Content, Total, EventIds, Sources, Near;
    DistanceExactly(l, r);
    WorthExactly(l.signals, r.signals, s);
    TotalMatched(l, r);
    hide ContentPoints;
    IdsExactly(l, r);
    assert Content(l.signals, r.signals) + [] == Content(l.signals, r.signals);
  }

  lemma DistanceExactly(l: Event, r: Event)
    ensures Near(l, r) ==>
      Distance(l, r) == if l.timestamp >= r.timestamp then l.timestamp - r.timestamp else r.timestamp - l.timestamp
  {
  }

  lemma IdsExactly(l: Event, r: Event)
    ensures var ids := EventIds(l, r);
            && |ids| == 2 && multiset(ids) == multiset{l.id, r.id} && !Text.Less(ids[1], ids[0])
            && |Sources(l, r)| == 2
            && (l.id != r.id ==> Sources(l, r) == if ids[0] == l.id then [l.source, r.source] else [r.source, l.source])
  {
    hide Text.Less;
    Text.LessTotal(l.id, r.id);
  }

  lemma SharedExactly(l: Signals, r: Signals) returns (s: Shared)
    ensures IsShared(l, r, s)
    ensures s == Shared(FirstCommon(l.urls, r.urls), FirstCommon(l.issueRefs, r.issueRefs),
                        FirstMatchingCommit(l.commits, r.commits), FirstCommon(l.repositories, r.repositories),
                        FirstCommon(l.branches, r.branches))
  {
    hide IsLeast, CommitMatches;
    LeastSpelledOut(l.urls * r.urls);
    LeastSpelledOut(l.issueRefs * r.issueRefs);
    LeastSpelledOut(CommitMatches(l.commits, r.commits));
    LeastSpelledOut(l.repositories * r.repositories);
    LeastSpelledOut(l.branches * r.branches);
    s := Shared(FirstCommon(l.urls, r.urls), FirstCommon(l.issueRefs, r.issueRefs),
      FirstMatchingCommit(l.commits, r.commits), FirstCommon(l.repositories, r.repositories),
      FirstCommon(l.branches, r.branches));
  }

  lemma WorthExactly(l: Signals, r: Signals, s: Shared)
    requires s == Shared(FirstCommon(l.urls, r.urls), FirstCommon(l.issueRefs, r.issueRefs),
                         FirstMatchingCommit(l.commits, r.commits), FirstCommon(l.repositories, r.repositories),
                         FirstCommon(l.branches, r.branches))
    ensures ContentPoints(l, r) == Worth(l, r, s) && Content(l, r) == Reasons(l, r, s)
    ensures Content(l, r) == [] <==> Worth(l, r, s) == 0
  {
    hide FirstCommon, FirstMatchingCommit, TokenOverlap, OverlapPoints, Overlap, Total;
    OverlapExactly(l.titleTokens, r.titleTokens);
    TotalContent(l, r);
  }

  /** What is stored of a suggestion: its evidence, when it was first made, and when what it says last changed. */
  lemma CoalescedExactly(table: Table, l: Event, r: Event, before: (int, int) -> bool)
    ensures var after := Coalesced(table, l, r, before);
            var latest := if l.timestamp >= r.timestamp then l.timestamp else r.timestamp;
            match Suggested(l, r)
            case None => after == table
            case Some(c) =>
              && after.Keys == table.Keys + {c.eventIds}
              && (forall key :: key in table && key != c.eventIds ==> after[key] == table[key])
              && after[c.eventIds].evidence == Evidence(c.eventIds, c.sources, c.score, c.confidence, c.matched)
              && (c.eventIds !in table ==>
                    after[c.eventIds].createdAt == latest && after[c.eventIds].updatedAt == latest)
              && (c.eventIds in table ==>
                    && after[c.eventIds].createdAt == table[c.eventIds].createdAt
                    && after[c.eventIds].updatedAt
                       == if after[c.eventIds].evidence != table[c.eventIds].evidence
                             && before(table[c.eventIds].updatedAt, latest)
                          then latest else table[c.eventIds].updatedAt)
  {
    hide Matched, Total, EventIds, Sources, Distance, Capped;
  }
}
