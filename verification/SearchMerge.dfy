/** GitHub search over bisected time windows, and the merge of what the searches return. */
module SearchMerge {
  import opened Options
  import opened Rfc3339
  import Text

  const RESULT_CAP: nat := 1000
  const MIN_BISECT_WINDOW: nat := MINUTE

  datatype Item = Item(repository: string, number: nat, updatedAt: nat, details: string)

  datatype Event = Event(
    kind: string, repository: string, number: nat, updatedAt: nat, details: string, scopes: seq<string>)

  /** One search: what the provider holds for it, and for which windows, in whole seconds, it fails. */
  datatype Search = Search(kind: string, scope: string, items: seq<Item>, fails: (nat, nat) -> bool)

  datatype Key = Key(kind: string, repository: string, number: nat)

  function KeyOf(e: Event): Key {
    Key(e.kind, Text.Lower(e.repository), e.number)
  }

  function AsEvent(search: Search, item: Item): Event {
    Event(search.kind, item.repository, item.number, item.updatedAt, item.details, [search.scope])
  }

  /** The query names whole seconds, both included. */
  predicate InSeconds(item: Item, first: nat, last: nat) {
    first <= item.updatedAt / SECOND <= last
  }

  function Matching(items: seq<Item>, first: nat, last: nat): (r: seq<Item>)
    ensures forall item :: item in r <==> item in items && InSeconds(item, first, last)
  {
    if items == [] then []
    else (if InSeconds(items[0], first, last) then [items[0]] else []) + Matching(items[1..], first, last)
  }

  /** What the provider answers: at most the cap, and everything when there is less than that. */
  function Answer(search: Search, first: nat, last: nat): Option<seq<Item>> {
    if search.fails(first, last) then None
    else
      var all := Matching(search.items, first, last);
      Some(if |all| <= RESULT_CAP then all else all[..RESULT_CAP])
  }

  function AsEvents(search: Search, items: seq<Item>): (r: seq<Event>)
    ensures |r| == |items| && forall i :: 0 <= i < |r| ==> r[i] == AsEvent(search, items[i])
  {
    seq(|items|, i requires 0 <= i < |items| => AsEvent(search, items[i]))
  }

  /** A saturated window is split in two, down to a minute; None where a search fails or cannot be split. */
  function SearchWindow(search: Search, since: nat, until: nat): Option<seq<Event>>
    decreases if since < until then until - since else 0
  {
    if since >= until then Some([])
    else
      var answer := Answer(search, since / SECOND, until / SECOND);
      if answer.None? then None
      else if |answer.value| >= RESULT_CAP then
        var window := until - since;
        if window <= MIN_BISECT_WINDOW then None
        else
          var mid := since + window / 2;
          var first := SearchWindow(search, since, mid);
          if first.None? then None
          else
            var second := SearchWindow(search, mid, until);
            if second.None? then None else Some(first.value + second.value)
      else Some(AsEvents(search, answer.value))
  }

  /** The search holds, within these seconds, an item that becomes `e`. */
  ghost predicate Holds(search: Search, first: nat, last: nat, e: Event) {
    exists item ::
      && item in search.items && first <= item.updatedAt / 1_000_000_000 <= last
      && e == Event(search.kind, item.repository, item.number, item.updatedAt, item.details, [search.scope])
  }

  /** When it succeeds, the bisection has found exactly the items of the window, however often it split. */
  lemma {:induction false} SearchIsComplete(search: Search, since: nat, until: nat, e: Event)
    requires SearchWindow(search, since, until).Some?
    ensures e in SearchWindow(search, since, until).value <==>
            since < until && Holds(search, since / SECOND, until / SECOND, e)
    decreases if since < until then until - since else 0
  {
    hide Holds, Matching, AsEvents;
    if since < until {
      var answer := Answer(search, since / SECOND, until / SECOND).value;
      if |answer| >= RESULT_CAP {
        var mid := since + (until - since) / 2;
        SearchIsComplete(search, since, mid, e);
        SearchIsComplete(search, mid, until, e);
        SecondsMonotone(since, mid, until);
        HoldsSplit(search, since / SECOND, mid / SECOND, until / SECOND, e);
      } else {
        AnswerHolds(search, since / SECOND, until / SECOND, e);
      }
    }
  }

  lemma HoldsSplit(search: Search, first: nat, mid: nat, last: nat, e: Event)
    requires first <= mid <= last
    ensures Holds(search, first, last, e) <==> Holds(search, first, mid, e) || Holds(search, mid, last, e)
  {
    if item :| item in search.items && InSeconds(item, first, last) && e == AsEvent(search, item) {
      assert InSeconds(item, first, mid) || InSeconds(item, mid, last);
    }
  }

  lemma AnswerHolds(search: Search, first: nat, last: nat, e: Event)
    ensures e in AsEvents(search, Matching(search.items, first, last)) <==> Holds(search, first, last, e)
  {
    hide Matching;
    var answer := Matching(search.items, first, last);
    var found := AsEvents(search, answer);
    if Holds(search, first, last, e) {
      var item :| item in search.items && InSeconds(item, first, last) && e == AsEvent(search, item);
      assert item in answer;
      var i :| 0 <= i < |answer| && answer[i] == item;
      assert found[i] == e;
    }
    if e in found {
      var i :| 0 <= i < |found| && found[i] == e;
      assert answer[i] in answer;
    }
  }

  lemma SecondsMonotone(a: nat, b: nat, c: nat)
    requires a <= b <= c
    ensures a / SECOND <= b / SECOND <= c / SECOND
  {
  }

  /** The window reached by taking halves: the earlier one, or the later. */
  function Part(since: nat, until: nat, laterHalves: seq<bool>): (nat, nat)
    requires since <= until
    decreases |laterHalves|
  {
    if laterHalves == [] then (since, until)
    else
      var mid := since + (until - since) / 2;
      if laterHalves[0] then Part(mid, until, laterHalves[1..]) else Part(since, mid, laterHalves[1..])
  }

  predicate Failing(search: Search, window: (nat, nat)) {
    search.fails(window.0 / 1_000_000_000, window.1 / 1_000_000_000)
  }

  /** The provider holds a thousand items or more for the window. */
  predicate Saturated(search: Search, window: (nat, nat)) {
    |Matching(search.items, window.0 / 1_000_000_000, window.1 / 1_000_000_000)| >= 1000
  }

  /** Longer than a minute. */
  predicate Splits(window: (nat, nat)) {
    window.1 > window.0 + 60_000_000_000
  }

  /** The window a path leads to is searched, because every window on the way is saturated and can be split. */
  predicate Searched(search: Search, since: nat, until: nat, path: seq<bool>)
    requires since <= until
  {
    forall k :: 0 <= k < |path| ==>
      var window := Part(since, until, path[..k]);
      !Failing(search, window) && Saturated(search, window) && Splits(window)
  }

  predicate Refused(search: Search, window: (nat, nat)) {
    window.0 < window.1 && (Failing(search, window) || (Saturated(search, window) && !Splits(window)))
  }

  /**
   * A search gives up exactly when some window it comes to by bisecting is answered with a failure, or is
   * saturated and no longer than a minute. A window that is not saturated is never split, and a longer one that
   * is saturated always.
   */
  lemma {:induction false} SearchFailsExactly(search: Search, since: nat, until: nat)
    requires since <= until
    ensures SearchWindow(search, since, until).None? <==>
      exists path :: Searched(search, since, until, path) && Refused(search, Part(since, until, path))
    decreases until - since
  {
    hide Failing, Saturated, Searched;
    if since < until {
      AnswerSpelledOut(search, since, until);
      NowhereElse(search, since, until);
      if !Failing(search, (since, until)) && Saturated(search, (since, until)) && Splits((since, until)) {
        var mid := since + (until - since) / 2;
        SearchFailsExactly(search, since, mid);
        SearchFailsExactly(search, mid, until);
        HalvesSearched(search, since, until);
      }
    } else {
      NothingRefused(search, since);
    }
  }

  lemma AnswerSpelledOut(search: Search, since: nat, until: nat)
    requires since < until
    ensures Answer(search, since / SECOND, until / SECOND).None? <==> Failing(search, (since, until))
    ensures !Failing(search, (since, until)) ==>
      (|Answer(search, since / SECOND, until / SECOND).value| >= RESULT_CAP <==> Saturated(search, (since, until)))
  {
    hide Matching;
  }

  /** At the window itself, and when it is not split at no other. */
  lemma NowhereElse(search: Search, since: nat, until: nat)
    requires since <= until
    ensures Searched(search, since, until, []) && Part(since, until, []) == (since, until)
    ensures forall path :: path != [] && Searched(search, since, until, path) ==>
      !Failing(search, (since, until)) && Saturated(search, (since, until)) && Splits((since, until))
  {
    hide Failing, Saturated, Splits;
    forall path | path != [] && Searched(search, since, until, path)
      ensures !Failing(search, (since, until)) && Saturated(search, (since, until)) && Splits((since, until))
    {
      assert path[..0] == [] && Part(since, until, path[..0]) == (since, until);
    }
  }

  lemma {:induction false} NothingRefused(search: Search, since: nat)
    ensures forall path :: !Refused(search, Part(since, since, path))
  {
    forall path ensures Part(since, since, path) == (since, since) { PartOfNothing(since, path); }
  }

  lemma {:induction false} PartOfNothing(since: nat, path: seq<bool>)
    ensures Part(since, since, path) == (since, since)
    decreases |path|
  {
    if path != [] { PartOfNothing(since, path[1..]); }
  }

  lemma HalvesSearched(search: Search, since: nat, until: nat)
    requires since < until
    requires !Failing(search, (since, until)) && Saturated(search, (since, until)) && Splits((since, until))
    ensures var mid := since + (until - since) / 2;
            (exists path :: Searched(search, since, until, path) && Refused(search, Part(since, until, path)))
            <==> (exists path :: Searched(search, since, mid, path) && Refused(search, Part(since, mid, path)))
                 || (exists path :: Searched(search, mid, until, path) && Refused(search, Part(mid, until, path)))
  {
    hide Failing, Saturated, Searched, Splits;
    var mid := since + (until - since) / 2;
    if path :| Searched(search, since, until, path) && Refused(search, Part(since, until, path)) {
      if path != [] {
        assert path == [path[0]] + path[1..];
        OneHalfDown(search, since, until, path[0], path[1..]);
      } else {
        assert Splits((since, until));
        NotRefused(search, (since, until));
      }
    }
    if path :| Searched(search, since, mid, path) && Refused(search, Part(since, mid, path)) {
      OneHalfDown(search, since, until, false, path);
    }
    if path :| Searched(search, mid, until, path) && Refused(search, Part(mid, until, path)) {
      OneHalfDown(search, since, until, true, path);
    }
  }

  lemma NotRefused(search: Search, window: (nat, nat))
    requires !Failing(search, window) && Splits(window)
    ensures !Refused(search, window)
  {
  }

  lemma OneHalfDown(search: Search, since: nat, until: nat, later: bool, path: seq<bool>)
    requires since < until
    requires !Failing(search, (since, until)) && Saturated(search, (since, until)) && Splits((since, until))
    ensures var mid := since + (until - since) / 2;
            var a, b := if later then mid else since, if later then until else mid;
            && Part(since, until, [later] + path) == Part(a, b, path)
            && (Searched(search, since, until, [later] + path) <==> Searched(search, a, b, path))
  {
    hide Failing, Saturated, Splits;
    var mid := since + (until - since) / 2;
    var a, b := if later then mid else since, if later then until else mid;
    var whole := [later] + path;
    assert whole[0] == later && whole[1..] == path;
    assert whole[..0] == [];
    forall k | 0 <= k <= |path| ensures Part(since, until, whole[..k + 1]) == Part(a, b, path[..k]) {
      assert whole[..k + 1][0] == later && whole[..k + 1][1..] == path[..k];
    }
    if Searched(search, since, until, whole) {
      forall k | 0 <= k < |path|
        ensures var w := Part(a, b, path[..k]); !Failing(search, w) && Saturated(search, w) && Splits(w)
      {
        assert Part(since, until, whole[..k + 1]) == Part(a, b, path[..k]);
      }
    }
    if Searched(search, a, b, path) {
      forall k | 0 <= k < |whole|
        ensures var w := Part(since, until, whole[..k]); !Failing(search, w) && Saturated(search, w) && Splits(w)
      {
        if k > 0 { assert Part(since, until, whole[..k - 1 + 1]) == Part(a, b, path[..k - 1]); }
      }
    }
  }

  // ---- Merging --------------------------------------------------------------------------------------

  function ScopeSet(e: Event): set<string> {
    set s | s in e.scopes
  }

  /** The same pull request or issue; repositories are told apart without regard to case. */
  predicate SameKey(a: Event, b: Event) {
    a.kind == b.kind && Text.Lower(a.repository) == Text.Lower(b.repository) && a.number == b.number
  }

  function Winner(existing: Event, incoming: Event): Event {
    (if incoming.updatedAt > existing.updatedAt then incoming else existing)
      .(scopes := Text.Listing(ScopeSet(existing) + ScopeSet(incoming)))
  }

  /** Event i is `m` but for the scopes, the first newest of its key. */
  predicate IsNewest(input: seq<Event>, m: Event, i: int) {
    && 0 <= i < |input| && SameKey(input[i], m) && m == input[i].(scopes := m.scopes)
    && (forall j :: 0 <= j < |input| && SameKey(input[j], m) ==>
          input[j].updatedAt <= m.updatedAt && (j < i ==> input[j].updatedAt < m.updatedAt))
  }

  /**
   * `m` stands for all the input events of its key: it is the first newest of them, except that its
   * scopes are those of all of them together.
   */
  ghost predicate StandsFor(input: seq<Event>, m: Event) {
    && (exists i :: IsNewest(input, m, i))
    && (forall s :: s in m.scopes <==> exists j :: 0 <= j < |input| && SameKey(input[j], m) && s in input[j].scopes)
  }

  /** Some merged event is of the event's key. */
  ghost predicate Represented(e: Event, merged: seq<Event>) {
    exists k :: 0 <= k < |merged| && SameKey(e, merged[k])
  }

  /** One event per key, each standing for the input events of its key. */
  ghost predicate Merged(input: seq<Event>, merged: seq<Event>) {
    && (forall i, j :: 0 <= i < j < |merged| ==> !SameKey(merged[i], merged[j]))
    && (forall k :: 0 <= k < |merged| ==> StandsFor(input, merged[k]))
    && (forall i :: 0 <= i < |input| ==> Represented(input[i], merged))
  }

  /** The index map says where in the merged slice each key is. */
  predicate Indexed(index: map<Key, nat>, merged: seq<Event>) {
    && (forall key :: key in index ==> index[key] < |merged| && KeyOf(merged[index[key]]) == key)
    && (forall k :: 0 <= k < |merged| ==> KeyOf(merged[k]) in index && index[KeyOf(merged[k])] == k)
  }

  lemma StandsForNew(input: seq<Event>, e: Event)
    requires forall i :: 0 <= i < |input| ==> !SameKey(input[i], e)
    ensures StandsFor(input + [e], e)
  {
    hide KeyOf;
    var more := input + [e];
    assert more[|input|] == e && forall i :: 0 <= i < |input| ==> more[i] == input[i];
    assert e == more[|input|].(scopes := e.scopes);
    assert IsNewest(more, e, |input|);
    forall s ensures s in e.scopes <==> exists j :: 0 <= j < |more| && SameKey(more[j], e) && s in more[j].scopes {
      if s in e.scopes { assert SameKey(more[|input|], e) && s in more[|input|].scopes; }
    }
  }

  lemma StandsForOther(input: seq<Event>, m: Event, e: Event)
    requires StandsFor(input, m) && !SameKey(e, m)
    ensures StandsFor(input + [e], m)
  {
    hide KeyOf;
    var more := input + [e];
    assert more[|input|] == e && forall i :: 0 <= i < |input| ==> more[i] == input[i];
    var i :| IsNewest(input, m, i);
    assert more[i] == input[i] && IsNewest(more, m, i);
    forall s ensures s in m.scopes <==> exists j :: 0 <= j < |more| && SameKey(more[j], m) && s in more[j].scopes {
      if s in m.scopes {
        var j :| 0 <= j < |input| && SameKey(input[j], m) && s in input[j].scopes;
        assert SameKey(more[j], m) && s in more[j].scopes;
      }
    }
  }

  lemma NewestOfSame(input: seq<Event>, m: Event, e: Event, i: int)
    requires IsNewest(input, m, i) && SameKey(e, m)
    ensures IsNewest(input + [e], Winner(m, e), if e.updatedAt > m.updatedAt then |input| else i)
  {
    hide Text.Lower, Text.Listing, ScopeSet;
    var more := input + [e];
    assert more[|input|] == e && forall j :: 0 <= j < |input| ==> more[j] == input[j];
  }

  lemma StandsForSame(input: seq<Event>, m: Event, e: Event)
    requires StandsFor(input, m) && SameKey(e, m)
    ensures SameKey(Winner(m, e), m) && StandsFor(input + [e], Winner(m, e))
  {
    hide IsNewest, Text.Lower, Text.Listing, ScopeSet;
    var i :| IsNewest(input, m, i);
    NewestOfSame(input, m, e, i);
    ScopesOfSame(input, m, e);
  }

  lemma ScopesOfSame(input: seq<Event>, m: Event, e: Event)
    requires SameKey(e, m)
    requires forall s :: s in m.scopes <==> exists j :: 0 <= j < |input| && SameKey(input[j], m) && s in input[j].scopes
    ensures var more, w := input + [e], Winner(m, e);
            forall s :: s in w.scopes <==> exists j :: 0 <= j < |more| && SameKey(more[j], w) && s in more[j].scopes
  {
    hide Text.Lower, Text.Listing;
    var more, w := input + [e], Winner(m, e);
    assert more[|input|] == e && forall i :: 0 <= i < |input| ==> more[i] == input[i];
    forall s ensures s in w.scopes <==> exists j :: 0 <= j < |more| && SameKey(more[j], w) && s in more[j].scopes {
      assert s in w.scopes <==> s in m.scopes || s in e.scopes;
      if s in m.scopes {
        var j :| 0 <= j < |input| && SameKey(input[j], m) && s in input[j].scopes;
        assert SameKey(more[j], w) && s in more[j].scopes;
      }
      if s in e.scopes { assert SameKey(more[|input|], w) && s in more[|input|].scopes; }
    }
  }

  lemma RepresentedStill(input: seq<Event>, merged: seq<Event>, e: Event, merged': seq<Event>, at: nat)
    requires forall i :: 0 <= i < |input| ==> Represented(input[i], merged)
    requires |merged| <= |merged'| && at < |merged'| && SameKey(e, merged'[at])
    requires forall k :: 0 <= k < |merged| ==> SameKey(merged[k], merged'[k])
    ensures var more := input + [e]; forall i :: 0 <= i < |more| ==> Represented(more[i], merged')
  {
    hide Text.Lower;
    var more := input + [e];
    forall i | 0 <= i < |more| ensures Represented(more[i], merged') {
      if i < |input| {
        assert more[i] == input[i];
        var k :| 0 <= k < |merged| && SameKey(input[i], merged[k]);
        assert SameKey(merged[k], merged'[k]) && SameKey(more[i], merged'[k]);
      } else {
        assert SameKey(more[i], merged'[at]);
      }
    }
  }

  lemma MergedAt(input: seq<Event>, merged: seq<Event>, at: nat, e: Event)
    requires Merged(input, merged) && at < |merged| && SameKey(e, merged[at])
    ensures SameKey(Winner(merged[at], e), merged[at])
    ensures Merged(input + [e], merged[at := Winner(merged[at], e)])
  {
    hide Text.Lower, StandsFor, Winner;
    var merged' := merged[at := Winner(merged[at], e)];
    StandsForSame(input, merged[at], e);
    forall k | 0 <= k < |merged'| ensures StandsFor(input + [e], merged'[k]) {
      if k != at { assert !SameKey(merged[k], merged[at]); StandsForOther(input, merged[k], e); }
    }
    RepresentedStill(input, merged, e, merged', at);
  }

  lemma MergedAfter(input: seq<Event>, merged: seq<Event>, e: Event)
    requires Merged(input, merged) && forall k :: 0 <= k < |merged| ==> !SameKey(merged[k], e)
    ensures Merged(input + [e], merged + [e])
  {
    hide Text.Lower, StandsFor;
    var merged' := merged + [e];
    assert merged'[|merged|] == e && forall k :: 0 <= k < |merged| ==> merged'[k] == merged[k];
    RepresentedStill(input, merged, e, merged', |merged|);
    forall i | 0 <= i < |input| ensures !SameKey(input[i], e) {
      assert Represented(input[i], merged);
    }
    StandsForNew(input, e);
    forall k | 0 <= k < |merged'| ensures StandsFor(input + [e], merged'[k]) {
      if k < |merged| { StandsForOther(input, merged[k], e); }
    }
  }

  /** One event is merged in: at the place the index gives, or at the end. */
  method MergeOne(ghost input: seq<Event>, index: map<Key, nat>, merged: seq<Event>, e: Event)
    returns (index': map<Key, nat>, merged': seq<Event>)
    requires Indexed(index, merged) && Merged(input, merged)
    ensures Indexed(index', merged') && Merged(input + [e], merged')
  {
    hide Text.Lower, Merged, Winner;
    var key := KeyOf(e);
    if key in index {
      MergedAt(input, merged, index[key], e);
      index', merged' := index, merged[index[key] := Winner(merged[index[key]], e)];
    } else {
      MergedAfter(input, merged, e);
      index', merged' := index[key := |merged|], merged + [e];
    }
  }

  method MergeEvents(groups: seq<seq<Event>>) returns (merged: seq<Event>)
    ensures Merged(Flattened(groups), merged)
  {
    hide Merged, Indexed;
    merged := [];
    var index: map<Key, nat> := map[];
    EmptyMerge();
    for g := 0 to |groups|
      invariant Indexed(index, merged) && Merged(Flattened(groups[..g]), merged)
    {
      var before := Flattened(groups[..g]);
      assert groups[..g + 1][..g] == groups[..g];
      assert before + groups[g][..0] == before;
      for i := 0 to |groups[g]|
        invariant Indexed(index, merged) && Merged(before + groups[g][..i], merged)
      {
        index, merged := MergeOne(before + groups[g][..i], index, merged, groups[g][i]);
        assert before + groups[g][..i] + [groups[g][i]] == before + groups[g][..i + 1];
      }
      assert groups[g][..|groups[g]|] == groups[g];
    }
    assert groups[..|groups|] == groups;
  }

  lemma EmptyMerge()
    ensures Merged([], []) && Indexed(map[], [])
  {
  }

  function Flattened(groups: seq<seq<Event>>): seq<Event> {
    if groups == [] then [] else Flattened(groups[..|groups| - 1]) + groups[|groups| - 1]
  }

  // ---- Searching and merging --------------------------------------------------------------------------

  /** Some search holds, within the window, an item that becomes `e`; an empty window has none. */
  ghost predicate Found(searches: seq<Search>, since: nat, until: nat, e: Event) {
    && since < until
    && exists s :: s in searches && Holds(s, since / SECOND, until / SECOND, e)
  }

  lemma {:induction false} InFlattened(groups: seq<seq<Event>>, e: Event)
    ensures e in Flattened(groups) <==> exists g :: 0 <= g < |groups| && e in groups[g]
  {
    if groups != [] {
      var n := |groups| - 1;
      InFlattened(groups[..n], e);
      if g :| 0 <= g < n && e in groups[..n][g] { assert e in groups[g]; }
      if g :| 0 <= g < |groups| && e in groups[g] { assert g < n ==> e in groups[..n][g]; }
    }
  }

  /**
   * `m` is an item found for its key, no item found for that key is newer, and its scopes are exactly
   * those of the searches that hold one.
   */
  ghost predicate StandsForFound(searches: seq<Search>, since: nat, until: nat, m: Event) {
    && (exists e :: Found(searches, since, until, e) && m == e.(scopes := m.scopes))
    && (forall e :: Found(searches, since, until, e) && SameKey(e, m) ==> e.updatedAt <= m.updatedAt)
    && (forall s :: s in m.scopes <==> exists e :: Found(searches, since, until, e) && SameKey(e, m) && s in e.scopes)
  }

  /**
   * When every search succeeds, the result has exactly one event for each kind, repository and number that
   * any search holds in the window, with the newest update of them all and the scopes of every search
   * that holds it.
   */
  method ParticipantEvents(searches: seq<Search>, since: nat, until: nat) returns (result: Option<seq<Event>>)
    ensures result.None? <==> since < until && exists k, path ::
      && 0 <= k < |searches| && Searched(searches[k], since, until, path)
      && Refused(searches[k], Part(since, until, path))
    ensures result.Some? ==> forall i, j :: 0 <= i < j < |result.value| ==> !SameKey(result.value[i], result.value[j])
    ensures result.Some? ==> forall k :: 0 <= k < |result.value| ==>
      StandsForFound(searches, since, until, result.value[k])
    ensures result.Some? ==> forall e :: Found(searches, since, until, e) ==>
      exists k :: 0 <= k < |result.value| && SameKey(e, result.value[k])
  {
    hide SearchWindow, StandsFor, StandsForFound, Found, KeyOf;
    var groups: seq<seq<Event>> := [];
    for k := 0 to |searches|
      invariant |groups| == k
      invariant forall i :: 0 <= i < k ==> SearchWindow(searches[i], since, until) == Some(groups[i])
    {
      var group := SearchWindow(searches[k], since, until);
      RefusalFound(searches[k], since, until);
      if group.None? { return None; }
      groups := groups + [group.value];
    }
    forall k | 0 <= k < |searches|
      ensures since < until ==>
        !exists path ::
          Searched(searches[k], since, until, path) && Refused(searches[k], Part(since, until, path))
    {
      RefusalFound(searches[k], since, until);
    }
    var merged := MergeEvents(groups);
    ghost var input := Flattened(groups);
    FlattenedIsFound(searches, since, until, groups);
    forall k | 0 <= k < |merged| ensures StandsForFound(searches, since, until, merged[k]) {
      FoundFor(searches, since, until, input, merged[k]);
    }
    forall e | Found(searches, since, until, e) ensures exists k :: 0 <= k < |merged| && SameKey(e, merged[k]) {
      assert e in input;
      var i :| 0 <= i < |input| && input[i] == e;
    }
    result := Some(merged);
  }

  lemma RefusalFound(search: Search, since: nat, until: nat)
    ensures SearchWindow(search, since, until).None? <==>
      since < until
      && exists path :: Searched(search, since, until, path) && Refused(search, Part(since, until, path))
  {
    hide Searched, Refused, Part;
    if since < until { SearchFailsExactly(search, since, until); }
  }

  lemma FlattenedIsFound(searches: seq<Search>, since: nat, until: nat, groups: seq<seq<Event>>)
    requires |groups| == |searches|
    requires forall i :: 0 <= i < |searches| ==> SearchWindow(searches[i], since, until) == Some(groups[i])
    ensures forall e :: e in Flattened(groups) <==> Found(searches, since, until, e)
  {
    hide SearchWindow, Holds;
    forall e ensures e in Flattened(groups) <==> Found(searches, since, until, e) {
      InFlattened(groups, e);
      forall g | 0 <= g < |groups|
        ensures e in groups[g] <==> since < until && Holds(searches[g], since / SECOND, until / SECOND, e)
      {
        SearchIsComplete(searches[g], since, until, e);
      }
      if e in Flattened(groups) {
        var g :| 0 <= g < |groups| && e in groups[g];
        assert searches[g] in searches;
      }
      if Found(searches, since, until, e) {
        var s :| s in searches && Holds(s, since / SECOND, until / SECOND, e);
        var g :| 0 <= g < |searches| && searches[g] == s;
        assert e in groups[g];
      }
    }
  }

  /** Standing for a list of events is standing for what the searches hold, when the list is that. */
  lemma FoundFor(searches: seq<Search>, since: nat, until: nat, input: seq<Event>, m: Event)
    requires StandsFor(input, m)
    requires forall e :: e in input <==> Found(searches, since, until, e)
    ensures StandsForFound(searches, since, until, m)
  {
    hide Found, KeyOf;
    var i :| IsNewest(input, m, i);
    assert Found(searches, since, until, input[i]);
    forall e | Found(searches, since, until, e) && SameKey(e, m) ensures e.updatedAt <= m.updatedAt {
      var j :| 0 <= j < |input| && input[j] == e;
    }
    forall s ensures s in m.scopes <==> exists e :: Found(searches, since, until, e) && SameKey(e, m) && s in e.scopes {
      if s in m.scopes {
        var j :| 0 <= j < |input| && SameKey(input[j], m) && s in input[j].scopes;
        assert Found(searches, since, until, input[j]);
      }
      if e :| Found(searches, since, until, e) && SameKey(e, m) && s in e.scopes {
        var j :| 0 <= j < |input| && input[j] == e;
        assert SameKey(input[j], m);
      }
    }
  }
}
