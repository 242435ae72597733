/** The watch's database operations and the author poll, step by step as the program runs them. */
module PrWatchStore {
  import opened Options
  import opened PrWatch
  import opened PrWatchRuns

  method ObserveSeen(cache: Cache, log: seq<Event>, seen: seq<Seen>, at: nat, scope: string,
      news: map<NodeId, seq<Event>>)
    returns (events: seq<Event>, upserts: seq<Observation>)
    ensures events == SeenEvents(cache, log, seen, at, news) && upserts == SeenUpserts(cache, log, seen, scope)
  {
    hide ObserveEvents, ObserveResult, StoredObserved, NewsOf;
    events, upserts := [], [];
    for i := 0 to |seen|
      invariant events == SeenEvents(cache, log, seen[..i], at, news)
      invariant upserts == SeenUpserts(cache, log, seen[..i], scope)
    {
      assert seen[..i + 1][..i] == seen[..i];
      var previous := Previous(cache, seen[i].node.id);
      var reported := ObserveEvents(previous, log, seen[i], at);
      if previous.None? && !StoredObserved(log, seen[i].node.id) {
        reported := reported + NewsOf(news, seen[i].node.id);
      } else {
        reported := NewsOf(news, seen[i].node.id) + reported;
      }
      events := events + reported;
      upserts := upserts + [ObserveResult(previous, log, seen[i], scope)];
    }
    assert seen[..|seen|] == seen;
  }

  method ResolveLeaving(cache: Cache, author: AuthorAnswers, leaving: seq<NodeId>)
    returns (events: seq<Event>, upserts: seq<Observation>, deletes: seq<NodeId>)
    requires forall i :: 0 <= i < |leaving| ==> leaving[i] in cache
    ensures upserts == LeavingUpserts(cache, author, leaving) && deletes == LeavingDeletes(cache, author, leaving)
    ensures events == LeavingEvents(author.news, leaving)
  {
    hide Left, NewsOf;
    events, upserts, deletes := [], [], [];
    for i := 0 to |leaving|
      invariant upserts == LeavingUpserts(cache, author, leaving[..i])
      invariant deletes == LeavingDeletes(cache, author, leaving[..i])
      invariant events == LeavingEvents(author.news, leaving[..i])
    {
      assert leaving[..i + 1][..i] == leaving[..i];
      events := events + NewsOf(author.news, leaving[i]);
      var left := Left(cache, author, leaving[i]);
      if left.Some? {
        upserts := upserts + [left.value];
      } else {
        deletes := deletes + [leaving[i]];
      }
    }
    assert leaving[..|leaving|] == leaving;
  }

  /** One poll of the author role: what was seen, then what left the search. The roles' events come in their order. */
  method RunAuthor(cache: Cache, log: seq<Event>, earlier: seq<Event>, author: AuthorAnswers, later: seq<Event>,
      at: nat, scope: string)
    returns (changes: Changes)
    ensures changes == PollChanges(cache, log, Answers(earlier, Some(author), later), at, scope)
  {
    hide SeenEvents, SeenUpserts, LeavingUpserts, LeavingDeletes, LeavingEvents;
    var leaving := LeavingIds(cache, author);
    var events, upserts := ObserveSeen(cache, log, author.seen, at, scope, author.news);
    var farewell, kept, deletes := ResolveLeaving(cache, author, leaving);
    changes := Changes(earlier + (events + farewell) + later, upserts + kept, deletes);
  }

  class Store {
    var row: Option<Fence>
    var cache: Cache
    var log: seq<Event>

    constructor ()
      ensures row == None && cache == map[] && log == []
    {
      row, cache, log := None, map[], [];
    }

    method ReadFence() returns (fence: Fence)
      ensures fence == if row.Some? then row.value else Fence(false, "", 0)
    {
      fence := if row.Some? then row.value else Fence(false, "", 0);
    }

    method ApplyFence(enabled: bool, scope: string)
      modifies this`row, this`cache
      ensures row == Some(NextFence(old(row), enabled, scope))
      ensures cache == KeptCache(old(row), old(cache), enabled, scope)
      ensures row == Some(Fence(enabled, scope, if old(row).Some? then old(row).value.pollSeq + 1 else 1))
      ensures cache == if enabled && old(if row.Some? then row.value.scope else "") == scope then old(cache) else map[]
      ensures row.value.enabled == enabled && row.value.scope == scope && row.value.pollSeq >= 1
      ensures forall fence: Fence :: old(row).Some? && fence.pollSeq <= old(row).value.pollSeq ==>
        !FenceMatches(row, fence)
      ensures old(row).Some? ==> row.value.pollSeq > old(row).value.pollSeq
      ensures !enabled || (old(row).Some? && old(row).value.scope != scope) ==> cache == map[]
      ensures enabled && old(row).Some? && old(row).value.scope == scope ==> cache == old(cache)
    {
      var currentScope := if row.Some? then row.value.scope else "";
      if !enabled || currentScope != scope {
        cache := map[];
      }
      row := Some(Fence(enabled, scope, if row.Some? then row.value.pollSeq + 1 else 1));
    }

    /** Brings the fence in line with the configuration, and writes nothing when it already is. */
    method Reconcile(enabled: bool, scope: string)
      modifies this`row, this`cache
      ensures row.Some? ==> row.value.enabled == enabled && row.value.scope == scope
      ensures row.None? ==> !enabled && scope == "" && old(row).None?
      ensures old(row.Some? && row.value.enabled == enabled && row.value.scope == scope) ==>
        row == old(row) && cache == old(cache)
      ensures row != old(row) ==> row == Some(NextFence(old(row), enabled, scope))
      ensures row != old(row) ==> cache == KeptCache(old(row), old(cache), enabled, scope)
      ensures !old((if row.Some? then row.value.enabled else false) == enabled
                   && (if row.Some? then row.value.scope else "") == scope) ==>
        && row == Some(Fence(enabled, scope, if old(row).Some? then old(row).value.pollSeq + 1 else 1))
        && cache == if enabled && old(if row.Some? then row.value.scope else "") == scope then old(cache) else map[]
    {
      var current := ReadFence();
      if current.enabled == enabled && current.scope == scope { return; }
      ApplyFence(enabled, scope);
    }

    /** The commit transaction: the fence decides first, and a refused poll leaves no trace. */
    method CommitChanges(fence: Fence, changes: Changes) returns (accepted: bool, stored: nat)
      modifies this
      ensures accepted <==> old(
        row.Some? && row.value.enabled && row.value.scope == fence.scope && row.value.pollSeq == fence.pollSeq)
      ensures !accepted ==> row == old(row) && cache == old(cache) && log == old(log) && stored == 0
      ensures accepted ==>
        && row == Some(old(row).value.(pollSeq := old(row).value.pollSeq + 1))
        && cache == Committed(old(cache), changes) && log == Recording(old(log), changes.events)
        && |log| == |old(log)| + stored
      ensures accepted ==>
        StoredOnce(old(log), changes.events, log) && Replaced(old(cache), changes.upserts, changes.deletes, cache)
    {
      hide IdText, StoredOnce, Replaced;
      RecordingStoresOnce(log, changes.events);
      CommittedReplaces(cache, changes);
      if !FenceMatches(row, fence) { return false, 0; }
      row := Some(row.value.(pollSeq := row.value.pollSeq + 1));
      stored := 0;
      for i := 0 to |changes.events|
        invariant log == Recording(old(log), changes.events[..i]) && |log| == |old(log)| + stored
        invariant cache == old(cache) && row == Some(old(row).value.(pollSeq := old(row).value.pollSeq + 1))
      {
        assert changes.events[..i + 1][..i] == changes.events[..i];
        if !Recorded(log, changes.events[i].key) {
          log := log + [changes.events[i]];
          stored := stored + 1;
        }
      }
      assert changes.events[..|changes.events|] == changes.events;
      for i := 0 to |changes.upserts|
        invariant cache == Upserted(old(cache), changes.upserts[..i])
        invariant log == Recording(old(log), changes.events) && |log| == |old(log)| + stored
        invariant row == Some(old(row).value.(pollSeq := old(row).value.pollSeq + 1))
      {
        assert changes.upserts[..i + 1][..i] == changes.upserts[..i];
        cache := cache[changes.upserts[i].node := changes.upserts[i]];
      }
      assert changes.upserts[..|changes.upserts|] == changes.upserts;
      for i := 0 to |changes.deletes|
        invariant cache == Upserted(old(cache), changes.upserts) - set n | n in changes.deletes[..i]
        invariant log == Recording(old(log), changes.events) && |log| == |old(log)| + stored
        invariant row == Some(old(row).value.(pollSeq := old(row).value.pollSeq + 1))
      {
        assert changes.deletes[..i + 1] == changes.deletes[..i] + [changes.deletes[i]];
        cache := cache - {changes.deletes[i]};
      }
      assert changes.deletes[..|changes.deletes|] == changes.deletes;
      accepted := true;
    }
  }
}
