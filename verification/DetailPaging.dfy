/** Fetching pull request timelines in adaptive batches, at most ten pages a poll, resumed by cursor. */
module DetailPaging {
  import opened Options

  type NodeId = string
  type Since = string
  type Item = string

  const PAGE_SIZE: nat := 100
  const MAX_PAGES: nat := 10

  /** How one request to the provider turns out; a node it cannot reach is answered with null. */
  datatype Outcome = TimedOut | Failed | Answered(nulls: set<NodeId>)

  /** The timeline visible at each request, and how each request turns out. */
  datatype Provider = Provider(visible: (nat, NodeId, Since) -> seq<Item>, outcome: (nat, seq<NodeId>) -> Outcome)

  datatype Page = Page(nodes: seq<Item>, hasNext: bool, endCursor: nat)

  datatype Pending = Pending(id: NodeId, since: Since, after: nat, pages: nat)

  /** `cursor` is 0 where the source has the empty string. */
  datatype Detail = Detail(timeline: seq<Item>, since: Since, cursor: nat, complete: bool)

  datatype Resume = Resume(since: Since, cursor: nat)

  function Least(a: nat, b: nat): nat {
    if a < b then a else b
  }

  function PageOf(provider: Provider, call: nat, p: Pending): Page {
    var items := provider.visible(call, p.id, p.since);
    var from := Least(p.after, |items|);
    var to := Least(from + PAGE_SIZE, |items|);
    Page(items[from..to], to < |items|, to)
  }

  /** Timelines only grow at the end. */
  ghost predicate Growing(provider: Provider) {
    forall call: nat, id, since :: provider.visible(call, id, since) <= provider.visible(call + 1, id, since)
  }

  lemma {:induction false} GrownBetween(provider: Provider, a: nat, b: nat, id: NodeId, since: Since)
    requires Growing(provider) && a <= b
    ensures provider.visible(a, id, since) <= provider.visible(b, id, since)
    decreases b - a
  {
    if a < b { GrownBetween(provider, a + 1, b, id, since); }
  }

  function StartOf(previous: map<NodeId, Resume>, id: NodeId): Resume {
    if id in previous then previous[id] else Resume("", 0)
  }

  /** A timeline is taken up where the last poll left it, and from its beginning when no poll did. */
  predicate ResumedAt(previous: map<NodeId, Resume>, id: NodeId, start: Resume) {
    if id in previous then start.since == previous[id].since && start.cursor == previous[id].cursor
    else start.since == "" && start.cursor == 0
  }

  /** A page is asked for at the place its timeline is resumed at, or as many full pages after it as came before. */
  predicate AskedRightly(ids: seq<NodeId>, previous: map<NodeId, Resume>, p: Pending) {
    && p.id in ids && p.pages < 10
    && ResumedAt(previous, p.id, Resume(p.since, if p.after < 100 * p.pages then 0 else p.after - 100 * p.pages))
    && p.after >= 100 * p.pages
  }

  predicate ShortEnough(queue: seq<Pending>) {
    forall i :: 0 <= i < |queue| ==> queue[i].pages < MAX_PAGES
  }

  function PagesLeft(queue: seq<Pending>): nat
    requires ShortEnough(queue)
  {
    if queue == [] then 0 else PagesLeft(queue[..|queue| - 1]) + (MAX_PAGES - queue[|queue| - 1].pages)
  }

  lemma {:induction false} PagesLeftAppend(a: seq<Pending>, b: seq<Pending>)
    requires ShortEnough(a) && ShortEnough(b)
    ensures PagesLeft(a + b) == PagesLeft(a) + PagesLeft(b)
  {
    if b == [] {
      assert a + b == a;
    } else {
      PagesLeftAppend(a, b[..|b| - 1]);
      assert (a + b)[..|a + b| - 1] == a + b[..|b| - 1];
    }
  }

  /** `timeline` is what the provider shows at `call` from `start` on. */
  predicate Slice(provider: Provider, call: nat, id: NodeId, start: Resume, timeline: seq<Item>) {
    var items := provider.visible(call, id, start.since);
    start.cursor + |timeline| <= |items| && timeline == items[start.cursor..start.cursor + |timeline|]
  }

  /** At some request of the poll, the timeline ended after `length` items. */
  ghost predicate ToTheEnd(provider: Provider, first: nat, last: nat, id: NodeId, since: Since, length: nat) {
    length <= |provider.visible(last, id, since)|
    && exists call: nat :: first <= call <= last
         && provider.visible(call, id, since) == provider.visible(last, id, since)[..length]
  }

  predicate Interrupted(d: Detail) {
    !d.complete && d.cursor == 0
  }

  /**
   * What one poll fetched of one timeline, resumed at `start`: a slice of it without gap or repetition,
   * to the end it had at some request, or for ten full pages, or until a page came back null.
   */
  ghost predicate Fetched(provider: Provider, first: nat, last: nat, id: NodeId, start: Resume, d: Detail) {
    && d.since == start.since && |d.timeline| <= MAX_PAGES * PAGE_SIZE
    && Slice(provider, last, id, start, d.timeline)
    && (d.complete ==> d.cursor == 0 && ToTheEnd(provider, first, last, id, start.since, start.cursor + |d.timeline|))
    && (d.cursor != 0 ==> d.cursor == start.cursor + |d.timeline| && |d.timeline| == MAX_PAGES * PAGE_SIZE)
    && (Interrupted(d) ==> |d.timeline| > 0)
  }

  predicate Waiting(provider: Provider, call: nat, previous: map<NodeId, Resume>, results: map<NodeId, Detail>,
      p: Pending) {
    var start := StartOf(previous, p.id);
    && p.pages < MAX_PAGES && p.since == start.since
    && p.after == start.cursor + p.pages * PAGE_SIZE
    && (if p.pages == 0 then p.id !in results && start.cursor <= |provider.visible(call, p.id, start.since)|
        else p.id in results && results[p.id].since == start.since
             && !results[p.id].complete && results[p.id].cursor == 0
             && |results[p.id].timeline| == p.pages * PAGE_SIZE
             && Slice(provider, call, p.id, start, results[p.id].timeline))
  }

  predicate InQueue(queue: seq<Pending>, id: NodeId) {
    exists i :: 0 <= i < |queue| && queue[i].id == id
  }

  ghost predicate Accounted(provider: Provider, first: nat, call: nat, previous: map<NodeId, Resume>,
      queue: seq<Pending>, results: map<NodeId, Detail>) {
    && (forall i :: 0 <= i < |queue| ==> Waiting(provider, call, previous, results, queue[i]))
    && (forall i, j :: 0 <= i < j < |queue| ==> queue[i].id != queue[j].id)
    && (forall id :: id in results && !InQueue(queue, id) ==>
           Fetched(provider, first, call, id, StartOf(previous, id), results[id]))
  }

  lemma LaterCall(provider: Provider, first: nat, call: nat, previous: map<NodeId, Resume>, queue: seq<Pending>,
      results: map<NodeId, Detail>)
    requires Growing(provider) && Accounted(provider, first, call, previous, queue, results)
    ensures Accounted(provider, first, call + 1, previous, queue, results)
  {
    hide Waiting, Fetched, Growing;
    forall i | 0 <= i < |queue| ensures Waiting(provider, call + 1, previous, results, queue[i]) {
      WaitingLater(provider, call, previous, results, queue[i]);
    }
    forall id | id in results && !InQueue(queue, id)
      ensures Fetched(provider, first, call + 1, id, StartOf(previous, id), results[id])
    {
      FetchedLater(provider, first, call, id, StartOf(previous, id), results[id]);
    }
  }

  lemma WaitingLater(provider: Provider, call: nat, previous: map<NodeId, Resume>, results: map<NodeId, Detail>,
      p: Pending)
    requires Growing(provider) && Waiting(provider, call, previous, results, p)
    ensures Waiting(provider, call + 1, previous, results, p)
  {
    hide StartOf;
  }

  lemma FetchedLater(provider: Provider, first: nat, call: nat, id: NodeId, start: Resume, d: Detail)
    requires Growing(provider) && Fetched(provider, first, call, id, start, d)
    ensures Fetched(provider, first, call + 1, id, start, d)
  {
    assert provider.visible(call, id, start.since) <= provider.visible(call + 1, id, start.since);
    if d.complete {
      var c: nat :| first <= c <= call
        && provider.visible(c, id, start.since)
             == provider.visible(call, id, start.since)[..start.cursor + |d.timeline|];
      assert provider.visible(c, id, start.since)
          == provider.visible(call + 1, id, start.since)[..start.cursor + |d.timeline|];
    }
  }

  /** What one answered page does to a timeline: the detail so far, and the page to ask for next, if any. */
  function Received(p: Pending, page: Page, soFar: Option<Detail>): (Detail, Option<Pending>) {
    var d := if soFar.Some? then soFar.value else Detail([], p.since, 0, false);
    var grown := d.(timeline := d.timeline + page.nodes);
    if !page.hasNext then (grown.(complete := true), None)
    else if p.pages + 1 >= MAX_PAGES then (grown.(cursor := page.endCursor), None)
    else (grown, Some(Pending(p.id, p.since, page.endCursor, p.pages + 1)))
  }

  lemma ReceivedPage(provider: Provider, first: nat, call: nat, previous: map<NodeId, Resume>,
      results: map<NodeId, Detail>, p: Pending)
    requires first <= call && Waiting(provider, call, previous, results, p)
    ensures var r := Received(p, PageOf(provider, call, p), if p.id in results then Some(results[p.id]) else None);
            var after := results[p.id := r.0];
            if r.1.None? then Fetched(provider, first, call, p.id, StartOf(previous, p.id), r.0)
            else r.1.value.id == p.id && r.1.value.pages == p.pages + 1
                 && Waiting(provider, call, previous, after, r.1.value)
  {
    hide StartOf, PageOf, Waiting, Fetched;
    PageGrows(provider, call, previous, results, p);
    var start := StartOf(previous, p.id);
    var page := PageOf(provider, call, p);
    var r := Received(p, page, if p.id in results then Some(results[p.id]) else None);
    if !page.hasNext {
      FetchedToTheEnd(provider, first, call, p.id, start, r.0);
    } else if p.pages + 1 >= MAX_PAGES {
      FetchedTenPages(provider, first, call, p.id, start, r.0);
    } else {
      WaitingForNext(provider, call, previous, results[p.id := r.0], r.1.value);
    }
  }

  /** What a page adds: the timeline so far and the page are one slice of what the provider shows now. */
  lemma PageGrows(provider: Provider, call: nat, previous: map<NodeId, Resume>, results: map<NodeId, Detail>,
      p: Pending)
    requires Waiting(provider, call, previous, results, p)
    ensures var start, page := StartOf(previous, p.id), PageOf(provider, call, p);
            var items := provider.visible(call, p.id, start.since);
            var soFar := if p.id in results then results[p.id] else Detail([], p.since, 0, false);
            && p.pages < MAX_PAGES && soFar.since == p.since == start.since && !soFar.complete && soFar.cursor == 0
            && start.cursor <= page.endCursor <= |items|
            && soFar.timeline + page.nodes == items[start.cursor..page.endCursor]
            && page.endCursor <= start.cursor + (p.pages + 1) * PAGE_SIZE
            && (if page.hasNext then page.endCursor == start.cursor + (p.pages + 1) * PAGE_SIZE
                else page.endCursor == |items|)
  {
  }

  lemma FetchedToTheEnd(provider: Provider, first: nat, call: nat, id: NodeId, start: Resume, d: Detail)
    requires first <= call && d.since == start.since && d.complete && d.cursor == 0
    requires var items := provider.visible(call, id, start.since);
             start.cursor <= |items| <= start.cursor + MAX_PAGES * PAGE_SIZE && d.timeline == items[start.cursor..]
    ensures Fetched(provider, first, call, id, start, d)
  {
    var items := provider.visible(call, id, start.since);
    assert items == items[..start.cursor + |d.timeline|];
  }

  lemma FetchedTenPages(provider: Provider, first: nat, call: nat, id: NodeId, start: Resume, d: Detail)
    requires d.since == start.since && !d.complete && d.cursor == start.cursor + MAX_PAGES * PAGE_SIZE
    requires var items := provider.visible(call, id, start.since);
             d.cursor <= |items| && d.timeline == items[start.cursor..d.cursor]
    ensures Fetched(provider, first, call, id, start, d)
  {
  }

  lemma WaitingForNext(provider: Provider, call: nat, previous: map<NodeId, Resume>, results: map<NodeId, Detail>,
      p: Pending)
    requires p.id in results && 0 < p.pages < MAX_PAGES
    requires var start, d := StartOf(previous, p.id), results[p.id];
             var items := provider.visible(call, p.id, start.since);
             && p.since == start.since == d.since && !d.complete && d.cursor == 0
             && p.after == start.cursor + p.pages * PAGE_SIZE <= |items| && d.timeline == items[start.cursor..p.after]
    ensures Waiting(provider, call, previous, results, p)
  {
    hide StartOf;
  }

  /** One page of the batch is taken in: it leaves the outstanding pages, and may put its successor last. */
  lemma TakeIn(provider: Provider, first: nat, call: nat, previous: map<NodeId, Resume>, p: Pending, rest: seq<Pending>,
      results: map<NodeId, Detail>)
    requires first <= call && Accounted(provider, first, call, previous, [p] + rest, results)
    ensures var r := Received(p, PageOf(provider, call, p), if p.id in results then Some(results[p.id]) else None);
            var queue := if r.1.Some? then rest + [r.1.value] else rest;
            Accounted(provider, first, call, previous, queue, results[p.id := r.0])
  {
    hide Received, PageOf, Fetched, StartOf, Waiting, InQueue;
    var all := [p] + rest;
    assert all[0] == p && forall i :: 0 <= i < |rest| ==> all[i + 1] == rest[i];
    ReceivedPage(provider, first, call, previous, results, p);
    var r := Received(p, PageOf(provider, call, p), if p.id in results then Some(results[p.id]) else None);
    var after := results[p.id := r.0];
    var queue := if r.1.Some? then rest + [r.1.value] else rest;
    assert forall i :: 0 <= i < |rest| ==> queue[i] == rest[i];
    forall i | 0 <= i < |rest| ensures rest[i].id != p.id && Waiting(provider, call, previous, after, rest[i])
    {
      assert all[0].id != all[i + 1].id && Waiting(provider, call, previous, results, all[i + 1]);
      StillWaiting(provider, call, previous, results, after, rest[i]);
    }
    forall id | id in after && !InQueue(queue, id)
      ensures Fetched(provider, first, call, id, StartOf(previous, id), after[id])
    {
      if id == p.id {
        if r.1.Some? { LastInQueue(rest, r.1.value); }
      } else {
        QueueTail(p, rest, queue, id);
      }
    }
  }

  lemma LastInQueue(rest: seq<Pending>, p: Pending)
    ensures InQueue(rest + [p], p.id)
  {
    assert (rest + [p])[|rest|] == p;
  }

  lemma QueueTail(p: Pending, rest: seq<Pending>, queue: seq<Pending>, id: NodeId)
    requires id != p.id && !InQueue(queue, id) && rest <= queue
    ensures !InQueue([p] + rest, id)
  {
    forall i | 0 <= i < |[p] + rest| ensures ([p] + rest)[i].id != id {
      if i > 0 { assert ([p] + rest)[i] == rest[i - 1] == queue[i - 1]; }
    }
  }

  lemma StillWaiting(provider: Provider, call: nat, previous: map<NodeId, Resume>, results: map<NodeId, Detail>,
      after: map<NodeId, Detail>, q: Pending)
    requires Waiting(provider, call, previous, results, q)
    requires (q.id in results <==> q.id in after) && (q.id in results ==> after[q.id] == results[q.id])
    ensures Waiting(provider, call, previous, after, q)
  {
  }

  /** A null page drops its request from the outstanding ones. */
  lemma DropNull(provider: Provider, first: nat, call: nat, previous: map<NodeId, Resume>, p: Pending,
      rest: seq<Pending>, results: map<NodeId, Detail>)
    requires Accounted(provider, first, call, previous, [p] + rest, results)
    ensures Accounted(provider, first, call, previous, rest, results)
  {
    hide Fetched, StartOf, Waiting;
    var all := [p] + rest;
    assert all[0] == p && forall i :: 0 <= i < |rest| ==> all[i + 1] == rest[i];
    assert Waiting(provider, call, previous, results, all[0]);
    forall id | id in results && !InQueue(rest, id)
      ensures Fetched(provider, first, call, id, StartOf(previous, id), results[id])
    {
      if id == p.id {
        PartialFetched(provider, first, call, previous, results, p);
      } else {
        QueueTail(p, rest, rest, id);
      }
    }
  }

  /** A null page leaves what was fetched before it: a slice that is neither complete nor resumable. */
  lemma PartialFetched(provider: Provider, first: nat, call: nat, previous: map<NodeId, Resume>,
      results: map<NodeId, Detail>, p: Pending)
    requires Waiting(provider, call, previous, results, p) && p.id in results
    ensures Fetched(provider, first, call, p.id, StartOf(previous, p.id), results[p.id]) && Interrupted(results[p.id])
  {
  }

  // ---- The fetch as a machine -------------------------------------------------------------------------

  /** The fetch between two requests; `asked` records every batch sent so far, one a request. */
  datatype Fetch = Fetch(
    queue: seq<Pending>, results: map<NodeId, Detail>, batchSize: nat, asked: seq<seq<Pending>>, failed: bool)

  function Ids(batch: seq<Pending>): (r: seq<NodeId>)
    ensures |r| == |batch| && forall i :: 0 <= i < |r| ==> r[i] == batch[i].id
  {
    seq(|batch|, i requires 0 <= i < |batch| => batch[i].id)
  }

  function AsSeq(next: Option<Pending>): seq<Pending> {
    if next.Some? then [next.value] else []
  }

  function SoFar(results: map<NodeId, Detail>, p: Pending): Option<Detail> {
    if p.id in results then Some(results[p.id]) else None
  }

  /** An answered batch, page by page: a null page is dropped, another may put its successor last. */
  function TakenIn(provider: Provider, call: nat, nulls: set<NodeId>, batch: seq<Pending>, rest: seq<Pending>,
      before: map<NodeId, Detail>): (seq<Pending>, map<NodeId, Detail>)
  {
    if batch == [] then (rest, before)
    else
      var p := batch[|batch| - 1];
      var earlier := TakenIn(provider, call, nulls, batch[..|batch| - 1], rest, before);
      if p.id in nulls then earlier
      else
        var r := Received(p, PageOf(provider, call, p), SoFar(earlier.1, p));
        (earlier.0 + AsSeq(r.1), earlier.1[p.id := r.0])
  }

  function Shrunk(failedSize: nat): nat {
    if 1 < failedSize / 2 then failedSize / 2 else 1
  }

  predicate Stopped(s: Fetch) {
    s.queue == [] || s.failed
  }

  function Next(provider: Provider, first: nat, s: Fetch): Fetch {
    if Stopped(s) then s
    else
      var size, call := Least(|s.queue|, s.batchSize), first + |s.asked|;
      var batch := s.queue[..size];
      var sent := s.(asked := s.asked + [batch]);
      match provider.outcome(call, Ids(batch))
      case TimedOut => if size > 1 then sent.(batchSize := Shrunk(size)) else sent.(failed := true)
      case Failed => sent.(failed := true)
      case Answered(nulls) =>
        var taken := TakenIn(provider, call, nulls, batch, s.queue[size..], s.results);
        sent.(queue := taken.0, results := taken.1)
  }

  function Start(ids: seq<NodeId>, previous: map<NodeId, Resume>, batchLimit: nat): Fetch {
    Fetch(FirstPages(ids, previous), map[], batchLimit, [], false)
  }

  /** The queue at the start: each pull request once, from where the last poll left its timeline. */
  function FirstPages(ids: seq<NodeId>, previous: map<NodeId, Resume>): (r: seq<Pending>)
    ensures |r| == |ids|
    ensures forall i :: 0 <= i < |r| ==>
      r[i] == Pending(ids[i], StartOf(previous, ids[i]).since, StartOf(previous, ids[i]).cursor, 0)
  {
    seq(|ids|, i requires 0 <= i < |ids| =>
      Pending(ids[i], StartOf(previous, ids[i]).since, StartOf(previous, ids[i]).cursor, 0))
  }

  function After(provider: Provider, first: nat, s: Fetch, n: nat): Fetch {
    if n == 0 then s else Next(provider, first, After(provider, first, s, n - 1))
  }

  lemma InQueueAppend(a: seq<Pending>, b: seq<Pending>)
    ensures forall id :: InQueue(a + b, id) <==> InQueue(a, id) || InQueue(b, id)
  {
    forall id ensures InQueue(a + b, id) <==> InQueue(a, id) || InQueue(b, id) {
      if InQueue(a, id) {
        var i :| 0 <= i < |a| && a[i].id == id;
        assert (a + b)[i].id == id;
      }
      if InQueue(b, id) {
        var i :| 0 <= i < |b| && b[i].id == id;
        assert (a + b)[|a| + i].id == id;
      }
    }
  }

  lemma InQueueOne(p: Pending)
    ensures forall id :: InQueue([p], id) <==> p.id == id
  {
    assert [p][0] == p;
  }

  /** What `queue` has outstanding shrinks by a page for each page taken in. */
  lemma {:induction false} TakenInShrinks(provider: Provider, call: nat, nulls: set<NodeId>, batch: seq<Pending>,
      rest: seq<Pending>, before: map<NodeId, Detail>, i: nat)
    requires i <= |batch| && ShortEnough(batch + rest)
    ensures var queue := TakenIn(provider, call, nulls, batch[..i], rest, before).0;
            && ShortEnough(batch[i..] + queue)
            && PagesLeft(batch[i..] + queue) + i <= PagesLeft(batch + rest)
  {
    hide PageOf, Received, PagesLeft;
    if i == 0 {
      assert batch[..0] == [] && batch[0..] == batch;
    } else {
      TakenInShrinks(provider, call, nulls, batch, rest, before, i - 1);
      var earlier := TakenIn(provider, call, nulls, batch[..i - 1], rest, before);
      var p := batch[i - 1];
      var next := TakenStep(provider, call, nulls, batch, rest, before, i);
      var others := batch[i..] + earlier.0;
      assert batch[i - 1..] + earlier.0 == [p] + others;
      assert batch[i..] + (earlier.0 + AsSeq(next)) == others + AsSeq(next);
      assert ([p] + others)[0] == p;
      OneFewer(p, others, next);
    }
  }

  /** Taking in the page before i; the result is the page to ask for next, if any. */
  lemma TakenStep(provider: Provider, call: nat, nulls: set<NodeId>, batch: seq<Pending>, rest: seq<Pending>,
      before: map<NodeId, Detail>, i: nat) returns (next: Option<Pending>)
    requires 0 < i <= |batch|
    ensures var p, earlier := batch[i - 1], TakenIn(provider, call, nulls, batch[..i - 1], rest, before);
            var r := Received(p, PageOf(provider, call, p), SoFar(earlier.1, p));
            && next == (if p.id in nulls then None else r.1)
            && TakenIn(provider, call, nulls, batch[..i], rest, before)
               == (earlier.0 + AsSeq(next), if p.id in nulls then earlier.1 else earlier.1[p.id := r.0])
            && (next.Some? ==> next.value.id == p.id && next.value.pages == p.pages + 1 < MAX_PAGES)
  {
    hide PageOf;
    assert batch[..i][..i - 1] == batch[..i - 1];
    var p, earlier := batch[i - 1], TakenIn(provider, call, nulls, batch[..i - 1], rest, before);
    next := if p.id in nulls then None else Received(p, PageOf(provider, call, p), SoFar(earlier.1, p)).1;
    assert earlier.0 + [] == earlier.0;
  }

  lemma OneFewer(p: Pending, others: seq<Pending>, next: Option<Pending>)
    requires ShortEnough([p] + others)
    requires next.Some? ==> next.value.pages == p.pages + 1 < MAX_PAGES
    ensures ShortEnough(others + AsSeq(next))
    ensures PagesLeft(others + AsSeq(next)) + 1 <= PagesLeft([p] + others)
  {
    assert ([p] + others)[0] == p && forall k :: 0 <= k < |others| ==> others[k] == ([p] + others)[k + 1];
    PagesLeftAppend([p], others);
    OnePending(p);
    if next.Some? {
      PagesLeftAppend(others, [next.value]);
      OnePending(next.value);
    } else {
      assert others + [] == others;
    }
  }

  lemma OnePending(p: Pending)
    requires p.pages < MAX_PAGES
    ensures PagesLeft([p]) == MAX_PAGES - p.pages
  {
    assert [p][..0] == [] && PagesLeft([]) == 0;
  }

  method ShrinkBatches(failedSize: nat) returns (batchSize: nat)
    requires failedSize > 1
    ensures 1 <= batchSize < failedSize && failedSize <= 2 * batchSize + 1
    ensures batchSize == Shrunk(failedSize)
    ensures failedSize - 1 <= 2 * batchSize && (failedSize >= 2 ==> 2 * batchSize <= failedSize)
  {
    batchSize := if 1 < failedSize / 2 then failedSize / 2 else 1;
  }

  /**
   * The whole fetch, as the machine runs it. It ends under any pattern of timeouts, because an answered
   * batch leaves fewer pages to ask for and a timed-out one is asked for again in a smaller batch.
   */
  method FetchDetails(provider: Provider, first: nat, ids: seq<NodeId>, previous: map<NodeId, Resume>, batchLimit: nat)
    returns (results: Option<map<NodeId, Detail>>, batchSize: nat, ghost requests: nat)
    requires 1 <= batchLimit
    ensures var end := After(provider, first, Start(ids, previous, batchLimit), requests);
            && Stopped(end) && |end.asked| == requests
            && batchSize == end.batchSize && results == (if end.failed then None else Some(end.results))
    ensures 1 <= batchSize <= batchLimit
    ensures var asked := After(provider, first, Start(ids, previous, batchLimit), requests).asked;
            forall k, i :: 0 <= k < |asked| && 0 <= i < |asked[k]| ==> AskedRightly(ids, previous, asked[k][i])
  {
    hide PageOf, Received, PagesLeft, TakenIn, FirstPages, StartOf, After, Ids, AskedRightly;
    ghost var start := Start(ids, previous, batchLimit);
    var queue := QueuePages(ids, previous);
    AfterNone(provider, first, start);
    var details: map<NodeId, Detail> := map[];
    var call := first;
    ghost var asked: seq<seq<Pending>> := [];
    batchSize, requests := batchLimit, 0;
    while |queue| > 0
      invariant call == first + |asked| && |asked| == requests && 1 <= batchSize <= batchLimit
      invariant ShortEnough(queue)
      invariant After(provider, first, start, requests) == Fetch(queue, details, batchSize, asked, false)
      decreases PagesLeft(queue), batchSize
    {
      var size := Least(|queue|, batchSize);
      var batch := queue[..size];
      assert batch + queue[size..] == queue;
      var outcome := provider.outcome(call, Ids(batch));
      AfterOne(provider, first, start, requests);
      asked, requests := asked + [batch], requests + 1;
      match outcome {
        case TimedOut =>
          if size <= 1 {
            PagesAsked(provider, first, ids, previous, batchLimit, requests);
            return None, batchSize, requests;
          }
          batchSize := ShrinkBatches(size);
        case Failed =>
          PagesAsked(provider, first, ids, previous, batchLimit, requests);
          return None, batchSize, requests;
        case Answered(nulls) =>
          TakenInShrinks(provider, call, nulls, batch, queue[size..], details, |batch|);
          assert batch[..|batch|] == batch && batch[|batch|..] == [];
          queue, details := TakeInBatch(provider, call, nulls, batch, queue[size..], details);
          assert [] + queue == queue;
      }
      call := call + 1;
    }
    PagesAsked(provider, first, ids, previous, batchLimit, requests);
    results := Some(details);
  }

  // ---- What is asked for ------------------------------------------------------------------------------

  predicate AllRight(ids: seq<NodeId>, previous: map<NodeId, Resume>, pages: seq<Pending>) {
    forall i :: 0 <= i < |pages| ==> AskedRightly(ids, previous, pages[i])
  }

  lemma NextPageRight(provider: Provider, call: nat, ids: seq<NodeId>, previous: map<NodeId, Resume>, p: Pending,
      soFar: Option<Detail>)
    requires AskedRightly(ids, previous, p)
    ensures AllRight(ids, previous, AsSeq(Received(p, PageOf(provider, call, p), soFar).1))
  {
  }

  lemma {:induction false} TakenInRight(provider: Provider, call: nat, nulls: set<NodeId>, ids: seq<NodeId>,
      previous: map<NodeId, Resume>, batch: seq<Pending>, rest: seq<Pending>, before: map<NodeId, Detail>)
    requires AllRight(ids, previous, batch) && AllRight(ids, previous, rest)
    ensures AllRight(ids, previous, TakenIn(provider, call, nulls, batch, rest, before).0)
  {
    hide AskedRightly, PageOf, Received;
    if batch != [] {
      var init, p := batch[..|batch| - 1], batch[|batch| - 1];
      TakenInRight(provider, call, nulls, ids, previous, init, rest, before);
      NextPageRight(provider, call, ids, previous, p, SoFar(TakenIn(provider, call, nulls, init, rest, before).1, p));
    }
  }

  lemma FirstPagesRight(ids: seq<NodeId>, previous: map<NodeId, Resume>)
    ensures AllRight(ids, previous, FirstPages(ids, previous))
  {
  }

  /** Every page ever asked for is asked for at its right place. */
  lemma {:induction false} PagesAsked(provider: Provider, first: nat, ids: seq<NodeId>,
      previous: map<NodeId, Resume>, batchLimit: nat, n: nat)
    ensures var s := After(provider, first, Start(ids, previous, batchLimit), n);
            && AllRight(ids, previous, s.queue)
            && (forall k :: 0 <= k < |s.asked| ==> AllRight(ids, previous, s.asked[k]))
            && (forall k, i :: 0 <= k < |s.asked| && 0 <= i < |s.asked[k]| ==>
                  AskedRightly(ids, previous, s.asked[k][i]))
  {
    hide AskedRightly, TakenIn, FirstPages, StartOf, Ids;
    if n == 0 {
      FirstPagesRight(ids, previous);
    } else {
      PagesAsked(provider, first, ids, previous, batchLimit, n - 1);
      var s := After(provider, first, Start(ids, previous, batchLimit), n - 1);
      if !Stopped(s) {
        var size := Least(|s.queue|, s.batchSize);
        var batch, rest, call := s.queue[..size], s.queue[size..], first + |s.asked|;
        if provider.outcome(call, Ids(batch)).Answered? {
          TakenInRight(provider, call, provider.outcome(call, Ids(batch)).nulls, ids, previous, batch, rest, s.results);
        }
      }
    }
  }

  // ---- In which order ---------------------------------------------------------------------------------

  /** Pages wait in rounds: all of one round, then all of the next. */
  predicate InRounds(queue: seq<Pending>) {
    forall i, j :: 0 <= i < j < |queue| ==> queue[i].pages <= queue[j].pages <= queue[i].pages + 1
  }

  /** Batch k was answered. */
  predicate AnsweredAt(provider: Provider, first: nat, asked: seq<seq<Pending>>, k: nat)
    requires k < |asked|
  {
    provider.outcome(first + k, Ids(asked[k])).Answered?
  }

  predicate NotBefore(batch: seq<Pending>, later: seq<Pending>) {
    forall i, j :: 0 <= i < |batch| && 0 <= j < |later| ==> batch[i].pages <= later[j].pages
  }

  lemma OneRoundOn(p: Pending, others: seq<Pending>, next: Option<Pending>)
    requires InRounds([p] + others) && (next.Some? ==> next.value.pages == p.pages + 1)
    ensures InRounds(others + AsSeq(next))
  {
    var all := [p] + others;
    assert all[0] == p && forall i :: 0 <= i < |others| ==> all[i + 1] == others[i];
  }

  lemma {:induction false} RoundsKept(provider: Provider, call: nat, nulls: set<NodeId>, batch: seq<Pending>,
      rest: seq<Pending>, before: map<NodeId, Detail>, i: nat)
    requires i <= |batch| && InRounds(batch + rest)
    ensures InRounds(batch[i..] + TakenIn(provider, call, nulls, batch[..i], rest, before).0)
  {
    hide PageOf, Received, InRounds;
    if i == 0 {
      assert batch[..0] == [] && batch[0..] == batch;
    } else {
      RoundsKept(provider, call, nulls, batch, rest, before, i - 1);
      var earlier := TakenIn(provider, call, nulls, batch[..i - 1], rest, before);
      var next := TakenStep(provider, call, nulls, batch, rest, before, i);
      var others := batch[i..] + earlier.0;
      assert batch[i - 1..] + earlier.0 == [batch[i - 1]] + others;
      assert batch[i..] + (earlier.0 + AsSeq(next)) == others + AsSeq(next);
      OneRoundOn(batch[i - 1], others, next);
    }
  }

  /** What waits after an answered batch waited before it, or follows one of its pages. */
  lemma {:induction false} WaitingFrom(provider: Provider, call: nat, nulls: set<NodeId>, batch: seq<Pending>,
      rest: seq<Pending>, before: map<NodeId, Detail>, i: nat)
    requires i <= |batch|
    ensures forall q :: q in TakenIn(provider, call, nulls, batch[..i], rest, before).0 ==>
      q in rest || exists k :: 0 <= k < |batch| && q.pages == batch[k].pages + 1
  {
    hide PageOf, Received;
    if i == 0 {
      assert batch[..0] == [];
    } else {
      WaitingFrom(provider, call, nulls, batch, rest, before, i - 1);
      var next := TakenStep(provider, call, nulls, batch, rest, before, i);
    }
  }

  lemma BatchFirst(provider: Provider, call: nat, nulls: set<NodeId>, batch: seq<Pending>, rest: seq<Pending>,
      before: map<NodeId, Detail>)
    requires InRounds(batch + rest)
    ensures NotBefore(batch, TakenIn(provider, call, nulls, batch, rest, before).0)
    ensures InRounds(TakenIn(provider, call, nulls, batch, rest, before).0)
  {
    hide TakenIn;
    WaitingFrom(provider, call, nulls, batch, rest, before, |batch|);
    RoundsKept(provider, call, nulls, batch, rest, before, |batch|);
    assert batch[..|batch|] == batch;
    var queue, all := TakenIn(provider, call, nulls, batch, rest, before).0, batch + rest;
    assert batch[|batch|..] + queue == queue;
    forall i, j | 0 <= i < |batch| && 0 <= j < |queue| ensures batch[i].pages <= queue[j].pages {
      assert all[i] == batch[i] && queue[j] in queue;
      if queue[j] in rest {
        var r :| 0 <= r < |rest| && rest[r] == queue[j];
        assert all[|batch| + r] == queue[j];
      } else {
        var k :| 0 <= k < |batch| && queue[j].pages == batch[k].pages + 1;
        assert all[k] == batch[k];
      }
    }
  }

  /**
   * Nobody is asked for a second page while somebody's first page has not been answered, and so on: among the
   * batches that are answered, later ones never ask for a page of an earlier round.
   */
  lemma {:induction false} AskedInRounds(provider: Provider, first: nat, ids: seq<NodeId>,
      previous: map<NodeId, Resume>, batchLimit: nat, n: nat)
    ensures Rounds(provider, first, After(provider, first, Start(ids, previous, batchLimit), n))
  {
    hide Next, FirstPages, StartOf, Ids, NotBefore, InRounds, AnsweredAt;
    if n == 0 {
      FirstRound(ids, previous);
    } else {
      AskedInRounds(provider, first, ids, previous, batchLimit, n - 1);
      RoundAdded(provider, first, After(provider, first, Start(ids, previous, batchLimit), n - 1));
    }
  }

  /** The batches answered so far are in rounds, and none is after what waits. */
  ghost predicate Rounds(provider: Provider, first: nat, s: Fetch) {
    && InRounds(s.queue)
    && (forall k :: 0 <= k < |s.asked| && AnsweredAt(provider, first, s.asked, k) ==> NotBefore(s.asked[k], s.queue))
    && (forall k, l | 0 <= k < l < |s.asked|
                      && AnsweredAt(provider, first, s.asked, k) && AnsweredAt(provider, first, s.asked, l) ::
          NotBefore(s.asked[k], s.asked[l]))
  }

  lemma RoundAdded(provider: Provider, first: nat, s: Fetch)
    requires Rounds(provider, first, s)
    ensures Rounds(provider, first, Next(provider, first, s))
  {
    hide TakenIn, Ids, NotBefore, InRounds;
    if !Stopped(s) {
      var size, next := Least(|s.queue|, s.batchSize), Next(provider, first, s);
      var batch, rest, call := s.queue[..size], s.queue[size..], first + |s.asked|;
      assert batch + rest == s.queue && next.asked == s.asked + [batch];
      assert forall k :: 0 <= k < |s.asked| ==> next.asked[k] == s.asked[k];
      if provider.outcome(call, Ids(batch)).Answered? {
        var nulls := provider.outcome(call, Ids(batch)).nulls;
        BatchFirst(provider, call, nulls, batch, rest, s.results);
        forall k | 0 <= k < |s.asked| && AnsweredAt(provider, first, s.asked, k)
          ensures NotBefore(s.asked[k], batch) && NotBefore(s.asked[k], next.queue)
        {
          StillBefore(provider, call, nulls, s.asked[k], batch, rest, s.results);
        }
      }
    }
  }

  lemma FirstRound(ids: seq<NodeId>, previous: map<NodeId, Resume>)
    ensures InRounds(FirstPages(ids, previous))
  {
  }

  lemma StillBefore(provider: Provider, call: nat, nulls: set<NodeId>, earlier: seq<Pending>, batch: seq<Pending>,
      rest: seq<Pending>, before: map<NodeId, Detail>)
    requires NotBefore(earlier, batch + rest)
    ensures NotBefore(earlier, batch) && NotBefore(earlier, TakenIn(provider, call, nulls, batch, rest, before).0)
  {
    hide TakenIn;
    WaitingFrom(provider, call, nulls, batch, rest, before, |batch|);
    assert batch[..|batch|] == batch;
    var queue, all := TakenIn(provider, call, nulls, batch, rest, before).0, batch + rest;
    forall i, j | 0 <= i < |earlier| && 0 <= j < |batch| ensures earlier[i].pages <= batch[j].pages {
      assert all[j] == batch[j];
    }
    forall i, j | 0 <= i < |earlier| && 0 <= j < |queue| ensures earlier[i].pages <= queue[j].pages {
      assert queue[j] in queue;
      if queue[j] in rest {
        var r :| 0 <= r < |rest| && rest[r] == queue[j];
        assert all[|batch| + r] == queue[j];
      }
    }
  }

  lemma AfterNone(provider: Provider, first: nat, s: Fetch)
    ensures After(provider, first, s, 0) == s
  {
  }

  lemma AfterOne(provider: Provider, first: nat, s: Fetch, n: nat)
    ensures After(provider, first, s, n + 1) == Next(provider, first, After(provider, first, s, n))
  {
    hide Next;
  }

  method QueuePages(ids: seq<NodeId>, previous: map<NodeId, Resume>) returns (queue: seq<Pending>)
    ensures queue == FirstPages(ids, previous) && ShortEnough(queue)
  {
    queue := [];
    for i := 0 to |ids|
      invariant |queue| == i && forall k :: 0 <= k < i ==> queue[k] == FirstPages(ids, previous)[k]
    {
      var page := Pending(ids[i], "", 0, 0);
      if ids[i] in previous {
        page := page.(since := previous[ids[i]].since, after := previous[ids[i]].cursor);
      }
      queue := queue + [page];
    }
  }

  /** One answered batch, page by page; what must be asked for next goes to the back of the queue. */
  method TakeInBatch(provider: Provider, call: nat, nulls: set<NodeId>, batch: seq<Pending>, rest: seq<Pending>,
      before: map<NodeId, Detail>)
    returns (queue: seq<Pending>, results: map<NodeId, Detail>)
    ensures (queue, results) == TakenIn(provider, call, nulls, batch, rest, before)
  {
    hide PageOf;
    queue, results := rest, before;
    for i := 0 to |batch|
      invariant (queue, results) == TakenIn(provider, call, nulls, batch[..i], rest, before)
    {
      assert batch[..i + 1][..i] == batch[..i];
      var p := batch[i];
      if p.id in nulls { continue; }
      var page := PageOf(provider, call, p);
      var detail := if p.id in results then results[p.id] else Detail([], p.since, 0, false);
      detail := detail.(timeline := detail.timeline + page.nodes);
      if !page.hasNext {
        detail := detail.(complete := true);
        assert queue + [] == queue;
      } else if p.pages + 1 >= MAX_PAGES {
        detail := detail.(cursor := page.endCursor);
        assert queue + [] == queue;
      } else {
        queue := queue + [Pending(p.id, p.since, page.endCursor, p.pages + 1)];
      }
      results := results[p.id := detail];
    }
    assert batch[..|batch|] == batch;
  }

  // ---- Which answers were null ------------------------------------------------------------------------

  /** One of the batches asked was answered with null for `id`, at its first page of the poll or after it. */
  ghost predicate Nulled(provider: Provider, first: nat, asked: seq<seq<Pending>>, id: NodeId, later: bool) {
    exists k, i :: 0 <= k < |asked| && 0 <= i < |asked[k]| && asked[k][i].id == id && (asked[k][i].pages > 0 <==> later)
                   && NullAnswer(provider, first + k, asked[k], id)
  }

  predicate NullAnswer(provider: Provider, call: nat, batch: seq<Pending>, id: NodeId) {
    provider.outcome(call, Ids(batch)).Answered? && id in provider.outcome(call, Ids(batch)).nulls
  }

  /** The last batch asked failed, or timed out with nothing left to shrink. */
  predicate GaveUp(provider: Provider, first: nat, asked: seq<seq<Pending>>) {
    asked != [] &&
    var last := asked[|asked| - 1];
    var outcome := provider.outcome(first + |asked| - 1, Ids(last));
    outcome.Failed? || (outcome.TimedOut? && |last| <= 1)
  }

  function NullIds(nulls: set<NodeId>, batch: seq<Pending>, later: bool): set<NodeId> {
    set p | p in batch && p.id in nulls && (p.pages > 0 <==> later) :: p.id
  }

  function NewNulls(provider: Provider, call: nat, batch: seq<Pending>, later: bool): set<NodeId> {
    match provider.outcome(call, Ids(batch))
    case Answered(nulls) => NullIds(nulls, batch, later)
    case _ => {}
  }

  function NulledIds(provider: Provider, first: nat, asked: seq<seq<Pending>>, later: bool): set<NodeId> {
    if asked == [] then {}
    else
      var n := |asked| - 1;
      NulledIds(provider, first, asked[..n], later) + NewNulls(provider, first + n, asked[n], later)
  }

  lemma {:induction false} NulledIdsMeaning(provider: Provider, first: nat, asked: seq<seq<Pending>>, id: NodeId,
      later: bool)
    ensures id in NulledIds(provider, first, asked, later) <==> Nulled(provider, first, asked, id, later)
  {
    hide Ids, NullAnswer;
    if asked != [] {
      var n := |asked| - 1;
      var init := asked[..n];
      NulledIdsMeaning(provider, first, init, id, later);
      NewNullsMeaning(provider, first + n, asked[n], id, later);
      if k, i :| 0 <= k < |init| && 0 <= i < |init[k]| && init[k][i].id == id && (init[k][i].pages > 0 <==> later)
                 && NullAnswer(provider, first + k, init[k], id) {
        assert asked[k] == init[k];
      }
      if k, i :| 0 <= k < |asked| && 0 <= i < |asked[k]| && asked[k][i].id == id && (asked[k][i].pages > 0 <==> later)
                 && NullAnswer(provider, first + k, asked[k], id) {
        if k < n { assert init[k] == asked[k] && NullAnswer(provider, first + k, init[k], id); }
      }
    }
  }

  lemma NewNullsMeaning(provider: Provider, call: nat, batch: seq<Pending>, id: NodeId, later: bool)
    ensures id in NewNulls(provider, call, batch, later)
            <==> NullAnswer(provider, call, batch, id)
                 && exists i :: 0 <= i < |batch| && batch[i].id == id && (batch[i].pages > 0 <==> later)
  {
    hide Ids;
  }

  /**
   * Every id is accounted for: waiting, fetched, or dropped at its first page; and a timeline no longer
   * waiting was cut short exactly when a later page of it was dropped.
   */
  ghost predicate Explained(ids: seq<NodeId>, queue: seq<Pending>, results: map<NodeId, Detail>, early: set<NodeId>,
      late: set<NodeId>) {
    && (forall id :: id in ids <==> id in results || InQueue(queue, id) || id in early)
    && (forall id :: id in early ==> id !in results && !InQueue(queue, id))
    && (forall id :: InQueue(queue, id) ==> id !in late)
    && (forall id :: id in late ==> id in results)
    && (forall id :: id in results && !InQueue(queue, id) ==> (Interrupted(results[id]) <==> id in late))
  }

  predicate DistinctIds(queue: seq<Pending>) {
    forall i, j :: 0 <= i < j < |queue| ==> queue[i].id != queue[j].id
  }

  lemma HeadNotInTail(p: Pending, others: seq<Pending>)
    requires DistinctIds([p] + others)
    ensures !InQueue(others, p.id)
  {
    var all := [p] + others;
    assert all[0] == p && forall i :: 0 <= i < |others| ==> all[i + 1] == others[i];
  }

  /** One page taken in keeps everything explained. */
  lemma PageExplained(ids: seq<NodeId>, p: Pending, others: seq<Pending>, next: Option<Pending>,
      before: map<NodeId, Detail>, after: map<NodeId, Detail>, early: set<NodeId>, late: set<NodeId>, isNull: bool)
    requires Explained(ids, [p] + others, before, early, late) && DistinctIds([p] + others)
    requires if p.pages == 0 then p.id !in before else p.id in before && Interrupted(before[p.id])
    requires next.Some? ==> next.value.id == p.id
    requires isNull ==> next.None? && after == before
    requires !isNull ==> p.id in after && after == before[p.id := after[p.id]]
    requires !isNull && next.None? ==> !Interrupted(after[p.id])
    ensures Explained(ids, others + AsSeq(next), after,
                      early + (if isNull && p.pages == 0 then {p.id} else {}),
                      late + (if isNull && p.pages > 0 then {p.id} else {}))
  {
    hide InQueue, Interrupted;
    HeadNotInTail(p, others);
    InQueueAppend([p], others);
    InQueueOne(p);
    InQueueAppend(others, AsSeq(next));
    if next.Some? { InQueueOne(next.value); } else { NobodyQueued(); }
  }

  lemma NobodyQueued()
    ensures forall id :: !InQueue([], id)
  {
  }

  lemma NullIdsStep(nulls: set<NodeId>, batch: seq<Pending>, i: nat, later: bool)
    requires 0 < i <= |batch|
    ensures NullIds(nulls, batch[..i], later)
            == NullIds(nulls, batch[..i - 1], later)
               + (if batch[i - 1].id in nulls && (batch[i - 1].pages > 0 <==> later) then {batch[i - 1].id} else {})
  {
    assert batch[..i] == batch[..i - 1] + [batch[i - 1]];
  }

  lemma {:induction false} BatchExplained(provider: Provider, first: nat, call: nat, previous: map<NodeId, Resume>,
      nulls: set<NodeId>, ids: seq<NodeId>, batch: seq<Pending>, rest: seq<Pending>, before: map<NodeId, Detail>,
      early: set<NodeId>, late: set<NodeId>, i: nat)
    requires i <= |batch| && first <= call && Accounted(provider, first, call, previous, batch + rest, before)
    requires Explained(ids, batch + rest, before, early, late)
    ensures var taken := TakenIn(provider, call, nulls, batch[..i], rest, before);
            && Accounted(provider, first, call, previous, batch[i..] + taken.0, taken.1)
            && Explained(ids, batch[i..] + taken.0, taken.1,
                         early + NullIds(nulls, batch[..i], false), late + NullIds(nulls, batch[..i], true))
  {
    hide PageOf, Received, Accounted, Explained, TakenIn, NullIds, Fetched;
    if i == 0 {
      NothingTaken(provider, call, nulls, batch, rest, before);
    } else {
      BatchExplained(provider, first, call, previous, nulls, ids, batch, rest, before, early, late, i - 1);
      var earlier := TakenIn(provider, call, nulls, batch[..i - 1], rest, before);
      var p := batch[i - 1];
      var next := TakenStep(provider, call, nulls, batch, rest, before, i);
      var taken := TakenIn(provider, call, nulls, batch[..i], rest, before);
      var others := batch[i..] + earlier.0;
      assert batch[i - 1..] + earlier.0 == [p] + others;
      assert batch[i..] + taken.0 == others + AsSeq(next);
      NullIdsStep(nulls, batch, i, false);
      NullIdsStep(nulls, batch, i, true);
      OneTaken(provider, first, call, previous, nulls, ids, p, others, earlier.1, next, taken.1,
               early + NullIds(nulls, batch[..i - 1], false), late + NullIds(nulls, batch[..i - 1], true));
      assert early + NullIds(nulls, batch[..i], false)
        == early + NullIds(nulls, batch[..i - 1], false) + (if p.id in nulls && p.pages == 0 then {p.id} else {});
      assert late + NullIds(nulls, batch[..i], true)
        == late + NullIds(nulls, batch[..i - 1], true) + (if p.id in nulls && p.pages > 0 then {p.id} else {});
    }
  }

  lemma NothingTaken(provider: Provider, call: nat, nulls: set<NodeId>, batch: seq<Pending>, rest: seq<Pending>,
      before: map<NodeId, Detail>)
    ensures TakenIn(provider, call, nulls, batch[..0], rest, before) == (rest, before)
    ensures batch[0..] == batch && NullIds(nulls, batch[..0], false) == {} == NullIds(nulls, batch[..0], true)
    ensures forall s: set<NodeId> :: s + {} == s
  {
  }

  lemma OneTaken(provider: Provider, first: nat, call: nat, previous: map<NodeId, Resume>, nulls: set<NodeId>,
      ids: seq<NodeId>, p: Pending, others: seq<Pending>, before: map<NodeId, Detail>, next: Option<Pending>,
      after: map<NodeId, Detail>, early: set<NodeId>, late: set<NodeId>)
    requires first <= call && Accounted(provider, first, call, previous, [p] + others, before)
    requires Explained(ids, [p] + others, before, early, late)
    requires var r := Received(p, PageOf(provider, call, p), SoFar(before, p));
             if p.id in nulls then next.None? && after == before else next == r.1 && after == before[p.id := r.0]
    ensures Accounted(provider, first, call, previous, others + AsSeq(next), after)
    ensures Explained(ids, others + AsSeq(next), after,
                      early + (if p.id in nulls && p.pages == 0 then {p.id} else {}),
                      late + (if p.id in nulls && p.pages > 0 then {p.id} else {}))
  {
    hide Explained, Accounted, PageOf, Fetched, Waiting;
    HeadWaits(provider, first, call, previous, p, others, before);
    assert others + [] == others;
    if p.id in nulls {
      DropNull(provider, first, call, previous, p, others, before);
    } else {
      TakeIn(provider, first, call, previous, p, others, before);
      NotInterrupted(provider, call, previous, p, before);
    }
    PageExplained(ids, p, others, next, before, after, early, late, p.id in nulls);
  }

  lemma HeadWaits(provider: Provider, first: nat, call: nat, previous: map<NodeId, Resume>, p: Pending,
      others: seq<Pending>, before: map<NodeId, Detail>)
    requires Accounted(provider, first, call, previous, [p] + others, before)
    ensures DistinctIds([p] + others) && Waiting(provider, call, previous, before, p)
    ensures if p.pages == 0 then p.id !in before else p.id in before && Interrupted(before[p.id])
  {
    hide Fetched;
    assert ([p] + others)[0] == p;
  }

  /** A page that is not null completes its timeline, is followed by another, or leaves a cursor to resume at. */
  lemma NotInterrupted(provider: Provider, call: nat, previous: map<NodeId, Resume>, p: Pending,
      before: map<NodeId, Detail>)
    requires Waiting(provider, call, previous, before, p)
    ensures var r := Received(p, PageOf(provider, call, p), SoFar(before, p));
            && (r.1.None? ==> !Interrupted(r.0)) && (r.1.Some? ==> r.1.value.id == p.id)
  {
    hide PageOf, Waiting;
    PageGrows(provider, call, previous, before, p);
  }

  // ---- Every fetch --------------------------------------------------------------------------------------

  /** The pull requests asked about, each once, and cursors within what the provider shows. */
  ghost predicate Askable(provider: Provider, first: nat, ids: seq<NodeId>, previous: map<NodeId, Resume>) {
    && Growing(provider)
    && (forall i, j :: 0 <= i < j < |ids| ==> ids[i] != ids[j])
    && (forall i :: 0 <= i < |ids| ==>
          StartOf(previous, ids[i]).cursor <= |provider.visible(first, ids[i], StartOf(previous, ids[i]).since)|)
  }

  ghost predicate Sound(provider: Provider, first: nat, ids: seq<NodeId>, previous: map<NodeId, Resume>, s: Fetch) {
    && Accounted(provider, first, first + |s.asked|, previous, s.queue, s.results)
    && Explained(ids, s.queue, s.results,
                 NulledIds(provider, first, s.asked, false), NulledIds(provider, first, s.asked, true))
    && (s.failed <==> GaveUp(provider, first, s.asked))
    && s.batchSize >= 1
  }

  lemma StartSound(provider: Provider, first: nat, ids: seq<NodeId>, previous: map<NodeId, Resume>, batchLimit: nat)
    requires Askable(provider, first, ids, previous) && 1 <= batchLimit
    ensures Sound(provider, first, ids, previous, Start(ids, previous, batchLimit))
  {
    hide Fetched;
    var queue := FirstPages(ids, previous);
    forall id ensures InQueue(queue, id) <==> id in ids {
      if id in ids {
        var i :| 0 <= i < |ids| && ids[i] == id;
        assert queue[i].id == id;
      }
    }
  }

  lemma NulledIdsStep(provider: Provider, first: nat, asked: seq<seq<Pending>>, batch: seq<Pending>, later: bool)
    ensures NulledIds(provider, first, asked + [batch], later)
            == NulledIds(provider, first, asked, later) + NewNulls(provider, first + |asked|, batch, later)
  {
    hide NewNulls;
    assert (asked + [batch])[..|asked|] == asked;
  }

  lemma NextSound(provider: Provider, first: nat, ids: seq<NodeId>, previous: map<NodeId, Resume>, s: Fetch)
    requires Growing(provider) && Sound(provider, first, ids, previous, s)
    ensures Sound(provider, first, ids, previous, Next(provider, first, s))
  {
    hide Accounted, Explained, TakenIn, Growing, Ids, NullIds, NulledIds;
    if !Stopped(s) {
      var next, call := Next(provider, first, s), first + |s.asked|;
      var batch, rest := s.queue[..Least(|s.queue|, s.batchSize)], s.queue[Least(|s.queue|, s.batchSize)..];
      assert batch + rest == s.queue && next.asked == s.asked + [batch];
      NulledIdsStep(provider, first, s.asked, batch, false);
      NulledIdsStep(provider, first, s.asked, batch, true);
      var early, late := NulledIds(provider, first, s.asked, false), NulledIds(provider, first, s.asked, true);
      if provider.outcome(call, Ids(batch)).Answered? {
        var nulls := provider.outcome(call, Ids(batch)).nulls;
        BatchExplained(provider, first, call, previous, nulls, ids, batch, rest, s.results, early, late, |batch|);
        assert batch[..|batch|] == batch && batch[|batch|..] + next.queue == next.queue;
      } else {
        assert early + {} == early && late + {} == late;
      }
      LaterCall(provider, first, call, previous, next.queue, next.results);
    }
  }

  lemma {:induction false} AfterSound(provider: Provider, first: nat, ids: seq<NodeId>, previous: map<NodeId, Resume>,
      batchLimit: nat, n: nat)
    requires Askable(provider, first, ids, previous) && 1 <= batchLimit
    ensures Sound(provider, first, ids, previous, After(provider, first, Start(ids, previous, batchLimit), n))
  {
    hide Sound, Next, Start;
    if n == 0 {
      StartSound(provider, first, ids, previous, batchLimit);
    } else {
      AfterSound(provider, first, ids, previous, batchLimit, n - 1);
      NextSound(provider, first, ids, previous, After(provider, first, Start(ids, previous, batchLimit), n - 1));
    }
  }

  /**
   * What a fetch returns. It gives up exactly when the last batch it asked for failed, or timed out with one
   * id. Otherwise an id is missing exactly when its first page was answered with null; every timeline
   * returned is what `Fetched` says, and was cut short exactly when a later page of it was answered with null.
   */
  lemma FetchExplained(provider: Provider, first: nat, ids: seq<NodeId>, previous: map<NodeId, Resume>, batchLimit: nat,
      requests: nat, id: NodeId)
    requires Askable(provider, first, ids, previous) && 1 <= batchLimit
    requires Stopped(After(provider, first, Start(ids, previous, batchLimit), requests))
    ensures var end := After(provider, first, Start(ids, previous, batchLimit), requests);
            && (end.failed <==> GaveUp(provider, first, end.asked))
            && (!end.failed ==>
                  && (id in end.results <==> id in ids && !Nulled(provider, first, end.asked, id, false))
                  && (Nulled(provider, first, end.asked, id, true) ==> id in end.results)
                  && (forall start :: id in end.results && ResumedAt(previous, id, start) ==>
                        Fetched(provider, first, first + |end.asked|, id, start, end.results[id]))
                  && (id in end.results ==>
                        && (Interrupted(end.results[id]) <==> Nulled(provider, first, end.asked, id, true))))
  {
    hide Nulled, NulledIds, GaveUp, After, Fetched, Waiting, StartOf;
    AfterSound(provider, first, ids, previous, batchLimit, requests);
    var end := After(provider, first, Start(ids, previous, batchLimit), requests);
    NulledIdsMeaning(provider, first, end.asked, id, false);
    NulledIdsMeaning(provider, first, end.asked, id, true);
    NobodyQueued();
    ResumedAtStart(previous, id);
  }

  lemma ResumedAtStart(previous: map<NodeId, Resume>, id: NodeId)
    ensures forall start :: ResumedAt(previous, id, start) <==> start == StartOf(previous, id)
  {
  }

  // ---- Over successive polls ------------------------------------------------------------------------

  /** Where a timeline stands between polls, with the pieces fetched since `since` last moved. */
  datatype Progress = Progress(since: Since, cursor: nat, pieces: seq<seq<Item>>)

  function Flatten(pieces: seq<seq<Item>>): seq<Item> {
    if pieces == [] then [] else Flatten(pieces[..|pieces| - 1]) + pieces[|pieces| - 1]
  }

  /** Only a complete fetch moves `since`; anything else keeps it, with the cursor the fetch ended at. */
  function AfterPoll(p: Progress, d: Option<Detail>, completedSince: Since): Progress {
    if d.None? then p
    else if d.value.complete then Progress(completedSince, 0, [])
    else Progress(d.value.since, d.value.cursor, p.pieces + [d.value.timeline])
  }

  /** The pieces so far are exactly the timeline up to the cursor. */
  predicate InStep(provider: Provider, call: nat, id: NodeId, p: Progress) {
    var items := provider.visible(call, id, p.since);
    p.cursor <= |items| && Flatten(p.pieces) == items[..p.cursor]
  }

  lemma FlattenAppend(pieces: seq<seq<Item>>, piece: seq<Item>)
    ensures Flatten(pieces + [piece]) == Flatten(pieces) + piece
  {
    assert (pieces + [piece])[..|pieces|] == pieces;
  }

  lemma FetchedContinues(provider: Provider, id: NodeId, p: Progress, first: nat, last: nat, d: Detail, next: Since)
    requires Growing(provider) && first <= last && InStep(provider, first, id, p)
    requires Fetched(provider, first, last, id, Resume(p.since, p.cursor), d)
    ensures d.complete ==> ToTheEnd(provider, first, last, id, p.since, p.cursor + |d.timeline|)
                           && Flatten(p.pieces + [d.timeline])
                              == provider.visible(last, id, p.since)[..p.cursor + |d.timeline|]
    ensures !d.complete ==> AfterPoll(p, Some(d), next).since == p.since
    ensures !d.complete ==> (InStep(provider, last, id, AfterPoll(p, Some(d), next)) <==> !Interrupted(d))
  {
    GrownBetween(provider, first, last, id, p.since);
    FlattenAppend(p.pieces, d.timeline);
    var items := provider.visible(last, id, p.since);
    assert items[..p.cursor] + items[p.cursor..p.cursor + |d.timeline|] == items[..p.cursor + |d.timeline|];
    assert Flatten(p.pieces) == items[..p.cursor];
  }

  /** One poll's fetch: when it started, what it asked about from where, and how many requests it took. */
  datatype Poll = Poll(first: nat, ids: seq<NodeId>, previous: map<NodeId, Resume>, batchLimit: nat, requests: nat)

  function EndOf(provider: Provider, poll: Poll): Fetch {
    After(provider, poll.first, Start(poll.ids, poll.previous, poll.batchLimit), poll.requests)
  }

  function LastCall(provider: Provider, poll: Poll): nat {
    poll.first + |EndOf(provider, poll).asked|
  }

  /** What the poll returns for a timeline; a fetch that gave up returns nothing. */
  function DetailOf(provider: Provider, poll: Poll, id: NodeId): Option<Detail> {
    var end := EndOf(provider, poll);
    if end.failed then None else if id in end.results then Some(end.results[id]) else None
  }

  /** The poll ran to its end, and asked for this timeline, if it did, from where it stood. */
  ghost predicate Polled(provider: Provider, poll: Poll, id: NodeId, p: Progress) {
    && Askable(provider, poll.first, poll.ids, poll.previous) && 1 <= poll.batchLimit && Stopped(EndOf(provider, poll))
    && (id in poll.ids ==> ResumedAt(poll.previous, id, Resume(p.since, p.cursor)))
  }

  /** The poll was answered with null for a page of this timeline after the first. */
  ghost predicate CutShort(provider: Provider, poll: Poll, id: NodeId) {
    var end := EndOf(provider, poll);
    !end.failed && Nulled(provider, poll.first, end.asked, id, true)
  }

  /**
   * A poll that reaches the end of a timeline completes it. Any other keeps `since`, and the next poll
   * continues exactly where this one stopped, unless, and only unless, a page after the first came back
   * null: then what was fetched is fetched again from the start of the timeline.
   */
  lemma PollContinues(provider: Provider, poll: Poll, id: NodeId, p: Progress, next: Since)
    requires Polled(provider, poll, id, p) && InStep(provider, poll.first, id, p)
    ensures var d, last := DetailOf(provider, poll, id), LastCall(provider, poll);
            if d.Some? && d.value.complete then
              && ToTheEnd(provider, poll.first, last, id, p.since, p.cursor + |d.value.timeline|)
              && Flatten(p.pieces + [d.value.timeline])
                 == provider.visible(last, id, p.since)[..p.cursor + |d.value.timeline|]
              && !CutShort(provider, poll, id)
              && AfterPoll(p, d, next).since == next && AfterPoll(p, d, next).cursor == 0
            else
              && AfterPoll(p, d, next).since == p.since
              && (InStep(provider, last, id, AfterPoll(p, d, next)) <==> !CutShort(provider, poll, id))
  {
    hide Fetched, Nulled, After, StartOf, InStep, ToTheEnd;
    FetchExplained(provider, poll.first, poll.ids, poll.previous, poll.batchLimit, poll.requests, id);
    var d, last := DetailOf(provider, poll, id), LastCall(provider, poll);
    if d.None? {
      StillInStep(provider, id, p, poll.first, last);
    } else {
      CompleteMeans(provider, poll.first, last, id, Resume(p.since, p.cursor), d.value);
      FetchedContinues(provider, id, p, poll.first, last, d.value, next);
    }
  }

  lemma StillInStep(provider: Provider, id: NodeId, p: Progress, first: nat, last: nat)
    requires Growing(provider) && first <= last && InStep(provider, first, id, p)
    ensures InStep(provider, last, id, p)
  {
    GrownBetween(provider, first, last, id, p.since);
  }

  lemma CompleteMeans(provider: Provider, first: nat, last: nat, id: NodeId, start: Resume, d: Detail)
    requires Fetched(provider, first, last, id, start, d)
    ensures d.complete ==> !Interrupted(d)
    ensures d.since == start.since
  {
  }

  /** Successive polls of one timeline, none of which completes it or is cut short. */
  ghost predicate Resuming(provider: Provider, id: NodeId, at: nat, p: Progress, polls: seq<Poll>)
    decreases |polls|
  {
    polls == [] ||
    var d := DetailOf(provider, polls[0], id);
    (&& at <= polls[0].first && Polled(provider, polls[0], id, p) && !CutShort(provider, polls[0], id)
     && (d.Some? ==> !d.value.complete)
     && Resuming(provider, id, LastCall(provider, polls[0]), AfterPoll(p, d, p.since), polls[1..]))
  }

  function ProgressAfter(provider: Provider, id: NodeId, p: Progress, polls: seq<Poll>): Progress
    decreases |polls|
  {
    if polls == [] then p
    else ProgressAfter(provider, id, AfterPoll(p, DetailOf(provider, polls[0], id), p.since), polls[1..])
  }

  function CallAfter(provider: Provider, at: nat, polls: seq<Poll>): nat {
    if polls == [] then at else LastCall(provider, polls[|polls| - 1])
  }

  lemma {:induction false} ResumingInStep(provider: Provider, id: NodeId, at: nat, p: Progress, polls: seq<Poll>)
    requires Growing(provider) && Resuming(provider, id, at, p, polls) && InStep(provider, at, id, p)
    ensures InStep(provider, CallAfter(provider, at, polls), id, ProgressAfter(provider, id, p, polls))
    ensures ProgressAfter(provider, id, p, polls).since == p.since
    decreases |polls|
  {
    hide InStep, Polled, CutShort, EndOf, AfterPoll, DetailOf;
    if polls != [] {
      StillInStep(provider, id, p, at, polls[0].first);
      PollContinues(provider, polls[0], id, p, p.since);
      var after := AfterPoll(p, DetailOf(provider, polls[0], id), p.since);
      ResumingInStep(provider, id, LastCall(provider, polls[0]), after, polls[1..]);
    }
  }

  /**
   * The pieces of a timeline fetched over any number of polls, concatenated in order, are exactly the
   * timeline the provider showed when the last poll reached its end: every item once, none skipped.
   */
  lemma TimelineFetchedOnce(provider: Provider, id: NodeId, at: nat, since: Since, polls: seq<Poll>, final: Poll)
    requires Growing(provider) && Resuming(provider, id, at, Progress(since, 0, []), polls)
    requires var p, d := ProgressAfter(provider, id, Progress(since, 0, []), polls), DetailOf(provider, final, id);
             && CallAfter(provider, at, polls) <= final.first && Polled(provider, final, id, p)
             && d.Some? && d.value.complete
    ensures var p, d := ProgressAfter(provider, id, Progress(since, 0, []), polls), DetailOf(provider, final, id);
            exists call: nat :: final.first <= call <= LastCall(provider, final)
              && Flatten(p.pieces + [d.value.timeline]) == provider.visible(call, id, since)
  {
    hide Resuming, Polled, CutShort, EndOf, InStep, ProgressAfter;
    var start := Progress(since, 0, []);
    InStepAtStart(provider, at, id, since);
    ResumingInStep(provider, id, at, start, polls);
    var p, d := ProgressAfter(provider, id, start, polls), DetailOf(provider, final, id).value;
    StillInStep(provider, id, p, CallAfter(provider, at, polls), final.first);
    PollContinues(provider, final, id, p, since);
    var last := LastCall(provider, final);
    var call: nat :| final.first <= call <= last
      && provider.visible(call, id, since) == provider.visible(last, id, since)[..p.cursor + |d.timeline|];
  }

  lemma InStepAtStart(provider: Provider, at: nat, id: NodeId, since: Since)
    ensures InStep(provider, at, id, Progress(since, 0, []))
  {
  }

  // ---- A timeline that does not change --------------------------------------------------------------------

  /** Shows the same timeline at every request and answers them all. */
  function Steady(items: seq<Item>): Provider {
    Provider((call: nat, id: NodeId, since: Since) => items, (call: nat, batch: seq<NodeId>) => Answered({}))
  }

  /** The fetch of one timeline after k full pages, with more to come. */
  function Underway(items: seq<Item>, id: NodeId, start: Resume, k: nat): Fetch
    requires start.cursor + 100 * k <= |items|
  {
    Fetch([Pending(id, start.since, start.cursor + 100 * k, k)],
          if k == 0 then map[]
          else map[id := Detail(items[start.cursor..start.cursor + 100 * k], start.since, 0, false)],
          1, seq(k, (j: nat) => [Pending(id, start.since, start.cursor + 100 * j, j)]), false)
  }

  lemma {:induction false} SteadyPages(items: seq<Item>, id: NodeId, previous: map<NodeId, Resume>, start: Resume,
      first: nat, k: nat)
    requires ResumedAt(previous, id, start) && start.cursor <= |items| && k <= 9
    requires k > 0 ==> start.cursor + 100 * k < |items|
    ensures After(Steady(items), first, Start([id], previous, 1), k) == Underway(items, id, start, k)
  {
    hide Next, Received, PageOf;
    if k == 0 {
      AfterNone(Steady(items), first, Start([id], previous, 1));
      assert Start([id], previous, 1).queue == [Pending(id, start.since, start.cursor, 0)];
    } else {
      SteadyPages(items, id, previous, start, first, k - 1);
      var s := Underway(items, id, start, k - 1);
      AfterOne(Steady(items), first, Start([id], previous, 1), k - 1);
      SteadyNext(items, id, start, first, k - 1);
    }
  }

  /** One more page of a steady timeline: there is another one after it, or ten are enough, or it is the last. */
  lemma SteadyNext(items: seq<Item>, id: NodeId, start: Resume, first: nat, k: nat)
    requires start.cursor + 100 * k <= |items| && k <= 9
    ensures var s, c := Next(Steady(items), first, Underway(items, id, start, k)), start.cursor;
            && (k < 9 && c + 100 * (k + 1) < |items| ==> s == Underway(items, id, start, k + 1))
            && (c + 100 * (k + 1) >= |items| ==>
                  && Stopped(s) && !s.failed && |s.asked| == k + 1
                  && s.results == map[id := Detail(items[c..], start.since, 0, true)])
            && (k == 9 && c + 1000 < |items| ==>
                  && Stopped(s) && !s.failed && |s.asked| == 10
                  && s.results == map[id := Detail(items[c..c + 1000], start.since, c + 1000, false)])
  {
    hide Next, Received, PageOf;
    var s := Underway(items, id, start, k);
    var p := s.queue[0];
    OneRequest(Steady(items), first, s, p, {});
    SteadyPage(items, id, start, first + |s.asked|, k);
    if k < 9 && start.cursor + 100 * (k + 1) < |items| {
      var more := Underway(items, id, start, k + 1);
      assert s.asked + [[p]] == more.asked;
    }
  }

  lemma SteadyPage(items: seq<Item>, id: NodeId, start: Resume, call: nat, k: nat)
    requires start.cursor + 100 * k <= |items| && k <= 9
    ensures var p, c := Pending(id, start.since, start.cursor + 100 * k, k), start.cursor;
            var soFar := if k == 0 then None else Some(Detail(items[c..c + 100 * k], start.since, 0, false));
            var r := Received(p, PageOf(Steady(items), call, p), soFar);
            if c + 100 * (k + 1) >= |items| then r == (Detail(items[c..], start.since, 0, true), None)
            else if k == 9 then r == (Detail(items[c..c + 1000], start.since, c + 1000, false), None)
            else r == (Detail(items[c..c + 100 * (k + 1)], start.since, 0, false),
                       Some(Pending(id, start.since, c + 100 * (k + 1), k + 1)))
  {
    var c, to := start.cursor, Least(start.cursor + 100 * (k + 1), |items|);
    assert items[c..c + 100 * k] + items[c + 100 * k..to] == items[c..to];
    assert [] + items[c..to] == items[c..to];
    if to == |items| { assert items[c..to] == items[c..]; }
  }

  /** How many pages a poll asks for when `left` items are left: ten at the most, and always one. */
  function PagesFor(left: nat): nat {
    if left > 1000 then 10 else if left <= 100 then 1 else (left + 99) / 100
  }

  /**
   * A poll of a timeline that does not change, resumed at any cursor, fetches all that is left when that is at
   * most a thousand items, and otherwise the next thousand, keeping the cursor after them.
   */
  lemma SteadyPoll(items: seq<Item>, id: NodeId, previous: map<NodeId, Resume>, start: Resume, first: nat)
    requires ResumedAt(previous, id, start) && start.cursor <= |items|
    ensures var c := start.cursor;
            var poll := Poll(first, [id], previous, 1, PagesFor(|items| - c));
            && Polled(Steady(items), poll, id, Progress(start.since, c, []))
            && LastCall(Steady(items), poll) == first + PagesFor(|items| - c)
            && DetailOf(Steady(items), poll, id)
               == Some(if |items| - c > 1000 then Detail(items[c..c + 1000], start.since, c + 1000, false)
                       else Detail(items[c..], start.since, 0, true))
  {
    hide Next, Start, Underway, Received, PageOf, Fetched;
    var k := PagesFor(|items| - start.cursor) - 1;
    SteadyPages(items, id, previous, start, first, k);
    SteadyNext(items, id, start, first, k);
    AfterOne(Steady(items), first, Start([id], previous, 1), k);
    ResumedAtStart(previous, id);
  }

  /** A timeline of more than a thousand items and at most two thousand is complete after two polls. */
  lemma TwoPollsComplete(items: seq<Item>, id: NodeId)
    requires 1000 < |items| <= 2000
    ensures var provider, start := Steady(items), Progress("", 0, []);
            var one := Poll(0, [id], map[], 1, 10);
            var two := Poll(10, [id], map[id := Resume("", 1000)], 1, PagesFor(|items| - 1000));
            var between := AfterPoll(start, DetailOf(provider, one, id), "");
            && Resuming(provider, id, 0, start, [one]) && between == Progress("", 1000, [items[..1000]])
            && Polled(provider, two, id, between) && DetailOf(provider, two, id).Some?
            && DetailOf(provider, two, id).value.complete
            && Flatten(between.pieces + [DetailOf(provider, two, id).value.timeline]) == items
  {
    hide Polled, CutShort, DetailOf, InStep, Resuming, Flatten, PagesFor;
    var provider, start := Steady(items), Progress("", 0, []);
    var previous := map[id := Resume("", 1000)];
    FirstOfTwo(items, id);
    SteadyPoll(items, id, previous, Resume("", 1000), 10);
    var between := Progress("", 1000, [items[..1000]]);
    PiecesOnly(provider, Poll(10, [id], previous, 1, PagesFor(|items| - 1000)), id, Progress("", 1000, []), between);
    FlattenTwo(items[..1000], items[1000..]);
  }

  lemma FirstOfTwo(items: seq<Item>, id: NodeId)
    requires 1000 < |items|
    ensures var provider, start, one := Steady(items), Progress("", 0, []), Poll(0, [id], map[], 1, 10);
            && Resuming(provider, id, 0, start, [one])
            && AfterPoll(start, DetailOf(provider, one, id), "") == Progress("", 1000, [items[..1000]])
  {
    hide Polled, CutShort, EndOf, InStep, Flatten;
    var provider, start, one := Steady(items), Progress("", 0, []), Poll(0, [id], map[], 1, 10);
    SteadyPoll(items, id, map[], Resume("", 0), 0);
    assert items[0..1000] == items[..1000] && [] + [items[..1000]] == [items[..1000]];
    InStepAtStart(provider, 0, id, "");
    PollContinues(provider, one, id, start, "");
    NextInStep(provider, id, items);
    assert [one][1..] == [] && [one][0] == one;
    assert Resuming(provider, id, 10, AfterPoll(start, DetailOf(provider, one, id), ""), []);
  }

  lemma NextInStep(provider: Provider, id: NodeId, items: seq<Item>)
    requires provider == Steady(items) && |items| >= 1000
    ensures InStep(provider, 10, id, Progress("", 1000, [items[..1000]]))
  {
    assert Flatten([items[..1000]]) == items[..1000] by {
      FlattenAppend([], items[..1000]);
      assert [] + [items[..1000]] == [items[..1000]];
    }
  }

  lemma PiecesOnly(provider: Provider, poll: Poll, id: NodeId, p: Progress, q: Progress)
    requires Polled(provider, poll, id, p) && p.since == q.since && p.cursor == q.cursor
    ensures Polled(provider, poll, id, q)
  {
  }

  lemma FlattenTwo(a: seq<Item>, b: seq<Item>)
    ensures Flatten([a] + [b]) == a + b
  {
    FlattenAppend([a], b);
    FlattenAppend([], a);
    assert [] + [a] == [a];
  }

  // ---- A null page after the first ----------------------------------------------------------------------

  /** Shows a timeline one item longer than a page, and answers everything but its first request with null. */
  const FORGETFUL := Provider(
    (call: nat, id: NodeId, since: Since) => seq(PAGE_SIZE + 1, i => "item"),
    (call: nat, batch: seq<NodeId>) => if call == 0 then Answered({}) else Answered({"pr"}))

  /** A first page, then null: nothing completes, no cursor is kept, and the next poll starts over. */
  lemma NullPageStartsOver()
    ensures var poll := Poll(0, ["pr"], map[], 1, 2);
            var d := DetailOf(FORGETFUL, poll, "pr");
            && Polled(FORGETFUL, poll, "pr", Progress("", 0, [])) && CutShort(FORGETFUL, poll, "pr")
            && d.Some? && |d.value.timeline| == PAGE_SIZE && AfterPoll(Progress("", 0, []), d, "").cursor == 0
            && !InStep(FORGETFUL, 2, "pr", AfterPoll(Progress("", 0, []), d, ""))
  {
    hide Fetched, Nulled, After, InStep, Start, StartOf, NullAnswer, GaveUp;
    var poll := Poll(0, ["pr"], map[], 1, 2);
    ForgetfulFetch();
    ForgetfulAskable();
    InStepAtStart(FORGETFUL, 0, "pr", "");
    FetchExplained(FORGETFUL, 0, ["pr"], map[], 1, 2, "pr");
    PollContinues(FORGETFUL, poll, "pr", Progress("", 0, []), "");
  }

  lemma ForgetfulAskable()
    ensures Askable(FORGETFUL, 0, ["pr"], map[]) && StartOf(map[], "pr") == Resume("", 0)
  {
  }

  /** A request for one page, alone in the queue. */
  lemma OneRequest(provider: Provider, first: nat, s: Fetch, p: Pending, nulls: set<NodeId>)
    requires s.queue == [p] && !s.failed && s.batchSize >= 1
    requires provider.outcome(first + |s.asked|, [p.id]) == Answered(nulls)
    ensures var r := Received(p, PageOf(provider, first + |s.asked|, p), SoFar(s.results, p));
            Next(provider, first, s)
            == if p.id in nulls then s.(queue := [], asked := s.asked + [[p]])
               else s.(queue := AsSeq(r.1), results := s.results[p.id := r.0], asked := s.asked + [[p]])
  {
    hide PageOf, Received;
    assert [p][..1] == [p] && [p][1..] == [] && [p][..0] == [] && Ids([p]) == [p.id];
    var r := Received(p, PageOf(provider, first + |s.asked|, p), SoFar(s.results, p));
    assert [] + AsSeq(r.1) == AsSeq(r.1);
    assert TakenIn(provider, first + |s.asked|, nulls, [p][..0], [], s.results) == ([], s.results);
  }

  lemma ForgetfulFetch()
    ensures var end := After(FORGETFUL, 0, Start(["pr"], map[], 1), 2);
            && Stopped(end) && !end.failed && |end.asked| == 2 && "pr" in end.results
            && Interrupted(end.results["pr"]) && |end.results["pr"].timeline| == PAGE_SIZE
  {
    hide PageOf, Received, Next, After, Start, Interrupted;
    var s0 := Start(["pr"], map[], 1);
    var p := Pending("pr", "", 0, 0);
    ForgetfulStart();
    ForgetfulPage();
    OneRequest(FORGETFUL, 0, s0, p, {});
    var s1 := Next(FORGETFUL, 0, s0);
    var second := s1.queue[0];
    assert s1.queue == [second];
    OneRequest(FORGETFUL, 0, s1, second, {"pr"});
    AfterNone(FORGETFUL, 0, s0);
    AfterOne(FORGETFUL, 0, s0, 0);
    AfterOne(FORGETFUL, 0, s0, 1);
  }

  lemma ForgetfulStart()
    ensures Start(["pr"], map[], 1) == Fetch([Pending("pr", "", 0, 0)], map[], 1, [], false)
  {
  }

  lemma ForgetfulPage()
    ensures var first := Pending("pr", "", 0, 0);
            var r := Received(first, PageOf(FORGETFUL, 0, first), None);
            && r.1 == Some(Pending("pr", "", PAGE_SIZE, 1)) && Interrupted(r.0) && |r.0.timeline| == PAGE_SIZE
  {
  }
}
