/** The outbox operations as the program runs them, each proved to have the effect of steps of the outbox. */
module OutboxStore {
  import opened Options
  import opened Outbox
  import opened Rfc3339
  import Text

  datatype CancelResult = CancelDone | CancelNotFound | CancelAlready(status: Status)

  predicate Distinct<T(==)>(s: seq<T>) {
    forall i, j :: 0 <= i < j < |s| ==> s[i] != s[j]
  }

  const MAX_CLAIMS := 100

  function Firsts(claims: seq<(Id, Token)>): (r: seq<Id>)
    ensures |r| == |claims| && forall i :: 0 <= i < |r| ==> r[i] == claims[i].0
  {
    seq(|claims|, i requires 0 <= i < |claims| => claims[i].0)
  }

  function Seconds(claims: seq<(Id, Token)>): (r: seq<Token>)
    ensures |r| == |claims| && forall i :: 0 <= i < |r| ==> r[i] == claims[i].1
  {
    seq(|claims|, i requires 0 <= i < |claims| => claims[i].1)
  }

  /** The claims of a batch of requests, one after the other. */
  function ClaimEach(db: Db, ids: seq<Id>, tokens: seq<Token>, worker: string, now: nat, leaseLength: int): Db
    requires |ids| == |tokens|
  {
    if ids == [] then db
    else
      var last := |ids| - 1;
      Apply(ClaimEach(db, ids[..last], tokens[..last], worker, now, leaseLength),
            Claim(ids[last], tokens[last], worker, now, leaseLength))
  }

  lemma NoneClaimed(db: Db, worker: string, now: nat, leaseLength: int)
    ensures ClaimEach(db, Firsts([]), Seconds([]), worker, now, leaseLength) == db
  {
  }

  lemma ClaimEachStep(db: Db, claims: seq<(Id, Token)>, claim: (Id, Token), worker: string, now: nat, leaseLength: int)
    ensures ClaimEach(db, Firsts(claims + [claim]), Seconds(claims + [claim]), worker, now, leaseLength)
            == Apply(ClaimEach(db, Firsts(claims), Seconds(claims), worker, now, leaseLength),
                     Claim(claim.0, claim.1, worker, now, leaseLength))
  {
    hide Apply;
    var more, n := claims + [claim], |claims|;
    assert Firsts(more)[..n] == Firsts(claims) && Seconds(more)[..n] == Seconds(claims);
  }

  function ReleaseEach(db: Db, claims: seq<Read>, worker: string, now: nat): Db {
    if claims == [] then db
    else
      var last := |claims| - 1;
      Apply(ReleaseEach(db, claims[..last], worker, now), Release(claims[last], worker, now))
  }

  function CancelEach(db: Db, ids: seq<Id>): Db {
    if ids == [] then db else Apply(CancelEach(db, ids[..|ids| - 1]), Cancel(ids[|ids| - 1]))
  }

  /** The worker still holds this claim, under this very token. */
  predicate StillHeld(rows: map<Id, Row>, claim: Read, worker: string) {
    && claim.id in rows && rows[claim.id].status == Claimed && rows[claim.id].token == Some(claim.token)
    && rows[claim.id].claimedBy == Some(worker)
  }

  /** A row is put back, after the backoff of a claim listed for it, exactly when one listed for it is still held. */
  ghost predicate ReleasedIfHeld(before: map<Id, Row>, after: map<Id, Row>, claims: seq<Read>, worker: string, now: nat)
  {
    && after.Keys == before.Keys
    && forall id :: id in before ==>
         if exists claim :: claim in claims && claim.id == id && StillHeld(before, claim, worker)
         then exists claim :: && claim in claims && claim.id == id && StillHeld(before, claim, worker)
                              && PutBack(before[id], after[id], now + RetryDelay(claim.row.attempts))
         else after[id] == before[id]
  }

  lemma {:induction false} ReleaseEachReleases(db: Db, claims: seq<Read>, worker: string, now: nat)
    ensures ReleasedIfHeld(db.rows, ReleaseEach(db, claims, worker, now).rows, claims, worker, now)
  {
    hide ReleasedIfHeld, Apply;
    if claims == [] {
      NothingReleased(db.rows, worker, now);
    } else {
      var init, last := claims[..|claims| - 1], claims[|claims| - 1];
      ReleaseEachReleases(db, init, worker, now);
      assert claims == init + [last];
      ReleasedOne(db.rows, ReleaseEach(db, init, worker, now), init, last, worker, now);
    }
  }

  lemma NothingReleased(rows: map<Id, Row>, worker: string, now: nat)
    ensures ReleasedIfHeld(rows, rows, [], worker, now)
  {
  }

  lemma ReleasedOne(before: map<Id, Row>, db: Db, init: seq<Read>, last: Read, worker: string, now: nat)
    requires ReleasedIfHeld(before, db.rows, init, worker, now)
    ensures ReleasedIfHeld(before, Apply(db, Release(last, worker, now)).rows, init + [last], worker, now)
  {
    hide RetryDelay, PutBack, StillHeld;
    var after, claims := Apply(db, Release(last, worker, now)).rows, init + [last];
    OneRelease(db, last, worker, now);
    assert last in claims && forall claim :: claim in claims <==> claim in init || claim == last;
    if last.id in before {
      var id := last.id;
      if exists claim :: claim in init && claim.id == id && StillHeld(before, claim, worker) {
        var claim :| && claim in init && claim.id == id && StillHeld(before, claim, worker)
                     && PutBack(before[id], db.rows[id], now + RetryDelay(claim.row.attempts));
        PutBackIsNotHeld(before, db.rows, last, worker, now + RetryDelay(claim.row.attempts));
      }
    }
    SameHeld(before, db.rows, last, worker);
  }

  lemma SameHeld(before: map<Id, Row>, rows: map<Id, Row>, claim: Read, worker: string)
    ensures claim.id in before && claim.id in rows && rows[claim.id] == before[claim.id] ==>
      (StillHeld(rows, claim, worker) <==> StillHeld(before, claim, worker))
    ensures claim.id !in before ==> !StillHeld(before, claim, worker)
  {
  }

  lemma PutBackIsNotHeld(before: map<Id, Row>, rows: map<Id, Row>, claim: Read, worker: string, availableAt: nat)
    requires claim.id in before && claim.id in rows && PutBack(before[claim.id], rows[claim.id], availableAt)
    ensures !StillHeld(rows, claim, worker)
  {
  }

  lemma OneRelease(db: Db, claim: Read, worker: string, now: nat)
    ensures var after := Apply(db, Release(claim, worker, now)).rows;
            && OthersKept(db.rows, after, claim.id)
            && (StillHeld(db.rows, claim, worker) ==>
                  PutBack(db.rows[claim.id], after[claim.id], now + RetryDelay(claim.row.attempts)))
            && (!StillHeld(db.rows, claim, worker) ==> after == db.rows)
  {
    hide RetryDelay;
  }

  /** Releasing every claim one worker holds, whatever its lease. */
  function ReleasedRows(rows: map<Id, Row>, worker: string, now: nat): map<Id, Row> {
    map id | id in rows ::
      if rows[id].status == Claimed && rows[id].claimedBy == Some(worker) && rows[id].token.Some?
      then Returned(rows[id], now + RetryDelay(rows[id].attempts)) else rows[id]
  }

  predicate HeldBy(rows: map<Id, Row>, worker: string, id: Id) {
    id in rows && rows[id].status == Claimed && rows[id].claimedBy == Some(worker) && rows[id].token.Some?
  }

  /** `claims` is what listing the worker's claims reads. */
  predicate ClaimsOf(rows: map<Id, Row>, worker: string, claims: seq<Read>) {
    && (forall i :: 0 <= i < |claims| ==>
          HeldBy(rows, worker, claims[i].id) &&
            claims[i] == Read(claims[i].id, rows[claims[i].id].token.value, rows[claims[i].id]))
    && (forall i, j :: 0 <= i < j < |claims| ==> claims[i].id != claims[j].id)
    && (forall id :: id in rows && HeldBy(rows, worker, id) ==> exists i :: 0 <= i < |claims| && claims[i].id == id)
  }

  function IdsOf(claims: seq<Read>): set<Id> {
    set claim | claim in claims :: claim.id
  }

  function ReleasedSome(rows: map<Id, Row>, ids: set<Id>, now: nat): map<Id, Row> {
    map id | id in rows :: if id in ids then Returned(rows[id], now + RetryDelay(rows[id].attempts)) else rows[id]
  }

  lemma ReleasedOneMore(rows: map<Id, Row>, ids: set<Id>, id: Id, now: nat)
    requires id in rows
    ensures ReleasedSome(rows, ids + {id}, now)
            == ReleasedSome(rows, ids, now)[id := Returned(rows[id], now + RetryDelay(rows[id].attempts))]
  {
    hide Returned, RetryDelay;
  }

  lemma IdsOfStep(claims: seq<Read>, n: nat)
    requires 0 < n <= |claims| && forall i, j :: 0 <= i < j < |claims| ==> claims[i].id != claims[j].id
    ensures IdsOf(claims[..n]) == IdsOf(claims[..n - 1]) + {claims[n - 1].id}
    ensures claims[n - 1].id !in IdsOf(claims[..n - 1])
  {
    assert claims[..n] == claims[..n - 1] + [claims[n - 1]];
  }

  /** Released one by one with nothing in between, the listed claims are all released. */
  lemma {:induction false} ReleaseEachRows(db: Db, claims: seq<Read>, worker: string, now: nat, n: nat)
    requires ClaimsOf(db.rows, worker, claims) && n <= |claims|
    ensures ReleaseEach(db, claims[..n], worker, now) == db.(rows := ReleasedSome(db.rows, IdsOf(claims[..n]), now))
  {
    hide RetryDelay, Apply, Returned, IdsOf;
    if n == 0 {
      NoneReleased(db, claims, worker, now);
    } else {
      var id := claims[n - 1].id;
      ReleaseEachRows(db, claims, worker, now, n - 1);
      assert claims[..n][..n - 1] == claims[..n - 1];
      assert HeldBy(db.rows, worker, id);
      IdsOfStep(claims, n);
      ReleaseHeld(ReleaseEach(db, claims[..n - 1], worker, now), claims[n - 1], worker, now);
      ReleasedOneMore(db.rows, IdsOf(claims[..n - 1]), id, now);
    }
  }

  lemma NoneReleased(db: Db, claims: seq<Read>, worker: string, now: nat)
    ensures ReleaseEach(db, claims[..0], worker, now) == db.(rows := ReleasedSome(db.rows, IdsOf(claims[..0]), now))
  {
    hide RetryDelay, Returned;
    assert ReleasedSome(db.rows, IdsOf(claims[..0]), now) == db.rows;
  }

  lemma ReleaseHeld(db: Db, claim: Read, worker: string, now: nat)
    requires claim.id in db.rows && db.rows[claim.id] == claim.row && HeldBy(db.rows, worker, claim.id)
    requires db.rows[claim.id].token == Some(claim.token)
    ensures Apply(db, Release(claim, worker, now))
            == db.(rows := db.rows[claim.id := Returned(claim.row, now + RetryDelay(claim.row.attempts))])
  {
    hide RetryDelay, Returned;
  }

  lemma ReleasedAll(db: Db, claims: seq<Read>, worker: string, now: nat)
    requires ClaimsOf(db.rows, worker, claims)
    ensures ReleaseEach(db, claims, worker, now) == db.(rows := ReleasedRows(db.rows, worker, now))
  {
    hide RetryDelay, ReleaseEach, Returned;
    ReleaseEachRows(db, claims, worker, now, |claims|);
    assert claims[..|claims|] == claims;
    assert forall id :: id in db.rows ==> (HeldBy(db.rows, worker, id) <==> id in IdsOf(claims));
  }

  predicate ActiveOf(rows: map<Id, Row>, c: Connector, id: Id) {
    id in rows && rows[id].connector == c && Active(rows[id])
  }

  /** One by one in any order, cancelling a connector's active requests comes to the same. */
  lemma {:induction false} CancelEachRows(db: Db, ids: seq<Id>, c: Connector)
    requires Distinct(ids) && forall i :: 0 <= i < |ids| ==> ActiveOf(db.rows, c, ids[i])
    ensures var after := CancelEach(db, ids);
            && after.cursors == db.cursors && after.events == db.events && after.rows.Keys == db.rows.Keys
            && forall id :: id in db.rows ==>
                 after.rows[id]
                 == if id in ids then db.rows[id].(status := Cancelled, token := None, lease := None) else db.rows[id]
  {
    if ids != [] {
      var n := |ids| - 1;
      CancelEachRows(db, ids[..n], c);
      assert ids == ids[..n] + [ids[n]];
      assert ids[n] !in ids[..n];
    }
  }

  // ---- The query for claimable requests -------------------------------------------------------------

  /** `suits` is the filter on the task a request carries. */
  datatype Query = Query(now: nat, kind: Kind, connector: Option<Connector>, suits: Id -> bool, limit: nat)

  predicate Wanted(rows: map<Id, Row>, q: Query, id: Id) {
    && id in rows && Claimable(rows[id], q.now) && rows[id].kind == q.kind
    && (q.connector.Some? ==> rows[id].connector == q.connector.value) && q.suits(id)
  }

  /** ORDER BY available_at, created_at, id: all three are text. */
  predicate Sooner(rows: map<Id, Row>, a: Id, b: Id)
    requires a in rows && b in rows
  {
    var x, y := Format(rows[a].availableAt), Format(rows[b].availableAt);
    var s, t := Format(rows[a].createdAt), Format(rows[b].createdAt);
    Text.Less(x, y) || (x == y && (Text.Less(s, t) || (s == t && Text.Less(a, b))))
  }

  lemma SoonerTotal(rows: map<Id, Row>, a: Id, b: Id)
    requires a in rows && b in rows
    ensures Sooner(rows, a, b) || a == b || Sooner(rows, b, a)
    ensures !(Sooner(rows, a, b) && Sooner(rows, b, a))
  {
    hide Text.Less, Format;
    Text.LessTotal(Format(rows[a].availableAt), Format(rows[b].availableAt));
    Text.LessTotal(Format(rows[a].createdAt), Format(rows[b].createdAt));
    Text.LessTotal(a, b);
  }

  lemma SoonerTransitive(rows: map<Id, Row>, a: Id, b: Id, c: Id)
    requires a in rows && b in rows && c in rows && Sooner(rows, a, b) && Sooner(rows, b, c)
    ensures Sooner(rows, a, c)
  {
    hide Text.Less, Format;
    var x, y, z := Format(rows[a].availableAt), Format(rows[b].availableAt), Format(rows[c].availableAt);
    var s, t, u := Format(rows[a].createdAt), Format(rows[b].createdAt), Format(rows[c].createdAt);
    if Text.Less(x, y) && Text.Less(y, z) { Text.LessTransitive(x, y, z); }
    if Text.Less(s, t) && Text.Less(t, u) { Text.LessTransitive(s, t, u); }
    if Text.Less(a, b) && Text.Less(b, c) { Text.LessTransitive(a, b, c); }
  }

  /** The soonest wanted requests in order, up to the limit. */
  predicate Listed(rows: map<Id, Row>, q: Query, ids: seq<Id>) {
    && |ids| <= q.limit
    && (forall i :: 0 <= i < |ids| ==> ids[i] in rows && Wanted(rows, q, ids[i]))
    && (forall i, j :: 0 <= i < j < |ids| ==> Sooner(rows, ids[i], ids[j]))
    && (forall id :: id in rows && Wanted(rows, q, id) && id !in ids ==>
          |ids| == q.limit && forall i :: 0 <= i < |ids| ==> Sooner(rows, ids[i], id))
  }

  lemma ListedDistinct(rows: map<Id, Row>, q: Query, ids: seq<Id>)
    requires Listed(rows, q, ids)
    ensures Distinct(ids) && forall i :: 0 <= i < |ids| ==> ids[i] in rows && Claimable(rows[ids[i]], q.now)
  {
    hide Sooner, Claimable;
    forall i, j | 0 <= i < j < |ids| ensures ids[i] != ids[j] {
      assert Sooner(rows, ids[i], ids[j]);
      SoonerTotal(rows, ids[i], ids[i]);
    }
  }

  /** The query has one answer. */
  lemma ListedUnique(rows: map<Id, Row>, q: Query, a: seq<Id>, b: seq<Id>)
    requires Listed(rows, q, a) && Listed(rows, q, b)
    ensures a == b
  {
    hide Wanted, Sooner;
    if |a| <= |b| { ListedPrefix(rows, q, a, b, |a|); } else { ListedPrefix(rows, q, b, a, |b|); }
    if |a| < |b| {
      ListedLonger(rows, q, a, b);
    } else if |b| < |a| {
      ListedLonger(rows, q, b, a);
    }
  }

  lemma ListedLonger(rows: map<Id, Row>, q: Query, a: seq<Id>, b: seq<Id>)
    requires Listed(rows, q, a) && Listed(rows, q, b) && a <= b
    ensures a == b
  {
    hide Wanted, Sooner;
    if |a| < |b| {
      var id := b[|a|];
      assert Wanted(rows, q, id);
      if id in a {
        var i :| 0 <= i < |a| && a[i] == id;
        assert Sooner(rows, b[i], b[|a|]);
        SoonerTotal(rows, id, id);
      }
    }
  }

  lemma {:induction false} ListedPrefix(rows: map<Id, Row>, q: Query, a: seq<Id>, b: seq<Id>, n: nat)
    requires Listed(rows, q, a) && Listed(rows, q, b) && n <= |a| <= |b|
    ensures a[..n] == b[..n]
  {
    hide Wanted, Sooner;
    if n > 0 {
      ListedPrefix(rows, q, a, b, n - 1);
      var x, y := a[n - 1], b[n - 1];
      SoonerTotal(rows, x, y);
      if x != y {
        NotBefore(rows, q, a, b, n - 1);
        NotBefore(rows, q, b, a, n - 1);
      }
      assert a[..n] == a[..n - 1] + [x] && b[..n] == b[..n - 1] + [y];
    }
  }

  /** After a common prefix, neither list goes on with anything sooner than the other does. */
  lemma NotBefore(rows: map<Id, Row>, q: Query, a: seq<Id>, b: seq<Id>, n: nat)
    requires Listed(rows, q, a) && Listed(rows, q, b) && n < |a| && n < |b| && a[..n] == b[..n] && a[n] != b[n]
    ensures Sooner(rows, b[n], a[n])
  {
    hide Wanted, Sooner;
    var x := a[n];
    if x in b {
      var j :| 0 <= j < |b| && b[j] == x;
      if j < n {
        assert a[j] == a[..n][j] == b[..n][j] == x;
        assert Sooner(rows, a[j], a[n]);
        SoonerTotal(rows, x, x);
      }
    }
  }

  /** Of two requests the listing gives first the one that is due, or was made, or is named before the other. */
  predicate DueFirst(a: Id, x: Row, b: Id, y: Row) {
    || Before(x.availableAt, y.availableAt)
    || (Format(x.availableAt) == Format(y.availableAt)
        && (|| Before(x.createdAt, y.createdAt)
            || (Format(x.createdAt) == Format(y.createdAt) && Text.Less(a, b))))
  }

  predicate Eligible(row: Row, q: Query) {
    && row.status == Pending && !Before(q.now, row.availableAt) && row.kind == q.kind
    && (q.connector.Some? ==> row.connector == q.connector.value)
  }

  /** What is listed: eligible requests in order, and all of them unless the limit is reached. */
  lemma ListedMeans(rows: map<Id, Row>, q: Query, ids: seq<Id>)
    requires Listed(rows, q, ids)
    ensures |ids| <= q.limit
    ensures forall i :: 0 <= i < |ids| ==> ids[i] in rows && Eligible(rows[ids[i]], q) && q.suits(ids[i])
    ensures forall i, j :: 0 <= i < j < |ids| ==> DueFirst(ids[i], rows[ids[i]], ids[j], rows[ids[j]])
    ensures forall id :: id in rows && Eligible(rows[id], q) && q.suits(id) && id !in ids ==>
      |ids| == q.limit && forall i :: 0 <= i < |ids| ==> DueFirst(ids[i], rows[ids[i]], id, rows[id])
  {
    hide Text.Less, Format;
    assert forall a, b :: a in rows && b in rows ==> (Sooner(rows, a, b) <==> DueFirst(a, rows[a], b, rows[b]));
  }

  method ConnectorRetryDelay(initial: nat, maximum: nat, failures: nat) returns (delay: nat)
    ensures delay == if Doubled(initial, if failures <= 1 then 0 else failures - 1) < maximum
                     then Doubled(initial, if failures <= 1 then 0 else failures - 1) else maximum
    ensures delay <= maximum
    ensures delay < maximum ==> delay == initial * Power(2, if failures <= 1 then 0 else failures - 1)
    ensures initial * Power(2, if failures <= 1 then 0 else failures - 1) < maximum ==> delay < maximum
  {
    DoubledIsPower(initial, if failures <= 1 then 0 else failures - 1);
    if failures <= 1 || initial >= maximum {
      DoubledGrows(initial, 0, if failures <= 1 then 0 else failures - 1);
      return if initial < maximum then initial else maximum;
    }
    delay := initial;
    var attempt := 1;
    while attempt < failures && delay < maximum
      invariant 1 <= attempt <= failures
      invariant delay == Doubled(initial, attempt - 1)
    {
      if delay > maximum / 2 {
        DoubledGrows(initial, attempt, failures - 1);
        return maximum;
      }
      delay := delay * 2;
      attempt := attempt + 1;
    }
    DoubledGrows(initial, attempt - 1, failures - 1);
    delay := if delay < maximum then delay else maximum;
  }

  method DefaultRetryDelay(failures: nat) returns (delay: nat)
    ensures delay == RetryDelay(failures) && RETRY_INITIAL <= delay <= RETRY_MAX
  {
    delay := ConnectorRetryDelay(RETRY_INITIAL, RETRY_MAX, failures);
    DoubledGrows(RETRY_INITIAL, 0, if failures <= 1 then 0 else failures - 1);
  }

  lemma {:induction false} DoubledGrows(initial: nat, i: nat, j: nat)
    requires i <= j
    ensures Doubled(initial, i) <= Doubled(initial, j)
  {
    if i < j { DoubledGrows(initial, i, j - 1); }
  }

  method InsertOrIgnore(events: set<string>, batch: seq<string>)
    returns (stored: set<string>, inserted: nat, duplicate: nat)
    ensures stored == events + set e | e in batch
    ensures inserted + duplicate == |batch| && |stored| == |events| + inserted
  {
    stored, inserted, duplicate := events, 0, 0;
    for i := 0 to |batch|
      invariant inserted + duplicate == i
      invariant stored == events + set e | e in batch[..i]
      invariant |stored| == |events| + inserted
    {
      ghost var was, grown := batch[..i], batch[..i + 1];
      assert grown == was + [batch[i]];
      assert (set e | e in grown) == (set e | e in was) + {batch[i]};
      if batch[i] in stored {
        assert stored + {batch[i]} == stored;
        duplicate := duplicate + 1;
      } else {
        inserted := inserted + 1;
      }
      stored := stored + {batch[i]};
    }
    assert batch[..|batch|] == batch;
  }

  // ---- What the operations leave behind, spelled out ------------------------------------------------

  predicate IsPending(row: Row) {
    row.status == Pending && row.token.None? && row.claimedBy.None? && row.lease.None?
  }

  predicate SameRequest(a: Row, b: Row) {
    a.connector == b.connector && a.kind == b.kind && a.since == b.since && a.createdAt == b.createdAt
  }

  /** Claimed, one attempt more, with a lease of the length asked for, or of five minutes. */
  predicate ClaimGiven(before: Row, after: Row, token: Token, worker: string, now: nat, leaseLength: int) {
    && SameRequest(before, after) && after.until == before.until
    && after.status == Claimed && after.attempts == before.attempts + 1
    && after.token == Some(token) && after.claimedBy == Some(worker)
    && after.lease == Some(now + if leaseLength > 0 then leaseLength else 300_000_000_000)
  }

  /** Waiting again from `availableAt` on, with nothing left of the claim. */
  predicate PutBack(before: Row, after: Row, availableAt: nat) {
    && SameRequest(before, after) && after.until == before.until
    && IsPending(after) && after.attempts == before.attempts && after.availableAt == availableAt
  }

  /** A claim whose lease is over is put back; every other row stays. */
  predicate ExpiredPutBack(before: map<Id, Row>, after: map<Id, Row>, now: nat) {
    && after.Keys == before.Keys
    && forall id :: id in before ==>
         if before[id].status == Claimed && before[id].lease.Some? && !Before(now, before[id].lease.value)
         then PutBack(before[id], after[id], now + RetryDelay(before[id].attempts))
         else after[id] == before[id]
  }

  /** A window starts five minutes before the cursor, or a day before now when there is none. */
  function Since(cursors: map<Connector, int>, c: Connector, now: nat): int {
    if c in cursors then cursors[c] - 300_000_000_000 else now - 86_400_000_000_000
  }

  /** A new request ends now; but one of a day at the most when the connector's windows are bounded. */
  predicate Requested(row: Row, c: Connector, since: int, now: nat) {
    && row.connector == c && row.kind == Capture && row.since == since
    && row.until == (if c != "slack.lists" && !("calendar." <= c) && since + 86_400_000_000_000 < now
                     then since + 86_400_000_000_000 else now)
    && IsPending(row) && row.attempts == 0 && row.availableAt == now && row.createdAt == now
  }

  /** A capture over a bounded window of more than an hour can be asked for in a smaller one. */
  predicate Narrowable(row: Row) {
    && row.kind == Capture && row.connector != "slack.lists" && !("calendar." <= row.connector)
    && row.until - row.since > 3_600_000_000_000
  }

  /** Half the window, rounded down, and an hour at the least. */
  function NarrowerUntil(row: Row): int {
    var half := (row.until - row.since) / 2;
    row.since + if half > 3_600_000_000_000 then half else 3_600_000_000_000
  }

  /** The cursor goes to `until` unless it is there or beyond already; no other cursor moves. */
  ghost predicate Advanced(before: map<Connector, int>, after: map<Connector, int>, c: Connector, until: int) {
    && c in after && after[c] >= until && (c in before ==> after[c] >= before[c])
    && (after[c] == until || (c in before && after[c] == before[c]))
    && forall d :: d != c ==> (d in after <==> d in before) && (d in before ==> after[d] == before[d])
  }

  predicate OthersKept(before: map<Id, Row>, after: map<Id, Row>, id: Id) {
    after.Keys == before.Keys && forall other :: other in before && other != id ==> after[other] == before[other]
  }

  predicate Holds(rows: map<Id, Row>, id: Id, token: Token) {
    id in rows && rows[id].status == Claimed && rows[id].token == Some(token)
  }

  /** Over for good, with the claim gone but the worker's name kept. */
  predicate Closed(before: Row, after: Row, status: Status) {
    && SameRequest(before, after) && after.until == before.until && after.attempts == before.attempts
    && after.status == status && after.token.None? && after.lease.None?
    && after.availableAt == before.availableAt && after.claimedBy == before.claimedBy
  }

  function Power(base: nat, exponent: nat): nat {
    if exponent == 0 then 1 else base * Power(base, exponent - 1)
  }

  lemma {:induction false} DoubledIsPower(initial: nat, times: nat)
    ensures Doubled(initial, times) == initial * Power(2, times)
  {
    if times > 0 { DoubledIsPower(initial, times - 1); }
  }

  /** Five seconds, then twice as long each time, and five minutes from the seventh failure on. */
  lemma RetryDelays(attempts: nat)
    ensures RetryDelay(attempts) == if attempts <= 1 then 5_000_000_000
                                    else if attempts <= 6 then 5_000_000_000 * Power(2, attempts - 1)
                                    else 300_000_000_000
  {
    DoubledIsPower(RETRY_INITIAL, if attempts <= 1 then 0 else attempts - 1);
    assert Power(2, 1) == 2 && Power(2, 3) == 8 && Power(2, 5) == 32;
    if attempts >= 7 {
      DoubledGrows(RETRY_INITIAL, 6, attempts - 1);
      DoubledIsPower(RETRY_INITIAL, 6);
      assert Power(2, 6) == 64;
    }
  }

  function Claims(claims: seq<(Id, Token)>): set<Id> {
    set claim | claim in claims :: claim.0
  }

  lemma ClaimsOfIds(batch: seq<(Id, Token)>, ids: seq<Id>)
    requires Firsts(batch) == ids
    ensures forall id :: id in Claims(batch) <==> id in ids
  {
    assert forall i :: 0 <= i < |ids| ==> ids[i] == batch[i].0 && batch[i] in batch;
  }

  lemma BatchAfterRecycling(before: map<Id, Row>, recycled: map<Id, Row>, after: map<Id, Row>,
      batch: seq<(Id, Token)>, ids: seq<Id>, newToken: nat -> Token, worker: string, now: nat, leaseLength: int)
    requires ExpiredPutBack(before, recycled, now) && after.Keys == recycled.Keys && Firsts(batch) == ids
    requires forall i :: 0 <= i < |ids| ==>
      ids[i] in recycled && ClaimGiven(recycled[ids[i]], after[ids[i]], newToken(i), worker, now, leaseLength)
    ensures after.Keys == before.Keys
    ensures forall i :: 0 <= i < |batch| ==>
      && batch[i].0 in before
      && ClaimGiven(before[batch[i].0], after[batch[i].0], newToken(i), worker, now, leaseLength)
  {
    hide ClaimGiven, PutBack, Before, RetryDelay;
    forall i | 0 <= i < |batch|
      ensures batch[i].0 in before
      ensures ClaimGiven(before[batch[i].0], after[batch[i].0], newToken(i), worker, now, leaseLength)
    {
      assert batch[i].0 == ids[i];
      ClaimedAfterRecycling(before, recycled, after, ids[i], newToken(i), worker, now, leaseLength);
    }
  }

  lemma ClaimedAfterRecycling(before: map<Id, Row>, recycled: map<Id, Row>, after: map<Id, Row>, id: Id, token: Token,
      worker: string, now: nat, leaseLength: int)
    requires ExpiredPutBack(before, recycled, now) && id in recycled && id in after
    requires ClaimGiven(recycled[id], after[id], token, worker, now, leaseLength)
    ensures id in before && ClaimGiven(before[id], after[id], token, worker, now, leaseLength)
  {
    hide Before, RetryDelay;
  }

  /** The first n of these requests are claimed, and nothing else has changed. */
  ghost predicate FirstClaimed(before: map<Id, Row>, after: map<Id, Row>, ids: seq<Id>, n: nat,
      newToken: nat -> Token, worker: string, now: nat, leaseLength: int)
  {
    && after.Keys == before.Keys && n <= |ids|
    && (forall k :: 0 <= k < n ==>
          ids[k] in before && ClaimGiven(before[ids[k]], after[ids[k]], newToken(k), worker, now, leaseLength))
    && (forall id :: id in before && id !in ids[..n] ==> after[id] == before[id])
  }

  lemma NoneGiven(rows: map<Id, Row>, ids: seq<Id>, newToken: nat -> Token, worker: string, now: nat, leaseLength: int)
    ensures FirstClaimed(rows, rows, ids, 0, newToken, worker, now, leaseLength)
  {
  }

  lemma NextUnclaimed(before: map<Id, Row>, after: map<Id, Row>, ids: seq<Id>, n: nat, newToken: nat -> Token,
      worker: string, now: nat, leaseLength: int)
    requires FirstClaimed(before, after, ids, n, newToken, worker, now, leaseLength) && Distinct(ids) && n < |ids|
    requires ids[n] in before
    ensures ids[n] in after && after[ids[n]] == before[ids[n]]
  {
    hide ClaimGiven;
  }

  lemma OneMoreClaimed(before: map<Id, Row>, was: map<Id, Row>, after: map<Id, Row>, ids: seq<Id>, n: nat,
      newToken: nat -> Token, worker: string, now: nat, leaseLength: int)
    requires FirstClaimed(before, was, ids, n, newToken, worker, now, leaseLength) && Distinct(ids) && n < |ids|
    requires ids[n] in before && OthersKept(was, after, ids[n])
    requires ClaimGiven(before[ids[n]], after[ids[n]], newToken(n), worker, now, leaseLength)
    ensures FirstClaimed(before, after, ids, n + 1, newToken, worker, now, leaseLength)
  {
    hide ClaimGiven;
    assert ids[..n + 1] == ids[..n] + [ids[n]];
  }

  lemma AllClaimed(before: map<Id, Row>, after: map<Id, Row>, ids: seq<Id>, newToken: nat -> Token, worker: string,
      now: nat, leaseLength: int)
    requires FirstClaimed(before, after, ids, |ids|, newToken, worker, now, leaseLength)
    ensures after.Keys == before.Keys
    ensures forall k :: 0 <= k < |ids| ==>
      ids[k] in before && ClaimGiven(before[ids[k]], after[ids[k]], newToken(k), worker, now, leaseLength)
    ensures forall id :: id in before && id !in ids ==> after[id] == before[id]
  {
    hide ClaimGiven;
    assert ids[..|ids|] == ids;
  }

  lemma ActivityKept(before: map<Id, Row>, after: map<Id, Row>, now: nat)
    requires ExpiredPutBack(before, after, now)
    ensures after.Keys == before.Keys
    ensures forall id :: id in before ==>
      after[id].connector == before[id].connector && (Active(after[id]) <==> Active(before[id]))
  {
    hide Before, RetryDelay;
  }

  lemma ActiveFound(before: map<Id, Row>, after: map<Id, Row>, now: nat, c: Connector)
    requires ExpiredPutBack(before, after, now)
    ensures after.Keys == before.Keys
    ensures HasActive(after, c) <==> exists id ::
      id in before && before[id].connector == c && (before[id].status == Pending || before[id].status == Claimed)
  {
    hide ExpiredPutBack;
    ActivityKept(before, after, now);
  }

  lemma ActiveChosen(rows: map<Id, Row>, c: Connector)
    ensures HasActive(rows, c) <==> exists id :: id in rows && rows[id].connector == c && Active(rows[id])
    ensures forall id :: id in rows ==> (Active(rows[id]) <==> rows[id].status == Pending || rows[id].status == Claimed)
  {
  }

  /** Rows other than these are as recycling left them. */
  lemma PutBackApart(before: map<Id, Row>, recycled: map<Id, Row>, after: map<Id, Row>, apart: set<Id>, now: nat)
    requires ExpiredPutBack(before, recycled, now)
    requires forall id :: id !in apart ==> (id in after <==> id in recycled)
    requires forall id :: id in recycled && id in after && id !in apart ==> after[id] == recycled[id]
    ensures ExpiredPutBack(before - apart, after - apart, now)
  {
    hide PutBack, Before, RetryDelay;
  }

  lemma AsRequested(cursors: map<Connector, int>, c: Connector, now: nat)
    ensures Requested(EmittedRow(cursors, c, now), c, Since(cursors, c, now), now)
  {
  }

  class Store {
    var rows: map<Id, Row>
    var cursors: map<Connector, int>
    var events: set<string>

    function Contents(): Db
      reads this
    {
      Db(rows, cursors, events)
    }

    constructor ()
      ensures Contents() == Db(map[], map[], {})
    {
      rows, cursors, events := map[], map[], {};
    }

    method RecycleExpired(now: nat)
      modifies this`rows
      ensures Contents() == Apply(old(Contents()), Recycle(now))
      ensures ExpiredPutBack(old(rows), rows, now)
    {
      hide Before, BoundedWindow, NarrowedUntil, EffectiveLease, RetryDelay;
      var before := rows;
      var expired := set id | id in rows && LeaseExpired(rows[id], now);
      while expired != {}
        invariant rows.Keys == before.Keys
        invariant expired <= before.Keys
        invariant forall id :: id in before ==>
          rows[id] == if id in expired then before[id] else Recycled(before[id], now)
        decreases expired
      {
        var id :| id in expired;
        var delay := DefaultRetryDelay(rows[id].attempts);
        if rows[id].status == Claimed {
          rows := rows[id := Returned(rows[id], now + delay)];
        }
        expired := expired - {id};
      }
    }

    method EmitCapture(c: Connector, now: nat, newId: Id) returns (request: Id, coalesced: bool)
      modifies this`rows
      ensures Contents() == Apply(Apply(old(Contents()), Recycle(now)), Emit(c, now, newId))
      ensures request in rows && rows[request].connector == c && Active(rows[request])
      ensures coalesced <==> HasActive(Apply(old(Contents()), Recycle(now)).rows, c)
      ensures !coalesced ==> request == newId
      ensures coalesced <==>
        old(exists id :: && id in rows && rows[id].connector == c
                         && (rows[id].status == Pending || rows[id].status == Claimed))
      ensures coalesced ==> ExpiredPutBack(old(rows), rows, now)
      ensures !coalesced ==>
        && ExpiredPutBack(old(rows) - {newId}, rows - {newId}, now)
        && newId in rows && Requested(rows[newId], c, Since(old(cursors), c, now), now)
    {
      hide Before, ExpiredPutBack, RecycledRows, BoundedWindow, Requested, Since, HasActive, Active;
      ghost var before := rows;
      RecycleExpired(now);
      ActiveFound(before, rows, now, c);
      ghost var recycled := rows;
      if HasActive(rows, c) {
        ActiveChosen(rows, c);
        request :| request in rows && rows[request].connector == c && Active(rows[request]);
        return request, true;
      }
      var since := now - INITIAL_WINDOW;
      if c in cursors {
        since := cursors[c] - OVERLAP;
      }
      var until: int := now;
      if BoundedWindow(c) && since + MAX_WINDOW < now {
        until := since + MAX_WINDOW;
      }
      rows := rows[newId := Row(c, Capture, since, until, Pending, 0, now, now, None, None, None)];
      AsRequested(cursors, c, now);
      PutBackApart(before, recycled, rows, {newId}, now);
      ActiveChosen(rows, c);
      return newId, false;
    }

    /** The task request is emitted only when there are units to work on; otherwise the transaction is rolled back. */
    method EmitTask(hasUnits: bool, now: nat, newId: Id) returns (request: Option<Id>, created: bool)
      modifies this`rows
      ensures request.None? ==> Contents() == old(Contents())
      ensures request.Some? ==> Contents() == Apply(Apply(old(Contents()), Recycle(now)), Step.EmitTask(now, newId))
      ensures request.None? <==> !hasUnits && old(forall id :: id in rows && rows[id].connector == "llm.associate" ==>
        rows[id].status != Pending && rows[id].status != Claimed)
      ensures created <==> hasUnits && old(forall id :: id in rows && rows[id].connector == "llm.associate" ==>
        rows[id].status != Pending && rows[id].status != Claimed)
      ensures request.Some? && !created ==>
        && request.value in rows && rows[request.value].connector == "llm.associate"
        && (rows[request.value].status == Pending || rows[request.value].status == Claimed)
        && ExpiredPutBack(old(rows), rows, now)
      ensures created ==>
        && request == Some(newId) && ExpiredPutBack(old(rows) - {newId}, rows - {newId}, now)
        && newId in rows && IsPending(rows[newId]) && rows[newId].kind == LlmTask
        && rows[newId].connector == "llm.associate" && rows[newId].attempts == 0
        && rows[newId].since == rows[newId].until == rows[newId].availableAt == rows[newId].createdAt == now
    {
      hide Before, ExpiredPutBack, RecycledRows, HasActive, Active;
      ghost var before := rows;
      var stored := rows;
      RecycleExpired(now);
      ActiveFound(before, rows, now, LLM_CONNECTOR);
      ghost var recycled := rows;
      if HasActive(rows, LLM_CONNECTOR) {
        ActiveChosen(rows, LLM_CONNECTOR);
        var id :| id in rows && rows[id].connector == LLM_CONNECTOR && Active(rows[id]);
        return Some(id), false;
      }
      if !hasUnits {
        rows := stored;
        return None, false;
      }
      rows := rows[newId := Row(LLM_CONNECTOR, LlmTask, now, now, Pending, 0, now, now, None, None, None)];
      PutBackApart(before, recycled, rows, {newId}, now);
      return Some(newId), true;
    }

    method CompleteTask(id: Id, token: Token, now: nat) returns (ok: bool)
      modifies this`rows
      ensures ok <==> old(
        && Holds(rows, id, token) && rows[id].kind == LlmTask
        && rows[id].lease.Some? && Before(now, rows[id].lease.value))
      ensures Contents() == Apply(old(Contents()), Step.CompleteTask(id, token, now))
      ensures OthersKept(old(rows), rows, id) && (!ok ==> rows == old(rows))
      ensures ok ==> Closed(old(rows)[id], rows[id], Completed)
    {
      hide Before;
      ok := HoldsClaim(rows, id, token) && rows[id].kind == LlmTask && LeaseLive(rows[id], now);
      if ok {
        rows := rows[id := rows[id].(status := Completed, token := None, lease := None)];
      }
    }

    /** The soonest of these requests. */
    method Soonest(ids: set<Id>) returns (soonest: Id)
      requires ids != {} && ids <= rows.Keys
      ensures soonest in ids && forall id :: id in ids && id != soonest ==> Sooner(rows, soonest, id)
    {
      hide Sooner;
      soonest :| soonest in ids;
      var left := ids - {soonest};
      while left != {}
        invariant left <= ids && soonest in ids - left
        invariant forall id :: id in ids - left && id != soonest ==> Sooner(rows, soonest, id)
        decreases left
      {
        var id :| id in left;
        left := left - {id};
        SoonerTotal(rows, id, soonest);
        if Sooner(rows, id, soonest) {
          forall other | other in ids - left && other != id ensures Sooner(rows, id, other) {
            if other != soonest { SoonerTransitive(rows, id, soonest, other); }
          }
          soonest := id;
        }
      }
    }

    method ListClaimable(q: Query) returns (ids: seq<Id>)
      ensures Listed(rows, q, ids)
    {
      hide Sooner, Claimable;
      ids := [];
      var left := set id | id in rows && Wanted(rows, q, id);
      while left != {} && |ids| < q.limit
        invariant |ids| <= q.limit && forall id :: id in left ==> id in rows && Wanted(rows, q, id) && id !in ids
        invariant forall i :: 0 <= i < |ids| ==> Wanted(rows, q, ids[i])
        invariant forall id :: id in rows && Wanted(rows, q, id) ==> id in left || id in ids
        invariant forall i, j :: 0 <= i < j < |ids| ==> Sooner(rows, ids[i], ids[j])
        invariant forall i, id :: 0 <= i < |ids| && id in left ==> Sooner(rows, ids[i], id)
        decreases left
      {
        var soonest := Soonest(left);
        ids, left := ids + [soonest], left - {soonest};
      }
    }

    /** The transaction: recycle, list what is claimable, and claim each, repeating the guard. */
    method ClaimBatch(worker: string, max: int, kind: Kind, connector: Option<Connector>,
        suits: Id -> bool, newToken: nat -> Token, now: nat, leaseLength: int)
      returns (claimed: Option<seq<(Id, Token)>>)
      modifies this`rows
      ensures claimed.None? <==> worker == "" || max > MAX_CLAIMS
      ensures claimed.None? ==> rows == old(rows)
      ensures claimed.Some? ==>
        var recycled := Apply(old(Contents()), Recycle(now));
        var ids, tokens := Firsts(claimed.value), Seconds(claimed.value);
        && Listed(recycled.rows, Query(now, kind, connector, suits, if max <= 0 then 1 else max), ids)
        && (forall i :: 0 <= i < |tokens| ==> tokens[i] == newToken(i))
        && Contents() == ClaimEach(recycled, ids, tokens, worker, now, leaseLength)
      ensures claimed.Some? ==> rows.Keys == old(rows).Keys
      ensures claimed.Some? ==>
        forall i :: 0 <= i < |claimed.value| ==>
          var id := claimed.value[i].0;
          && id in old(rows) && ClaimGiven(old(rows)[id], rows[id], newToken(i), worker, now, leaseLength)
      ensures claimed.Some? ==>
        ExpiredPutBack(old(rows) - Claims(claimed.value), rows - Claims(claimed.value), now)
    {
      hide Before, Sooner, ClaimGiven, ExpiredPutBack, Listed, Apply, ClaimEach, Claims, Claimable, Distinct;
      ghost var before := rows;
      if worker == "" || max > MAX_CLAIMS { return None; }
      RecycleExpired(now);
      ghost var recycled := rows;
      var ids := ListClaimable(Query(now, kind, connector, suits, if max <= 0 then 1 else max));
      ListedDistinct(rows, Query(now, kind, connector, suits, if max <= 0 then 1 else max), ids);
      var batch := ClaimListed(ids, worker, newToken, now, leaseLength);
      claimed := Some(batch);
      ClaimsOfIds(batch, ids);
      PutBackApart(before, recycled, rows, Claims(batch), now);
      BatchAfterRecycling(before, recycled, rows, batch, ids, newToken, worker, now, leaseLength);
    }

    method ClaimListed(ids: seq<Id>, worker: string, newToken: nat -> Token, now: nat, leaseLength: int)
      returns (claimed: seq<(Id, Token)>)
      requires Distinct(ids) && forall i :: 0 <= i < |ids| ==> ids[i] in rows && Claimable(rows[ids[i]], now)
      modifies this`rows
      ensures Firsts(claimed) == ids && forall i :: 0 <= i < |claimed| ==> claimed[i].1 == newToken(i)
      ensures Contents() == ClaimEach(old(Contents()), Firsts(claimed), Seconds(claimed), worker, now, leaseLength)
      ensures rows.Keys == old(rows).Keys
      ensures forall i :: 0 <= i < |ids| ==>
        ClaimGiven(old(rows)[ids[i]], rows[ids[i]], newToken(i), worker, now, leaseLength)
      ensures forall id :: id in rows && id !in ids ==> rows[id] == old(rows)[id]
    {
      hide Before, Apply, ClaimEach, ClaimGiven, FirstClaimed;
      claimed := [];
      ghost var start := Contents();
      NoneClaimed(start, worker, now, leaseLength);
      NoneGiven(rows, ids, newToken, worker, now, leaseLength);
      for i := 0 to |ids|
        invariant |claimed| == i && forall k :: 0 <= k < i ==> claimed[k] == (ids[k], newToken(k))
        invariant Contents() == ClaimEach(start, Firsts(claimed), Seconds(claimed), worker, now, leaseLength)
        invariant FirstClaimed(start.rows, rows, ids, i, newToken, worker, now, leaseLength)
      {
        ghost var before, was := claimed, rows;
        ClaimEachStep(start, before, (ids[i], newToken(i)), worker, now, leaseLength);
        NextUnclaimed(start.rows, rows, ids, i, newToken, worker, now, leaseLength);
        var ok := ClaimOne(ids[i], newToken(i), worker, now, leaseLength);
        if ok { claimed := claimed + [(ids[i], newToken(i))]; }
        OneMoreClaimed(start.rows, was, rows, ids, i, newToken, worker, now, leaseLength);
      }
      assert Firsts(claimed) == ids;
      AllClaimed(start.rows, rows, ids, newToken, worker, now, leaseLength);
    }

    /** The guarded update that claims one request. */
    method ClaimOne(id: Id, token: Token, worker: string, now: nat, leaseLength: int) returns (ok: bool)
      modifies this`rows
      ensures ok <==>
        id in old(rows) && old(rows)[id].status == Pending && !Before(now, old(rows)[id].availableAt)
      ensures Contents() == Apply(old(Contents()), Claim(id, token, worker, now, leaseLength))
      ensures ok ==> id in rows && ClaimGiven(old(rows)[id], rows[id], token, worker, now, leaseLength)
      ensures !ok ==> rows == old(rows)
      ensures OthersKept(old(rows), rows, id)
    {
      hide Before, BoundedWindow, NarrowedUntil, RetryDelay;
      ok := id in rows && Claimable(rows[id], now);
      if ok {
        rows := rows[id := rows[id].(
          status := Claimed, attempts := rows[id].attempts + 1, token := Some(token),
          claimedBy := Some(worker), lease := Some(now + EffectiveLease(leaseLength)))];
      }
    }

    method RenewClaim(id: Id, token: Token, now: nat, leaseLength: int) returns (ok: bool)
      modifies this`rows
      ensures ok <==> old(Holds(rows, id, token) && rows[id].lease.Some? && Before(now, rows[id].lease.value))
      ensures Contents() == Apply(old(Contents()), Renew(id, token, now, leaseLength))
      ensures OthersKept(old(rows), rows, id) && (!ok ==> rows == old(rows))
      ensures ok ==>
        var lease := now + if leaseLength > 0 then leaseLength else 300_000_000_000;
        rows[id] == old(rows)[id].(lease := Some(lease))
    {
      ok := HoldsClaim(rows, id, token) && LeaseLive(rows[id], now);
      if ok {
        rows := rows[id := rows[id].(lease := Some(now + EffectiveLease(leaseLength)))];
      }
    }

    method CancelRequest(id: Id) returns (result: CancelResult)
      modifies this`rows
      ensures Contents() == Apply(old(Contents()), Cancel(id))
      ensures result == CancelNotFound <==> id !in old(rows)
      ensures result == CancelDone <==> id in old(rows) && old(rows)[id].status != Completed
      ensures result.CancelAlready? ==> result.status == old(rows)[id].status
      ensures OthersKept(old(rows), rows, id)
      ensures id in old(rows) ==>
        if old(rows)[id].status == Pending || old(rows)[id].status == Claimed
        then Closed(old(rows)[id], rows[id], Cancelled) else rows == old(rows)
    {
      if id !in rows { return CancelNotFound; }
      if rows[id].status == Cancelled { return CancelDone; }
      if rows[id].status != Pending && rows[id].status != Claimed { return CancelAlready(rows[id].status); }
      rows := rows[id := rows[id].(status := Cancelled, token := None, lease := None)];
      return CancelDone;
    }

    /** `read` is what the call saw of the row; the update checks the token again. */
    method FailClaim(read: Read, now: nat, windowTooLarge: bool) returns (ok: bool)
      modifies this`rows
      ensures ok <==> old(Holds(rows, read.id, read.token))
      ensures Contents() == Apply(old(Contents()), Fail(read, now, windowTooLarge))
      ensures OthersKept(old(rows), rows, read.id) && (!ok ==> rows == old(rows))
      ensures ok ==>
        if windowTooLarge && Narrowable(read.row)
        then PutBack(old(rows)[read.id].(until := NarrowerUntil(read.row)), rows[read.id], now)
        else PutBack(old(rows)[read.id], rows[read.id], now + RetryDelay(read.row.attempts))
    {
      if windowTooLarge && read.row.kind == Capture && BoundedWindow(read.row.connector) {
        var until := NarrowedUntil(read.row.since, read.row.until);
        if until.Some? {
          ok := HoldsClaim(rows, read.id, read.token);
          if ok {
            rows := rows[read.id := Returned(rows[read.id], now).(until := until.value)];
          }
          return;
        }
      }
      var delay := DefaultRetryDelay(read.row.attempts);
      ok := HoldsClaim(rows, read.id, read.token);
      if ok {
        rows := rows[read.id := Returned(rows[read.id], now + delay)];
      }
    }

    method ListClaims(worker: string) returns (claims: seq<Read>)
      ensures ClaimsOf(rows, worker, claims)
    {
      var left := set id | id in rows && HeldBy(rows, worker, id);
      claims := [];
      while left != {}
        invariant forall id :: id in left ==> HeldBy(rows, worker, id)
        invariant forall i :: 0 <= i < |claims| ==> claims[i].id !in left && HeldBy(rows, worker, claims[i].id)
        invariant forall i :: 0 <= i < |claims| ==>
          claims[i] == Read(claims[i].id, rows[claims[i].id].token.value, rows[claims[i].id])
        invariant forall i, j :: 0 <= i < j < |claims| ==> claims[i].id != claims[j].id
        invariant forall id :: HeldBy(rows, worker, id) ==>
          id in left || exists i :: 0 <= i < |claims| && claims[i].id == id
        decreases left
      {
        var id :| id in left;
        ghost var before := claims;
        claims := claims + [Read(id, rows[id].token.value, rows[id])];
        left := left - {id};
        assert claims[|before|].id == id && forall i :: 0 <= i < |before| ==> claims[i] == before[i];
      }
    }

    /**
     * Each claim is released by a statement of its own, which checks again that the worker still holds it;
     * `claims` may have been read any time before.
     */
    method ReleaseClaims(claims: seq<Read>, worker: string, now: nat)
      modifies this`rows
      ensures Contents() == ReleaseEach(old(Contents()), claims, worker, now)
      ensures ReleasedIfHeld(old(rows), rows, claims, worker, now)
    {
      ReleaseEachReleases(Contents(), claims, worker, now);
      hide ReleasedIfHeld, Before, BoundedWindow, NarrowedUntil, EffectiveLease, RetryDelay;
      for i := 0 to |claims|
        invariant Contents() == ReleaseEach(old(Contents()), claims[..i], worker, now)
      {
        assert claims[..i + 1][..i] == claims[..i];
        var claim := claims[i];
        var delay := DefaultRetryDelay(claim.row.attempts);
        if HoldsClaim(rows, claim.id, claim.token) && rows[claim.id].claimedBy == Some(worker) {
          rows := rows[claim.id := Returned(rows[claim.id], now + delay)];
        }
      }
      assert claims[..|claims|] == claims;
    }

    /** With nothing in between, all the worker's claims are released and no other row changes. */
    method ReleaseWorker(worker: string, now: nat) returns (claims: seq<Read>)
      modifies this`rows
      ensures ClaimsOf(old(rows), worker, claims) && Contents() == ReleaseEach(old(Contents()), claims, worker, now)
      ensures rows == ReleasedRows(old(rows), worker, now)
      ensures rows.Keys == old(rows).Keys
      ensures forall id :: id in rows ==>
        if old(rows)[id].status == Claimed && old(rows)[id].claimedBy == Some(worker) && old(rows)[id].token.Some?
        then PutBack(old(rows)[id], rows[id], now + RetryDelay(old(rows)[id].attempts)) else rows[id] == old(rows)[id]
    {
      hide ReleaseEach, ClaimsOf, RetryDelay;
      claims := ListClaims(worker);
      ReleasedAll(Contents(), claims, worker, now);
      ReleaseClaims(claims, worker, now);
    }

    /** What an ingest reads before its transaction; here the lease is compared as a time. */
    method ReadForIngest(id: Id, token: Token, now: nat) returns (read: Option<Read>)
      ensures read.Some? <==> Holds(rows, id, token) && rows[id].kind == Capture && token != ""
                              && rows[id].lease.Some? && now < rows[id].lease.value
      ensures read.Some? ==> read.value == Read(id, token, rows[id])
    {
      if id !in rows || rows[id].kind != Capture { return None; }
      if rows[id].status != Claimed || token == "" { return None; }
      if rows[id].token != Some(token) { return None; }
      if rows[id].lease.None? || now >= rows[id].lease.value { return None; }
      return Some(Read(id, token, rows[id]));
    }

    /** The ingest transaction: events first, then the guarded completion; a refused completion rolls back. */
    method IngestBatch(read: Read, now: nat, batch: seq<string>) returns (ok: bool, inserted: nat, duplicate: nat)
      modifies this
      ensures ok <==> old(
        && read.row.kind == Capture && Holds(rows, read.id, read.token)
        && rows[read.id].lease.Some? && Before(now, rows[read.id].lease.value))
      ensures Contents() == Apply(old(Contents()), Ingest(read, now, batch))
      ensures !ok ==> Contents() == old(Contents())
      ensures ok ==>
        && Closed(old(rows)[read.id], rows[read.id], Completed) && OthersKept(old(rows), rows, read.id)
        && (forall e :: e in events <==> e in old(events) || e in batch)
        && Advanced(old(cursors), cursors, read.row.connector, read.row.until)
      ensures ok ==> inserted + duplicate == |batch| && |events| == |old(events)| + inserted
    {
      hide Before, BoundedWindow, NarrowedUntil, EffectiveLease, RetryDelay;
      if read.row.kind != Capture { return false, 0, 0; }
      var stored;
      stored, inserted, duplicate := InsertOrIgnore(events, batch);
      ok := HoldsClaim(rows, read.id, read.token) && LeaseLive(rows[read.id], now);
      if ok {
        events := stored;
        rows := rows[read.id := rows[read.id].(status := Completed, token := None, lease := None)];
        if read.row.connector !in cursors || read.row.until > cursors[read.row.connector] {
          cursors := cursors[read.row.connector := read.row.until];
        }
      }
    }

    /** Scope changes cancel what is active and forget the cursor, in two separate statements. */
    method CancelActive(c: Connector)
      modifies this`rows
      ensures rows.Keys == old(rows).Keys
      ensures forall id :: id in rows ==>
        if old(rows)[id].connector == c && (old(rows)[id].status == Pending || old(rows)[id].status == Claimed)
        then Closed(old(rows)[id], rows[id], Cancelled) else rows[id] == old(rows)[id]
      ensures forall ids: seq<Id> :: Distinct(ids) && (forall id :: id in ids <==> ActiveOf(old(rows), c, id)) ==>
        Contents() == CancelEach(old(Contents()), ids)
    {
      ghost var before := Contents();
      rows := map id | id in rows ::
        if rows[id].connector == c && Active(rows[id])
        then rows[id].(status := Cancelled, token := None, lease := None) else rows[id];
      forall ids: seq<Id> | Distinct(ids) && (forall id :: id in ids <==> ActiveOf(before.rows, c, id))
        ensures Contents() == CancelEach(before, ids)
      {
        CancelEachRows(before, ids, c);
      }
    }

    method ResetConnectorCursor(c: Connector)
      modifies this`cursors
      ensures Contents() == Apply(old(Contents()), ResetCursor(c))
      ensures c !in cursors && forall d :: d != c ==> (d in cursors <==> d in old(cursors))
      ensures forall d :: d in cursors ==> cursors[d] == old(cursors)[d]
      ensures forall now: nat :: EmittedRow(cursors, c, now).since == now - INITIAL_WINDOW
      ensures forall d, now: nat :: d != c ==> EmittedRow(cursors, d, now) == EmittedRow(old(cursors), d, now)
    {
      cursors := cursors - {c};
    }
  }
}
