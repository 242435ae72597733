/** Every run of the outbox: what stays true of rows, claim tokens, completions and cursors. */
module OutboxRuns {
  import opened Options
  import opened Outbox
  import opened Rfc3339
  import Text

  /** A completed window, with the time its request was emitted. */
  datatype Window = Window(since: int, until: int, emitted: int)

  /**
   * The database plus what the run has done so far: identifiers handed out, the request each claim token
   * was issued for, claims that workers have read, completions in order, narrowings per request, and for
   * each connector the windows completed since its cursor was last reset.
   */
  datatype World = World(
    db: Db, issued: set<string>, owner: map<Token, Id>, seen: set<Read>,
    completed: seq<Id>, narrowings: map<Id, nat>, windows: map<Connector, seq<Window>>)

  const INITIAL: World := World(Db(map[], map[], {}), {}, map[], {}, [], map[], map[])

  /** Identifiers and tokens are fresh; a worker acts only on a claim it has read. */
  predicate Possible(w: World, step: Step) {
    match step
    case Emit(c, _, id) => id !in w.issued && c != LLM_CONNECTOR
    case EmitTask(_, id) => id !in w.issued
    case Claim(_, token, _, _, _) => token !in w.issued
    case Fail(read, _, _) => read in w.seen
    case Release(read, _, _) => read in w.seen
    case Ingest(read, _, _) => read in w.seen
    case _ => true
  }

  function WindowsOf(w: World, c: Connector): seq<Window> {
    if c in w.windows then w.windows[c] else []
  }

  function Narrowings(w: World, id: Id): nat {
    if id in w.narrowings then w.narrowings[id] else 0
  }

  function Exec(w: World, step: Step): World {
    if !Possible(w, step) then w
    else
      var w1 := w.(db := Apply(w.db, step));
      match step
      case Emit(_, _, id) => w1.(issued := w.issued + {id})
      case EmitTask(_, id) => w1.(issued := w.issued + {id})
      case Claim(id, token, _, _, _) => w1.(issued := w.issued + {token}, owner := w.owner[token := id])
      case ReadClaim(id, token) =>
        if HoldsClaim(w.db.rows, id, token) then w.(seen := w.seen + {Read(id, token, w.db.rows[id])}) else w
      case Fail(read, _, _) =>
        if HoldsClaim(w.db.rows, read.id, read.token) && w1.db.rows[read.id].until != w.db.rows[read.id].until
        then w1.(narrowings := w.narrowings[read.id := Narrowings(w, read.id) + 1]) else w1
      case Ingest(read, now, _) =>
        if Completes(w.db, read, now) then
          var row := read.row;
          w1.(completed := w.completed + [read.id],
              windows := w.windows[row.connector :=
                WindowsOf(w, row.connector) + [Window(row.since, row.until, row.createdAt)]])
        else w1
      case CompleteTask(id, token, now) =>
        if w1.db.rows != w.db.rows then w1.(completed := w.completed + [id]) else w1
      case ResetCursor(c) => w1.(windows := w.windows - {c})
      case _ => w1
  }

  function Run(w: World, steps: seq<Step>): World
    decreases |steps|
  {
    if steps == [] then w else Run(Exec(w, steps[0]), steps[1..])
  }

  // ---- Windows and the cursor -------------------------------------------------------------------

  /** The cursor a sequence of completions leaves behind. */
  function CursorAfter(ws: seq<Window>): int
    requires ws != []
  {
    var last := ws[|ws| - 1].until;
    if |ws| == 1 then last
    else
      var prior := CursorAfter(ws[..|ws| - 1]);
      if last > prior then last else prior
  }

  predicate Reached(win: Window) {
    win.until == win.emitted
  }

  predicate Wide(win: Window) {
    Reached(win) || (MIN_SPLIT_WINDOW <= win.until - win.since && win.until < win.emitted)
  }

  /** Each window starts one overlap before the cursor its predecessors left. */
  predicate Chained(ws: seq<Window>) {
    forall i :: 1 <= i < |ws| ==> ws[i].since == CursorAfter(ws[..i]) - OVERLAP
  }

  predicate InSome(ws: seq<Window>, t: int) {
    exists i :: 0 <= i < |ws| && ws[i].since <= t < ws[i].until
  }

  lemma {:induction false} ChainCovers(ws: seq<Window>, t: int)
    requires ws != [] && Chained(ws)
    requires ws[0].since <= t < CursorAfter(ws)
    ensures InSome(ws, t)
  {
    var n := |ws| - 1;
    if n > 0 {
      var init := ws[..n];
      assert forall i :: 0 <= i <= n ==> init[..i] == ws[..i];
      if t < CursorAfter(init) {
        ChainCovers(init, t);
        var i :| 0 <= i < |init| && init[i].since <= t < init[i].until;
        assert ws[i] == init[i];
      } else {
        assert ws[n].since <= t < ws[n].until;
      }
    }
  }

  /** Every completed window that falls short of its emission time advances the cursor by 55 minutes. */
  lemma {:induction false} ChainAdvances(ws: seq<Window>, i: nat, j: nat)
    requires Chained(ws) && i <= j < |ws|
    requires forall k :: i < k <= j ==> Wide(ws[k]) && !Reached(ws[k])
    ensures CursorAfter(ws[..i + 1]) + (j - i) * (55 * MINUTE) <= CursorAfter(ws[..j + 1])
    ensures i < j ==> CursorAfter(ws[..j + 1]) == ws[j].until < ws[j].emitted
    decreases j
  {
    hide CursorAfter;
    if i < j {
      ChainAdvances(ws, i, j - 1);
      CursorStep(ws, j);
      assert Wide(ws[j]) && !Reached(ws[j]);
      assert ws[j].since == CursorAfter(ws[..j]) - OVERLAP;
    }
  }

  lemma CursorStep(ws: seq<Window>, j: nat)
    requires 1 <= j < |ws|
    ensures CursorAfter(ws[..j + 1]) == if ws[j].until > CursorAfter(ws[..j]) then ws[j].until else CursorAfter(ws[..j])
  {
    assert ws[..j + 1][..j] == ws[..j];
  }

  // ---- Invariants -------------------------------------------------------------------------------

  predicate ClaimedExactlyWithTokenAndLease(row: Row) {
    && (row.status == Claimed <==> row.token.Some?)
    && (row.status == Claimed <==> row.lease.Some?)
  }

  predicate RowSound(w: World, id: Id)
    requires id in w.db.rows
  {
    var row := w.db.rows[id];
    && id in w.issued
    && ClaimedExactlyWithTokenAndLease(row)
    && (row.kind == LlmTask <==> row.connector == LLM_CONNECTOR)
    && (row.token.Some? ==> row.token.value in w.owner && w.owner[row.token.value] == id)
  }

  predicate RowsSound(w: World) {
    forall id :: id in w.db.rows ==> RowSound(w, id)
  }

  predicate OneActive(w: World) {
    forall i, j | i in w.db.rows && j in w.db.rows && Active(w.db.rows[i]) && Active(w.db.rows[j]) ::
      w.db.rows[i].connector == w.db.rows[j].connector ==> i == j
  }

  predicate TokensIssued(w: World) {
    forall t :: t in w.owner ==> t in w.issued
  }

  predicate SameWindow(a: Row, b: Row) {
    a.connector == b.connector && a.kind == b.kind && a.since == b.since && a.until == b.until
    && a.createdAt == b.createdAt
  }

  /** While a claim that was read is still held, what was read is still true. */
  predicate ReadCurrent(w: World, r: Read) {
    && r.token in w.owner && w.owner[r.token] == r.id
    && (HoldsClaim(w.db.rows, r.id, r.token) ==> SameWindow(w.db.rows[r.id], r.row))
  }

  predicate ReadsCurrent(w: World) {
    forall r :: r in w.seen ==> ReadCurrent(w, r)
  }

  predicate CompletedOnce(w: World) {
    && (forall i :: 0 <= i < |w.completed| ==>
          w.completed[i] in w.db.rows && w.db.rows[w.completed[i]].status == Completed)
    && (forall i, j :: 0 <= i < j < |w.completed| ==> w.completed[i] != w.completed[j])
  }

  predicate RowWindow(row: Row) {
    BoundedWindow(row.connector) ==>
      && Wide(Window(row.since, row.until, row.createdAt))
      && row.until - row.since <= MAX_WINDOW
  }

  function NarrowingsLeft(window: int): nat
    decreases if window < 0 then 0 else window
  {
    var n := NarrowedUntil(0, window);
    if n.Some? then 1 + NarrowingsLeft(n.value) else 0
  }

  predicate RowWindowed(w: World, id: Id)
    requires id in w.db.rows
  {
    var row := w.db.rows[id];
    row.kind == Capture ==>
      && RowWindow(row)
      && (Active(row) && row.connector in w.db.cursors ==> row.since == w.db.cursors[row.connector] - OVERLAP)
  }

  predicate RowsWindowed(w: World) {
    forall id :: id in w.db.rows ==> RowWindowed(w, id)
  }

  predicate CursorSound(w: World, c: Connector) {
    var ws := WindowsOf(w, c);
    if c in w.db.cursors
    then ws != [] && Chained(ws) && w.db.cursors[c] == CursorAfter(ws)
         && (BoundedWindow(c) ==> forall i :: 0 <= i < |ws| ==> Wide(ws[i]))
    else ws == []
  }

  ghost predicate CursorsSound(w: World) {
    forall c: Connector :: CursorSound(w, c)
  }

  predicate NarrowingBounded(w: World, id: Id)
    requires id in w.db.rows
  {
    var row := w.db.rows[id];
    if BoundedWindow(row.connector) then Narrowings(w, id) + NarrowingsLeft(row.until - row.since) <= 5
    else Narrowings(w, id) == 0
  }

  predicate NarrowingsBounded(w: World) {
    && (forall id :: id in w.db.rows ==> NarrowingBounded(w, id))
    && (forall id :: id in w.narrowings ==> id in w.db.rows)
  }

  predicate ClaimsSound(w: World) {
    RowsSound(w) && OneActive(w) && TokensIssued(w) && ReadsCurrent(w)
  }

  ghost predicate Inv(w: World) {
    ClaimsSound(w) && CompletedOnce(w) && RowsWindowed(w) && CursorsSound(w) && NarrowingsBounded(w)
  }

  // ---- One step ---------------------------------------------------------------------------------

  /** How one step may change one existing row; `owner` is the token register before the step. */
  predicate Moved(id: Id, a: Row, b: Row, owner: map<Token, Id>, after: map<Token, Id>) {
    && b.connector == a.connector && b.kind == a.kind && b.since == a.since && b.createdAt == a.createdAt
    && ClaimedExactlyWithTokenAndLease(b)
    && (Active(b) ==> Active(a))
    && (a.status == Completed ==> b == a)
    && (b.token.Some? ==> b.token.value in after && after[b.token.value] == id)
    && (b.token.Some? && b.token.value in owner ==> b.token == a.token && b.until == a.until)
    && (b.until == a.until
        || (BoundedWindow(a.connector) && a.kind == Capture && NarrowedUntil(a.since, a.until) == Some(b.until)))
  }

  predicate Inserts(step: Step) {
    step.Emit? || step.EmitTask?
  }

  lemma StepMoves(w: World, step: Step, id: Id)
    requires id in w.db.rows && !Inserts(step)
    requires RowSound(w, id) && TokensIssued(w)
    requires step.Fail? && step.read in w.seen ==> ReadCurrent(w, step.read)
    ensures var rows := Exec(w, step).db.rows;
            id in rows && Moved(id, w.db.rows[id], rows[id], w.owner, Exec(w, step).owner)
  {
    hide Exec, Moved, RowSound, ReadCurrent;
    if step.Fail? {
      FailMoves(w, step, id);
    } else if step.Claim? {
      ClaimMoves(w, step, id);
    } else if step.Ingest? || step.CompleteTask? {
      CompletionMoves(w, step, id);
    } else {
      OtherMoves(w, step, id);
    }
  }

  lemma FailMoves(w: World, step: Step, id: Id)
    requires id in w.db.rows && step.Fail?
    requires RowSound(w, id) && TokensIssued(w)
    requires step.read in w.seen ==> ReadCurrent(w, step.read)
    ensures var rows := Exec(w, step).db.rows;
            id in rows && Moved(id, w.db.rows[id], rows[id], w.owner, Exec(w, step).owner)
  {
    hide Before, RetryDelay, BoundedWindow, NarrowedUntil, EffectiveLease;
  }

  lemma ClaimMoves(w: World, step: Step, id: Id)
    requires id in w.db.rows && step.Claim?
    requires RowSound(w, id) && TokensIssued(w)
    ensures var rows := Exec(w, step).db.rows;
            id in rows && Moved(id, w.db.rows[id], rows[id], w.owner, Exec(w, step).owner)
  {
    hide Before, RetryDelay, BoundedWindow, NarrowedUntil, EffectiveLease;
  }

  lemma CompletionMoves(w: World, step: Step, id: Id)
    requires id in w.db.rows && (step.Ingest? || step.CompleteTask?)
    requires RowSound(w, id) && TokensIssued(w)
    ensures var rows := Exec(w, step).db.rows;
            id in rows && Moved(id, w.db.rows[id], rows[id], w.owner, Exec(w, step).owner)
  {
    hide Before, RetryDelay, BoundedWindow, NarrowedUntil, EffectiveLease;
  }

  lemma OtherMoves(w: World, step: Step, id: Id)
    requires id in w.db.rows && !Inserts(step) && !step.Fail? && !step.Claim? && !step.Ingest? && !step.CompleteTask?
    requires RowSound(w, id) && TokensIssued(w)
    ensures var rows := Exec(w, step).db.rows;
            id in rows && Moved(id, w.db.rows[id], rows[id], w.owner, Exec(w, step).owner)
  {
    hide Before, RetryDelay, BoundedWindow, NarrowedUntil, EffectiveLease;
  }

  lemma StepFrames(w: World, step: Step)
    requires !Inserts(step) && TokensIssued(w)
    ensures var w' := Exec(w, step);
            && w'.db.rows.Keys == w.db.rows.Keys
            && w.issued <= w'.issued && TokensIssued(w')
            && (forall t :: t in w.owner ==> t in w'.owner && w'.owner[t] == w.owner[t])
            && w.seen <= w'.seen
            && (forall r :: r in w'.seen - w.seen ==>
                  w'.db == w.db && w'.owner == w.owner && HoldsClaim(w.db.rows, r.id, r.token) &&
                    r.row == w.db.rows[r.id])
  {
    hide Exec, TokensIssued;
    KeyFrames(w, step);
    TokenFrames(w, step);
    SeenFrames(w, step);
  }

  lemma KeyFrames(w: World, step: Step)
    requires !Inserts(step)
    ensures Exec(w, step).db.rows.Keys == w.db.rows.Keys
  {
    hide Before, RetryDelay, BoundedWindow, NarrowedUntil, EffectiveLease, Returned, FailedRow, Recycled,
      AdvancedCursor, LeaseLive;
  }

  lemma TokenFrames(w: World, step: Step)
    requires TokensIssued(w)
    ensures var w' := Exec(w, step);
            && w.issued <= w'.issued && TokensIssued(w')
            && forall t :: t in w.owner ==> t in w'.owner && w'.owner[t] == w.owner[t]
  {
    hide Apply, BoundedWindow, NarrowedUntil, LeaseLive;
  }

  lemma SeenFrames(w: World, step: Step)
    ensures var w' := Exec(w, step);
            && w.seen <= w'.seen
            && forall r :: r in w'.seen - w.seen ==>
                 w'.db == w.db && w'.owner == w.owner && HoldsClaim(w.db.rows, r.id, r.token) &&
                   r.row == w.db.rows[r.id]
  {
    hide Apply, BoundedWindow, NarrowedUntil, LeaseLive;
  }

  lemma MovesKeep(w: World, step: Step)
    requires ClaimsSound(w) && !Inserts(step)
    ensures ClaimsSound(Exec(w, step))
  {
    hide Exec, Apply, NarrowedUntil, BoundedWindow;
    var w' := Exec(w, step);
    StepFrames(w, step);
    forall id | id in w.db.rows
      ensures id in w'.db.rows && Moved(id, w.db.rows[id], w'.db.rows[id], w.owner, w'.owner)
    {
      StepMoves(w, step, id);
    }
    forall r | r in w'.seen ensures ReadCurrent(w', r) {
      if r in w.seen {
        assert ReadCurrent(w, r);
        if HoldsClaim(w'.db.rows, r.id, r.token) { assert RowSound(w, r.id); }
      } else {
        assert r in w'.seen - w.seen;
        assert RowSound(w, r.id);
      }
    }
    forall id | id in w'.db.rows ensures RowSound(w', id) {
      assert RowSound(w, id);
    }
  }

  predicate Completing(w: World, step: Step) {
    step.Ingest? && step.read in w.seen && Completes(w.db, step.read, step.now)
  }

  /** The row an emission inserts. */
  function InsertedRow(w: World, step: Step): Row
    requires Inserts(step)
  {
    if step.Emit? then EmittedRow(w.db.cursors, step.connector, step.now)
    else Row(LLM_CONNECTOR, LlmTask, step.now, step.now, Pending, 0, step.now, step.now, None, None, None)
  }

  lemma InsertFrames(w: World, step: Step)
    requires Inserts(step)
    ensures var w', row := Exec(w, step), InsertedRow(w, step);
            && w'.owner == w.owner && w'.seen == w.seen && w'.completed == w.completed
            && w'.narrowings == w.narrowings && w'.windows == w.windows && w'.db.cursors == w.db.cursors
            && w.issued <= w'.issued
            && (w'.db.rows == w.db.rows
                || (step.id !in w.issued && step.id in w'.issued && w'.db.rows == w.db.rows[step.id := row]
                    && !HasActive(w.db.rows, row.connector)
                    && row.status == Pending && row.token.None? && row.lease.None?
                    && (row.kind == LlmTask <==> row.connector == LLM_CONNECTOR)))
  {
    hide BoundedWindow;
  }

  lemma InsertKeeps(w: World, step: Step)
    requires ClaimsSound(w) && Inserts(step)
    ensures ClaimsSound(Exec(w, step))
  {
    hide Exec, InsertedRow;
    var w' := Exec(w, step);
    InsertFrames(w, step);
    forall id | id in w'.db.rows ensures RowSound(w', id) {
      if id in w.db.rows { assert RowSound(w, id); }
    }
    forall r | r in w'.seen ensures ReadCurrent(w', r) { assert ReadCurrent(w, r); }
    assert OneActive(w') by {
      forall i, j | i in w'.db.rows && j in w'.db.rows && Active(w'.db.rows[i]) && Active(w'.db.rows[j])
        && w'.db.rows[i].connector == w'.db.rows[j].connector
        ensures i == j
      {
        if i in w.db.rows { assert RowSound(w, i); }
        if j in w.db.rows { assert RowSound(w, j); }
      }
    }
  }

  /** A step adds to the completed requests at most one, which it found claimed and leaves completed. */
  lemma CompletedFrames(w: World, step: Step)
    ensures var w' := Exec(w, step);
            w'.completed == w.completed
            || exists id :: w'.completed == w.completed + [id] && id in w.db.rows && w.db.rows[id].status != Completed
                            && id in w'.db.rows && w'.db.rows[id].status == Completed
  {
    hide Before, BoundedWindow, NarrowedUntil, RetryDelay, EffectiveLease;
    var w' := Exec(w, step);
    if w'.completed != w.completed {
      var id := w'.completed[|w.completed|];
      assert w'.completed == w.completed + [id];
    }
  }

  lemma CompletedOnceKept(w: World, step: Step)
    requires Inv(w)
    ensures CompletedOnce(Exec(w, step))
  {
    hide Exec, Completing, Inserts, InsertedRow, CursorSound, NarrowingBounded, RowWindowed;
    var w' := Exec(w, step);
    CompletedFrames(w, step);
    if Inserts(step) { InsertFrames(w, step); }
    forall id | id in w.db.rows && w.db.rows[id].status == Completed
      ensures id in w'.db.rows && w'.db.rows[id].status == Completed
    {
      if !Inserts(step) {
        assert RowSound(w, id);
        if step.Fail? && step.read in w.seen { assert ReadCurrent(w, step.read); }
        StepMoves(w, step, id);
      } else { assert RowSound(w, id); }
    }
  }

  lemma NarrowedShift(since: int, until: int)
    ensures NarrowedUntil(since, until).Some? == NarrowedUntil(0, until - since).Some?
    ensures NarrowedUntil(since, until).Some? ==>
      && NarrowedUntil(0, until - since).value == NarrowedUntil(since, until).value - since
      && MIN_SPLIT_WINDOW <= NarrowedUntil(since, until).value - since < until - since
  {
  }

  /** From a window of at most a day, halving with a one-hour floor can be done at most five times. */
  lemma {:induction false} FewNarrowings(window: int, k: nat)
    requires 2 * window <= Doubled(3 * HOUR, k)
    ensures NarrowingsLeft(window) <= k + 1
  {
    var n := NarrowedUntil(0, window);
    if n.Some? {
      if k > 0 && n.value > HOUR {
        FewNarrowings(n.value, k - 1);
      } else {
        assert NarrowedUntil(0, n.value).None?;
      }
    }
  }

  lemma DayNarrowings(window: int)
    requires window <= MAX_WINDOW
    ensures NarrowingsLeft(window) <= 5
  {
    var base := 3 * HOUR;
    assert Doubled(base, 1) == 2 * base;
    assert Doubled(base, 3) == 8 * base;
    assert Doubled(base, 4) == 16 * base;
    FewNarrowings(window, 4);
  }

  // ---- Cursors over one step ----------------------------------------------------------------------

  /** Unless it completes a capture or resets a cursor, a step leaves cursors and windows alone. */
  lemma CursorFrames(w: World, step: Step)
    requires !Completing(w, step) && !step.ResetCursor?
    ensures Exec(w, step).db.cursors == w.db.cursors && Exec(w, step).windows == w.windows
  {
    hide Before, BoundedWindow, NarrowedUntil, RetryDelay, EffectiveLease;
  }

  lemma RowsWindowedKept(w: World, step: Step)
    requires Inv(w) && !Completing(w, step) && !step.ResetCursor?
    ensures RowsWindowed(Exec(w, step))
  {
    hide Exec, NarrowedUntil, BoundedWindow, CursorSound;
    var w' := Exec(w, step);
    CursorFrames(w, step);
    forall id | id in w'.db.rows ensures RowWindowed(w', id) {
      if Inserts(step) {
        InsertFrames(w, step);
        if id in w.db.rows && (w'.db.rows == w.db.rows || id != step.id) {
          assert RowWindowed(w, id);
        } else {
          EmittedWindow(w.db.cursors, InsertedRow(w, step).connector, step.now);
        }
      } else {
        StepFrames(w, step);
        assert RowSound(w, id) && RowWindowed(w, id);
        if step.Fail? && step.read in w.seen { assert ReadCurrent(w, step.read); }
        StepMoves(w, step, id);
        NarrowedShift(w.db.rows[id].since, w.db.rows[id].until);
      }
    }
  }

  lemma EmittedWindow(cursors: map<Connector, int>, c: Connector, now: nat)
    ensures var row := EmittedRow(cursors, c, now);
            RowWindow(row) && (c in cursors ==> row.since == cursors[c] - OVERLAP)
  {
    hide BoundedWindow;
  }

  lemma CompletingMoves(w: World, step: Step)
    requires Inv(w) && Completing(w, step)
    ensures step.read.id in w.db.rows
    ensures var w', row := Exec(w, step), w.db.rows[step.read.id];
            && SameWindow(row, step.read.row) && row.kind == Capture && Active(row)
            && w'.db.rows == w.db.rows[step.read.id := row.(status := Completed, token := None, lease := None)]
            && w'.db.cursors == AdvancedCursor(w.db.cursors, row.connector, row.until)
            && w'.windows == w.windows[row.connector :=
                 WindowsOf(w, row.connector) + [Window(row.since, row.until, row.createdAt)]]
            && w'.narrowings == w.narrowings
  {
    hide Before, BoundedWindow, NarrowedUntil, RetryDelay, EffectiveLease, CursorSound;
    assert ReadCurrent(w, step.read);
  }

  lemma AppendChained(ws: seq<Window>, win: Window)
    requires Chained(ws)
    requires ws != [] ==> win.since == CursorAfter(ws) - OVERLAP
    ensures Chained(ws + [win])
    ensures CursorAfter(ws + [win]) == if ws == [] || win.until > CursorAfter(ws) then win.until else CursorAfter(ws)
  {
    var longer := ws + [win];
    assert longer[..|ws|] == ws;
    assert forall i :: 0 <= i <= |ws| ==> longer[..i] == ws[..i];
    assert ws[..|ws|] == ws;
  }

  lemma CompletedWindow(w: World, w': World, done: Row)
    requires CursorSound(w, done.connector) && RowWindow(done)
    requires done.connector in w.db.cursors ==> done.since == w.db.cursors[done.connector] - OVERLAP
    requires w'.db.cursors == AdvancedCursor(w.db.cursors, done.connector, done.until)
    requires w'.windows == w.windows[done.connector :=
               WindowsOf(w, done.connector) + [Window(done.since, done.until, done.createdAt)]]
    ensures CursorSound(w', done.connector)
    ensures forall d :: d != done.connector && CursorSound(w, d) ==> CursorSound(w', d)
  {
    hide BoundedWindow;
    AppendChained(WindowsOf(w, done.connector), Window(done.since, done.until, done.createdAt));
  }

  lemma CompletionKeepsCursors(w: World, step: Step)
    requires Inv(w) && step.Ingest? && Completing(w, step)
    ensures CursorsSound(Exec(w, step)) && RowsWindowed(Exec(w, step))
  {
    hide Exec, BoundedWindow, NarrowedUntil, CursorSound, RowWindow, CursorAfter, Completes;
    var w' := Exec(w, step);
    CompletingMoves(w, step);
    var done := w.db.rows[step.read.id];
    assert RowWindowed(w, step.read.id) && CursorSound(w, done.connector);
    CompletedWindow(w, w', done);
    forall d: Connector ensures CursorSound(w', d) {
      assert CursorSound(w, d);
    }
    forall id | id in w'.db.rows ensures RowWindowed(w', id) {
      assert RowWindowed(w, id);
      SameRowWindow(done, w'.db.rows[step.read.id]);
    }
  }

  lemma SameRowWindow(a: Row, b: Row)
    requires RowWindow(a) && SameWindow(a, b)
    ensures RowWindow(b)
  {
  }

  lemma ResetKeepsCursors(w: World, step: Step)
    requires Inv(w) && step.ResetCursor?
    ensures CursorsSound(Exec(w, step)) && RowsWindowed(Exec(w, step))
  {
    hide BoundedWindow;
    var w' := Exec(w, step);
    forall d: Connector ensures CursorSound(w', d) {
      assert CursorSound(w, d);
    }
    forall id | id in w'.db.rows ensures RowWindowed(w', id) {
      assert RowWindowed(w, id);
    }
  }

  lemma NarrowFrames(w: World, step: Step, id: Id)
    requires !Inserts(step) && id in w.db.rows
    requires step.Fail? && step.read in w.seen ==> ReadCurrent(w, step.read)
    ensures var w', row := Exec(w, step), w.db.rows[id];
            && id in w'.db.rows && (forall n :: n in w'.narrowings ==> n in w.narrowings || n in w.db.rows)
            && (|| (w'.db.rows[id].until == row.until && Narrowings(w', id) == Narrowings(w, id))
                || (BoundedWindow(row.connector) && NarrowedUntil(row.since, row.until) == Some(w'.db.rows[id].until)
                    && Narrowings(w', id) == Narrowings(w, id) + 1))
  {
    hide Before, BoundedWindow, NarrowedUntil, RetryDelay, EffectiveLease;
  }

  lemma InsertedNarrowings(w: World, step: Step)
    requires Inserts(step)
    ensures var row := InsertedRow(w, step); BoundedWindow(row.connector) ==> NarrowingsLeft(row.until - row.since) <= 5
  {
    hide NarrowingsLeft, BoundedWindow;
    var row := InsertedRow(w, step);
    EmittedWindow(w.db.cursors, row.connector, step.now);
    if BoundedWindow(row.connector) { DayNarrowings(row.until - row.since); }
  }

  lemma NarrowingKept(w: World, step: Step, id: Id)
    requires !Inserts(step) && id in w.db.rows && RowSound(w, id) && TokensIssued(w) && NarrowingBounded(w, id)
    requires step.Fail? && step.read in w.seen ==> ReadCurrent(w, step.read)
    ensures id in Exec(w, step).db.rows && NarrowingBounded(Exec(w, step), id)
  {
    hide Exec, BoundedWindow, NarrowedUntil, RowSound, ReadCurrent;
    NarrowFrames(w, step, id);
    StepMoves(w, step, id);
    NarrowedShift(w.db.rows[id].since, w.db.rows[id].until);
  }

  lemma NarrowingsKept(w: World, step: Step)
    requires Inv(w)
    ensures NarrowingsBounded(Exec(w, step))
  {
    hide Exec, BoundedWindow, NarrowedUntil, CursorSound, NarrowingsLeft, RowWindowed, InsertedRow, SameWindow;
    var w' := Exec(w, step);
    if Inserts(step) {
      InsertFrames(w, step);
      forall id | id in w'.db.rows ensures NarrowingBounded(w', id) {
        if id in w.db.rows {
          assert NarrowingBounded(w, id) && RowSound(w, id);
        } else {
          InsertedNarrowings(w, step);
        }
      }
    } else {
      StepFrames(w, step);
      if step.Fail? && step.read in w.seen { assert ReadCurrent(w, step.read); }
      forall id | id in w'.db.rows ensures NarrowingBounded(w', id) {
        assert NarrowingBounded(w, id) && RowSound(w, id);
        NarrowingKept(w, step, id);
      }
      forall n | n in w'.narrowings ensures n in w'.db.rows {
        if n !in w.narrowings { NarrowedKeys(w, step, n); }
      }
    }
  }

  lemma NarrowedKeys(w: World, step: Step, n: Id)
    requires n in Exec(w, step).narrowings && n !in w.narrowings
    ensures n in w.db.rows
  {
    hide Before, BoundedWindow, NarrowedUntil, RetryDelay, EffectiveLease;
  }

  lemma StepKeeps(w: World, step: Step)
    requires Inv(w)
    ensures Inv(Exec(w, step))
  {
    hide Exec, CursorSound, RowsSound, OneActive, TokensIssued, ReadsCurrent, RowsWindowed, CompletedOnce,
      NarrowingsBounded;
    if Inserts(step) { InsertKeeps(w, step); } else { MovesKeep(w, step); }
    CompletedOnceKept(w, step);
    NarrowingsKept(w, step);
    if Completing(w, step) {
      CompletionKeepsCursors(w, step);
    } else if step.ResetCursor? {
      ResetKeepsCursors(w, step);
    } else {
      RowsWindowedKept(w, step);
      CursorFrames(w, step);
      forall c: Connector ensures CursorSound(Exec(w, step), c) { CursorCarried(w, Exec(w, step), c); }
    }
  }

  lemma CursorCarried(w: World, w': World, c: Connector)
    requires CursorsSound(w) && w'.db.cursors == w.db.cursors && w'.windows == w.windows
    ensures CursorSound(w', c)
  {
    assert CursorSound(w, c);
  }

  // ---- Every run ----------------------------------------------------------------------------------

  lemma {:induction false} RunKeeps(w: World, steps: seq<Step>)
    requires Inv(w)
    ensures Inv(Run(w, steps))
    decreases |steps|
  {
    hide Exec, Inv;
    if steps != [] {
      StepKeeps(w, steps[0]);
      RunKeeps(Exec(w, steps[0]), steps[1..]);
    }
  }

  lemma RunSound(steps: seq<Step>)
    ensures Inv(Run(INITIAL, steps))
  {
    hide Exec, Run;
    assert Inv(INITIAL);
    RunKeeps(INITIAL, steps);
  }

  /** A connector has at most one request that is pending or claimed; a row is claimed exactly with token and lease. */
  lemma OneActiveRequest(steps: seq<Step>, i: Id, j: Id)
    requires var rows := Run(INITIAL, steps).db.rows;
             i in rows && j in rows && Active(rows[i]) && Active(rows[j]) && rows[i].connector == rows[j].connector
    ensures i == j
    ensures var row := Run(INITIAL, steps).db.rows[i];
            (row.status == Claimed <==> row.token.Some?) && (row.status == Claimed <==> row.lease.Some?)
  {
    hide Exec, Run, CursorSound;
    RunSound(steps);
    assert RowSound(Run(INITIAL, steps), i);
  }

  /**
   * No window of time is skipped: whatever was narrowed, recycled, failed or cancelled, the windows
   * completed since the last reset cover all time from the first one's start to the cursor.
   */
  lemma NoGap(steps: seq<Step>, c: Connector, t: int)
    requires var w := Run(INITIAL, steps); c in w.db.cursors
    ensures var w := Run(INITIAL, steps); var ws := WindowsOf(w, c);
            && ws != []
            && (ws[0].since <= t < w.db.cursors[c] ==> InSome(ws, t))
            && (exists i :: 0 <= i < |ws| && ws[i].until == w.db.cursors[c])
  {
    hide Exec, Run;
    RunSound(steps);
    var w := Run(INITIAL, steps);
    assert CursorSound(w, c);
    var ws := WindowsOf(w, c);
    if ws[0].since <= t < w.db.cursors[c] { ChainCovers(ws, t); }
    CursorIsSomeEnd(ws);
  }

  lemma {:induction false} CursorIsSomeEnd(ws: seq<Window>)
    requires ws != []
    ensures exists i :: 0 <= i < |ws| && ws[i].until == CursorAfter(ws)
  {
    var n := |ws| - 1;
    if n > 0 && ws[n].until <= CursorAfter(ws[..n]) {
      CursorIsSomeEnd(ws[..n]);
      var i :| 0 <= i < n && ws[..n][i].until == CursorAfter(ws[..n]);
      assert ws[i].until == CursorAfter(ws);
    } else {
      assert ws[n].until == CursorAfter(ws);
    }
  }

  // ---- Progress -----------------------------------------------------------------------------------

  const LEAST_ADVANCE: nat := 55 * MINUTE

  /** Only a reset lowers a cursor. */
  lemma CursorNeverLowered(w: World, step: Step, c: Connector)
    requires Inv(w) && c in w.db.cursors && step != ResetCursor(c)
    ensures c in Exec(w, step).db.cursors && w.db.cursors[c] <= Exec(w, step).db.cursors[c]
  {
    hide Exec, Inv, Completing;
    if Completing(w, step) {
      CompletingMoves(w, step);
    } else if step.ResetCursor? {
      ResetFrames(w, step);
    } else {
      CursorFrames(w, step);
    }
  }

  lemma ResetFrames(w: World, step: Step)
    requires step.ResetCursor?
    ensures Exec(w, step).db.cursors == w.db.cursors - {step.connector}
  {
  }

  /** A completion moves a bounded connector's cursor on by 55 minutes, or to the time its request was emitted. */
  lemma CompletionAdvances(steps: seq<Step>, step: Step)
    requires step.Ingest? && Completing(Run(INITIAL, steps), step)
    requires step.read.row.connector in Run(INITIAL, steps).db.cursors && BoundedWindow(step.read.row.connector)
    ensures var w := Run(INITIAL, steps); var c := step.read.row.connector; var w' := Exec(w, step);
            && c in w'.db.cursors && w.db.cursors[c] <= w'.db.cursors[c]
            && (|| w.db.cursors[c] + LEAST_ADVANCE <= w'.db.cursors[c] == step.read.row.until
                || step.read.row.until == step.read.row.createdAt <= w'.db.cursors[c])
  {
    hide Exec, Run, BoundedWindow, NarrowedUntil, CursorSound;
    RunSound(steps);
    var w := Run(INITIAL, steps);
    CompletingMoves(w, step);
    assert RowWindowed(w, step.read.id);
  }

  /**
   * A backlog clears: of any L / 55 min + 1 consecutive completions of a bounded connector, where L is how
   * far behind the emission of the last of them the cursor was, one reaches its own emission time.
   */
  lemma BacklogClears(steps: seq<Step>, c: Connector, i: nat, n: nat)
    requires BoundedWindow(c)
    requires var ws := WindowsOf(Run(INITIAL, steps), c);
             && i + n < |ws|
             && ws[i + n].emitted >= CursorAfter(ws[..i + 1])
             && n == (ws[i + n].emitted - CursorAfter(ws[..i + 1])) / LEAST_ADVANCE + 1
    ensures var ws := WindowsOf(Run(INITIAL, steps), c);
            exists k :: i < k <= i + n && Reached(ws[k])
  {
    hide Exec, Run, BoundedWindow, CursorAfter;
    RunSound(steps);
    assert CursorSound(Run(INITIAL, steps), c);
    ReachesWithin(WindowsOf(Run(INITIAL, steps), c), i, n);
  }

  lemma ReachesWithin(ws: seq<Window>, i: nat, n: nat)
    requires Chained(ws) && i + n < |ws| && forall k :: 0 <= k < |ws| ==> Wide(ws[k])
    requires ws[i + n].emitted >= CursorAfter(ws[..i + 1])
    requires n == (ws[i + n].emitted - CursorAfter(ws[..i + 1])) / LEAST_ADVANCE + 1
    ensures exists k :: i < k <= i + n && Reached(ws[k])
  {
    hide CursorAfter, Wide;
    var behind := ws[i + n].emitted - CursorAfter(ws[..i + 1]);
    assert behind < n * LEAST_ADVANCE;
    if forall k :: i < k <= i + n ==> !Reached(ws[k]) {
      ChainAdvances(ws, i, i + n);
    }
  }

  /** Narrowing keeps the start, leaves at least an hour, and happens to one request at most five times. */
  lemma NarrowingBound(steps: seq<Step>, step: Step, id: Id)
    requires id in Run(INITIAL, steps).db.rows
    ensures var w := Run(INITIAL, steps); var w' := Exec(w, step);
            && id in w'.db.rows && w'.db.rows[id].since == w.db.rows[id].since
            && Narrowings(w', id) <= 5
            && (w'.db.rows[id].until != w.db.rows[id].until ==>
                  && Narrowings(w', id) == Narrowings(w, id) + 1
                  && MIN_SPLIT_WINDOW <= w'.db.rows[id].until - w.db.rows[id].since
                  && w'.db.rows[id].until < w.db.rows[id].until)
  {
    hide Exec, Run, BoundedWindow, NarrowedUntil, CursorSound;
    RunSound(steps);
    var w := Run(INITIAL, steps);
    StepKeeps(w, step);
    assert RowSound(w, id);
    if Inserts(step) {
      InsertFrames(w, step);
    } else {
      if step.Fail? && step.read in w.seen { assert ReadCurrent(w, step.read); }
      StepMoves(w, step, id);
      NarrowFrames(w, step, id);
      NarrowedShift(w.db.rows[id].since, w.db.rows[id].until);
    }
    assert NarrowingBounded(Exec(w, step), id);
  }

  // ---- Fencing ------------------------------------------------------------------------------------

  predicate UsesClaim(step: Step, id: Id, token: Token) {
    match step
    case Renew(i, t, _, _) => i == id && t == token
    case Fail(read, _, _) => read.id == id && read.token == token
    case Release(read, _, _) => read.id == id && read.token == token
    case Ingest(read, _, _) => read.id == id && read.token == token
    case CompleteTask(i, t, _) => i == id && t == token
    case _ => false
  }

  /** Which steps end a claim: all but a renewal, a read, and steps on other rows. */
  lemma ClaimEnds(w: World, step: Step, id: Id, token: Token)
    requires ClaimsSound(w) && HoldsClaim(w.db.rows, id, token) && Possible(w, step)
    requires || (step.Recycle? && LeaseExpired(w.db.rows[id], step.now))
             || step == Cancel(id)
             || (step.Fail? && UsesClaim(step, id, token))
             || (step.Release? && UsesClaim(step, id, token) && w.db.rows[id].claimedBy == Some(step.worker))
             || (step.Ingest? && UsesClaim(step, id, token) && Completes(w.db, step.read, step.now))
             || (step.CompleteTask? && UsesClaim(step, id, token)
                 && w.db.rows[id].kind == LlmTask && LeaseLive(w.db.rows[id], step.now))
    ensures !HoldsClaim(Exec(w, step).db.rows, id, token)
  {
    hide Before, BoundedWindow, NarrowedUntil, RetryDelay, EffectiveLease;
  }

  lemma StaleStep(w: World, step: Step, id: Id, token: Token)
    requires Inv(w) && token in w.owner && !HoldsClaim(w.db.rows, id, token)
    ensures var w' := Exec(w, step); token in w'.owner && !HoldsClaim(w'.db.rows, id, token)
  {
    hide Exec, Apply, BoundedWindow, NarrowedUntil, CursorSound;
    if Inserts(step) {
      InsertFrames(w, step);
    } else {
      StepFrames(w, step);
      if id in w.db.rows {
        assert RowSound(w, id);
        if step.Fail? && step.read in w.seen { assert ReadCurrent(w, step.read); }
        StepMoves(w, step, id);
      }
    }
  }

  lemma {:induction false} StaleForever(w: World, steps: seq<Step>, id: Id, token: Token)
    requires Inv(w) && token in w.owner && !HoldsClaim(w.db.rows, id, token)
    ensures !HoldsClaim(Run(w, steps).db.rows, id, token)
    decreases |steps|
  {
    hide Exec, Inv, HoldsClaim;
    if steps != [] {
      StaleStep(w, steps[0], id, token);
      StepKeeps(w, steps[0]);
      StaleForever(Exec(w, steps[0]), steps[1..], id, token);
    }
  }

  /**
   * A claim that has ended never works again: after any further run, no renewal, failure, release,
   * ingest or completion that presents its token changes anything.
   */
  lemma EndedClaimIsPowerless(steps: seq<Step>, ending: Step, more: seq<Step>, attempt: Step, id: Id, token: Token)
    requires HoldsClaim(Run(INITIAL, steps).db.rows, id, token)
    requires !HoldsClaim(Exec(Run(INITIAL, steps), ending).db.rows, id, token)
    requires UsesClaim(attempt, id, token)
    ensures var w := Run(Exec(Run(INITIAL, steps), ending), more);
            Apply(w.db, attempt) == w.db && Exec(w, attempt).db == w.db && Exec(w, attempt).completed == w.completed
  {
    hide Run, Before, BoundedWindow, NarrowedUntil, RetryDelay, EffectiveLease;
    RunSound(steps);
    var w := Run(INITIAL, steps);
    EndsInStaleWorld(w, ending, id, token);
    StaleForever(Exec(w, ending), more, id, token);
  }

  lemma EndsInStaleWorld(w: World, ending: Step, id: Id, token: Token)
    requires Inv(w) && HoldsClaim(w.db.rows, id, token)
    ensures Inv(Exec(w, ending)) && token in Exec(w, ending).owner
  {
    hide Exec, CursorSound, BoundedWindow, NarrowedUntil;
    StepKeeps(w, ending);
    assert RowSound(w, id);
    if Inserts(ending) { InsertFrames(w, ending); } else { StepFrames(w, ending); }
  }

  /** No request completes twice, and what completed stays completed. */
  lemma CompletesAtMostOnce(steps: seq<Step>, i: nat, j: nat)
    requires i <= j < |Run(INITIAL, steps).completed|
    ensures var w := Run(INITIAL, steps);
            && (w.completed[i] == w.completed[j] ==> i == j)
            && w.completed[i] in w.db.rows && w.db.rows[w.completed[i]].status == Completed
  {
    hide Exec, Run, CursorSound;
    RunSound(steps);
  }

  /**
   * A claimed batch is stored exactly when its request completes: the step that stores it finds the
   * claim held and its lease live, and moves the request to completed for the first time.
   */
  lemma BatchStoredOnlyByCompletion(steps: seq<Step>, step: Step)
    requires step.Ingest? && Exec(Run(INITIAL, steps), step) != Run(INITIAL, steps)
    ensures var w := Run(INITIAL, steps); var w' := Exec(w, step); var id := step.read.id;
            && HoldsClaim(w.db.rows, id, step.read.token) && LeaseLive(w.db.rows[id], step.now)
            && id !in w.completed && w'.completed == w.completed + [id]
            && w'.db.rows[id].status == Completed
            && w'.db.events == w.db.events + set e | e in step.batch
  {
    hide Run, Before, BoundedWindow, NarrowedUntil, RetryDelay, EffectiveLease, CursorSound;
    RunSound(steps);
  }

  // ---- What a live claim is good for ----------------------------------------------------------------

  /** This claim is held and its lease is over at `end`. */
  predicate HeldUntil(w: World, id: Id, token: Token, end: nat) {
    HoldsClaim(w.db.rows, id, token) && w.db.rows[id].lease == Some(end)
  }

  /** Nobody cancels the request or ends the claim under its own token, and no recycling comes in its last second. */
  predicate Undisturbed(step: Step, id: Id, token: Token, end: nat) {
    && step != Cancel(id)
    && !UsesClaim(step, id, token)
    && (step.Recycle? ==> step.now + 1_000_000_000 <= end && FourDigitYear(step.now))
  }

  lemma ClaimSurvives(w: World, step: Step, id: Id, token: Token, end: nat)
    requires ClaimsSound(w) && HeldUntil(w, id, token, end) && Undisturbed(step, id, token, end) && FourDigitYear(end)
    ensures HeldUntil(Exec(w, step), id, token, end)
    ensures SameWindow(Exec(w, step).db.rows[id], w.db.rows[id])
    ensures Exec(w, step).db.rows[id].kind == w.db.rows[id].kind && w.seen <= Exec(w, step).seen
  {
    hide Before, BoundedWindow, NarrowedUntil, RetryDelay, EffectiveLease, FourDigitYear, Exec, UsesClaim;
    if step.Recycle? {
      GuardsWithinASecond(w.db.rows[id].(availableAt := end), step.now);
      RecyclingSpares(w, step.now, id);
    } else {
      assert RowSound(w, id);
      OthersSpare(w, step, id, token, end);
    }
  }

  lemma RecyclingSpares(w: World, now: nat, id: Id)
    requires id in w.db.rows && !LeaseExpired(w.db.rows[id], now)
    ensures var w' := Exec(w, Recycle(now)); id in w'.db.rows && w'.db.rows[id] == w.db.rows[id] && w'.seen == w.seen
  {
    hide Before, RetryDelay;
  }

  lemma OthersSpare(w: World, step: Step, id: Id, token: Token, end: nat)
    requires HeldUntil(w, id, token, end) && !step.Recycle? && step != Cancel(id) && !UsesClaim(step, id, token)
    requires RowSound(w, id)
    ensures var w' := Exec(w, step); id in w'.db.rows && w'.db.rows[id] == w.db.rows[id] && w.seen <= w'.seen
  {
    hide Before, BoundedWindow, NarrowedUntil, RetryDelay, EffectiveLease, Returned, FailedRow, EmittedRow,
      AdvancedCursor, RecycledRows;
  }

  lemma {:induction false} ClaimSurvivesAll(w: World, steps: seq<Step>, id: Id, token: Token, end: nat)
    requires Inv(w) && HeldUntil(w, id, token, end) && FourDigitYear(end)
    requires forall i :: 0 <= i < |steps| ==> Undisturbed(steps[i], id, token, end)
    ensures HeldUntil(Run(w, steps), id, token, end) && w.seen <= Run(w, steps).seen
    ensures SameWindow(Run(w, steps).db.rows[id], w.db.rows[id])
    ensures Run(w, steps).db.rows[id].kind == w.db.rows[id].kind && Inv(Run(w, steps))
    decreases |steps|
  {
    hide Exec, Inv, Undisturbed, HeldUntil, FourDigitYear;
    if steps != [] {
      StepKeeps(w, steps[0]);
      StillClaimsSound(w);
      ClaimSurvives(w, steps[0], id, token, end);
      ClaimSurvivesAll(Exec(w, steps[0]), steps[1..], id, token, end);
      HeldHere(w, Exec(w, steps[0]), Run(w, steps), id, token, end);
    }
  }

  lemma StillClaimsSound(w: World)
    requires Inv(w)
    ensures ClaimsSound(w)
  {
    hide RowsSound, OneActive, TokensIssued, ReadsCurrent, CompletedOnce, RowsWindowed, CursorsSound, NarrowingsBounded;
  }

  lemma HeldHere(a: World, b: World, c: World, id: Id, token: Token, end: nat)
    requires HeldUntil(a, id, token, end) && HeldUntil(b, id, token, end) && HeldUntil(c, id, token, end)
    requires SameWindow(b.db.rows[id], a.db.rows[id]) && SameWindow(c.db.rows[id], b.db.rows[id])
    ensures SameWindow(c.db.rows[id], a.db.rows[id])
  {
  }

  /** How long a claim lasts: as long as was asked for, and five minutes when nothing was. */
  function LeaseEnd(now: nat, leaseLength: int): nat {
    now + if leaseLength > 0 then leaseLength else 300_000_000_000
  }

  /**
   * A claim is good for its whole lease. A due capture is claimed; the worker reads its claim and, whatever
   * others do meanwhile, ingests at least a second before the lease is over. Then the batch is stored, the
   * request is completed and the cursor has reached the end of the window.
   */
  lemma ClaimedBatchCompletes(steps: seq<Step>, id: Id, token: Token, worker: string, now: nat, leaseLength: int,
      before: seq<Step>, after: seq<Step>, later: nat, batch: seq<string>)
    requires var w := Run(INITIAL, steps);
             && id in w.db.rows && w.db.rows[id].kind == Capture && w.db.rows[id].status == Pending
             && !Before(now, w.db.rows[id].availableAt) && token !in w.issued
    requires FourDigitYear(LeaseEnd(now, leaseLength)) && FourDigitYear(later)
    requires later + 1_000_000_000 <= LeaseEnd(now, leaseLength)
    requires forall i :: 0 <= i < |before| ==> Undisturbed(before[i], id, token, LeaseEnd(now, leaseLength))
    requires forall i :: 0 <= i < |after| ==> Undisturbed(after[i], id, token, LeaseEnd(now, leaseLength))
    ensures var w := Run(Exec(Run(INITIAL, steps), Claim(id, token, worker, now, leaseLength)), before);
            && HoldsClaim(w.db.rows, id, token)
            && var read := Read(id, token, w.db.rows[id]);
               var v := Run(Exec(w, ReadClaim(id, token)), after);
               var done := Exec(v, Ingest(read, later, batch));
               && done.completed == v.completed + [id] && done.db.rows[id].status == Completed
               && (forall e :: e in batch ==> e in done.db.events)
               && done.db.rows[id].connector in done.db.cursors
               && done.db.rows[id].until <= done.db.cursors[done.db.rows[id].connector]
  {
    hide Run, Exec, Inv, Undisturbed, FourDigitYear, SameWindow, Before;
    RunSound(steps);
    var w0, end := Run(INITIAL, steps), LeaseEnd(now, leaseLength);
    ClaimTaken(w0, id, token, worker, now, leaseLength);
    StepKeeps(w0, Claim(id, token, worker, now, leaseLength));
    var w1 := Exec(w0, Claim(id, token, worker, now, leaseLength));
    ClaimSurvivesAll(w1, before, id, token, end);
    var w2 := Run(w1, before);
    StepKeeps(w2, ReadClaim(id, token));
    ClaimRead(w2, id, token);
    var w3 := Exec(w2, ReadClaim(id, token));
    ClaimSurvivesAll(w3, after, id, token, end);
    IngestedInTime(w2, Run(w3, after), id, token, end, later, batch);
  }

  lemma ClaimTaken(w: World, id: Id, token: Token, worker: string, now: nat, leaseLength: int)
    requires id in w.db.rows && w.db.rows[id].status == Pending && !Before(now, w.db.rows[id].availableAt)
    requires token !in w.issued
    ensures var w' := Exec(w, Claim(id, token, worker, now, leaseLength));
            HeldUntil(w', id, token, LeaseEnd(now, leaseLength)) && w'.db.rows[id].kind == w.db.rows[id].kind
  {
    hide Before;
  }

  lemma ClaimRead(w: World, id: Id, token: Token)
    requires HoldsClaim(w.db.rows, id, token)
    ensures var w' := Exec(w, ReadClaim(id, token)); w'.db == w.db && Read(id, token, w.db.rows[id]) in w'.seen
  {
  }

  lemma IngestedInTime(w: World, v: World, id: Id, token: Token, end: nat, later: nat, batch: seq<string>)
    requires HeldUntil(w, id, token, end) && HeldUntil(v, id, token, end) && w.db.rows[id].kind == Capture
    requires SameWindow(v.db.rows[id], w.db.rows[id]) && Read(id, token, w.db.rows[id]) in v.seen
    requires FourDigitYear(end) && FourDigitYear(later) && later + 1_000_000_000 <= end
    ensures var done := Exec(v, Ingest(Read(id, token, w.db.rows[id]), later, batch));
            && done.completed == v.completed + [id] && id in done.db.rows && done.db.rows[id].status == Completed
            && (forall e :: e in batch ==> e in done.db.events)
            && done.db.rows[id].connector in done.db.cursors
            && done.db.rows[id].until <= done.db.cursors[done.db.rows[id].connector]
  {
    hide Before, FourDigitYear;
    GuardsWithinASecond(v.db.rows[id].(availableAt := end), later);
  }

  /** The lease guards compare text, so they can be wrong by less than a second and no more. */
  lemma GuardsWithinASecond(row: Row, now: nat)
    requires row.lease.Some? && FourDigitYear(now) && FourDigitYear(row.lease.value) && FourDigitYear(row.availableAt)
    ensures LeaseLive(row, now) ==> now < row.lease.value + SECOND
    ensures LeaseExpired(row, now) ==> row.lease.value < now + SECOND
    ensures Claimable(row, now) ==> row.availableAt < now + SECOND
    ensures now + SECOND <= row.lease.value ==> LeaseLive(row, now) && !LeaseExpired(row, now)
    ensures row.lease.value + SECOND <= now ==> !LeaseLive(row, now)
    ensures row.status == Pending && row.availableAt + SECOND <= now ==> Claimable(row, now)
  {
    GuardSlack(now, row.lease.value);
    GuardSlack(row.lease.value, now);
    GuardSlack(now, row.availableAt);
    GuardSlack(row.availableAt, now);
    hide Before;
    BeforeAsymmetric(now, row.lease.value);
    BeforeAsymmetric(now, row.availableAt);
  }

  lemma BeforeAsymmetric(a: nat, b: nat)
    ensures !(Before(a, b) && Before(b, a))
  {
    Text.LessTotal(Format(a), Format(b));
  }
}
