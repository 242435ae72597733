/** AI sessions read back from stored events, which arrive in no particular order. */
module SessionProjection {
  import opened Options
  import Text

  datatype EventType = Started | Checkpointed | NativeBound | Ended | ArchivedEvent | Unarchived | OtherType

  datatype ObservedState = ObservedState(cwd: string, details: string)

  /** A decoded payload; an end event may lack an observation. */
  datatype Payload = Payload(
    tool: string, nativeSession: string, predecessor: string, statement: string, observed: Option<ObservedState>)

  /**
   * A stored event with what decoding it gives: the session it names, its instant, the schema version of
   * its envelope and its payload, each absent when it cannot be decoded. Instant 0 is the zero time.
   */
  datatype Row = Row(
    id: string, eventType: EventType, session: Option<string>, timestamp: Option<int>,
    version: Option<int>, payload: Option<Payload>, project: string)

  const SCHEMA_VERSION := 1

  /** One selected event: when, which, and what it said; the zero time where nothing is selected. */
  datatype Slot = Slot(at: int, id: string, eventType: EventType, payload: Option<Payload>)

  const EMPTY := Slot(0, "", OtherType, None)

  datatype Projection = Projection(
    latestEvent: Slot, newestCheckpoint: Slot, latestCheckpoint: Slot, newestObservation: Slot,
    latestObserved: Slot, latestNative: Slot, archive: Slot,
    project: Option<string>, started: Option<Payload>, startedAt: int, ended: Option<Payload>,
    endedExists: bool, unorderable: bool)

  const NEW_PROJECTION :=
    Projection(EMPTY, EMPTY, EMPTY, EMPTY, EMPTY, EMPTY, EMPTY, None, None, 0, None, false, false)

  // ---- What each selection ranges over --------------------------------------------------------------

  datatype Class =
    | AnyEvent
    | AnyCheckpoint
    | SupportedCheckpoint
    | ObservationEvidence
    | Observation
    | NativeBinding
    | Archival

  predicate Orderable(row: Row, session: string) {
    row.session == Some(session) && session != "" && row.timestamp.Some?
  }

  predicate Supported(row: Row) {
    row.version == Some(SCHEMA_VERSION)
  }

  predicate CarriesObservation(eventType: EventType) {
    eventType == Started || eventType == Checkpointed || eventType == Ended
  }

  predicate InClass(row: Row, c: Class) {
    match c
    case AnyEvent => true
    case AnyCheckpoint => row.eventType == Checkpointed
    case SupportedCheckpoint => row.eventType == Checkpointed && Supported(row) && row.payload.Some?
    case ObservationEvidence =>
      if !Supported(row) then CarriesObservation(row.eventType)
      else row.eventType == Started || row.eventType == Checkpointed
           || (row.eventType == Ended && (row.payload.None? || row.payload.value.observed.Some?))
    case Observation =>
      Supported(row) && row.payload.Some?
      && (row.eventType == Started || row.eventType == Checkpointed
          || (row.eventType == Ended && row.payload.value.observed.Some?))
    case NativeBinding => row.eventType == NativeBound && Supported(row) && row.payload.Some?
    case Archival => Supported(row) && (row.eventType == ArchivedEvent || row.eventType == Unarchived)
  }

  predicate StartsSession(row: Row) {
    row.eventType == Started && Supported(row) && row.payload.Some?
  }

  predicate TellsEnd(row: Row) {
    row.eventType == Ended && Supported(row) && row.payload.Some?
  }

  /** An end counts under any decodable schema version. */
  predicate EndsSession(row: Row) {
    row.eventType == Ended && row.version.Some?
  }

  function SlotOf(p: Projection, c: Class): Slot {
    match c
    case AnyEvent => p.latestEvent
    case AnyCheckpoint => p.newestCheckpoint
    case SupportedCheckpoint => p.latestCheckpoint
    case ObservationEvidence => p.newestObservation
    case Observation => p.latestObserved
    case NativeBinding => p.latestNative
    case Archival => p.archive
  }

  function AsSlot(row: Row): Slot
    requires row.timestamp.Some?
  {
    Slot(row.timestamp.value, row.id, row.eventType, row.payload)
  }

  predicate Newer(row: Row, slot: Slot)
    requires row.timestamp.Some?
  {
    row.timestamp.value > slot.at || (row.timestamp.value == slot.at && Text.Less(slot.id, row.id))
  }

  // ---- The fold -------------------------------------------------------------------------------------

  /** Selections kept by time alone test for the zero time; those that hold a payload test for its absence. */
  predicate Vacant(slot: Slot, c: Class) {
    match c
    case AnyEvent | AnyCheckpoint | ObservationEvidence | Archival => slot.at == 0
    case SupportedCheckpoint | Observation | NativeBinding => slot.payload.None?
  }

  function Selected(slot: Slot, c: Class, row: Row): Slot
    requires row.timestamp.Some?
  {
    if InClass(row, c) && (Vacant(slot, c) || Newer(row, slot)) then AsSlot(row) else slot
  }

  function Absorbed(p: Projection, row: Row): Projection
    requires row.timestamp.Some?
  {
    Projection(
      Selected(p.latestEvent, AnyEvent, row), Selected(p.newestCheckpoint, AnyCheckpoint, row),
      Selected(p.latestCheckpoint, SupportedCheckpoint, row), Selected(p.newestObservation, ObservationEvidence, row),
      Selected(p.latestObserved, Observation, row), Selected(p.latestNative, NativeBinding, row),
      Selected(p.archive, Archival, row),
      if p.project.None? then Some(row.project) else p.project,
      if StartsSession(row) then row.payload else p.started,
      if StartsSession(row) then row.timestamp.value else p.startedAt,
      if TellsEnd(row) then row.payload else p.ended,
      p.endedExists || EndsSession(row), p.unorderable)
  }

  // ---- What the fold must give, said without an order -----------------------------------------------

  predicate Belongs(row: Row, session: string, c: Class) {
    Orderable(row, session) && InClass(row, c)
  }

  /** The slot holds the (timestamp, id) maximum of its class among the rows. */
  predicate Best(rows: set<Row>, session: string, c: Class, slot: Slot) {
    if exists row :: row in rows && Belongs(row, session, c)
    then exists row :: row in rows && Belongs(row, session, c) && slot == AsSlot(row)
           && forall other :: other in rows && Belongs(other, session, c) ==> !Newer(other, slot)
    else slot == EMPTY
  }

  predicate IsStart(row: Row, session: string) {
    Orderable(row, session) && StartsSession(row)
  }

  predicate StartFrom(rows: set<Row>, session: string, p: Projection) {
    if exists row :: row in rows && IsStart(row, session)
    then exists row :: && row in rows && IsStart(row, session)
                       && p.started == row.payload && p.startedAt == row.timestamp.value
    else p.started == None && p.startedAt == 0
  }

  predicate IsEnd(row: Row, session: string) {
    Orderable(row, session) && TellsEnd(row)
  }

  predicate EndFrom(rows: set<Row>, session: string, p: Projection) {
    if exists row :: row in rows && IsEnd(row, session)
    then exists row :: row in rows && IsEnd(row, session) && p.ended == row.payload
    else p.ended == None
  }

  predicate ProjectFrom(rows: set<Row>, session: string, p: Projection) {
    if exists row :: row in rows && Orderable(row, session)
    then exists row :: row in rows && Orderable(row, session) && p.project == Some(row.project)
    else p.project == None
  }

  /** `p` is what the rows say about the session. */
  ghost predicate Projects(rows: set<Row>, session: string, p: Projection) {
    && (forall c: Class :: Best(rows, session, c, SlotOf(p, c)))
    && StartFrom(rows, session, p) && EndFrom(rows, session, p) && ProjectFrom(rows, session, p)
    && (p.endedExists <==> exists row :: row in rows && Orderable(row, session) && EndsSession(row))
  }

  // ---- The same, spelled out ------------------------------------------------------------------------

  /** A row about this session with a usable instant. */
  predicate About(row: Row, session: string) {
    row.session == Some(session) && session != "" && row.timestamp.Some?
  }

  /** The row decodes under schema version 1. */
  predicate Decodes(row: Row) {
    row.version == Some(1) && row.payload.Some?
  }

  /**
   * What each selection is made from. Evidence of an observation is every start and checkpoint, and every end
   * but one that decodes and has no observation.
   */
  predicate Qualifies(row: Row, session: string, c: Class) {
    About(row, session) &&
    match c
    case AnyEvent => true
    case AnyCheckpoint => row.eventType == Checkpointed
    case SupportedCheckpoint => row.eventType == Checkpointed && Decodes(row)
    case ObservationEvidence =>
      row.eventType == Started || row.eventType == Checkpointed
      || (row.eventType == Ended && (Decodes(row) ==> row.payload.value.observed.Some?))
    case Observation =>
      && Decodes(row)
      && (row.eventType == Started || row.eventType == Checkpointed
          || (row.eventType == Ended && row.payload.value.observed.Some?))
    case NativeBinding => row.eventType == NativeBound && Decodes(row)
    case Archival => row.version == Some(1) && (row.eventType == ArchivedEvent || row.eventType == Unarchived)
  }

  /** `row` is the latest row of its class: any other is of an earlier instant, or of the same and a smaller id. */
  predicate LatestOfAll(rows: set<Row>, session: string, c: Class, row: Row) {
    && row in rows && Qualifies(row, session, c)
    && forall other :: other in rows && Qualifies(other, session, c) ==>
         || other.timestamp.value < row.timestamp.value
         || (other.timestamp.value == row.timestamp.value && (other.id == row.id || Text.Less(other.id, row.id)))
  }

  /** The selection is the latest row of its class, and empty when there is none. */
  predicate ShowsLatest(rows: set<Row>, session: string, c: Class, slot: Slot) {
    if exists row :: row in rows && Qualifies(row, session, c)
    then exists row :: && row in rows && LatestOfAll(rows, session, c, row)
                       && slot == Slot(row.timestamp.value, row.id, row.eventType, row.payload)
    else slot == Slot(0, "", OtherType, None)
  }

  /** The start, the end and the project shown are those of some row that has them. */
  predicate ShowsSome(rows: set<Row>, session: string, p: Projection) {
    && (if exists row :: row in rows && About(row, session) && row.eventType == Started && Decodes(row)
        then exists row :: && row in rows && About(row, session) && row.eventType == Started && Decodes(row)
                           && p.started == row.payload && p.startedAt == row.timestamp.value
        else p.started.None? && p.startedAt == 0)
    && (if exists row :: row in rows && About(row, session) && row.eventType == Ended && Decodes(row)
        then exists row :: && row in rows && About(row, session) && row.eventType == Ended && Decodes(row)
                           && p.ended == row.payload
        else p.ended.None?)
    && (exists row :: row in rows && About(row, session) && p.project == Some(row.project))
    && (p.endedExists <==> exists row ::
          row in rows && About(row, session) && row.eventType == Ended && row.version.Some?)
    && (p.unorderable <==> exists row :: row in rows && row.session == Some(session) && row.timestamp.None?)
  }

  /** What a session shows is the latest of everything stored about it. */
  predicate ShownFor(rows: set<Row>, session: string, p: Projection) {
    && ShowsLatest(rows, session, AnyEvent, p.latestEvent)
    && ShowsLatest(rows, session, AnyCheckpoint, p.newestCheckpoint)
    && ShowsLatest(rows, session, SupportedCheckpoint, p.latestCheckpoint)
    && ShowsLatest(rows, session, ObservationEvidence, p.newestObservation)
    && ShowsLatest(rows, session, Observation, p.latestObserved)
    && ShowsLatest(rows, session, NativeBinding, p.latestNative)
    && ShowsLatest(rows, session, Archival, p.archive)
    && ShowsSome(rows, session, p)
  }

  lemma ClassesSpelledOut(row: Row, session: string, c: Class)
    ensures Belongs(row, session, c) <==> Qualifies(row, session, c)
  {
  }

  lemma BestIsLatest(rows: set<Row>, session: string, c: Class, slot: Slot)
    requires Best(rows, session, c, slot)
    ensures ShowsLatest(rows, session, c, slot)
  {
    hide InClass, Qualifies;
    forall row ensures Belongs(row, session, c) <==> Qualifies(row, session, c) {
      ClassesSpelledOut(row, session, c);
    }
    if exists row :: row in rows && Belongs(row, session, c) {
      var row :| row in rows && Belongs(row, session, c) && slot == AsSlot(row)
                 && forall other :: other in rows && Belongs(other, session, c) ==> !Newer(other, slot);
      forall other | other in rows && Qualifies(other, session, c)
        ensures other.timestamp.value < slot.at
                || (other.timestamp.value == slot.at && (other.id == slot.id || Text.Less(other.id, slot.id)))
      {
        Text.LessTotal(other.id, slot.id);
      }
      assert LatestOfAll(rows, session, c, row);
    }
  }

  /** Every projection that fits the rows shows the latest of everything. */
  lemma ProjectsShown(rows: set<Row>, session: string, p: Projection)
    requires Projects(rows, session, p) && HasEvidence(rows, session)
    requires p.unorderable <==> UnorderableEvidence(rows, session)
    ensures ShownFor(rows, session, p)
  {
    hide Best, ShowsLatest;
    forall c: Class ensures ShowsLatest(rows, session, c, SlotOf(p, c)) {
      assert Best(rows, session, c, SlotOf(p, c));
      BestIsLatest(rows, session, c, SlotOf(p, c));
    }
    assert ShowsLatest(rows, session, AnyEvent, SlotOf(p, AnyEvent));
    assert ShowsLatest(rows, session, AnyCheckpoint, SlotOf(p, AnyCheckpoint));
    assert ShowsLatest(rows, session, SupportedCheckpoint, SlotOf(p, SupportedCheckpoint));
    assert ShowsLatest(rows, session, ObservationEvidence, SlotOf(p, ObservationEvidence));
    assert ShowsLatest(rows, session, Observation, SlotOf(p, Observation));
    assert ShowsLatest(rows, session, NativeBinding, SlotOf(p, NativeBinding));
    assert ShowsLatest(rows, session, Archival, SlotOf(p, Archival));
    SomeShown(rows, session, p);
  }

  lemma SomeShown(rows: set<Row>, session: string, p: Projection)
    requires StartFrom(rows, session, p) && EndFrom(rows, session, p) && ProjectFrom(rows, session, p)
    requires p.endedExists <==> exists row :: row in rows && Orderable(row, session) && EndsSession(row)
    requires (p.unorderable <==> UnorderableEvidence(rows, session)) && HasEvidence(rows, session)
    ensures ShowsSome(rows, session, p)
  {
    assert forall row :: IsStart(row, session) <==> About(row, session) && row.eventType == Started && Decodes(row);
    assert forall row :: IsEnd(row, session) <==> About(row, session) && row.eventType == Ended && Decodes(row);
    assert forall row :: Orderable(row, session) <==> About(row, session);
  }

  predicate UnorderableEvidence(rows: set<Row>, session: string) {
    exists row :: row in rows && row.session == Some(session) && row.timestamp.None?
  }

  /** Ids are the table's primary key, and no stored instant is the zero time. */
  predicate Identified(rows: set<Row>) {
    && (forall row :: row in rows && row.timestamp.Some? ==> row.timestamp.value != 0)
    && (forall a, b :: a in rows && b in rows && a.id == b.id ==> a == b)
  }

  /**
   * Rows as the program stores them: a session's one start and one end have ids made from the session, and
   * all its rows carry the project its start was given.
   */
  predicate Stored(rows: set<Row>) {
    && Identified(rows)
    && (forall row :: row in rows && row.session.Some? && row.eventType == Started ==>
           row.id == StartId(row.session.value))
    && (forall row :: row in rows && row.session.Some? && row.eventType == Ended ==>
           row.id == EndId(row.session.value))
    && (forall a, b :: a in rows && b in rows && a.session.Some? && a.session == b.session ==>
           a.project == b.project)
  }

  function StartId(session: string): string {
    "ai.session_started:" + session
  }

  function EndId(session: string): string {
    "ai.session_ended:" + session
  }

  /** Start events agree on payload and instant, end events on payload, and all rows on the project. */
  predicate RowsAgree(rows: set<Row>, session: string) {
    forall a, b | a in rows && b in rows && Orderable(a, session) && Orderable(b, session) ::
      && a.project == b.project
      && (StartsSession(a) && StartsSession(b) ==> a.payload == b.payload && a.timestamp == b.timestamp)
      && (TellsEnd(a) && TellsEnd(b) ==> a.payload == b.payload)
  }

  lemma StoredRowsAgree(rows: set<Row>, session: string)
    requires Stored(rows)
    ensures RowsAgree(rows, session)
  {
  }

  lemma BestUnique(rows: set<Row>, session: string, c: Class, s: Slot, t: Slot)
    requires Identified(rows) && Best(rows, session, c, s) && Best(rows, session, c, t)
    ensures s == t
  {
    if exists row :: row in rows && Belongs(row, session, c) {
      var a :| a in rows && Belongs(a, session, c) && s == AsSlot(a);
      var b :| b in rows && Belongs(b, session, c) && t == AsSlot(b);
      assert !Newer(a, t) && !Newer(b, s);
      Text.LessTotal(a.id, b.id);
    }
  }

  lemma AgreeingProjections(rows: set<Row>, session: string, p: Projection, q: Projection)
    requires Identified(rows) && RowsAgree(rows, session)
    requires Projects(rows, session, p) && Projects(rows, session, q) && p.unorderable == q.unorderable
    ensures p == q
  {
    hide Best, InClass, StartFrom, EndFrom, ProjectFrom, RowsAgree;
    forall c: Class ensures SlotOf(p, c) == SlotOf(q, c) {
      BestUnique(rows, session, c, SlotOf(p, c), SlotOf(q, c));
    }
    assert SlotOf(p, AnyEvent) == SlotOf(q, AnyEvent) && SlotOf(p, AnyCheckpoint) == SlotOf(q, AnyCheckpoint);
    assert SlotOf(p, SupportedCheckpoint) == SlotOf(q, SupportedCheckpoint);
    assert SlotOf(p, ObservationEvidence) == SlotOf(q, ObservationEvidence);
    assert SlotOf(p, Observation) == SlotOf(q, Observation) && SlotOf(p, NativeBinding) == SlotOf(q, NativeBinding);
    assert SlotOf(p, Archival) == SlotOf(q, Archival);
    StartUnique(rows, session, p, q);
    EndUnique(rows, session, p, q);
    ProjectUnique(rows, session, p, q);
  }

  lemma StartUnique(rows: set<Row>, session: string, p: Projection, q: Projection)
    requires RowsAgree(rows, session) && StartFrom(rows, session, p) && StartFrom(rows, session, q)
    ensures p.started == q.started && p.startedAt == q.startedAt
  {
    hide Supported;
    if exists row :: row in rows && IsStart(row, session) {
      var a :| a in rows && IsStart(a, session) && p.started == a.payload && p.startedAt == a.timestamp.value;
      var b :| b in rows && IsStart(b, session) && q.started == b.payload && q.startedAt == b.timestamp.value;
    }
  }

  lemma EndUnique(rows: set<Row>, session: string, p: Projection, q: Projection)
    requires RowsAgree(rows, session) && EndFrom(rows, session, p) && EndFrom(rows, session, q)
    ensures p.ended == q.ended
  {
    if exists row :: row in rows && IsEnd(row, session) {
      var a :| a in rows && IsEnd(a, session) && p.ended == a.payload;
      var b :| b in rows && IsEnd(b, session) && q.ended == b.payload;
    }
  }

  lemma ProjectUnique(rows: set<Row>, session: string, p: Projection, q: Projection)
    requires RowsAgree(rows, session) && ProjectFrom(rows, session, p) && ProjectFrom(rows, session, q)
    ensures p.project == q.project
  {
    if exists row :: row in rows && Orderable(row, session) {
      var a :| a in rows && Orderable(a, session) && p.project == Some(a.project);
      var b :| b in rows && Orderable(b, session) && q.project == Some(b.project);
    }
  }

  // ---- The fold gives it ----------------------------------------------------------------------------

  lemma SelectedBest(rows: set<Row>, session: string, c: Class, slot: Slot, row: Row)
    requires Identified(rows + {row}) && row !in rows && Orderable(row, session) && Best(rows, session, c, slot)
    ensures Best(rows + {row}, session, c, Selected(slot, c, row))
  {
    var more := rows + {row};
    if !InClass(row, c) {
      StillBest(rows, session, c, slot, row);
    } else if exists r :: r in rows && Belongs(r, session, c) {
      var best :| best in rows && Belongs(best, session, c) && slot == AsSlot(best);
      assert !Vacant(slot, c);
      assert best in more && row in more && Belongs(row, session, c);
      if Newer(row, slot) {
        forall other | other in more && Belongs(other, session, c) ensures !Newer(other, AsSlot(row)) {
          if other == row { Text.LessTotal(row.id, row.id); } else { NewerStill(row, other, slot); }
        }
      }
    } else {
      assert row in more && Belongs(row, session, c);
      forall other | other in more && Belongs(other, session, c) ensures other == row { }
      Text.LessTotal(row.id, row.id);
      if slot == EMPTY { assert Vacant(slot, c); }
    }
  }

  lemma NewerStill(row: Row, other: Row, slot: Slot)
    requires row.timestamp.Some? && other.timestamp.Some?
    requires Newer(row, slot) && !Newer(other, slot)
    ensures !Newer(other, AsSlot(row))
  {
    Text.LessTotal(slot.id, row.id);
    Text.LessTotal(row.id, other.id);
    if Text.Less(slot.id, row.id) && Text.Less(row.id, other.id) { Text.LessTransitive(slot.id, row.id, other.id); }
  }

  lemma StillBest(rows: set<Row>, session: string, c: Class, slot: Slot, row: Row)
    requires Best(rows, session, c, slot) && !Belongs(row, session, c)
    ensures Best(rows + {row}, session, c, slot)
  {
    hide Newer, InClass;
    var more := rows + {row};
    if exists r :: r in rows && Belongs(r, session, c) {
      var best :| best in rows && Belongs(best, session, c) && slot == AsSlot(best)
                  && forall other :: other in rows && Belongs(other, session, c) ==> !Newer(other, slot);
      assert best in more;
    }
  }

  lemma AbsorbedProjects(rows: set<Row>, session: string, p: Projection, row: Row)
    requires Identified(rows + {row}) && row !in rows && Orderable(row, session) && Projects(rows, session, p)
    ensures Projects(rows + {row}, session, Absorbed(p, row))
  {
    hide Best, Selected, StartFrom, EndFrom, ProjectFrom;
    var q := Absorbed(p, row);
    forall c: Class ensures Best(rows + {row}, session, c, SlotOf(q, c)) {
      SelectedBest(rows, session, c, SlotOf(p, c), row);
      assert SlotOf(q, c) == Selected(SlotOf(p, c), c, row);
    }
    AbsorbedStart(rows, session, p, row);
    AbsorbedEnd(rows, session, p, row);
    assert row in rows + {row};
  }

  lemma AbsorbedStart(rows: set<Row>, session: string, p: Projection, row: Row)
    requires Orderable(row, session) && StartFrom(rows, session, p)
    ensures StartFrom(rows + {row}, session, Absorbed(p, row))
  {
    hide Selected;
    assert row in rows + {row} && forall r :: r in rows ==> r in rows + {row};
    if exists r :: r in rows && IsStart(r, session) {
      var r :| r in rows && IsStart(r, session) && p.started == r.payload && p.startedAt == r.timestamp.value;
      assert r in rows + {row} && IsStart(r, session);
    }
    if StartsSession(row) { assert IsStart(row, session); }
  }

  lemma AbsorbedEnd(rows: set<Row>, session: string, p: Projection, row: Row)
    requires Orderable(row, session) && EndFrom(rows, session, p) && ProjectFrom(rows, session, p)
    ensures EndFrom(rows + {row}, session, Absorbed(p, row)) && ProjectFrom(rows + {row}, session, Absorbed(p, row))
  {
    hide Selected;
    assert row in rows + {row} && forall r :: r in rows ==> r in rows + {row};
    if exists r :: r in rows && IsEnd(r, session) {
      var r :| r in rows && IsEnd(r, session) && p.ended == r.payload;
      assert r in rows + {row} && IsEnd(r, session);
    }
    if TellsEnd(row) { assert IsEnd(row, session); }
    if exists r :: r in rows && Orderable(r, session) {
      var r :| r in rows && Orderable(r, session) && p.project == Some(r.project);
      assert r in rows + {row};
    }
  }

  lemma OtherProjects(rows: set<Row>, session: string, p: Projection, row: Row)
    requires !Orderable(row, session) && Projects(rows, session, p)
    ensures Projects(rows + {row}, session, p)
  {
    hide Best, InClass;
    forall c: Class ensures Best(rows + {row}, session, c, SlotOf(p, c)) {
      StillBest(rows, session, c, SlotOf(p, c), row);
    }
    assert forall r :: Orderable(r, session) ==> (r in rows + {row} <==> r in rows);
  }

  lemma NothingProjects(rows: set<Row>, session: string)
    requires forall row :: row in rows ==> !Orderable(row, session)
    ensures Projects(rows, session, NEW_PROJECTION)
  {
    assert forall c: Class :: SlotOf(NEW_PROJECTION, c) == EMPTY;
  }

  function RowSet(rows: seq<Row>): set<Row> {
    set row | row in rows
  }

  predicate HasEvidence(rows: set<Row>, session: string) {
    exists row :: row in rows && Orderable(row, session)
  }

  /** One session's projection after these rows, read in this order. */
  function Folded(rows: seq<Row>, session: string): Projection {
    if rows == [] then NEW_PROJECTION
    else
      var last, before := rows[|rows| - 1], Folded(rows[..|rows| - 1], session);
      if Orderable(last, session) then Absorbed(before, last) else before
  }

  function SessionsOf(rows: seq<Row>): set<string> {
    set row | row in rows && row.session.Some? :: row.session.value
  }

  /** All projections after these rows, read in this order. */
  function Loaded(rows: seq<Row>): map<string, Projection> {
    map s | s in SessionsOf(rows) && HasEvidence(RowSet(rows), s) ::
      Folded(rows, s).(unorderable := UnorderableEvidence(RowSet(rows), s))
  }

  /** The order lists exactly these rows, each once. */
  predicate Lists(order: seq<Row>, rows: set<Row>) {
    RowSet(order) == rows && forall i, j :: 0 <= i < j < |order| ==> order[i] != order[j]
  }

  lemma FoldedStep(rows: seq<Row>, row: Row, session: string)
    ensures Folded(rows + [row], session)
            == if Orderable(row, session) then Absorbed(Folded(rows, session), row) else Folded(rows, session)
  {
    hide Absorbed, Orderable;
    assert (rows + [row])[..|rows|] == rows;
  }

  lemma {:induction false} FoldedProjects(rows: seq<Row>, session: string)
    requires Identified(RowSet(rows)) && forall i, j :: 0 <= i < j < |rows| ==> rows[i] != rows[j]
    ensures Projects(RowSet(rows), session, Folded(rows, session))
  {
    hide Projects, Absorbed, Orderable, Identified;
    if rows == [] {
      assert RowSet(rows) == {};
      NothingProjects({}, session);
    } else {
      var init, last := rows[..|rows| - 1], rows[|rows| - 1];
      assert rows == init + [last];
      assert RowSet(rows) == RowSet(init) + {last} && last !in RowSet(init);
      StoredSubset(RowSet(rows), RowSet(init));
      FoldedProjects(init, session);
      if Orderable(last, session) {
        AbsorbedProjects(RowSet(init), session, Folded(init, session), last);
      } else {
        OtherProjects(RowSet(init), session, Folded(init, session), last);
      }
    }
  }

  /** The sessions loaded are those with evidence, and each projection is what the rows say about its session. */
  lemma LoadedProjects(rows: seq<Row>, session: string)
    requires Identified(RowSet(rows)) && forall i, j :: 0 <= i < j < |rows| ==> rows[i] != rows[j]
    ensures session in Loaded(rows) <==> HasEvidence(RowSet(rows), session)
    ensures session in Loaded(rows) ==>
      && Projects(RowSet(rows), session, Loaded(rows)[session])
      && (Loaded(rows)[session].unorderable <==> UnorderableEvidence(RowSet(rows), session))
  {
    hide Projects, Identified, Folded;
    FoldedProjects(rows, session);
    if HasEvidence(RowSet(rows), session) {
      var row :| row in RowSet(rows) && Orderable(row, session);
      assert session in SessionsOf(rows);
      FlagIrrelevant(RowSet(rows), session, Folded(rows, session), UnorderableEvidence(RowSet(rows), session));
    }
  }

  /** Reads the rows in the order they come, one projection per session. */
  method LoadProjections(rows: seq<Row>) returns (byId: map<string, Projection>)
    requires Identified(RowSet(rows)) && forall i, j :: 0 <= i < j < |rows| ==> rows[i] != rows[j]
    ensures byId == Loaded(rows)
    ensures forall s :: s in byId <==> exists row :: row in rows && About(row, s)
    ensures forall s :: s in byId ==> ShownFor(RowSet(rows), s, byId[s])
    ensures forall s :: s in byId ==>
      Projects(RowSet(rows), s, byId[s]) && (byId[s].unorderable <==> UnorderableEvidence(RowSet(rows), s))
  {
    hide Projects, Absorbed, Identified, Folded, HasEvidence, UnorderableEvidence, Loaded, ShownFor, About;
    byId := map[];
    var unorderable: set<string> := {};
    NothingRead(rows);
    for i := 0 to |rows|
      invariant forall s :: s in byId <==> HasEvidence(RowSet(rows[..i]), s)
      invariant forall s :: s in byId ==> byId[s] == Folded(rows[..i], s)
      invariant forall s :: s in unorderable <==> s != "" && UnorderableEvidence(RowSet(rows[..i]), s)
    {
      var row := rows[i];
      assert rows[..i + 1] == rows[..i] + [row];
      assert RowSet(rows[..i + 1]) == RowSet(rows[..i]) + {row};
      EvidenceGrows(RowSet(rows[..i]), row);
      forall s ensures Folded(rows[..i + 1], s)
        == if Orderable(row, s) then Absorbed(Folded(rows[..i], s), row) else Folded(rows[..i], s) {
        FoldedStep(rows[..i], row, s);
      }
      if row.session.Some? && row.session.value != "" {
        var session := row.session.value;
        if row.timestamp.None? {
          unorderable := unorderable + {session};
        } else {
          if session !in byId { NothingFolded(rows[..i], session); }
          var projection := if session in byId then byId[session] else NEW_PROJECTION;
          byId := byId[session := Absorbed(projection, row)];
        }
      }
    }
    assert rows[..|rows|] == rows;
    byId := map s | s in byId :: byId[s].(unorderable := s in unorderable);
    forall s ensures s in Loaded(rows) <==> HasEvidence(RowSet(rows), s)
             ensures s in Loaded(rows) ==> Projects(RowSet(rows), s, Loaded(rows)[s])
             ensures s in Loaded(rows) ==> (Loaded(rows)[s].unorderable <==> UnorderableEvidence(RowSet(rows), s))
    {
      LoadedProjects(rows, s);
    }
    forall s | s in byId ensures byId[s] == Loaded(rows)[s] {
      LoadedMeans(rows, s);
      LoadedProjects(rows, s);
    }
    assert byId.Keys == Loaded(rows).Keys;
    forall s ensures s in byId <==> exists row :: row in rows && About(row, s)
             ensures s in byId ==> ShownFor(RowSet(rows), s, byId[s])
    {
      EvidenceSpelledOut(rows, s);
      if s in byId { ProjectsShown(RowSet(rows), s, byId[s]); }
    }
  }

  lemma EvidenceSpelledOut(rows: seq<Row>, session: string)
    ensures HasEvidence(RowSet(rows), session) <==> exists row :: row in rows && About(row, session)
  {
    assert forall row :: row in RowSet(rows) <==> row in rows;
    assert forall row :: Orderable(row, session) <==> About(row, session);
  }

  lemma NothingRead(rows: seq<Row>)
    ensures forall s :: !HasEvidence(RowSet(rows[..0]), s) && !UnorderableEvidence(RowSet(rows[..0]), s)
  {
  }

  lemma LoadedMeans(rows: seq<Row>, session: string)
    requires session in Loaded(rows)
    ensures Loaded(rows)[session] == Folded(rows, session).(unorderable := UnorderableEvidence(RowSet(rows), session))
    ensures session != ""
  {
    hide Folded;
  }

  lemma {:induction false} NothingFolded(rows: seq<Row>, session: string)
    requires !HasEvidence(RowSet(rows), session)
    ensures Folded(rows, session) == NEW_PROJECTION
  {
    if rows != [] {
      var init, last := rows[..|rows| - 1], rows[|rows| - 1];
      assert last in RowSet(rows) && forall row :: row in RowSet(init) ==> row in RowSet(rows);
      NothingFolded(init, session);
    }
  }

  lemma StoredSubset(rows: set<Row>, some: set<Row>)
    requires Identified(rows) && some <= rows
    ensures Identified(some)
  {
  }

  lemma EvidenceGrows(rows: set<Row>, row: Row)
    ensures forall s :: HasEvidence(rows + {row}, s) <==> HasEvidence(rows, s) || Orderable(row, s)
    ensures forall s :: UnorderableEvidence(rows + {row}, s) <==>
      UnorderableEvidence(rows, s) || (row.session == Some(s) && row.timestamp.None?)
    ensures forall s :: !HasEvidence(rows, s) ==> forall r :: r in rows ==> !Orderable(r, s)
  {
    assert row in rows + {row};
    forall s ensures HasEvidence(rows + {row}, s) <==> HasEvidence(rows, s) || Orderable(row, s) {
      if HasEvidence(rows, s) { var r :| r in rows && Orderable(r, s); assert r in rows + {row}; }
    }
    forall s ensures UnorderableEvidence(rows + {row}, s) <==>
      UnorderableEvidence(rows, s) || (row.session == Some(s) && row.timestamp.None?)
    {
      if UnorderableEvidence(rows, s) {
        var r :| r in rows && r.session == Some(s) && r.timestamp.None?;
        assert r in rows + {row};
      }
    }
  }

  lemma FlagIrrelevant(rows: set<Row>, session: string, p: Projection, flag: bool)
    requires Projects(rows, session, p) && HasEvidence(rows, session)
    ensures Projects(rows, session, p.(unorderable := flag)) && session != ""
  {
    hide Best;
    forall c: Class ensures Best(rows, session, c, SlotOf(p.(unorderable := flag), c)) {
      assert SlotOf(p.(unorderable := flag), c) == SlotOf(p, c) && Best(rows, session, c, SlotOf(p, c));
    }
  }

  // ---- When the order matters -------------------------------------------------------------------------

  lemma {:induction false} SomeOrder(rows: set<Row>) returns (order: seq<Row>)
    ensures Lists(order, rows)
  {
    if rows == {} {
      order := [];
    } else {
      var row :| row in rows;
      var rest := SomeOrder(rows - {row});
      order := rest + [row];
      assert row !in RowSet(rest) && RowSet(order) == RowSet(rest) + {row};
    }
  }

  /** Of several starts or ends, the one read last is the one a projection shows. */
  lemma LastReadShows(before: seq<Row>, row: Row, session: string)
    requires Orderable(row, session)
    ensures var all := Loaded(before + [row]);
            && session in all
            && (StartsSession(row) ==>
                  all[session].started == row.payload && all[session].startedAt == row.timestamp.value)
            && (TellsEnd(row) ==> all[session].ended == row.payload)
  {
    hide Folded;
    FoldedStep(before, row, session);
    var rows := before + [row];
    assert rows[|before|] == row && row in rows;
    assert session in SessionsOf(rows);
  }

  /** The row read first gives a projection its project. */
  lemma {:induction false} FirstReadShows(row: Row, after: seq<Row>, session: string)
    requires Orderable(row, session)
    ensures Folded([row] + after, session).project == Some(row.project)
  {
    if after == [] {
      assert [row] + after == [] + [row];
      FoldedStep([], row, session);
    } else {
      var n := |after| - 1;
      FirstReadShows(row, after[..n], session);
      assert [row] + after == ([row] + after[..n]) + [after[n]];
      FoldedStep([row] + after[..n], after[n], session);
    }
  }

  lemma FirstLoadedShows(row: Row, after: seq<Row>, session: string)
    requires Orderable(row, session)
    ensures session in Loaded([row] + after) && Loaded([row] + after)[session].project == Some(row.project)
  {
    hide Folded;
    FirstReadShows(row, after, session);
    assert ([row] + after)[0] == row && row in [row] + after;
    assert session in SessionsOf([row] + after);
  }

  lemma TwoMore(rest: seq<Row>, rows: set<Row>, a: Row, b: Row)
    requires a in rows && b in rows && a != b && Lists(rest, rows - {a, b})
    ensures Lists(rest + [a] + [b], rows) && Lists([a] + (rest + [b]), rows)
  {
    assert a !in RowSet(rest) && b !in RowSet(rest);
    assert RowSet(rest + [a] + [b]) == RowSet(rest) + {a} + {b};
    assert RowSet([a] + (rest + [b])) == RowSet(rest) + {a} + {b};
  }

  /** Two rows that disagree make some two orders of all the rows give different projections. */
  lemma DisagreementShows(rows: set<Row>, session: string) returns (one: seq<Row>, other: seq<Row>)
    requires Identified(rows) && !RowsAgree(rows, session)
    ensures Lists(one, rows) && Lists(other, rows)
    ensures session in Loaded(one) && session in Loaded(other) && Loaded(one)[session] != Loaded(other)[session]
  {
    hide Lists, Loaded;
    var a, b :| && a in rows && b in rows && Orderable(a, session) && Orderable(b, session)
                && !(&& a.project == b.project
                     && (StartsSession(a) && StartsSession(b) ==> a.payload == b.payload && a.timestamp == b.timestamp)
                     && (TellsEnd(a) && TellsEnd(b) ==> a.payload == b.payload));
    var rest := SomeOrder(rows - {a, b});
    assert {a, b} == {b, a};
    TwoMore(rest, rows, a, b);
    TwoMore(rest, rows, b, a);
    if a.project != b.project {
      one, other := [a] + (rest + [b]), [b] + (rest + [a]);
      FirstLoadedShows(a, rest + [b], session);
      FirstLoadedShows(b, rest + [a], session);
    } else {
      one, other := rest + [b] + [a], rest + [a] + [b];
      LastReadShows(rest + [b], a, session);
      LastReadShows(rest + [a], b, session);
    }
  }

  /** Whatever rows the program has stored, loading them gives the same projections in every order. */
  lemma OrderIndependent(rows: set<Row>, one: seq<Row>, other: seq<Row>)
    requires Stored(rows) && Lists(one, rows) && Lists(other, rows)
    ensures Loaded(one) == Loaded(other)
  {
    hide Projects, Loaded, Identified, HasEvidence, UnorderableEvidence, RowsAgree;
    forall s ensures s in Loaded(one) <==> s in Loaded(other)
             ensures s in Loaded(one) ==> s in Loaded(other) && Loaded(one)[s] == Loaded(other)[s]
    {
      StoredRowsAgree(rows, s);
      LoadedProjects(one, s);
      LoadedProjects(other, s);
      if s in Loaded(one) { AgreeingProjections(rows, s, Loaded(one)[s], Loaded(other)[s]); }
    }
    assert Loaded(one).Keys == Loaded(other).Keys;
  }

  /** Of arbitrary rows with distinct ids, the order does not matter to a session exactly when its rows agree. */
  lemma OrderIndependentExactly(rows: set<Row>, session: string)
    requires Identified(rows) && HasEvidence(rows, session)
    ensures forall order :: Lists(order, rows) ==> session in Loaded(order)
    ensures RowsAgree(rows, session) <==>
      forall one, other :: Lists(one, rows) && Lists(other, rows) ==> Loaded(one)[session] == Loaded(other)[session]
  {
    hide Projects, Loaded, Identified, HasEvidence, UnorderableEvidence, RowsAgree;
    forall order | Lists(order, rows) ensures session in Loaded(order) {
      LoadedProjects(order, session);
    }
    if RowsAgree(rows, session) {
      forall one, other | Lists(one, rows) && Lists(other, rows)
        ensures Loaded(one)[session] == Loaded(other)[session]
      {
        LoadedProjects(one, session);
        LoadedProjects(other, session);
        AgreeingProjections(rows, session, Loaded(one)[session], Loaded(other)[session]);
      }
    } else {
      var one, other := DisagreementShows(rows, session);
      assert Loaded(one)[session] != Loaded(other)[session];
    }
  }

  /** The same without an order: the rows determine a session's projection exactly when they agree. */
  lemma ProjectionUnique(rows: set<Row>, session: string)
    requires Identified(rows)
    ensures RowsAgree(rows, session) <==>
      forall p, q :: Projects(rows, session, p) && Projects(rows, session, q) && p.unorderable == q.unorderable ==>
        p == q
  {
    hide Projects, Loaded, Identified, Folded, Best, RowsAgree;
    if RowsAgree(rows, session) {
      forall p, q | Projects(rows, session, p) && Projects(rows, session, q) && p.unorderable == q.unorderable
        ensures p == q
      {
        AgreeingProjections(rows, session, p, q);
      }
    } else {
      var one, other := DisagreementShows(rows, session);
      LoadedProjects(one, session);
      LoadedProjects(other, session);
      assert Loaded(one)[session].unorderable == Loaded(other)[session].unorderable;
      assert Loaded(one)[session] != Loaded(other)[session];
    }
  }

  // ---- What the program stores ------------------------------------------------------------------------

  /** One event as it is written; `tag` tells a session's checkpoints, bindings and archivings apart. */
  datatype Write = Write(eventType: EventType, session: string, tag: string, at: int, payload: Payload)

  function IdOf(w: Write): string {
    match w.eventType
    case Started => StartId(w.session)
    case Ended => EndId(w.session)
    case Checkpointed => "ai.session_checkpointed:" + w.session + ":" + w.tag
    case NativeBound => "ai.session_native_bound:" + w.session + ":" + w.tag
    case ArchivedEvent => "ai.session_archived:" + w.session + ":" + w.tag
    case Unarchived => "ai.session_unarchived:" + w.session + ":" + w.tag
    case OtherType => w.tag
  }

  /** The project is inferred when the session is launched, and every later event is given the same. */
  function RowOf(w: Write, projectOf: string -> string): Row {
    Row(IdOf(w), w.eventType, Some(w.session), Some(w.at), Some(SCHEMA_VERSION), Some(w.payload), projectOf(w.session))
  }

  /** INSERT OR IGNORE, one event after the other. */
  function Written(writes: seq<Write>, projectOf: string -> string): set<Row> {
    if writes == [] then {}
    else
      var before, row := Written(writes[..|writes| - 1], projectOf), RowOf(writes[|writes| - 1], projectOf);
      if exists r :: r in before && r.id == row.id then before else before + {row}
  }

  /** However events are written, retried or attempted twice, the rows are such that their order cannot matter. */
  lemma {:induction false} WritesAreStored(writes: seq<Write>, projectOf: string -> string)
    requires forall i :: 0 <= i < |writes| ==> writes[i].at != 0
    ensures Stored(Written(writes, projectOf))
    ensures forall row :: row in Written(writes, projectOf) ==>
      row.session.Some? && row.project == projectOf(row.session.value)
  {
    hide StartId, EndId;
    if writes != [] {
      WritesAreStored(writes[..|writes| - 1], projectOf);
      assert writes[|writes| - 1].at != 0;
    }
  }

  // ---- Handing a session off --------------------------------------------------------------------------

  datatype Refusal =
    | Unorderable
    | NoDirectory
    | SessionEnded
    | CheckpointOvertaken
    | CheckpointUnusable
    | ObservationUnusable
    | NoCheckpoint

  datatype Source = Accepted(checkpoint: Payload, observed: Option<ObservedState>) | Refused(why: Refusal)

  /** A checkpoint just stored from standard input, and the session as it is read again after that. */
  datatype Recording = Recording(id: string, reread: Projection)

  function WhatWasObserved(slot: Slot): Option<ObservedState> {
    if slot.payload.None? then None
    else if slot.payload.value.observed.Some? then slot.payload.value.observed
    else Some(ObservedState("", ""))
  }

  predicate HasDirectory(p: Projection) {
    p.latestObserved.payload.Some? && WhatWasObserved(p.latestObserved).value.cwd != ""
  }

  /** The projection a handoff goes by in the end. */
  function LastRead(p: Projection, recorded: Option<Recording>): Projection {
    if recorded.Some? then recorded.value.reread else p
  }

  /**
   * The checks on a source session. The working directory is tested before a checkpoint is recorded and not
   * again after it; the rest goes by the last read.
   */
  function HandoffSource(p: Projection, recorded: Option<Recording>): Source {
    if p.unorderable then Refused(Unorderable)
    else if !HasDirectory(p) then Refused(NoDirectory)
    else if recorded.Some? && p.endedExists then Refused(SessionEnded)
    else
      var last := LastRead(p, recorded);
      if last.unorderable then Refused(Unorderable)
      else if recorded.Some? && last.newestCheckpoint.id != recorded.value.id then Refused(CheckpointOvertaken)
      else if last.newestCheckpoint.id != "" && last.newestCheckpoint.id != last.latestCheckpoint.id
        then Refused(CheckpointUnusable)
      else if last.newestObservation.id != "" && last.newestObservation.id != last.latestObserved.id
        then Refused(ObservationUnusable)
      else if last.latestCheckpoint.payload.None? then Refused(NoCheckpoint)
      else Accepted(last.latestCheckpoint.payload.value, WhatWasObserved(last.latestObserved))
  }

  /** `row` is the newest of its class among all the session's rows, whatever they decode to. */
  predicate Newest(rows: set<Row>, session: string, c: Class, row: Row) {
    && row in rows && Belongs(row, session, c)
    && forall other :: other in rows && Belongs(other, session, c) ==> !Newer(other, AsSlot(row))
  }

  /**
   * A handoff that passes its checks uses the newest checkpoint and the newest observation evidence of
   * everything stored for the session at the last read, valid or not, and nothing of the session is without a
   * usable instant. A checkpoint just recorded is that newest one.
   */
  lemma HandoffUsesNewest(rows: set<Row>, session: string, p: Projection, recorded: Option<Recording>)
    requires Identified(rows) && Projects(rows, session, LastRead(p, recorded))
    requires LastRead(p, recorded).unorderable <==> UnorderableEvidence(rows, session)
    requires forall row :: row in rows ==> row.id != ""
    requires HandoffSource(p, recorded).Accepted?
    ensures !UnorderableEvidence(rows, session)
    ensures exists row ::
              && LatestOfAll(rows, session, AnyCheckpoint, row) && LatestOfAll(rows, session, SupportedCheckpoint, row)
              && HandoffSource(p, recorded).checkpoint == row.payload.value
              && (recorded.Some? ==> row.id == recorded.value.id)
    ensures exists row ::
              && LatestOfAll(rows, session, ObservationEvidence, row) && LatestOfAll(rows, session, Observation, row)
              && HandoffSource(p, recorded).observed == Some(ObservedBy(row.payload.value))
  {
    hide Newest, Projects, InClass, LatestOfAll;
    var last := LastRead(p, recorded);
    ClassesNest();
    var c := SameRow(rows, session, last, SupportedCheckpoint, AnyCheckpoint);
    NewestBelongs(rows, session, c);
    NewestSpelledOut(rows, session, AnyCheckpoint, c);
    NewestSpelledOut(rows, session, SupportedCheckpoint, c);
    SeenSomething(rows, session, last);
    var o := SameRow(rows, session, last, Observation, ObservationEvidence);
    NewestSpelledOut(rows, session, ObservationEvidence, o);
    NewestSpelledOut(rows, session, Observation, o);
  }

  /** What a payload says was observed; a start or checkpoint without anything counts as an empty observation. */
  function ObservedBy(payload: Payload): ObservedState {
    if payload.observed.Some? then payload.observed.value else ObservedState("", "")
  }

  lemma NewestSpelledOut(rows: set<Row>, session: string, c: Class, row: Row)
    ensures Newest(rows, session, c, row) <==> LatestOfAll(rows, session, c, row)
  {
    hide InClass, Qualifies;
    forall other ensures Belongs(other, session, c) <==> Qualifies(other, session, c) {
      ClassesSpelledOut(other, session, c);
    }
    forall other | Belongs(other, session, c) && Belongs(row, session, c)
      ensures !Newer(other, AsSlot(row)) <==>
        || other.timestamp.value < row.timestamp.value
        || (other.timestamp.value == row.timestamp.value && (other.id == row.id || Text.Less(other.id, row.id)))
    {
      Text.LessTotal(other.id, row.id);
    }
  }

  /** Exactly when a handoff passes, and what it is refused for otherwise. */
  lemma HandoffDecided(p: Projection, recorded: Option<Recording>)
    ensures var last := if recorded.Some? then recorded.value.reread else p;
            var directory := p.latestObserved.payload.Some? && ObservedBy(p.latestObserved.payload.value).cwd != "";
            var startable := !p.unorderable && directory && (recorded.Some? ==> !p.endedExists) && !last.unorderable;
            var overtaken := recorded.Some? && last.newestCheckpoint.id != recorded.value.id;
            var stale := last.newestCheckpoint.id != "" && last.newestCheckpoint.id != last.latestCheckpoint.id;
            var unseen := last.newestObservation.id != "" && last.newestObservation.id != last.latestObserved.id;
            && (p.unorderable ==> HandoffSource(p, recorded) == Refused(Unorderable))
            && (!p.unorderable && !directory ==> HandoffSource(p, recorded) == Refused(NoDirectory))
            && (!p.unorderable && directory && recorded.Some? && p.endedExists ==>
                  HandoffSource(p, recorded) == Refused(SessionEnded))
            && (!p.unorderable && directory && (recorded.Some? ==> !p.endedExists) && last.unorderable ==>
                  HandoffSource(p, recorded) == Refused(Unorderable))
            && (startable && overtaken ==> HandoffSource(p, recorded) == Refused(CheckpointOvertaken))
            && (startable && !overtaken && stale ==> HandoffSource(p, recorded) == Refused(CheckpointUnusable))
            && (startable && !overtaken && !stale && unseen ==>
                  HandoffSource(p, recorded) == Refused(ObservationUnusable))
            && (startable && !overtaken && !stale && !unseen && last.latestCheckpoint.payload.None? ==>
                  HandoffSource(p, recorded) == Refused(NoCheckpoint))
            && (HandoffSource(p, recorded).Accepted? <==>
                  startable && !overtaken && !stale && !unseen && last.latestCheckpoint.payload.Some?)
  {
  }

  /** A usable checkpoint is an observation too. */
  lemma NewestBelongs(rows: set<Row>, session: string, row: Row)
    requires Newest(rows, session, SupportedCheckpoint, row)
    ensures row in rows && Belongs(row, session, Observation)
  {
  }

  lemma SeenSomething(rows: set<Row>, session: string, p: Projection)
    requires Projects(rows, session, p) && exists row :: row in rows && Belongs(row, session, Observation)
    ensures p.latestObserved != EMPTY && WhatWasObserved(p.latestObserved).Some?
  {
    hide Newer, Projects;
    BestIsNewest(rows, session, p, Observation);
    var row :| Newest(rows, session, Observation, row) && SlotOf(p, Observation) == AsSlot(row);
  }

  lemma ClassesNest()
    ensures forall row :: InClass(row, SupportedCheckpoint) ==> InClass(row, AnyCheckpoint)
    ensures forall row :: InClass(row, Observation) ==> InClass(row, ObservationEvidence)
  {
  }

  /** Two selections that name the same row, the narrower of them not empty: it is the newest in both classes. */
  lemma SameRow(rows: set<Row>, session: string, p: Projection, narrow: Class, wide: Class) returns (row: Row)
    requires Identified(rows) && Projects(rows, session, p) && forall r :: r in rows ==> r.id != ""
    requires SlotOf(p, narrow) != EMPTY && (SlotOf(p, wide).id == "" || SlotOf(p, wide).id == SlotOf(p, narrow).id)
    requires forall r :: InClass(r, narrow) ==> InClass(r, wide)
    ensures Newest(rows, session, narrow, row) && Newest(rows, session, wide, row)
    ensures SlotOf(p, narrow) == AsSlot(row) && SlotOf(p, wide) == AsSlot(row)
  {
    hide Newer, InClass, Projects;
    BestIsNewest(rows, session, p, narrow);
    row :| Newest(rows, session, narrow, row) && SlotOf(p, narrow) == AsSlot(row);
    assert Belongs(row, session, wide);
    BestIsNewest(rows, session, p, wide);
    var other :| Newest(rows, session, wide, other) && SlotOf(p, wide) == AsSlot(other);
    assert other == row;
  }

  lemma BestIsNewest(rows: set<Row>, session: string, p: Projection, c: Class)
    requires Projects(rows, session, p)
    requires SlotOf(p, c) != EMPTY || exists row :: row in rows && Belongs(row, session, c)
    ensures exists row :: Newest(rows, session, c, row) && SlotOf(p, c) == AsSlot(row)
  {
    hide Newer, InClass;
    var slot := SlotOf(p, c);
    assert Best(rows, session, c, slot);
    var row :| row in rows && Belongs(row, session, c) && slot == AsSlot(row)
               && forall other :: other in rows && Belongs(other, session, c) ==> !Newer(other, slot);
    assert Newest(rows, session, c, row);
  }

  /**
   * And it is refused only for cause: once the first read passed, when the newest checkpoint and the newest
   * evidence at the last read are themselves usable they are what is handed off, unless the checkpoint just
   * recorded is not the newest.
   */
  lemma HandoffAccepts(rows: set<Row>, session: string, p: Projection, recorded: Option<Recording>, checkpoint: Row,
      evidence: Row)
    requires Identified(rows) && Projects(rows, session, LastRead(p, recorded))
    requires LastRead(p, recorded).unorderable <==> UnorderableEvidence(rows, session)
    requires !p.unorderable && HasDirectory(p) && (recorded.Some? ==> !p.endedExists)
    requires !UnorderableEvidence(rows, session)
    requires LatestOfAll(rows, session, AnyCheckpoint, checkpoint) && Decodes(checkpoint)
    requires LatestOfAll(rows, session, ObservationEvidence, evidence) && Qualifies(evidence, session, Observation)
    ensures HandoffSource(p, recorded)
            == if recorded.Some? && recorded.value.id != checkpoint.id then Refused(CheckpointOvertaken)
               else Accepted(checkpoint.payload.value, Some(ObservedBy(evidence.payload.value)))
  {
    hide LatestOfAll;
    var last := LastRead(p, recorded);
    NewestSpelledOut(rows, session, AnyCheckpoint, checkpoint);
    NewestSpelledOut(rows, session, ObservationEvidence, evidence);
    ClassesSpelledOut(checkpoint, session, SupportedCheckpoint);
    ClassesSpelledOut(evidence, session, Observation);
    QualifiesSupported(rows, session, checkpoint, evidence);
    NewestIsSlot(rows, session, last, AnyCheckpoint, checkpoint);
    NewestIsSlot(rows, session, last, SupportedCheckpoint, checkpoint);
    NewestIsSlot(rows, session, last, ObservationEvidence, evidence);
    NewestIsSlot(rows, session, last, Observation, evidence);
  }

  lemma QualifiesSupported(rows: set<Row>, session: string, checkpoint: Row, evidence: Row)
    requires LatestOfAll(rows, session, AnyCheckpoint, checkpoint) && Decodes(checkpoint)
    requires LatestOfAll(rows, session, ObservationEvidence, evidence)
    ensures checkpoint in rows && evidence in rows && Qualifies(checkpoint, session, SupportedCheckpoint)
  {
  }

  lemma NewestIsSlot(rows: set<Row>, session: string, p: Projection, c: Class, row: Row)
    requires Identified(rows) && Projects(rows, session, p)
    requires row in rows && Belongs(row, session, c)
    requires forall other :: other in rows && Belongs(other, session, c) ==> !Newer(other, AsSlot(row))
    ensures SlotOf(p, c) == AsSlot(row)
  {
    assert Best(rows, session, c, SlotOf(p, c));
    assert Best(rows, session, c, AsSlot(row));
    BestUnique(rows, session, c, SlotOf(p, c), AsSlot(row));
  }

  // ---- Finding a session by the tool's own session id -------------------------------------------------

  datatype Candidate = Candidate(tool: string, nativeIds: set<string>, latest: int)

  const NEW_CANDIDATE := Candidate("", {}, 0)

  /** The lookup reads only envelopes of the supported version that name a session. */
  predicate NamesSession(row: Row, session: string) {
    Supported(row) && row.session == Some(session) && session != ""
  }

  predicate BindsNative(row: Row) {
    row.eventType == NativeBound && row.payload.Some?
  }

  /** A start sets the tool; a binding sets it only where there is none. */
  function Learned(c: Candidate, row: Row): Candidate {
    var timed := if row.timestamp.Some? && row.timestamp.value > c.latest then c.(latest := row.timestamp.value) else c;
    if row.eventType == Started && row.payload.Some? then
      var payload := row.payload.value;
      timed.(tool := payload.tool,
             nativeIds := timed.nativeIds + (if payload.nativeSession != "" then {payload.nativeSession} else {}))
    else if BindsNative(row) then
      var payload := row.payload.value;
      timed.(tool := if timed.tool == "" then payload.tool else timed.tool,
             nativeIds := timed.nativeIds + {payload.nativeSession})
    else timed
  }

  function CandidateOf(rows: seq<Row>, session: string): Candidate {
    if rows == [] then NEW_CANDIDATE
    else
      var last, before := rows[|rows| - 1], CandidateOf(rows[..|rows| - 1], session);
      if NamesSession(last, session) then Learned(before, last) else before
  }

  function Candidates(rows: seq<Row>): map<string, Candidate> {
    map s | s in SessionsOf(rows) && (exists row :: row in rows && NamesSession(row, s)) :: CandidateOf(rows, s)
  }

  /** `row` says that the session runs under this native id. */
  predicate SaysNative(row: Row, session: string, native: string) {
    Names(row, session) && row.payload.Some? && row.payload.value.nativeSession == native
    && (row.eventType == NativeBound || (row.eventType == Started && native != ""))
  }

  /** The row's envelope is of schema version 1 and names this session. */
  predicate Names(row: Row, session: string) {
    row.version == Some(1) && row.session == Some(session) && session != ""
  }

  predicate StartNames(row: Row, session: string, tool: string) {
    Names(row, session) && row.eventType == Started && row.payload.Some? && row.payload.value.tool == tool
  }

  /** Some start event of the session decodes, and all that do say this tool. */
  predicate ToolAgreed(rows: seq<Row>, session: string, tool: string) {
    && tool != "" && (exists row :: row in rows && StartNames(row, session, tool))
    && forall row :: row in rows && Names(row, session) && row.eventType == Started && row.payload.Some? ==>
         row.payload.value.tool == tool
  }

  /** The latest instant, not before the zero time, at which anything was said of the session. */
  predicate LatestOf(rows: seq<Row>, session: string, latest: int) {
    && (forall row :: row in rows && Names(row, session) && row.timestamp.Some? ==>
           row.timestamp.value <= latest)
    && latest >= 0
    && (latest == 0 || exists row :: row in rows && Names(row, session) && row.timestamp == Some(latest))
  }

  /**
   * Whatever the order of the rows, a candidate has the native ids and the latest instant that they say, and
   * the tool of its start events when those that decode agree on one.
   */
  lemma {:induction false} CandidateMeans(rows: seq<Row>, session: string, native: string, tool: string)
    ensures native in CandidateOf(rows, session).nativeIds <==>
      exists row :: row in rows && SaysNative(row, session, native)
    ensures LatestOf(rows, session, CandidateOf(rows, session).latest)
    ensures ToolAgreed(rows, session, tool) ==> CandidateOf(rows, session).tool == tool
  {
    hide CandidateOf, SaysNative, LatestOf, ToolAgreed;
    if rows == [] {
      NothingSaid(session, native, tool);
    } else {
      var init, last := rows[..|rows| - 1], rows[|rows| - 1];
      CandidateMeans(init, session, native, tool);
      assert rows == init + [last];
      NativeStep(init, last, session, native);
      LatestStep(init, last, session);
      ToolStep(init, last, session, tool);
    }
  }

  lemma NothingSaid(session: string, native: string, tool: string)
    ensures CandidateOf([], session) == NEW_CANDIDATE && LatestOf([], session, 0) && !ToolAgreed([], session, tool)
  {
  }

  lemma ToolStep(init: seq<Row>, last: Row, session: string, tool: string)
    requires ToolAgreed(init, session, tool) ==> CandidateOf(init, session).tool == tool
    ensures ToolAgreed(init + [last], session, tool) ==> CandidateOf(init + [last], session).tool == tool
  {
    CandidateStep(init, last, session);
    hide CandidateOf;
    var rows := init + [last];
    assert last in rows && forall row :: row in init ==> row in rows;
    if ToolAgreed(rows, session, tool) {
      var row :| row in rows && StartNames(row, session, tool);
      if row in init {
        assert ToolAgreed(init, session, tool);
      } else {
        assert row == last;
      }
      if NamesSession(last, session) && StartsSession(last) { assert last.payload.value.tool == tool; }
    }
  }

  lemma NativeStep(init: seq<Row>, last: Row, session: string, native: string)
    requires native in CandidateOf(init, session).nativeIds <==>
      exists row :: row in init && SaysNative(row, session, native)
    ensures native in CandidateOf(init + [last], session).nativeIds
            <==> exists row :: row in init + [last] && SaysNative(row, session, native)
  {
    CandidateStep(init, last, session);
    hide CandidateOf;
    assert last in init + [last] && forall row :: row in init ==> row in init + [last];
  }

  lemma LatestStep(init: seq<Row>, last: Row, session: string)
    requires LatestOf(init, session, CandidateOf(init, session).latest)
    ensures LatestOf(init + [last], session, CandidateOf(init + [last], session).latest)
  {
    CandidateStep(init, last, session);
    hide CandidateOf;
    assert last in init + [last] && forall row :: row in init ==> row in init + [last];
  }

  lemma CandidateStep(init: seq<Row>, last: Row, session: string)
    ensures CandidateOf(init + [last], session)
            == if NamesSession(last, session) then Learned(CandidateOf(init, session), last)
              else CandidateOf(init, session)
  {
    hide Learned, NamesSession;
    assert (init + [last])[..|init|] == init;
  }

  predicate Matches(bySession: map<string, Candidate>, tool: string, native: string, excluded: string, s: string) {
    s in bySession && s != excluded && bySession[s].tool == tool && native in bySession[s].nativeIds
  }

  /** Ranked by latest event, ties by the smaller session id. */
  predicate Outranks(bySession: map<string, Candidate>, a: string, b: string)
    requires a in bySession && b in bySession
  {
    bySession[a].latest > bySession[b].latest || (bySession[a].latest == bySession[b].latest && Text.Less(a, b))
  }

  /** The first loop: one candidate per session, filled in row by row. */
  method GatherCandidates(rows: seq<Row>) returns (bySession: map<string, Candidate>)
    ensures bySession == Candidates(rows) && "" !in bySession
  {
    hide CandidateOf;
    bySession := map[];
    assert rows[..0] == [];
    for i := 0 to |rows|
      invariant forall s :: s in bySession <==> exists row :: row in rows[..i] && NamesSession(row, s)
      invariant forall s :: s in bySession ==> bySession[s] == CandidateOf(rows[..i], s)
    {
      var row := rows[i];
      assert rows[..i + 1] == rows[..i] + [row];
      forall s ensures CandidateOf(rows[..i + 1], s)
        == if NamesSession(row, s) then Learned(CandidateOf(rows[..i], s), row) else CandidateOf(rows[..i], s)
      {
        CandidateStep(rows[..i], row, s);
      }
      if !Supported(row) || row.session.None? || row.session.value == "" { continue; }
      var session := row.session.value;
      if session !in bySession { NoCandidate(rows[..i], session); }
      var entry := if session in bySession then bySession[session] else NEW_CANDIDATE;
      assert NamesSession(row, session);
      if row.timestamp.Some? && row.timestamp.value > entry.latest { entry := entry.(latest := row.timestamp.value); }
      match row.eventType {
        case Started =>
          if row.payload.Some? {
            entry := entry.(tool := row.payload.value.tool);
            if row.payload.value.nativeSession != "" {
              entry := entry.(nativeIds := entry.nativeIds + {row.payload.value.nativeSession});
            }
          }
        case NativeBound =>
          if row.payload.Some? {
            if entry.tool == "" { entry := entry.(tool := row.payload.value.tool); }
            entry := entry.(nativeIds := entry.nativeIds + {row.payload.value.nativeSession});
          }
        case _ =>
      }
      bySession := bySession[session := entry];
    }
    assert rows[..|rows|] == rows;
    forall s | s in bySession ensures s in SessionsOf(rows) {
      var row :| row in rows && NamesSession(row, s);
    }
    assert bySession.Keys == Candidates(rows).Keys;
  }

  lemma {:induction false} NoCandidate(rows: seq<Row>, session: string)
    requires forall row :: row in rows ==> !NamesSession(row, session)
    ensures CandidateOf(rows, session) == NEW_CANDIDATE
  {
    if rows != [] {
      assert rows[|rows| - 1] in rows;
      NoCandidate(rows[..|rows| - 1], session);
    }
  }

  /** The lookup over all stored rows. */
  method FindLatestByNativeId(rows: seq<Row>, tool: string, native: string, excluded: string) returns (selected: string)
    ensures forall s :: s in Candidates(rows) <==> exists row :: row in rows && Names(row, s)
    ensures selected == "" ==> forall s :: s in Candidates(rows) && s != excluded ==>
      Candidates(rows)[s].tool != tool || native !in Candidates(rows)[s].nativeIds
    ensures selected != "" ==>
      && selected in Candidates(rows) && selected != excluded
      && Candidates(rows)[selected].tool == tool && native in Candidates(rows)[selected].nativeIds
    ensures selected != "" ==>
      forall s | s in Candidates(rows) && s != excluded && s != selected
                 && Candidates(rows)[s].tool == tool && native in Candidates(rows)[s].nativeIds ::
        var best, other := Candidates(rows)[selected].latest, Candidates(rows)[s].latest;
        other < best || (other == best && Text.Less(selected, s))
  {
    hide CandidateOf;
    var bySession := GatherCandidates(rows);
    NamedCandidates(rows);
    selected := SelectLatest(bySession, tool, native, excluded);
    hide Candidates;
    assert forall s :: Matches(bySession, tool, native, excluded, s) <==>
      s in bySession && s != excluded && bySession[s].tool == tool && native in bySession[s].nativeIds;
  }

  lemma NamedCandidates(rows: seq<Row>)
    ensures forall s :: s in Candidates(rows) <==> exists row :: row in rows && Names(row, s)
  {
    hide CandidateOf;
    forall s, row | row in rows && Names(row, s) ensures s in SessionsOf(rows) {
    }
  }

  /** Whatever order the map is walked in, the answer is the one candidate no other outranks. */
  method SelectLatest(bySession: map<string, Candidate>, tool: string, native: string, excluded: string)
    returns (selected: string)
    requires "" !in bySession
    ensures selected == "" <==> forall s :: !Matches(bySession, tool, native, excluded, s)
    ensures selected != "" ==> Matches(bySession, tool, native, excluded, selected)
    ensures selected != "" ==> forall s :: Matches(bySession, tool, native, excluded, s) && s != selected ==>
      Outranks(bySession, selected, s)
  {
    selected := "";
    var selectedTime := 0;
    var left := bySession.Keys;
    while left != {}
      invariant left <= bySession.Keys
      invariant selected == "" <==> forall s :: Matches(bySession, tool, native, excluded, s) ==> s in left
      invariant selected != "" ==> Matches(bySession, tool, native, excluded, selected) && selected !in left
                                   && selectedTime == bySession[selected].latest
      invariant selected != "" ==>
        forall s :: Matches(bySession, tool, native, excluded, s) && s != selected && s !in left ==>
                      Outranks(bySession, selected, s)
      decreases left
    {
      var s :| s in left;
      left := left - {s};
      var entry := bySession[s];
      if s != excluded && entry.tool == tool && native in entry.nativeIds {
        assert Matches(bySession, tool, native, excluded, s);
        if selected == "" || entry.latest > selectedTime || (entry.latest == selectedTime && Text.Less(s, selected)) {
          if selected != "" { OutranksTransitive(bySession, s, selected); }
          selected, selectedTime := s, entry.latest;
        } else {
          Text.LessTotal(s, selected);
        }
      }
    }
  }

  lemma OutranksTransitive(bySession: map<string, Candidate>, a: string, b: string)
    requires a in bySession && b in bySession && Outranks(bySession, a, b)
    ensures forall c :: c in bySession && Outranks(bySession, b, c) ==> Outranks(bySession, a, c)
  {
    forall c | c in bySession && Outranks(bySession, b, c) ensures Outranks(bySession, a, c) {
      if Text.Less(a, b) && Text.Less(b, c) { Text.LessTransitive(a, b, c); }
    }
  }
}
