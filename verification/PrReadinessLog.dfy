/** The remembered readiness of a pull request against what the event log alone would say. */
module PrReadinessLog {
  import opened Options
  import opened Rfc3339
  import opened Readiness
  import opened PrWatch
  import Text

  // ---- Readiness as a sequence of signals -----------------------------------------------------------

  predicate Bearing(e: Event) {
    match e.key.kind
    case Observed => e.ready.Some?
    case ReadyToMerge | ReadinessLost => true
    case _ => false
  }

  predicate SignalOf(e: Event) {
    match e.key.kind
    case Observed => e.ready.Some? && e.ready.value
    case ReadyToMerge => true
    case _ => false
  }

  function LastSignal(h: seq<Event>): Option<bool> {
    if h == [] then None
    else if Bearing(h[|h| - 1]) then Some(SignalOf(h[|h| - 1]))
    else LastSignal(h[..|h| - 1])
  }

  lemma {:induction false} AbsorbedSignal(h: seq<Event>)
    ensures Absorbed(h).ready == LastSignal(h)
  {
    if h != [] { AbsorbedSignal(h[..|h| - 1]); }
  }

  /** Some readiness event in `s` sorts after `e`. */
  predicate Overtaken(e: Event, s: seq<Event>) {
    exists x :: x in s && Bearing(x) && SortsBefore(e, x)
  }

  /** Where an event lands in text order decides whether it is the one that counts. */
  lemma {:induction false} InsertedSignal(e: Event, s: seq<Event>)
    requires InOrder(s)
    ensures LastSignal(Insert(e, s)) ==
            if Bearing(e) && !Overtaken(e, s) then Some(SignalOf(e)) else LastSignal(s)
  {
    hide SortsBefore, SignalOf, Bearing;
    if s != [] {
      var last := s[|s| - 1];
      var init := s[..|s| - 1];
      assert s == init + [last];
      if SortsBefore(e, last) {
        InsertedSignal(e, init);
        var r := Insert(e, init);
        assert (r + [last])[..|r|] == r;
        if Bearing(last) {
          assert last in s && Overtaken(e, s);
        } else {
          assert Overtaken(e, s) <==> Overtaken(e, init);
        }
      } else {
        assert (s + [e])[..|s|] == s;
        forall x | x in s ensures !SortsBefore(e, x) {
          var i :| 0 <= i < |s| && s[i] == x;
          if i < |s| - 1 && SortsBefore(e, x) { SortsBeforeTransitive(x, last, e); }
        }
      }
    }
  }

  /** Replaying the log stays right exactly when the new event sorts after every earlier readiness event. */
  lemma AgreementSurvivesExactly(log: seq<Event>, node: NodeId, known: LastKnown, s: Seen, at: nat, facts: Facts)
    requires s.node.id == node
    requires known.ready == Some(true) <==> Replay(log, node).ready == Some(true)
    requires var news := TransitionEvents(known, s, at, facts); news != [] && Bearing(news[0])
    ensures var e := TransitionEvents(known, s, at, facts)[0];
            (Learned(known, facts).ready == Some(true) <==> Replay(log + [e], node).ready == Some(true))
            <==> !Overtaken(e, History(log, node))
  {
    hide SortsBefore, SignalOf, Bearing, Verdict, Relevant, Insert, TransitionEvents, Learned, SortedHistory, History;
    var e := TransitionEvents(known, s, at, facts)[0];
    var h := History(log, node);
    TransitionFlips(known, s, at, facts);
    HistoryExtended(log, e, node);
    SortedExtended(h, e);
    InsertedSignal(e, SortedHistory(h));
    AbsorbedSignal(SortedHistory(h));
    AbsorbedSignal(Insert(e, SortedHistory(h)));
    SameElements(h);
  }

  lemma TransitionFlips(known: LastKnown, s: Seen, at: nat, facts: Facts)
    requires var news := TransitionEvents(known, s, at, facts); news != [] && Bearing(news[0])
    ensures var e := TransitionEvents(known, s, at, facts)[0];
            && Relevant(e, s.node.id)
            && SignalOf(e) == (known.ready != Some(true))
            && Learned(known, facts).ready == Some(SignalOf(e))
  {
  }

  lemma {:induction false} InHistory(log: seq<Event>, node: NodeId, i: nat)
    requires i < |log| && Relevant(log[i], node)
    ensures log[i] in History(log, node)
  {
    var init := log[..|log| - 1];
    if i < |log| - 1 {
      InHistory(init, node, i);
    }
  }

  lemma SameElements(h: seq<Event>)
    ensures forall x :: x in SortedHistory(h) <==> x in h
    ensures forall e :: Overtaken(e, SortedHistory(h)) <==> Overtaken(e, h)
  {
    hide SortsBefore, Bearing;
    forall x ensures x in SortedHistory(h) <==> x in h {
      assert x in multiset(SortedHistory(h)) <==> x in multiset(h);
    }
  }

  lemma HistoryExtended(log: seq<Event>, e: Event, node: NodeId)
    ensures History(log + [e], node) == if Relevant(e, node) then History(log, node) + [e] else History(log, node)
  {
    assert (log + [e])[..|log|] == log;
  }

  lemma SortedExtended(h: seq<Event>, e: Event)
    ensures SortedHistory(h + [e]) == Insert(e, SortedHistory(h))
  {
    hide Insert, SortsBefore;
    assert (h + [e])[..|h|] == h;
  }

  // ---- Histories written by well-spaced polls ---------------------------------------------------------

  /** Written by a poll in a later second, or by the same poll: a conflict after a readiness change. */
  predicate Later(a: Event, b: Event) {
    || a.at / SECOND < b.at / SECOND
    || (a.at == b.at && b.key.kind == MergeConflict && (a.key.kind == ReadyToMerge || a.key.kind == ReadinessLost))
  }

  predicate Ordered(h: seq<Event>) {
    && (forall i :: 0 <= i < |h| ==> FourDigitYear(h[i].at))
    && (forall i, j :: 0 <= i < j < |h| ==> Later(h[i], h[j]))
  }

  lemma LaterSortsAfter(a: Event, b: Event)
    requires Later(a, b) && FourDigitYear(b.at)
    requires a.key.kind == Observed || Bearing(b)
    ensures !SortsBefore(b, a)
  {
    LaterSecondIsAfter(a.at, b.at);
    AsymmetricOrder(a, b);
  }

  lemma {:induction false} ReplayedInOrder(h: seq<Event>)
    requires Ordered(h)
    ensures LastSignal(SortedHistory(h)) == LastSignal(h)
  {
    hide SortsBefore, FourDigitYear;
    if h != [] {
      var init := h[..|h| - 1];
      var e := h[|h| - 1];
      ReplayedInOrder(init);
      InsertedSignal(e, SortedHistory(init));
      forall x | x in SortedHistory(init) && Bearing(x) && Bearing(e) ensures !SortsBefore(e, x) {
        assert x in multiset(init);
        var i :| 0 <= i < |init| && init[i] == x;
        LaterSortsAfter(h[i], h[|h| - 1]);
      }
    }
  }

  predicate Alternating(h: seq<Event>) {
    forall j :: 0 <= j < |h| && Bearing(h[j]) ==> LastSignal(h[..j]) != Some(SignalOf(h[j]))
  }

  // Conflicts.

  predicate Conflicted(e: Event) {
    e.key.kind == MergeConflict || (e.key.kind == Observed && e.mergeable == MergeableConflicting)
  }

  predicate HasConflict(h: seq<Event>) {
    exists i :: 0 <= i < |h| && Conflicted(h[i])
  }

  lemma {:induction false} ConflictRemembered(h: seq<Event>)
    requires Absorbed(h).mergeable == Some(MergeableConflicting)
    ensures HasConflict(h)
  {
    var k := |h| - 1;
    assert h != [];
    if !Conflicted(h[k]) {
      ConflictRemembered(h[..k]);
      var i :| 0 <= i < k && Conflicted(h[..k][i]);
      assert Conflicted(h[i]);
    }
  }

  predicate ObservedFirst(h: seq<Event>) {
    forall i :: 0 <= i < |h| ==> (h[i].key.kind == Observed <==> i == 0)
  }

  lemma {:induction false} InsertedConflict(e: Event, s: seq<Event>)
    requires e.key.kind != Observed
    requires forall x :: x in s && x.key.kind == Observed && e.key.kind == MergeConflict ==> !SortsBefore(e, x)
    ensures Absorbed(s).mergeable == Some(MergeableConflicting) || e.key.kind == MergeConflict ==>
              Absorbed(Insert(e, s)).mergeable == Some(MergeableConflicting)
  {
    hide SortsBefore, Absorbed;
    AbsorbedStep(s, e);
    if s == [] {
      assert [] + [e] == [e];
    } else {
      var last := s[|s| - 1];
      var init := s[..|s| - 1];
      assert s == init + [last];
      if SortsBefore(e, last) {
        InsertedConflict(e, init);
        AbsorbedStep(init, last);
        AbsorbedStep(Insert(e, init), last);
      }
    }
  }

  lemma AbsorbedStep(s: seq<Event>, e: Event)
    ensures Absorbed(s + [e]) == Absorb(Absorbed(s), e)
  {
    assert (s + [e])[..|s|] == s;
  }

  lemma {:induction false} ConflictReplayed(h: seq<Event>)
    requires Ordered(h) && ObservedFirst(h) && HasConflict(h)
    ensures Absorbed(SortedHistory(h)).mergeable == Some(MergeableConflicting)
  {
    hide SortsBefore, FourDigitYear, Conflicted, Absorbed, Insert, SortedHistory, Later;
    var k := |h| - 1;
    var init, e := h[..k], h[k];
    assert h == init + [e];
    if k == 0 {
      assert init == [];
      OnlyConflict(e);
    } else {
      ConflictsOf(init, e);
      if HasConflict(init) { ConflictReplayed(init); }
      forall x | x in SortedHistory(init) && x.key.kind == Observed ensures !SortsBefore(e, x) {
        assert x in multiset(init);
        var i :| 0 <= i < |init| && init[i] == x;
        LaterSortsAfter(h[i], h[k]);
      }
      SortedExtended(init, e);
      InsertedConflict(e, SortedHistory(init));
    }
  }

  lemma OnlyConflict(e: Event)
    requires Conflicted(e)
    ensures Absorbed(SortedHistory([e])).mergeable == Some(MergeableConflicting)
  {
    assert Insert(e, []) == [e] && [e][..0] == [];
  }

  /** After the first sight, only a conflict event is a conflict. */
  lemma ConflictsOf(init: seq<Event>, e: Event)
    requires init != [] && ObservedFirst(init + [e]) && HasConflict(init + [e])
    ensures HasConflict(init) || e.key.kind == MergeConflict
    ensures e.key.kind != Observed
  {
    var i :| 0 <= i < |init + [e]| && Conflicted((init + [e])[i]);
    assert i < |init| ==> Conflicted(init[i]);
    assert (init + [e])[|init|] == e;
  }

  // ---- What a replay comes to, spelled out ----------------------------------------------------------

  /** The event is the author role's, about this pull request, and says whether it is ready. */
  predicate Says(e: Event, node: NodeId, ready: bool) {
    && e.key.node == node && e.role == Author
    && match e.key.kind
       case Observed => e.ready == Some(ready)
       case ReadyToMerge => ready
       case ReadinessLost => !ready
       case _ => false
  }

  /** The event says whether the pull request could be merged. */
  predicate SaysMergeable(e: Event, node: NodeId, mergeable: Mergeable) {
    && e.key.node == node && e.role == Author
    && match e.key.kind
       case Observed => e.mergeable == mergeable && mergeable != MergeableUnknown
       case MergeConflict => mergeable == MergeableConflicting
       case _ => false
  }

  /** `ready` is what the last event of the list that says anything of it says. */
  predicate LastReady(h: seq<Event>, node: NodeId, ready: Option<bool>) {
    if ready.None? then forall i, b :: 0 <= i < |h| ==> !Says(h[i], node, b)
    else exists i :: && 0 <= i < |h| && Says(h[i], node, ready.value)
                     && forall j, b :: i < j < |h| ==> !Says(h[j], node, b)
  }

  ghost predicate LastMergeable(h: seq<Event>, node: NodeId, mergeable: Option<Mergeable>) {
    if mergeable.None? then forall i, m :: 0 <= i < |h| ==> !SaysMergeable(h[i], node, m)
    else exists i :: && 0 <= i < |h| && SaysMergeable(h[i], node, mergeable.value)
                     && forall j, m :: i < j < |h| ==> !SaysMergeable(h[j], node, m)
  }

  lemma {:induction false} LastSays(h: seq<Event>, node: NodeId)
    requires forall i :: 0 <= i < |h| ==> Relevant(h[i], node)
    ensures LastReady(h, node, Absorbed(h).ready) && LastMergeable(h, node, Absorbed(h).mergeable)
  {
    hide LastReady, LastMergeable, Absorb, Relevant;
    if h == [] {
      NothingSaid(node);
    } else {
      var init, last := h[..|h| - 1], h[|h| - 1];
      LastSays(init, node);
      assert h == init + [last] && Relevant(h[|h| - 1], node);
      OneMoreSays(init, last, node, Absorbed(init));
    }
  }

  lemma NothingSaid(node: NodeId)
    ensures LastReady([], node, None) && LastMergeable([], node, None)
  {
  }

  lemma OneMoreSays(init: seq<Event>, last: Event, node: NodeId, known: LastKnown)
    requires Relevant(last, node) && LastReady(init, node, known.ready) && LastMergeable(init, node, known.mergeable)
    ensures LastReady(init + [last], node, Absorb(known, last).ready)
    ensures LastMergeable(init + [last], node, Absorb(known, last).mergeable)
  {
    hide Says, SaysMergeable, LastReady, LastMergeable;
    OneSays(last, node, known);
    ReadyCarried(init, last, node, known.ready, Absorb(known, last).ready);
    MergeableCarried(init, last, node, known.mergeable, Absorb(known, last).mergeable);
  }

  lemma OneSays(last: Event, node: NodeId, known: LastKnown)
    requires Relevant(last, node)
    ensures var now := Absorb(known, last);
            && (if now.ready.Some? && Says(last, node, now.ready.value) then true
                else now.ready == known.ready && forall b :: !Says(last, node, b))
            && (if now.mergeable.Some? && SaysMergeable(last, node, now.mergeable.value) then true
                else now.mergeable == known.mergeable && forall m :: !SaysMergeable(last, node, m))
  {
  }

  lemma ReadyCarried(init: seq<Event>, last: Event, node: NodeId, was: Option<bool>, now: Option<bool>)
    requires LastReady(init, node, was)
    requires (now.Some? && Says(last, node, now.value)) || (now == was && forall b :: !Says(last, node, b))
    ensures LastReady(init + [last], node, now)
  {
    hide Says;
    var h := init + [last];
    assert h[|init|] == last && forall i :: 0 <= i < |init| ==> h[i] == init[i];
    if !(now.Some? && Says(last, node, now.value)) && was.Some? {
      var i :| && 0 <= i < |init| && Says(init[i], node, was.value)
               && forall j, b :: i < j < |init| ==> !Says(init[j], node, b);
      assert Says(h[i], node, now.value);
    }
  }

  lemma MergeableCarried(init: seq<Event>, last: Event, node: NodeId, was: Option<Mergeable>, now: Option<Mergeable>)
    requires LastMergeable(init, node, was)
    requires (now.Some? && SaysMergeable(last, node, now.value))
             || (now == was && forall m :: !SaysMergeable(last, node, m))
    ensures LastMergeable(init + [last], node, now)
  {
    hide SaysMergeable;
    var h := init + [last];
    assert h[|init|] == last && forall i :: 0 <= i < |init| ==> h[i] == init[i];
    if !(now.Some? && SaysMergeable(last, node, now.value)) && was.Some? {
      var i :| && 0 <= i < |init| && SaysMergeable(init[i], node, was.value)
               && forall j, m :: i < j < |init| ==> !SaysMergeable(init[j], node, m);
      assert SaysMergeable(h[i], node, now.value);
    }
  }

  /** In the order of the query, which is by time and id as text, `x` does not come after `e`. */
  predicate NotAfter(x: Event, e: Event) {
    !(Before(e.at, x.at) || (Format(e.at) == Format(x.at) && Text.Less(IdText(e.key), IdText(x.key))))
  }

  /** A replay gives what the last event, in the order of the query, says of readiness, and of mergeability. */
  lemma ReplayDecided(log: seq<Event>, node: NodeId)
    ensures var ready := Replay(log, node).ready;
            if ready.None? then forall e, b :: e in log ==> !Says(e, node, b)
            else exists e :: && e in log && Says(e, node, ready.value)
                             && forall x, b :: x in log && Says(x, node, b) ==> NotAfter(x, e)
    ensures var mergeable := Replay(log, node).mergeable;
            if mergeable.None? then forall e, m :: e in log ==> !SaysMergeable(e, node, m)
            else exists e :: && e in log && SaysMergeable(e, node, mergeable.value)
                             && forall x, m :: x in log && SaysMergeable(x, node, m) ==> NotAfter(x, e)
  {
    hide Absorbed, SortedHistory, Says, SaysMergeable, NotAfter, LastReady, LastMergeable, InOrder, Relevant, History;
    var s := SortedHistory(History(log, node));
    SortedElements(log, node);
    LastSays(s, node);
    LastReadyInLog(log, s, node, Absorbed(s).ready);
    LastMergeableInLog(log, s, node, Absorbed(s).mergeable);
  }

  lemma LastReadyInLog(log: seq<Event>, s: seq<Event>, node: NodeId, ready: Option<bool>)
    requires InOrder(s) && LastReady(s, node, ready) && (forall i :: 0 <= i < |s| ==> s[i] in log)
    requires forall e :: e in log && Relevant(e, node) ==> exists j :: 0 <= j < |s| && s[j] == e
    ensures if ready.None? then forall e, b :: e in log ==> !Says(e, node, b)
            else exists e :: && e in log && Says(e, node, ready.value)
                             && forall x, b :: x in log && Says(x, node, b) ==> NotAfter(x, e)
  {
    hide InOrder, Relevant, NotAfter, Says;
    forall x, b | x in log && Says(x, node, b) ensures exists j :: 0 <= j < |s| && s[j] == x {
      SaysRelevant(x, node, b, MergeableUnknown);
    }
    if ready.Some? {
      var i :| && 0 <= i < |s| && Says(s[i], node, ready.value)
               && forall j, b :: i < j < |s| ==> !Says(s[j], node, b);
      forall x, b | x in log && Says(x, node, b) ensures NotAfter(x, s[i]) {
        var j :| 0 <= j < |s| && s[j] == x;
        InOrderMeans(s, j, i);
      }
    }
  }

  lemma LastMergeableInLog(log: seq<Event>, s: seq<Event>, node: NodeId, mergeable: Option<Mergeable>)
    requires InOrder(s) && LastMergeable(s, node, mergeable) && (forall i :: 0 <= i < |s| ==> s[i] in log)
    requires forall e :: e in log && Relevant(e, node) ==> exists j :: 0 <= j < |s| && s[j] == e
    ensures if mergeable.None? then forall e, m :: e in log ==> !SaysMergeable(e, node, m)
            else exists e :: && e in log && SaysMergeable(e, node, mergeable.value)
                             && forall x, m :: x in log && SaysMergeable(x, node, m) ==> NotAfter(x, e)
  {
    hide InOrder, Relevant, NotAfter, SaysMergeable;
    forall x, m | x in log && SaysMergeable(x, node, m) ensures exists j :: 0 <= j < |s| && s[j] == x {
      SaysRelevant(x, node, true, m);
    }
    if mergeable.Some? {
      var i :| && 0 <= i < |s| && SaysMergeable(s[i], node, mergeable.value)
               && forall j, m :: i < j < |s| ==> !SaysMergeable(s[j], node, m);
      forall x, m | x in log && SaysMergeable(x, node, m) ensures NotAfter(x, s[i]) {
        var j :| 0 <= j < |s| && s[j] == x;
        InOrderMeans(s, j, i);
      }
    }
  }

  lemma SaysRelevant(e: Event, node: NodeId, b: bool, m: Mergeable)
    requires Says(e, node, b) || SaysMergeable(e, node, m)
    ensures Relevant(e, node)
  {
  }

  lemma InOrderMeans(s: seq<Event>, j: nat, i: nat)
    requires InOrder(s) && j <= i < |s|
    ensures NotAfter(s[j], s[i])
  {
    hide Format, IdText;
    if j == i {
      Text.LessTotal(Format(s[i].at), Format(s[i].at));
      Text.LessTotal(IdText(s[i].key), IdText(s[i].key));
    }
  }

  lemma SortedElements(log: seq<Event>, node: NodeId)
    ensures var s := SortedHistory(History(log, node));
            && InOrder(s) && (forall i :: 0 <= i < |s| ==> Relevant(s[i], node) && s[i] in log)
            && (forall e :: e in log && Relevant(e, node) ==> exists j :: 0 <= j < |s| && s[j] == e)
  {
    hide SortsBefore, SortedHistory, Relevant, InOrder;
    var h := History(log, node);
    SameElements(h);
    forall i | 0 <= i < |SortedHistory(h)| ensures Relevant(SortedHistory(h)[i], node) && SortedHistory(h)[i] in log {
      assert SortedHistory(h)[i] in h;
    }
    forall e | e in log && Relevant(e, node)
      ensures exists j :: 0 <= j < |SortedHistory(h)| && SortedHistory(h)[j] == e
    {
      var i :| 0 <= i < |log| && log[i] == e;
      InHistory(log, node, i);
    }
  }
}
