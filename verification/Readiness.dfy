/** Whether a watched pull request is ready to merge, from facts some of which may be missing. */
module Readiness {
  import opened Options

  datatype ReviewState = ReviewApproved | ReviewChangesRequested | ReviewOther
  datatype Review = Review(state: ReviewState)
  datatype Thread = Thread(isResolved: bool, isOutdated: bool, unknown: bool)

  // The provider's strings, by the cases the poll tells apart.
  datatype Decision = DecisionApproved | DecisionNone | DecisionOther
  datatype ChecksState = ChecksPassed | ChecksNone | ChecksUnknown | ChecksPending | ChecksFailed
  datatype Mergeable = MergeableYes | MergeableConflicting | MergeableUnknown
  datatype MergeStatus = MergeClean | MergeHasHooks | MergeUnknown | MergeOther

  datatype Facts = Facts(
    isOpen: bool, isDraft: bool, reviewDecision: Decision, reviews: Option<seq<Review>>,
    checksState: ChecksState, threads: Option<seq<Thread>>, mergeable: Mergeable, mergeStateStatus: MergeStatus)

  datatype Ready = ReadyTrue | ReadyFalse | ReadyUnknown

  predicate HasReview(reviews: seq<Review>, state: ReviewState) {
    exists i :: 0 <= i < |reviews| && reviews[i].state == state
  }

  predicate Unresolved(thread: Thread) {
    !thread.isResolved && !thread.isOutdated
  }

  // What is known to be wrong.

  predicate DraftReason(f: Facts) {
    !f.isOpen || f.isDraft
  }

  predicate ApprovalReason(f: Facts) {
    if f.reviewDecision == DecisionApproved then false
    else if f.reviewDecision == DecisionNone then
      f.reviews.Some?
      && (!HasReview(f.reviews.value, ReviewApproved) || HasReview(f.reviews.value, ReviewChangesRequested))
    else true
  }

  predicate ChecksReason(f: Facts) {
    f.checksState == ChecksPending || f.checksState == ChecksFailed
  }

  predicate ThreadsReason(f: Facts) {
    f.threads.Some? && exists i :: 0 <= i < |f.threads.value| && Unresolved(f.threads.value[i])
  }

  predicate ConflictReason(f: Facts) {
    f.mergeable == MergeableConflicting
  }

  predicate MergeStateReason(f: Facts) {
    f.mergeStateStatus == MergeOther
  }

  predicate Blocked(f: Facts) {
    DraftReason(f) || ApprovalReason(f) || ChecksReason(f) || ThreadsReason(f) || ConflictReason(f) ||
      MergeStateReason(f)
  }

  // What is not known.

  predicate Complete(f: Facts) {
    && (f.reviewDecision == DecisionNone ==> f.reviews.Some?)
    && f.checksState != ChecksUnknown
    && f.threads.Some? && (forall i :: 0 <= i < |f.threads.value| ==> !f.threads.value[i].unknown)
    && f.mergeable != MergeableUnknown
    && f.mergeStateStatus != MergeUnknown
  }

  datatype Reason = Draft | Approval | Checks | Threads | Conflicts | MergeState

  function When(condition: bool, reason: Reason): seq<Reason> {
    if condition then [reason] else []
  }

  function Reasons(f: Facts): seq<Reason> {
    When(DraftReason(f), Draft) + When(ApprovalReason(f), Approval) + When(ChecksReason(f), Checks)
    + When(ThreadsReason(f), Threads) + When(ConflictReason(f), Conflicts) + When(MergeStateReason(f), MergeState)
  }

  predicate HasReason(f: Facts, reason: Reason) {
    match reason
    case Draft => DraftReason(f)
    case Approval => ApprovalReason(f)
    case Checks => ChecksReason(f)
    case Threads => ThreadsReason(f)
    case Conflicts => ConflictReason(f)
    case MergeState => MergeStateReason(f)
  }

  method ScanReviews(reviews: seq<Review>) returns (approved: bool, changesRequested: bool)
    ensures approved == HasReview(reviews, ReviewApproved)
    ensures changesRequested == HasReview(reviews, ReviewChangesRequested)
  {
    approved, changesRequested := false, false;
    for i := 0 to |reviews|
      invariant approved <==> exists k :: 0 <= k < i && reviews[k].state == ReviewApproved
      invariant changesRequested <==> exists k :: 0 <= k < i && reviews[k].state == ReviewChangesRequested
    {
      approved := approved || reviews[i].state == ReviewApproved;
      changesRequested := changesRequested || reviews[i].state == ReviewChangesRequested;
    }
  }

  method ScanThreads(threads: seq<Thread>) returns (unresolved: nat, unknown: bool)
    ensures unresolved > 0 <==> exists k :: 0 <= k < |threads| && Unresolved(threads[k])
    ensures unknown <==> exists k :: 0 <= k < |threads| && threads[k].unknown
  {
    unresolved, unknown := 0, false;
    for i := 0 to |threads|
      invariant unresolved > 0 <==> exists k :: 0 <= k < i && Unresolved(threads[k])
      invariant unknown <==> exists k :: 0 <= k < i && threads[k].unknown
    {
      if threads[i].unknown { unknown := true; }
      if !threads[i].isResolved && !threads[i].isOutdated { unresolved := unresolved + 1; }
    }
  }

  /** The verdict and its reasons, computed the way the poll computes them. */
  method Assess(f: Facts) returns (verdict: Ready, reasons: seq<Reason>)
    ensures verdict == Verdict(f)
    ensures reasons == Reasons(f)
  {
    hide ApprovalReason, ChecksReason, HasReview, Unresolved;
    var unknown;
    unknown, reasons := AssessReview(f);
    ghost var sofar := reasons;
    if f.threads.None? {
      unknown := true;
    } else {
      var unresolved, threadUnknown := ScanThreads(f.threads.value);
      unknown := unknown || threadUnknown;
      if unresolved > 0 { reasons := reasons + [Threads]; }
    }
    assert reasons == sofar + When(ThreadsReason(f), Threads);
    match f.mergeable {
      case MergeableYes =>
      case MergeableConflicting => reasons := reasons + [Conflicts];
      case MergeableUnknown => unknown := true;
    }
    assert reasons == sofar + When(ThreadsReason(f), Threads) + When(ConflictReason(f), Conflicts);
    match f.mergeStateStatus {
      case MergeClean | MergeHasHooks =>
      case MergeUnknown => unknown := true;
      case MergeOther => reasons := reasons + [MergeState];
    }
    assert reasons == Reasons(f);
    ReasonsListed(f, Draft);
    verdict := if |reasons| > 0 then ReadyFalse else if unknown then ReadyUnknown else ReadyTrue;
  }

  /** The part about the draft state, the approval and the checks. */
  method AssessReview(f: Facts) returns (unknown: bool, reasons: seq<Reason>)
    ensures reasons == When(DraftReason(f), Draft) + When(ApprovalReason(f), Approval) + When(ChecksReason(f), Checks)
    ensures unknown <==>
      (f.reviewDecision == DecisionNone && f.reviews.None?) || f.checksState == ChecksUnknown
  {
    hide ApprovalReason;
    unknown, reasons := false, [];
    if !f.isOpen || f.isDraft { reasons := reasons + [Draft]; }
    assert reasons == When(DraftReason(f), Draft);
    var block;
    unknown, block := AssessApproval(f);
    if block { reasons := reasons + [Approval]; }
    assert reasons == When(DraftReason(f), Draft) + When(ApprovalReason(f), Approval);
    match f.checksState {
      case ChecksPassed | ChecksNone =>
      case ChecksUnknown => unknown := true;
      case _ => reasons := reasons + [Checks];
    }
  }

  method AssessApproval(f: Facts) returns (unknown: bool, block: bool)
    ensures block == ApprovalReason(f)
    ensures unknown <==> f.reviewDecision == DecisionNone && f.reviews.None?
  {
    unknown, block := false, false;
    match f.reviewDecision {
      case DecisionApproved =>
      case DecisionNone =>
        if f.reviews.None? { return true, false; }
        var approved, changesRequested := ScanReviews(f.reviews.value);
        block := !approved || changesRequested;
      case DecisionOther => block := true;
    }
  }

  /** Every reason is listed, and only when it holds; the verdict is false exactly when one is. */
  lemma ReasonsListed(f: Facts, reason: Reason)
    ensures reason in Reasons(f) <==> HasReason(f, reason)
    ensures Reasons(f) != [] <==> Verdict(f) == ReadyFalse
  {
    hide DraftReason, ApprovalReason, ChecksReason, ThreadsReason, ConflictReason, MergeStateReason, When;
    forall condition: bool, one: Reason, listed: seq<Reason>
      ensures reason in listed + When(condition, one) <==> reason in listed || (condition && reason == one)
      ensures listed + When(condition, one) == [] <==> listed == [] && !condition
    {
      OneListed(condition, one, listed, reason);
    }
    NothingListed(DraftReason(f));
  }

  lemma OneListed(condition: bool, one: Reason, listed: seq<Reason>, reason: Reason)
    ensures reason in listed + When(condition, one) <==> reason in listed || (condition && reason == one)
    ensures listed + When(condition, one) == [] <==> listed == [] && !condition
  {
  }

  lemma NothingListed(condition: bool)
    ensures When(condition, Draft) == [] <==> !condition
    ensures forall reason :: reason in When(condition, Draft) <==> condition && reason == Draft
  {
  }

  function Verdict(f: Facts): Ready {
    if Blocked(f) then ReadyFalse else if Complete(f) then ReadyTrue else ReadyUnknown
  }

  /** Where a reason stands in the list. */
  function Rank(reason: Reason): nat {
    match reason
    case Draft => 0 case Approval => 1 case Checks => 2 case Threads => 3 case Conflicts => 4 case MergeState => 5
  }

  /** Somebody approved and nobody asks for changes. */
  predicate Carried(reviews: seq<Review>) {
    && (exists i :: 0 <= i < |reviews| && reviews[i] == Review(ReviewApproved))
    && forall i :: 0 <= i < |reviews| ==> reviews[i] != Review(ReviewChangesRequested)
  }

  predicate Open(thread: Thread) {
    thread == Thread(false, false, thread.unknown)
  }

  /** Everything is known and nothing stands in the way. */
  predicate MayMerge(f: Facts) {
    && f.isOpen && !f.isDraft
    && (f.reviewDecision == DecisionApproved
        || (f.reviewDecision == DecisionNone && f.reviews.Some? && Carried(f.reviews.value)))
    && f.checksState in {ChecksPassed, ChecksNone}
    && f.threads.Some?
    && (forall i :: 0 <= i < |f.threads.value| ==>
          !f.threads.value[i].unknown && (f.threads.value[i].isResolved || f.threads.value[i].isOutdated))
    && f.mergeable == MergeableYes && f.mergeStateStatus in {MergeClean, MergeHasHooks}
  }

  /**
   * What blocks a merge, what leaves the verdict open, and that reasons come in a fixed order, each once.
   * Pending checks block as failed ones do; of an undecided review the given opinions count.
   */
  lemma VerdictDecided(f: Facts)
    ensures var reasons := Reasons(f);
            && (forall i, j :: 0 <= i < j < |reasons| ==> Rank(reasons[i]) < Rank(reasons[j]))
            && (Draft in reasons <==> f.isDraft || !f.isOpen)
            && (Approval in reasons <==>
                  f.reviewDecision == DecisionOther
                  || (f.reviewDecision == DecisionNone && f.reviews.Some? && !Carried(f.reviews.value)))
            && (Checks in reasons <==> f.checksState in {ChecksFailed, ChecksPending})
            && (Threads in reasons <==>
                  f.threads.Some? && exists i :: 0 <= i < |f.threads.value| && Open(f.threads.value[i]))
            && (Conflicts in reasons <==> f.mergeable == MergeableConflicting)
            && (MergeState in reasons <==> f.mergeStateStatus == MergeOther)
            && (Verdict(f) == ReadyFalse <==> reasons != [])
            && (Verdict(f) == ReadyTrue <==> MayMerge(f))
  {
    hide Reasons, Verdict, Carried, MayMerge, Open, ApprovalReason, ThreadsReason;
    ReasonsRanked(f);
    ReasonsHold(f);
    ReadySpelledOut(f);
    ApprovalSpelledOut(f);
    ThreadsSpelledOut(f);
  }

  lemma ReasonsHold(f: Facts)
    ensures forall reason :: reason in Reasons(f) <==> HasReason(f, reason)
    ensures Reasons(f) != [] <==> Verdict(f) == ReadyFalse
  {
    hide Reasons, HasReason, Verdict;
    forall reason ensures reason in Reasons(f) <==> HasReason(f, reason) { ReasonsListed(f, reason); }
    ReasonsListed(f, Draft);
  }

  lemma ReadySpelledOut(f: Facts)
    ensures Verdict(f) == ReadyTrue <==> MayMerge(f)
  {
    hide ApprovalReason, Carried;
    ApprovalSpelledOut(f);
  }

  lemma ReasonsRanked(f: Facts)
    ensures Ranked(Reasons(f), 6)
  {
    hide DraftReason, ApprovalReason, ChecksReason, ThreadsReason, ConflictReason, MergeStateReason, When, Ranked;
    var a := When(DraftReason(f), Draft);
    FirstRanked(DraftReason(f));
    var b := a + When(ApprovalReason(f), Approval);
    RankedMore(a, ApprovalReason(f), Approval);
    var c := b + When(ChecksReason(f), Checks);
    RankedMore(b, ChecksReason(f), Checks);
    var d := c + When(ThreadsReason(f), Threads);
    RankedMore(c, ThreadsReason(f), Threads);
    var e := d + When(ConflictReason(f), Conflicts);
    RankedMore(d, ConflictReason(f), Conflicts);
    RankedMore(e, MergeStateReason(f), MergeState);
  }

  lemma FirstRanked(condition: bool)
    ensures Ranked(When(condition, Draft), 1)
  {
  }

  predicate Ranked(reasons: seq<Reason>, below: nat) {
    && (forall i :: 0 <= i < |reasons| ==> Rank(reasons[i]) < below)
    && (forall i, j :: 0 <= i < j < |reasons| ==> Rank(reasons[i]) < Rank(reasons[j]))
  }

  lemma RankedMore(reasons: seq<Reason>, condition: bool, reason: Reason)
    requires Ranked(reasons, Rank(reason))
    ensures Ranked(reasons + When(condition, reason), Rank(reason) + 1)
  {
  }

  lemma ApprovalSpelledOut(f: Facts)
    ensures ApprovalReason(f) <==>
      f.reviewDecision == DecisionOther
      || (f.reviewDecision == DecisionNone && f.reviews.Some? && !Carried(f.reviews.value))
  {
    if f.reviews.Some? {
      assert forall i :: 0 <= i < |f.reviews.value| ==> f.reviews.value[i] == Review(f.reviews.value[i].state);
    }
  }

  lemma ThreadsSpelledOut(f: Facts)
    ensures ThreadsReason(f) <==>
      f.threads.Some? && exists i :: 0 <= i < |f.threads.value| && Open(f.threads.value[i])
  {
    assert forall t: Thread :: Unresolved(t) <==> Open(t);
  }

  predicate ThreadRefines(less: Thread, more: Thread) {
    more.isResolved == less.isResolved && more.isOutdated == less.isOutdated && (more.unknown ==> less.unknown)
  }

  /** `more` is `less` with some of its unknown parts learned; nothing known has changed. */
  predicate Refines(less: Facts, more: Facts) {
    && more.isOpen == less.isOpen && more.isDraft == less.isDraft && more.reviewDecision == less.reviewDecision
    && (less.reviews.Some? ==> more.reviews == less.reviews)
    && (less.checksState != ChecksUnknown ==> more.checksState == less.checksState)
    && (less.threads.Some? ==>
          && more.threads.Some? && |more.threads.value| == |less.threads.value|
          && forall i :: 0 <= i < |less.threads.value| ==> ThreadRefines(less.threads.value[i], more.threads.value[i]))
    && (less.mergeable != MergeableUnknown ==> more.mergeable == less.mergeable)
    && (less.mergeStateStatus != MergeUnknown ==> more.mergeStateStatus == less.mergeStateStatus)
  }

  /** Learning more never changes a verdict of true or false. */
  lemma Monotone(less: Facts, more: Facts)
    requires Refines(less, more)
    ensures Verdict(less) != ReadyUnknown ==> Verdict(more) == Verdict(less)
  {
    if ThreadsReason(less) {
      var i :| 0 <= i < |less.threads.value| && Unresolved(less.threads.value[i]);
      assert ThreadRefines(less.threads.value[i], more.threads.value[i]) && Unresolved(more.threads.value[i]);
    }
    if Verdict(less) == ReadyTrue {
      forall i | 0 <= i < |more.threads.value|
        ensures !more.threads.value[i].unknown && !Unresolved(more.threads.value[i])
      {
        assert ThreadRefines(less.threads.value[i], more.threads.value[i]) && !Unresolved(less.threads.value[i]);
      }
    }
  }

  /** The most favourable way the unknown parts could turn out. */
  function Favourable(f: Facts): Facts {
    f.(reviews := if f.reviews.None? then Some([Review(ReviewApproved)]) else f.reviews,
       checksState := if f.checksState == ChecksUnknown then ChecksPassed else f.checksState,
       threads := if f.threads.None? then Some([])
                  else Some(seq(|f.threads.value|,
                      i requires 0 <= i < |f.threads.value| => f.threads.value[i].(unknown := false))),
       mergeable := if f.mergeable != MergeableUnknown then f.mergeable else MergeableYes,
       mergeStateStatus := if f.mergeStateStatus != MergeUnknown then f.mergeStateStatus else MergeClean)
  }

  /** A verdict of false is never premature: it is given exactly when no way of learning the rest is ready. */
  lemma FalseIsExact(f: Facts)
    ensures Verdict(f) == ReadyFalse <==> forall g :: Refines(f, g) && Complete(g) ==> Verdict(g) != ReadyTrue
  {
    var best := Favourable(f);
    if Verdict(f) == ReadyFalse {
      forall g | Refines(f, g) && Complete(g) ensures Verdict(g) != ReadyTrue { Monotone(f, g); }
    } else {
      assert Refines(f, best);
      assert !ApprovalReason(best) by {
        if f.reviews.None? { assert best.reviews.value[0].state == ReviewApproved; }
      }
      forall i | 0 <= i < |best.threads.value| ensures !Unresolved(best.threads.value[i]) {
        assert f.threads.Some? ==> !Unresolved(f.threads.value[i]);
      }
      assert Complete(best) && Verdict(best) == ReadyTrue;
    }
  }
}
