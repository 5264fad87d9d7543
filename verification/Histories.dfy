/**
 The closed form of a finding's history, over runs in which its writer is the only one to touch it
 and every other writer runs in between as it pleases.
 */
module Histories {
  import opened Wrappers
  import opened Fingerprint
  import opened Findings
  import opened Lifecycle
  import C = CategoryFindings
  import A = Assertions

  // ---------------------------------------------------------------- assertions

  /** The runs that reached a verdict under this fingerprint: FAIL as a raise, PASS as a clear. */
  function Verdicts(steps: seq<Step>, key: Key): seq<Event> {
    if steps == [] then []
    else
      var last := steps[|steps| - 1];
      Verdicts(steps[..|steps| - 1], key) +
      if last.AssertionRun? && A.AssertionKey(last.assertion) == key
      then A.OutcomeEvents(last.assertion, last.result, last.now) else []
  }

  lemma {:induction false} RunIsVerdicts(steps: seq<Step>, id: Identity)
    requires AllWellBehaved(steps) && AllApart(steps, id) && NoOperator(steps, KeyOf(id)) && Owner(id) == Assertion
    ensures RunAt(steps, KeyOf(id), None) == AffectAll(None, Verdicts(steps, KeyOf(id)))
  {
    hide AffectAll, A.OutcomeEvents, Owned, KeyOf, Apart;
    var key := KeyOf(id);
    NothingYet(id);
    if steps != [] {
      var init, last := steps[..|steps| - 1], steps[|steps| - 1];
      RunIsVerdicts(init, id);
      RunKeepsOwned(init, id, None);
      if last.AssertionRun? && A.AssertionKey(last.assertion) == key {
        AffectAllThen(None, Verdicts(init, key), A.OutcomeEvents(last.assertion, last.result, last.now));
      } else {
        OthersLeaveItAlone(last, id, RunAt(init, key, None));
        assert Verdicts(steps, key) == Verdicts(init, key);
      }
    }
  }

  lemma NothingYet(id: Identity)
    ensures AffectAll(None, []) == None && Owned(id, None)
  {
  }

  lemma KeyIsAssertions(a: A.Assertion)
    ensures Owner(A.AssertionId(a)) == Assertion && KeyOf(A.AssertionId(a)) == A.AssertionKey(a)
  {
  }

  /**
   Any history of an assertion's finding, whatever else happened in between. It exists once there was a
   FAIL, and is open exactly when the last verdict was a FAIL; errors and skips change nothing.
   `firstSeen` is the first FAIL since the last PASS. The verdicts are those of every assertion that
   shares the fingerprint, which is this one alone unless two collide.
   */
  lemma {:induction false} AssertionHistory(steps: seq<Step>, a: A.Assertion)
    requires AllWellBehaved(steps) && AllApart(steps, A.AssertionId(a)) && NoOperator(steps, A.AssertionKey(a))
    ensures var key := A.AssertionKey(a);
            var row, verdicts := RunAt(steps, key, None), Verdicts(steps, key);
            && (row.Some? <==> exists i :: 0 <= i < |verdicts| && verdicts[i].Raise?)
            && (row.Some? ==> (row.value.status == Open <==> verdicts[|verdicts| - 1].Raise?))
            && (row.Some? && row.value.status != Open ==> row.value.status == Resolved)
            && (row.Some? && row.value.status == Open ==>
                  exists s: nat :: BeginsStretch(verdicts, s, |verdicts| - 1) && row.value.firstSeen == verdicts[s].now)
  {
    var key := A.AssertionKey(a);
    KeyIsAssertions(a);
    RunIsVerdicts(steps, A.AssertionId(a));
    History(Verdicts(steps, key));
    hide AffectAll, Verdicts, RunAt, KeyOf;
    var row, verdicts := RunAt(steps, key, None), Verdicts(steps, key);
    if row.Some? {
      var s: nat, i: nat :| Recounts(verdicts, row.value, s, i);
    }
  }

  /** The verdicts of this assertion's own runs. */
  function OwnVerdicts(steps: seq<Step>, id: Identity): seq<Event> {
    if steps == [] then []
    else
      var last := steps[|steps| - 1];
      OwnVerdicts(steps[..|steps| - 1], id) +
      if last.AssertionRun? && A.AssertionId(last.assertion) == id
      then A.OutcomeEvents(last.assertion, last.result, last.now) else []
  }

  /** When no other assertion of the run collides with it, the verdicts of its finding are its own. */
  lemma {:induction false} AloneMeansOwnVerdicts(steps: seq<Step>, id: Identity)
    requires AllAlone(steps, id)
    ensures Verdicts(steps, KeyOf(id)) == OwnVerdicts(steps, id)
  {
    hide KeyOf, A.OutcomeEvents;
    if steps != [] {
      AloneMeansOwnVerdicts(steps[..|steps| - 1], id);
      assert Alone(steps[|steps| - 1], id);
      if steps[|steps| - 1].AssertionRun? {
        KeyIsAssertions(steps[|steps| - 1].assertion);
      }
    }
  }

  /**
   Two assertions that collide, the pipe in one's target and the other's name. The second one's PASS
   resolves the first one's finding although its own last verdict was a FAIL.
   */
  lemma {:induction false} CollidingAssertions() returns (a: A.Assertion, b: A.Assertion)
    ensures A.AssertionId(a) != A.AssertionId(b) && A.AssertionKey(a) == A.AssertionKey(b)
    ensures var fail := AssertionRun(a, A.VerifierResult(A.Fail, map[]), 1);
            var pass := AssertionRun(b, A.VerifierResult(A.Pass, map[]), 2);
            var row := RunAt([fail, pass], A.AssertionKey(a), None);
            var own := OwnVerdicts([fail, pass], A.AssertionId(a));
            && row.Some? && row.value.status == Resolved
            && |own| == 1 && own[0].Raise?
  {
    a := A.Assertion("z", "global", Some("x|assertion:y"), "", "low");
    b := A.Assertion("y|assertion:z", "global", Some("x"), "", "low");
    assert Shifted(A.AssertionId(b), A.AssertionId(a)) by {
      assert A.AssertionId(a).targetId == "x" + "|" + "assertion:y";
      assert A.AssertionId(b).rootCause == "assertion:y" + "|" + "assertion:z";
    }
    ShiftedCollides(A.AssertionId(b), A.AssertionId(a));
    ForeignPassResolves(a, b);
  }

  lemma {:induction false} ForeignPassResolves(a: A.Assertion, b: A.Assertion)
    requires A.AssertionId(a) != A.AssertionId(b) && A.AssertionKey(a) == A.AssertionKey(b)
    ensures var fail := AssertionRun(a, A.VerifierResult(A.Fail, map[]), 1);
            var pass := AssertionRun(b, A.VerifierResult(A.Pass, map[]), 2);
            var row := RunAt([fail, pass], A.AssertionKey(a), None);
            var own := OwnVerdicts([fail, pass], A.AssertionId(a));
            && row.Some? && row.value.status == Resolved
            && |own| == 1 && own[0].Raise?
  {
    hide KeyOf;
    var fail := AssertionRun(a, A.VerifierResult(A.Fail, map[]), 1);
    var pass := AssertionRun(b, A.VerifierResult(A.Pass, map[]), 2);
    var key, id := A.AssertionKey(a), A.AssertionId(a);
    assert [fail, pass][..1] == [fail] && [fail][..0] == [];
    A.OneEvent(None, a, fail.result, 1);
    assert RunAt([fail], key, None) == StepAt(fail, key, RunAt([], key, None));
    A.OneEvent(RunAt([fail], key, None), b, pass.result, 2);
    assert RunAt([fail, pass], key, None) == StepAt(pass, key, RunAt([fail], key, None));
    assert OwnVerdicts([fail], id) == OwnVerdicts([], id) + A.OutcomeEvents(a, fail.result, 1);
    assert OwnVerdicts([fail, pass], id) == OwnVerdicts([fail], id) + [];
  }

  // ---------------------------------------------------------------- category passes

  /** What the last issue of the list under this fingerprint is said to affect. */
  function AffectedBy(issues: seq<C.Issue>, id: Identity): seq<Target> {
    if issues == [] then []
    else if issues[|issues| - 1].Fingerprint() == KeyOf(id) then issues[|issues| - 1].Reported().affected
    else AffectedBy(issues[..|issues| - 1], id)
  }

  predicate ListsKey(step: Step, id: Identity) {
    step.CategoryPass? && C.Lists(step.pass.issues, KeyOf(id))
  }

  /** The step resolves a finding that the given pass listed last: it observed its category and one of its targets. */
  predicate Settles(step: Step, id: Identity, listing: Step) {
    && step.CategoryPass? && listing.CategoryPass? && step.pass.kind == id.kind
    && !ListsKey(step, id)
    && id.rootCause in step.pass.observed
    && (step.pass.observedTargets == None ||
        exists t :: t in step.pass.observedTargets.value && t in AffectedBy(listing.pass.issues, id))
  }

  /** The latest step that either listed the finding or settled it was a listing one. */
  ghost predicate StillListed(steps: seq<Step>, id: Identity) {
    exists i :: ListedLast(steps, id, i) && forall j :: i < j < |steps| ==> !Settles(steps[j], id, steps[i])
  }

  ghost predicate ListedLast(steps: seq<Step>, id: Identity, i: int) {
    && 0 <= i < |steps| && ListsKey(steps[i], id)
    && forall j :: i < j < |steps| ==> !ListsKey(steps[j], id)
  }

  ghost predicate EverListed(steps: seq<Step>, id: Identity) {
    exists i :: 0 <= i < |steps| && ListsKey(steps[i], id)
  }

  /** The current open stretch began with the step `s`: open ever since, and not before. */
  ghost predicate OpenSince(steps: seq<Step>, id: Identity, s: nat) {
    && s < |steps| && ListsKey(steps[s], id)
    && !StillListed(steps[..s], id)
    && forall m :: s < m <= |steps| ==> StillListed(steps[..m], id)
  }

  ghost predicate CategoryRow(steps: seq<Step>, id: Identity, row: Option<Finding>) {
    && (row.Some? <==> EverListed(steps, id))
    && (row.Some? ==>
          && (row.value.status == Open || row.value.status == Resolved)
          && (row.value.status == Open <==> StillListed(steps, id))
          && C.CategoryOf(row.value.content.evidence) == Some(id.rootCause)
          && (forall i :: ListedLast(steps, id, i) ==>
              row.value.content.affected == AffectedBy(steps[i].pass.issues, id))
          && (row.value.status == Open ==>
                exists s: nat :: OpenSince(steps, id, s) && s < |steps| && steps[s].CategoryPass? &&
                    row.value.firstSeen == steps[s].pass.now))
  }

  // ---------------------------------------------------------------- one step more

  lemma {:induction false} ListedNow(steps: seq<Step>, id: Identity)
    requires steps != [] && ListsKey(steps[|steps| - 1], id)
    ensures ListedLast(steps, id, |steps| - 1) && StillListed(steps, id) && EverListed(steps, id)
    ensures forall i :: ListedLast(steps, id, i) ==> i == |steps| - 1
  {
  }

  lemma {:induction false} NotListedNow(steps: seq<Step>, id: Identity)
    requires steps != [] && !ListsKey(steps[|steps| - 1], id)
    ensures var init := steps[..|steps| - 1];
            && (forall i :: ListedLast(steps, id, i) <==> ListedLast(init, id, i))
            && (EverListed(steps, id) <==> EverListed(init, id))
            && (StillListed(steps, id) ==> StillListed(init, id))
            && (forall i :: ListedLast(init, id, i) ==>
                  (StillListed(steps, id) <==> StillListed(init, id) && !Settles(steps[|steps| - 1], id, steps[i])))
  {
    hide ListsKey, Settles;
    var init := steps[..|steps| - 1];
    forall i {
      SameLast(steps, id, i);
    }
    forall i | 0 <= i < |init| && ListsKey(init[i], id) ensures ListsKey(steps[i], id) {
    }
    forall i | ListedLast(init, id, i)
      ensures StillListed(steps, id) <==> StillListed(init, id) && !Settles(steps[|steps| - 1], id, steps[i])
    {
      StillAfter(steps, id, i);
    }
  }

  lemma SameLast(steps: seq<Step>, id: Identity, i: int)
    requires steps != [] && !ListsKey(steps[|steps| - 1], id)
    ensures ListedLast(steps, id, i) <==> ListedLast(steps[..|steps| - 1], id, i)
    ensures ListedLast(steps, id, i) ==> 0 <= i < |steps| - 1 && steps[..|steps| - 1][i] == steps[i]
  {
    hide ListsKey;
    var init := steps[..|steps| - 1];
    assert forall j :: 0 <= j < |init| ==> init[j] == steps[j];
  }

  lemma {:induction false} StillAfter(steps: seq<Step>, id: Identity, i: int)
    requires steps != [] && ListedLast(steps, id, i) && ListedLast(steps[..|steps| - 1], id, i)
    ensures StillListed(steps, id) <==>
          StillListed(steps[..|steps| - 1], id) && !Settles(steps[|steps| - 1], id, steps[i])
  {
    OneLast(steps, id, i);
    OneLast(steps[..|steps| - 1], id, i);
    hide ListsKey, Settles, StillListed;
    var init := steps[..|steps| - 1];
    assert forall j :: 0 <= j < |init| ==> init[j] == steps[j];
  }

  /** There is only one last listing, so it decides. */
  lemma {:induction false} OneLast(steps: seq<Step>, id: Identity, i: int)
    requires ListedLast(steps, id, i)
    ensures StillListed(steps, id) <==> forall j :: i < j < |steps| ==> !Settles(steps[j], id, steps[i])
  {
    hide ListsKey, Settles;
    forall k | ListedLast(steps, id, k) ensures k == i {
    }
  }

  lemma {:induction false} LastListing(steps: seq<Step>, id: Identity) returns (i: int)
    requires EverListed(steps, id)
    ensures ListedLast(steps, id, i)
  {
    hide ListsKey;
    i := |steps| - 1;
    while !ListsKey(steps[i], id)
      invariant 0 <= i < |steps|
      invariant forall j :: i < j < |steps| ==> !ListsKey(steps[j], id)
      invariant exists j :: 0 <= j <= i && ListsKey(steps[j], id)
      decreases i
    {
      i := i - 1;
    }
  }

  lemma {:induction false} StretchGoesOn(steps: seq<Step>, id: Identity, s: nat)
    requires steps != [] && StillListed(steps, id)
    requires OpenSince(steps[..|steps| - 1], id, s)
    ensures OpenSince(steps, id, s)
  {
    hide ListsKey, StillListed;
    var init := steps[..|steps| - 1];
    assert init[..s] == steps[..s];
    forall m | s < m <= |steps| ensures StillListed(steps[..m], id) {
      if m == |steps| {
        assert steps[..m] == steps;
      } else {
        assert init[..m] == steps[..m];
      }
    }
  }

  lemma {:induction false} StretchBegins(steps: seq<Step>, id: Identity)
    requires steps != [] && ListsKey(steps[|steps| - 1], id) && !StillListed(steps[..|steps| - 1], id)
    ensures OpenSince(steps, id, |steps| - 1)
  {
    hide ListsKey, StillListed;
    ListedNow(steps, id);
    forall m | |steps| - 1 < m <= |steps| ensures StillListed(steps[..m], id) {
      assert steps[..m] == steps;
    }
  }

  lemma {:induction false} AffectedByLast(issues: seq<C.Issue>, id: Identity, i: nat)
    requires C.LastListed(issues, KeyOf(id), i)
    ensures AffectedBy(issues, id) == issues[i].Reported().affected
  {
    if i < |issues| - 1 {
      AffectedByLast(issues[..|issues| - 1], id, i);
    }
  }

  // ---------------------------------------------------------------- the row after one step more

  /** A pass that lists the finding leaves it open, under its category, with what it said was affected. */
  lemma {:induction false} ListingStep(pass: C.Pass, id: Identity, row: Option<Finding>)
    requires C.Lists(pass.issues, KeyOf(id)) && Alone(CategoryPass(pass), id)
    requires row.Some? ==> row.value.status == Open || row.value.status == Resolved
    ensures var after := C.After(pass, KeyOf(id), row);
            && after.Some? && after.value.status == Open
            && after.value.firstSeen ==
                (if row.Some? && row.value.status == Open then row.value.firstSeen else pass.now)
            && C.CategoryOf(after.value.content.evidence) == Some(id.rootCause)
            && after.value.content.affected == AffectedBy(pass.issues, id)
  {
    C.PassEffect(pass, KeyOf(id), row);
    var i: nat :| C.LastListed(pass.issues, KeyOf(id), i)
      && C.After(pass, KeyOf(id), row) ==
          Affect(row, Raise(pass.kind, pass.issues[i].Reported(), pass.issues[i].Reported(), pass.now));
    AffectedByLast(pass.issues, id, i);
  }

  lemma {:induction false} RowAfterListing(steps: seq<Step>, id: Identity, row: Option<Finding>)
    requires steps != [] && WellBehaved(steps[|steps| - 1]) && Alone(steps[|steps| - 1], id)
    requires ListsKey(steps[|steps| - 1], id)
    requires CategoryRow(steps[..|steps| - 1], id, row)
    ensures CategoryRow(steps, id, StepAt(steps[|steps| - 1], KeyOf(id), row))
  {
    hide StillListed, EverListed, AffectedBy, C.After, C.Lists, OpenSince, ListedLast, C.CategoryOf;
    var init, pass := steps[..|steps| - 1], steps[|steps| - 1].pass;
    ListingStep(pass, id, row);
    ListedNow(steps, id);
    if row.Some? && row.value.status == Open {
      var s: nat :| OpenSince(init, id, s) && s < |init| && init[s].CategoryPass? &&
          row.value.firstSeen == init[s].pass.now;
      StretchGoesOn(steps, id, s);
    } else {
      assert !StillListed(init, id) by { if row == None { UnlistedIsNotOpen(init, id); } }
      StretchBegins(steps, id);
    }
  }

  lemma UnlistedIsNotOpen(steps: seq<Step>, id: Identity)
    requires !EverListed(steps, id)
    ensures !StillListed(steps, id)
  {
  }

  /** A step that does not list the finding resolves it if it settles it and leaves it alone otherwise. */
  lemma {:induction false} UnlistedStep(step: Step, id: Identity, row: Finding, listing: Step)
    requires WellBehaved(step) && Apart(step, id) && Owned(id, Some(row)) && Owner(id) == Category
    requires !ListsKey(step, id) && !(step.Operator? && step.key == KeyOf(id))
    requires listing.CategoryPass? && row.content.affected == AffectedBy(listing.pass.issues, id)
    requires C.CategoryOf(row.content.evidence) == Some(id.rootCause)
    requires row.status == Open || row.status == Resolved
    ensures StepAt(step, KeyOf(id), Some(row)) ==
            if row.status == Open && Settles(step, id, listing)
            then Some(row.(status := Resolved, resolvedAt := Some(step.pass.now))) else Some(row)
  {
    if Relevant(step, id) {
      assert step.CategoryPass? by {
        if step.AssertionRun? { KeyIsAssertions(step.assertion); }
      }
      C.PassEffect(step.pass, KeyOf(id), Some(row));
    } else {
      OthersLeaveItAlone(step, id, Some(row));
    }
  }

  lemma {:induction false} RowAfterOther(steps: seq<Step>, id: Identity, row: Option<Finding>)
    requires steps != [] && WellBehaved(steps[|steps| - 1]) && Apart(steps[|steps| - 1], id)
    requires !ListsKey(steps[|steps| - 1], id)
    requires NoOperator(steps, KeyOf(id)) && Owner(id) == Category && Owned(id, row)
    requires CategoryRow(steps[..|steps| - 1], id, row)
    ensures CategoryRow(steps, id, StepAt(steps[|steps| - 1], KeyOf(id), row))
  {
    hide StillListed, EverListed, AffectedBy, StepAt, Settles, OpenSince, C.CategoryOf, Owned, WellBehaved, C.Lists;
    var init, last := steps[..|steps| - 1], steps[|steps| - 1];
    NotListedNow(steps, id);
    if row == None {
      StillNoRow(last, id);
    } else {
      var i := LastListing(init, id);
      assert steps[i] == init[i] && ListedLast(steps, id, i);
      UnlistedStep(last, id, row.value, steps[i]);
      if StepAt(last, KeyOf(id), row).value.status == Open {
        var s: nat :| OpenSince(init, id, s) && s < |init| && init[s].CategoryPass? &&
            row.value.firstSeen == init[s].pass.now;
        StretchGoesOn(steps, id, s);
      }
    }
  }

  lemma StillNoRow(step: Step, id: Identity)
    requires WellBehaved(step) && Apart(step, id) && Owner(id) == Category
    requires !ListsKey(step, id) && !(step.Operator? && step.key == KeyOf(id))
    ensures StepAt(step, KeyOf(id), None) == None
  {
    if Relevant(step, id) {
      assert step.CategoryPass? by {
        if step.AssertionRun? { KeyIsAssertions(step.assertion); }
      }
      C.PassEffect(step.pass, KeyOf(id), None);
    } else {
      OthersLeaveItAlone(step, id, None);
    }
  }

  /**
   Any history of a categorised finding, whatever the other writers did in between. It is open exactly
   when the latest pass that either listed it, or observed its category and one of its recorded targets
   without listing it, was a listing one; passes that did neither are as if they had not been. While it
   is open, `firstSeen` is the time of the pass that began the current stretch.
   */
  lemma {:induction false} CategoryHistory(steps: seq<Step>, id: Identity)
    requires AllWellBehaved(steps) && AllAlone(steps, id)
    requires NoOperator(steps, KeyOf(id)) && Owner(id) == Category
    ensures CategoryRow(steps, id, RunAt(steps, KeyOf(id), None))
  {
    hide CategoryRow, StepAt, ListsKey, Owned, WellBehaved, Apart, Alone, KeyOf;
    NoHistory(id);
    forall i | 0 <= i < |steps| ensures Apart(steps[i], id) {
      AloneIsApart(steps[i], id);
    }
    if steps != [] {
      var init, last := steps[..|steps| - 1], steps[|steps| - 1];
      CategoryHistory(init, id);
      RunKeepsOwned(init, id, None);
      if ListsKey(last, id) {
        RowAfterListing(steps, id, RunAt(init, KeyOf(id), None));
      } else {
        RowAfterOther(steps, id, RunAt(init, KeyOf(id), None));
      }
    }
  }

  lemma NoHistory(id: Identity)
    ensures CategoryRow([], id, None) && Owned(id, None)
  {
  }
}
