/**
 Four writers and three operator verbs on one findings table, in any interleaving.

 Every step acts on each row alone, so a run is a fold per key. The main results: no writer changes a
 row another one owns, so a row's history is the history of its owner's steps and the operator's, and
 nothing else; and for a row the operator leaves alone, that history has a closed form.
 */
module Lifecycle {
  import opened Wrappers
  import opened Fingerprint
  import opened Findings
  import C = CategoryFindings
  import D = ArgoCdDrift
  import A = Assertions
  import B = Bottlenecks

  datatype Writer = Category | ArgoCd | Assertion | Bottleneck

  datatype Step =
    | CategoryPass(pass: C.Pass)
    | ArgoCdPass(apps: seq<D.Application>, now: int)
    | AssertionRun(assertion: A.Assertion, result: A.VerifierResult, now: int)
    | BottleneckPass(hits: seq<B.Hit>, now: int)
    | Operator(key: Key, verb: Verb)

  /** The row of `key` after one step, from the row before it. */
  function StepAt(step: Step, key: Key, row: Option<Finding>): Option<Finding> {
    match step
    case CategoryPass(pass) => C.After(pass, key, row)
    case ArgoCdPass(apps, now) => D.After(apps, key, row, now)
    case AssertionRun(a, result, now) => A.After(a, result, key, row, now)
    case BottleneckPass(hits, now) => B.After(hits, key, row, now)
    case Operator(k, verb) => if k == key then Operated(row, verb) else row
  }

  function RunAt(steps: seq<Step>, key: Key, row: Option<Finding>): Option<Finding> {
    if steps == [] then row
    else StepAt(steps[|steps| - 1], key, RunAt(steps[..|steps| - 1], key, row))
  }

  /** The step as the program does it; every row moves as `StepAt` says. */
  method Perform(table: FindingTable, engine: A.AssertionEngine, step: Step)
    modifies table, engine
    ensures forall k :: Get(table.rows, k) == StepAt(step, k, Get(old(table.rows), k))
  {
    hide C.After, D.After, A.After, B.After;
    match step {
      case CategoryPass(pass) => var _ := C.ReconcileCategoryFindings(table, pass);
      case ArgoCdPass(apps, now) => var _ := D.ReconcileArgoCdDrift(table, apps, now);
      case AssertionRun(a, result, now) => var _ := engine.RunAssertion(table, a, result, now);
      case BottleneckPass(hits, now) => var _ := B.PersistBottlenecks(table, hits, now);
      case Operator(key, verb) => var _ := table.Operate(key, verb);
    }
  }

  // ---------------------------------------------------------------- what every step keeps

  predicate Stamped(row: Option<Finding>) {
    row.Some? && row.value.status == Resolved ==> row.value.resolvedAt.Some?
  }

  lemma {:induction false} EventsKeep(row: Option<Finding>, events: seq<Event>)
    requires Stamped(row)
    ensures var after := AffectAll(row, events);
            && Stamped(after)
            && (row.Some? ==> after.Some? && (row.value.status == Suppressed ==> after.value.status == Suppressed))
            && (Exact(row) ==> Exact(after))
  {
    if events != [] {
      EventsKeep(row, events[..|events| - 1]);
    }
  }

  /** The events of one step of a writer for one fingerprint; the operator's gestures are not events. */
  function StepEvents(step: Step, key: Key, row: Option<Finding>): seq<Event> {
    match step
    case CategoryPass(pass) => C.PassEvents(pass, key, row)
    case ArgoCdPass(apps, now) => D.DriftEvents(apps, key, now)
    case AssertionRun(a, result, now) => if key == A.AssertionKey(a) then A.OutcomeEvents(a, result, now) else []
    case BottleneckPass(hits, now) => B.PassEvents(hits, key, row, now)
    case Operator(_, _) => []
  }

  lemma StepIsItsEvents(step: Step, key: Key, row: Option<Finding>)
    requires !step.Operator?
    ensures StepAt(step, key, row) == AffectAll(row, StepEvents(step, key, row))
  {
    hide C.PassEvents, D.DriftEvents, A.OutcomeEvents, B.PassEvents, A.AssertionKey;
  }

  /** One step keeps the row and its stamp, and only the operator lets a suppressed finding go. */
  lemma {:induction false} StepKeeps(step: Step, key: Key, row: Option<Finding>)
    requires Stamped(row)
    ensures var after := StepAt(step, key, row);
            && Stamped(after)
            && (row.Some? ==> after.Some?)
            && (row.Some? && row.value.status == Suppressed && !(step.Operator? && step.key == key) ==>
                after.value.status == Suppressed)
  {
    if !step.Operator? {
      hide StepAt, StepEvents, AffectAll;
      StepIsItsEvents(step, key, row);
      EventsKeep(row, StepEvents(step, key, row));
    }
  }

  ghost predicate NoOperator(steps: seq<Step>, key: Key) {
    forall i :: 0 <= i < |steps| ==> !(steps[i].Operator? && steps[i].key == key)
  }

  /**
   Over whole runs, whatever the writers say: a row is never deleted, a RESOLVED one always has its
   time, and as long as the operator keeps away a suppressed row stays suppressed.
   */
  lemma {:induction false} RunKeeps(steps: seq<Step>, key: Key, row: Option<Finding>)
    requires Stamped(row)
    ensures Stamped(RunAt(steps, key, row))
    ensures row.Some? ==> RunAt(steps, key, row).Some?
    ensures row.Some? && row.value.status == Suppressed && NoOperator(steps, key) ==>
          RunAt(steps, key, row).value.status == Suppressed
  {
    hide StepAt, Stamped;
    if steps != [] {
      var init, last := steps[..|steps| - 1], steps[|steps| - 1];
      RunKeeps(init, key, row);
      StepKeeps(last, key, RunAt(init, key, row));
    }
  }

  // ---------------------------------------------------------------- the resolution time

  /** The row has a resolution time exactly when it is resolved. */
  predicate Exact(row: Option<Finding>) {
    row.Some? ==> (row.value.status == Resolved <==> row.value.resolvedAt.Some?)
  }

  /** The operator acknowledges or suppresses a resolved finding, which leaves its resolution time behind. */
  predicate LeavesTime(step: Step, key: Key, row: Option<Finding>) {
    row.Some? && row.value.status == Resolved && step.Operator? && step.key == key && !step.verb.ResolveByHand?
  }

  /** A step spoils the resolution time exactly when it is such a gesture; no writer ever does. */
  lemma {:induction false} ExactUnlessTimeIsLeft(step: Step, key: Key, row: Option<Finding>)
    requires Exact(row)
    ensures Exact(StepAt(step, key, row)) <==> !LeavesTime(step, key, row)
  {
    if !step.Operator? {
      hide StepAt, StepEvents, AffectAll;
      StepIsItsEvents(step, key, row);
      EventsKeep(row, StepEvents(step, key, row));
    }
  }

  /** RESOLVED and having a resolution time are the same all through a run exactly when no such gesture occurs in it. */
  lemma {:induction false} RunIsExactIffNoTimeIsLeft(steps: seq<Step>, key: Key, row: Option<Finding>)
    requires Exact(row)
    ensures (forall n :: 0 <= n <= |steps| ==> Exact(RunAt(steps[..n], key, row))) <==>
            (forall n :: 0 <= n < |steps| ==> !LeavesTime(steps[n], key, RunAt(steps[..n], key, row)))
  {
    hide StepAt, Exact, LeavesTime;
    forall n | 0 <= n < |steps|
      ensures RunAt(steps[..n + 1], key, row) == StepAt(steps[n], key, RunAt(steps[..n], key, row))
    {
      assert steps[..n + 1][..n] == steps[..n];
    }
    if forall n :: 0 <= n < |steps| ==> !LeavesTime(steps[n], key, RunAt(steps[..n], key, row)) {
      ExactSoFar(steps, key, row, |steps|);
    } else {
      var n :| 0 <= n < |steps| && LeavesTime(steps[n], key, RunAt(steps[..n], key, row));
      if Exact(RunAt(steps[..n], key, row)) {
        ExactUnlessTimeIsLeft(steps[n], key, RunAt(steps[..n], key, row));
        assert !Exact(RunAt(steps[..n + 1], key, row));
      }
    }
  }

  lemma {:induction false} ExactSoFar(steps: seq<Step>, key: Key, row: Option<Finding>, m: nat)
    requires Exact(row) && m <= |steps|
    requires forall n :: 0 <= n < m ==> !LeavesTime(steps[n], key, RunAt(steps[..n], key, row))
    ensures forall n :: 0 <= n <= m ==> Exact(RunAt(steps[..n], key, row))
  {
    hide StepAt, Exact, LeavesTime;
    assert steps[..0] == [];
    if m > 0 {
      ExactSoFar(steps, key, row, m - 1);
      assert steps[..m][..m - 1] == steps[..m - 1];
      ExactUnlessTimeIsLeft(steps[m - 1], key, RunAt(steps[..m - 1], key, row));
    }
  }

  /** Such a row: resolved by hand at 1 and acknowledged at 2, it still says it was resolved at 1. */
  lemma {:induction false} AcknowledgedKeepsItsTime(key: Key, content: Content)
    ensures var row := Some(Opened("drift-candidate", content, 0));
            var steps := [Operator(key, ResolveByHand(None, 1)), Operator(key, Acknowledge(None, None, 2))];
            var after := RunAt(steps, key, row);
            after.Some? && after.value.status == Acknowledged && after.value.resolvedAt == Some(1) && !Exact(after)
  {
    var first, second := Operator(key, ResolveByHand(None, 1)), Operator(key, Acknowledge(None, None, 2));
    var row := Some(Opened("drift-candidate", content, 0));
    assert [first, second][..1] == [first] && [first][..0] == [];
    assert RunAt([first], key, row) == StepAt(first, key, RunAt([], key, row));
    assert RunAt([first, second], key, row) == StepAt(second, key, RunAt([first], key, row));
  }

  // ---------------------------------------------------------------- ownership

  /** Which writer's rows an identity belongs to. */
  function Owner(id: Identity): Writer {
    if id.kind == D.KIND && id.targetType == D.TARGET_TYPE && id.rootCause == D.ROOT_CAUSE then ArgoCd
    else if id.kind == A.KIND && A.TOKEN_PREFIX <= id.rootCause then Assertion
    else if id.kind in B.KINDS && id.rootCause in B.PATTERNS then Bottleneck
    else Category
  }

  /** A step that can touch this finding at all: its owner's, of its own kind, or an operator's on it. */
  predicate Relevant(step: Step, id: Identity) {
    match step
    case CategoryPass(pass) => Owner(id) == Category && pass.kind == id.kind
    case ArgoCdPass(_, _) => Owner(id) == ArgoCd
    case AssertionRun(a, _, _) => A.AssertionKey(a) == KeyOf(id)
    case BottleneckPass(_, _) => Owner(id) == Bottleneck
    case Operator(k, _) => k == KeyOf(id)
  }

  /** The evidence takes the analyzer's tag for its own, under one of the analyzer's kinds. */
  predicate Forges(issue: C.Issue, kind: string) {
    kind in B.KINDS && "type" in issue.evidence && issue.evidence["type"] == B.TAG
  }

  /**
   What the writers keep to: a category pass lists issues of its own kind that no other writer uses,
   and does not forge the analyzer's tag; bottleneck hits carry the analyzer's kinds and patterns.
   */
  predicate WellBehaved(step: Step) {
    match step
    case CategoryPass(pass) =>
      forall i :: 0 <= i < |pass.issues| ==>
        && pass.issues[i].kind == pass.kind
        && Owner(pass.issues[i].Id()) == Category
        && !Forges(pass.issues[i], pass.kind)
    case BottleneckPass(hits, _) => HitsWellBehaved(hits)
    case _ => true
  }

  predicate HitsWellBehaved(hits: seq<B.Hit>) {
    forall i :: 0 <= i < |hits| ==> hits[i].kind in B.KINDS && hits[i].pattern in B.PATTERNS
  }

  ghost predicate AllWellBehaved(steps: seq<Step>) {
    forall i :: 0 <= i < |steps| ==> WellBehaved(steps[i])
  }

  predicate Kin(a: Identity, b: Identity) {
    Owner(a) == Owner(b) && a.kind == b.kind
  }

  /** No identity of another writer, or of another kind, is written under this one's fingerprint. */
  predicate Apart(step: Step, id: Identity) {
    match step
    case CategoryPass(pass) =>
      forall i :: 0 <= i < |pass.issues| && pass.issues[i].Fingerprint() == KeyOf(id) ==> Kin(pass.issues[i].Id(), id)
    case ArgoCdPass(apps, _) =>
      forall i :: 0 <= i < |apps| && apps[i].name != "" && D.DriftKey(apps[i].name) == KeyOf(id) ==>
          Kin(D.DriftId(apps[i].name), id)
    case AssertionRun(a, _, _) => A.AssertionKey(a) == KeyOf(id) ==> Kin(A.AssertionId(a), id)
    case BottleneckPass(hits, _) =>
      forall i :: 0 <= i < |hits| && hits[i].Fingerprint() == KeyOf(id) ==> Kin(hits[i].Id(), id)
    case Operator(_, _) => true
  }

  ghost predicate AllApart(steps: seq<Step>, id: Identity) {
    forall i :: 0 <= i < |steps| ==> Apart(steps[i], id)
  }

  /** The analyzer's and the category's tags are only in rows of the writers they stand for. */
  predicate TagsFit(id: Identity, evidence: seq<EvidenceRef>) {
    && (HasTag(evidence, C.CATEGORY_REF) ==> Owner(id) == Category)
    && (HasTag(evidence, B.TAG) && id.kind in B.KINDS ==> Owner(id) == Bottleneck)
  }

  /** The row is its owner's: of its kind and with none but its tags. */
  predicate Owned(id: Identity, row: Option<Finding>) {
    row.Some? ==> row.value.kind == id.kind && TagsFit(id, row.value.content.evidence)
  }

  ghost predicate Fits(id: Identity, events: seq<Event>) {
    forall i :: 0 <= i < |events| && events[i].Raise? ==>
      && events[i].kind == id.kind
      && TagsFit(id, events[i].created.evidence) && TagsFit(id, events[i].refreshed.evidence)
  }

  lemma {:induction false} FittingEventsKeep(id: Identity, row: Option<Finding>, events: seq<Event>)
    requires Owned(id, row) && Fits(id, events)
    ensures Owned(id, AffectAll(row, events))
  {
    hide TagsFit;
    if events != [] {
      FittingEventsKeep(id, row, events[..|events| - 1]);
    }
  }

  lemma {:induction false} RaisesFit(pass: C.Pass, issues: seq<C.Issue>, id: Identity)
    requires forall i :: 0 <= i < |issues| ==>
               issues[i].kind == pass.kind && Owner(issues[i].Id()) == Category && !Forges(issues[i], pass.kind)
    requires forall i :: 0 <= i < |issues| && issues[i].Fingerprint() == KeyOf(id) ==> Kin(issues[i].Id(), id)
    ensures Fits(id, C.Raises(pass.kind, issues, KeyOf(id), pass.now))
  {
    hide KeyOf;
    if issues != [] {
      var issue := issues[|issues| - 1];
      RaisesFit(pass, issues[..|issues| - 1], id);
      if issue.Fingerprint() == KeyOf(id) {
        ReportFits(issue, id);
      }
    }
  }

  lemma ReportFits(issue: C.Issue, id: Identity)
    requires Owner(id) == Category && !Forges(issue, id.kind)
    ensures TagsFit(id, issue.Reported().evidence)
  {
    ReportTag(issue);
  }

  lemma {:induction false} DriftFits(apps: seq<D.Application>, id: Identity, now: int)
    requires forall i :: 0 <= i < |apps| && apps[i].name != "" && D.DriftKey(apps[i].name) == KeyOf(id) ==>
          Kin(D.DriftId(apps[i].name), id)
    ensures Fits(id, D.DriftEvents(apps, KeyOf(id), now))
  {
    hide KeyOf;
    if apps != [] {
      DriftFits(apps[..|apps| - 1], id, now);
    }
  }

  lemma {:induction false} RecordedFits(evidence: map<string, string>, fields: seq<string>, tag: string)
    requires tag !in fields
    ensures !HasTag(A.Recorded(evidence, fields), tag)
  {
    if fields != [] {
      RecordedFits(evidence, fields[1..], tag);
      var head := if fields[0] in evidence then [map["type" := fields[0], "id" := evidence[fields[0]]]] else [];
      var rest := A.Recorded(evidence, fields[1..]);
      forall i | 0 <= i < |head + rest| ensures !("type" in (head + rest)[i] && (head + rest)[i]["type"] == tag) {
        if i >= |head| { assert (head + rest)[i] == rest[i - |head|]; }
      }
    }
  }

  lemma {:induction false} OutcomeFits(a: A.Assertion, result: A.VerifierResult, id: Identity, now: int)
    requires id.kind == A.KIND
    ensures Fits(id, A.OutcomeEvents(a, result, now))
  {
    hide HasTag, A.Recorded;
    var fields := ["target_type", "target_id", "key"];
    var recorded := A.Recorded(result.evidence, fields);
    NoTag(C.CATEGORY_REF);
    NoTag(B.TAG);
    RecordedFits(result.evidence, fields, C.CATEGORY_REF);
    RecordedFits(result.evidence, fields, B.TAG);
    TagAdded(A.LATEST_RUN, recorded, C.CATEGORY_REF);
    TagAdded(A.LATEST_RUN, recorded, B.TAG);
    TagAdded(A.LATEST_RUN, [], C.CATEGORY_REF);
    TagAdded(A.LATEST_RUN, [], B.TAG);
    assert [A.LATEST_RUN] + [] == [A.LATEST_RUN];
  }

  lemma NoTag(tag: string)
    ensures !HasTag([], tag)
  {
  }

  lemma TagAdded(first: EvidenceRef, rest: seq<EvidenceRef>, tag: string)
    requires !HasTag(rest, tag) && ("type" in first ==> first["type"] != tag)
    ensures !HasTag([first] + rest, tag)
  {
    forall i | 0 <= i < |[first] + rest| && "type" in ([first] + rest)[i] ensures ([first] + rest)[i]["type"] != tag {
      if i > 0 { assert ([first] + rest)[i] == rest[i - 1]; }
    }
  }

  lemma {:induction false} HitsFit(hits: seq<B.Hit>, id: Identity, now: int)
    requires HitsWellBehaved(hits)
    requires forall i :: 0 <= i < |hits| && hits[i].Fingerprint() == KeyOf(id) ==> Kin(hits[i].Id(), id)
    ensures Fits(id, B.HitEvents(hits, KeyOf(id), now))
  {
    hide KeyOf;
    if hits != [] {
      HitsFit(hits[..|hits| - 1], id, now);
    }
  }

  lemma FitsWithClear(id: Identity, events: seq<Event>, now: int)
    requires Fits(id, events)
    ensures Fits(id, events + [Clear(now)]) && Fits(id, events + [])
  {
  }

  /** A step of writers that keep to their word leaves the row its owner's. */
  lemma {:induction false} StepKeepsOwned(step: Step, id: Identity, row: Option<Finding>)
    requires WellBehaved(step) && Apart(step, id) && Owned(id, row)
    ensures Owned(id, StepAt(step, KeyOf(id), row))
  {
    hide TagsFit, KeyOf, AffectAll;
    match step {
      case CategoryPass(pass) =>
        RaisesFit(pass, pass.issues, id);
        FitsWithClear(id, C.Raises(pass.kind, pass.issues, KeyOf(id), pass.now), pass.now);
        FittingEventsKeep(id, row, C.PassEvents(pass, KeyOf(id), row));
      case ArgoCdPass(apps, now) =>
        DriftFits(apps, id, now);
        FittingEventsKeep(id, row, D.DriftEvents(apps, KeyOf(id), now));
      case AssertionRun(a, result, now) =>
        if KeyOf(id) == A.AssertionKey(a) {
          OutcomeFits(a, result, id, now);
          FittingEventsKeep(id, row, A.OutcomeEvents(a, result, now));
        }
      case BottleneckPass(hits, now) =>
        HitsFit(hits, id, now);
        FitsWithClear(id, B.HitEvents(hits, KeyOf(id), now), now);
        FittingEventsKeep(id, row, B.PassEvents(hits, KeyOf(id), row, now));
      case Operator(_, _) =>
    }
  }

  // ---------------------------------------------------------------- non-interference

  lemma {:induction false} CategoryTag(evidence: seq<EvidenceRef>)
    requires C.CategoryOf(evidence).Some?
    ensures HasTag(evidence, C.CATEGORY_REF)
  {
    if !("type" in evidence[0] && evidence[0]["type"] == C.CATEGORY_REF) {
      CategoryTag(evidence[1..]);
      var i :| 0 <= i < |evidence[1..]| && "type" in evidence[1..][i] && evidence[1..][i]["type"] == C.CATEGORY_REF;
      assert evidence[i + 1] == evidence[1..][i];
    }
  }

  /** A step that is not about a finding leaves its row exactly as it is. */
  lemma {:induction false} OthersLeaveItAlone(step: Step, id: Identity, row: Option<Finding>)
    requires WellBehaved(step) && Apart(step, id) && Owned(id, row) && !Relevant(step, id)
    ensures StepAt(step, KeyOf(id), row) == row
  {
    hide KeyOf;
    var key := KeyOf(id);
    match step {
      case CategoryPass(pass) =>
        C.PassEffect(pass, key, row);
        if row.Some? && C.Clears(pass, key, row.value) {
          CategoryTag(row.value.content.evidence);
        }
      case ArgoCdPass(apps, now) =>
        D.AbsentIsUntouched(apps, key, row, now);
      case AssertionRun(a, result, now) =>
      case BottleneckPass(hits, now) =>
        B.UndetectedKeepsRow(row, hits, key, now);
        B.HitsThenClear(row, hits, key, now);
      case Operator(_, _) =>
    }
  }

  function RelevantSteps(steps: seq<Step>, id: Identity): seq<Step> {
    if steps == [] then []
    else
      RelevantSteps(steps[..|steps| - 1], id) +
      if Relevant(steps[|steps| - 1], id) then [steps[|steps| - 1]] else []
  }

  lemma {:induction false} RunKeepsOwned(steps: seq<Step>, id: Identity, row: Option<Finding>)
    requires AllWellBehaved(steps) && AllApart(steps, id) && Owned(id, row)
    ensures Owned(id, RunAt(steps, KeyOf(id), row))
  {
    hide StepAt, Owned, WellBehaved, Apart, KeyOf;
    if steps != [] {
      RunKeepsOwned(steps[..|steps| - 1], id, row);
      StepKeepsOwned(steps[|steps| - 1], id, RunAt(steps[..|steps| - 1], KeyOf(id), row));
    }
  }

  /**
   Non-interference over whole runs: what becomes of a row depends only on the steps about it, however
   the others are interleaved.
   */
  lemma {:induction false} RunIsItsRelevantSteps(steps: seq<Step>, id: Identity, row: Option<Finding>)
    requires AllWellBehaved(steps) && AllApart(steps, id) && Owned(id, row)
    ensures RunAt(steps, KeyOf(id), row) == RunAt(RelevantSteps(steps, id), KeyOf(id), row)
  {
    hide StepAt, Owned, WellBehaved, Relevant, Apart, KeyOf;
    if steps != [] {
      var init, last := steps[..|steps| - 1], steps[|steps| - 1];
      RunIsItsRelevantSteps(init, id, row);
      RunKeepsOwned(init, id, row);
      if Relevant(last, id) {
        var relevant := RelevantSteps(steps, id);
        assert relevant[..|relevant| - 1] == RelevantSteps(init, id);
      } else {
        OthersLeaveItAlone(last, id, RunAt(init, KeyOf(id), row));
        assert RelevantSteps(steps, id) == RelevantSteps(init, id);
      }
    }
  }

  // ---------------------------------------------------------------- where it fails

  /**
   Why a category pass must not forge the analyzer's tag: after any pass that lists a finding, whatever
   its row was, a bottleneck pass takes the finding over and resolves it exactly when what was said of
   it last forges the tag and the row is unresolved.
   */
  lemma {:induction false} ForgedTagIsTaken(pass: C.Pass, id: Identity, i: nat, row: Option<Finding>,
      hits: seq<B.Hit>, later: int)
    requires C.LastListed(pass.issues, KeyOf(id), i) && pass.kind == id.kind && Owner(id) == Category
    requires row.Some? ==> row.value.kind == id.kind
    requires HitsWellBehaved(hits) && Apart(BottleneckPass(hits, later), id)
    ensures var after := C.After(pass, KeyOf(id), row);
            && after.Some?
            && (B.After(hits, KeyOf(id), after, later) != after <==>
                Unresolved(after.value) && Forges(pass.issues[i], id.kind))
  {
    hide KeyOf, C.After, B.After, HasTag;
    var key := KeyOf(id);
    LastSaid(pass, key, i, row);
    var after := C.After(pass, key, row);
    B.UndetectedKeepsRow(after, hits, key, later);
    B.HitsThenClear(after, hits, key, later);
    ReportTag(pass.issues[i]);
  }

  /** A row a pass listed is unresolved or suppressed and carries what was said of it last. */
  lemma LastSaid(pass: C.Pass, key: Key, i: nat, row: Option<Finding>)
    requires C.LastListed(pass.issues, key, i) && (row.Some? ==> row.value.kind == pass.kind)
    ensures var after := C.After(pass, key, row);
            && after.Some? && after.value.kind == pass.kind
            && after.value.content.evidence == pass.issues[i].Reported().evidence
  {
    hide C.After;
    C.PassEffect(pass, key, row);
  }

  lemma ReportTag(issue: C.Issue)
    ensures HasTag(issue.Reported().evidence, B.TAG) <==> "type" in issue.evidence && issue.evidence["type"] == B.TAG
  {
    assert issue.Reported().evidence[1] == map["type" := "evidence"] + issue.evidence;
  }

  /** One assertion's runs leave another's finding alone, whatever they find, exactly when the fingerprints differ. */
  lemma {:induction false} AssertionsInterfereIffTheyCollide(a: A.Assertion, b: A.Assertion)
    ensures (forall result, row, now :: A.After(b, result, A.AssertionKey(a), row, now) == row) <==>
          A.AssertionKey(a) != A.AssertionKey(b)
  {
    if A.AssertionKey(a) == A.AssertionKey(b) {
      var failed := A.VerifierResult(A.Fail, map[]);
      A.OneEvent(None, b, failed, 0);
      assert A.After(b, failed, A.AssertionKey(a), None, 0) != None;
    }
  }

  // ---------------------------------------------------------------- where it cannot

  /** The step writes nothing else under this identity's fingerprint. */
  predicate Alone(step: Step, id: Identity) {
    match step
    case CategoryPass(pass) =>
      forall i :: 0 <= i < |pass.issues| && pass.issues[i].Fingerprint() == KeyOf(id) ==> pass.issues[i].Id() == id
    case ArgoCdPass(apps, _) =>
      forall i :: 0 <= i < |apps| && apps[i].name != "" && D.DriftKey(apps[i].name) == KeyOf(id) ==>
          D.DriftId(apps[i].name) == id
    case AssertionRun(a, _, _) => A.AssertionKey(a) == KeyOf(id) ==> A.AssertionId(a) == id
    case BottleneckPass(hits, _) =>
      forall i :: 0 <= i < |hits| && hits[i].Fingerprint() == KeyOf(id) ==> hits[i].Id() == id
    case Operator(_, _) => true
  }

  ghost predicate AllAlone(steps: seq<Step>, id: Identity) {
    forall i :: 0 <= i < |steps| ==> Alone(steps[i], id)
  }

  lemma AloneIsApart(step: Step, id: Identity)
    requires Alone(step, id)
    ensures Apart(step, id)
  {
    hide KeyOf, Owner;
  }

  /** No pipe where the payload is divided from the right. */
  predicate Plain(id: Identity) {
    '|' !in id.kind && '|' !in id.targetType && '|' !in id.rootCause
  }

  /** Every identity the step writes is plain. Categories, patterns and drift are; only assertions are named freely. */
  predicate WritesPlain(step: Step) {
    match step
    case CategoryPass(pass) => forall i :: 0 <= i < |pass.issues| ==> Plain(pass.issues[i].Id())
    case ArgoCdPass(_, _) => true
    case AssertionRun(a, _, _) => Plain(A.AssertionId(a))
    case BottleneckPass(hits, _) => forall i :: 0 <= i < |hits| ==> Plain(hits[i].Id())
    case Operator(_, _) => true
  }

  /** Plain root causes are enough to keep all findings apart, whatever their target ids. */
  lemma {:induction false} PlainStepsNeverCollide(step: Step, id: Identity)
    requires WritesPlain(step) && Plain(id)
    ensures Alone(step, id)
  {
    forall other: Identity | Plain(other) && KeyOf(other) == KeyOf(id) ensures other == id {
      PayloadInjective(other, id);
    }
    hide KeyOf;
    if step.ArgoCdPass? {
      forall i | 0 <= i < |step.apps| ensures Plain(D.DriftId(step.apps[i].name)) {
      }
    }
  }
}
