/** Configuration assertions: a failing run raises the assertion's finding, a passing one clears it. */
module Assertions {
  import opened Wrappers
  import opened Fingerprint
  import opened Findings

  const KIND := "config-drift"
  const TOKEN_PREFIX := "assertion:"

  datatype Outcome = Pass | Fail | Error | Skip

  datatype Assertion = Assertion(
    name: string, scope: string, scopeTarget: Option<string>, description: string, severityOnFail: string)

  /** A verifier's answer; `evidence` is what it looked at. */
  datatype VerifierResult = VerifierResult(outcome: Outcome, evidence: map<string, string>)

  datatype Run = Run(assertion: string, outcome: Outcome, finding: Option<Key>)

  datatype RunResult = RunResult(outcome: Outcome, findingOpened: bool, findingUpdated: bool, findingResolved: bool)

  function ScopeTarget(a: Assertion): string {
    if a.scopeTarget.Some? && a.scopeTarget.value != "" then a.scopeTarget.value else "global"
  }

  function AssertionId(a: Assertion): Identity {
    Identity(KIND, a.scope, ScopeTarget(a), TOKEN_PREFIX + a.name)
  }

  function AssertionKey(a: Assertion): Key {
    KeyOf(AssertionId(a))
  }

  function Reported(a: Assertion, evidence: seq<EvidenceRef>): Content {
    Content(
      a.severityOnFail,
      "Assertion failed: " + a.name,
      if a.description != "" then a.description else "(no description supplied)",
      [Target(a.scope, ScopeTarget(a)), Target("assertion", a.name)],
      evidence,
      None)
  }

  const LATEST_RUN: EvidenceRef := map["type" := "assertion_run", "id" := "latest"]

  /** Only these parts of a verifier's evidence are recorded, and only when an existing row is refreshed. */
  function Recorded(evidence: map<string, string>, fields: seq<string>): seq<EvidenceRef> {
    if fields == [] then []
    else
      (if fields[0] in evidence then [map["type" := fields[0], "id" := evidence[fields[0]]]] else []) +
      Recorded(evidence, fields[1..])
  }

  function OutcomeEvents(a: Assertion, result: VerifierResult, now: int): seq<Event> {
    match result.outcome
    case Fail =>
      [Raise(KIND, Reported(a, [LATEST_RUN]),
             Reported(a, [LATEST_RUN] + Recorded(result.evidence, ["target_type", "target_id", "key"])), now)]
    case Pass => [Clear(now)]
    case _ => []
  }

  function After(a: Assertion, result: VerifierResult, key: Key, row: Option<Finding>, now: int): Option<Finding> {
    if key == AssertionKey(a) then AffectAll(row, OutcomeEvents(a, result, now)) else row
  }

  /** Which fields an assertion's fingerprint is made of; no target counts as "global". */
  lemma FingerprintSays(a: Assertion)
    ensures AssertionKey(a) ==
            Sha256("config-drift" + "|" + a.scope + "|" +
                   (if a.scopeTarget == None || a.scopeTarget == Some("") then "global"
                       else a.scopeTarget.value) + "|" +
                   ("assertion:" + a.name))
  {
  }

  /** The entry recorded for one part of a verifier's evidence, if it is there. */
  ghost function EntryFor(evidence: map<string, string>, field: string): seq<EvidenceRef> {
    if field in evidence then [map["type" := field, "id" := evidence[field]]] else []
  }

  /** What the row of a failing assertion says; only a row that was there records what the verifier looked at. */
  ghost predicate CarriesFailure(row: Finding, isNew: bool, a: Assertion, evidence: map<string, string>) {
    var target := if a.scopeTarget == None || a.scopeTarget == Some("") then "global" else a.scopeTarget.value;
    Carries(row, a.severityOnFail, "Assertion failed: " + a.name,
      if a.description == "" then "(no description supplied)" else a.description,
      [Target(a.scope, target), Target("assertion", a.name)],
      if isNew then [map["type" := "assertion_run", "id" := "latest"]]
      else [map["type" := "assertion_run", "id" := "latest"]] + EntryFor(evidence, "target_type")
           + EntryFor(evidence, "target_id") + EntryFor(evidence, "key"))
  }

  /** What one run makes of its finding: FAIL raises it, PASS clears it, ERROR and SKIP leave it alone. */
  lemma {:induction false} RunOutcome(a: Assertion, result: VerifierResult, row: Option<Finding>, now: int)
    ensures var after := After(a, result, AssertionKey(a), row, now);
            match result.outcome
            case Fail =>
              && after.Some? && RaisedFrom(row, after.value, "config-drift", None, now)
              && CarriesFailure(after.value, row == None, a, result.evidence)
            case Pass => ClearedFrom(row, after, now)
            case _ => after == row
  {
    hide AssertionKey, KeyOf;
    OneEvent(row, a, result, now);
    ThreeRecorded(result.evidence);
    var latest := [LATEST_RUN];
    var recorded := Recorded(result.evidence, ["target_type", "target_id", "key"]);
    AffectSays(row, KIND, Reported(a, latest), Reported(a, latest + recorded), now);
    assert latest + recorded ==
      latest + EntryFor(result.evidence, "target_type") + EntryFor(result.evidence,
          "target_id") + EntryFor(result.evidence, "key");
  }

  lemma ThreeRecorded(evidence: map<string, string>)
    ensures Recorded(evidence, ["target_type", "target_id", "key"]) ==
            EntryFor(evidence, "target_type") + EntryFor(evidence, "target_id") + EntryFor(evidence, "key")
  {
    var fields := ["target_type", "target_id", "key"];
    assert fields[1..] == ["target_id", "key"] && fields[1..][1..] == ["key"] && fields[1..][1..][1..] == [];
    assert Recorded(evidence, ["key"]) == EntryFor(evidence, "key") + Recorded(evidence, []);
    assert Recorded(evidence, ["target_id", "key"]) == EntryFor(evidence, "target_id") + Recorded(evidence, ["key"]);
    assert Recorded(evidence, fields) == EntryFor(evidence, "target_type") + Recorded(evidence, ["target_id", "key"]);
  }

  class AssertionEngine {
    var runs: seq<Run>

    constructor ()
      ensures runs == []
    {
      runs := [];
    }

    /** Runs one assertion: logs the run, and on FAIL or PASS settles its finding. */
    method RunAssertion(table: FindingTable, a: Assertion, result: VerifierResult, now: int) returns (rr: RunResult)
      modifies this, table
      ensures forall k :: Get(table.rows, k) == After(a, result, k, Get(old(table.rows), k), now)
      ensures runs == old(runs) + [Run(a.name, result.outcome, if result.outcome == Fail then Some(AssertionKey(a))
            else None)]
      ensures rr.findingOpened <==>
              result.outcome == Fail &&
                  (AssertionKey(a) !in old(table.rows) || old(table.rows)[AssertionKey(a)].status == Resolved)
      ensures rr.findingUpdated <==> result.outcome == Fail && !rr.findingOpened
      ensures rr.findingResolved <==>
              result.outcome == Pass && AssertionKey(a) in old(table.rows) &&
                  Unresolved(old(table.rows)[AssertionKey(a)])
    {
      var key := AssertionKey(a);
      rr := RunResult(result.outcome, false, false, false);
      OneEvent(Get(table.rows, key), a, result, now);
      var finding := None;
      hide Affect, AffectAll;
      if result.outcome == Fail {
        var recorded := Recorded(result.evidence, ["target_type", "target_id", "key"]);
        var before := table.Upsert(key, KIND, Reported(a, [LATEST_RUN]), Reported(a, [LATEST_RUN] + recorded), now);
        var isNew := before == None || before == Some(Resolved);
        rr := rr.(findingOpened := isNew, findingUpdated := !isNew);
        finding := Some(key);
      } else if result.outcome == Pass {
        var done := table.Resolve(key, now);
        rr := rr.(findingResolved := done);
      }
      runs := runs + [Run(a.name, result.outcome, finding)];
    }
  }

  lemma OneEvent(row: Option<Finding>, a: Assertion, result: VerifierResult, now: int)
    ensures AffectAll(row, OutcomeEvents(a, result, now)) ==
            if |OutcomeEvents(a, result, now)| == 1 then Affect(row, OutcomeEvents(a, result, now)[0]) else row
  {
    if |OutcomeEvents(a, result, now)| == 1 {
      assert OutcomeEvents(a, result, now)[..0] == [];
    }
  }
}
