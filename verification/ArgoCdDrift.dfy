/** Argo CD drift: one finding per application, raised while it drifts and cleared when it is reported healthy. */
module ArgoCdDrift {
  import opened Wrappers
  import opened Fingerprint
  import opened Findings

  const KIND := "drift-candidate"
  const TARGET_TYPE := "argocd-app"
  const ROOT_CAUSE := "argocd-drift"

  datatype Application = Application(
    name: string, namespace: string, syncStatus: string, healthStatus: string, description: string)

  datatype DriftResult = DriftResult(appeared: seq<string>, reopened: seq<string>, updated: seq<string>,
      resolved: seq<string>)

  function DriftId(name: string): Identity {
    Identity(KIND, TARGET_TYPE, name, ROOT_CAUSE)
  }

  function DriftKey(name: string): Key {
    KeyOf(DriftId(name))
  }

  /** Empty strings stand for fields Argo CD did not report. */
  predicate IsDrifted(app: Application) {
    (app.syncStatus != "" && app.syncStatus != "Synced") || (app.healthStatus != "" && app.healthStatus != "Healthy")
  }

  function Reported(app: Application): Content {
    Content(
      if app.healthStatus in ["Degraded", "Missing", "Unknown"] then "high" else "medium",
      "Argo CD drift: " + app.name,
      app.description,
      [Target(TARGET_TYPE, app.name)] + (if app.namespace != "" then [Target("namespace", app.namespace)] else []),
      [map["type" := "argocd_application", "id" := app.name],
       map["type" := "argocd_status", "sync" := app.syncStatus, "health" := app.healthStatus]],
      None)
  }

  function AppEvent(app: Application, now: int): Event {
    if IsDrifted(app) then Raise(KIND, Reported(app), Reported(app), now) else Clear(now)
  }

  /** What a pass means for one key: an event for every report of that application, in order. */
  function DriftEvents(apps: seq<Application>, key: Key, now: int): seq<Event> {
    if apps == [] then []
    else
      var app := apps[|apps| - 1];
      DriftEvents(apps[..|apps| - 1], key, now) +
      if app.name != "" && DriftKey(app.name) == key then [AppEvent(app, now)] else []
  }

  function After(apps: seq<Application>, key: Key, row: Option<Finding>, now: int): Option<Finding> {
    AffectAll(row, DriftEvents(apps, key, now))
  }

  lemma {:induction false} OneMoreApp(row: Option<Finding>, apps: seq<Application>, i: nat, key: Key, now: int)
    requires i < |apps|
    ensures After(apps[..i + 1], key, row, now) ==
            var sofar := After(apps[..i], key, row, now);
            if apps[i].name != "" && DriftKey(apps[i].name) == key then Affect(sofar, AppEvent(apps[i], now)) else sofar
  {
    hide Affect, AppEvent;
    assert apps[..i + 1][..i] == apps[..i];
    var before, all := DriftEvents(apps[..i], key, now), DriftEvents(apps[..i + 1], key, now);
    if apps[i].name != "" && DriftKey(apps[i].name) == key {
      assert all[..|all| - 1] == before;
    } else {
      assert all == before;
    }
  }

  /** Out of sync or unhealthy, by what Argo CD said; what it did not say does not count. */
  lemma DriftedIff(app: Application)
    ensures IsDrifted(app) <==>
            app.syncStatus !in {"", "Synced"} || app.healthStatus !in {"", "Healthy"}
  {
  }

  /** Which fields an application's fingerprint is made of. */
  lemma FingerprintSays(name: string)
    ensures DriftKey(name) == Sha256("drift-candidate|argocd-app|" + name + "|argocd-drift")
  {
    assert Payload(DriftId(name)) == "drift-candidate" + "|" + "argocd-app" + "|" + name + "|" + "argocd-drift";
    assert "drift-candidate" + "|" + "argocd-app" + "|" == "drift-candidate|argocd-app|";
    assert "|" + "argocd-drift" == "|argocd-drift";
  }

  /** What a drifting application's row says. */
  ghost predicate CarriesDrift(row: Finding, app: Application) {
    && row.content.severity == (if app.healthStatus in {"Degraded", "Missing", "Unknown"} then "high" else "medium")
    && row.content.title == "Argo CD drift: " + app.name
    && row.content.description == app.description
    && row.content.affected ==
       (if app.namespace == "" then [Target("argocd-app", app.name)]
        else [Target("argocd-app", app.name), Target("namespace", app.namespace)])
    && row.content.evidence ==
       [map["type" := "argocd_application", "id" := app.name],
        map["type" := "argocd_status", "sync" := app.syncStatus, "health" := app.healthStatus]]
  }

  /**
   A pass, for an application reported once: drifting, its row ends raised and carries the report; not
   drifting, an open or acknowledged row ends resolved. With `AbsentIsUntouched` this decides every row.
   */
  lemma {:induction false} ReportOutcome(apps: seq<Application>, i: nat, row: Option<Finding>, now: int)
    requires i < |apps| && apps[i].name != "" && forall j :: 0 <= j < |apps| && j != i ==> apps[j].name != apps[i].name
    ensures var after := After(apps, DriftKey(apps[i].name), row, now);
            if apps[i].syncStatus !in {"", "Synced"} || apps[i].healthStatus !in {"", "Healthy"} then
              after.Some? && RaisedFrom(row, after.value, "drift-candidate", None, now) &&
                  CarriesDrift(after.value, apps[i])
            else
              ClearedFrom(row, after, now)
  {
    hide DriftKey, CarriesDrift, Carries, RaisedFrom, ClearedFrom, Affect, After, Reported;
    var key := DriftKey(apps[i].name);
    forall j | 0 <= j < |apps| && j != i ensures DriftKey(apps[j].name) != key {
      KeysDiffer(apps[j].name, apps[i].name);
    }
    AbsentIsUntouched(apps[..i], key, row, now);
    OneMoreApp(row, apps, i, key, now);
    OthersAfter(apps, i + 1, key, row, now);
    AffectSays(row, KIND, Reported(apps[i]), Reported(apps[i]), now);
    ReportSays(apps[i]);
    assert apps[i].syncStatus !in {"", "Synced"} || apps[i].healthStatus !in {"", "Healthy"} ==>
      CarriesDrift(Affect(row, AppEvent(apps[i], now)).value, apps[i]);
  }

  lemma ReportSays(app: Application)
    ensures var c := Reported(app);
            && c.proposed == None
            && forall row: Finding :: Carries(row, c.severity, c.title, c.description, c.affected, c.evidence) ==>
                 CarriesDrift(row, app)
  {
  }

  lemma {:induction false} OthersAfter(apps: seq<Application>, n: nat, key: Key, row: Option<Finding>, now: int)
    requires n <= |apps| && forall j :: n <= j < |apps| ==> DriftKey(apps[j].name) != key
    ensures After(apps, key, row, now) == After(apps[..n], key, row, now)
    decreases |apps| - n
  {
    hide DriftKey;
    if n == |apps| {
      assert apps[..n] == apps;
    } else {
      OneMoreApp(row, apps, n, key, now);
      OthersAfter(apps, n + 1, key, row, now);
    }
  }

  // ---------------------------------------------------------------- what the lists contain

  /** What becomes of one report: which list its name goes to, if any. */
  datatype Heading = Appeared | Reopened | Updated | Cleared | Unlisted

  /** The row the `i`-th report finds: the one from before the pass, as the earlier reports left it. */
  function Found(was: Rows, apps: seq<Application>, i: nat, now: int): Option<Finding>
    requires i < |apps|
  {
    After(apps[..i], DriftKey(apps[i].name), Get(was, DriftKey(apps[i].name)), now)
  }

  function HeadingOf(app: Application, found: Option<Finding>): Heading {
    if app.name == "" then Unlisted
    else if IsDrifted(app) then
      if found == None then Appeared else if found.value.status == Resolved then Reopened else Updated
    else if found.Some? && Unresolved(found.value) then Cleared
    else Unlisted
  }

  function Placed(result: DriftResult, name: string, h: Heading): DriftResult {
    match h
    case Appeared => result.(appeared := result.appeared + [name])
    case Reopened => result.(reopened := result.reopened + [name])
    case Updated => result.(updated := result.updated + [name])
    case Cleared => result.(resolved := result.resolved + [name])
    case Unlisted => result
  }

  /** The lists in the order of the reports. */
  function Summary(was: Rows, apps: seq<Application>, now: int): DriftResult {
    if apps == [] then DriftResult([], [], [], [])
    else
      var n := |apps| - 1;
      Placed(Summary(was, apps[..n], now), apps[n].name, HeadingOf(apps[n], Found(was, apps, n, now)))
  }

  /** Some report of this application came under this heading. */
  ghost predicate Under(was: Rows, apps: seq<Application>, name: string, h: Heading, now: int) {
    exists i :: 0 <= i < |apps| && apps[i].name == name && HeadingOf(apps[i], Found(was, apps, i, now)) == h
  }

  function CountUnder(was: Rows, apps: seq<Application>, h: Heading, now: int): nat {
    if apps == [] then 0
    else
      CountUnder(was, apps[..|apps| - 1], h, now) +
      if HeadingOf(apps[|apps| - 1], Found(was, apps, |apps| - 1, now)) == h then 1 else 0
  }

  /** The list holds the names that came under the heading, once for each report that did. */
  ghost predicate Holds(names: seq<string>, was: Rows, apps: seq<Application>, h: Heading, now: int) {
    (forall n :: n in names <==> Under(was, apps, n, h, now)) && |names| == CountUnder(was, apps, h, now)
  }

  ghost predicate Tells(result: DriftResult, was: Rows, apps: seq<Application>, now: int) {
    && Holds(result.appeared, was, apps, Appeared, now) && Holds(result.reopened, was, apps, Reopened, now)
    && Holds(result.updated, was, apps, Updated, now) && Holds(result.resolved, was, apps, Cleared, now)
  }

  lemma {:induction false} UnderNext(was: Rows, apps: seq<Application>, name: string, h: Heading, now: int)
    requires apps != []
    ensures var init, last := apps[..|apps| - 1], apps[|apps| - 1];
            Under(was, apps, name, h, now) <==>
            Under(was, init, name, h, now) || (last.name == name && HeadingOf(last, Found(was, apps, |init|, now)) == h)
  {
    hide After, HeadingOf;
    var init := apps[..|apps| - 1];
    forall i | 0 <= i < |init| ensures Found(was, init, i, now) == Found(was, apps, i, now) && init[i] == apps[i] {
      assert init[..i] == apps[..i];
    }
    if Under(was, init, name, h, now) {
      var i :| 0 <= i < |init| && init[i].name == name && HeadingOf(init[i], Found(was, init, i, now)) == h;
      assert apps[i].name == name && HeadingOf(apps[i], Found(was, apps, i, now)) == h;
    }
  }

  lemma {:induction false} HoldsNext(names: seq<string>, was: Rows, apps: seq<Application>, h: Heading, now: int)
    requires apps != [] && Holds(names, was, apps[..|apps| - 1], h, now)
    ensures var last := apps[|apps| - 1];
            Holds(if HeadingOf(last, Found(was, apps, |apps| - 1, now)) == h then names + [last.name]
                else names, was, apps, h, now)
  {
    hide Found, HeadingOf, Under;
    forall n {
      UnderNext(was, apps, n, h, now);
    }
  }

  /**
   The lists, in the words of the reports and of the row each one found: opened where there was none,
   reopened where it was resolved, updated where it was anything else, resolved where a report that
   does not drift found it open or acknowledged.
   */
  lemma {:induction false} HeadingSays(app: Application, found: Option<Finding>)
    requires app.name != ""
    ensures var drifts := app.syncStatus !in {"", "Synced"} || app.healthStatus !in {"", "Healthy"};
            var h := HeadingOf(app, found);
            && (h == Appeared <==> drifts && found == None)
            && (h == Reopened <==> drifts && found.Some? && found.value.status == Resolved)
            && (h == Updated <==> drifts && found.Some? && found.value.status != Resolved)
            && (h == Cleared <==>
                !drifts && found.Some? && (found.value.status == Open || found.value.status == Acknowledged))
  {
    DriftedIff(app);
  }

  lemma {:induction false} SummaryTells(was: Rows, apps: seq<Application>, now: int)
    ensures Tells(Summary(was, apps, now), was, apps, now)
  {
    hide Found, HeadingOf, Holds;
    if apps == [] {
      NothingUnder(was, now);
    } else {
      var sofar := Summary(was, apps[..|apps| - 1], now);
      SummaryTells(was, apps[..|apps| - 1], now);
      HoldsNext(sofar.appeared, was, apps, Appeared, now);
      HoldsNext(sofar.reopened, was, apps, Reopened, now);
      HoldsNext(sofar.updated, was, apps, Updated, now);
      HoldsNext(sofar.resolved, was, apps, Cleared, now);
    }
  }

  lemma NothingUnder(was: Rows, now: int)
    ensures forall h :: Holds([], was, [], h, now)
  {
  }

  /** Applications with different names have different fingerprints. */
  lemma KeysDiffer(a: string, b: string)
    ensures DriftKey(a) == DriftKey(b) <==> a == b
  {
    if DriftKey(a) == DriftKey(b) {
      PayloadInjective(DriftId(a), DriftId(b));
    }
  }

  /**
   When every application is reported once, the lists are about the table as it was: each report finds
   the row from before the pass.
   */
  lemma {:induction false} DistinctFindWhatWas(was: Rows, apps: seq<Application>, i: nat, now: int)
    requires i < |apps| && forall j :: 0 <= j < i ==> apps[j].name != apps[i].name
    ensures Found(was, apps, i, now) == Get(was, DriftKey(apps[i].name))
  {
    hide DriftKey;
    forall j | 0 <= j < i ensures DriftKey(apps[j].name) != DriftKey(apps[i].name) {
      KeysDiffer(apps[j].name, apps[i].name);
    }
    AbsentIsUntouched(apps[..i], DriftKey(apps[i].name), Get(was, DriftKey(apps[i].name)), now);
  }

  /** Once an application has drifted in a pass, no later report of it makes its finding appear again. */
  lemma {:induction false} AppearsOnce(was: Rows, apps: seq<Application>, i: nat, j: nat, now: int)
    requires i < j < |apps| && apps[i].name == apps[j].name != "" && IsDrifted(apps[i])
    ensures HeadingOf(apps[j], Found(was, apps, j, now)) != Appeared
  {
    hide AppEvent, IsDrifted, DriftKey;
    var key := DriftKey(apps[i].name);
    AppRow(After(apps[..i], key, Get(was, key), now), apps[i], now);
    OneMoreApp(Get(was, key), apps, i, key, now);
    RowStays(apps, i + 1, j, key, Get(was, key), now);
  }

  lemma AppRow(row: Option<Finding>, app: Application, now: int)
    ensures Affect(row, AppEvent(app, now)).Some? <==> row.Some? || IsDrifted(app)
  {
  }

  lemma {:induction false} RowStays(apps: seq<Application>, i: nat, j: nat, key: Key, row: Option<Finding>, now: int)
    requires i <= j <= |apps| && After(apps[..i], key, row, now).Some?
    ensures After(apps[..j], key, row, now).Some?
    decreases j
  {
    hide After, AppEvent, IsDrifted, DriftKey;
    if i < j {
      RowStays(apps, i, j - 1, key, row, now);
      OneMoreApp(row, apps, j - 1, key, now);
      AppRow(After(apps[..j - 1], key, row, now), apps[j - 1], now);
    }
  }

  lemma SummaryNext(was: Rows, apps: seq<Application>, i: nat, now: int)
    requires i < |apps|
    ensures Summary(was, apps[..i + 1], now) ==
            var key := DriftKey(apps[i].name);
            Placed(Summary(was, apps[..i], now), apps[i].name,
                HeadingOf(apps[i], After(apps[..i], key, Get(was, key), now)))
  {
    hide After, DriftKey, HeadingOf, Placed;
    assert apps[..i + 1][..i] == apps[..i];
  }

  method ReconcileArgoCdDrift(table: FindingTable, apps: seq<Application>, now: int) returns (result: DriftResult)
    modifies table
    ensures forall k :: Get(table.rows, k) == After(apps, k, Get(old(table.rows), k), now)
    ensures result == Summary(old(table.rows), apps, now) && Tells(result, old(table.rows), apps, now)
  {
    hide Affect, After, Tells, Summary, DriftKey, Reported, IsDrifted;
    ghost var was := table.rows;
    result := DriftResult([], [], [], []);
    forall k {
      NoApps(Get(was, k), apps, k, now);
    }
    NoSummary(was, apps, now);
    for i := 0 to |apps|
      invariant forall k :: Get(table.rows, k) == After(apps[..i], k, Get(was, k), now)
      invariant result == Summary(was, apps[..i], now)
    {
      var app := apps[i];
      SummaryNext(was, apps, i, now);
      assert Get(table.rows, DriftKey(app.name)) ==
            After(apps[..i], DriftKey(app.name), Get(was, DriftKey(app.name)), now);
      forall k {
        OneMoreApp(Get(was, k), apps, i, k, now);
      }
      if app.name != "" {
        if IsDrifted(app) {
          var before := table.Upsert(DriftKey(app.name), KIND, Reported(app), Reported(app), now);
          match before {
            case None => result := result.(appeared := result.appeared + [app.name]);
            case Some(Resolved) => result := result.(reopened := result.reopened + [app.name]);
            case Some(_) => result := result.(updated := result.updated + [app.name]);
          }
        } else {
          var done := table.Resolve(DriftKey(app.name), now);
          if done {
            result := result.(resolved := result.resolved + [app.name]);
          }
        }
      }
    }
    assert apps[..|apps|] == apps;
    SummaryTells(was, apps, now);
  }

  lemma NoSummary(was: Rows, apps: seq<Application>, now: int)
    ensures Summary(was, apps[..0], now) == DriftResult([], [], [], [])
  {
  }

  lemma NoApps(row: Option<Finding>, apps: seq<Application>, key: Key, now: int)
    ensures After(apps[..0], key, row, now) == row
  {
  }

  /** Absence never resolves: an application Argo CD did not report this time keeps its finding as it was. */
  lemma {:induction false} AbsentIsUntouched(apps: seq<Application>, key: Key, row: Option<Finding>, now: int)
    requires forall i :: 0 <= i < |apps| ==> apps[i].name == "" || DriftKey(apps[i].name) != key
    ensures After(apps, key, row, now) == row
  {
    if apps != [] {
      assert apps[..|apps|] == apps;
      OneMoreApp(row, apps, |apps| - 1, key, now);
      AbsentIsUntouched(apps[..|apps| - 1], key, row, now);
    }
  }
}
