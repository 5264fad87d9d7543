/**
 Loading the assertion library: entries are validated one by one and upserted by name; whatever is
 malformed or names an unknown host is skipped with a reason.
 */
module AssertionLibrary {
  import opened Wrappers

  const SCOPES := ["host", "cluster", "site", "global"]
  const KINDS := ["ssh-command", "http-check", "api-query", "observation-predicate", "file-hash"]
  const SEVERITIES := ["critical", "high", "medium", "low", "info"]

  /** A YAML value where a string was expected: key missing, null, a string, or something else. */
  datatype Field = Absent | Null | Text(value: string) | NotText

  /** `arch`: absent or null, a list of strings, or something else. */
  datatype Arch = AnyArch | Only(names: seq<string>) | Malformed

  datatype SpecValue = Scalar(text: string) | Listed(items: seq<string>)

  type Spec = map<string, SpecValue>

  datatype Entry = Entry(
    name: Field, host: Field, scope: Field, scopeTarget: Field, verifierSpec: Option<Spec>, arch: Arch,
    description: Field, rationale: Option<string>, kind: Field, severity: Field,
    schedule: Option<string>, artifactLink: Option<string>, enabled: bool)

  /** The columns of a row that the library owns. */
  datatype Fields = Fields(
    scope: string, scopeTarget: Option<string>, description: string, rationale: Option<string>, kind: string,
    verifierSpec: Spec, severity: string,
    schedule: Option<string>, artifactLink: Option<string>, enabled: bool)

  datatype Reason =
    | MissingName | UnknownHost(host: string) | UnknownScope | ScopeTargetNotText | MissingSpec
    | BadArch | MissingDescription | UnknownKind | UnknownSeverity

  type Rows = map<string, Fields>

  datatype LoadResult = LoadResult(
    created: seq<string>, updated: seq<string>, same: seq<string>, skipped: seq<(string, Reason)>)

  // ---------------------------------------------------------------- one entry

  function EntryName(entry: Entry): string {
    if entry.name.Text? && entry.name.value != "" then entry.name.value else "<unnamed>"
  }

  function ResolveScope(entry: Entry, hosts: map<string, string>): Result<(string, Option<string>), Reason> {
    if entry.host.Text? && entry.host.value != "" then
      if entry.host.value in hosts then Success(("host", Some(hosts[entry.host.value])))
          else Failure(UnknownHost(entry.host.value))
    else
      var scope := if entry.scope == Absent then Text("global") else entry.scope;
      if !(scope.Text? && scope.value in SCOPES) then Failure(UnknownScope)
      else if entry.scopeTarget == NotText then Failure(ScopeTargetNotText)
      else Success((scope.value, if entry.scopeTarget.Text? then Some(entry.scopeTarget.value) else None))
  }

  function BuildFields(entry: Entry, scope: (string, Option<string>)): Result<Fields, Reason> {
    if entry.verifierSpec == None || entry.verifierSpec.value == map[] then Failure(MissingSpec)
    else if entry.arch == Malformed then Failure(BadArch)
    else if !(entry.description.Text? && entry.description.value != "") then Failure(MissingDescription)
    else
      var kind := if entry.kind == Absent then Text("observation-predicate") else entry.kind;
      var severity := if entry.severity == Absent then Text("medium") else entry.severity;
      if !(kind.Text? && kind.value in KINDS) then Failure(UnknownKind)
      else if !(severity.Text? && severity.value in SEVERITIES) then Failure(UnknownSeverity)
      else
        Success(Fields(
          scope.0, scope.1, entry.description.value, entry.rationale, kind.value,
          if entry.arch.Only? then entry.verifierSpec.value["applies_to_arch" := Listed(entry.arch.names)]
              else entry.verifierSpec.value,
          severity.value,
          entry.schedule, entry.artifactLink, entry.enabled))
  }

  function Validate(entry: Entry, hosts: map<string, string>): Result<Fields, Reason> {
    if !(entry.name.Text? && entry.name.value != "") then Failure(MissingName)
    else
      var scope := ResolveScope(entry, hosts);
      if scope.Failure? then Failure(scope.error) else BuildFields(entry, scope.value)
  }

  predicate Valid(entry: Entry, hosts: map<string, string>) {
    Validate(entry, hosts).Success?
  }

  predicate IsNamed(entry: Entry) {
    entry.name.Text? && entry.name.value != ""
  }

  predicate NamesHost(entry: Entry) {
    entry.host.Text? && entry.host.value != ""
  }

  /**
   A host that is known; or, without one, a scope of the list, or none given, and a target that is text
   if it is given.
   */
  predicate ScopeIsFine(entry: Entry, hosts: map<string, string>) {
    if NamesHost(entry) then entry.host.value in hosts
    else
      && (entry.scope == Absent || (entry.scope.Text? && entry.scope.value in {"host", "cluster", "site", "global"}))
      && entry.scopeTarget != NotText
  }

  predicate KindIsFine(entry: Entry) {
    entry.kind == Absent ||
    (entry.kind.Text? &&
     entry.kind.value in {"ssh-command", "http-check", "api-query", "observation-predicate", "file-hash"})
  }

  predicate SeverityIsFine(entry: Entry) {
    entry.severity == Absent ||
    (entry.severity.Text? && entry.severity.value in {"critical", "high", "medium", "low", "info"})
  }

  predicate IsDescribed(entry: Entry) {
    entry.description.Text? && entry.description.value != ""
  }

  predicate HasSpec(entry: Entry) {
    entry.verifierSpec.Some? && entry.verifierSpec.value != map[]
  }

  /** Exactly which entries are loaded. */
  lemma ValidIff(entry: Entry, hosts: map<string, string>)
    ensures Valid(entry, hosts) <==>
            && IsNamed(entry) && ScopeIsFine(entry, hosts) && HasSpec(entry) && entry.arch != Malformed
            && IsDescribed(entry) && KindIsFine(entry) && SeverityIsFine(entry)
  {
  }

  /** Of several faults the first in this order is the reason given. */
  lemma FirstFaultIsTheReason(entry: Entry, hosts: map<string, string>)
    ensures var r := Validate(entry, hosts);
            && (r == Failure(MissingName) <==> !IsNamed(entry))
            && (IsNamed(entry) && !ScopeIsFine(entry, hosts) ==>
                  r == Failure(if NamesHost(entry) then UnknownHost(entry.host.value)
                               else if entry.scope == Absent ||
                                   (entry.scope.Text? && entry.scope.value in SCOPES) then ScopeTargetNotText
                               else UnknownScope))
            && (IsNamed(entry) && ScopeIsFine(entry, hosts) ==>
                  && (r == Failure(MissingSpec) <==> !HasSpec(entry))
                  && (r == Failure(BadArch) <==> HasSpec(entry) && entry.arch == Malformed)
                  && (HasSpec(entry) && entry.arch != Malformed ==>
                        && (r == Failure(MissingDescription) <==> !IsDescribed(entry))
                        && (r == Failure(UnknownKind) <==> IsDescribed(entry) && !KindIsFine(entry))
                        && (r == Failure(UnknownSeverity) <==>
                              IsDescribed(entry) && KindIsFine(entry) && !SeverityIsFine(entry))))
  {
  }

  /** Which column each part of a loaded entry goes to, and what stands in for a part that is missing. */
  lemma FieldsSay(entry: Entry, hosts: map<string, string>)
    requires Valid(entry, hosts)
    ensures var f := Validate(entry, hosts).value;
            && (NamesHost(entry) ==> f.scope == "host" && f.scopeTarget == Some(hosts[entry.host.value]))
            && (!NamesHost(entry) ==>
                  && f.scope == (if entry.scope == Absent then "global" else entry.scope.value)
                  && f.scopeTarget == (if entry.scopeTarget.Text? then Some(entry.scopeTarget.value) else None))
            && f.description == entry.description.value && f.rationale == entry.rationale
            && f.kind == (if entry.kind == Absent then "observation-predicate" else entry.kind.value)
            && f.severity == (if entry.severity == Absent then "medium" else entry.severity.value)
            && (entry.arch == AnyArch ==> f.verifierSpec == entry.verifierSpec.value)
            && (entry.arch.Only? ==>
                  f.verifierSpec == entry.verifierSpec.value["applies_to_arch" := Listed(entry.arch.names)])
            && f.schedule == entry.schedule && f.artifactLink == entry.artifactLink && f.enabled == entry.enabled
  {
  }

  // ---------------------------------------------------------------- a load, entry by entry

  datatype Outcome = Created | Updated | Same | Skipped(reason: Reason)

  function Judge(rows: Rows, entry: Entry, hosts: map<string, string>): Outcome {
    match Validate(entry, hosts)
    case Failure(reason) => Skipped(reason)
    case Success(fields) =>
      if EntryName(entry) !in rows then Created
      else if rows[EntryName(entry)] == fields then Same
      else Updated
  }

  function Upserted(rows: Rows, entry: Entry, hosts: map<string, string>): Rows {
    if Valid(entry, hosts) then rows[EntryName(entry) := Validate(entry, hosts).value] else rows
  }

  /** The table after the entries; later ones of the same name win. */
  function Loaded(rows: Rows, entries: seq<Entry>, hosts: map<string, string>): Rows {
    if entries == [] then rows
    else Upserted(Loaded(rows, entries[..|entries| - 1], hosts), entries[|entries| - 1], hosts)
  }

  /** What a load says of its `i`-th entry; a dry run looks at the table as it was. */
  function OutcomeAt(rows: Rows, entries: seq<Entry>, hosts: map<string, string>, dryRun: bool, i: nat): Outcome
    requires i < |entries|
  {
    Judge(if dryRun then rows else Loaded(rows, entries[..i], hosts), entries[i], hosts)
  }

  function Noted(result: LoadResult, name: string, outcome: Outcome): LoadResult {
    match outcome
    case Created => result.(created := result.created + [name])
    case Updated => result.(updated := result.updated + [name])
    case Same => result.(same := result.same + [name])
    case Skipped(reason) => result.(skipped := result.skipped + [(name, reason)])
  }

  /** The report of the first `n` entries. */
  function Report(rows: Rows, entries: seq<Entry>, hosts: map<string, string>, dryRun: bool, n: nat): LoadResult
    requires n <= |entries|
  {
    if n == 0 then LoadResult([], [], [], [])
    else Noted(Report(rows, entries, hosts, dryRun, n - 1), EntryName(entries[n - 1]),
        OutcomeAt(rows, entries, hosts, dryRun, n - 1))
  }

  class AssertionTable {
    var rows: Rows

    constructor (rows: Rows)
      ensures this.rows == rows
    {
      this.rows := rows;
    }

    /** Appends the entry to one list of the result and, unless it is a dry run, writes it. */
    method LoadOne(entry: Entry, hosts: map<string, string>, dryRun: bool, result: LoadResult) returns (r: LoadResult)
      modifies this
      ensures r == Noted(result, EntryName(entry), Judge(old(rows), entry, hosts))
      ensures rows == if dryRun then old(rows) else Upserted(old(rows), entry, hosts)
      ensures dryRun || !Valid(entry, hosts) ==> rows == old(rows)
      ensures !Valid(entry, hosts) ==>
                var name := if IsNamed(entry) then entry.name.value else "<unnamed>";
                r == result.(skipped := result.skipped + [(name, Validate(entry, hosts).error)])
      ensures Valid(entry, hosts) ==>
                var name, fields := entry.name.value, Validate(entry, hosts).value;
                && (!dryRun ==> rows == old(rows)[name := fields])
                && (name !in old(rows) ==> r == result.(created := result.created + [name]))
                && (name in old(rows) && old(rows)[name] == fields ==> r == result.(same := result.same + [name]))
                && (name in old(rows) && old(rows)[name] != fields ==> r == result.(updated := result.updated + [name]))
    {
      var validated := Validate(entry, hosts);
      if validated.Failure? {
        return result.(skipped := result.skipped + [(EntryName(entry), validated.error)]);
      }
      var name, fields := EntryName(entry), validated.value;
      if name in rows {
        if rows[name] == fields {
          return result.(same := result.same + [name]);
        }
        if !dryRun {
          rows := rows[name := fields];
        }
        return result.(updated := result.updated + [name]);
      }
      if !dryRun {
        rows := rows[name := fields];
      }
      r := result.(created := result.created + [name]);
    }

    method LoadLibraryEntries(entries: seq<Entry>, hosts: map<string, string>, dryRun: bool)
      returns (result: LoadResult)
      modifies this
      ensures result == Report(old(rows), entries, hosts, dryRun, |entries|)
      ensures rows == if dryRun then old(rows) else Loaded(old(rows), entries, hosts)
    {
      hide Judge, Upserted, Noted;
      ghost var was := rows;
      result := LoadResult([], [], [], []);
      for i := 0 to |entries|
        invariant result == Report(was, entries, hosts, dryRun, i)
        invariant rows == if dryRun then was else Loaded(was, entries[..i], hosts)
      {
        assert entries[..i + 1][..i] == entries[..i];
        result := LoadOne(entries[i], hosts, dryRun, result);
      }
      assert entries[..|entries|] == entries;
    }
  }

  function NamesOf(entries: seq<Entry>): seq<string> {
    if entries == [] then [] else NamesOf(entries[..|entries| - 1]) + [EntryName(entries[|entries| - 1])]
  }

  function SkippedNames(skipped: seq<(string, Reason)>): seq<string> {
    if skipped == [] then [] else SkippedNames(skipped[..|skipped| - 1]) + [skipped[|skipped| - 1].0]
  }

  /** Everything the report lists, under any heading. */
  function Placed(r: LoadResult): multiset<string> {
    multiset(r.created) + multiset(r.updated) + multiset(r.same) + multiset(SkippedNames(r.skipped))
  }

  /** Every entry is in exactly one list, under its name. */
  lemma {:induction false} ReportPartitions(rows: Rows, entries: seq<Entry>, hosts: map<string, string>, dryRun: bool,
      n: nat)
    requires n <= |entries|
    ensures Placed(Report(rows, entries, hosts, dryRun, n)) == multiset(NamesOf(entries[..n]))
  {
    hide EntryName, OutcomeAt, Noted, Placed;
    if n == 0 {
      NothingPlaced();
    } else {
      ReportPartitions(rows, entries, hosts, dryRun, n - 1);
      assert entries[..n][..n - 1] == entries[..n - 1];
      NotedPlaces(Report(rows, entries, hosts, dryRun, n - 1), EntryName(entries[n - 1]),
          OutcomeAt(rows, entries, hosts, dryRun, n - 1));
    }
  }

  lemma NothingPlaced()
    ensures Placed(LoadResult([], [], [], [])) == multiset([])
  {
  }

  lemma NotedPlaces(result: LoadResult, name: string, outcome: Outcome)
    ensures Placed(Noted(result, name, outcome)) == Placed(result) + multiset{name}
  {
    if outcome.Skipped? {
      assert (result.skipped + [(name, outcome.reason)])[..|result.skipped|] == result.skipped;
    }
  }

  // ---------------------------------------------------------------- reloading

  /** No two valid entries of one name disagree. */
  ghost predicate Consistent(entries: seq<Entry>, hosts: map<string, string>) {
    forall i, j :: 0 <= i < j < |entries| && Valid(entries[i], hosts) && Valid(entries[j], hosts) &&
        EntryName(entries[i]) == EntryName(entries[j])
      ==> Validate(entries[i], hosts) == Validate(entries[j], hosts)
  }

  /** The valid entry that decides a name: the last one. */
  ghost predicate Decides(entries: seq<Entry>, hosts: map<string, string>, i: int, n: int, name: string) {
    && 0 <= i < n <= |entries| && Valid(entries[i], hosts) && EntryName(entries[i]) == name
    && forall j :: i < j < n && Valid(entries[j], hosts) ==> EntryName(entries[j]) != name
  }

  lemma {:induction false} LoadedByLast(rows: Rows, entries: seq<Entry>, hosts: map<string, string>, n: nat,
      name: string)
    returns (i: int)
    requires n <= |entries|
    ensures i == -1 ==> (forall j :: 0 <= j < n && Valid(entries[j], hosts) ==> EntryName(entries[j]) != name)
    ensures i == -1 ==> (name in Loaded(rows, entries[..n], hosts) <==> name in rows)
    ensures i == -1 && name in rows ==> Loaded(rows, entries[..n], hosts)[name] == rows[name]
    ensures i != -1 ==> Decides(entries, hosts, i, n, name)
    ensures i != -1 ==>
              && name in Loaded(rows, entries[..n], hosts)
              && Loaded(rows, entries[..n], hosts)[name] == Validate(entries[i], hosts).value
  {
    hide Validate, EntryName;
    if n == 0 {
      i := -1;
    } else {
      assert entries[..n][..n - 1] == entries[..n - 1];
      i := LoadedByLast(rows, entries, hosts, n - 1, name);
      if Valid(entries[n - 1], hosts) && EntryName(entries[n - 1]) == name {
        i := n - 1;
      }
    }
  }

  /**
   What a dry run needs to be right about an entry: if an earlier valid entry has its name, the last of
   those must agree with it exactly when the row there was before the load does, and there must be one.
   */
  ghost predicate Foretold(rows: Rows, entries: seq<Entry>, hosts: map<string, string>, k: nat)
    requires k < |entries|
  {
    var name := EntryName(entries[k]);
    Valid(entries[k], hosts) ==>
      forall p :: Decides(entries, hosts, p, k, name) ==>
        && name in rows
        && (Validate(entries[p], hosts) == Validate(entries[k], hosts) <==>
            rows[name] == Validate(entries[k], hosts).value)
  }

  /** A dry run says of an entry what a load says of it exactly when the entry is foretold. */
  lemma {:induction false} DryRunForetellsIff(rows: Rows, entries: seq<Entry>, hosts: map<string, string>, k: nat)
    requires k < |entries|
    ensures OutcomeAt(rows, entries, hosts, true, k) == OutcomeAt(rows, entries, hosts, false, k) <==>
          Foretold(rows, entries, hosts, k)
  {
    var name := EntryName(entries[k]);
    var i := LoadedByLast(rows, entries, hosts, k, name);
    hide Validate, EntryName, Loaded;
    forall p | Decides(entries, hosts, p, k, name) ensures p == i {
    }
  }

  /** When every entry is foretold, so is the whole report. */
  lemma {:induction false} DryRunForetells(rows: Rows, entries: seq<Entry>, hosts: map<string, string>, n: nat)
    requires n <= |entries| && forall k :: 0 <= k < n ==> Foretold(rows, entries, hosts, k)
    ensures Report(rows, entries, hosts, true, n) == Report(rows, entries, hosts, false, n)
  {
    hide Foretold, OutcomeAt, EntryName;
    if n > 0 {
      DryRunForetells(rows, entries, hosts, n - 1);
      DryRunForetellsIff(rows, entries, hosts, n - 1);
    }
  }

  /** Distinct names are enough. */
  lemma {:induction false} DistinctIsForetold(rows: Rows, entries: seq<Entry>, hosts: map<string, string>, k: nat)
    requires k < |entries|
    requires forall j :: 0 <= j < k && Valid(entries[j], hosts) ==> EntryName(entries[j]) != EntryName(entries[k])
    ensures Foretold(rows, entries, hosts, k)
  {
    hide Validate, EntryName;
  }

  /** A dry run announces the creation of a new name again at every repetition; a load creates it once. */
  lemma {:induction false} DryRunRepeatsCreated(rows: Rows, entries: seq<Entry>, hosts: map<string, string>, j: nat,
      k: nat)
    requires j < k < |entries| && Valid(entries[j], hosts) && Valid(entries[k], hosts)
    requires EntryName(entries[j]) == EntryName(entries[k]) && EntryName(entries[k]) !in rows
    ensures OutcomeAt(rows, entries, hosts, true, j) == OutcomeAt(rows, entries, hosts, true, k) == Created
    ensures OutcomeAt(rows, entries, hosts, false, k) != Created
  {
    var i := LoadedByLast(rows, entries, hosts, k, EntryName(entries[k]));
    hide Validate, EntryName, Loaded;
  }

  /** The first load has settled every name on its last valid entry. */
  lemma {:induction false} SettledOn(rows: Rows, entries: seq<Entry>, hosts: map<string, string>, k: nat)
    returns (last: int)
    requires k < |entries| && Valid(entries[k], hosts)
    ensures k <= last && Decides(entries, hosts, last, |entries|, EntryName(entries[k]))
    ensures var once := Loaded(rows, entries, hosts);
            EntryName(entries[k]) in once && once[EntryName(entries[k])] == Validate(entries[last], hosts).value
  {
    last := LoadedByLast(rows, entries, hosts, |entries|, EntryName(entries[k]));
    assert entries[..|entries|] == entries;
  }

  /** Reloading reports an entry unchanged, updated or skipped; what decides is the entry of its name before it. */
  lemma {:induction false} SecondOutcome(rows: Rows, entries: seq<Entry>, hosts: map<string, string>, k: nat)
    requires k < |entries| && Valid(entries[k], hosts)
    requires Consistent(entries, hosts)
    ensures OutcomeAt(Loaded(rows, entries, hosts), entries, hosts, false, k) == Same
  {
    var once, name := Loaded(rows, entries, hosts), EntryName(entries[k]);
    var last := SettledOn(rows, entries, hosts, k);
    var before := LoadedByLast(once, entries, hosts, k, name);
    hide Validate, EntryName, Loaded;
    if before == -1 {
      assert last == k || Validate(entries[k], hosts) == Validate(entries[last], hosts);
    } else {
      assert Validate(entries[before], hosts) == Validate(entries[k], hosts);
    }
  }

  ghost predicate AllSame(rows: Rows, entries: seq<Entry>, hosts: map<string, string>) {
    forall k :: 0 <= k < |entries| && Valid(entries[k], hosts) ==> OutcomeAt(rows, entries, hosts, false, k) == Same
  }

  /**
   Reloading the same library against the same hosts reports every valid entry unchanged exactly when no
   two valid entries of one name disagree; distinct names are the usual case of that.
   */
  lemma {:induction false} ReloadIsQuietIffConsistent(rows: Rows, entries: seq<Entry>, hosts: map<string, string>)
    ensures AllSame(Loaded(rows, entries, hosts), entries, hosts) <==> Consistent(entries, hosts)
  {
    if Consistent(entries, hosts) {
      forall k | 0 <= k < |entries| && Valid(entries[k], hosts)
        ensures OutcomeAt(Loaded(rows, entries, hosts), entries, hosts, false, k) == Same
      {
        SecondOutcome(rows, entries, hosts, k);
      }
    } else {
      var i, j := Disagreeing(entries, hosts);
      FirstDisagreement(rows, entries, hosts, i, j);
    }
  }

  lemma Disagreeing(entries: seq<Entry>, hosts: map<string, string>) returns (i: nat, j: nat)
    requires !Consistent(entries, hosts)
    ensures i < j < |entries| && Valid(entries[i], hosts) && Valid(entries[j], hosts) &&
          EntryName(entries[i]) == EntryName(entries[j])
    ensures Validate(entries[i], hosts) != Validate(entries[j], hosts)
  {
    hide Validate, EntryName;
    i, j :| 0 <= i < j < |entries| && Valid(entries[i], hosts) && Valid(entries[j], hosts) &&
        EntryName(entries[i]) == EntryName(entries[j])
      && Validate(entries[i], hosts) != Validate(entries[j], hosts);
  }

  /** If every entry were reported unchanged, the table would never move, and two that disagree cannot both match it. */
  lemma {:induction false} FirstDisagreement(rows: Rows, entries: seq<Entry>, hosts: map<string, string>, i: nat,
      j: nat)
    requires i < j < |entries| && Valid(entries[i], hosts) && Valid(entries[j], hosts) &&
          EntryName(entries[i]) == EntryName(entries[j])
    requires Validate(entries[i], hosts) != Validate(entries[j], hosts)
    ensures !AllSame(Loaded(rows, entries, hosts), entries, hosts)
  {
    var once := Loaded(rows, entries, hosts);
    if AllSame(once, entries, hosts) {
      NeverMoves(once, entries, hosts, i);
      NeverMoves(once, entries, hosts, j);
    }
  }

  lemma {:induction false} NeverMoves(rows: Rows, entries: seq<Entry>, hosts: map<string, string>, n: nat)
    requires n <= |entries| && AllSame(rows, entries, hosts)
    ensures Loaded(rows, entries[..n], hosts) == rows
  {
    if n > 0 {
      NeverMoves(rows, entries, hosts, n - 1);
      assert entries[..n][..n - 1] == entries[..n - 1];
      hide Validate, EntryName;
      if Valid(entries[n - 1], hosts) {
        assert OutcomeAt(rows, entries, hosts, false, n - 1) == Same;
      }
    }
  }

  /** A reload leaves the table as the first load left it. */
  lemma {:induction false} ReloadChangesNothing(rows: Rows, entries: seq<Entry>, hosts: map<string, string>)
    ensures Loaded(Loaded(rows, entries, hosts), entries, hosts) == Loaded(rows, entries, hosts)
  {
    var once := Loaded(rows, entries, hosts);
    var twice := Loaded(once, entries, hosts);
    assert entries[..|entries|] == entries;
    forall name ensures (name in twice <==> name in once) && (name in once ==> twice[name] == once[name]) {
      var i := LoadedByLast(rows, entries, hosts, |entries|, name);
      var j := LoadedByLast(once, entries, hosts, |entries|, name);
    }
  }
}
