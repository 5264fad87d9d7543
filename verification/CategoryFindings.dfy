/**
 The reconcile shared by the categorised checks: one finding per listed issue, and resolution only
 within the categories (and, when given, the targets) that were observed this time.
 */
module CategoryFindings {
  import opened Wrappers
  import opened Fingerprint
  import opened Findings

  const CATEGORY_REF := "category"
  const MAX_TITLE := 512

  datatype Issue = Issue(
    kind: string, category: string, targetType: string, targetId: string,
    severity: string, title: string, description: string,
    evidence: EvidenceRef, alsoAffects: seq<Target>)
  {
    function Id(): Identity {
      Identity(kind, targetType, targetId, category)
    }

    function Fingerprint(): Key {
      KeyOf(Id())
    }

    function Reported(): Content {
      Content(
        severity,
        if |title| > MAX_TITLE then title[..MAX_TITLE] else title,
        description,
        [Target(targetType, targetId)] + alsoAffects,
        [map["type" := CATEGORY_REF, "category" := category], map["type" := "evidence"] + evidence],
        None)
    }
  }

  /** The arguments of one reconcile. */
  datatype Pass = Pass(
    kind: string, issues: seq<Issue>, observed: set<string>, observedTargets: Option<set<Target>>, now: int)

  datatype CategoryResult = CategoryResult(upserts: Upserts, resolved: seq<Key>)

  /** The category recorded by the first evidence entry of that type. */
  function CategoryOf(evidence: seq<EvidenceRef>): Option<string> {
    if evidence == [] then None
    else if "type" in evidence[0] && evidence[0]["type"] == CATEGORY_REF then
      Some(if "category" in evidence[0] then evidence[0]["category"] else "None")
    else CategoryOf(evidence[1..])
  }

  predicate Lists(issues: seq<Issue>, key: Key) {
    exists i :: 0 <= i < |issues| && issues[i].Fingerprint() == key
  }

  /** The resolve condition of one pass for a row it did not list. */
  predicate Covers(pass: Pass, category: Option<string>, affected: seq<Target>) {
    && category.Some? && category.value in pass.observed
    && (pass.observedTargets == None || exists i :: 0 <= i < |affected| && affected[i] in pass.observedTargets.value)
  }

  predicate Clears(pass: Pass, key: Key, row: Finding) {
    && !Lists(pass.issues, key)
    && row.kind == pass.kind
    && Covers(pass, CategoryOf(row.content.evidence), row.content.affected)
  }

  // ---------------------------------------------------------------- what a pass means for one key

  function Raises(kind: string, issues: seq<Issue>, key: Key, now: int): seq<Event> {
    if issues == [] then []
    else
      var issue := issues[|issues| - 1];
      Raises(kind, issues[..|issues| - 1], key, now) +
      if issue.Fingerprint() == key then [Raise(kind, issue.Reported(), issue.Reported(), now)] else []
  }

  function PassEvents(pass: Pass, key: Key, row: Option<Finding>): seq<Event> {
    Raises(pass.kind, pass.issues, key, pass.now) +
    if row.Some? && Clears(pass, key, row.value) then [Clear(pass.now)] else []
  }

  /** The row of `key` after the pass, from the row before it alone. */
  function After(pass: Pass, key: Key, row: Option<Finding>): Option<Finding> {
    AffectAll(row, PassEvents(pass, key, row))
  }

  // ---------------------------------------------------------------- the pass

  function Upserted(row: Option<Finding>, kind: string, issues: seq<Issue>, key: Key, now: int): Option<Finding> {
    AffectAll(row, Raises(kind, issues, key, now))
  }

  datatype Upserts = Upserts(newlyOpened: seq<Key>, reopened: seq<Key>, updated: seq<Key>) {
    function Note(key: Key, before: Option<Status>): Upserts {
      match before
      case None => this.(newlyOpened := newlyOpened + [key])
      case Some(Resolved) => this.(reopened := reopened + [key])
      case Some(_) => this.(updated := updated + [key])
    }
  }

  /** The lists name what these issues opened and reopened, each key once, and put every other upsert in the third. */
  ghost predicate Tells(upserts: Upserts, was: Rows, issues: seq<Issue>) {
    && |upserts.newlyOpened| + |upserts.reopened| + |upserts.updated| == |issues|
    && (forall k :: k in upserts.updated ==> Lists(issues, k))
    && (forall k :: k in upserts.newlyOpened <==> Lists(issues, k) && k !in was)
    && (forall k :: k in upserts.reopened <==> Lists(issues, k) && k in was && was[k].status == Resolved)
    && NoDuplicates(upserts.newlyOpened) && NoDuplicates(upserts.reopened)
  }

  lemma {:induction false} TellsOneMore(upserts: Upserts, was: Rows, issues: seq<Issue>, i: nat, before: Option<Status>)
    requires i < |issues| && Tells(upserts, was, issues[..i])
    requires var key := issues[i].Fingerprint();
             if Lists(issues[..i], key) then before.Some? && before != Some(Resolved)
             else before == if key in was then Some(was[key].status) else None
    ensures Tells(upserts.Note(issues[i].Fingerprint(), before), was, issues[..i + 1])
  {
    ListsOneMore(issues, i);
    hide Lists;
  }

  method UpsertIssues(table: FindingTable, kind: string, issues: seq<Issue>, now: int) returns (upserts: Upserts)
    modifies table
    ensures forall k :: Get(table.rows, k) == Upserted(Get(old(table.rows), k), kind, issues, k, now)
    ensures Tells(upserts, old(table.rows), issues)
  {
    hide Affect, Upserted, Lists, Tells;
    ghost var was := table.rows;
    upserts := Upserts([], [], []);
    forall k {
      NoIssues(Get(was, k), kind, issues, k, now);
    }
    TellsNothing(was, issues);
    for i := 0 to |issues|
      invariant forall k :: Get(table.rows, k) == Upserted(Get(was, k), kind, issues[..i], k, now)
      invariant Tells(upserts, was, issues[..i])
    {
      var issue := issues[i];
      var key := issue.Fingerprint();
      ghost var mid := table.rows;
      forall k {
        OneMoreIssue(Get(was, k), kind, issues, i, k, now);
      }
      UpsertedStaysOpen(Get(was, key), kind, issues[..i], key, now);
      assert Get(mid, key) == Upserted(Get(was, key), kind, issues[..i], key, now);
      var before := table.Upsert(key, kind, issue.Reported(), issue.Reported(), now);
      TellsOneMore(upserts, was, issues, i, before);
      upserts := upserts.Note(key, before);
    }
    assert issues[..|issues|] == issues;
  }

  lemma TellsNothing(was: Rows, issues: seq<Issue>)
    ensures Tells(Upserts([], [], []), was, issues[..0])
  {
  }

  lemma NoIssues(row: Option<Finding>, kind: string, issues: seq<Issue>, key: Key, now: int)
    ensures Upserted(row, kind, issues[..0], key, now) == row && !Lists(issues[..0], key)
  {
  }

  lemma {:induction false} OneMoreIssue(row: Option<Finding>, kind: string, issues: seq<Issue>, i: nat, key: Key,
      now: int)
    requires i < |issues|
    ensures Upserted(row, kind, issues[..i + 1], key, now) ==
            var sofar := Upserted(row, kind, issues[..i], key, now);
            if issues[i].Fingerprint() == key
            then Affect(sofar, Raise(kind, issues[i].Reported(), issues[i].Reported(), now)) else sofar
  {
    hide Affect;
    assert issues[..i + 1][..i] == issues[..i];
    var before, all := Raises(kind, issues[..i], key, now), Raises(kind, issues[..i + 1], key, now);
    if issues[i].Fingerprint() == key {
      assert all[..|all| - 1] == before;
    } else {
      assert all == before;
    }
  }

  ghost predicate NoDuplicates(keys: seq<Key>) {
    forall i, j :: 0 <= i < j < |keys| ==> keys[i] != keys[j]
  }

  lemma ListsOneMore(issues: seq<Issue>, i: nat)
    requires i < |issues|
    ensures forall k :: Lists(issues[..i + 1], k) <==> Lists(issues[..i], k) || k == issues[i].Fingerprint()
  {
    forall k | Lists(issues[..i], k) ensures Lists(issues[..i + 1], k) {
      var m :| 0 <= m < i && issues[..i][m].Fingerprint() == k;
      assert issues[..i + 1][m].Fingerprint() == k;
    }
    assert issues[..i + 1][i].Fingerprint() == issues[i].Fingerprint();
  }

  lemma {:induction false} UpsertedStaysOpen(row: Option<Finding>, kind: string, issues: seq<Issue>, key: Key, now: int)
    ensures var after := Upserted(row, kind, issues, key, now);
            if Lists(issues, key) then after.Some? && after.value.status != Resolved else after == row
    ensures Raises(kind, issues, key, now) == [] <==> !Lists(issues, key)
  {
    RaisedIfListed(kind, issues, key, now);
    hide KeyOf, Lists, Affect, Upserted, Raises;
    if issues == [] {
      NoIssues(row, kind, issues, key, now);
    } else {
      var init := issues[..|issues| - 1];
      UpsertedStaysOpen(row, kind, init, key, now);
      ListsOneMore(issues, |init|);
      assert issues[..|init| + 1] == issues;
      OneMoreIssue(row, kind, issues, |init|, key, now);
      RaisedIsUnresolved(Upserted(row, kind, init, key, now), kind, issues[|init|].Reported(), now);
    }
  }

  lemma {:induction false} RaisedIfListed(kind: string, issues: seq<Issue>, key: Key, now: int)
    ensures Raises(kind, issues, key, now) == [] <==> !Lists(issues, key)
  {
    hide KeyOf, Lists;
    if issues == [] {
      NoIssues(None, kind, issues, key, now);
    } else {
      RaisedIfListed(kind, issues[..|issues| - 1], key, now);
      ListsOneMore(issues, |issues| - 1);
      assert issues[..|issues| - 1 + 1] == issues;
    }
  }

  lemma RaisedIsUnresolved(row: Option<Finding>, kind: string, content: Content, now: int)
    ensures var after := Affect(row, Raise(kind, content, content, now)); after.Some? && after.value.status != Resolved
  {
  }

  /**
   One reconcile. Every row of the table ends as `After` says from the row it was, and the result lists
   name exactly the keys that were opened, reopened and resolved, each once, and refreshed, each time.
   */
  method ReconcileCategoryFindings(table: FindingTable, pass: Pass) returns (result: CategoryResult)
    modifies table
    ensures forall k :: Get(table.rows, k) == After(pass, k, Get(old(table.rows), k))
    ensures Tells(result.upserts, old(table.rows), pass.issues)
    ensures forall k :: k in result.resolved <==>
              && k in old(table.rows) &&
                  (old(table.rows)[k].status == Open || old(table.rows)[k].status == Acknowledged)
              && !Lists(pass.issues, k) && Observes(pass, old(table.rows)[k])
    ensures NoDuplicates(result.resolved)
  {
    hide Affect, Raises, Upserted, After, Tells, Covers, CategoryOf, Observes;
    var upserts := UpsertIssues(table, pass.kind, pass.issues, pass.now);
    ghost var mid := table.rows;
    forall k ensures Unlisted(pass, k, Get(old(table.rows), k), Get(mid, k)) {
      UpsertedStaysOpen(Get(old(table.rows), k), pass.kind, pass.issues, k, pass.now);
    }
    var openRows := set k | k in table.rows && table.rows[k].kind == pass.kind && Unresolved(table.rows[k]);
    var rest := openRows;
    var resolved: seq<Key> := [];
    while rest != {}
      invariant rest <= openRows
      invariant forall k :: Get(table.rows, k) == if k in resolved then Affect(Get(mid, k), Clear(pass.now))
            else Get(mid, k)
      invariant forall k :: k in resolved <==> k in openRows && k !in rest && Clears(pass, k, mid[k])
      invariant NoDuplicates(resolved)
    {
      var key :| key in rest;
      rest := rest - {key};
      assert Get(table.rows, key) == Get(mid, key);
      var row := table.rows[key];
      if !Lists(pass.issues, key) && Covers(pass, CategoryOf(row.content.evidence), row.content.affected) {
        var done := table.Resolve(key, pass.now);
        resolved := resolved + [key];
      }
    }
    forall k ensures Get(table.rows, k) == After(pass, k, Get(old(table.rows), k)) {
      PassIsRaisesThenClear(pass, k, Get(old(table.rows), k), Get(mid, k));
    }
    forall k, row {
      ClearsWhatItObserves(pass, k, row);
    }
    result := CategoryResult(upserts, resolved);
  }

  ghost predicate Unlisted(pass: Pass, key: Key, before: Option<Finding>, after: Option<Finding>) {
    !Lists(pass.issues, key) ==> after == before
  }

  /** A listed key gets its raises and an unlisted one at most a clear, so the two loops do not interfere. */
  lemma {:induction false} PassIsRaisesThenClear(pass: Pass, key: Key, row: Option<Finding>, mid: Option<Finding>)
    requires mid == Upserted(row, pass.kind, pass.issues, key, pass.now)
    ensures After(pass, key, row) ==
            if mid.Some? && Unresolved(mid.value) && Clears(pass, key, mid.value) then Affect(mid, Clear(pass.now))
                else mid
  {
    hide Raises;
    UpsertedStaysOpen(row, pass.kind, pass.issues, key, pass.now);
    var raises := Raises(pass.kind, pass.issues, key, pass.now);
    if !Lists(pass.issues, key) {
      assert PassEvents(pass, key, row) == if row.Some? && Clears(pass, key, row.value) then [Clear(pass.now)] else [];
      assert [Clear(pass.now)][..0] == [];
    } else {
      assert PassEvents(pass, key, row) == raises;
    }
  }

  // ---------------------------------------------------------------- what one pass amounts to

  ghost predicate LastListed(issues: seq<Issue>, key: Key, i: nat) {
    && i < |issues| && issues[i].Fingerprint() == key
    && forall j :: i < j < |issues| ==> issues[j].Fingerprint() != key
  }

  /** Listing a finding twice in one pass is the same as listing it once, with what was said last. */
  lemma {:induction false} LastIssueWins(row: Option<Finding>, kind: string, issues: seq<Issue>, key: Key, now: int)
    returns (i: nat)
    requires Lists(issues, key)
    ensures LastListed(issues, key, i)
    ensures Upserted(row, kind, issues, key, now) ==
          Affect(row, Raise(kind, issues[i].Reported(), issues[i].Reported(), now))
  {
    hide Upserted, Raises;
    var init := issues[..|issues| - 1];
    ListsOneMore(issues, |init|);
    assert issues[..|init| + 1] == issues;
    OneMoreIssue(row, kind, issues, |init|, key, now);
    UpsertedStaysOpen(row, kind, init, key, now);
    hide Lists;
    if issues[|init|].Fingerprint() == key {
      i := |init|;
      if Lists(init, key) {
        var _ := LastIssueWins(row, kind, init, key, now);
      }
    } else {
      i := LastIssueWins(row, kind, init, key, now);
    }
  }

  /** A whole pass, two loops and all, is at most one event for each row. */
  lemma {:induction false} PassEffect(pass: Pass, key: Key, row: Option<Finding>)
    ensures if Lists(pass.issues, key) then
              exists i: nat :: LastListed(pass.issues, key, i) &&
                After(pass, key, row) ==
                    Affect(row, Raise(pass.kind, pass.issues[i].Reported(), pass.issues[i].Reported(), pass.now))
            else if row.Some? && Unresolved(row.value) && Clears(pass, key, row.value) then
              After(pass, key, row) == Some(row.value.(status := Resolved, resolvedAt := Some(pass.now)))
            else
              After(pass, key, row) == row
  {
    UpsertedStaysOpen(row, pass.kind, pass.issues, key, pass.now);
    PassIsRaisesThenClear(pass, key, row, Upserted(row, pass.kind, pass.issues, key, pass.now));
    if Lists(pass.issues, key) {
      var i := LastIssueWins(row, pass.kind, pass.issues, key, pass.now);
    }
  }

  /** The first entry of the type that names a category names this one. */
  ghost predicate RecordsCategory(evidence: seq<EvidenceRef>, category: string) {
    exists i :: NamesCategory(evidence, i) && category == if "category" in evidence[i] then evidence[i]["category"]
        else "None"
  }

  ghost predicate NamesCategory(evidence: seq<EvidenceRef>, i: int) {
    && 0 <= i < |evidence| && "type" in evidence[i] && evidence[i]["type"] == "category"
    && forall j :: 0 <= j < i && "type" in evidence[j] ==> evidence[j]["type"] != "category"
  }

  lemma {:induction false} CategoryIsRecorded(evidence: seq<EvidenceRef>, category: string)
    ensures CategoryOf(evidence) == Some(category) <==> RecordsCategory(evidence, category)
  {
    if evidence != [] && !("type" in evidence[0] && evidence[0]["type"] == CATEGORY_REF) {
      CategoryIsRecorded(evidence[1..], category);
      forall i | NamesCategory(evidence[1..], i) ensures NamesCategory(evidence, i + 1) &&
          evidence[i + 1] == evidence[1..][i] {
      }
      forall i | NamesCategory(evidence, i) ensures NamesCategory(evidence[1..], i - 1) &&
          evidence[i] == evidence[1..][i - 1] {
      }
    } else if evidence != [] {
      assert NamesCategory(evidence, 0);
      forall i | NamesCategory(evidence, i) ensures i == 0 {
      }
    }
  }

  /** The pass observed the row's category and, when it names targets, one that the row records. */
  ghost predicate Observes(pass: Pass, row: Finding) {
    && row.kind == pass.kind
    && (exists c :: c in pass.observed && RecordsCategory(row.content.evidence, c))
    && (pass.observedTargets == None || exists t :: t in pass.observedTargets.value && t in row.content.affected)
  }

  /** What a listed finding's row says after the pass: the last issue's own words, the title cut to 512. */
  ghost predicate CarriesIssue(row: Finding, issue: Issue) {
    Carries(row, issue.severity, if |issue.title| > 512 then issue.title[..512] else issue.title, issue.description,
      [Target(issue.targetType, issue.targetId)] + issue.alsoAffects,
      [map["type" := "category", "category" := issue.category], map["type" := "evidence"] + issue.evidence])
  }

  /**
   A whole pass, two loops and all, is a plain update of each row. A listed finding ends as a row that
   was raised and says what was last said about it. An unlisted one ends resolved when it was open or
   acknowledged and the pass observed it. Every other row is what it was.
   */
  lemma {:induction false} PassOutcome(pass: Pass, key: Key, row: Option<Finding>)
    ensures var after := After(pass, key, row);
            if Lists(pass.issues, key) then
              exists i: nat ::
                && LastListed(pass.issues, key, i) && after.Some?
                && RaisedFrom(row, after.value, pass.kind, None, pass.now) && CarriesIssue(after.value, pass.issues[i])
            else if row.Some? && Observes(pass, row.value) then
              ClearedFrom(row, after, pass.now)
            else
              after == row
  {
    PassEffect(pass, key, row);
    hide After;
    if Lists(pass.issues, key) {
      var i: nat :| LastListed(pass.issues, key, i) &&
        After(pass, key, row) ==
            Affect(row, Raise(pass.kind, pass.issues[i].Reported(), pass.issues[i].Reported(), pass.now));
      AffectSays(row, pass.kind, pass.issues[i].Reported(), pass.issues[i].Reported(), pass.now);
    } else if row.Some? {
      ClearsWhatItObserves(pass, key, row.value);
      AffectSays(row, pass.kind, row.value.content, row.value.content, pass.now);
    }
  }

  lemma ClearsWhatItObserves(pass: Pass, key: Key, row: Finding)
    ensures Clears(pass, key, row) <==> !Lists(pass.issues, key) && Observes(pass, row)
  {
    hide Lists, RecordsCategory, CategoryOf;
    var evidence := row.content.evidence;
    forall c {
      CategoryIsRecorded(evidence, c);
    }
    if CategoryOf(evidence).Some? {
      assert RecordsCategory(evidence, CategoryOf(evidence).value);
    }
    forall i | 0 <= i < |row.content.affected| ensures row.content.affected[i] in row.content.affected {
    }
  }

  /** Which fields an issue's fingerprint is made of, in order. */
  lemma FingerprintSays(issue: Issue)
    ensures issue.Fingerprint() ==
            Sha256(issue.kind + "|" + issue.targetType + "|" + issue.targetId + "|" + issue.category)
  {
  }

  /** Running the same pass again opens, reopens and resolves nothing; it only moves `lastSeen` of what it lists. */
  lemma {:induction false} RepeatIsQuiet(pass: Pass, later: int, key: Key, row: Option<Finding>)
    ensures var again, once := pass.(now := later), After(pass, key, row);
            && (Lists(pass.issues, key) ==> once.Some? && once.value.status != Resolved)
            && !(once.Some? && Unresolved(once.value) && Clears(again, key, once.value))
            && After(again, key, once) == if Lists(pass.issues, key) then Some(once.value.(lastSeen := later)) else once
  {
    var again, once := pass.(now := later), After(pass, key, row);
    PassEffect(pass, key, row);
    PassEffect(again, key, once);
    hide After;
    if Lists(pass.issues, key) {
      var i: nat :| LastListed(pass.issues, key, i) &&
          once == Affect(row, Raise(pass.kind, pass.issues[i].Reported(), pass.issues[i].Reported(), pass.now));
      var j: nat :| LastListed(pass.issues, key, j) &&
          After(again, key, once) ==
          Affect(once, Raise(pass.kind, pass.issues[j].Reported(), pass.issues[j].Reported(), later));
      assert i == j;
    }
  }
}
