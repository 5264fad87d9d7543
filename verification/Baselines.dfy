/**
 Departures from a subject's own baseline, and the reconcile they go through.

 The percentiles of a history are a parameter; all that is needed of them is their order.
 */
module Baselines {
  import opened Wrappers
  import opened Fingerprint
  import opened Findings
  import C = CategoryFindings
  import L = Lifecycle

  const KIND := "anomaly"
  const METRICS := ["cpu", "network", "disk-io", "memory"]
  const BELOW_METRICS := ["cpu", "network"]
  const MIN_HISTORY_HOURS := 336
  const DEPARTURE_HOURS := 3
  const SUSTAINED_HOURS := 6
  const MAX_SAMPLE_AGE := 6 * 3600

  /** A sample's value per metric, where it has one. */
  datatype Sample = Sample(ts: int, values: map<string, real>)

  datatype Band = Band(p10: real, p50: real, p95: real)

  datatype Direction = Above | Below

  function Floor(metric: string): (r: real)
    ensures r > 0.0
  {
    if metric == "cpu" then 0.05
    else if metric == "network" then 102400.0
    else if metric == "disk-io" then 1048576.0
    else 536870912.0
  }

  /** The band of a history, if it has one; percentiles of the same data are in order. */
  type BandOf = (seq<real>, string) -> Option<Band>

  ghost predicate Ordered(bandOf: BandOf) {
    forall history, metric :: bandOf(history, metric).Some? ==>
      bandOf(history, metric).value.p10 <= bandOf(history, metric).value.p50 <= bandOf(history, metric).value.p95
  }

  function Max(a: real, b: real): real {
    if a >= b then a else b
  }

  predicate Past(v: real, direction: Direction, line: real) {
    match direction
    case Above => v >= line
    case Below => v <= line
  }

  predicate AllPast(series: seq<real>, direction: Direction, line: real) {
    forall i :: 0 <= i < |series| ==> Past(series[i], direction, line)
  }

  function AboveLine(band: Band, metric: string): real {
    Max(band.p95 * 1.5, band.p95 + Floor(metric))
  }

  function BelowLine(band: Band): real {
    band.p10 * 0.5
  }

  /** The direction and the line, when every recent value is past it. */
  function Departure(recent: seq<real>, band: Band, metric: string): Option<(Direction, real)> {
    if AllPast(recent, Above, AboveLine(band, metric)) then Some((Above, AboveLine(band, metric)))
    else if metric in BELOW_METRICS && band.p10 >= Floor(metric) &&
        AllPast(recent, Below, BelowLine(band)) then Some((Below, BelowLine(band)))
    else None
  }

  /** The length of the maximal trailing run at or past the line. */
  ghost predicate TrailingRun(series: seq<real>, direction: Direction, line: real, n: nat) {
    && n <= |series|
    && (forall i :: |series| - n <= i < |series| ==>
        if direction == Above then series[i] >= line else series[i] <= line)
    && (n < |series| ==>
          var before := series[|series| - n - 1]; if direction == Above then before < line else before > line)
  }

  method Sustained(series: seq<real>, direction: Direction, line: real) returns (count: nat)
    ensures TrailingRun(series, direction, line, count)
  {
    count := 0;
    while count < |series|
      invariant count <= |series|
      invariant forall i :: |series| - count <= i < |series| ==> Past(series[i], direction, line)
    {
      if !Past(series[|series| - 1 - count], direction, line) {
        break;
      }
      count := count + 1;
    }
  }

  datatype Anomaly = Anomaly(metric: string, direction: Direction, line: real, hours: nat, severity: string)

  function CategoryName(metric: string, direction: Direction): string {
    metric + (match direction case Above => "-above-baseline" case Below => "-below-baseline")
  }

  /** The categories a judged metric puts under observation. */
  function CategoriesOf(metric: string): set<string> {
    {CategoryName(metric, Above)} + if metric in BELOW_METRICS then {CategoryName(metric, Below)} else {}
  }

  /** The metric's values, oldest first, leaving out samples that have none. */
  function Series(samples: seq<Sample>, metric: string): seq<real> {
    if samples == [] then []
    else
      Series(samples[..|samples| - 1], metric) +
      if metric in samples[|samples| - 1].values then [samples[|samples| - 1].values[metric]] else []
  }

  function HistoryOf(series: seq<real>): seq<real>
    requires |series| >= DEPARTURE_HOURS
  {
    series[..|series| - DEPARTURE_HOURS]
  }

  function RecentOf(series: seq<real>): seq<real>
    requires |series| >= DEPARTURE_HOURS
  {
    series[|series| - DEPARTURE_HOURS..]
  }

  /** Enough and fresh enough to say anything about the subject at all. */
  predicate Assessable(samples: seq<Sample>, now: int) {
    |samples| >= MIN_HISTORY_HOURS + DEPARTURE_HOURS && now - samples[|samples| - 1].ts <= MAX_SAMPLE_AGE
  }

  /** Fourteen days of hours and the last three on top, and a band for all but those. */
  ghost predicate Judged(samples: seq<Sample>, metric: string, bandOf: BandOf) {
    var series := Series(samples, metric);
    |series| >= 339 && bandOf(series[..|series| - 3], metric).Some?
  }

  ghost function BandFor(samples: seq<Sample>, metric: string, bandOf: BandOf): Band
    requires Judged(samples, metric, bandOf)
  {
    var series := Series(samples, metric);
    bandOf(series[..|series| - 3], metric).value
  }

  /** Each of the last three values is half as much again as the band's top, and the floor more than it. */
  ghost predicate RisesAbove(series: seq<real>, band: Band, metric: string) {
    forall i :: 0 <= i < |series| && i >= |series| - 3 ==>
      series[i] >= band.p95 * 1.5 && series[i] >= band.p95 + Floor(metric)
  }

  /** For CPU and network, when the band's bottom is no lower than the floor: the last three are half of it or less. */
  ghost predicate FallsBelow(series: seq<real>, band: Band, metric: string) {
    && (metric == "cpu" || metric == "network") && band.p10 >= Floor(metric)
    && forall i :: 0 <= i < |series| && i >= |series| - 3 ==> series[i] <= band.p10 * 0.5
  }

  /** What is reported of one metric is exactly a departure from its band, sized by its maximal run. */
  ghost predicate Reports(a: Anomaly, samples: seq<Sample>, bandOf: BandOf) {
    && Judged(samples, a.metric, bandOf)
    && (var series, band := Series(samples, a.metric), BandFor(samples, a.metric, bandOf);
        && (match a.direction
            case Above =>
              && RisesAbove(series, band, a.metric)
              && (a.line == band.p95 * 1.5 || a.line == band.p95 + Floor(a.metric))
              && a.line >= band.p95 * 1.5 && a.line >= band.p95 + Floor(a.metric)
            case Below =>
              !RisesAbove(series, band, a.metric) && FallsBelow(series, band, a.metric) && a.line == band.p10 * 0.5)
        && TrailingRun(series, a.direction, a.line, a.hours))
    && a.severity == (if a.hours >= 6 then "medium" else "low")
  }

  ghost predicate Departs(samples: seq<Sample>, metric: string, bandOf: BandOf) {
    && Judged(samples, metric, bandOf)
    && (RisesAbove(Series(samples, metric), BandFor(samples, metric, bandOf), metric)
        || FallsBelow(Series(samples, metric), BandFor(samples, metric, bandOf), metric))
  }

  /** When the departure of the last three values is above, when below, and the line of each. */
  lemma {:induction false} DepartureSays(series: seq<real>, band: Band, metric: string)
    requires |series| >= 3
    ensures var d := Departure(RecentOf(series), band, metric);
            && (d.Some? <==> RisesAbove(series, band, metric) || FallsBelow(series, band, metric))
            && (d.Some? && RisesAbove(series, band, metric) ==> d.value == (Above, AboveLine(band, metric)))
            && (d.Some? && !RisesAbove(series, band, metric) ==> d.value == (Below, band.p10 * 0.5))
    ensures var line := AboveLine(band, metric);
            && (line == band.p95 * 1.5 || line == band.p95 + Floor(metric))
            && line >= band.p95 * 1.5 && line >= band.p95 + Floor(metric)
  {
    var recent, n := RecentOf(series), |series|;
    assert recent[0] == series[n - 3] && recent[1] == series[n - 2] && recent[2] == series[n - 1];
    PastIff(recent, Above, AboveLine(band, metric));
    PastIff(recent, Below, BelowLine(band));
    RecentIff(series, band, metric);
  }

  lemma PastIff(recent: seq<real>, direction: Direction, line: real)
    requires |recent| == 3
    ensures AllPast(recent, direction, line) <==>
            Past(recent[0], direction, line) && Past(recent[1], direction, line) && Past(recent[2], direction, line)
  {
  }

  lemma RecentIff(series: seq<real>, band: Band, metric: string)
    requires |series| >= 3
    ensures var n, line := |series|, AboveLine(band, metric);
            && (RisesAbove(series, band, metric) <==>
                series[n - 3] >= line && series[n - 2] >= line && series[n - 1] >= line)
            && (FallsBelow(series, band, metric) <==>
                  && metric in BELOW_METRICS && band.p10 >= Floor(metric)
                  && series[n - 3] <= band.p10 * 0.5 && series[n - 2] <= band.p10 * 0.5 &&
                      series[n - 1] <= band.p10 * 0.5)
  {
  }

  /** How much a value has to exceed the band by, at least, per metric. */
  lemma FloorSays()
    ensures METRICS == ["cpu", "network", "disk-io", "memory"]
    ensures Floor("cpu") == 0.05 && Floor("network") == 100.0 * 1024.0
    ensures Floor("disk-io") == 1024.0 * 1024.0 && Floor("memory") == 512.0 * 1024.0 * 1024.0
  {
  }

  /** When a subject is spoken of at all: enough samples, the newest at most six hours old. */
  lemma AssessableIff(samples: seq<Sample>, now: int)
    ensures Assessable(samples, now) <==> |samples| >= 339 && now - samples[|samples| - 1].ts <= 6 * 3600
  {
  }

  /** The categories a judged metric puts under observation, by name. */
  lemma CategoriesSay(metric: string, c: string)
    ensures c in CategoriesOf(metric) <==>
            c == metric + "-above-baseline" ||
                ((metric == "cpu" || metric == "network") && c == metric + "-below-baseline")
  {
  }

  /** A metric's series is its values in order, sample by sample. */
  lemma {:induction false} SeriesAppends(a: seq<Sample>, b: seq<Sample>, metric: string)
    ensures Series(a + b, metric) == Series(a, metric) + Series(b, metric)
  {
    if b == [] {
      assert a + b == a;
    } else {
      SeriesAppends(a, b[..|b| - 1], metric);
      assert (a + b)[..|a + b| - 1] == a + b[..|b| - 1];
    }
  }

  lemma SeriesOfOne(s: Sample, metric: string)
    ensures Series([s], metric) == if metric in s.values then [s.values[metric]] else []
  {
    assert [s][..0] == [];
  }

  ghost predicate Reported(anomalies: seq<Anomaly>, metric: string) {
    exists i :: 0 <= i < |anomalies| && anomalies[i].metric == metric
  }

  lemma ReportedStays(anomalies: seq<Anomaly>, a: Anomaly)
    ensures forall m :: Reported(anomalies, m) || m == a.metric ==> Reported(anomalies + [a], m)
  {
    forall m | Reported(anomalies, m) ensures Reported(anomalies + [a], m) {
      var i :| 0 <= i < |anomalies| && anomalies[i].metric == m;
      assert (anomalies + [a])[i].metric == m;
    }
    assert (anomalies + [a])[|anomalies|] == a;
  }

  method CollectSeries(samples: seq<Sample>, metric: string) returns (series: seq<real>)
    ensures series == Series(samples, metric)
  {
    series := [];
    for i := 0 to |samples|
      invariant series == Series(samples[..i], metric)
    {
      assert samples[..i + 1][..i] == samples[..i];
      if metric in samples[i].values {
        series := series + [samples[i].values[metric]];
      }
    }
    assert samples[..|samples|] == samples;
  }

  /** The anomalies of one subject and the categories judged; nothing of either on too little or stale history. */
  method SubjectIssues(samples: seq<Sample>, now: int, bandOf: BandOf)
    returns (anomalies: seq<Anomaly>, judged: set<string>)
    ensures !Assessable(samples, now) ==> anomalies == [] && judged == {}
    ensures forall i :: 0 <= i < |anomalies| ==>
          anomalies[i].metric in METRICS && Reports(anomalies[i], samples, bandOf)
    ensures Assessable(samples, now) ==> forall m :: m in METRICS && Departs(samples, m, bandOf) ==>
          Reported(anomalies, m)
    ensures Assessable(samples, now) ==> forall c :: c in judged <==>
          exists m :: m in METRICS && Judged(samples, m, bandOf) && c in CategoriesOf(m)
  {
    hide Reports, Departs, Series, TrailingRun, Judged, CategoriesOf, Reported;
    anomalies, judged := [], {};
    if !Assessable(samples, now) {
      return;
    }
    for k := 0 to |METRICS|
      invariant forall i :: 0 <= i < |anomalies| ==>
            anomalies[i].metric in METRICS && Reports(anomalies[i], samples, bandOf)
      invariant forall j :: 0 <= j < k && Departs(samples, METRICS[j], bandOf) ==> Reported(anomalies, METRICS[j])
      invariant forall c :: c in judged <==>
            exists j :: 0 <= j < k && Judged(samples, METRICS[j], bandOf) && c in CategoriesOf(METRICS[j])
    {
      var metric := METRICS[k];
      var found, isJudged := MetricIssue(samples, metric, bandOf);
      if isJudged {
        judged := judged + CategoriesOf(metric);
      }
      if found.Some? {
        ReportedStays(anomalies, found.value);
        anomalies := anomalies + [found.value];
      }
    }
  }

  method MetricIssue(samples: seq<Sample>, metric: string, bandOf: BandOf)
    returns (found: Option<Anomaly>, judged: bool)
    ensures judged <==> Judged(samples, metric, bandOf)
    ensures found.Some? <==> Departs(samples, metric, bandOf)
    ensures found.Some? ==> found.value.metric == metric && Reports(found.value, samples, bandOf)
  {
    var series := CollectSeries(samples, metric);
    if |series| < MIN_HISTORY_HOURS + DEPARTURE_HOURS {
      return None, false;
    }
    var band := bandOf(HistoryOf(series), metric);
    if band == None {
      return None, false;
    }
    var hit := Departure(RecentOf(series), band.value, metric);
    DepartureSays(series, band.value, metric);
    if hit == None {
      return None, true;
    }
    var (direction, line) := hit.value;
    var hours := Sustained(series, direction, line);
    return Some(Anomaly(metric, direction, line, hours, if hours >= SUSTAINED_HOURS then "medium" else "low")), true;
  }

  // ---------------------------------------------------------------- what a report means

  /** The recent values cannot be past both lines: the lower one lies strictly below the upper. */
  lemma {:induction false} NeverBothWays(series: seq<real>, band: Band, metric: string)
    requires band.p10 <= band.p50 <= band.p95 && series != []
    ensures !(RisesAbove(series, band, metric) && FallsBelow(series, band, metric))
  {
    var v := series[|series| - 1];
    assert RisesAbove(series, band, metric) ==> v >= band.p95 + Floor(metric);
    assert FallsBelow(series, band, metric) ==> v <= band.p10 * 0.5 && band.p10 >= Floor(metric);
  }

  /**
   An anomaly has lasted at least as long as it takes to be one, its category is among those observed,
   and the same metric has not departed the other way.
   */
  lemma {:induction false} AnomalyIsSound(a: Anomaly, samples: seq<Sample>, bandOf: BandOf)
    requires Ordered(bandOf) && Reports(a, samples, bandOf)
    ensures a.hours >= DEPARTURE_HOURS
    ensures CategoryName(a.metric, a.direction) in CategoriesOf(a.metric)
    ensures var series, band := Series(samples, a.metric), BandFor(samples, a.metric, bandOf);
            !(RisesAbove(series, band, a.metric) && FallsBelow(series, band, a.metric))
  {
    var series, band := Series(samples, a.metric), BandFor(samples, a.metric, bandOf);
    assert series[|series| - 3] == series[|series| - 3..][0];
    if RisesAbove(series, band, a.metric) && FallsBelow(series, band, a.metric) {
      NeverBothWays(series, band, a.metric);
    }
    var n := |series|;
    assert a.direction == Above ==> series[n - 1] >= a.line && series[n - 2] >= a.line && series[n - 3] >= a.line;
    assert a.direction == Below ==> series[n - 1] <= a.line && series[n - 2] <= a.line && series[n - 3] <= a.line;
  }

  // ---------------------------------------------------------------- through the reconcile

  /** One subject: the target its findings are about, and what else they are said to affect. */
  datatype Subject = Subject(target: Target, extra: seq<Target>, samples: seq<Sample>)

  const CLUSTER := "cluster"
  const SUBJECT_TYPES := ["host", "workload", "guest"]

  /** The hourly samples under one subject of the usage table. */
  datatype Hourly = Hourly(subjectType: string, key: string, samples: seq<Sample>)

  /** What precedes the last slash, or nothing. */
  function BeforeLastSlash(key: string): string {
    if key == "" then ""
    else if key[|key| - 1] == '/' then key[..|key| - 1]
    else BeforeLastSlash(key[..|key| - 1])
  }

  /** Whom the findings are about: a known host by its id, and a guest together with its cluster when that is known. */
  function SubjectOf(h: Hourly, hosts: map<string, string>, clusters: set<string>): Subject {
    if h.subjectType == "host" then
      Subject(Target("host", if h.key in hosts then hosts[h.key] else h.key), [], h.samples)
    else if h.subjectType == "workload" then
      Subject(Target("workload", h.key), [], h.samples)
    else
      var cluster := BeforeLastSlash(h.key);
      Subject(Target("guest", h.key), if cluster in clusters then [Target(CLUSTER, cluster)] else [], h.samples)
  }

  /**
   Who is spoken of: a host by its id when it is known, a workload, or a guest with its cluster when
   that is known.
   */
  lemma SubjectSays(h: Hourly, hosts: map<string, string>, clusters: set<string>)
    ensures var s := SubjectOf(h, hosts, clusters);
            && s.samples == h.samples
            && (h.subjectType == "host" && h.key in hosts ==> s.target == Target("host", hosts[h.key]) && s.extra == [])
            && (h.subjectType == "host" && h.key !in hosts ==> s.target == Target("host", h.key) && s.extra == [])
            && (h.subjectType == "workload" ==> s.target == Target("workload", h.key) && s.extra == [])
            && (h.subjectType == "guest" ==>
                  && s.target == Target("guest", h.key)
                  && s.extra == if BeforeLastSlash(h.key) in clusters then [Target("cluster", BeforeLastSlash(h.key))]
                      else [])
  {
  }

  lemma {:induction false} LastSlashDivides(before: string, after: string)
    requires '/' !in after
    ensures BeforeLastSlash(before + "/" + after) == before && BeforeLastSlash(after) == ""
  {
    var key := before + "/" + after;
    if after == "" {
      assert key[..|key| - 1] == before;
    } else {
      LastSlashDivides(before, after[..|after| - 1]);
      assert key[..|key| - 1] == before + "/" + after[..|after| - 1];
    }
  }

  function SubjectsOf(hourly: seq<Hourly>, hosts: map<string, string>, clusters: set<string>): (r: seq<Subject>)
    ensures |r| == |hourly| && forall i :: 0 <= i < |r| ==>
          r[i] == SubjectOf(hourly[i], hosts, clusters) && Shaped(r[i])
  {
    if hourly == [] then []
    else SubjectsOf(hourly[..|hourly| - 1], hosts, clusters) + [SubjectOf(hourly[|hourly| - 1], hosts, clusters)]
  }

  /** A subject is never a cluster, and nothing but clusters is affected besides. */
  predicate Shaped(s: Subject) {
    s.target.targetType in SUBJECT_TYPES && OnlyClusters(s.extra)
  }

  predicate OnlyClusters(targets: seq<Target>) {
    forall i :: 0 <= i < |targets| ==> targets[i].targetType == CLUSTER
  }

  function ToIssue(subject: Subject, a: Anomaly): C.Issue {
    C.Issue(KIND, CategoryName(a.metric, a.direction), subject.target.targetType, subject.target.targetId,
            a.severity, a.metric, "", map[], subject.extra)
  }

  datatype Evaluation = Evaluation(issues: seq<C.Issue>, observed: set<string>, judged: set<Target>)

  /** The subject has enough fresh history for at least one metric. */
  ghost predicate Speaks(subject: Subject, metric: string, now: int, bandOf: BandOf) {
    metric in METRICS && Assessable(subject.samples, now) && Judged(subject.samples, metric, bandOf)
  }

  /**
   Nothing comes from nowhere: issues are about judged subjects in observed categories, and each of
   those was judged.
   */
  ghost predicate Grounded(e: Evaluation, subjects: seq<Subject>, now: int, bandOf: BandOf) {
    && (forall i :: 0 <= i < |e.issues| ==> IssueGrounded(e.issues[i], e, subjects))
    && (forall t :: t in e.judged ==> TargetGrounded(t, subjects, now, bandOf))
    && (forall c :: c in e.observed ==> CategoryGrounded(c, subjects, now, bandOf))
  }

  ghost predicate IssueGrounded(issue: C.Issue, e: Evaluation, subjects: seq<Subject>) {
    && issue.kind == KIND && issue.category in e.observed
    && Target(issue.targetType, issue.targetId) in e.judged
    && exists k :: IsAbout(issue, subjects, k)
  }

  ghost predicate TargetGrounded(t: Target, subjects: seq<Subject>, now: int, bandOf: BandOf) {
    exists i, m :: 0 <= i < |subjects| && subjects[i].target == t && Speaks(subjects[i], m, now, bandOf)
  }

  ghost predicate CategoryGrounded(c: string, subjects: seq<Subject>, now: int, bandOf: BandOf) {
    exists i, m :: 0 <= i < |subjects| && c in CategoriesOf(m) && Speaks(subjects[i], m, now, bandOf)
  }

  predicate IsAbout(issue: C.Issue, subjects: seq<Subject>, k: int) {
    && 0 <= k < |subjects|
    && subjects[k].target == Target(issue.targetType, issue.targetId) && subjects[k].extra == issue.alsoAffects
  }

  /** The finding is an anomaly of the subject, under the category its metric and direction name. */
  ghost predicate IsIssueOf(issue: C.Issue, subject: Subject, a: Anomaly) {
    && issue.kind == "anomaly" && Target(issue.targetType, issue.targetId) == subject.target
    && issue.category == a.metric + (if a.direction == Above then "-above-baseline" else "-below-baseline")
    && issue.severity == a.severity && issue.alsoAffects == subject.extra
  }

  ghost predicate HasIssue(issues: seq<C.Issue>, subject: Subject, metric: string, bandOf: BandOf) {
    exists i, a: Anomaly :: 0 <= i < |issues| && a.metric == metric && IsIssueOf(issues[i], subject, a)
        && Reports(a, subject.samples, bandOf)
  }

  /** Nothing is left out: what could be judged was, and every departure has its issue. */
  ghost predicate Told(e: Evaluation, subject: Subject, now: int, bandOf: BandOf) {
    forall m :: Speaks(subject, m, now, bandOf) ==>
      && subject.target in e.judged && CategoriesOf(m) <= e.observed
      && (Departs(subject.samples, m, bandOf) ==> HasIssue(e.issues, subject, m, bandOf))
  }

  method Evaluate(subjects: seq<Subject>, now: int, bandOf: BandOf) returns (e: Evaluation)
    requires Ordered(bandOf)
    ensures Grounded(e, subjects, now, bandOf)
    ensures forall i :: 0 <= i < |subjects| ==> Told(e, subjects[i], now, bandOf)
  {
    hide Grounded, Told;
    e := Evaluation([], {}, {});
    NothingYet(subjects, now, bandOf);
    for k := 0 to |subjects|
      invariant Grounded(e, subjects, now, bandOf)
      invariant forall i :: 0 <= i < k ==> Told(e, subjects[i], now, bandOf)
    {
      ghost var before := e;
      e := AddSubject(e, subjects, k, now, bandOf);
      forall i | 0 <= i < k ensures Told(e, subjects[i], now, bandOf) {
        ToldStays(before, e, subjects[i], now, bandOf);
      }
    }
  }

  lemma NothingYet(subjects: seq<Subject>, now: int, bandOf: BandOf)
    ensures Grounded(Evaluation([], {}, {}), subjects, now, bandOf)
  {
  }

  lemma ToldStays(e: Evaluation, next: Evaluation, subject: Subject, now: int, bandOf: BandOf)
    requires Told(e, subject, now, bandOf)
    requires e.issues <= next.issues && e.observed <= next.observed && e.judged <= next.judged
    ensures Told(next, subject, now, bandOf)
  {
    hide Speaks, Departs, Reports, CategoriesOf, ToIssue;
    forall m | HasIssue(e.issues, subject, m, bandOf) ensures HasIssue(next.issues, subject, m, bandOf) {
      var i, a: Anomaly :| 0 <= i < |e.issues| && a.metric == m && IsIssueOf(e.issues[i], subject, a)
        && Reports(a, subject.samples, bandOf);
      assert next.issues[i] == e.issues[i];
    }
  }

  /** One subject's contribution. */
  method AddSubject(e: Evaluation, subjects: seq<Subject>, k: nat, now: int, bandOf: BandOf) returns (r: Evaluation)
    requires Ordered(bandOf) && k < |subjects| && Grounded(e, subjects, now, bandOf)
    ensures Grounded(r, subjects, now, bandOf)
    ensures Told(r, subjects[k], now, bandOf)
    ensures e.issues <= r.issues && e.observed <= r.observed && e.judged <= r.judged
  {
    hide Grounded, Told, Reports, Departs, Judged, CategoriesOf, Assessable, Reported;
    var subject := subjects[k];
    var anomalies, categories := SubjectIssues(subject.samples, now, bandOf);
    r := if categories != {} then AddJudged(e, subject, categories) else e;
    JudgedIsGrounded(e, subjects, k, now, bandOf, categories);
    forall j | 0 <= j < |anomalies| ensures CategoryName(anomalies[j].metric, anomalies[j].direction) in categories {
      ReportIsObserved(anomalies[j], subject.samples, bandOf, categories);
    }
    ghost var judgedOnly := r;
    for j := 0 to |anomalies|
      invariant Grounded(r, subjects, now, bandOf)
      invariant r.judged == judgedOnly.judged && r.observed == judgedOnly.observed
      invariant r.issues == judgedOnly.issues + IssuesOf(subject, anomalies[..j])
    {
      IssueIsGrounded(r, subjects, k, now, bandOf, ToIssue(subject, anomalies[j]));
      r := r.(issues := r.issues + [ToIssue(subject, anomalies[j])]);
      assert anomalies[..j + 1][..j] == anomalies[..j];
    }
    assert anomalies[..|anomalies|] == anomalies;
    SubjectIsTold(r, judgedOnly.issues, subject, anomalies, categories, now, bandOf);
  }

  function IssuesOf(subject: Subject, anomalies: seq<Anomaly>): seq<C.Issue> {
    if anomalies == [] then []
        else IssuesOf(subject, anomalies[..|anomalies| - 1]) + [ToIssue(subject, anomalies[|anomalies| - 1])]
  }

  lemma {:induction false} IssueAt(subject: Subject, anomalies: seq<Anomaly>, i: nat)
    requires i < |anomalies|
    ensures |IssuesOf(subject, anomalies)| == |anomalies| &&
          IssuesOf(subject, anomalies)[i] == ToIssue(subject, anomalies[i])
    decreases |anomalies|
  {
    if |anomalies| > 1 {
      IssueAt(subject, anomalies[..|anomalies| - 1], if i < |anomalies| - 1 then i else 0);
    }
  }

  lemma JudgedIsGrounded(e: Evaluation, subjects: seq<Subject>, k: nat, now: int, bandOf: BandOf,
      categories: set<string>)
    requires k < |subjects| && Grounded(e, subjects, now, bandOf)
    requires forall c :: c in categories ==> exists m :: Speaks(subjects[k], m, now, bandOf) && c in CategoriesOf(m)
    ensures categories != {} ==> Grounded(AddJudged(e, subjects[k], categories), subjects, now, bandOf)
  {
    hide Speaks, CategoriesOf, TargetGrounded, CategoryGrounded, IsAbout;
    if categories != {} {
      var next := AddJudged(e, subjects[k], categories);
      forall c | c in categories
        ensures CategoryGrounded(c, subjects, now, bandOf) && TargetGrounded(subjects[k].target, subjects, now, bandOf)
      {
        CategoryFrom(c, subjects, k, now, bandOf);
      }
      forall i | 0 <= i < |next.issues| ensures IssueGrounded(next.issues[i], next, subjects) {
        assert IssueGrounded(e.issues[i], e, subjects);
      }
      assert exists c :: c in categories;
    }
  }

  lemma CategoryFrom(c: string, subjects: seq<Subject>, k: nat, now: int, bandOf: BandOf)
    requires k < |subjects| && exists m :: Speaks(subjects[k], m, now, bandOf) && c in CategoriesOf(m)
    ensures CategoryGrounded(c, subjects, now, bandOf) && TargetGrounded(subjects[k].target, subjects, now, bandOf)
  {
    hide Speaks, CategoriesOf;
  }

  lemma IssueIsGrounded(e: Evaluation, subjects: seq<Subject>, k: nat, now: int, bandOf: BandOf, issue: C.Issue)
    requires Grounded(e, subjects, now, bandOf) && IsAbout(issue, subjects, k)
    requires issue.kind == KIND && Target(issue.targetType, issue.targetId) in e.judged && issue.category in e.observed
    ensures Grounded(e.(issues := e.issues + [issue]), subjects, now, bandOf)
  {
    hide TargetGrounded, CategoryGrounded, IsAbout;
    var next := e.(issues := e.issues + [issue]);
    forall i | 0 <= i < |next.issues| ensures IssueGrounded(next.issues[i], next, subjects) {
      assert i == |e.issues| || (next.issues[i] == e.issues[i] && IssueGrounded(e.issues[i], e, subjects));
    }
  }

  lemma SubjectIsTold(e: Evaluation, base: seq<C.Issue>, subject: Subject, anomalies: seq<Anomaly>,
      categories: set<string>, now: int, bandOf: BandOf)
    requires e.issues == base + IssuesOf(subject, anomalies)
    requires categories != {} ==> subject.target in e.judged && categories <= e.observed
    requires forall i :: 0 <= i < |anomalies| ==> Reports(anomalies[i], subject.samples, bandOf)
    requires forall m :: Speaks(subject, m, now, bandOf) ==> CategoriesOf(m) <= categories
    requires forall m :: Speaks(subject, m, now, bandOf) && Departs(subject.samples, m, bandOf) ==>
          Reported(anomalies, m)
    ensures Told(e, subject, now, bandOf)
  {
    forall m | Speaks(subject, m, now, bandOf)
      ensures subject.target in e.judged && CategoriesOf(m) <= e.observed
      ensures Departs(subject.samples, m, bandOf) ==> HasIssue(e.issues, subject, m, bandOf)
    {
      assert CategoryName(m, Above) in CategoriesOf(m);
      if Departs(subject.samples, m, bandOf) {
        HasIssueFrom(e, base, subject, anomalies, m, bandOf);
      }
    }
  }

  lemma HasIssueFrom(e: Evaluation, base: seq<C.Issue>, subject: Subject, anomalies: seq<Anomaly>, metric: string,
      bandOf: BandOf)
    requires e.issues == base + IssuesOf(subject, anomalies)
    requires forall i :: 0 <= i < |anomalies| ==> Reports(anomalies[i], subject.samples, bandOf)
    requires Reported(anomalies, metric)
    ensures HasIssue(e.issues, subject, metric, bandOf)
  {
    hide Reports;
    var i :| 0 <= i < |anomalies| && anomalies[i].metric == metric;
    IssueAt(subject, anomalies, i);
    assert e.issues[|base| + i] == ToIssue(subject, anomalies[i]);
    assert IsIssueOf(e.issues[|base| + i], subject, anomalies[i]);
  }

  function AddJudged(e: Evaluation, subject: Subject, categories: set<string>): Evaluation {
    e.(judged := e.judged + {subject.target}, observed := e.observed + categories)
  }

  lemma ReportIsObserved(a: Anomaly, samples: seq<Sample>, bandOf: BandOf, categories: set<string>)
    requires Ordered(bandOf) && a.metric in METRICS && Reports(a, samples, bandOf)
    requires forall c :: c in categories <==>
          exists m :: m in METRICS && Judged(samples, m, bandOf) && c in CategoriesOf(m)
    ensures CategoryName(a.metric, a.direction) in categories
  {
    AnomalyIsSound(a, samples, bandOf);
  }

  method ReconcileAnomalyFindings(table: FindingTable, hourly: seq<Hourly>, hosts: map<string, string>,
      clusters: set<string>, now: int, bandOf: BandOf)
    returns (result: C.CategoryResult, e: Evaluation)
    requires Ordered(bandOf)
    modifies table
    ensures var subjects := SubjectsOf(hourly, hosts, clusters);
            Grounded(e, subjects, now, bandOf) && forall i :: 0 <= i < |subjects| ==> Told(e, subjects[i], now, bandOf)
    ensures Sound(PassOf(e, now))
    ensures PassOf(e, now) == C.Pass("anomaly", e.issues, e.observed, Some(e.judged), now)
    ensures forall k :: Get(table.rows, k) == C.After(PassOf(e, now), k, Get(old(table.rows), k))
  {
    hide Grounded, Told, Sound, Shaped, C.After;
    var subjects := SubjectsOf(hourly, hosts, clusters);
    e := Evaluate(subjects, now, bandOf);
    GroundedIsSound(e, subjects, now, bandOf);
    result := C.ReconcileCategoryFindings(table, PassOf(e, now));
  }

  function PassOf(e: Evaluation, now: int): C.Pass {
    C.Pass(KIND, e.issues, e.observed, Some(e.judged), now)
  }

  // ---------------------------------------------------------------- over any run

  /** What every anomaly pass is like: about judged subjects, which are no clusters, and besides them only clusters. */
  ghost predicate Sound(pass: C.Pass) {
    && pass.kind == KIND && pass.observedTargets.Some?
    && (forall t :: t in pass.observedTargets.value ==> t.targetType in SUBJECT_TYPES)
    && (forall i :: 0 <= i < |pass.issues| ==> SoundIssue(pass.issues[i], pass.observedTargets.value))
  }

  predicate SoundIssue(issue: C.Issue, judged: set<Target>) {
    && L.Plain(issue.Id())
    && Target(issue.targetType, issue.targetId) in judged
    && OnlyClusters(issue.alsoAffects)
  }

  lemma {:induction false} GroundedIsSound(e: Evaluation, subjects: seq<Subject>, now: int, bandOf: BandOf)
    requires Grounded(e, subjects, now, bandOf) && forall i :: 0 <= i < |subjects| ==> Shaped(subjects[i])
    ensures Sound(PassOf(e, now))
  {
    hide Speaks, CategoriesOf;
    forall i | 0 <= i < |e.issues| ensures SoundIssue(e.issues[i], e.judged) {
      assert IssueGrounded(e.issues[i], e, subjects) && CategoryGrounded(e.issues[i].category, subjects, now, bandOf);
      var k :| IsAbout(e.issues[i], subjects, k);
      var j, m :| 0 <= j < |subjects| && e.issues[i].category in CategoriesOf(m) && Speaks(subjects[j], m, now, bandOf);
      CategoriesArePlain(m, e.issues[i].category, subjects[j], now, bandOf);
    }
  }

  lemma CategoriesArePlain(metric: string, category: string, subject: Subject, now: int, bandOf: BandOf)
    requires Speaks(subject, metric, now, bandOf) && category in CategoriesOf(metric)
    ensures '|' !in category
  {
    hide Assessable, Judged;
  }

  /** A finding of this kind records its own target and clusters. */
  predicate RecordsShape(id: Identity, row: Option<Finding>) {
    row.Some? ==>
      forall i :: 0 <= i < |row.value.content.affected| ==>
        row.value.content.affected[i] == Target(id.targetType, id.targetId) ||
            row.value.content.affected[i].targetType == CLUSTER
  }

  predicate IsAnomaly(id: Identity) {
    id.kind == KIND && id.targetType in SUBJECT_TYPES && L.Plain(id)
  }

  /** Every anomaly pass of the run is one the reconcile makes; the other writers keep to their word. */
  ghost predicate SoundRun(steps: seq<L.Step>, id: Identity) {
    && L.AllWellBehaved(steps) && L.AllApart(steps, id)
    && forall i :: 0 <= i < |steps| && steps[i].CategoryPass? && steps[i].pass.kind == KIND ==> Sound(steps[i].pass)
  }

  /** One anomaly pass: what it lists under a plain fingerprint is that finding, with its own target and clusters. */
  lemma {:induction false} PassKeepsShape(pass: C.Pass, id: Identity, row: Option<Finding>)
    requires Sound(pass) && IsAnomaly(id) && RecordsShape(id, row)
    ensures RecordsShape(id, C.After(pass, KeyOf(id), row))
    ensures C.Lists(pass.issues, KeyOf(id)) ==> Target(id.targetType, id.targetId) in pass.observedTargets.value
  {
    C.PassEffect(pass, KeyOf(id), row);
    hide C.After, KeyOf;
    if C.Lists(pass.issues, KeyOf(id)) {
      var i: nat :| C.LastListed(pass.issues, KeyOf(id), i) && C.After(pass, KeyOf(id), row) ==
        Affect(row, Raise(pass.kind, pass.issues[i].Reported(), pass.issues[i].Reported(), pass.now));
      SameAnomaly(pass.issues[i], id, pass.observedTargets.value);
    }
  }

  lemma SameAnomaly(issue: C.Issue, id: Identity, judged: set<Target>)
    requires SoundIssue(issue, judged) && IsAnomaly(id) && issue.Fingerprint() == KeyOf(id)
    ensures issue.Id() == id
  {
    PayloadInjective(issue.Id(), id);
  }

  lemma {:induction false} RunKeepsShape(steps: seq<L.Step>, id: Identity)
    requires SoundRun(steps, id) && IsAnomaly(id)
    ensures RecordsShape(id, L.RunAt(steps, KeyOf(id), None)) && L.Owned(id, L.RunAt(steps, KeyOf(id), None))
  {
    hide KeyOf, L.StepAt, L.WellBehaved, L.Apart, L.Owned, RecordsShape;
    var key := KeyOf(id);
    NothingRecorded(id);
    L.RunKeepsOwned(steps, id, None);
    if steps != [] {
      var init, last := steps[..|steps| - 1], steps[|steps| - 1];
      RunKeepsShape(init, id);
      StepKeepsShape(last, id, L.RunAt(init, key, None));
    }
  }

  lemma NothingRecorded(id: Identity)
    ensures RecordsShape(id, None) && L.Owned(id, None)
  {
  }

  lemma {:induction false} StepKeepsShape(step: L.Step, id: Identity, row: Option<Finding>)
    requires L.WellBehaved(step) && L.Apart(step, id) && L.Owned(id, row) && IsAnomaly(id) && RecordsShape(id, row)
    requires step.CategoryPass? && step.pass.kind == KIND ==> Sound(step.pass)
    ensures RecordsShape(id, L.StepAt(step, KeyOf(id), row))
  {
    hide KeyOf, L.WellBehaved, L.Owned, C.After, Sound;
    if step.CategoryPass? && step.pass.kind == KIND {
      PassKeepsShape(step.pass, id, row);
    } else if !step.Operator? {
      L.OthersLeaveItAlone(step, id, row);
    }
  }

  /**
   A subject that was not judged this time keeps its findings. Whatever run of reconciles, other writers
   and operators there was, a finding comes through a reconcile that did not judge its subject as it was.
   */
  lemma {:induction false} UnjudgedKeepsFindings(steps: seq<L.Step>, pass: C.Pass, id: Identity)
    requires SoundRun(steps, id) && IsAnomaly(id) && Sound(pass)
    requires Target(id.targetType, id.targetId) !in pass.observedTargets.value
    ensures var row := L.RunAt(steps, KeyOf(id), None); C.After(pass, KeyOf(id), row) == row
  {
    hide KeyOf, L.RunAt, C.After;
    var row := L.RunAt(steps, KeyOf(id), None);
    RunKeepsShape(steps, id);
    PassKeepsShape(pass, id, row);
    C.PassEffect(pass, KeyOf(id), row);
  }
}
