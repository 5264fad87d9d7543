/**
 Bottleneck findings: every pattern runs every time, so an analyzer finding that was not detected
 again has cleared. Analyzer findings are told apart by an evidence tag, since other generators may
 share their kinds.
 */
module Bottlenecks {
  import opened Wrappers
  import opened Fingerprint
  import opened Findings

  const TAG := "bottleneck_pattern"
  const KINDS := ["ceph-bottleneck", "chokepoint"]
  const PATTERNS := ["cluster-link-asymmetry", "memory-pressure", "storage-single-uplink"]

  datatype Hit = Hit(
    pattern: string, kind: string, severity: string, subjectType: string, subject: string,
    title: string, description: string, mitigations: seq<string>)
  {
    function Id(): Identity {
      Identity(kind, subjectType, subject, pattern)
    }

    function Fingerprint(): Key {
      KeyOf(Id())
    }

    function Reported(): Content {
      Content(severity, title, description, [Target(subjectType, subject)], [map["type" := TAG, "id" := pattern]],
          Some(mitigations))
    }

    function Event(now: int): Event {
      Raise(kind, Reported(), Reported(), now)
    }
  }

  datatype PersistResult = PersistResult(appeared: seq<string>, reopened: seq<string>, updated: seq<string>,
      resolved: seq<string>)

  predicate Detected(hits: seq<Hit>, key: Key) {
    exists i :: 0 <= i < |hits| && hits[i].Fingerprint() == key
  }

  predicate Clears(hits: seq<Hit>, key: Key, row: Finding) {
    row.kind in KINDS && HasTag(row.content.evidence, TAG) && !Detected(hits, key)
  }

  function HitEvents(hits: seq<Hit>, key: Key, now: int): seq<Event> {
    if hits == [] then []
    else
      HitEvents(hits[..|hits| - 1], key, now) +
      if hits[|hits| - 1].Fingerprint() == key then [hits[|hits| - 1].Event(now)] else []
  }

  function PassEvents(hits: seq<Hit>, key: Key, row: Option<Finding>, now: int): seq<Event> {
    HitEvents(hits, key, now) + if row.Some? && Clears(hits, key, row.value) then [Clear(now)] else []
  }

  function After(hits: seq<Hit>, key: Key, row: Option<Finding>, now: int): Option<Finding> {
    AffectAll(row, PassEvents(hits, key, row, now))
  }

  function Upserted(hits: seq<Hit>, key: Key, row: Option<Finding>, now: int): Option<Finding> {
    AffectAll(row, HitEvents(hits, key, now))
  }

  lemma {:induction false} OneMoreHit(row: Option<Finding>, hits: seq<Hit>, i: nat, key: Key, now: int)
    requires i < |hits|
    ensures Upserted(hits[..i + 1], key, row, now) ==
            var sofar := Upserted(hits[..i], key, row, now);
            if hits[i].Fingerprint() == key then Affect(sofar, hits[i].Event(now)) else sofar
  {
    hide Affect;
    assert hits[..i + 1][..i] == hits[..i];
    var before, all := HitEvents(hits[..i], key, now), HitEvents(hits[..i + 1], key, now);
    if hits[i].Fingerprint() == key {
      assert all[..|all| - 1] == before;
    } else {
      assert all == before;
    }
  }

  lemma {:induction false} UndetectedIsUntouched(row: Option<Finding>, hits: seq<Hit>, key: Key, now: int)
    requires !Detected(hits, key)
    ensures HitEvents(hits, key, now) == []
  {
    if hits != [] {
      var init := hits[..|hits| - 1];
      assert forall i :: 0 <= i < |init| ==> init[i] == hits[i];
      assert !Detected(init, key);
      UndetectedIsUntouched(row, init, key, now);
    }
  }

  lemma {:induction false} HitsThenClear(row: Option<Finding>, hits: seq<Hit>, key: Key, now: int)
    ensures var mid := Upserted(hits, key, row, now);
            After(hits, key, row, now) == if mid.Some? && Clears(hits, key, mid.value) then Affect(mid, Clear(now))
                else mid
  {
    if !Detected(hits, key) {
      UndetectedIsUntouched(row, hits, key, now);
      assert HitEvents(hits, key, now) + [Clear(now)] == [Clear(now)];
      assert HitEvents(hits, key, now) + [] == [];
      assert [Clear(now)][..0] == [];
    } else {
      assert HitEvents(hits, key, now) + [] == HitEvents(hits, key, now);
    }
  }

  /** The subjects reported under each heading while upserting; each hit is judged by the row it finds. */
  function Summary(was: Rows, hits: seq<Hit>, now: int): PersistResult {
    if hits == [] then PersistResult([], [], [], [])
    else
      var init, hit := hits[..|hits| - 1], hits[|hits| - 1];
      var sofar := Summary(was, init, now);
      var row := Upserted(init, hit.Fingerprint(), Get(was, hit.Fingerprint()), now);
      if row == None then sofar.(appeared := sofar.appeared + [hit.subject])
      else if row.value.status == Resolved then sofar.(reopened := sofar.reopened + [hit.subject])
      else sofar.(updated := sofar.updated + [hit.subject])
  }

  /** `titles` are those of the rows that `hits` clears, one each, in some order. */
  ghost predicate TitlesOfCleared(titles: seq<string>, rows: Rows, hits: seq<Hit>, keys: seq<Key>) {
    && |titles| == |keys|
    && (forall i :: 0 <= i < |keys| ==> keys[i] in rows && titles[i] == rows[keys[i]].content.title)
    && (forall i, j :: 0 <= i < j < |keys| ==> keys[i] != keys[j])
    && (forall k :: k in keys <==> k in rows && Unresolved(rows[k]) && Clears(hits, k, rows[k]))
  }

  // ---------------------------------------------------------------- what becomes of a row

  /** Which fields a hit's fingerprint is made of, in order. */
  lemma FingerprintSays(hit: Hit)
    ensures hit.Fingerprint() == Sha256(hit.kind + "|" + hit.subjectType + "|" + hit.subject + "|" + hit.pattern)
  {
  }

  ghost predicate FirstHit(hits: seq<Hit>, key: Key, f: int) {
    0 <= f < |hits| && hits[f].Fingerprint() == key && forall j :: 0 <= j < f ==> hits[j].Fingerprint() != key
  }

  ghost predicate LastHit(hits: seq<Hit>, key: Key, i: int) {
    0 <= i < |hits| && hits[i].Fingerprint() == key && forall j :: i < j < |hits| ==> hits[j].Fingerprint() != key
  }

  ghost predicate CarriesHit(row: Finding, hit: Hit) {
    Carries(row, hit.severity, hit.title, hit.description, [Target(hit.subjectType, hit.subject)],
      [map["type" := "bottleneck_pattern", "id" := hit.pattern]])
  }

  /** A detected finding's row was raised, by its first hit if it was not there, and says what its last hit says. */
  lemma {:induction false} DetectedOutcome(hits: seq<Hit>, key: Key, row: Option<Finding>, now: int)
    returns (f: int, i: int)
    requires Detected(hits, key)
    ensures FirstHit(hits, key, f) && LastHit(hits, key, i)
    ensures var after := After(hits, key, row, now);
            && after.Some? && CarriesHit(after.value, hits[i])
            && RaisedFrom(row, after.value, hits[f].kind, Some(hits[i].mitigations), now)
  {
    HitsThenClear(row, hits, key, now);
    f, i := HitsRaise(hits, key, row, now);
  }

  lemma {:induction false} HitsRaise(hits: seq<Hit>, key: Key, row: Option<Finding>, now: int) returns (f: int, i: int)
    requires Detected(hits, key)
    ensures FirstHit(hits, key, f) && LastHit(hits, key, i)
    ensures var after := Upserted(hits, key, row, now);
            && after.Some? && CarriesHit(after.value, hits[i])
            && RaisedFrom(row, after.value, hits[f].kind, Some(hits[i].mitigations), now)
  {
    hide KeyOf, Upserted;
    var n := |hits| - 1;
    var init, last := hits[..n], hits[n];
    assert hits[..n + 1] == hits;
    OneMoreHit(row, hits, n, key, now);
    var sofar := Upserted(init, key, row, now);
    AffectSays(sofar, last.kind, last.Reported(), last.Reported(), now);
    if Detected(init, key) {
      f, i := HitsRaise(init, key, row, now);
    } else {
      UndetectedKeepsRow(row, init, key, now);
      forall j | 0 <= j < n ensures hits[j].Fingerprint() != key {
        assert hits[j] == init[j];
      }
      f := n;
    }
    if last.Fingerprint() == key {
      i := n;
    }
  }

  /** An undetected row ends resolved when it is open or acknowledged and the analyzer's own; no other row moves. */
  lemma {:induction false} UndetectedOutcome(hits: seq<Hit>, key: Key, row: Option<Finding>, now: int)
    requires !Detected(hits, key)
    ensures if row.Some? && row.value.kind in {"ceph-bottleneck", "chokepoint"}
               && exists e :: e in row.value.content.evidence && "type" in e && e["type"] == "bottleneck_pattern"
            then ClearedFrom(row, After(hits, key, row, now), now)
            else After(hits, key, row, now) == row
  {
    hide KeyOf, Upserted, After, Detected;
    UndetectedKeepsRow(row, hits, key, now);
    HitsThenClear(row, hits, key, now);
    if row.Some? {
      AffectSays(row, "", row.value.content, row.value.content, now);
      var evidence := row.value.content.evidence;
      forall i | 0 <= i < |evidence| ensures evidence[i] in evidence {
      }
    }
  }

  // ---------------------------------------------------------------- what the lists contain

  /**
   What becomes of the `i`-th hit: its finding appears or is reopened by its first hit, and is updated
   by every other.
   */
  datatype Heading = Appeared | Reopened | Updated

  function HeadingAt(was: Rows, hits: seq<Hit>, i: nat): Heading
    requires i < |hits|
  {
    var key := hits[i].Fingerprint();
    if Detected(hits[..i], key) then Updated
    else if key !in was then Appeared
    else if was[key].status == Resolved then Reopened
    else Updated
  }

  /** Under which heading a hit comes, in the words of the table as it was. */
  lemma HeadingSays(was: Rows, hits: seq<Hit>, i: nat)
    requires i < |hits|
    ensures var key, h := hits[i].Fingerprint(), HeadingAt(was, hits, i);
            var isFirst := forall j :: 0 <= j < i ==> hits[j].Fingerprint() != key;
            && (h == Appeared <==> isFirst && key !in was)
            && (h == Reopened <==> isFirst && key in was && was[key].status == Resolved)
            && (h == Updated <==> isFirst ==> key in was && was[key].status != Resolved)
  {
    hide KeyOf;
    var key := hits[i].Fingerprint();
    if Detected(hits[..i], key) {
      var j :| 0 <= j < i && hits[..i][j].Fingerprint() == key;
      assert hits[j].Fingerprint() == key;
    } else {
      forall j | 0 <= j < i ensures hits[j].Fingerprint() != key {
        assert hits[..i][j] == hits[j];
      }
    }
  }

  /** Some hit on this subject came under this heading. */
  ghost predicate Under(was: Rows, hits: seq<Hit>, subject: string, h: Heading) {
    exists i :: 0 <= i < |hits| && hits[i].subject == subject && HeadingAt(was, hits, i) == h
  }

  function CountUnder(was: Rows, hits: seq<Hit>, h: Heading): nat {
    if hits == [] then 0
    else CountUnder(was, hits[..|hits| - 1], h) + if HeadingAt(was, hits, |hits| - 1) == h then 1 else 0
  }

  /** The list holds the subjects that came under the heading, once for each hit that did. */
  ghost predicate Holds(subjects: seq<string>, was: Rows, hits: seq<Hit>, h: Heading) {
    (forall s :: s in subjects <==> Under(was, hits, s, h)) && |subjects| == CountUnder(was, hits, h)
  }

  ghost predicate Tells(result: PersistResult, was: Rows, hits: seq<Hit>) {
    && Holds(result.appeared, was, hits, Appeared) && Holds(result.reopened, was, hits, Reopened)
    && Holds(result.updated, was, hits, Updated)
  }

  lemma {:induction false} UnderNext(was: Rows, hits: seq<Hit>, subject: string, h: Heading)
    requires hits != []
    ensures var init, last := hits[..|hits| - 1], hits[|hits| - 1];
            Under(was, hits, subject, h) <==>
            Under(was, init, subject, h) || (last.subject == subject && HeadingAt(was, hits, |init|) == h)
  {
    hide Detected, KeyOf;
    var init := hits[..|hits| - 1];
    forall i | 0 <= i < |init| ensures HeadingAt(was, init, i) == HeadingAt(was, hits, i) && init[i] == hits[i] {
      assert init[..i] == hits[..i];
    }
    if Under(was, init, subject, h) {
      var i :| 0 <= i < |init| && init[i].subject == subject && HeadingAt(was, init, i) == h;
      assert hits[i].subject == subject && HeadingAt(was, hits, i) == h;
    }
  }

  /** The row a hit finds is the one from before the pass, unless an earlier hit was on the same finding. */
  lemma {:induction false} FoundByHit(was: Rows, hits: seq<Hit>, key: Key, now: int)
    ensures var row := Upserted(hits, key, Get(was, key), now);
            if Detected(hits, key) then row.Some? && row.value.status != Resolved else row == Get(was, key)
  {
    hide KeyOf;
    if hits == [] {
      NoHits(Get(was, key), hits, key, now);
    } else {
      var init, last := hits[..|hits| - 1], hits[|hits| - 1];
      FoundByHit(was, init, key, now);
      OneMoreHit(Get(was, key), hits, |init|, key, now);
      assert hits[..|init| + 1] == hits;
      assert Detected(hits, key) <==> Detected(init, key) || last.Fingerprint() == key by {
        if Detected(init, key) {
          var i :| 0 <= i < |init| && init[i].Fingerprint() == key;
          assert hits[i].Fingerprint() == key;
        }
        if last.Fingerprint() == key { assert hits[|init|].Fingerprint() == key; }
      }
      assert last.Fingerprint() != key ==>
            Upserted(hits, key, Get(was, key), now) == Upserted(init, key, Get(was, key), now);
    }
  }

  lemma {:induction false} HoldsNext(subjects: seq<string>, was: Rows, hits: seq<Hit>, h: Heading)
    requires hits != [] && Holds(subjects, was, hits[..|hits| - 1], h)
    ensures var last := hits[|hits| - 1];
            Holds(if HeadingAt(was, hits, |hits| - 1) == h then subjects + [last.subject] else subjects, was, hits, h)
  {
    hide HeadingAt, Under;
    forall s {
      UnderNext(was, hits, s, h);
    }
  }

  lemma {:induction false} SummaryTells(was: Rows, hits: seq<Hit>, now: int)
    ensures Tells(Summary(was, hits, now), was, hits)
  {
    hide Upserted, Holds, Detected, KeyOf;
    if hits == [] {
      NothingUnder(was);
    } else {
      var init, last := hits[..|hits| - 1], hits[|hits| - 1];
      var sofar := Summary(was, init, now);
      SummaryTells(was, init, now);
      FoundByHit(was, init, last.Fingerprint(), now);
      HoldsNext(sofar.appeared, was, hits, Appeared);
      HoldsNext(sofar.reopened, was, hits, Reopened);
      HoldsNext(sofar.updated, was, hits, Updated);
    }
  }

  lemma NothingUnder(was: Rows)
    ensures forall h :: Holds([], was, [], h)
  {
  }

  /** The resolved titles are outside what the lists of subjects say. */
  lemma ResolvedIsAside(result: PersistResult, titles: seq<string>, was: Rows, hits: seq<Hit>)
    ensures Tells(result.(resolved := titles), was, hits) == Tells(result, was, hits)
  {
    hide Holds;
  }

  method PersistBottlenecks(table: FindingTable, hits: seq<Hit>, now: int) returns (result: PersistResult)
    modifies table
    ensures forall k :: Get(table.rows, k) == After(hits, k, Get(old(table.rows), k), now)
    ensures result.(resolved := []) == Summary(old(table.rows), hits, now) && Tells(result, old(table.rows), hits)
    ensures exists keys :: TitlesOfCleared(result.resolved, old(table.rows), hits, keys)
  {
    hide Affect, After, Upserted, Tells;
    ghost var was := table.rows;
    result := PersistResult([], [], [], []);
    forall k {
      NoHits(Get(was, k), hits, k, now);
    }
    for i := 0 to |hits|
      invariant forall k :: Get(table.rows, k) == Upserted(hits[..i], k, Get(was, k), now)
      invariant result == Summary(was, hits[..i], now) && result.resolved == []
    {
      var hit := hits[i];
      assert hits[..i + 1][..i] == hits[..i];
      assert Get(table.rows, hit.Fingerprint()) ==
            Upserted(hits[..i], hit.Fingerprint(), Get(was, hit.Fingerprint()), now);
      forall k {
        OneMoreHit(Get(was, k), hits, i, k, now);
      }
      var before := table.Upsert(hit.Fingerprint(), hit.kind, hit.Reported(), hit.Reported(), now);
      match before {
        case None => result := result.(appeared := result.appeared + [hit.subject]);
        case Some(Resolved) => result := result.(reopened := result.reopened + [hit.subject]);
        case Some(_) => result := result.(updated := result.updated + [hit.subject]);
      }
    }
    assert hits[..|hits|] == hits;
    ghost var mid := table.rows;
    var resolved, keys := ResolveUndetected(table, hits, now);
    SummaryTells(was, hits, now);
    ResolvedIsAside(result, resolved, was, hits);
    result := result.(resolved := resolved);
    forall k {
      HitsThenClear(Get(was, k), hits, k, now);
    }
    forall k ensures Detected(hits, k) || Get(mid, k) == Get(was, k) {
      if !Detected(hits, k) { UndetectedKeepsRow(Get(was, k), hits, k, now); }
    }
    ClearedBefore(resolved, was, mid, hits, keys);
    assert TitlesOfCleared(result.resolved, old(table.rows), hits, keys);
  }

  lemma ClearedBefore(titles: seq<string>, was: Rows, mid: Rows, hits: seq<Hit>, keys: seq<Key>)
    requires forall k :: Detected(hits, k) || Get(mid, k) == Get(was, k)
    requires TitlesOfCleared(titles, mid, hits, keys)
    ensures TitlesOfCleared(titles, was, hits, keys)
  {
    hide Detected;
    forall k ensures k in was && Unresolved(was[k]) && Clears(hits, k, was[k]) <==>
        k in mid && Unresolved(mid[k]) && Clears(hits, k, mid[k]) {
      assert Detected(hits, k) || Get(mid, k) == Get(was, k);
    }
    forall i | 0 <= i < |keys| ensures keys[i] in was && was[keys[i]] == mid[keys[i]] {
      assert keys[i] in keys;
      assert Get(mid, keys[i]) == Get(was, keys[i]);
    }
  }

  method ResolveUndetected(table: FindingTable, hits: seq<Hit>, now: int)
    returns (resolved: seq<string>, ghost keys: seq<Key>)
    modifies table
    ensures forall k :: Get(table.rows, k) ==
              var row := Get(old(table.rows), k);
              if row.Some? && Clears(hits, k, row.value) then Affect(row, Clear(now)) else row
    ensures TitlesOfCleared(resolved, old(table.rows), hits, keys)
  {
    hide Detected, HasTag;
    ghost var was := table.rows;
    var openRows := set k | k in table.rows && table.rows[k].kind in KINDS && Unresolved(table.rows[k]);
    var rest := openRows;
    resolved, keys := [], [];
    while rest != {}
      invariant rest <= openRows
      invariant forall k :: Get(table.rows, k) == if k in keys then Affect(Get(was, k), Clear(now)) else Get(was, k)
      invariant forall k :: k in keys <==> k in openRows && k !in rest && Clears(hits, k, was[k])
      invariant |resolved| == |keys| && forall i :: 0 <= i < |keys| ==>
            keys[i] in was && resolved[i] == was[keys[i]].content.title
      invariant forall i, j :: 0 <= i < j < |keys| ==> keys[i] != keys[j]
    {
      var key :| key in rest;
      rest := rest - {key};
      assert Get(table.rows, key) == Get(was, key);
      var row := table.rows[key];
      if HasTag(row.content.evidence, TAG) && !Detected(hits, key) {
        var done := table.Resolve(key, now);
        resolved, keys := resolved + [row.content.title], keys + [key];
      }
    }
  }

  lemma UndetectedKeepsRow(row: Option<Finding>, hits: seq<Hit>, key: Key, now: int)
    requires !Detected(hits, key)
    ensures Upserted(hits, key, row, now) == row
  {
    UndetectedIsUntouched(row, hits, key, now);
  }

  lemma NoHits(row: Option<Finding>, hits: seq<Hit>, key: Key, now: int)
    ensures Upserted(hits[..0], key, row, now) == row
  {
  }
}
