/**
 The findings table and the lifecycle every writer of it shares.

 All four writers do one of two things to a row: an upsert that opens, reopens or refreshes it
 (`Raise`), and a resolve that only takes an open or acknowledged row (`Clear`). `Affect` is that
 step on one row; a pass is a sequence of such events for every key, and each writer's method is
 proved to do exactly that, key by key.
 */
module Findings {
  import opened Wrappers
  import opened Fingerprint

  datatype Status = Open | Acknowledged | Resolved | Suppressed

  datatype Target = Target(targetType: string, targetId: string)

  type EvidenceRef = map<string, string>

  /** What a detector says about a finding; `proposed` is None for writers that leave the actions alone. */
  datatype Content = Content(
    severity: string, title: string, description: string,
    affected: seq<Target>, evidence: seq<EvidenceRef>, proposed: Option<seq<string>>)

  datatype Finding = Finding(
    kind: string, content: Content, status: Status,
    firstSeen: int, lastSeen: int, resolvedAt: Option<int>,
    acknowledgedAt: Option<int>, acknowledgedBy: Option<string>,
    suppressedUntil: Option<int>, notes: Option<string>)

  type Rows = map<Key, Finding>

  function Get(rows: Rows, key: Key): Option<Finding> {
    if key in rows then Some(rows[key]) else None
  }

  predicate Unresolved(row: Finding) {
    row.status == Open || row.status == Acknowledged
  }

  /** Some evidence entry has this type. */
  predicate HasTag(evidence: seq<EvidenceRef>, tag: string) {
    exists i :: 0 <= i < |evidence| && "type" in evidence[i] && evidence[i]["type"] == tag
  }

  // ---------------------------------------------------------------- one row

  /** `created` fills a new row and `refreshed` an existing one; most writers pass the same content twice. */
  datatype Event =
    | Raise(kind: string, created: Content, refreshed: Content, now: int)
    | Clear(now: int)

  function Opened(kind: string, content: Content, now: int): Finding {
    Finding(kind, content.(proposed := Some(content.proposed.GetOr([]))), Open, now, now, None, None, None, None, None)
  }

  function Refreshed(row: Finding, content: Content, now: int): Finding {
    var reopened := if row.status == Resolved then row.(status := Open, resolvedAt := None, firstSeen := now) else row;
    reopened.(
      lastSeen := now,
      content := content.(proposed := if content.proposed.Some? then content.proposed else row.content.proposed))
  }

  function Affect(row: Option<Finding>, event: Event): Option<Finding> {
    match event
    case Raise(kind, created, refreshed, now) =>
      Some(if row == None then Opened(kind, created, now) else Refreshed(row.value, refreshed, now))
    case Clear(now) =>
      if row.Some? && Unresolved(row.value) then Some(row.value.(status := Resolved, resolvedAt := Some(now))) else row
  }

  function AffectAll(row: Option<Finding>, events: seq<Event>): Option<Finding> {
    if events == [] then row
    else Affect(AffectAll(row, events[..|events| - 1]), events[|events| - 1])
  }

  /** The row carries this report, word for word. */
  ghost predicate Carries(row: Finding, severity: string, title: string, description: string, affected: seq<Target>,
      evidence: seq<EvidenceRef>)
  {
    && row.content.severity == severity && row.content.title == title && row.content.description == description
    && row.content.affected == affected && row.content.evidence == evidence
  }

  /**
   The rest of a row that was raised. A new one is open. An existing one keeps its kind, its status and
   its first sighting, unless it was resolved, which reopens it now; and it keeps what the operator wrote.
   */
  ghost predicate RaisedFrom(before: Option<Finding>, after: Finding, kind: string, proposed: Option<seq<string>>,
      now: int) {
    && after.lastSeen == now
    && match before
       case None =>
         && after.kind == kind && after.status == Open && after.firstSeen == now && after.resolvedAt == None
         && after.acknowledgedAt == None && after.acknowledgedBy == None
         && after.suppressedUntil == None && after.notes == None
         && after.content.proposed == Some(if proposed.Some? then proposed.value else [])
       case Some(row) =>
         && after.kind == row.kind
         && after.status == (if row.status == Resolved then Open else row.status)
         && after.firstSeen == (if row.status == Resolved then now else row.firstSeen)
         && after.resolvedAt == (if row.status == Resolved then None else row.resolvedAt)
         && after.acknowledgedAt == row.acknowledgedAt && after.acknowledgedBy == row.acknowledgedBy
         && after.suppressedUntil == row.suppressedUntil && after.notes == row.notes
         && after.content.proposed == (if proposed.Some? then proposed else row.content.proposed)
  }

  /** A row that was resolved if it was open or acknowledged, and otherwise is what it was. */
  ghost predicate ClearedFrom(before: Option<Finding>, after: Option<Finding>, now: int) {
    if before.Some? && (before.value.status == Open || before.value.status == Acknowledged) then
      after == Some(before.value.(status := Resolved, resolvedAt := Some(now)))
    else
      after == before
  }

  /** What a raise and a clear do, field by field. */
  lemma AffectSays(row: Option<Finding>, kind: string, created: Content, refreshed: Content, now: int)
    ensures var after, said := Affect(row, Raise(kind, created, refreshed, now)), if row == None then created
          else refreshed;
            && after.Some? && RaisedFrom(row, after.value, kind, said.proposed, now)
            && Carries(after.value, said.severity, said.title, said.description, said.affected, said.evidence)
    ensures ClearedFrom(row, Affect(row, Clear(now)), now)
  {
  }

  lemma {:induction false} AffectAllThen(row: Option<Finding>, first: seq<Event>, second: seq<Event>)
    ensures AffectAll(row, first + second) == AffectAll(AffectAll(row, first), second)
  {
    if second == [] {
      assert first + second == first;
    } else {
      var init := second[..|second| - 1];
      AffectAllThen(row, first, init);
      assert (first + second)[..|first + second| - 1] == first + init;
    }
  }

  // ---------------------------------------------------------------- histories of one row

  /** Where the current stretch began: the first raise after the last clear before event `i`. */
  ghost predicate BeginsStretch(events: seq<Event>, s: nat, i: nat) {
    && s <= i < |events|
    && (forall j :: s <= j <= i ==> events[j].Raise?)
    && (s == 0 || events[s - 1].Clear?)
  }

  ghost predicate LastRaise(events: seq<Event>, i: nat) {
    && i < |events| && events[i].Raise?
    && forall j :: i < j < |events| ==> events[j].Clear?
  }

  /** The row as its history has it: `i` is the last raise and `s` the start of its stretch. */
  ghost predicate Recounts(events: seq<Event>, row: Finding, s: nat, i: nat) {
    && LastRaise(events, i) && BeginsStretch(events, s, i)
    && row.firstSeen == events[s].now && row.lastSeen == events[i].now
    && row.status == (if i == |events| - 1 then Open else Resolved)
    && row.resolvedAt == (if i == |events| - 1 then None else Some(events[i + 1].now))
  }

  /**
   The history of a row nobody but its writer touches. There is no row before the first raise. After
   it, the row is open exactly when the last event is a raise and resolved otherwise; `firstSeen` is
   the first raise of the current stretch, `lastSeen` the last raise, and `resolvedAt` the first clear
   after it.
   */
  lemma {:induction false} History(events: seq<Event>)
    ensures var row := AffectAll(None, events);
            && (row == None <==> forall i :: 0 <= i < |events| ==> events[i].Clear?)
            && (row.Some? ==> exists s: nat, i: nat :: Recounts(events, row.value, s, i))
  {
    hide BeginsStretch, LastRaise;
    if events != [] {
      var init, last := events[..|events| - 1], events[|events| - 1];
      History(init);
      var before := AffectAll(None, init);
      if before.Some? {
        var s: nat, i: nat :| Recounts(init, before.value, s, i);
        var s', i' := RecountsNext(events, before.value, s, i);
        assert Recounts(events, AffectAll(None, events).value, s', i');
      } else if last.Raise? {
        FirstRaise(events);
        assert Recounts(events, AffectAll(None, events).value, |init|, |init|);
      }
    }
  }

  lemma {:induction false} RecountsNext(events: seq<Event>, before: Finding, s: nat, i: nat) returns (s': nat, i': nat)
    requires events != [] && Recounts(events[..|events| - 1], before, s, i)
    ensures Recounts(events, Affect(Some(before), events[|events| - 1]).value, s', i')
  {
    var n := |events| - 1;
    i' := if events[n].Raise? then n else i;
    s' := if events[n].Raise? && i < n - 1 then n else s;
  }

  lemma {:induction false} FirstRaise(events: seq<Event>)
    requires events != [] && events[|events| - 1].Raise?
    requires forall i :: 0 <= i < |events| - 1 ==> events[i].Clear?
    ensures LastRaise(events, |events| - 1) && BeginsStretch(events, |events| - 1, |events| - 1)
  {
  }

  // ---------------------------------------------------------------- the table

  /** One row, looked up by its fingerprint, which is unique in the table. */
  class FindingTable {
    var rows: Rows

    constructor (rows: Rows)
      ensures this.rows == rows
    {
      this.rows := rows;
    }

    /** Insert or refresh; the caller learns which of the three it was. */
    method Upsert(key: Key, kind: string, created: Content, refreshed: Content, now: int)
      returns (before: Option<Status>)
      modifies this
      ensures before == (if key in old(rows) then Some(old(rows)[key].status) else None)
      ensures key in rows
      ensures var said := if before == None then created else refreshed;
              && RaisedFrom(Get(old(rows), key), rows[key], kind, said.proposed, now)
              && Carries(rows[key], said.severity, said.title, said.description, said.affected, said.evidence)
      ensures forall k :: Get(rows, k) ==
                if k == key then Affect(Get(old(rows), k), Raise(kind, created, refreshed, now)) else Get(old(rows), k)
    {
      if key !in rows {
        before := None;
        rows := rows[key := Opened(kind, created, now)];
      } else {
        var row := rows[key];
        before := Some(row.status);
        if row.status == Resolved {
          row := row.(status := Open, resolvedAt := None, firstSeen := now);
        }
        row := row.(
          lastSeen := now,
          content := refreshed.(proposed := if refreshed.proposed.Some? then refreshed.proposed
              else row.content.proposed));
        rows := rows[key := row];
      }
    }

    /** Resolves the row if there is one and it is open or acknowledged. */
    method Resolve(key: Key, now: int) returns (resolved: bool)
      modifies this
      ensures resolved <==>
              key in old(rows) && (old(rows)[key].status == Open || old(rows)[key].status == Acknowledged)
      ensures ClearedFrom(Get(old(rows), key), Get(rows, key), now)
      ensures forall k :: Get(rows, k) ==
                if k == key then Affect(Get(old(rows), k), Clear(now)) else Get(old(rows), k)
    {
      resolved := false;
      if key in rows {
        var row := rows[key];
        if row.status == Open || row.status == Acknowledged {
          rows := rows[key := row.(status := Resolved, resolvedAt := Some(now))];
          resolved := true;
        }
      }
    }

    /** The three operator gestures. Acknowledging a resolved finding keeps its `resolvedAt`. */
    method Operate(key: Key, verb: Verb) returns (found: bool)
      modifies this
      ensures found <==> key in old(rows)
      ensures found ==> key in rows && OperatedFrom(old(rows)[key], rows[key], verb)
      ensures forall k :: Get(rows, k) == if k == key then Operated(Get(old(rows), k), verb) else Get(old(rows), k)
    {
      found := key in rows;
      if found {
        var row := rows[key];
        match verb {
          case Acknowledge(who, notes, now) =>
            row := row.(status := Acknowledged, acknowledgedAt := Some(now), acknowledgedBy := who);
          case ResolveByHand(notes, now) =>
            row := row.(status := Resolved, resolvedAt := Some(now));
          case Suppress(until, notes) =>
            row := row.(status := Suppressed, suppressedUntil := until);
        }
        if verb.notes.Some? && verb.notes.value != "" {
          row := row.(notes := verb.notes);
        }
        rows := rows[key := row];
      }
    }
  }

  datatype Verb =
    | Acknowledge(who: Option<string>, notes: Option<string>, now: int)
    | ResolveByHand(notes: Option<string>, now: int)
    | Suppress(until: Option<int>, notes: Option<string>)

  /** What each gesture sets, and that it leaves the rest. A note is only replaced by one that is not empty. */
  ghost predicate OperatedFrom(before: Finding, after: Finding, verb: Verb) {
    && after.kind == before.kind && after.content == before.content
    && after.firstSeen == before.firstSeen && after.lastSeen == before.lastSeen
    && after.notes == (if verb.notes.Some? && verb.notes.value != "" then verb.notes else before.notes)
    && match verb
       case Acknowledge(who, _, now) =>
         && after.status == Acknowledged && after.acknowledgedAt == Some(now) && after.acknowledgedBy == who
         && after.resolvedAt == before.resolvedAt && after.suppressedUntil == before.suppressedUntil
       case ResolveByHand(_, now) =>
         && after.status == Resolved && after.resolvedAt == Some(now)
         && after.acknowledgedAt == before.acknowledgedAt && after.acknowledgedBy == before.acknowledgedBy
         && after.suppressedUntil == before.suppressedUntil
       case Suppress(until, _) =>
         && after.status == Suppressed && after.suppressedUntil == until
         && after.resolvedAt == before.resolvedAt
         && after.acknowledgedAt == before.acknowledgedAt && after.acknowledgedBy == before.acknowledgedBy
  }

  function Operated(row: Option<Finding>, verb: Verb): Option<Finding> {
    if row == None then None
    else
      var noted := if verb.notes.Some? && verb.notes.value != "" then row.value.(notes := verb.notes) else row.value;
      match verb
      case Acknowledge(who, _,
          now) => Some(noted.(status := Acknowledged, acknowledgedAt := Some(now), acknowledgedBy := who))
      case ResolveByHand(_, now) => Some(noted.(status := Resolved, resolvedAt := Some(now)))
      case Suppress(until, _) => Some(noted.(status := Suppressed, suppressedUntil := until))
  }
}
