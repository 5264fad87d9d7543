/**
 Digest windows: each digest covers the time since the last one, and the daemon only delivers one
 that covers enough. Times are whole seconds since some epoch.
 */
module Digest {
  import opened Wrappers

  const DAY := 86400
  const DEFAULT_WINDOW_DAYS := 7
  const MIN_DIGEST_DAYS := 6

  datatype Window = Window(start: int, end: int)

  datatype DigestRun = DigestRun(window: Window, delivery: string, quiet: bool)

  /** Why a daemon pass ended as it did. */
  datatype PassEffect = Skipped | Quiet | Unconfigured | Failed | Sent

  /** What a pass finds around it: whether the window is quiet, and how delivery would go. */
  datatype Delivery = Delivery(quiet: bool, configured: bool, reachable: bool)

  /** The latest end of any recorded window. */
  function LastEnd(runs: seq<DigestRun>): Option<int> {
    if runs == [] then None
    else
      var sofar, end := LastEnd(runs[..|runs| - 1]), runs[|runs| - 1].window.end;
      if sofar.Some? && sofar.value >= end then sofar else Some(end)
  }

  function WindowAt(lastEnd: Option<int>, days: Option<int>, now: int): Window {
    if days.Some? then Window(now - days.value * DAY, now)
    else if lastEnd == None then Window(now - DEFAULT_WINDOW_DAYS * DAY, now)
    else if lastEnd.value >= now then Window(now, now)
    else Window(lastEnd.value, now)
  }

  predicate Holds(w: Window, t: int) {
    w.start <= t < w.end
  }

  class DigestLog {
    var runs: seq<DigestRun>

    constructor ()
      ensures runs == []
    {
      runs := [];
    }

    /** `ORDER BY window_end DESC LIMIT 1` */
    method LastDigest() returns (last: Option<DigestRun>)
      ensures last == None <==> runs == []
      ensures last.Some? ==> last.value in runs && LastEnd(runs) == Some(last.value.window.end)
      ensures last.Some? ==> forall r :: r in runs ==> r.window.end <= last.value.window.end
    {
      last := None;
      for i := 0 to |runs|
        invariant last == None <==> i == 0
        invariant last.Some? ==> last.value in runs && LastEnd(runs[..i]) == Some(last.value.window.end)
        invariant last.Some? ==> forall j :: 0 <= j < i ==> runs[j].window.end <= last.value.window.end
      {
        assert runs[..i + 1][..i] == runs[..i];
        if last == None || last.value.window.end < runs[i].window.end {
          last := Some(runs[i]);
        }
      }
      assert runs[..|runs|] == runs;
    }

    method ResolveWindow(days: Option<int>, now: int) returns (w: Window)
      ensures w == WindowAt(LastEnd(runs), days, now)
      ensures days.Some? ==> w == Window(now - days.value * 86400, now)
      ensures days == None && runs == [] ==> w == Window(now - 7 * 86400, now)
      ensures days == None && runs != [] ==>
                exists r :: r in runs && (forall o :: o in runs ==> o.window.end <= r.window.end)
                  && w == if r.window.end >= now then Window(now, now) else Window(r.window.end, now)
    {
      if days.Some? {
        return Window(now - days.value * DAY, now);
      }
      var previous := LastDigest();
      if previous == None {
        return Window(now - DEFAULT_WINDOW_DAYS * DAY, now);
      }
      var start := previous.value.window.end;
      if start >= now {
        return Window(now, now);
      }
      w := Window(start, now);
    }

    method RecordDigest(window: Window, delivery: string, quiet: bool)
      modifies this
      ensures runs == old(runs) + [DigestRun(window, delivery, quiet)]
    {
      runs := runs + [DigestRun(window, delivery, quiet)];
    }

    /** `helper digest send`: whatever becomes of the delivery, the window is recorded. */
    method SendDigest(days: Option<int>, quietOk: bool, now: int, d: Delivery) returns (outcome: PassEffect)
      modifies this
      ensures outcome == Outcome(d, quietOk)
      ensures runs == old(runs) + [DigestRun(WindowAt(LastEnd(old(runs)), days, now), DeliveryName(outcome), d.quiet)]
      ensures Windows(runs) == Recorded(Windows(old(runs)), Send(days, now))
    {
      LogFollowsHistory(runs);
      var window := ResolveWindow(days, now);
      outcome := Deliver(window, quietOk, d);
    }

    /** The daemon's pass: nothing happens unless the window is long enough. */
    method RunDigestPass(days: Option<int>, quietOk: bool, now: int, d: Delivery) returns (outcome: PassEffect)
      modifies this
      ensures var w := WindowAt(LastEnd(old(runs)), days, now);
              if w.end - w.start < 6 * 86400
              then outcome == Skipped && runs == old(runs)
              else outcome == Outcome(d, quietOk) && runs == old(runs) + [DigestRun(w, DeliveryName(outcome), d.quiet)]
      ensures Windows(runs) == Recorded(Windows(old(runs)), Daemon(days, now))
    {
      LogFollowsHistory(runs);
      var window := ResolveWindow(days, now);
      if window.end - window.start < MIN_DIGEST_DAYS * DAY {
        return Skipped;
      }
      outcome := Deliver(window, quietOk, d);
    }

    method Deliver(window: Window, quietOk: bool, d: Delivery) returns (outcome: PassEffect)
      modifies this
      ensures outcome == Outcome(d, quietOk)
      ensures runs == old(runs) + [DigestRun(window, DeliveryName(outcome), d.quiet)]
    {
      if d.quiet && !quietOk {
        RecordDigest(window, "page", d.quiet);
        return Quiet;
      }
      if !d.configured {
        RecordDigest(window, "unconfigured", d.quiet);
        return Unconfigured;
      }
      if !d.reachable {
        RecordDigest(window, "failed", d.quiet);
        return Failed;
      }
      RecordDigest(window, "sent", d.quiet);
      outcome := Sent;
    }
  }

  function Outcome(d: Delivery, quietOk: bool): PassEffect {
    if d.quiet && !quietOk then Quiet else if !d.configured then Unconfigured else if !d.reachable then Failed else Sent
  }

  function DeliveryName(outcome: PassEffect): string {
    match outcome
    case Quiet => "page"
    case Unconfigured => "unconfigured"
    case Failed => "failed"
    case _ => "sent"
  }

  /** What becomes of a digest: a quiet one is sent only when asked for, and how each is recorded. */
  lemma OutcomeSays(d: Delivery, quietOk: bool)
    ensures var o := Outcome(d, quietOk);
            && (o == Quiet <==> d.quiet && !quietOk)
            && (o == Unconfigured <==> (d.quiet ==> quietOk) && !d.configured)
            && (o == Failed <==> (d.quiet ==> quietOk) && d.configured && !d.reachable)
            && (o == Sent <==> (d.quiet ==> quietOk) && d.configured && d.reachable)
    ensures DeliveryName(Quiet) == "page" && DeliveryName(Unconfigured) == "unconfigured"
    ensures DeliveryName(Failed) == "failed" && DeliveryName(Sent) == "sent"
  {
  }

  // ---------------------------------------------------------------- whole histories

  /** A digest asked for by hand or a daemon tick, perhaps with a `days` override; the clock may read anything. */
  datatype Tick = Send(days: Option<int>, now: int) | Daemon(days: Option<int>, now: int)

  function Recorded(runs: seq<Window>, tick: Tick): seq<Window> {
    var w := WindowAt(EndOf(runs), tick.days, tick.now);
    if tick.Daemon? && w.end - w.start < MIN_DIGEST_DAYS * DAY then runs else runs + [w]
  }

  function History(ticks: seq<Tick>): seq<Window> {
    if ticks == [] then [] else Recorded(History(ticks[..|ticks| - 1]), ticks[|ticks| - 1])
  }

  function EndOf(windows: seq<Window>): Option<int> {
    if windows == [] then None
    else
      var sofar, end := EndOf(windows[..|windows| - 1]), windows[|windows| - 1].end;
      if sofar.Some? && sofar.value >= end then sofar else Some(end)
  }

  /** The windows of a log, and that its latest end is theirs: what the methods do is what `History` folds. */
  function Windows(runs: seq<DigestRun>): seq<Window> {
    if runs == [] then [] else Windows(runs[..|runs| - 1]) + [runs[|runs| - 1].window]
  }

  lemma {:induction false} LogFollowsHistory(runs: seq<DigestRun>)
    ensures EndOf(Windows(runs)) == LastEnd(runs)
    ensures forall r :: Windows(runs + [r]) == Windows(runs) + [r.window]
  {
    forall r ensures Windows(runs + [r]) == Windows(runs) + [r.window] {
      assert (runs + [r])[..|runs|] == runs;
    }
    if runs != [] {
      var init := runs[..|runs| - 1];
      LogFollowsHistory(init);
      assert Windows(runs)[..|Windows(runs)| - 1] == Windows(init);
    }
  }

  /** How many of the windows an instant falls in. */
  function Reports(windows: seq<Window>, t: int): nat {
    if windows == [] then 0
    else Reports(windows[..|windows| - 1], t) + if Holds(windows[|windows| - 1], t) then 1 else 0
  }

  /** Every instant from `from` to the latest end is reported exactly once, and no other ever. */
  ghost predicate TilesFrom(windows: seq<Window>, from: int) {
    forall t :: Reports(windows, t) == if windows != [] && from <= t && t < EndOf(windows).value then 1 else 0
  }

  /** The windows tile one half-open interval that ends with the last of them. */
  ghost predicate Tiles(windows: seq<Window>) {
    exists from :: TilesFrom(windows, from)
  }

  lemma {:induction false} OneMoreWindow(windows: seq<Window>, w: Window)
    ensures EndOf(windows + [w]) == if windows != [] && EndOf(windows).value >= w.end then EndOf(windows)
          else Some(w.end)
    ensures windows != [] ==> EndOf(windows).Some?
    ensures forall t :: Reports(windows + [w], t) == Reports(windows, t) + if Holds(w, t) then 1 else 0
  {
    assert (windows + [w])[..|windows|] == windows;
  }

  ghost predicate NoOverride(ticks: seq<Tick>) {
    forall i :: 0 <= i < |ticks| ==> ticks[i].days == None
  }

  /**
   Digests tile time: however often they are asked for, by hand or by the daemon, and whatever the
   clock says, every instant from the first start on is in exactly one recorded window.
   */
  lemma {:induction false} DigestsTile(ticks: seq<Tick>)
    requires NoOverride(ticks)
    ensures var h := History(ticks);
            h != [] ==> TilesFrom(h, h[0].start) && h[0].start < EndOf(h).value
  {
    hide EndOf, Reports;
    if ticks != [] {
      var before, tick := History(ticks[..|ticks| - 1]), ticks[|ticks| - 1];
      DigestsTile(ticks[..|ticks| - 1]);
      var w := WindowAt(EndOf(before), None, tick.now);
      OneMoreWindow(before, w);
      if before == [] {
        NothingReported();
      }
    }
  }

  lemma NothingReported()
    ensures EndOf([]) == None && forall t :: Reports([], t) == 0
  {
  }

  /** The first instant that any window holds, if one does. */
  function FirstInstant(windows: seq<Window>): Option<int> {
    if windows == [] then None
    else
      var sofar, last := FirstInstant(windows[..|windows| - 1]), windows[|windows| - 1];
      if last.start < last.end && (sofar == None || last.start < sofar.value) then Some(last.start) else sofar
  }

  lemma {:induction false} FirstInstantIsFirst(windows: seq<Window>)
    ensures FirstInstant(windows) == None ==> forall t :: Reports(windows, t) == 0
    ensures FirstInstant(windows).Some? ==>
              Reports(windows, FirstInstant(windows).value) > 0 && forall t :: Reports(windows, t) > 0 ==>
                  FirstInstant(windows).value <= t
  {
    if windows != [] {
      FirstInstantIsFirst(windows[..|windows| - 1]);
    }
  }

  /**
   What keeps the tiling when the days are asked for. Once something is reported, a window that holds
   something has to begin where the last digest ended, or end where the first one began, and one that
   holds nothing must not lie after the last. Before that, only an end beyond the window is in the way.
   */
  predicate Meets(windows: seq<Window>, days: int, now: int) {
    if windows == [] then true
    else if FirstInstant(windows) == None then days > 0 ==> EndOf(windows).value <= now
    else if days > 0 then now - days * DAY == EndOf(windows).value || now == FirstInstant(windows).value
    else now <= EndOf(windows).value
  }

  /**
   An override keeps the tiling of any log exactly when it meets it: shorter leaves a gap, longer
   reports instants twice.
   */
  lemma {:induction false} OverrideTilesIffItMeets(windows: seq<Window>, days: int, now: int)
    requires Tiles(windows)
    ensures Tiles(windows + [WindowAt(EndOf(windows), Some(days), now)]) <==> Meets(windows, days, now)
  {
    hide EndOf, Reports, FirstInstant;
    var w := Window(now - days * DAY, now);
    assert w.end - w.start == days * DAY;
    OneMoreWindow(windows, w);
    FirstInstantIsFirst(windows);
    if windows == [] {
      NothingReported();
      assert TilesFrom(windows + [w], w.start);
    } else if FirstInstant(windows) == None {
      OverrideAfterNothing(windows, w);
    } else {
      OverrideAfterSomething(windows, w, FirstInstant(windows).value);
    }
  }

  lemma {:induction false} OverrideAfterNothing(windows: seq<Window>, w: Window)
    requires windows != [] && forall t :: Reports(windows, t) == 0
    ensures Tiles(windows + [w]) <==> (w.start < w.end ==> EndOf(windows).value <= w.end)
  {
    hide EndOf, Reports;
    OneMoreWindow(windows, w);
    var next, end := windows + [w], EndOf(windows).value;
    if w.start < w.end && w.end < end {
      assert Reports(next, w.start) == 1 && Reports(next, end - 1) == 0;
    } else if w.start < w.end {
      assert TilesFrom(next, w.start);
    } else {
      assert TilesFrom(next, EndOf(next).value);
    }
  }

  lemma {:induction false} OverrideAfterSomething(windows: seq<Window>, w: Window, first: int)
    requires windows != [] && Tiles(windows) && Reports(windows, first) > 0 && forall t :: Reports(windows, t) > 0 ==>
          first <= t
    ensures var end := EndOf(windows).value;
            Tiles(windows + [w]) <==> if w.start < w.end then w.start == end || w.end == first else w.end <= end
  {
    hide EndOf, Reports;
    OneMoreWindow(windows, w);
    var next, end := windows + [w], EndOf(windows).value;
    var from :| TilesFrom(windows, from);
    assert Reports(windows, from) == 1;
    assert from == first < end && Reports(windows, end - 1) == 1;
    if w.start >= w.end {
      if w.end <= end {
        assert TilesFrom(next, from);
      } else {
        assert Reports(next, end) == 0 && Reports(next, end - 1) == 1;
      }
    } else if w.start == end {
      assert TilesFrom(next, from);
    } else if w.end == from {
      assert TilesFrom(next, w.start);
    } else if w.start > end {
      assert Reports(next, end) == 0 && Reports(next, end - 1) == 1 && Reports(next, w.start) == 1;
    } else if w.end < from {
      assert Reports(next, w.start) == 1 && Reports(next, w.end) == 0 && Reports(next, end - 1) == 1;
    } else {
      var twice := if w.start < from then from else w.start;
      assert Reports(next, twice) == 2;
    }
  }

  /** Without an override the tiling always goes on. */
  lemma {:induction false} NextTiles(windows: seq<Window>, now: int)
    requires Tiles(windows)
    ensures Tiles(windows + [WindowAt(EndOf(windows), None, now)])
  {
    hide EndOf, Reports, FirstInstant;
    var w := WindowAt(EndOf(windows), None, now);
    OneMoreWindow(windows, w);
    FirstInstantIsFirst(windows);
    if windows == [] {
      NothingReported();
      assert TilesFrom(windows + [w], w.start);
    } else if FirstInstant(windows) == None {
      OverrideAfterNothing(windows, w);
    } else {
      OverrideAfterSomething(windows, w, FirstInstant(windows).value);
    }
  }

  /** The tick records nothing, or a window that keeps the tiling. */
  predicate KeepsTiling(windows: seq<Window>, tick: Tick) {
    Recorded(windows, tick) == windows || tick.days == None || Meets(windows, tick.days.value, tick.now)
  }

  /** Over any run, overrides and all: the log tiles after every tick exactly when every recorded override met it. */
  lemma {:induction false} RunTilesIffOverridesMeet(ticks: seq<Tick>)
    ensures (forall n :: 0 <= n <= |ticks| ==> Tiles(History(ticks[..n]))) <==>
            (forall n :: 0 <= n < |ticks| ==> KeepsTiling(History(ticks[..n]), ticks[n]))
  {
    hide Tiles, Recorded, KeepsTiling;
    forall n | 0 <= n < |ticks| && Tiles(History(ticks[..n]))
      ensures Tiles(History(ticks[..n + 1])) <==> KeepsTiling(History(ticks[..n]), ticks[n])
    {
      assert ticks[..n + 1][..n] == ticks[..n];
      TickTiles(History(ticks[..n]), ticks[n]);
    }
    if forall n :: 0 <= n < |ticks| ==> KeepsTiling(History(ticks[..n]), ticks[n]) {
      TilesSoFar(ticks, |ticks|);
    } else {
      var n :| 0 <= n < |ticks| && !KeepsTiling(History(ticks[..n]), ticks[n]);
      assert !Tiles(History(ticks[..n])) || !Tiles(History(ticks[..n + 1]));
    }
  }

  lemma TickTiles(windows: seq<Window>, tick: Tick)
    requires Tiles(windows)
    ensures Tiles(Recorded(windows, tick)) <==> KeepsTiling(windows, tick)
  {
    hide Tiles, Meets;
    if Recorded(windows, tick) != windows {
      if tick.days == None {
        NextTiles(windows, tick.now);
      } else {
        OverrideTilesIffItMeets(windows, tick.days.value, tick.now);
      }
    }
  }

  lemma {:induction false} TilesSoFar(ticks: seq<Tick>, m: nat)
    requires m <= |ticks| && forall n :: 0 <= n < m ==> KeepsTiling(History(ticks[..n]), ticks[n])
    ensures forall n :: 0 <= n <= m ==> Tiles(History(ticks[..n]))
  {
    hide Tiles, Recorded, KeepsTiling;
    if m == 0 {
      EmptyTiles();
      assert ticks[..0] == [];
    } else {
      TilesSoFar(ticks, m - 1);
      assert ticks[..m][..m - 1] == ticks[..m - 1];
      TickTiles(History(ticks[..m - 1]), ticks[m - 1]);
    }
  }

  lemma EmptyTiles()
    ensures Tiles([])
  {
    assert TilesFrom([], 0);
  }

  ghost predicate DaemonOnly(ticks: seq<Tick>) {
    forall i :: 0 <= i < |ticks| ==> ticks[i].Daemon?
  }

  /**
   In daemon-only runs every recorded window is at least six days long, however often the job ticks, so
   without an override there are never more digests than six-day spans in the time they cover.
   */
  lemma {:induction false} DaemonNeverStreams(ticks: seq<Tick>)
    requires DaemonOnly(ticks)
    ensures forall i :: 0 <= i < |History(ticks)| ==>
          History(ticks)[i].end - History(ticks)[i].start >= MIN_DIGEST_DAYS * DAY
    ensures var h := History(ticks);
            h != [] && NoOverride(ticks) ==> |h| * (MIN_DIGEST_DAYS * DAY) <= EndOf(h).value - h[0].start
  {
    hide EndOf, Reports;
    if ticks != [] {
      var before, tick := History(ticks[..|ticks| - 1]), ticks[|ticks| - 1];
      DaemonNeverStreams(ticks[..|ticks| - 1]);
      var w := WindowAt(EndOf(before), tick.days, tick.now);
      OneMoreWindow(before, w);
      assert History(ticks) == before || History(ticks) == before + [w];
    }
  }
}
