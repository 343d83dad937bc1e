/**
 The fuel monitor of GenWatch (services/fuel.py): threshold alerts with hysteresis, reminders, and
 the detector of abnormal drops. The object keeps a status, three times and a bounded window; its
 alerts are specified on the whole history of readings.
 */
module Fuel {
  import opened Prelude

  const MAX_SAMPLES := 2048

  datatype Status = Unknown | Full | Warn | Critical

  predicate Low(s: Status) { s.Warn? || s.Critical? }

  datatype Config = Config(enabled: bool, gaseous: bool, warn: real, crit: real, hysteresis: real,
                           renotifyHours: real, minValid: real, maxValid: real,
                           dropPct: real, windowMinutes: int, onlyWhenStopped: bool)
  {
    function Margin(): real { if hysteresis < 0.0 then 0.0 else hysteresis }

    function Period(): real { renotifyHours * 3600.0 }

    function Window(): real { (if windowMinutes < 1 then 1 else windowMinutes) as real * 60.0 }

    /** A missing or implausible level is a sensor fault, and a site without a tank has no level. */
    predicate Counts(pct: Option<real>) {
      enabled && !gaseous && pct.Some? && minValid <= pct.value <= maxValid
    }

    /** The readings that restart the drop detector. */
    predicate Restarts(r: Reading) { onlyWhenStopped && r.burning }
  }

  datatype Reading = Reading(at: real, pct: real, burning: bool)

  datatype Event =
    | Level(status: Status, previous: Status)
    | Recovered(status: Status, previous: Status)
    | Reminder(status: Status)
    | Drop(status: Status, dropped: real)

  function Front(s: seq<Reading>): (r: seq<Reading>)
    requires s != []
    ensures |r| == |s| - 1
  {
    s[..|s| - 1]
  }

  function Last(s: seq<Reading>): Reading
    requires s != []
  {
    s[|s| - 1]
  }

  /** Readings whose clock does not go backwards. */
  predicate InOrder(rs: seq<Reading>) {
    rs == [] || (InOrder(Front(rs)) && (|rs| > 1 ==> rs[|rs| - 2].at <= Last(rs).at))
  }

  lemma {:induction false} Ordered(rs: seq<Reading>, i: nat, j: nat)
    requires InOrder(rs) && i <= j < |rs|
    ensures rs[i].at <= rs[j].at
    decreases |rs|
  {
    if j < |rs| - 1 {
      Ordered(Front(rs), i, j);
    } else if i < j {
      Ordered(Front(rs), i, j - 1);
    }
  }

  lemma {:induction false} PrefixInOrder(rs: seq<Reading>, n: nat)
    requires InOrder(rs) && n <= |rs|
    ensures InOrder(rs[..n])
    decreases |rs|
  {
    if n < |rs| {
      PrefixInOrder(Front(rs), n);
      assert Front(rs)[..n] == rs[..n];
    } else {
      assert rs[..n] == rs;
    }
  }

  // ----------------------------------------------------------- levels, over the whole history

  function Classify(cfg: Config, status: Status, pct: real): Status {
    match status
    case Critical =>
      if pct < cfg.crit + cfg.Margin() then Critical
      else if pct < cfg.warn + cfg.Margin() then Warn else Full
    case Warn =>
      if pct <= cfg.crit then Critical else if pct >= cfg.warn + cfg.Margin() then Full else Warn
    case _ =>
      if pct <= cfg.crit then Critical else if pct <= cfg.warn then Warn else Full
  }

  function StatusOf(cfg: Config, rs: seq<Reading>): Status {
    if rs == [] then Unknown else Classify(cfg, StatusOf(cfg, Front(rs)), Last(rs).pct)
  }

  /** The time of the last message about the level. */
  function LastNote(cfg: Config, rs: seq<Reading>): (t: Option<real>)
    decreases |rs|, 1
  {
    if rs == [] then None
    else if LevelEvent(cfg, rs).Some? then Some(Last(rs).at)
    else LastNote(cfg, Front(rs))
  }

  /** The message about the level that the last reading of a history causes: for a crossing, or
      when the level is still low and the last message is a full period old. */
  function LevelEvent(cfg: Config, rs: seq<Reading>): Option<Event>
    requires rs != []
    decreases |rs|, 0
  {
    var before, after := StatusOf(cfg, Front(rs)), StatusOf(cfg, rs);
    var note := LastNote(cfg, Front(rs));
    if before != after then Crossing(before, after)
    else if Low(after) && cfg.renotifyHours > 0.0 && note.Some? && Last(rs).at - note.value >= cfg.Period()
    then Some(Reminder(after))
    else None
  }

  /** Coming up is good news, even when the level is still low; a first good reading is no news. */
  function Crossing(before: Status, after: Status): Option<Event>
    requires before != after
  {
    match after
    case Critical => Some(Level(Critical, before))
    case Warn => Some(if before.Critical? then Recovered(Warn, before) else Level(Warn, before))
    case Full => if Low(before) then Some(Recovered(Full, before)) else None
    case Unknown => None
  }

  // ------------------------------------------------------------ drops, over the whole history

  /** Whether the detector still looks back at reading `i`: it is one of the last 2048, no older
      than the window, and the engine has not burned fuel since. */
  ghost predicate Keeps(cfg: Config, rs: seq<Reading>, i: nat)
    requires i < |rs|
  {
    && |rs| - i <= MAX_SAMPLES
    && Last(rs).at - cfg.Window() <= rs[i].at
    && forall k :: i < k < |rs| ==> !cfg.Restarts(rs[k])
  }

  /** By how much the level at reading `i` exceeds the last one. */
  function Rise(rs: seq<Reading>, i: nat): real
    requires i < |rs|
  {
    rs[i].pct - Last(rs).pct
  }

  /** Whether reading `i` shows a level at least the threshold above the last one. */
  ghost predicate Above(cfg: Config, rs: seq<Reading>, i: nat)
    requires i < |rs|
  {
    Keeps(cfg, rs, i) && Rise(rs, i) >= cfg.dropPct
  }

  /** Whether a reading from `i` on shows a level at least the threshold above the last one. */
  ghost predicate Dropped(cfg: Config, rs: seq<Reading>, i: nat := 0)
    requires i <= |rs|
    decreases |rs| - i
  {
    i < |rs| && (Above(cfg, rs, i) || Dropped(cfg, rs, i + 1))
  }

  ghost function LastAlert(cfg: Config, rs: seq<Reading>): Option<real>
    decreases |rs|, 1
  {
    if rs == [] then None
    else if Alerts(cfg, rs) then Some(Last(rs).at)
    else LastAlert(cfg, Front(rs))
  }

  /** The source tells "never" from a time by comparing with zero. */
  predicate Muted(cfg: Config, last: Option<real>, now: real) {
    last.Some? && last.value != 0.0 && now - last.value < cfg.Window()
  }

  /** Whether the last reading of a history raises a drop alert. */
  ghost predicate Alerts(cfg: Config, rs: seq<Reading>)
    requires rs != []
    decreases |rs|, 0
  {
    && cfg.dropPct > 0.0 && !cfg.Restarts(Last(rs))
    && Dropped(cfg, rs)
    && !Muted(cfg, LastAlert(cfg, Front(rs)), Last(rs).at)
  }

  /** How far the level has dropped, where it has. */
  ghost predicate DropIs(cfg: Config, rs: seq<Reading>, dropped: real)
    requires rs != []
  {
    && (exists i :: 0 <= i < |rs| && Above(cfg, rs, i) && Rise(rs, i) == dropped)
    && (forall i :: 0 <= i < |rs| && Keeps(cfg, rs, i) ==> Rise(rs, i) <= dropped)
  }

  /** The messages that the last reading of a history causes. */
  ghost predicate Says(cfg: Config, rs: seq<Reading>, events: seq<Event>)
    requires rs != []
  {
    var level := LevelEvent(cfg, rs);
    var n := if level.Some? then 1 else 0;
    && |events| == n + (if Alerts(cfg, rs) then 1 else 0)
    && (level.Some? ==> events[0] == level.value)
    && (Alerts(cfg, rs) ==> events[n].Drop? && events[n].status == StatusOf(cfg, rs)
                            && DropIs(cfg, rs, events[n].dropped))
  }

  // ------------------------------------------------------------------------------ the object

  /** Whether `history` is the end of `rs`. */
  predicate IsEnd(rs: seq<Reading>, history: seq<Reading>) {
    && |history| <= |rs|
    && forall i :: 0 <= i < |history| ==> history[i] == rs[|rs| - |history| + i]
  }

  /** The detector's window after a history: exactly the readings that it still looks back at. */
  ghost predicate IsWindow(cfg: Config, rs: seq<Reading>, history: seq<Reading>) {
    && IsEnd(rs, history)
    && (rs != [] ==> history != [])
    && (forall i :: 0 <= i < |rs| ==> (Keeps(cfg, rs, i) <==> |rs| - |history| <= i))
  }

  class FuelMonitor {
    const cfg: Config
    var status: Status
    var lastPct: Option<real>
    var notifiedAt: real
    var history: seq<Reading>
    var lastDropAt: real

    ghost predicate Remembers(rs: seq<Reading>)
      reads this
    {
      && status == StatusOf(cfg, rs)
      && lastPct == (if rs == [] then None else Some(Last(rs).pct))
      && (Low(status) ==> LastNote(cfg, rs) == Some(notifiedAt))
      && DropsRemembered(rs)
    }

    ghost predicate DropsRemembered(rs: seq<Reading>)
      reads this
    {
      && InOrder(rs)
      && (if cfg.dropPct > 0.0 then IsWindow(cfg, rs, history) else history == [])
      && lastDropAt == (if LastAlert(cfg, rs).Some? then LastAlert(cfg, rs).value else 0.0)
    }

    constructor (cfg: Config)
      ensures this.cfg == cfg && Remembers([])
    {
      this.cfg := cfg;
      status, lastPct, notifiedAt, history, lastDropAt := Unknown, None, 0.0, [], 0.0;
    }

    /** Takes one reading. An implausible one changes nothing and says nothing; for any other the
        messages are the ones that the whole history calls for. */
    method Update(pct: Option<real>, burning: bool, now: real, ghost rs: seq<Reading>) returns (events: seq<Event>)
      requires Remembers(rs) && (rs != [] ==> Last(rs).at <= now)
      modifies this
      ensures cfg.Counts(pct) <==> cfg.enabled && !cfg.gaseous && pct.Some? && cfg.minValid <= pct.value <= cfg.maxValid
      ensures cfg.Counts(pct) ==> Remembers(rs + [Reading(now, pct.value, burning)])
                                  && Says(cfg, rs + [Reading(now, pct.value, burning)], events)
      ensures !cfg.Counts(pct) ==> Remembers(rs) && events == []
    {
      events := [];
      if !cfg.enabled || cfg.gaseous {
        return;
      }
      if pct.None? || !(cfg.minValid <= pct.value <= cfg.maxValid) {
        return;
      }
      var r := Reading(now, pct.value, burning);
      ghost var rs' := rs + [r];
      assert Front(rs') == rs && Last(rs') == r;
      var level := CrossLevel(r, rs);
      var drop := CheckDrop(r, rs);
      events := Both(level, drop);
      BothSay(cfg, rs', level, drop);
    }

    /** The next poll of a whole service. */
    method TakePoll(polls: seq<Poll>, i: nat) returns (events: seq<Event>)
      requires i < |polls| && PollsInOrder(polls) && Remembers(Readings(cfg, polls[..i]))
      modifies this
      ensures Remembers(Readings(cfg, polls[..i + 1])) && SaysAt(cfg, polls, i, events)
    {
      ReadingsStep(cfg, polls, i);
      ReadingsAreEarlier(cfg, polls, i);
      events := Update(polls[i].pct, polls[i].burning, polls[i].at, Readings(cfg, polls[..i]));
    }

    /** Crossings and reminders. */
    method CrossLevel(r: Reading, ghost rs: seq<Reading>) returns (event: Option<Event>)
      requires status == StatusOf(cfg, rs) && (Low(status) ==> LastNote(cfg, rs) == Some(notifiedAt))
      modifies this`status, this`lastPct, this`notifiedAt
      ensures lastPct == Some(r.pct) && status == StatusOf(cfg, rs + [r])
      ensures Low(status) ==> LastNote(cfg, rs + [r]) == Some(notifiedAt)
      ensures event == LevelEvent(cfg, rs + [r])
    {
      assert Front(rs + [r]) == rs && Last(rs + [r]) == r;
      var previous := status;
      lastPct := Some(r.pct);
      status := Classify(cfg, previous, r.pct);
      event := None;
      if status != previous {
        notifiedAt := r.at;
        if status.Critical? {
          event := Some(Level(Critical, previous));
        } else if status.Warn? {
          event := Some(if previous.Critical? then Recovered(Warn, previous) else Level(Warn, previous));
        } else if Low(previous) {
          event := Some(Recovered(status, previous));
        }
      } else if Low(status) {
        if cfg.renotifyHours > 0.0 && r.at - notifiedAt >= cfg.renotifyHours * 3600.0 {
          notifiedAt := r.at;
          event := Some(Reminder(status));
        }
      }
    }

    /** The drop detector. */
    method CheckDrop(r: Reading, ghost rs: seq<Reading>) returns (event: Option<Event>)
      requires DropsRemembered(rs) && (rs != [] ==> Last(rs).at <= r.at)
      modifies this`history, this`lastDropAt
      ensures DropsRemembered(rs + [r])
      ensures event.Some? <==> Alerts(cfg, rs + [r])
      ensures event.Some? ==> event.value.Drop? && event.value.status == status
                              && DropIs(cfg, rs + [r], event.value.dropped)
    {
      ghost var rs' := rs + [r];
      assert Front(rs') == rs && Last(rs') == r;
      if cfg.dropPct <= 0.0 {
        return None;
      }
      Slide(r, rs);
      AlertUnfolds(cfg, rs, r);
      if cfg.onlyWhenStopped && r.burning {
        return None;
      }
      if |history| < 2 {
        LoneReading(cfg, rs', history);
        return None;
      }
      var peak := Peak(history);
      PeakDecides(cfg, rs', history, peak);
      var dropped := peak - r.pct;
      if dropped < cfg.dropPct {
        return None;
      }
      if lastDropAt != 0.0 && r.at - lastDropAt < cfg.Window() {
        return None;
      }
      lastDropAt := r.at;
      event := Some(Drop(status, dropped));
    }

    /** Appends a reading to the bounded window and drops what is out of date. */
    method Slide(r: Reading, ghost rs: seq<Reading>)
      requires cfg.dropPct > 0.0 && InOrder(rs) && IsWindow(cfg, rs, history) && (rs != [] ==> Last(rs).at <= r.at)
      modifies this`history
      ensures InOrder(rs + [r]) && IsWindow(cfg, rs + [r], history)
    {
      ghost var rs' := rs + [r];
      WindowIsSmall(cfg, rs, history);
      history := history + [r];
      if |history| > MAX_SAMPLES {
        history := history[1..];
      }
      Appended(cfg, rs, r, old(history), history);
      while history != [] && history[0].at < r.at - cfg.Window()
        invariant Covers(cfg, rs', history)
        decreases |history|
      {
        TooOld(cfg, rs', history);
        history := history[1..];
      }
      if cfg.onlyWhenStopped && r.burning {
        history := [r];
        Restarted(cfg, rs, r);
      } else {
        Evicted(cfg, rs', history);
      }
    }
  }

  /** The message about the level, then the one about a drop. */
  function Both(level: Option<Event>, drop: Option<Event>): seq<Event> {
    (if level.Some? then [level.value] else []) + (if drop.Some? then [drop.value] else [])
  }

  lemma BothSay(cfg: Config, rs: seq<Reading>, level: Option<Event>, drop: Option<Event>)
    requires rs != [] && level == LevelEvent(cfg, rs) && (drop.Some? <==> Alerts(cfg, rs))
    requires drop.Some? ==> drop.value.Drop? && drop.value.status == StatusOf(cfg, rs)
                            && DropIs(cfg, rs, drop.value.dropped)
    ensures Says(cfg, rs, Both(level, drop))
  {
  }

  method Peak(history: seq<Reading>) returns (peak: real)
    requires history != []
    ensures exists i :: 0 <= i < |history| && history[i].pct == peak
    ensures forall i :: 0 <= i < |history| ==> history[i].pct <= peak
  {
    peak := history[0].pct;
    for i := 1 to |history|
      invariant exists k :: 0 <= k < i && history[k].pct == peak
      invariant forall k :: 0 <= k < i ==> history[k].pct <= peak
    {
      if history[i].pct > peak {
        peak := history[i].pct;
      }
    }
  }

  // ------------------------------------------------------------------- the window, step by step

  /** While old readings are being removed: an end of the readings, of the right size, that has
      lost only readings that are not kept, with the engine not burning in between. */
  ghost predicate Covers(cfg: Config, rs: seq<Reading>, history: seq<Reading>) {
    && 0 < |history| <= MAX_SAMPLES && IsEnd(rs, history) && InOrder(rs)
    && KeptFrom(cfg, rs, |rs| - |history|) && QuietFrom(cfg, rs, |rs| - |history|)
  }

  ghost predicate KeptFrom(cfg: Config, rs: seq<Reading>, s: nat) {
    forall i :: 0 <= i < |rs| && Keeps(cfg, rs, i) ==> s <= i
  }

  predicate QuietFrom(cfg: Config, rs: seq<Reading>, s: nat) {
    forall k :: s < k < |rs| - 1 ==> !cfg.Restarts(rs[k])
  }

  lemma KeptBefore(cfg: Config, rs: seq<Reading>, r: Reading, i: nat)
    requires i < |rs| && Last(rs).at <= r.at && Keeps(cfg, rs + [r], i)
    ensures Keeps(cfg, rs, i)
  {
    assert forall k :: i < k < |rs| ==> rs[k] == (rs + [r])[k];
  }

  lemma LongerEnd(rs: seq<Reading>, r: Reading, history: seq<Reading>)
    requires IsEnd(rs, history)
    ensures IsEnd(rs + [r], history + [r])
  {
    var all, h := rs + [r], history + [r];
    forall i | 0 <= i < |h| ensures h[i] == all[|all| - |h| + i] {
      assert i < |history| ==> history[i] == rs[|rs| - |history| + i];
    }
  }

  lemma ShorterEnd(rs: seq<Reading>, history: seq<Reading>)
    requires IsEnd(rs, history) && history != []
    ensures IsEnd(rs, history[1..])
  {
    var h := history[1..];
    forall i | 0 <= i < |h| ensures h[i] == rs[|rs| - |h| + i] {
      assert history[i + 1] == rs[|rs| - |history| + (i + 1)];
    }
  }

  lemma AppendedEnd(rs: seq<Reading>, r: Reading, before: seq<Reading>, after: seq<Reading>)
    requires IsEnd(rs, before)
    requires after == if |before| + 1 > MAX_SAMPLES then (before + [r])[1..] else before + [r]
    ensures IsEnd(rs + [r], after)
  {
    LongerEnd(rs, r, before);
    ShorterEnd(rs + [r], before + [r]);
  }

  lemma AppendedKept(cfg: Config, rs: seq<Reading>, r: Reading, before: seq<Reading>, s: nat)
    requires IsWindow(cfg, rs, before) && (rs != [] ==> Last(rs).at <= r.at)
    requires s == |rs| - |before| || s == |rs| + 1 - MAX_SAMPLES
    ensures KeptFrom(cfg, rs + [r], s)
  {
    forall i | 0 <= i < |rs| + 1 && Keeps(cfg, rs + [r], i)
      ensures s <= i
    {
      if i < |rs| {
        KeptBefore(cfg, rs, r, i);
      }
    }
  }

  lemma AppendedQuiet(cfg: Config, rs: seq<Reading>, r: Reading, before: seq<Reading>, s: nat)
    requires rs != [] && IsWindow(cfg, rs, before) && |rs| - |before| <= s
    ensures QuietFrom(cfg, rs + [r], s)
  {
    assert Keeps(cfg, rs, |rs| - |before|);
    forall k | s < k < |rs|
      ensures !cfg.Restarts((rs + [r])[k])
    {
      assert !cfg.Restarts(rs[k]);
    }
  }

  lemma Appended(cfg: Config, rs: seq<Reading>, r: Reading, before: seq<Reading>, after: seq<Reading>)
    requires InOrder(rs) && IsWindow(cfg, rs, before) && (rs != [] ==> Last(rs).at <= r.at)
    requires after == if |before| + 1 > MAX_SAMPLES then (before + [r])[1..] else before + [r]
    requires |before| <= MAX_SAMPLES
    ensures Covers(cfg, rs + [r], after)
  {
    var s := |rs| + 1 - |after|;
    AppendedEnd(rs, r, before, after);
    AppendedKept(cfg, rs, r, before, s);
    if rs != [] {
      AppendedQuiet(cfg, rs, r, before, s);
    }
    assert Front(rs + [r]) == rs;
  }

  lemma WindowIsSmall(cfg: Config, rs: seq<Reading>, history: seq<Reading>)
    requires IsWindow(cfg, rs, history)
    ensures |history| <= MAX_SAMPLES
  {
    if rs != [] {
      assert Keeps(cfg, rs, |rs| - |history|);
    }
  }

  lemma TooOld(cfg: Config, rs: seq<Reading>, history: seq<Reading>)
    requires Covers(cfg, rs, history) && history[0].at < Last(rs).at - cfg.Window()
    ensures Covers(cfg, rs, history[1..])
  {
    var s := |rs| - |history|;
    assert history[0] == rs[s] && !Keeps(cfg, rs, s);
    assert Last(history) == Last(rs);
  }

  lemma Evicted(cfg: Config, rs: seq<Reading>, history: seq<Reading>)
    requires Covers(cfg, rs, history) && history[0].at >= Last(rs).at - cfg.Window()
    requires !cfg.Restarts(Last(rs))
    ensures IsWindow(cfg, rs, history)
  {
    var s := |rs| - |history|;
    assert history[0] == rs[s];
    forall i | s <= i < |rs|
      ensures Keeps(cfg, rs, i)
    {
      Ordered(rs, s, i);
    }
  }

  /** A reading that restarts the detector is all that it looks back at. */
  lemma Restarted(cfg: Config, rs: seq<Reading>, r: Reading)
    requires cfg.Restarts(r)
    ensures IsWindow(cfg, rs + [r], [r])
  {
    var all := rs + [r];
    assert all[|rs|] == r;
    forall i | 0 <= i < |all|
      ensures Keeps(cfg, all, i) <==> |rs| <= i
    {
      assert i < |rs| ==> cfg.Restarts(all[|rs|]);
    }
  }

  lemma AlertUnfolds(cfg: Config, rs: seq<Reading>, r: Reading)
    ensures Alerts(cfg, rs + [r])
            <==> cfg.dropPct > 0.0 && !cfg.Restarts(r) && Dropped(cfg, rs + [r])
                 && !Muted(cfg, LastAlert(cfg, rs), r.at)
    ensures LastAlert(cfg, rs + [r]) == if Alerts(cfg, rs + [r]) then Some(r.at) else LastAlert(cfg, rs)
  {
    assert Front(rs + [r]) == rs && Last(rs + [r]) == r;
  }

  lemma {:induction false} DroppedExactly(cfg: Config, rs: seq<Reading>, from: nat := 0)
    requires from <= |rs|
    ensures Dropped(cfg, rs, from) <==> exists i :: from <= i < |rs| && Above(cfg, rs, i)
    decreases |rs| - from
  {
    if from < |rs| {
      DroppedExactly(cfg, rs, from + 1);
    }
  }

  lemma LoneReading(cfg: Config, rs: seq<Reading>, history: seq<Reading>)
    requires cfg.dropPct > 0.0 && rs != [] && IsWindow(cfg, rs, history) && |history| < 2
    ensures !Dropped(cfg, rs)
  {
    DroppedExactly(cfg, rs);
  }

  lemma PeakDecides(cfg: Config, rs: seq<Reading>, history: seq<Reading>, peak: real)
    requires rs != [] && IsWindow(cfg, rs, history)
    requires exists i :: 0 <= i < |history| && history[i].pct == peak
    requires forall i :: 0 <= i < |history| ==> history[i].pct <= peak
    ensures peak - Last(rs).pct >= cfg.dropPct <==> Dropped(cfg, rs)
    ensures peak - Last(rs).pct >= cfg.dropPct ==> DropIs(cfg, rs, peak - Last(rs).pct)
  {
    DroppedExactly(cfg, rs);
    var s := |rs| - |history|;
    var at :| 0 <= at < |history| && history[at].pct == peak;
    assert rs[s + at] == history[at] && Keeps(cfg, rs, s + at);
    forall i | 0 <= i < |rs| && Keeps(cfg, rs, i)
      ensures Rise(rs, i) <= peak - Last(rs).pct
    {
      assert rs[i] == history[i - s];
    }
    if peak - Last(rs).pct >= cfg.dropPct {
      assert Above(cfg, rs, s + at);
    }
  }

  // ------------------------------------------------------------------------------ hysteresis

  /** The status after the first `n` readings. */
  function StatusAfter(cfg: Config, rs: seq<Reading>, n: nat): Status
    requires n <= |rs|
  {
    StatusOf(cfg, rs[..n])
  }

  lemma StatusStep(cfg: Config, rs: seq<Reading>, n: nat)
    requires n < |rs|
    ensures StatusAfter(cfg, rs, n + 1) == Classify(cfg, StatusAfter(cfg, rs, n), rs[n].pct)
  {
    assert rs[..n + 1][..n] == rs[..n];
  }

  /** The message about the level that reading `i` causes. */
  function EventAt(cfg: Config, rs: seq<Reading>, i: nat): Option<Event>
    requires i < |rs|
  {
    LevelEvent(cfg, rs[..i + 1])
  }

  lemma EventUnfolds(cfg: Config, rs: seq<Reading>, i: nat)
    requires i < |rs|
    ensures EventAt(cfg, rs, i).Some? && EventAt(cfg, rs, i).value.Level?
            ==> var e := EventAt(cfg, rs, i).value;
                && e.status == StatusAfter(cfg, rs, i + 1) && e.previous == StatusAfter(cfg, rs, i)
                && e.status != e.previous && (e.status.Warn? ==> !Low(e.previous))
  {
    assert Front(rs[..i + 1]) == rs[..i];
  }

  predicate LevelAlertAt(cfg: Config, rs: seq<Reading>, i: nat, status: Status)
    requires i < |rs|
  {
    EventAt(cfg, rs, i).Some? && EventAt(cfg, rs, i).value.Level? && EventAt(cfg, rs, i).value.status == status
  }

  /** A level once low stays low until a reading clears the warning threshold by the margin; once
      critical it stays critical until a reading clears the critical threshold by the margin. */
  lemma {:induction false} LowHolds(cfg: Config, rs: seq<Reading>, i: nat, j: nat)
    requires i <= j <= |rs|
    ensures Low(StatusAfter(cfg, rs, i)) && (forall k :: i <= k < j ==> rs[k].pct < cfg.warn + cfg.Margin())
            ==> Low(StatusAfter(cfg, rs, j))
    ensures StatusAfter(cfg, rs, i).Critical? && (forall k :: i <= k < j ==> rs[k].pct < cfg.crit + cfg.Margin())
            ==> StatusAfter(cfg, rs, j).Critical?
    decreases j
  {
    if i < j {
      LowHolds(cfg, rs, i, j - 1);
      StatusStep(cfg, rs, j - 1);
    }
  }

  /** Between two LOW alerts some reading cleared the warning threshold by the margin, and between
      two CRITICAL alerts some reading cleared the critical one. */
  lemma AlertsNeedRecovery(cfg: Config, rs: seq<Reading>, i: nat, j: nat)
    requires i < j < |rs|
    ensures LevelAlertAt(cfg, rs, i, Warn) && LevelAlertAt(cfg, rs, j, Warn)
            ==> exists k :: i < k < j && rs[k].pct >= cfg.warn && rs[k].pct >= cfg.warn + cfg.hysteresis
    ensures LevelAlertAt(cfg, rs, i, Critical) && LevelAlertAt(cfg, rs, j, Critical)
            ==> exists k :: i < k < j && rs[k].pct >= cfg.crit && rs[k].pct >= cfg.crit + cfg.hysteresis
  {
    EventUnfolds(cfg, rs, i);
    EventUnfolds(cfg, rs, j);
    LowHolds(cfg, rs, i + 1, j);
  }

  /** The good news about the level that reading `i` causes. */
  predicate RecoveryAt(cfg: Config, rs: seq<Reading>, i: nat, status: Status)
    requires i < |rs|
  {
    EventAt(cfg, rs, i).Some? && EventAt(cfg, rs, i).value.Recovered? && EventAt(cfg, rs, i).value.status == status
  }

  /** What each reading says, from the levels alone. With a positive margin and the thresholds the
      right way round, a reading says "critical", "low", "rising" or "replenished" exactly when it
      turns one of the two latches. */
  lemma MessagesExactlyWhen(cfg: Config, rs: seq<Reading>, i: nat)
    requires cfg.hysteresis > 0.0 && cfg.crit <= cfg.warn && i < |rs|
    ensures var before, after := rs[..i], rs[..i + 1];
            var wasLow, isLow := LatchedAt(cfg, before, cfg.warn), LatchedAt(cfg, after, cfg.warn);
            var wasCritical, isCritical := LatchedAt(cfg, before, cfg.crit), LatchedAt(cfg, after, cfg.crit);
            && (LevelAlertAt(cfg, rs, i, Critical) <==> isCritical && !wasCritical)
            && (LevelAlertAt(cfg, rs, i, Warn) <==> isLow && !wasLow && !isCritical)
            && (RecoveryAt(cfg, rs, i, Warn) <==> wasCritical && !isCritical && isLow)
            && (RecoveryAt(cfg, rs, i, Full) <==> wasLow && !isLow)
  {
    StatusIsLatch(cfg, rs[..i]);
    StatusIsLatch(cfg, rs[..i + 1]);
    assert Front(rs[..i + 1]) == rs[..i];
    StatusStep(cfg, rs, i);
  }

  /** Some reading was at or below the threshold, and none since has cleared it by the margin. */
  ghost predicate LatchedAt(cfg: Config, rs: seq<Reading>, threshold: real) {
    Latched(rs, threshold, threshold + cfg.hysteresis)
  }

  /** Some reading was at or below `on`, and none since has reached `off`. */
  ghost predicate Latched(rs: seq<Reading>, on: real, off: real) {
    exists k :: 0 <= k < |rs| && LatchedSince(rs, k, on, off)
  }

  ghost predicate LatchedSince(rs: seq<Reading>, k: nat, on: real, off: real)
    requires k < |rs|
  {
    rs[k].pct <= on && forall m :: k < m < |rs| ==> rs[m].pct < off
  }

  lemma LatchedStep(rs: seq<Reading>, on: real, off: real)
    requires rs != []
    ensures Latched(rs, on, off)
            <==> Last(rs).pct <= on || (Latched(Front(rs), on, off) && Last(rs).pct < off)
  {
    var n := |rs| - 1;
    if Latched(rs, on, off) {
      var k :| 0 <= k < |rs| && LatchedSince(rs, k, on, off);
      if k < n {
        assert LatchedSince(Front(rs), k, on, off);
      }
    }
    if Last(rs).pct <= on {
      assert LatchedSince(rs, n, on, off);
    } else if Latched(Front(rs), on, off) && Last(rs).pct < off {
      var k :| 0 <= k < n && LatchedSince(Front(rs), k, on, off);
      assert forall m :: k < m < n ==> rs[m] == Front(rs)[m];
      assert LatchedSince(rs, k, on, off);
    }
  }

  /** With a positive margin the status has a description that needs no memory of the status:
      critical is a latch between the critical threshold and its margin; and, with the thresholds
      the right way round, low is a latch between the warning threshold and its margin. */
  lemma {:induction false} StatusIsLatch(cfg: Config, rs: seq<Reading>)
    requires cfg.hysteresis > 0.0
    ensures StatusOf(cfg, rs).Critical? <==> Latched(rs, cfg.crit, cfg.crit + cfg.hysteresis)
    ensures cfg.crit <= cfg.warn
            ==> (Low(StatusOf(cfg, rs)) <==> Latched(rs, cfg.warn, cfg.warn + cfg.hysteresis))
    decreases |rs|
  {
    if rs != [] {
      StatusIsLatch(cfg, Front(rs));
      LatchedStep(rs, cfg.crit, cfg.crit + cfg.hysteresis);
      LatchedStep(rs, cfg.warn, cfg.warn + cfg.hysteresis);
      if cfg.crit <= cfg.warn {
        StatusIsLow(cfg, rs);
      }
    }
  }

  lemma StatusIsLow(cfg: Config, rs: seq<Reading>)
    requires rs != [] && cfg.hysteresis > 0.0 && cfg.crit <= cfg.warn
    ensures Low(StatusOf(cfg, rs))
            <==> Last(rs).pct <= cfg.warn
                 || (Low(StatusOf(cfg, Front(rs))) && Last(rs).pct < cfg.warn + cfg.hysteresis)
  {
  }

  lemma StatusAppend(cfg: Config, rs: seq<Reading>, r: Reading)
    ensures StatusOf(cfg, rs + [r]) == Classify(cfg, StatusOf(cfg, rs), r.pct)
  {
    assert Front(rs + [r]) == rs;
  }

  function Steady(at: real, pct: real, n: nat): (rs: seq<Reading>)
    ensures |rs| == n
  {
    if n == 0 then [] else Steady(at, pct, n - 1) + [Reading(at, pct, false)]
  }

  /** Without a margin, a level that rests exactly on the critical threshold is critical at every
      other reading: each second one alerts and each one between says "rising". */
  lemma NoMarginChatters(cfg: Config, at: real, n: nat)
    requires cfg.hysteresis <= 0.0
    ensures StatusOf(cfg, Steady(at, cfg.crit, n + 1)).Critical? <==> !StatusOf(cfg, Steady(at, cfg.crit, n)).Critical?
  {
    StatusAppend(cfg, Steady(at, cfg.crit, n), Reading(at, cfg.crit, false));
  }

  /** So does one that rests exactly on the warning threshold: every second reading says "low" and
      each one between says "replenished". */
  lemma NoMarginChattersAtWarn(cfg: Config, at: real, n: nat)
    requires cfg.hysteresis <= 0.0 && cfg.crit <= cfg.warn
    ensures Low(StatusOf(cfg, Steady(at, cfg.warn, n + 1))) <==> !Low(StatusOf(cfg, Steady(at, cfg.warn, n)))
  {
    StatusAppend(cfg, Steady(at, cfg.warn, n), Reading(at, cfg.warn, false));
    NeverOddlyCritical(cfg, at, n);
  }

  /** A level on the warning threshold is critical only where the two thresholds are one. */
  lemma {:induction false} NeverOddlyCritical(cfg: Config, at: real, n: nat)
    requires cfg.crit <= cfg.warn
    ensures StatusOf(cfg, Steady(at, cfg.warn, n)).Critical? ==> cfg.crit == cfg.warn
  {
    if n > 0 {
      NeverOddlyCritical(cfg, at, n - 1);
      StatusAppend(cfg, Steady(at, cfg.warn, n - 1), Reading(at, cfg.warn, false));
    }
  }

  /** One warning for a level that oscillates on the line: low is the latch between the warning
      threshold and its margin, for every history, exactly when the margin is positive and the
      thresholds are the right way round. */
  lemma WarnLatchExactlyWhen(cfg: Config)
    ensures var off := if cfg.hysteresis > 0.0 then cfg.warn + cfg.hysteresis else cfg.warn;
            (forall rs :: StatusOf(cfg, rs).Warn? || StatusOf(cfg, rs).Critical? <==> Latched(rs, cfg.warn, off))
            <==> cfg.hysteresis > 0.0 && cfg.crit <= cfg.warn
  {
    if cfg.crit > cfg.warn {
      var rs := Steady(0.0, cfg.crit, 1);
      StatusAppend(cfg, [], Reading(0.0, cfg.crit, false));
      assert Steady(0.0, cfg.crit, 0) + [Reading(0.0, cfg.crit, false)] == [] + [Reading(0.0, cfg.crit, false)];
      assert rs[0].pct == cfg.crit;
      assert !Latched(rs, cfg.warn, cfg.warn + cfg.Margin());
    } else if cfg.hysteresis > 0.0 {
      forall rs
        ensures Low(StatusOf(cfg, rs)) <==> Latched(rs, cfg.warn, cfg.warn + cfg.Margin())
      {
        StatusIsLatch(cfg, rs);
      }
    } else {
      var rs := Steady(0.0, cfg.warn, 2);
      NoMarginChattersAtWarn(cfg, 0.0, 0);
      NoMarginChattersAtWarn(cfg, 0.0, 1);
      assert LatchedSince(rs, 1, cfg.warn, cfg.warn + cfg.Margin());
    }
  }

  /** Critical is that latch, for every history, exactly when the margin is positive. */
  lemma LatchExactlyWhen(cfg: Config)
    ensures var off := if cfg.hysteresis > 0.0 then cfg.crit + cfg.hysteresis else cfg.crit;
            (forall rs :: StatusOf(cfg, rs).Critical? <==> Latched(rs, cfg.crit, off))
            <==> cfg.hysteresis > 0.0
  {
    if cfg.hysteresis > 0.0 {
      forall rs
        ensures StatusOf(cfg, rs).Critical? <==> Latched(rs, cfg.crit, cfg.crit + cfg.Margin())
      {
        StatusIsLatch(cfg, rs);
      }
    } else {
      var rs := Steady(0.0, cfg.crit, 2);
      NoMarginChatters(cfg, 0.0, 0);
      NoMarginChatters(cfg, 0.0, 1);
      assert LatchedSince(rs, 1, cfg.crit, cfg.crit + cfg.Margin());
    }
  }

  // ------------------------------------------------------------------------------- reminders

  /** Who is low has been told so, and, where reminders are on, less than a period ago. */
  lemma {:induction false} LowIsRecentlyTold(cfg: Config, rs: seq<Reading>)
    requires rs != [] && Low(StatusOf(cfg, rs))
    ensures LastNote(cfg, rs).Some?
    ensures cfg.renotifyHours > 0.0 ==> Last(rs).at - LastNote(cfg, rs).value < cfg.renotifyHours * 3600.0
    decreases |rs|
  {
    if StatusOf(cfg, Front(rs)) == StatusOf(cfg, rs) {
      LowIsRecentlyTold(cfg, Front(rs));
    }
  }

  lemma EventsAgree(cfg: Config, rs: seq<Reading>, n: nat, k: nat)
    requires k < n <= |rs|
    ensures EventAt(cfg, rs[..n], k) == EventAt(cfg, rs, k)
  {
    assert rs[..n][..k + 1] == rs[..k + 1];
  }

  /** The last message is the last: it caused a message, and no later reading did. */
  lemma {:induction false} LastNoteIsLast(cfg: Config, rs: seq<Reading>) returns (i: nat)
    requires LastNote(cfg, rs).Some?
    ensures i < |rs| && EventAt(cfg, rs, i).Some? && LastNote(cfg, rs).value == rs[i].at
    ensures forall k :: i < k < |rs| ==> EventAt(cfg, rs, k).None?
    decreases |rs|
  {
    var n := |rs| - 1;
    assert rs[..n + 1] == rs;
    if LevelEvent(cfg, rs).Some? {
      i := n;
    } else {
      i := LastNoteIsLast(cfg, Front(rs));
      EventsAgree(cfg, rs, n, i);
      forall k | i < k < |rs|
        ensures EventAt(cfg, rs, k).None?
      {
        if k < n {
          EventsAgree(cfg, rs, n, k);
        }
      }
    }
  }

  /** A reminder never follows any message about the level by less than a period. */
  lemma RemindersAreApart(cfg: Config, rs: seq<Reading>, i: nat, j: nat)
    requires InOrder(rs) && i < j < |rs|
    requires EventAt(cfg, rs, i).Some? && EventAt(cfg, rs, j).Some? && EventAt(cfg, rs, j).value.Reminder?
    ensures rs[j].at - rs[i].at >= cfg.renotifyHours * 3600.0
  {
    var before := Front(rs[..j + 1]);
    assert before == rs[..j];
    var k := LastNoteIsLast(cfg, before);
    EventsAgree(cfg, rs, j, i);
    Ordered(rs, i, k);
  }

  // ----------------------------------------------------------------------------------- drops

  ghost predicate AlertAt(cfg: Config, rs: seq<Reading>, i: nat)
    requires i < |rs|
  {
    Alerts(cfg, rs[..i + 1])
  }

  /** A reading that the last one is compared with: one of the last 2048, within the window of at
      least one minute, with the engine, where that matters, not burning fuel at any reading
      after it. */
  ghost predicate InView(cfg: Config, rs: seq<Reading>, i: nat)
    requires i < |rs|
  {
    && |rs| - i <= 2048
    && Last(rs).at - rs[i].at <= (if cfg.windowMinutes > 1 then 60.0 * cfg.windowMinutes as real else 60.0)
    && (cfg.onlyWhenStopped ==> forall k :: i < k < |rs| ==> !rs[k].burning)
  }

  /** And it was at least the threshold higher. */
  ghost predicate Cause(cfg: Config, rs: seq<Reading>, i: nat)
    requires i < |rs|
  {
    InView(cfg, rs, i) && rs[i].pct - Last(rs).pct >= cfg.dropPct
  }

  ghost predicate HasCause(cfg: Config, rs: seq<Reading>) {
    exists i :: 0 <= i < |rs| && Cause(cfg, rs, i)
  }

  ghost predicate LargestDrop(cfg: Config, rs: seq<Reading>, drop: real)
    requires rs != []
  {
    && (exists i :: 0 <= i < |rs| && Cause(cfg, rs, i) && rs[i].pct - Last(rs).pct == drop)
    && (forall i :: 0 <= i < |rs| && InView(cfg, rs, i) ==> rs[i].pct - Last(rs).pct <= drop)
  }

  lemma KeepsIsInView(cfg: Config, rs: seq<Reading>, i: nat)
    requires i < |rs|
    ensures Keeps(cfg, rs, i) <==> InView(cfg, rs, i)
    ensures Above(cfg, rs, i) <==> Cause(cfg, rs, i)
  {
  }

  /** An alert is raised exactly for a cause, with the engine, where that matters, not burning fuel
      now, unless an alert less than a window ago mutes it; and the drop that it reports is the
      largest in view. */
  lemma AlertsExactlyWhen(cfg: Config, rs: seq<Reading>)
    requires rs != [] && cfg.dropPct > 0.0
    ensures var last := LastAlert(cfg, Front(rs));
            var window := if cfg.windowMinutes > 1 then 60.0 * cfg.windowMinutes as real else 60.0;
            Alerts(cfg, rs)
            <==> && !(cfg.onlyWhenStopped && Last(rs).burning)
                 && (last.None? || last.value == 0.0 || Last(rs).at - last.value >= window)
                 && HasCause(cfg, rs)
    ensures forall drop :: DropIs(cfg, rs, drop) ==> LargestDrop(cfg, rs, drop)
  {
    DroppedExactly(cfg, rs);
    forall i | 0 <= i < |rs|
      ensures (Keeps(cfg, rs, i) <==> InView(cfg, rs, i)) && (Above(cfg, rs, i) <==> Cause(cfg, rs, i))
    {
      KeepsIsInView(cfg, rs, i);
    }
  }

  /** The remembered alert is the last one: no later reading raised one. */
  lemma {:induction false} LastAlertIsLast(cfg: Config, rs: seq<Reading>, i: nat) returns (k: nat)
    requires i < |rs| && AlertAt(cfg, rs, i)
    ensures i <= k < |rs| && AlertAt(cfg, rs, k) && LastAlert(cfg, rs) == Some(rs[k].at)
    ensures forall m :: k < m < |rs| ==> !AlertAt(cfg, rs, m)
    decreases |rs|
  {
    var n := |rs| - 1;
    assert rs[..n + 1] == rs;
    if Alerts(cfg, rs) {
      k := n;
    } else {
      AlertsAgree(cfg, rs, n, i);
      k := LastAlertIsLast(cfg, Front(rs), i);
      AlertsAgree(cfg, rs, n, k);
      forall m | k < m < |rs|
        ensures !AlertAt(cfg, rs, m)
      {
        if m < n {
          AlertsAgree(cfg, rs, n, m);
        }
      }
    }
  }

  lemma AlertsAgree(cfg: Config, rs: seq<Reading>, n: nat, k: nat)
    requires k < n <= |rs|
    ensures AlertAt(cfg, rs[..n], k) <==> AlertAt(cfg, rs, k)
  {
    assert rs[..n][..k + 1] == rs[..k + 1];
  }

  /** Reading `j` by itself calls for an alert. */
  ghost predicate CallsForAlert(cfg: Config, rs: seq<Reading>, j: nat)
    requires j < |rs|
  {
    cfg.dropPct > 0.0 && !(cfg.onlyWhenStopped && rs[j].burning) && HasCause(cfg, rs[..j + 1])
  }

  /** What one alert does to the next, exactly: a later reading with no alert in between that
      calls for one raises it if and only if it comes a window later, or the earlier alert was
      stamped 0.0, which mutes nothing. */
  lemma AlertMutesExactly(cfg: Config, rs: seq<Reading>, i: nat, j: nat)
    requires i < j < |rs| && AlertAt(cfg, rs, i) && forall k :: i < k < j ==> !AlertAt(cfg, rs, k)
    ensures AlertAt(cfg, rs, j)
            <==> CallsForAlert(cfg, rs, j)
                 && (rs[i].at == 0.0
                     || rs[j].at - rs[i].at >= if cfg.windowMinutes > 1 then 60.0 * cfg.windowMinutes as real else 60.0)
  {
    if cfg.dropPct > 0.0 { AlertsExactlyWhen(cfg, rs[..j + 1]); }
    assert Front(rs[..j + 1]) == rs[..j];
    AlertsAgree(cfg, rs, j, i);
    var k := LastAlertIsLast(cfg, rs[..j], i);
    AlertsAgree(cfg, rs, j, k);
  }

  /** Hence two alerts are at least a window apart, wherever none from the first up to the second
      is stamped 0.0. */
  lemma {:induction false} AlertsAreApart(cfg: Config, rs: seq<Reading>, i: nat, j: nat)
    requires InOrder(rs) && i < j < |rs| && AlertAt(cfg, rs, i) && AlertAt(cfg, rs, j)
    requires forall k :: i <= k < j && AlertAt(cfg, rs, k) ==> rs[k].at != 0.0
    ensures rs[j].at - rs[i].at >= if cfg.windowMinutes > 1 then 60.0 * cfg.windowMinutes as real else 60.0
  {
    AlertsAgree(cfg, rs, j, i);
    var k := LastAlertIsLast(cfg, rs[..j], i);
    AlertsAgree(cfg, rs, j, k);
    forall m | k < m < j ensures !AlertAt(cfg, rs, m) { AlertsAgree(cfg, rs, j, m); }
    AlertMutesExactly(cfg, rs, k, j);
    Ordered(rs, i, k);
  }

  /** An alert at time zero does not count as one: with readings 50 and 30 at time zero and 30 one
      second later, a threshold of 20 alerts twice. */
  lemma AlertAtZeroRepeats(cfg: Config)
    requires cfg.dropPct == 20.0
    ensures var rs := [Reading(0.0, 50.0, false), Reading(0.0, 30.0, false), Reading(1.0, 30.0, false)];
            InOrder(rs) && AlertAt(cfg, rs, 1) && AlertAt(cfg, rs, 2)
  {
    var rs := [Reading(0.0, 50.0, false), Reading(0.0, 30.0, false), Reading(1.0, 30.0, false)];
    var one, two := [rs[0]], [rs[0], rs[1]];
    assert Front(one) == [] && Front(two) == one && Front(rs) == two && rs[..2] == two && rs[..3] == rs;
    assert InOrder(one);
    assert two[0].at <= Last(two).at && InOrder(two);
    DroppedExactly(cfg, one);
    DroppedExactly(cfg, two);
    DroppedExactly(cfg, rs);
    assert LastAlert(cfg, one) == None;
    assert Above(cfg, two, 0);
    assert LastAlert(cfg, two) == Some(0.0);
    assert Above(cfg, rs, 0);
  }

  // --------------------------------------------------------------------------- a whole service

  datatype Poll = Poll(at: real, pct: Option<real>, burning: bool)

  /** The readings that count among the polls. */
  function Readings(cfg: Config, polls: seq<Poll>): seq<Reading> {
    if polls == [] then []
    else
      var p := polls[|polls| - 1];
      Readings(cfg, polls[..|polls| - 1]) + if cfg.Counts(p.pct) then [Reading(p.at, p.pct.value, p.burning)] else []
  }

  predicate PollsInOrder(polls: seq<Poll>) {
    |polls| <= 1 || (polls[|polls| - 2].at <= polls[|polls| - 1].at && PollsInOrder(polls[..|polls| - 1]))
  }

  lemma {:induction false} PollsPrefix(polls: seq<Poll>, n: nat)
    requires PollsInOrder(polls) && n <= |polls|
    ensures PollsInOrder(polls[..n])
    decreases |polls|
  {
    if n < |polls| {
      PollsPrefix(polls[..|polls| - 1], n);
      assert polls[..|polls| - 1][..n] == polls[..n];
    } else {
      assert polls[..n] == polls;
    }
  }

  /** No reading so far is later than poll `i`. */
  lemma ReadingsAreEarlier(cfg: Config, polls: seq<Poll>, i: nat)
    requires PollsInOrder(polls) && i < |polls|
    ensures var rs := Readings(cfg, polls[..i]); rs != [] ==> Last(rs).at <= polls[i].at
  {
    PollsPrefix(polls, i + 1);
    assert polls[..i + 1][..i] == polls[..i];
    ReadingsUpTo(cfg, polls[..i], polls[i].at);
  }

  lemma {:induction false} ReadingsUpTo(cfg: Config, polls: seq<Poll>, now: real)
    requires PollsInOrder(polls) && (polls != [] ==> polls[|polls| - 1].at <= now)
    ensures var rs := Readings(cfg, polls); rs != [] ==> Last(rs).at <= now
    decreases |polls|
  {
    if polls != [] {
      ReadingsUpTo(cfg, polls[..|polls| - 1], now);
    }
  }

  lemma ReadingsStep(cfg: Config, polls: seq<Poll>, i: nat)
    requires i < |polls|
    ensures var p := polls[i];
            Readings(cfg, polls[..i + 1])
            == if cfg.Counts(p.pct) then Readings(cfg, polls[..i]) + [Reading(p.at, p.pct.value, p.burning)]
               else Readings(cfg, polls[..i])
  {
    assert polls[..i + 1][..i] == polls[..i];
    assert Readings(cfg, polls[..i]) + [] == Readings(cfg, polls[..i]);
  }

  /** Whether the messages of poll `i` are the ones that the whole history up to it calls for. */
  ghost predicate SaysAt(cfg: Config, polls: seq<Poll>, i: nat, events: seq<Event>)
    requires i < |polls|
  {
    if cfg.Counts(polls[i].pct) then Says(cfg, Readings(cfg, polls[..i + 1]), events) else events == []
  }

  ghost predicate AllSaid(cfg: Config, polls: seq<Poll>, log: seq<seq<Event>>)
    requires |log| <= |polls|
  {
    var n := |log| - 1;
    log == [] || (AllSaid(cfg, polls, log[..n]) && SaysAt(cfg, polls, n, log[n]))
  }

  lemma {:induction false} AllSaidHolds(cfg: Config, polls: seq<Poll>, log: seq<seq<Event>>, i: nat)
    requires i < |log| <= |polls| && AllSaid(cfg, polls, log)
    ensures SaysAt(cfg, polls, i, log[i])
    decreases |log|
  {
    if i < |log| - 1 {
      AllSaidHolds(cfg, polls, log[..|log| - 1], i);
    }
  }

  lemma {:induction false} AllSaidStep(cfg: Config, polls: seq<Poll>, log: seq<seq<Event>>, events: seq<Event>)
    requires |log| < |polls| && AllSaid(cfg, polls, log) && SaysAt(cfg, polls, |log|, events)
    ensures AllSaid(cfg, polls, log + [events])
  {
    assert (log + [events])[..|log|] == log;
  }

  /** Runs a monitor over all polls: at each poll it says exactly what the history calls for. */
  method Monitor(cfg: Config, polls: seq<Poll>) returns (log: seq<seq<Event>>)
    requires PollsInOrder(polls)
    ensures |log| == |polls| && forall i :: 0 <= i < |polls| ==> SaysAt(cfg, polls, i, log[i])
  {
    log := RunMonitor(cfg, polls);
    forall i | 0 <= i < |polls|
      ensures SaysAt(cfg, polls, i, log[i])
    {
      AllSaidHolds(cfg, polls, log, i);
    }
  }

  method RunMonitor(cfg: Config, polls: seq<Poll>) returns (log: seq<seq<Event>>)
    requires PollsInOrder(polls)
    ensures |log| == |polls| && AllSaid(cfg, polls, log)
  {
    var monitor := new FuelMonitor(cfg);
    log := [];
    for i := 0 to |polls|
      invariant fresh(monitor) && monitor.cfg == cfg && monitor.Remembers(Readings(cfg, polls[..i]))
      invariant |log| == i && AllSaid(cfg, polls, log)
    {
      var events := monitor.TakePoll(polls, i);
      AllSaidStep(cfg, polls, log, events);
      log := log + [events];
    }
  }
}
