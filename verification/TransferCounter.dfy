/**
 The lifetime transfer count and the sliding 24-hour count over any number of starts, with the
 process killed and power lost at any point, the middle of a save included.

 A transfer to the generator is saved before anything else can run; a return to utility is
 saved in the background. The theorems need three things, and lemmas at the end show that each
 is needed and what happens without it: the save of a transfer does not fail (`Succeeds`); no
 background save is still on its way when a transfer is saved (`NotOvertaken`); and a process
 killed between the rename and the directory flush of a transfer's save is not restarted
 without a power loss (`NotHalfSaved`). Background saves may fail, stop anywhere and overtake
 one another.
 */
module TransferCounter {
  import opened Prelude
  import opened Store
  import opened Persistence

  /** A transfer whose save was cut short: its time, and how many steps of the save were done. */
  datatype Cut = Cut(at: int, steps: nat)

  /** One input snapshot's position, and when it was taken. */
  datatype Seen = Seen(position: Position, at: int)

  datatype World = World(
    up: bool,                  // the process is running
    lost: bool,                // power has been lost since it last ran
    store: StoreState,         // meaningful while up
    disk: Disk,
    queue: seq<Persisted>,     // background saves not yet on disk
    counted: seq<int>,         // the wall-clock time of every transfer ever counted
    cut: Option<Cut>,          // the transfer whose save the end of the last process cut short
    wall: int,                 // the latest wall-clock time used
    base: nat,                 // how many transfers had been counted when this process began
    loaded: Persisted,         // what this process began with
    seen: seq<Seen>)           // the positions of this process, from its start

  /** A process dies by itself or with the power; `steps` says how far a save gets, 4 being all. */
  datatype Event =
    | Sampled(inputs: Inputs, now: int, steps: nat)
    | SampledCut(inputs: Inputs, now: int, steps: nat, power: bool)
    | BackgroundSave(i: nat, steps: nat)
    | BackgroundSaveCut(i: nat, steps: nat, power: bool)
    | Killed
    | PowerLoss
    | Restart(now: int)                     // over the disk as the dead process left it
    | Boot(found: Persisted, now: int)      // over what a power loss left

  const Start := World(false, false, Load(ZEROES, 0), EMPTY_DISK, [], [], None, 0, 0, ZEROES, [])

  function Save(d: Disk, save: SaveRequest, steps: nat): Disk {
    match save
    case SaveNow(p) => SaveSteps(d, p, steps)
    case _ => d
  }

  /** A new process that has loaded `found`. The transfer whose save was cut has been counted
      exactly if it is in there. */
  function Started(w: World, found: Persisted, disk: Disk, now: int): World {
    var counted := if w.cut.Some? && found.lifetime > |w.counted| then w.counted + [w.cut.value.at] else w.counted;
    w.(up := true, lost := false, store := Load(found, now), disk := disk, queue := [],
       counted := counted, cut := None, wall := now, base := |counted|, loaded := found,
       seen := [Seen(UnknownPosition, now)])
  }

  ghost function Step(w: World, e: Event): World {
    match e
    case Sampled(inputs, now, steps) =>
      if !w.up then w
      else
        var save := SaveFor(w.store, inputs, now);
        w.(store := ApplyInputs(w.store, inputs, now), wall := now,
           disk := Save(w.disk, save, steps),
           queue := if save.SaveLater? then w.queue + [save.p] else w.queue,
           counted := if save.SaveNow? then w.counted + [now] else w.counted,
           seen := w.seen + [Seen(inputs.position, now)])
    case SampledCut(inputs, now, steps, power) =>
      if !w.up then w
      else
        var save := SaveFor(w.store, inputs, now);
        w.(up := false, lost := power, wall := now, queue := [],
           disk := Save(w.disk, save, steps),
           cut := if save.SaveNow? then Some(Cut(now, steps)) else None)
    case BackgroundSave(i, steps) =>
      if !w.up || i >= |w.queue| then w
      else w.(disk := SaveSteps(w.disk, w.queue[i], steps), queue := RemoveAt(w.queue, i))
    case BackgroundSaveCut(i, steps, power) =>
      if !w.up || i >= |w.queue| then w
      else w.(up := false, lost := power, queue := [], cut := None, disk := SaveSteps(w.disk, w.queue[i], steps))
    case Killed => if w.up then w.(up := false, lost := false, queue := [], cut := None) else w
    case PowerLoss => if w.up then w.(up := false, lost := true, queue := [], cut := None) else w.(lost := true)
    case Restart(now) => if w.up || w.lost then w else Started(w, OnDisk(w), w.disk, now)
    case Boot(found, now) =>
      if w.up || !w.lost || !MayReload(w.disk, found) then w else Started(w, found, AfterPowerLoss(found), now)
  }

  /** What a load finds. */
  function OnDisk(w: World): Persisted {
    LoadEntry(w.disk.entry)
  }

  ghost function Run(w: World, es: seq<Event>): World
    decreases |es|
  {
    if es == [] then w else Run(Step(w, es[0]), es[1..])
  }

  ghost predicate Along(w: World, es: seq<Event>, ok: (World, Event) -> bool)
    decreases |es|
  {
    es == [] || (ok(w, es[0]) && Along(Step(w, es[0]), es[1..], ok))
  }

  /** The event makes a save that cannot wait. */
  predicate Critical(w: World, inputs: Inputs) {
    TransferredToGenerator(w.store.snap.position, inputs.position)
  }

  /** The save of a transfer that does not end with the process runs to its end. */
  ghost predicate Succeeds(w: World, e: Event) {
    e.Sampled? && w.up && Critical(w, e.inputs) ==> e.steps >= 4
  }

  /** No background save is on its way when a transfer is saved. */
  ghost predicate NotOvertaken(w: World, e: Event) {
    (e.Sampled? || e.SampledCut?) && w.up && Critical(w, e.inputs) ==> w.queue == []
  }

  /** A process that died between the rename and the directory flush of a transfer's save is not
      restarted over the disk that it left, before a power loss has settled what is on it. */
  predicate NotHalfSaved(w: World, e: Event) {
    e.Restart? && w.cut.Some? ==> w.cut.value.steps != 3
  }

  /** The wall clock does not go backwards. */
  ghost predicate Forward(w: World, e: Event) {
    e.Sampled? || e.SampledCut? || e.Restart? || e.Boot? ==> e.now >= w.wall
  }

  ghost predicate Regular(w: World, e: Event) {
    Succeeds(w, e) && NotOvertaken(w, e) && NotHalfSaved(w, e) && Forward(w, e)
  }

  // ---------------------------------------------------------------------------- times sorted

  predicate AtLeast(s: seq<int>, low: int) {
    forall i :: 0 <= i < |s| ==> low <= s[i]
  }

  predicate AtMost(s: seq<int>, high: int) {
    forall i :: 0 <= i < |s| ==> s[i] <= high
  }

  /** Every time is at most all those after it. */
  predicate Sorted(s: seq<int>) {
    s == [] || (AtLeast(s[1..], s[0]) && Sorted(s[1..]))
  }

  lemma {:induction false} SortedAppend(s: seq<int>, t: int)
    requires Sorted(s) && AtMost(s, t)
    ensures Sorted(s + [t]) && AtMost(s + [t], t)
  {
    if s == [] {
      assert [t][1..] == [] && s + [t] == [t];
    } else {
      assert (s + [t])[1..] == s[1..] + [t];
      SortedAppend(s[1..], t);
    }
  }

  /** On sorted times, dropping from the front keeps exactly the recent ones. */
  lemma {:induction false} EvictIsSince(s: seq<int>, cutoff: int)
    requires Sorted(s)
    ensures Evict(s, cutoff) == Since(s, cutoff)
  {
    if s != [] {
      EvictIsSince(s[1..], cutoff);
      if s[0] >= cutoff {
        assert forall i :: 0 < i < |s| ==> s[i] == s[1..][i - 1];
        AllSince(s, cutoff);
      }
    }
  }

  lemma {:induction false} AllSince(s: seq<int>, cutoff: int)
    requires AtLeast(s, cutoff)
    ensures Since(s, cutoff) == s
  {
    if s != [] {
      AllSince(s[1..], cutoff);
    }
  }

  lemma {:induction false} SinceAppend(s: seq<int>, t: int, cutoff: int)
    ensures Since(s + [t], cutoff) == Since(s, cutoff) + (if t >= cutoff then [t] else [])
  {
    if s == [] {
      assert [t][1..] == [] && s + [t] == [t];
    } else {
      var more := if t >= cutoff then [t] else [];
      assert (s + [t])[1..] == s[1..] + [t];
      SinceAppend(s[1..], t, cutoff);
      assert [s[0]] + (Since(s[1..], cutoff) + more) == [s[0]] + Since(s[1..], cutoff) + more;
    }
  }

  /** Narrowing a window twice is narrowing it once. */
  lemma {:induction false} SinceSince(s: seq<int>, early: int, late: int)
    requires early <= late
    ensures Since(Since(s, early), late) == Since(s, late)
  {
    if s != [] {
      SinceSince(s[1..], early, late);
      if s[0] >= early {
        var r := [s[0]] + Since(s[1..], early);
        assert r == Since(s, early) && r[1..] == Since(s[1..], early);
      } else {
        assert Since(s, early) == Since(s[1..], early);
        assert Since(s, late) == Since(s[1..], late);
      }
    }
  }

  lemma {:induction false} SinceAbove(s: seq<int>, cutoff: int, low: int)
    requires AtLeast(s, low)
    ensures AtLeast(Since(s, cutoff), low)
  {
    if s != [] {
      SinceAbove(s[1..], cutoff, low);
    }
  }

  lemma {:induction false} SinceSorted(s: seq<int>, cutoff: int)
    requires Sorted(s)
    ensures Sorted(Since(s, cutoff))
  {
    if s != [] {
      var rest := Since(s[1..], cutoff);
      SinceSorted(s[1..], cutoff);
      SinceAbove(s[1..], cutoff, s[0]);
      if s[0] >= cutoff {
        var r := [s[0]] + rest;
        assert r == Since(s, cutoff) && r[1..] == rest;
      } else {
        assert Since(s, cutoff) == rest;
      }
    }
  }

  // ------------------------------------------------------------------------------- invariant

  /** The time of the last transfer; 0 before the first. */
  function LastOf(counted: seq<int>): int {
    if counted == [] then 0 else counted[|counted| - 1]
  }

  /** A saved state that agrees with the counted transfers: the same number, the time of the last
      one, and the recent ones from some moment on that is at least a window before `wall`. */
  ghost predicate Describes(p: Persisted, counted: seq<int>, wall: int) {
    && p.lifetime == |counted| && p.lastToGenerator == LastOf(counted)
    && exists from :: from <= wall - ROLLING_WINDOW_S && p.recent == Since(counted, from)
  }

  /** Whatever may be reloaded from the disk describes these transfers. */
  ghost predicate AllDescribe(d: Disk, counted: seq<int>, wall: int) {
    forall p :: MayReload(d, p) ==> Describes(p, counted, wall)
  }

  ghost predicate Good(w: World) {
    && Sorted(w.counted) && AtMost(w.counted, w.wall)
    && (w.cut.Some? ==> !w.up && w.cut.value.at == w.wall)
    && (if w.up then GoodUp(w) else GoodDown(w))
  }

  /** While the process runs: its counts are recounts, and whatever may be reloaded or is about to
      be written describes the transfers counted. */
  ghost predicate GoodUp(w: World) {
    && w.cut.None? && !w.lost
    && w.store.snap.lifetime == |w.counted| && w.store.snap.lastToGenerator == LastOf(w.counted)
    && w.store.recent == Since(w.counted, w.wall - ROLLING_WINDOW_S)
    && w.store.snap.count24h == |w.store.recent|
    && AllDescribe(w.disk, w.counted, w.wall)
    && (forall i :: 0 <= i < |w.queue| ==> Describes(w.queue[i], w.counted, w.wall))
  }

  /** While it does not: whatever may be reloaded describes the transfers counted, with or without
      the one whose save was cut; and unless that was between rename and directory flush, all of
      it does the one or all of it the other. */
  ghost predicate GoodDown(w: World) {
    if w.cut.None? then AllDescribe(w.disk, w.counted, w.wall)
    else
      var all := w.counted + [w.cut.value.at];
      && (w.cut.value.steps < 3 ==> AllDescribe(w.disk, w.counted, w.wall))
      && (w.cut.value.steps > 3 ==> AllDescribe(w.disk, all, w.wall))
      && forall p :: MayReload(w.disk, p) ==> Describes(p, w.counted, w.wall) || Describes(p, all, w.wall)
  }

  lemma DescribesLater(p: Persisted, counted: seq<int>, wall: int, later: int)
    requires Describes(p, counted, wall) && wall <= later
    ensures Describes(p, counted, later)
  {
  }

  /** A snapshot keeps the published window equal to the recount. */
  lemma WindowStep(w: World, inputs: Inputs, now: int)
    requires Good(w) && w.up && now >= w.wall
    ensures var counted := if Critical(w, inputs) then w.counted + [now] else w.counted;
            var s := ApplyInputs(w.store, inputs, now);
            && Sorted(counted) && AtMost(counted, now)
            && s.recent == Since(counted, now - ROLLING_WINDOW_S)
            && Describes(ToPersisted(s), counted, now)
  {
    var early, late := w.wall - ROLLING_WINDOW_S, now - ROLLING_WINDOW_S;
    SinceSorted(w.counted, early);
    if Critical(w, inputs) {
      SinceAppend(w.counted, now, early);
      var counted := w.counted + [now];
      SortedAppend(w.counted, now);
      SinceSorted(counted, early);
      EvictIsSince(w.store.recent + [now], late);
      SinceSince(counted, early, late);
    } else {
      EvictIsSince(w.store.recent, late);
      SinceSince(w.counted, early, late);
    }
  }

  lemma AllDescribeLater(d: Disk, counted: seq<int>, wall: int, later: int)
    requires AllDescribe(d, counted, wall) && wall <= later
    ensures AllDescribe(d, counted, later)
  {
    forall p | MayReload(d, p) ensures Describes(p, counted, later) {
      DescribesLater(p, counted, wall, later);
    }
  }

  /** A save of a state that describes the same transfers keeps a disk good, wherever it stops. */
  lemma SaveKeeps(d: Disk, p: Persisted, steps: nat, counted: seq<int>, wall: int)
    requires AllDescribe(d, counted, wall) && Describes(p, counted, wall)
    ensures AllDescribe(SaveSteps(d, p, steps), counted, wall)
  {
    forall q | MayReload(SaveSteps(d, p, steps), q) ensures Describes(q, counted, wall) {
      SaveAdds(d, p, steps, q);
    }
  }

  /** Once the save of a state has ended, the disk holds nothing else. */
  lemma SaveReplaces(d: Disk, p: Persisted, steps: nat, counted: seq<int>, wall: int)
    requires Describes(p, counted, wall) && steps >= 4
    ensures AllDescribe(SaveSteps(d, p, steps), counted, wall)
  {
    forall q | MayReload(SaveSteps(d, p, steps), q) ensures Describes(q, counted, wall) {
      SaveAdds(d, p, steps, q);
    }
  }

  lemma TransferStep(w: World, e: Event)
    requires Good(w) && Regular(w, e) && w.up && e.Sampled? && Critical(w, e.inputs)
    ensures Good(Step(w, e))
  {
    WindowStep(w, e.inputs, e.now);
    var new_ := ToPersisted(ApplyInputs(w.store, e.inputs, e.now));
    SaveReplaces(w.disk, new_, e.steps, w.counted + [e.now], e.now);
    var t := Step(w, e);
    assert SaveFor(w.store, e.inputs, e.now) == SaveNow(new_);
    assert t.disk == SaveSteps(w.disk, new_, e.steps) && t.queue == [] && t.counted == w.counted + [e.now];
  }

  lemma PlainStep(w: World, e: Event)
    requires Good(w) && Regular(w, e) && w.up && e.Sampled? && !Critical(w, e.inputs)
    ensures Good(Step(w, e))
  {
    WindowStep(w, e.inputs, e.now);
    AllDescribeLater(w.disk, w.counted, w.wall, e.now);
    var t := Step(w, e);
    assert t.disk == w.disk && t.counted == w.counted;
    forall i | 0 <= i < |t.queue| ensures Describes(t.queue[i], t.counted, t.wall) {
      if i < |w.queue| {
        DescribesLater(w.queue[i], w.counted, w.wall, e.now);
      }
    }
  }

  lemma CutStep(w: World, e: Event)
    requires Good(w) && Regular(w, e) && w.up && e.SampledCut?
    ensures Good(Step(w, e))
  {
    WindowStep(w, e.inputs, e.now);
    AllDescribeLater(w.disk, w.counted, w.wall, e.now);
    var t := Step(w, e);
    if Critical(w, e.inputs) {
      var new_ := ToPersisted(ApplyInputs(w.store, e.inputs, e.now));
      assert SaveFor(w.store, e.inputs, e.now) == SaveNow(new_);
      CutSave(w.disk, new_, e.steps, w.counted, w.counted + [e.now], e.now);
      assert t.disk == SaveSteps(w.disk, new_, e.steps) && t.cut == Some(Cut(e.now, e.steps));
    } else {
      assert t.disk == w.disk;
    }
  }

  /** What may be reloaded after a transfer's save of so many steps. */
  lemma CutSave(d: Disk, new_: Persisted, steps: nat, counted: seq<int>, all: seq<int>, now: int)
    requires AllDescribe(d, counted, now) && Describes(new_, all, now)
    ensures var after := SaveSteps(d, new_, steps);
            && (steps < 3 ==> AllDescribe(after, counted, now)) && (steps > 3 ==> AllDescribe(after, all, now))
            && forall p :: MayReload(after, p) ==> Describes(p, counted, now) || Describes(p, all, now)
  {
    forall p | MayReload(SaveSteps(d, new_, steps), p)
      ensures Describes(p, counted, now) || Describes(p, all, now)
      ensures steps < 3 ==> Describes(p, counted, now)
      ensures steps > 3 ==> Describes(p, all, now)
    {
      SaveAdds(d, new_, steps, p);
    }
  }

  lemma BackgroundStep(w: World, e: Event)
    requires Good(w) && w.up && (e.BackgroundSave? || e.BackgroundSaveCut?) && e.i < |w.queue|
    ensures Good(Step(w, e))
  {
    SaveKeeps(w.disk, w.queue[e.i], e.steps, w.counted, w.wall);
  }

  /** A new process that has loaded what describes the transfers counted, over a disk of which the
      same is true. */
  lemma StartedIsGood(w: World, found: Persisted, disk: Disk, now: int)
    requires Sorted(w.counted) && AtMost(w.counted, w.wall)
    requires (w.cut.Some? ==> w.cut.value.at == w.wall) && now >= w.wall
    requires var t := Started(w, found, disk, now);
             Describes(found, t.counted, w.wall) && AllDescribe(disk, t.counted, w.wall)
    ensures Good(Started(w, found, disk, now))
  {
    var t := Started(w, found, disk, now);
    if t.counted != w.counted { SortedAppend(w.counted, w.cut.value.at); }
    var from :| from <= w.wall - ROLLING_WINDOW_S && found.recent == Since(t.counted, from);
    SinceSince(t.counted, from, now - ROLLING_WINDOW_S);
    AllDescribeLater(disk, t.counted, w.wall, now);
  }

  lemma BootStep(w: World, e: Event)
    requires Good(w) && Regular(w, e) && !w.up && w.lost && e.Boot? && MayReload(w.disk, e.found)
    ensures Good(Step(w, e))
  {
    var t := Started(w, e.found, AfterPowerLoss(e.found), e.now);
    assert Describes(e.found, t.counted, w.wall);
    assert forall q :: MayReload(AfterPowerLoss(e.found), q) ==> q == e.found;
    StartedIsGood(w, e.found, AfterPowerLoss(e.found), e.now);
  }

  lemma RestartStep(w: World, e: Event)
    requires Good(w) && Regular(w, e) && !w.up && !w.lost && e.Restart?
    ensures Good(Step(w, e))
  {
    EntriesReload(w.disk);
    assert Describes(OnDisk(w), Started(w, OnDisk(w), w.disk, e.now).counted, w.wall);
    StartedIsGood(w, OnDisk(w), w.disk, e.now);
  }

  lemma GoodStep(w: World, e: Event)
    requires Good(w) && Regular(w, e)
    ensures Good(Step(w, e))
  {
    match e
    case Sampled(_, _, _) => if w.up { if Critical(w, e.inputs) { TransferStep(w, e); } else { PlainStep(w, e); } }
    case SampledCut(_, _, _, _) => if w.up { CutStep(w, e); }
    case BackgroundSave(i, _) => if w.up && i < |w.queue| { BackgroundStep(w, e); }
    case BackgroundSaveCut(i, _, _) => if w.up && i < |w.queue| { BackgroundStep(w, e); }
    case Killed =>
    case PowerLoss =>
    case Restart(_) => if !w.up && !w.lost { RestartStep(w, e); }
    case Boot(found, _) => if !w.up && w.lost && MayReload(w.disk, found) { BootStep(w, e); }
  }

  lemma {:induction false} GoodRun(w: World, es: seq<Event>)
    requires Good(w) && Along(w, es, Regular)
    ensures Good(Run(w, es))
    decreases |es|
  {
    if es != [] {
      GoodStep(w, es[0]);
      GoodRun(Step(w, es[0]), es[1..]);
    }
  }

  // -------------------------------------------------------------------------------- theorems

  lemma StartIsGood()
    ensures Good(Start)
  {
    forall p | MayReload(EMPTY_DISK, p) ensures Describes(p, [], 0) {
      assert p == ZEROES && ZEROES.recent == Since([], -ROLLING_WINDOW_S);
    }
  }

  /** Durability: over any starts, kills and power losses, whenever the process is up, what it
      serves as the lifetime count is the number of transfers counted, the time it serves with it
      is that of the last one, and a power loss or a kill at that very moment would bring back
      exactly the same. */
  lemma ServedCountIsDurable(es: seq<Event>, q: Persisted)
    requires Along(Start, es, Regular)
    ensures var w := Run(Start, es);
            w.up ==> && w.store.snap.lifetime == |w.counted| && w.store.snap.lastToGenerator == LastOf(w.counted)
                     && (MayReload(w.disk, q) || q == OnDisk(w) ==>
                           q.lifetime == w.store.snap.lifetime && q.lastToGenerator == w.store.snap.lastToGenerator)
  {
    StartIsGood();
    GoodRun(Start, es);
    EntriesReload(Run(Start, es).disk);
  }

  lemma {:induction false} CountedGrows(w: World, es: seq<Event>)
    ensures w.counted <= Run(w, es).counted
    decreases |es|
  {
    if es != [] {
      CountedGrows(Step(w, es[0]), es[1..]);
    }
  }

  lemma {:induction false} RunAppend(w: World, a: seq<Event>, b: seq<Event>)
    ensures Run(w, a + b) == Run(Run(w, a), b)
    decreases |a|
  {
    if a == [] {
      assert a + b == b;
    } else {
      assert (a + b)[0] == a[0] && (a + b)[1..] == a[1..] + b;
      RunAppend(Step(w, a[0]), a[1..], b);
    }
  }

  lemma {:induction false} AlongPrefix(w: World, a: seq<Event>, b: seq<Event>, ok: (World, Event) -> bool)
    requires Along(w, a + b, ok)
    ensures Along(w, a, ok)
    decreases |a|
  {
    if a != [] {
      assert (a + b)[0] == a[0] && (a + b)[1..] == a[1..] + b;
      AlongPrefix(Step(w, a[0]), a[1..], b, ok);
    }
  }

  /** A client never sees the count go backwards: of any two moments at which the process is up,
      in the same process or starts apart, the later one serves at least as much; below 2^32 the two
      registers of the count carry it in full. */
  lemma ServedCountIsMonotone(before: seq<Event>, after: seq<Event>, id: Identity, mono: real, wall: int)
    requires Along(Start, before + after, Regular)
    ensures var w, v := Run(Start, before), Run(Start, before + after);
            w.up && v.up ==> w.store.snap.lifetime <= v.store.snap.lifetime
    ensures var v := Run(Start, before + after);
            v.up && v.store.snap.lifetime < 0x1_0000_0000 ==>
              ReadRegister(v.store.snap, id, ADDR_TRANSFER_COUNT_LIFETIME, mono, wall) * 0x1_0000
              + ReadRegister(v.store.snap, id, ADDR_TRANSFER_COUNT_LIFETIME + 1, mono, wall) == v.store.snap.lifetime
  {
    AlongPrefix(Start, before, after, Regular);
    StartIsGood();
    GoodRun(Start, before);
    GoodRun(Start, before + after);
    RunAppend(Start, before, after);
    CountedGrows(Run(Start, before), after);
  }

  /** The published 24-hour count is a recount: right after any snapshot or start it is the number
      of all transfers ever counted, over all starts, whose time is at least the present minus
      86400 seconds. */
  lemma WindowIsRecount(es: seq<Event>)
    requires Along(Start, es, Regular)
    ensures var w := Run(Start, es);
            w.up ==> w.store.snap.count24h == |set i | 0 <= i < |w.counted| && w.counted[i] >= w.wall - 86400|
  {
    StartIsGood();
    GoodRun(Start, es);
    var w := Run(Start, es);
    SinceCounts(w.counted, w.wall - 86400);
  }

  lemma {:induction false} SinceCounts(s: seq<int>, cutoff: int)
    ensures |Since(s, cutoff)| == |set i | 0 <= i < |s| && s[i] >= cutoff|
  {
    if s != [] {
      var n := |s| - 1;
      var front := s[..n];
      assert s == front + [s[n]];
      SinceAppend(front, s[n], cutoff);
      SinceCounts(front, cutoff);
      RecentAppend(front, s[n], cutoff);
    }
  }

  lemma RecentAppend(s: seq<int>, t: int, cutoff: int)
    ensures |set i | 0 <= i < |s + [t]| && (s + [t])[i] >= cutoff|
            == |set i | 0 <= i < |s| && s[i] >= cutoff| + if t >= cutoff then 1 else 0
  {
    var before, after := set i | 0 <= i < |s| && s[i] >= cutoff, set i | 0 <= i < |s + [t]| && (s + [t])[i] >= cutoff;
    assert after == before + if t >= cutoff then {|s|} else {};
  }

  // ------------------------------------------------------------ the count as position changes

  /** Snapshot `n` finds the switch at the generator, and the one before found it at utility or in
      the stroke. */
  predicate ReachesGenerator(seen: seq<Seen>, n: nat) {
    && 0 < n < |seen| && seen[n].position == Generator
    && (seen[n - 1].position == Utility || seen[n - 1].position == Transferring)
  }

  /** The same the other way round. */
  predicate ReachesUtility(seen: seq<Seen>, n: nat) {
    && 0 < n < |seen| && seen[n].position == Utility
    && (seen[n - 1].position == Generator || seen[n - 1].position == Transferring)
  }

  function Transfers(seen: seq<Seen>): set<nat> {
    set n: nat | n < |seen| && ReachesGenerator(seen, n)
  }

  function Returns(seen: seq<Seen>): set<nat> {
    set n: nat | n < |seen| && ReachesUtility(seen, n)
  }

  /** `at` is the time of the latest of these snapshots, or what it was before if there is none. */
  ghost predicate LatestAt(seen: seq<Seen>, which: set<nat>, before: int, at: int)
    requires forall n :: n in which ==> n < |seen|
  {
    if which == {} then at == before
    else exists n :: n in which && at == seen[n].at && forall m :: m in which ==> m <= n
  }

  /** The fields served are those loaded, brought up to date by what was seen. */
  ghost predicate Tally(seen: seq<Seen>, p: Persisted, snap: Snapshot) {
    && seen != [] && seen[|seen| - 1].position == snap.position
    && snap.lifetime == p.lifetime + |Transfers(seen)|
    && LatestAt(seen, Transfers(seen), p.lastToGenerator, snap.lastToGenerator)
    && LatestAt(seen, Returns(seen), p.lastToUtility, snap.lastToUtility)
  }

  ghost predicate CountsPositions(w: World) {
    w.up ==> Tally(w.seen, w.loaded, w.store.snap) && |w.counted| == w.base + |Transfers(w.seen)|
  }

  /** One more snapshot adds itself, where it reaches a source. */
  lemma SeenAppend(seen: seq<Seen>, x: Seen)
    requires seen != []
    ensures var n, before, all := |seen|, seen[|seen| - 1].position, seen + [x];
            && Transfers(all) == Transfers(seen) + (if TransferredToGenerator(before, x.position) then {n} else {})
            && Returns(all) == Returns(seen) + (if RetransferredToUtility(before, x.position) then {n} else {})
  {
    var all := seen + [x];
    forall n: nat | n < |seen|
      ensures ReachesGenerator(all, n) == ReachesGenerator(seen, n) && ReachesUtility(all, n) == ReachesUtility(seen, n)
    {
      assert all[n] == seen[n] && (n > 0 ==> all[n - 1] == seen[n - 1]);
    }
    assert all[|seen|] == x && all[|seen| - 1] == seen[|seen| - 1];
  }

  lemma LatestStep(seen: seq<Seen>, x: Seen, which: set<nat>, before: int, at: int, hit: bool)
    requires (forall n :: n in which ==> n < |seen|) && LatestAt(seen, which, before, at)
    ensures LatestAt(seen + [x], which + (if hit then {|seen|} else {}), before, if hit then x.at else at)
  {
    var all := seen + [x];
    if hit {
      assert |seen| in which + {|seen|} && all[|seen|].at == x.at;
    } else {
      assert which + {} == which;
      if which != {} {
        var n :| n in which && at == seen[n].at && forall m :: m in which ==> m <= n;
        assert all[n] == seen[n];
      }
    }
  }

  lemma TallyAppend(seen: seq<Seen>, p: Persisted, before: Snapshot, x: Seen, after: Snapshot)
    requires Tally(seen, p, before) && after.position == x.position
    requires var transfer := TransferredToGenerator(before.position, x.position);
             && after.lifetime == before.lifetime + (if transfer then 1 else 0)
             && after.lastToGenerator == if transfer then x.at else before.lastToGenerator
    requires after.lastToUtility
             == if RetransferredToUtility(before.position, x.position) then x.at else before.lastToUtility
    ensures Tally(seen + [x], p, after)
    ensures |Transfers(seen + [x])| == |Transfers(seen)| + after.lifetime - before.lifetime
  {
    SeenAppend(seen, x);
    var transfer := TransferredToGenerator(before.position, x.position);
    LatestStep(seen, x, Transfers(seen), p.lastToGenerator, before.lastToGenerator, transfer);
    LatestStep(seen, x, Returns(seen), p.lastToUtility, before.lastToUtility,
               RetransferredToUtility(before.position, x.position));
    assert |Transfers(seen + [x])| == |Transfers(seen)| + if transfer then 1 else 0;
  }

  lemma SampleCounts(w: World, e: Event)
    requires CountsPositions(w) && e.Sampled? && w.up
    ensures CountsPositions(Step(w, e))
  {
    var x, t := Seen(e.inputs.position, e.now), Step(w, e);
    TallyAppend(w.seen, w.loaded, w.store.snap, x, t.store.snap);
    assert t.seen == w.seen + [x] && t.loaded == w.loaded && t.base == w.base;
    assert |t.counted| == |w.counted| + t.store.snap.lifetime - w.store.snap.lifetime;
  }

  lemma CountsStep(w: World, e: Event)
    requires CountsPositions(w)
    ensures CountsPositions(Step(w, e))
  {
    if e.Sampled? && w.up { SampleCounts(w, e); }
  }

  lemma {:induction false} CountsRun(w: World, es: seq<Event>)
    requires CountsPositions(w)
    ensures CountsPositions(Run(w, es))
    decreases |es|
  {
    if es != [] {
      CountsStep(w, es[0]);
      CountsRun(Step(w, es[0]), es[1..]);
    }
  }

  /** In every run, whatever fails, the count served is what the process loaded plus the number of
      snapshots since that found the switch at the generator, the one before having found it at
      utility or in the stroke: the unknown position at the start is never the origin of one. The
      two times served are those of the latest such snapshot and of the latest return to utility. */
  lemma CountIsTransfers(es: seq<Event>)
    ensures var w := Run(Start, es);
            w.up ==> && w.store.snap.lifetime == w.loaded.lifetime + |Transfers(w.seen)|
                     && |w.counted| == w.base + |Transfers(w.seen)|
                     && LatestAt(w.seen, Transfers(w.seen), w.loaded.lastToGenerator, w.store.snap.lastToGenerator)
                     && LatestAt(w.seen, Returns(w.seen), w.loaded.lastToUtility, w.store.snap.lastToUtility)
  {
    CountsRun(Start, es);
  }

  // ------------------------------------------------------------------------------------ a stroke

  /** Samples that find the switch in the stroke. */
  predicate InStroke(es: seq<Event>) {
    forall i :: 0 <= i < |es| ==> es[i].Sampled? && es[i].inputs.position == Transferring
  }

  /** Meanwhile nothing is counted, stamped or saved. */
  lemma {:induction false} StrokeWaits(w: World, es: seq<Event>)
    requires w.up && InStroke(es)
    ensures var t := Run(w, es);
            && t.up && t.store.snap.lifetime == w.store.snap.lifetime
            && t.store.snap.lastToGenerator == w.store.snap.lastToGenerator
            && t.store.snap.lastToUtility == w.store.snap.lastToUtility
            && t.disk == w.disk && t.queue == w.queue
            && t.store.snap.position == if es == [] then w.store.snap.position else Transferring
    decreases |es|
  {
    if es != [] {
      assert InStroke(es[1..]);
      StrokeWaits(Step(w, es[0]), es[1..]);
    }
  }

  /** A transfer through the stroke. From utility, any number of samples that find the switch in the
      stroke, and one that finds it at the generator, count exactly one transfer, stamped with that
      sample's time; the state that is served then has been saved, and nothing else will be found. */
  lemma StrokeCountsOne(w: World, stroke: seq<Event>, e: Event, q: Persisted)
    requires w.up && w.store.snap.position == Utility && InStroke(stroke)
    requires e.Sampled? && e.inputs.position == Generator && e.steps >= 4
    ensures var t := Run(w, stroke + [e]);
            && t.up && t.store.snap.position == Generator
            && t.store.snap.lifetime == w.store.snap.lifetime + 1
            && t.store.snap.lastToGenerator == e.now && t.store.snap.lastToUtility == w.store.snap.lastToUtility
            && (MayReload(t.disk, q) <==>
                  q == Persisted(t.store.snap.lifetime, e.now, w.store.snap.lastToUtility, t.store.recent))
  {
    StrokeWaits(w, stroke);
    var u := Run(w, stroke);
    RunAppend(w, stroke, [e]);
    assert [e][1..] == [] && Run(u, [e]) == Run(Step(u, e), []);
    SaveAdds(u.disk, ToPersisted(Step(u, e).store), e.steps, q);
  }

  /** The way back: nothing is counted, the return is stamped, and a save of the state served is on
      its way. */
  lemma ReturnIsStamped(w: World, stroke: seq<Event>, e: Event)
    requires w.up && w.store.snap.position == Generator && InStroke(stroke)
    requires e.Sampled? && e.inputs.position == Utility
    ensures var t := Run(w, stroke + [e]);
            && t.up && t.store.snap.position == Utility && t.store.snap.lifetime == w.store.snap.lifetime
            && t.store.snap.lastToUtility == e.now && t.store.snap.lastToGenerator == w.store.snap.lastToGenerator
            && t.disk == w.disk
            && t.queue == w.queue + [Persisted(w.store.snap.lifetime, w.store.snap.lastToGenerator, e.now,
                                               t.store.recent)]
  {
    StrokeWaits(w, stroke);
    var u := Run(w, stroke);
    RunAppend(w, stroke, [e]);
    assert [e][1..] == [] && Run(u, [e]) == Run(Step(u, e), []);
  }

  // ------------------------------------------------------------------ without the hypotheses

  /** The events of a transfer, from a state in which one comes. */
  predicate Transfer(w: World, inputs: Inputs, now: int) {
    w.up && Critical(w, inputs) && now >= w.wall
  }

  /** The state that a transfer saves. */
  function Saved(w: World, inputs: Inputs, now: int): Persisted {
    ToPersisted(ApplyInputs(w.store, inputs, now))
  }

  lemma SavedCounts(w: World, inputs: Inputs, now: int)
    requires Good(w) && Transfer(w, inputs, now)
    ensures SaveFor(w.store, inputs, now) == SaveNow(Saved(w, inputs, now))
    ensures Saved(w, inputs, now).lifetime == w.store.snap.lifetime + 1
    ensures forall q :: MayReload(w.disk, q) ==> q.lifetime == w.store.snap.lifetime
  {
  }

  lemma {:induction false} BackgroundSaveLands(w: World, inputs: Inputs, now: int, i: nat, q: Persisted)
    requires Good(w) && Transfer(w, inputs, now)
    ensures var t := Run(w, [Sampled(inputs, now, 4), BackgroundSave(i, 4)]);
            && t.up && t.store.snap.lifetime == w.store.snap.lifetime + 1
            && (MayReload(t.disk, q) <==> q == if i < |w.queue| then w.queue[i] else Saved(w, inputs, now))
  {
    var a, b := Sampled(inputs, now, 4), BackgroundSave(i, 4);
    var s1 := Step(w, a);
    assert [a, b][1..] == [b] && [b][1..] == [];
    assert Run(w, [a, b]) == Run(s1, [b]) == Run(Step(s1, b), []);
    SavedCounts(w, inputs, now);
    SaveAdds(w.disk, Saved(w, inputs, now), 4, q);
    if i < |w.queue| {
      SaveAdds(s1.disk, w.queue[i], 4, q);
    }
  }

  /** Exactly when a transfer's count is safe from the saves issued before it: whichever of them
      lands after the transfer's own save, a power loss brings back the count served, if and only
      if none of them was still on its way. */
  lemma OvertakenExactlyWhen(w: World, inputs: Inputs, now: int)
    requires Good(w) && Transfer(w, inputs, now)
    ensures var served := w.store.snap.lifetime + 1;
            (forall i: nat, q :: MayReload(Run(w, [Sampled(inputs, now, 4), BackgroundSave(i, 4)]).disk, q)
               ==> q.lifetime == served)
            <==> w.queue == []
  {
    SavedCounts(w, inputs, now);
    if w.queue == [] {
      forall i: nat, q | MayReload(Run(w, [Sampled(inputs, now, 4), BackgroundSave(i, 4)]).disk, q)
        ensures q.lifetime == w.store.snap.lifetime + 1
      {
        BackgroundSaveLands(w, inputs, now, i, q);
      }
    } else {
      BackgroundSaveLands(w, inputs, now, 0, w.queue[0]);
      assert Describes(w.queue[0], w.counted, w.wall);
    }
  }

  /** Exactly when a transfer's count is safe from its own save: a save that fails is passed over
      and the count is served all the same; a power loss then brings it back if and only if the
      save ran to its end. */
  lemma FailedSaveExactlyWhen(w: World, inputs: Inputs, now: int, steps: nat)
    requires Good(w) && Transfer(w, inputs, now)
    ensures var t := Step(w, Sampled(inputs, now, steps));
            && t.up && t.store.snap.lifetime == w.store.snap.lifetime + 1
            && ((forall q :: MayReload(t.disk, q) ==> q.lifetime == t.store.snap.lifetime) <==> steps >= 4)
  {
    SavedCounts(w, inputs, now);
    OldStateReloads(w.disk, Saved(w, inputs, now), steps);
    forall q ensures steps >= 4 && MayReload(SaveSteps(w.disk, Saved(w, inputs, now), steps), q)
                     ==> q == Saved(w, inputs, now)
    {
      SaveAdds(w.disk, Saved(w, inputs, now), steps, q);
    }
  }

  /** Until the directory has been flushed, the state that was durable before may come back. */
  lemma OldStateReloads(d: Disk, p: Persisted, steps: nat)
    ensures MayReload(d, LoadEntry(d.durable))
    ensures steps <= 3 ==> MayReload(SaveSteps(d, p, steps), LoadEntry(d.durable))
  {
    EntriesReload(d);
    SaveAdds(d, p, steps, ZEROES);
    EntriesReload(SaveSteps(d, p, steps));
  }

  /** Exactly when a process that dies in a transfer's save may be restarted at once: what a load
      finds on the disk is what a later power loss would bring back, if and only if it did not die
      between the rename and the directory flush. */
  lemma KilledSaveExactlyWhen(w: World, inputs: Inputs, now: int, steps: nat)
    requires Good(w) && Transfer(w, inputs, now)
    ensures var t := Step(w, SampledCut(inputs, now, steps, false));
            (forall q :: MayReload(t.disk, q) ==> q.lifetime == OnDisk(t).lifetime) <==> steps != 3
  {
    var p := Saved(w, inputs, now);
    var d := SaveSteps(w.disk, p, steps);
    SavedCounts(w, inputs, now);
    OldStateReloads(w.disk, p, steps);
    EntriesReload(d);
    forall q
      ensures steps < 3 && MayReload(d, q) ==> MayReload(w.disk, q)
      ensures steps > 3 && MayReload(d, q) ==> q == p
    {
      SaveAdds(w.disk, p, steps, q);
    }
    SaveAdds(w.disk, p, steps, p);
  }

  /** Killed there and restarted, the process serves the transfer. */
  lemma KilledSaveServes(w: World, inputs: Inputs, now: int)
    requires Good(w) && Transfer(w, inputs, now)
    ensures var t := Run(w, [SampledCut(inputs, now, 3, false), Restart(now)]);
            && t.up && t.store.snap.lifetime == w.store.snap.lifetime + 1
            && t.disk == SaveSteps(w.disk, Saved(w, inputs, now), 3)
  {
    var a, b, p := SampledCut(inputs, now, 3, false), Restart(now), Saved(w, inputs, now);
    SavedCounts(w, inputs, now);
    SaveAdds(w.disk, p, 3, p);
    var s1 := Step(w, a);
    assert s1.disk == SaveSteps(w.disk, p, 3) && OnDisk(s1) == p;
    RunTwo(w, a, b);
  }

  /** What happens if it did: the process is killed there, restarted, and serves the transfer; then
      power is lost, and the next process serves one transfer less. */
  lemma {:induction false} KilledSaveRunsBackwards(w: World, inputs: Inputs, now: int)
    requires Good(w) && Transfer(w, inputs, now)
    ensures var before := [SampledCut(inputs, now, 3, false), Restart(now)];
            var after := [PowerLoss, Boot(LoadEntry(w.disk.durable), now)];
            var t, u := Run(w, before), Run(w, before + after);
            && t.up && u.up
            && t.store.snap.lifetime == w.store.snap.lifetime + 1 && u.store.snap.lifetime == w.store.snap.lifetime
  {
    var a, b := SampledCut(inputs, now, 3, false), Restart(now);
    var c, d := PowerLoss, Boot(LoadEntry(w.disk.durable), now);
    SavedCounts(w, inputs, now);
    KilledSaveServes(w, inputs, now);
    OldStateReloads(w.disk, Saved(w, inputs, now), 3);
    RunAppend(w, [a, b], [c, d]);
    RunTwo(Run(w, [a, b]), c, d);
  }

  lemma {:induction false} RunTwo(w: World, a: Event, b: Event)
    ensures Run(w, [a, b]) == Step(Step(w, a), b)
  {
    assert [a, b][1..] == [b] && [b][1..] == [];
    assert Run(w, [a, b]) == Run(Step(w, a), [b]) == Run(Step(Step(w, a), b), []);
  }
}
