/**
 The pulsed relays (test and bypass delay) over every run of the relay system: a relay that
 is on has someone bound to switch it off, the release comes when it was scheduled however
 often the pulse is re-triggered, and a relay that overstays is reported.
 */
module PulseProtocol {
  import opened Prelude
  import opened Store
  import opened Adam
  import opened Watchdog
  import opened Protocol

  /** The start-up reset has yet to write this relay. */
  predicate ResetCovers(reset: Reset, r: Relay) {
    match reset
    case NotStarted => true
    case Writing(k) => ChannelOf(r) >= k
    case Done => false
  }

  ghost predicate PulseInvFor(s: System, r: Relay) {
    Get(s.driver.coils, r) ==>
      && (PulseOf(s.driver, r).NoPulse? || PulseOf(s.driver, r).Starting? ==> ResetCovers(s.reset, r))
      && (PulseOf(s.driver, r).Releasing? ==>
            r in s.driver.commanded && s.driver.commanded[r] == Command(false, PulseOf(s.driver, r).since))
  }

  /** A pulsed relay that is on has an active release task, or the reset is about to write it;
      and once its release has been tried, it counts as commanded off since that moment. */
  ghost predicate PulseInv(s: System) {
    PulseInvFor(s, TestRelay) && PulseInvFor(s, BypassRelay)
  }

  /** The event starts a pulse by a write that takes effect although its reply is lost, with no
      reset to come. */
  predicate LosesStartReply(s: System, e: Event) {
    && e.PulseWrite? && e.w.Unacked? && Pulsed(e.r) && PulseOf(s.driver, e.r).Starting?
    && !ResetCovers(s.reset, e.r)
  }

  /** Every event keeps the invariant but one kind, which always breaks it. */
  lemma {:induction false} PulseStep(s: System, e: Event)
    requires PulseInv(s)
    ensures PulseInv(Step(s, e)) <==> !LosesStartReply(s, e)
  {
    match e
    case DispatchStart(i) => BeginPulse(s, i);
    case DispatchWrite(i, w) => MaintainedWritePulse(s, i, w);
    case PulseWrite(r, w) => StartWritePulse(s, r, w);
    case ResetWrite(w) => ResetWritePulse(s, w);
    case PulseWakes(r, w) => WakePulse(s, r, w);
    case Restart(p, wall, verdict) => BootHasPulseInv(s.now, s.driver.coils, p, wall, verdict);
    case TickWrite(w) => TickWritePulse(s, w);
    case ResetStart =>
    case _ => assert Step(s, e).driver.(armed := s.driver.armed) == s.driver && Step(s, e).reset == s.reset;
  }

  lemma BeginPulse(s: System, i: nat)
    requires PulseInv(s)
    ensures PulseInv(Step(s, DispatchStart(i)))
  {
    if i < |s.tasks| {
      match s.tasks[i] case PulseTest(_) => case PulseBypass(_) => case SetInhibit(_) => case SetForce(_) =>
    }
  }

  lemma MaintainedWritePulse(s: System, i: nat, w: WriteResult)
    requires PulseInv(s)
    ensures PulseInv(Step(s, DispatchWrite(i, w)))
  {
    if i < |s.gated| {
      match s.gated[i] case SetInhibit(_) => case SetForce(_) =>
    }
  }

  lemma StartWritePulse(s: System, r: Relay, w: WriteResult)
    requires PulseInv(s)
    ensures PulseInv(Step(s, PulseWrite(r, w))) <==> !LosesStartReply(s, PulseWrite(r, w))
  {
    match r case TestRelay => case BypassRelay => case ForceRelay => case InhibitRelay =>
  }

  lemma ResetWritePulse(s: System, w: WriteResult)
    requires PulseInv(s)
    ensures PulseInv(Step(s, ResetWrite(w)))
  {
    if s.reset.Writing? && s.reset.k < 4 {
      var k := s.reset.k;
      if k == 0 {} else if k == 1 {} else if k == 2 {} else {}
    }
  }

  lemma WakePulse(s: System, r: Relay, w: WriteResult)
    requires PulseInv(s)
    ensures PulseInv(Step(s, PulseWakes(r, w)))
  {
    if r.TestRelay? {
      match s.driver.testPulse case NoPulse => case Starting(_) => case Waiting(_) => case Releasing(_, _) =>
    } else if r.BypassRelay? {
      match s.driver.bypassPulse case NoPulse => case Starting(_) => case Waiting(_) => case Releasing(_, _) =>
    }
  }

  lemma TickWritePulse(s: System, w: WriteResult)
    requires PulseInv(s)
    ensures PulseInv(Step(s, TickWrite(w)))
  {
    match s.phase case Asleep => case AtInhibit => case AtForce =>
  }

  /** From any start of the service, and through any number of restarts, as long as no pulse
      start loses its reply, no pulsed relay is ever on without a release to come. */
  lemma {:induction false} NoPulseIsOrphaned(s: System, es: seq<Event>)
    requires PulseInv(s) && Along(s, es, (t, e) => !LosesStartReply(t, e))
    ensures PulseInv(Run(s, es))
    decreases |es|
  {
    if es != [] {
      PulseStep(s, es[0]);
      NoPulseIsOrphaned(Step(s, es[0]), es[1..]);
    }
  }

  lemma BootHasPulseInv(now: real, coils: Outputs, p: Persisted, wall: int, verdict: bool)
    ensures PulseInv(Boot(now, coils, p, wall, verdict))
  {
  }

  /** Where no release is pending and no reset to come, a pulsed relay counts as commanded off. */
  predicate OffRecorded(s: System, r: Relay) {
    !ResetCovers(s.reset, r) && !PulseOf(s.driver, r).Waiting?
    ==> r in s.driver.commanded && !s.driver.commanded[r].value
  }

  predicate BothOffRecorded(s: System) {
    OffRecorded(s, TestRelay) && OffRecorded(s, BypassRelay)
  }

  /** Every event keeps that, lost replies included. */
  lemma OffRecordedStep(s: System, e: Event, r: Relay)
    requires Pulsed(r) && OffRecorded(s, r)
    ensures OffRecorded(Step(s, e), r)
  {
    match e
    case DispatchStart(i) => OffRecordedBegin(s, i, r);
    case DispatchWrite(i, w) => OffRecordedWrite(s, i, w, r);
    case PulseWrite(x, w) => OffRecordedStart(s, x, w, r);
    case TickWrite(w) => match s.phase { case Asleep => case AtInhibit => case AtForce => }
    case ResetWrite(w) => OffRecordedReset(s, w, r);
    case PulseWakes(x, w) => OffRecordedWake(s, x, w, r);
    case _ =>
  }

  lemma OffRecordedBegin(s: System, i: nat, r: Relay)
    requires Pulsed(r) && OffRecorded(s, r)
    ensures OffRecorded(Step(s, DispatchStart(i)), r)
  {
    if i < |s.tasks| {
      match s.tasks[i] case PulseTest(_) => case PulseBypass(_) => case SetInhibit(_) => case SetForce(_) =>
    }
  }

  lemma OffRecordedWrite(s: System, i: nat, w: WriteResult, r: Relay)
    requires Pulsed(r) && OffRecorded(s, r)
    ensures OffRecorded(Step(s, DispatchWrite(i, w)), r)
  {
    if i < |s.gated| {
      match s.gated[i] case SetInhibit(_) => case SetForce(_) =>
    }
  }

  lemma OffRecordedStart(s: System, x: Relay, w: WriteResult, r: Relay)
    requires Pulsed(r) && OffRecorded(s, r)
    ensures OffRecorded(Step(s, PulseWrite(x, w)), r)
  {
    match x case TestRelay => case BypassRelay => case ForceRelay => case InhibitRelay =>
  }

  lemma OffRecordedReset(s: System, w: WriteResult, r: Relay)
    requires Pulsed(r) && OffRecorded(s, r)
    ensures OffRecorded(Step(s, ResetWrite(w)), r)
  {
    if s.reset.Writing? && s.reset.k < 4 {
      var k := s.reset.k;
      if k == 0 {} else if k == 1 {} else if k == 2 {} else {}
    }
  }

  lemma OffRecordedWake(s: System, x: Relay, w: WriteResult, r: Relay)
    requires Pulsed(r) && OffRecorded(s, r)
    ensures OffRecorded(Step(s, PulseWakes(x, w)), r)
  {
    match PulseOf(s.driver, x) case NoPulse => case Starting(_) => case Waiting(_) => case Releasing(_, _) =>
  }

  lemma {:induction false} OffRecordedRun(s: System, es: seq<Event>)
    requires BothOffRecorded(s)
    ensures BothOffRecorded(Run(s, es))
    decreases |es|
  {
    if es != [] {
      OffRecordedStep(s, es[0], TestRelay);
      OffRecordedStep(s, es[0], BypassRelay);
      OffRecordedRun(Step(s, es[0]), es[1..]);
    }
  }

  /** No pulsed relay is on in silence. At any moment of any run, one that is on with no release
      pending - its release being tried, or nobody left to switch it off - was last recorded off at
      some time, and from half a second after that every sampling cycle publishes the output
      fault. */
  lemma OverstayIsReported(boot: System, es: seq<Event>, r: Relay, inputs: Inputs, wall: int)
    requires IsBoot(boot) && Pulsed(r)
    ensures var s := Run(boot, es);
            s.reset.Done? && Get(s.driver.coils, r) && !PulseOf(s.driver, r).Waiting?
            ==> && r in s.driver.commanded
                && (s.now - s.driver.commanded[r].at >= 0.5
                    ==> FAULT_OUTPUT in FaultSummary(Step(s, Sample(inputs, wall)).store.snap))
  {
    OffRecordedRun(boot, es);
    var s := Run(boot, es);
    if s.reset.Done? && Get(s.driver.coils, r) && !PulseOf(s.driver, r).Waiting? {
      assert OffRecorded(s, r);
      if s.now - s.driver.commanded[r].at >= 0.5 {
        assert !Consistent(s.driver, s.driver.coils, s.now);
      }
    }
  }

  /** While a release is being tried that time is the first attempt. */
  lemma ReleasingSinceRecorded(s: System, r: Relay)
    requires PulseInv(s) && Pulsed(r) && Get(s.driver.coils, r) && PulseOf(s.driver, r).Releasing?
    ensures r in s.driver.commanded && s.driver.commanded[r] == Command(false, PulseOf(s.driver, r).since)
  {
    assert PulseInvFor(s, r);
  }

  // ---------------------------------------------------------------------- what a fault means

  /** A recorded command is what its relay is, unless the start-up reset has yet to write it or its
      release is being tried. */
  predicate RecordTrue(s: System, r: Relay) {
    !ResetCovers(s.reset, r) && r in s.driver.commanded && Get(s.driver.coils, r) != s.driver.commanded[r].value
    ==> Pulsed(r) && PulseOf(s.driver, r).Releasing?
  }

  ghost predicate RecordsTrue(s: System) {
    forall r :: RecordTrue(s, r)
  }

  /** A write that switches a relay takes effect although its reply is lost. */
  predicate LosesReply(e: Event) {
    (e.DispatchWrite? || e.PulseWrite? || e.TickWrite?) && e.w.Unacked?
  }

  /** Every event keeps the records true but a write whose reply is lost; the release of a pulse is
      recorded before it is tried, so its replies do not matter. */
  lemma RecordStep(s: System, e: Event, r: Relay)
    requires RecordsTrue(s) && BothOffRecorded(s) && !LosesReply(e)
    ensures RecordTrue(Step(s, e), r)
  {
    assert RecordTrue(s, r);
    match e
    case DispatchStart(i) => RecordBegin(s, i, r);
    case DispatchWrite(i, w) => RecordWrite(s, i, w, r);
    case PulseWrite(x, w) => RecordStart(s, x, w, r);
    case TickWrite(w) => RecordTick(s, w, r);
    case ResetWrite(w) => RecordReset(s, w, r);
    case PulseWakes(x, w) => RecordWake(s, x, w, r);
    case _ =>
  }

  lemma RecordBegin(s: System, i: nat, r: Relay)
    requires RecordTrue(s, r)
    ensures RecordTrue(Step(s, DispatchStart(i)), r)
  {
    if i < |s.tasks| {
      match s.tasks[i] case PulseTest(_) => case PulseBypass(_) => case SetInhibit(_) => case SetForce(_) =>
    }
  }

  lemma RecordWrite(s: System, i: nat, w: WriteResult, r: Relay)
    requires RecordTrue(s, r) && !w.Unacked?
    ensures RecordTrue(Step(s, DispatchWrite(i, w)), r)
  {
    if i < |s.gated| {
      match s.gated[i] case SetInhibit(_) => case SetForce(_) =>
    }
  }

  lemma RecordStart(s: System, x: Relay, w: WriteResult, r: Relay)
    requires RecordTrue(s, r) && !w.Unacked?
    ensures RecordTrue(Step(s, PulseWrite(x, w)), r)
  {
    match x case TestRelay => case BypassRelay => case ForceRelay => case InhibitRelay =>
  }

  lemma RecordTick(s: System, w: WriteResult, r: Relay)
    requires RecordTrue(s, r) && !w.Unacked?
    ensures RecordTrue(Step(s, TickWrite(w)), r)
  {
    match s.phase case Asleep => case AtInhibit => case AtForce =>
  }

  lemma RecordReset(s: System, w: WriteResult, r: Relay)
    requires RecordTrue(s, r)
    ensures RecordTrue(Step(s, ResetWrite(w)), r)
  {
    if s.reset.Writing? && s.reset.k < 4 {
      var k := s.reset.k;
      if k == 0 {} else if k == 1 {} else if k == 2 {} else {}
    }
  }

  lemma RecordWake(s: System, x: Relay, w: WriteResult, r: Relay)
    requires RecordTrue(s, r) && BothOffRecorded(s)
    ensures RecordTrue(Step(s, PulseWakes(x, w)), r)
  {
    if Pulsed(x) {
      FireApart(s.driver, x, Link(None, w), s.now, r);
      if x == r && !ResetCovers(s.reset, r) { FireRecords(s.driver, x, Link(None, w), s.now); }
    }
  }

  /** A release task touches its own relay only. */
  lemma FireApart(d: Driver, x: Relay, l: Link, now: real, r: Relay)
    requires Pulsed(x)
    ensures var d' := FirePulse(d, x, l, now);
            x != r ==> && Get(d'.coils, r) == Get(d.coils, r) && (Pulsed(r) ==> PulseOf(d', r) == PulseOf(d, r))
                       && (r in d'.commanded <==> r in d.commanded)
                       && (r in d.commanded ==> d'.commanded[r] == d.commanded[r])
  {
    match PulseOf(d, x) case NoPulse => case Starting(_) => case Waiting(_) => case Releasing(_, _) =>
  }

  /** Its relay is off or being released, as recorded. */
  lemma FireRecords(d: Driver, x: Relay, l: Link, now: real)
    requires Pulsed(x) && (!PulseOf(d, x).Waiting? ==> x in d.commanded && !d.commanded[x].value)
    ensures var d' := FirePulse(d, x, l, now);
            d' == d || (x in d'.commanded && !d'.commanded[x].value
                        && (Get(d'.coils, x) ==> PulseOf(d', x).Releasing?))
  {
    match PulseOf(d, x) case NoPulse => case Starting(_) => case Waiting(_) => case Releasing(_, _) =>
  }

  lemma {:induction false} RecordRun(s: System, es: seq<Event>)
    requires RecordsTrue(s) && BothOffRecorded(s) && PulseInv(s) && forall i :: 0 <= i < |es| ==> !LosesReply(es[i])
    ensures RecordsTrue(Run(s, es)) && BothOffRecorded(Run(s, es)) && PulseInv(Run(s, es))
    decreases |es|
  {
    if es != [] {
      forall r ensures RecordTrue(Step(s, es[0]), r) { RecordStep(s, es[0], r); }
      OffRecordedStep(s, es[0], TestRelay);
      OffRecordedStep(s, es[0], BypassRelay);
      PulseStep(s, es[0]);
      RecordRun(Step(s, es[0]), es[1..]);
    }
  }

  /** The release of a pulse has been tried for half a second, and the relay is still on. */
  predicate Overstays(s: System, r: Relay) {
    Pulsed(r) && Get(s.driver.coils, r) && PulseOf(s.driver, r).Releasing? && s.now - PulseOf(s.driver, r).since >= 0.5
  }

  /** What the output fault means. In every run from a start of the service in which no switching
      write loses its reply, a sampling cycle raises the output fault if and only if the fail-safe
      is unverified or a pulsed relay is still on half a second after its release was first tried;
      otherwise the fault stays what it was. */
  lemma OutputFaultExactlyWhen(boot: System, es: seq<Event>, inputs: Inputs, wall: int)
    requires IsBoot(boot) && forall i :: 0 <= i < |es| ==> !LosesReply(es[i])
    ensures var s := Run(boot, es);
            s.reset.Done?
            ==> (FAULT_OUTPUT in FaultSummary(Step(s, Sample(inputs, wall)).store.snap)
                 <==> FAULT_OUTPUT in FaultSummary(s.store.snap) || !s.driver.armed
                      || Overstays(s, TestRelay) || Overstays(s, BypassRelay))
  {
    RecordRun(boot, es);
    var s := Run(boot, es);
    if s.reset.Done? {
      ConsistentExactlyWhen(s);
      SampleFault(s, inputs, wall);
    }
  }

  /** What a sampling cycle makes of the output fault. */
  lemma SampleFault(s: System, inputs: Inputs, wall: int)
    requires s.reset.Done?
    ensures FAULT_OUTPUT in FaultSummary(Step(s, Sample(inputs, wall)).store.snap)
            <==> FAULT_OUTPUT in FaultSummary(s.store.snap) || !s.driver.armed
                 || !Consistent(s.driver, s.driver.coils, s.now)
  {
  }

  lemma ConsistentExactlyWhen(s: System)
    requires RecordsTrue(s) && BothOffRecorded(s) && PulseInv(s) && s.reset.Done?
    ensures Consistent(s.driver, s.driver.coils, s.now) <==> !Overstays(s, TestRelay) && !Overstays(s, BypassRelay)
  {
    assert PulseInvFor(s, TestRelay) && PulseInvFor(s, BypassRelay);
    if !Overstays(s, TestRelay) && !Overstays(s, BypassRelay) {
      forall r | r in s.driver.commanded
        ensures s.now - s.driver.commanded[r].at < 0.5 || Get(s.driver.coils, r) == s.driver.commanded[r].value
      {
        assert RecordTrue(s, r) && (Pulsed(r) ==> OffRecorded(s, r) && !Overstays(s, r));
      }
    }
  }

  /** Nothing in a stretch of a run cancels release tasks. */
  predicate NoCancel(es: seq<Event>) {
    forall i :: 0 <= i < |es| ==> !es[i].ResetStart? && !es[i].Restart? && !es[i].ResetWrite?
  }

  /** When the release of `r` is first tried in a run, if it is. */
  function FirstAttempt(s: System, es: seq<Event>, r: Relay): Option<real>
    decreases |es|
  {
    if es == [] then None
    else if es[0].PulseWakes? && es[0].r == r && PulseOf(s.driver, r).Waiting? && PulseOf(s.driver, r).due <= s.now
    then Some(s.now)
    else FirstAttempt(Step(s, es[0]), es[1..], r)
  }

  /** The event loop wakes sleepers on time: time does not pass a due release. */
  predicate Prompt(r: Relay, s: System, e: Event) {
    e.Advance? && e.dt > 0.0 && PulseOf(s.driver, r).Waiting? ==> s.now + e.dt <= PulseOf(s.driver, r).due
  }

  /** While a release is pending, a second pulse on the same relay is ignored and nothing else
      touches the release task or the relay. */
  lemma WaitingStep(s: System, e: Event, r: Relay)
    requires Pulsed(r) && PulseOf(s.driver, r).Waiting? && Get(s.driver.coils, r)
    requires !e.ResetStart? && !e.Restart? && !e.ResetWrite?
    requires !(e.PulseWakes? && e.r == r && PulseOf(s.driver, r).due <= s.now)
    ensures PulseOf(Step(s, e).driver, r) == PulseOf(s.driver, r) && Get(Step(s, e).driver.coils, r)
    ensures e.DispatchStart? && e.i < |s.tasks| && RelayOf(s.tasks[e.i]) == r ==> Step(s, e).driver == s.driver
  {
    match e
    case DispatchStart(i) => BeginWhileWaiting(s, i, r);
    case DispatchWrite(i, w) =>
      if i < |s.gated| { MaintainedWriteApart(s.driver, s.gated[i], w, s.now, r); }
    case PulseWrite(x, w) => StartElsewhere(s, x, w, r);
    case PulseWakes(x, w) => if Pulsed(x) { WakeWhileWaiting(s.driver, x, Link(None, w), s.now, r); }
    case TickWrite(w) => TickApart(s, w, r);
    case FailSafeVerdict(ok) =>
    case _ =>
  }

  lemma MaintainedWriteApart(d: Driver, i: Maintained, w: WriteResult, now: real, r: Relay)
    requires Pulsed(r)
    ensures var d' := WriteIntent(d, i, w, now); PulseOf(d', r) == PulseOf(d, r) && Get(d'.coils, r) == Get(d.coils, r)
  {
  }

  lemma StartElsewhere(s: System, x: Relay, w: WriteResult, r: Relay)
    requires Pulsed(r) && PulseOf(s.driver, r).Waiting?
    ensures var d := Step(s, PulseWrite(x, w)).driver;
            PulseOf(d, r) == PulseOf(s.driver, r) && Get(d.coils, r) == Get(s.driver.coils, r)
  {
    match x case TestRelay => case BypassRelay => case ForceRelay => case InhibitRelay =>
  }

  lemma TickApart(s: System, w: WriteResult, r: Relay)
    requires Pulsed(r)
    ensures var d := Step(s, TickWrite(w)).driver;
            PulseOf(d, r) == PulseOf(s.driver, r) && Get(d.coils, r) == Get(s.driver.coils, r)
  {
    match s.phase case Asleep => case AtInhibit => case AtForce =>
  }

  lemma BeginWhileWaiting(s: System, i: nat, r: Relay)
    requires Pulsed(r) && PulseOf(s.driver, r).Waiting?
    ensures var d := Step(s, DispatchStart(i)).driver;
            && PulseOf(d, r) == PulseOf(s.driver, r) && d.coils == s.driver.coils
            && (i < |s.tasks| && RelayOf(s.tasks[i]) == r ==> d == s.driver)
  {
    if i < |s.tasks| {
      match s.tasks[i] case PulseTest(_) => case PulseBypass(_) => case SetInhibit(_) => case SetForce(_) =>
    }
  }

  lemma WakeWhileWaiting(d: Driver, x: Relay, l: Link, now: real, r: Relay)
    requires Pulsed(r) && Pulsed(x) && PulseOf(d, r).Waiting? && Get(d.coils, r)
    requires !(x == r && PulseOf(d, r).due <= now)
    ensures var d' := FirePulse(d, x, l, now);
            PulseOf(d', r) == PulseOf(d, r) && Get(d'.coils, r)
  {
  }

  /** A release that is being tried goes on being tried. Nothing but its own next attempt touches it
      or its relay; that comes no sooner than a quarter of a second after the last one, switches
      the relay off unless the write is lost, and is the last if the write returns. */
  lemma {:induction false} ReleasingStep(s: System, e: Event, r: Relay)
    requires Pulsed(r) && PulseOf(s.driver, r).Releasing?
    requires !e.ResetStart? && !e.Restart? && !e.ResetWrite?
    ensures var t, p := Step(s, e), PulseOf(s.driver, r);
            if e.PulseWakes? && e.r == r && p.retryAt <= s.now then
              && (!e.w.Lost? ==> !Get(t.driver.coils, r)) && (e.w.Lost? ==> t.driver.coils == s.driver.coils)
              && PulseOf(t.driver, r) == if e.w.Acked? then NoPulse else Releasing(p.since, s.now + 0.25)
            else PulseOf(t.driver, r) == p && Get(t.driver.coils, r) == Get(s.driver.coils, r)
  {
    match e
    case DispatchStart(i) =>
      if i < |s.tasks| {
        match s.tasks[i] case PulseTest(_) => case PulseBypass(_) => case SetInhibit(_) => case SetForce(_) =>
      }
    case DispatchWrite(i, w) =>
      if i < |s.gated| { MaintainedWriteApart(s.driver, s.gated[i], w, s.now, r); }
    case PulseWrite(x, w) => match x { case TestRelay => case BypassRelay => case ForceRelay => case InhibitRelay => }
    case PulseWakes(x, w) => if Pulsed(x) { WakeWhileReleasing(s.driver, x, Link(None, w), s.now, r); }
    case TickWrite(w) => TickApart(s, w, r);
    case _ =>
  }

  lemma WakeWhileReleasing(d: Driver, x: Relay, l: Link, now: real, r: Relay)
    requires Pulsed(r) && Pulsed(x) && PulseOf(d, r).Releasing?
    ensures var d', p := FirePulse(d, x, l, now), PulseOf(d, r);
            if x == r && p.retryAt <= now then
              && (!l.result.Lost? ==> !Get(d'.coils, r)) && (l.result.Lost? ==> d'.coils == d.coils)
              && PulseOf(d', r) == if l.result.Acked? then NoPulse else Releasing(p.since, now + 0.25)
            else PulseOf(d', r) == p && Get(d'.coils, r) == Get(d.coils, r)
  {
    match PulseOf(d, x) case NoPulse => case Starting(_) => case Waiting(_) => case Releasing(_, _) =>
  }

  /** The release of a pulse is first tried exactly `ClampMs(ms)` after the relay was asserted,
      whatever else happens and however often the pulse is re-triggered; until then the relay
      stays on. (Without prompt wake-ups: not before that moment.) */
  lemma {:induction false} ReleaseComesOnTime(s: System, es: seq<Event>, r: Relay)
    requires Pulsed(r) && PulseOf(s.driver, r).Waiting? && Get(s.driver.coils, r) && NoCancel(es)
    requires s.now <= PulseOf(s.driver, r).due
    ensures var due := PulseOf(s.driver, r).due;
            var prompt := Along(s, es, (t, e) => Prompt(r, t, e));
            match FirstAttempt(s, es, r)
            case Some(at) => at >= due && (prompt ==> at == due)
            case None =>
              var t := Run(s, es);
              PulseOf(t.driver, r) == Waiting(due) && Get(t.driver.coils, r) && (prompt ==> t.now <= due)
    decreases |es|
  {
    if es != [] {
      var e := es[0];
      if !(e.PulseWakes? && e.r == r && PulseOf(s.driver, r).due <= s.now) {
        WaitingStep(s, e, r);
        var s1, rest := Step(s, e), es[1..];
        assert forall i :: 0 <= i < |rest| ==> rest[i] == es[i + 1];
        if s1.now <= PulseOf(s.driver, r).due {
          ReleaseComesOnTime(s1, rest, r);
        } else {
          LateRelease(s1, rest, r);
        }
      }
    }
  }

  /** The same once the moment has passed without a wake-up. */
  lemma {:induction false} LateRelease(s: System, es: seq<Event>, r: Relay)
    requires Pulsed(r) && PulseOf(s.driver, r).Waiting? && Get(s.driver.coils, r) && NoCancel(es)
    requires s.now >= PulseOf(s.driver, r).due
    ensures var due := PulseOf(s.driver, r).due;
            match FirstAttempt(s, es, r)
            case Some(at) => at >= due
            case None => PulseOf(Run(s, es).driver, r) == Waiting(due) && Get(Run(s, es).driver.coils, r)
    decreases |es|
  {
    if es != [] {
      var e := es[0];
      if !(e.PulseWakes? && e.r == r) {
        WaitingStep(s, e, r);
        var rest := es[1..];
        assert forall i :: 0 <= i < |rest| ==> rest[i] == es[i + 1];
        LateRelease(Step(s, e), rest, r);
      }
    }
  }

  /** A pulse whose write returns is due as many milliseconds after that as were asked for, but no
      less than 0.5 s and no more than 1.5 s. */
  lemma PulseStarts(s: System, r: Relay)
    requires Pulsed(r) && PulseOf(s.driver, r).Starting?
    ensures var ms := PulseOf(s.driver, r).ms;
            var t := Step(s, PulseWrite(r, Acked));
            && Get(t.driver.coils, r) && PulseOf(t.driver, r) == Waiting(s.now + PulseSeconds(ms))
            && (ms <= 500 ==> PulseSeconds(ms) == 0.5) && (1500 <= ms ==> PulseSeconds(ms) == 1.5)
            && (500 <= ms <= 1500 ==> PulseSeconds(ms) == ms as real / 1000.0)
  {
  }

  /** A pulsed relay that is on with no release task, and no reset to come. */
  predicate Stranded(s: System, r: Relay) {
    && Pulsed(r) && s.reset.Done? && Get(s.driver.coils, r)
    && (PulseOf(s.driver, r).NoPulse? || PulseOf(s.driver, r).Starting?)
  }

  /** The service restarts, or the write of another pulse on the relay returns. */
  predicate Rescues(s: System, e: Event, r: Relay) {
    e.Restart? || (e.PulseWrite? && e.r == r && e.w.Acked? && PulseOf(s.driver, r).Starting?)
  }

  /** Exactly those two end it. */
  lemma StrandedStep(s: System, e: Event, r: Relay)
    requires Stranded(s, r)
    ensures Stranded(Step(s, e), r) <==> !Rescues(s, e, r)
  {
    match e
    case DispatchStart(i) => StrandedBegin(s, i, r);
    case DispatchWrite(i, w) => if i < |s.gated| { match s.gated[i] case SetInhibit(_) => case SetForce(_) => }
    case PulseWrite(x, w) => StrandedWrite(s, x, w, r);
    case PulseWakes(x, w) => StrandedWake(s, x, w, r);
    case TickWrite(w) => StrandedTick(s, w, r);
    case _ =>
  }

  lemma StrandedBegin(s: System, i: nat, r: Relay)
    requires Stranded(s, r)
    ensures Stranded(Step(s, DispatchStart(i)), r)
  {
    if i < |s.tasks| {
      match s.tasks[i] case PulseTest(_) => case PulseBypass(_) => case SetInhibit(_) => case SetForce(_) =>
    }
  }

  lemma StrandedWrite(s: System, x: Relay, w: WriteResult, r: Relay)
    requires Stranded(s, r)
    ensures Stranded(Step(s, PulseWrite(x, w)), r) <==> !Rescues(s, PulseWrite(x, w), r)
  {
    match x case TestRelay => case BypassRelay => case ForceRelay => case InhibitRelay =>
  }

  lemma StrandedWake(s: System, x: Relay, w: WriteResult, r: Relay)
    requires Stranded(s, r)
    ensures Stranded(Step(s, PulseWakes(x, w)), r)
  {
    match PulseOf(s.driver, x) case NoPulse => case Starting(_) => case Waiting(_) => case Releasing(_, _) =>
  }

  lemma StrandedTick(s: System, w: WriteResult, r: Relay)
    requires Stranded(s, r)
    ensures Stranded(Step(s, TickWrite(w)), r)
  {
    match s.phase case Asleep => case AtInhibit => case AtForce =>
  }

  lemma {:induction false} StrandedStays(s: System, es: seq<Event>, r: Relay)
    requires Stranded(s, r) && Along(s, es, (t, e) => !Rescues(t, e, r))
    ensures Stranded(Run(s, es), r)
    decreases |es|
  {
    if es != [] {
      StrandedStep(s, es[0], r);
      StrandedStays(Step(s, es[0]), es[1..], r);
    }
  }

  /** What a lost reply costs: the relay is on, and no task will switch it off, until the write of
      another pulse on the same relay returns or the service restarts. */
  lemma LostReplyStrandsRelay(s: System, e: Event, es: seq<Event>)
    requires s.reset.Done? && LosesStartReply(s, e)
    ensures Stranded(Step(s, e), e.r)
    ensures Along(Step(s, e), es, (t, x) => !Rescues(t, x, e.r)) ==> Stranded(Run(Step(s, e), es), e.r)
  {
    if Along(Step(s, e), es, (t, x) => !Rescues(t, x, e.r)) {
      StrandedStays(Step(s, e), es, e.r);
    }
  }
}
