/**
 What the companion's two own fault bits say over whole runs: which events raise and clear them,
 and that a failure keeps showing at the fault register until something succeeds.
 */
module FaultReports {
  import opened Prelude
  import opened Store
  import opened Adam
  import opened Protocol

  predicate OutputFault(s: System) { 1 in s.store.snap.faultBits }

  predicate InputFault(s: System) { 0 in s.store.snap.faultBits }

  /** The command would switch its relay on. */
  predicate SwitchesOn(i: Intent) {
    i.PulseTest? || i.PulseBypass? || i == SetInhibit(true) || i == SetForce(true)
  }

  /** The pulse that the command asks for is running already. */
  predicate AlreadyRunning(d: Driver, i: Intent) {
    || (i.PulseTest? && (d.testPulse.Waiting? || d.testPulse.Releasing?))
    || (i.PulseBypass? && (d.bypassPulse.Waiting? || d.bypassPulse.Releasing?))
  }

  /** The event takes a command to its write. */
  predicate Writes(s: System, e: Event) {
    || (e.DispatchWrite? && e.i < |s.gated|)
    || (e.PulseWrite? && Pulsed(e.r) && PulseOf(s.driver, e.r).Starting?)
  }

  /** A relay differs from what was commanded half a second ago or longer. */
  predicate Mismatch(s: System) {
    exists r :: r in s.driver.commanded && s.now - s.driver.commanded[r].at >= 0.5
                && Get(s.driver.coils, r) != s.driver.commanded[r].value
  }

  /** An output has failed: a command refused because the fail-safe is unverified, a write that did
      not return, a start with the fail-safe unverified, or a sampling cycle that finds it so or a
      relay that is not what was commanded. */
  predicate OutputFails(s: System, e: Event) {
    || (e.Restart? && !e.verdict)
    || (e.DispatchStart? && e.i < |s.tasks| && !s.driver.armed && SwitchesOn(s.tasks[e.i]))
    || (Writes(s, e) && !e.w.Acked?)
    || (e.Sample? && s.reset.Done? && (!s.driver.armed || Mismatch(s)))
  }

  /** One has succeeded: a write that returned, a pulse that was running already, a start with the
      fail-safe verified. */
  predicate OutputSucceeds(s: System, e: Event) {
    || (e.Restart? && e.verdict)
    || (e.DispatchStart? && e.i < |s.tasks| && s.driver.armed && AlreadyRunning(s.driver, s.tasks[e.i]))
    || (Writes(s, e) && e.w.Acked?)
  }

  /** The inputs could not be read, or the relays not be reset before they are. */
  predicate InputFails(s: System, e: Event) {
    || (e.SampleFails? && s.reset.Done?)
    || (e.ResetWrite? && s.reset.Writing? && s.reset.k < 4 && !e.w.Acked?)
  }

  predicate InputSucceeds(s: System, e: Event) {
    e.Restart? || (e.Sample? && s.reset.Done?)
  }

  lemma MismatchIsInconsistent(s: System)
    ensures Mismatch(s) <==> !Consistent(s.driver, s.driver.coils, s.now)
  {
  }

  /** Exactly what each event makes of the two bits. */
  lemma FaultStep(s: System, e: Event)
    ensures OutputFault(Step(s, e)) <==> OutputFails(s, e) || (OutputFault(s) && !OutputSucceeds(s, e))
    ensures InputFault(Step(s, e)) <==> InputFails(s, e) || (InputFault(s) && !InputSucceeds(s, e))
  {
    match e
    case DispatchStart(i) => FaultBegin(s, i);
    case Request(_, _, _, _) => FaultRequest(s, e);
    case TickWrite(_) => match s.phase { case Asleep => case AtInhibit => case AtForce => }
    case Sample(_, _) => FaultSample(s, e);
    case ResetWrite(_) => FaultReset(s, e);
    case DispatchWrite(_, _) => FaultWrite(s, e);
    case PulseWrite(_, _) => FaultWrite(s, e);
    case _ =>
  }

  lemma FaultSample(s: System, e: Event)
    requires e.Sample?
    ensures OutputFault(Step(s, e)) <==> OutputFails(s, e) || (OutputFault(s) && !OutputSucceeds(s, e))
    ensures InputFault(Step(s, e)) <==> InputFails(s, e) || (InputFault(s) && !InputSucceeds(s, e))
  {
    MismatchIsInconsistent(s);
  }

  lemma FaultReset(s: System, e: Event)
    requires e.ResetWrite?
    ensures OutputFault(Step(s, e)) <==> OutputFails(s, e) || (OutputFault(s) && !OutputSucceeds(s, e))
    ensures InputFault(Step(s, e)) <==> InputFails(s, e) || (InputFault(s) && !InputSucceeds(s, e))
  {
  }

  lemma FaultWrite(s: System, e: Event)
    requires e.DispatchWrite? || e.PulseWrite?
    ensures OutputFault(Step(s, e)) <==> OutputFails(s, e) || (OutputFault(s) && !OutputSucceeds(s, e))
    ensures InputFault(Step(s, e)) <==> InputFails(s, e) || (InputFault(s) && !InputSucceeds(s, e))
  {
  }

  lemma FaultBegin(s: System, i: nat)
    ensures var e := DispatchStart(i);
            && (OutputFault(Step(s, e)) <==> OutputFails(s, e) || (OutputFault(s) && !OutputSucceeds(s, e)))
            && (InputFault(Step(s, e)) <==> InputFault(s))
  {
    if i < |s.tasks| {
      match s.tasks[i] case PulseTest(_) => case PulseBypass(_) => case SetInhibit(_) => case SetForce(_) =>
    }
  }

  lemma FaultRequest(s: System, e: Event)
    requires e.Request?
    ensures Step(s, e).store.snap.faultBits == s.store.snap.faultBits
  {
    if e.addr.Some? && IsHoldingWrite(e.fc) {
      GuardWordsExact(s.store, e.addr.value, |e.values|);
      if Permitted(s.store.snap.mode, e.addr.value, |e.values|) {
        WriteWordsExact(s.store, e.addr.value, e.values);
      }
    }
  }

  /** Event `k` of the run was a failure, and nothing has succeeded since. */
  ghost predicate FailedAt(s: System, es: seq<Event>, k: nat, fails: (System, Event) -> bool,
                           succeeds: (System, Event) -> bool)
    requires k < |es|
  {
    && fails(Run(s, es[..k]), es[k])
    && NoneSince(s, es, k + 1, succeeds)
  }

  /** No event from the `k`-th on was a success. */
  ghost predicate NoneSince(s: System, es: seq<Event>, k: nat, succeeds: (System, Event) -> bool) {
    forall j :: k <= j < |es| ==> !succeeds(Run(s, es[..j]), es[j])
  }

  /** The fault has its cause: a failure with no success since, or one that showed from the start. */
  ghost predicate HasCause(s: System, es: seq<Event>, before: bool, fails: (System, Event) -> bool,
                           succeeds: (System, Event) -> bool) {
    || (before && NoneSince(s, es, 0, succeeds))
    || exists k: nat :: k < |es| && FailedAt(s, es, k, fails, succeeds)
  }

  lemma NoneSinceStep(s: System, es: seq<Event>, k: nat, succeeds: (System, Event) -> bool)
    requires es != [] && k <= |es| - 1
    ensures var n := |es| - 1;
            NoneSince(s, es, k, succeeds)
            <==> NoneSince(s, es[..n], k, succeeds) && !succeeds(Run(s, es[..n]), es[n])
  {
    var n := |es| - 1;
    forall j | 0 <= j < n ensures es[..n][..j] == es[..j] && es[..n][j] == es[j] {}
    if NoneSince(s, es[..n], k, succeeds) && !succeeds(Run(s, es[..n]), es[n]) {
      forall j | k <= j < |es| ensures !succeeds(Run(s, es[..j]), es[j]) {
        if j < n { assert !succeeds(Run(s, es[..n][..j]), es[..n][j]); }
      }
    }
  }

  lemma HasCauseStep(s: System, es: seq<Event>, before: bool, fails: (System, Event) -> bool,
                     succeeds: (System, Event) -> bool)
    requires es != []
    ensures var n := |es| - 1; var t := Run(s, es[..n]);
            HasCause(s, es, before, fails, succeeds)
            <==> fails(t, es[n]) || (HasCause(s, es[..n], before, fails, succeeds) && !succeeds(t, es[n]))
  {
    var n := |es| - 1;
    var t := Run(s, es[..n]);
    NoneSinceStep(s, es, 0, succeeds);
    forall k: nat | k < n
      ensures FailedAt(s, es, k, fails, succeeds) <==> FailedAt(s, es[..n], k, fails, succeeds) && !succeeds(t, es[n])
    {
      assert es[..n][..k] == es[..k];
      NoneSinceStep(s, es, k + 1, succeeds);
    }
    assert FailedAt(s, es, n, fails, succeeds) <==> fails(t, es[n]);
  }

  /** The two bits of the fault register over every run, restarts included: the output fault shows if
      and only if some output has failed with none succeeding since, and the input fault if and
      only if some input has failed with none succeeding since, or a rejected write is pending. */
  lemma {:induction false} FaultsFromRun(s: System, es: seq<Event>)
    ensures OutputFault(Run(s, es)) <==> HasCause(s, es, OutputFault(s), OutputFails, OutputSucceeds)
    ensures InputFault(Run(s, es)) <==> HasCause(s, es, InputFault(s), InputFails, InputSucceeds)
    decreases |es|
  {
    if es == [] {
      assert NoneSince(s, es, 0, OutputSucceeds) && NoneSince(s, es, 0, InputSucceeds);
    } else {
      var n := |es| - 1;
      RunLast(s, es);
      FaultsFromRun(s, es[..n]);
      FaultStep(Run(s, es[..n]), es[n]);
      HasCauseStep(s, es, OutputFault(s), OutputFails, OutputSucceeds);
      HasCauseStep(s, es, InputFault(s), InputFails, InputSucceeds);
    }
  }

  /** The same at the register that clients read, from any start of the service. */
  lemma {:induction false} FaultRegisterFromRun(
      now: real, coils: Outputs, p: Persisted, wall: int, verdict: bool, es: seq<Event>, id: Identity, mono: real,
      later: int)
    ensures var boot := Boot(now, coils, p, wall, verdict);
            var t := Run(boot, es);
            var w := ReadRegister(t.store.snap, id, 0x0005, mono, later);
            && (w / 2 % 2 == 1 <==> HasCause(boot, es, !verdict, OutputFails, OutputSucceeds))
            && (w % 2 == 1 <==> HasCause(boot, es, false, InputFails, InputSucceeds) || t.store.snap.modeReject)
  {
    var boot := Boot(now, coils, p, wall, verdict);
    FaultsFromRun(boot, es);
    WireValueBits(FaultSummary(Run(boot, es).store.snap));
    assert OutputFault(boot) <==> !verdict;
  }
}
