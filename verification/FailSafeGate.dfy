/**
 What the fail-safe gate is worth over whole runs. A command is checked once, and its write comes
 some time later; a reconnect in between may find the module's fail-safe unverified, and the
 write goes ahead all the same.
 */
module FailSafeGate {
  import opened Prelude
  import opened Store
  import opened Adam
  import opened Protocol

  /** The command has passed its checks and has not been written. */
  predicate PastGate(s: System, g: Intent) {
    match g
    case PulseTest(ms) => s.driver.testPulse == Starting(ms)
    case PulseBypass(ms) => s.driver.bypassPulse == Starting(ms)
    case SetInhibit(_) => g in s.gated
    case SetForce(_) => g in s.gated
  }

  /** The event passes the command through its checks. */
  predicate Passes(s: System, e: Event, g: Intent) {
    e.DispatchStart? && e.i < |s.tasks| && s.tasks[e.i] == g && Check(s.driver, g).Passed?
  }

  /** The event is the write of the command, which had passed its checks. */
  predicate Writes(s: System, e: Event, g: Intent) {
    && PastGate(s, g)
    && match g
       case PulseTest(_) => e.PulseWrite? && e.r == TestRelay
       case PulseBypass(_) => e.PulseWrite? && e.r == BypassRelay
       case _ => e.DispatchWrite? && e.i < |s.gated| && s.gated[e.i] == g
  }

  /** The command that a write event writes, if any. */
  function Written(s: System, e: Event): Option<Intent> {
    match e
    case DispatchWrite(i, _) => if i < |s.gated| then Some(s.gated[i]) else None
    case PulseWrite(r, _) =>
      if r.TestRelay? && s.driver.testPulse.Starting? then Some(PulseTest(s.driver.testPulse.ms))
      else if r.BypassRelay? && s.driver.bypassPulse.Starting? then Some(PulseBypass(s.driver.bypassPulse.ms))
      else None
    case _ => None
  }

  lemma WrittenIsPastGate(s: System, e: Event)
    requires Written(s, e).Some?
    ensures Writes(s, e, Written(s, e).value)
  {
    if e.DispatchWrite? {
      assert s.gated[e.i] in s.gated;
      match s.gated[e.i] case SetInhibit(_) => case SetForce(_) =>
    }
  }

  lemma {:induction false} WrittenAsserts(s: System, e: Event, r: Relay)
    requires e.DispatchWrite? || e.PulseWrite?
    requires !Get(s.driver.coils, r) && Get(Step(s, e).driver.coils, r)
    ensures Written(s, e).Some? && Asserts(Written(s, e).value) && RelayOf(Written(s, e).value) == r
  {
    if e.DispatchWrite? {
      if e.i < |s.gated| {
        MaintainedWriteAsserts(s.driver, s.gated[e.i], e.w, s.now, r);
      }
    } else if Pulsed(e.r) && PulseOf(s.driver, e.r).Starting? {
      PulseWriteAsserts(s.driver, e.r, PulseOf(s.driver, e.r).ms, e.w, s.now, r);
    }
  }

  lemma MaintainedWriteAsserts(d: Driver, i: Maintained, w: WriteResult, now: real, r: Relay)
    requires !Get(d.coils, r) && Get(WriteIntent(d, i, w, now).coils, r)
    ensures Asserts(i) && RelayOf(i) == r
  {
  }

  lemma PulseWriteAsserts(d: Driver, x: Relay, ms: int, w: WriteResult, now: real, r: Relay)
    requires !Get(d.coils, r) && Get(FinishPulse(d, x, ms, w, now).coils, r)
    ensures x == r
  {
  }

  /** A relay comes on only by the write of a command that asserts it and has passed its checks. */
  lemma OnlyGatedCommandsAssert(s: System, e: Event, r: Relay)
    requires !Get(s.driver.coils, r) && Get(Step(s, e).driver.coils, r)
    ensures exists g :: Writes(s, e, g) && Asserts(g) && RelayOf(g) == r
    ensures Step(s, e).driver.armed == s.driver.armed
  {
    if e.DispatchWrite? || e.PulseWrite? {
      WrittenAsserts(s, e, r);
      WrittenIsPastGate(s, e);
      ArmedStep(s, e);
    } else {
      CoilsFrame(s, e, r);
    }
  }

  /** Past the gate is only what passes it now or was past it before. */
  lemma PastGateStep(s: System, e: Event, g: Intent)
    requires PastGate(Step(s, e), g)
    ensures !e.Restart? && (PastGate(s, g) || Passes(s, e, g))
  {
    match e
    case DispatchStart(i) => BeginGate(s, i, g);
    case DispatchWrite(i, w) => if i < |s.gated| { match s.gated[i] case SetInhibit(_) => case SetForce(_) => }
    case PulseWrite(x, w) => if Pulsed(x) { match PulseOf(s.driver, x) case Starting(_) => case _ => }
    case PulseWakes(x, w) => match PulseOf(s.driver, x) { case NoPulse => case _ => }
    case TickWrite(w) => match s.phase { case Asleep => case _ => }
    case ResetWrite(w) => assert Step(s, e).driver.testPulse == s.driver.testPulse;
    case _ =>
  }

  lemma BeginGate(s: System, i: nat, g: Intent)
    requires PastGate(Step(s, DispatchStart(i)), g)
    ensures PastGate(s, g) || Passes(s, DispatchStart(i), g)
  {
    if i < |s.tasks| {
      match s.tasks[i] case PulseTest(_) => case PulseBypass(_) => case SetInhibit(_) => case SetForce(_) =>
    }
  }

  /** Event `m` of the run passed the command through its checks, and the service has not
      restarted since. */
  ghost predicate GatedAt(boot: System, es: seq<Event>, g: Intent, m: nat) {
    && m < |es| && Passes(Run(boot, es[..m]), es[m], g)
    && forall k :: m < k < |es| ==> !es[k].Restart?
  }

  lemma {:induction false} GatedSince(boot: System, es: seq<Event>, g: Intent) returns (m: nat)
    requires IsBoot(boot) && PastGate(Run(boot, es), g)
    ensures GatedAt(boot, es, g, m)
    decreases |es|
  {
    assert es != [];
    var n := |es| - 1;
    RunLast(boot, es);
    PastGateStep(Run(boot, es[..n]), es[n], g);
    if Passes(Run(boot, es[..n]), es[n], g) {
      m := n;
    } else {
      m := GatedSince(boot, es[..n], g);
      assert es[..n][..m] == es[..m];
      forall k | m < k < |es| ensures !es[k].Restart? { if k < n { assert es[..n][k] == es[k]; } }
    }
  }

  /** After event `m` the fail-safe was found unverified, and has not been found verified since. */
  ghost predicate FailedSince(es: seq<Event>, m: nat) {
    exists k :: m < k < |es| && FailedAt(es, k)
  }

  predicate FailedAt(es: seq<Event>, k: nat)
    requires k < |es|
  {
    es[k] == FailSafeVerdict(false) && forall j :: k < j < |es| ==> es[j] != FailSafeVerdict(true)
  }

  lemma FailedSinceStep(es: seq<Event>, m: nat)
    requires m < |es| - 1
    ensures var n := |es| - 1;
            FailedSince(es, m)
            <==> es[n] == FailSafeVerdict(false) || (FailedSince(es[..n], m) && es[n] != FailSafeVerdict(true))
  {
    var n := |es| - 1;
    if FailedSince(es, m) {
      var k :| m < k < |es| && FailedAt(es, k);
      if k < n {
        assert FailedAt(es[..n], k);
      }
    }
    if es[n] == FailSafeVerdict(false) {
      assert FailedAt(es, n);
    } else if FailedSince(es[..n], m) && es[n] != FailSafeVerdict(true) {
      var k :| m < k < n && FailedAt(es[..n], k);
      forall j | k < j < |es| ensures es[j] != FailSafeVerdict(true) { if j < n { assert es[..n][j] == es[j]; } }
      assert FailedAt(es, k);
    }
  }

  /** Only verdicts and restarts move the verdict. */
  lemma ArmedStep(s: System, e: Event)
    ensures !e.Restart? ==> Step(s, e).driver.armed == if e.FailSafeVerdict? then e.ok else s.driver.armed
  {
    match e
    case DispatchStart(i) =>
      if i < |s.tasks| {
        match s.tasks[i] case PulseTest(_) => case PulseBypass(_) => case SetInhibit(_) => case SetForce(_) =>
      }
    case DispatchWrite(i, w) => if i < |s.gated| { match s.gated[i] case SetInhibit(_) => case SetForce(_) => }
    case PulseWakes(x, w) => match PulseOf(s.driver, x) { case NoPulse => case _ => }
    case TickWrite(w) => match s.phase { case Asleep => case _ => }
    case _ =>
  }

  /** An asserting command passed its checks at `m`: the fail-safe is unverified now exactly if it
      was found so since. */
  lemma {:induction false} UnverifiedIsFailedSince(boot: System, es: seq<Event>, g: Intent, m: nat)
    requires GatedAt(boot, es, g, m) && Asserts(g)
    ensures !Run(boot, es).driver.armed <==> FailedSince(es, m)
    decreases |es|
  {
    var n := |es| - 1;
    RunLast(boot, es);
    ArmedStep(Run(boot, es[..n]), es[n]);
    if m < n {
      assert es[..n][..m] == es[..m];
      UnverifiedIsFailedSince(boot, es[..n], g, m);
      FailedSinceStep(es, m);
    }
  }

  /** Exactly when a relay comes on while the fail-safe is unverified. In any run, a relay comes on
      only by the write of a command that passed the gate at some earlier moment, the service not
      having restarted since; and the fail-safe is unverified at the write if and only if a
      failing verdict, with no passing one after it, came between the two. */
  lemma {:induction false} UnverifiedAssertionExactlyWhen(boot: System, es: seq<Event>, e: Event, r: Relay)
    requires IsBoot(boot)
    ensures !Get(Run(boot, es).driver.coils, r) && Get(Step(Run(boot, es), e).driver.coils, r)
            ==> exists g :: && Writes(Run(boot, es), e, g) && Asserts(g) && RelayOf(g) == r
                            && (exists m :: GatedAt(boot, es, g, m))
                            && (forall m :: GatedAt(boot, es, g, m)
                                  ==> (!Step(Run(boot, es), e).driver.armed <==> FailedSince(es, m)))
  {
    var s := Run(boot, es);
    if !Get(s.driver.coils, r) && Get(Step(s, e).driver.coils, r) {
      OnlyGatedCommandsAssert(s, e, r);
      var g :| Writes(s, e, g) && Asserts(g) && RelayOf(g) == r;
      var at := GatedSince(boot, es, g);
      forall m | GatedAt(boot, es, g, m)
        ensures !Step(s, e).driver.armed <==> FailedSince(es, m)
      {
        UnverifiedIsFailedSince(boot, es, g, m);
      }
    }
  }

  /** Such a run: a forced transfer passes the gate, the connection is lost and made again to a
      module that fails the check, and the relay is switched on. */
  lemma VerdictFailsBeforeWrite(s: System)
    requires s.tasks == [SetForce(true)] && s.gated == [] && s.driver.armed
    ensures var t := Run(s, [DispatchStart(0), FailSafeVerdict(false), DispatchWrite(0, Acked)]);
            t.driver.coils.force && !t.driver.armed
  {
    var a, b, c := DispatchStart(0), FailSafeVerdict(false), DispatchWrite(0, Acked);
    assert [a, b, c] == [a] + [b] + [c];
    RunAppend(s, [a] + [b], [c]);
    RunAppend(s, [a], [b]);
    RunOne(s, a);
    RunOne(Step(s, a), b);
    RunOne(Step(Step(s, a), b), c);
  }
}
