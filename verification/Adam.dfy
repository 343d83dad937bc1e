/**
 The relay half of the ADAM-6060 driver (atspi/io_adam.py): maintained relays, pulsed relays
 with their release tasks, the release of all outputs, stuck-relay detection, and the gate
 that refuses to assert anything while the module's own fail-safe is unverified.

 A write to a coil has three outcomes. `Acked` takes effect and returns; `Unacked` takes
 effect but the reply is lost, so the driver sees an error; `Lost` never arrives. A write may
 reconnect first, and a reconnect checks the module's fail-safe anew.
 */
module Adam {
  import opened Prelude
  import opened Store

  const PULSE_MIN_MS := 500
  const PULSE_MAX_MS := 1500
  const OUTPUT_SETTLING_S := 0.5
  const PULSE_RELEASE_RETRY_S := 0.25

  /** The four command relays, in the order of their channels (DO 0 to DO 3). */
  datatype Relay = TestRelay | ForceRelay | InhibitRelay | BypassRelay

  function RelayAt(k: nat): Relay
    requires k < 4
  {
    [TestRelay, ForceRelay, InhibitRelay, BypassRelay][k]
  }

  function ChannelOf(r: Relay): nat {
    match r case TestRelay => 0 case ForceRelay => 1 case InhibitRelay => 2 case BypassRelay => 3
  }

  predicate Pulsed(r: Relay) { r.TestRelay? || r.BypassRelay? }

  function Get(coils: Outputs, r: Relay): bool {
    match r
    case TestRelay => coils.test
    case ForceRelay => coils.force
    case InhibitRelay => coils.inhibit
    case BypassRelay => coils.bypass
  }

  function Set(coils: Outputs, r: Relay, v: bool): Outputs {
    match r
    case TestRelay => coils.(test := v)
    case ForceRelay => coils.(force := v)
    case InhibitRelay => coils.(inhibit := v)
    case BypassRelay => coils.(bypass := v)
  }

  datatype WriteResult = Acked | Unacked | Lost

  /** The coils after a write of `v` to `r` that ended as `w`. */
  function CoilsAfter(coils: Outputs, r: Relay, v: bool, w: WriteResult): Outputs {
    if w.Lost? then coils else Set(coils, r, v)
  }

  /** One write through the connection: the verdict of the fail-safe check, where the write had to
      reconnect, and how the write itself ended. */
  datatype Link = Link(verdict: Option<bool>, result: WriteResult)

  /** What was last driven onto a relay, and when. */
  datatype Command = Command(value: bool, at: real)

  /** The pulse of a relay: none; past its checks, with the write that switches the relay on still
      to come; with a release task asleep until `due`; or with one trying since `since` to switch
      the relay off, next at `retryAt`. */
  datatype Pulse = NoPulse | Starting(ms: int) | Waiting(due: real) | Releasing(since: real, retryAt: real)

  datatype Driver = Driver(coils: Outputs, commanded: map<Relay, Command>,
                           testPulse: Pulse, bypassPulse: Pulse, armed: bool)

  /** A driver that has just started, over whatever the coils were left at. */
  function FreshDriver(coils: Outputs, armed: bool): Driver {
    Driver(coils, map[], NoPulse, NoPulse, armed)
  }

  function PulseOf(d: Driver, r: Relay): Pulse {
    if r.TestRelay? then d.testPulse else d.bypassPulse
  }

  function WithPulse(d: Driver, r: Relay, p: Pulse): Driver {
    if r.TestRelay? then d.(testPulse := p) else d.(bypassPulse := p)
  }

  function Record(d: Driver, r: Relay, v: bool, now: real): Driver {
    d.(commanded := d.commanded[r := Command(v, now)])
  }

  /** One write to a relay; the value is recorded as commanded only if the write returned. */
  function WriteRelay(d: Driver, r: Relay, v: bool, w: WriteResult, now: real): Driver {
    var d1 := d.(coils := CoilsAfter(d.coils, r, v, w));
    if w.Acked? then Record(d1, r, v, now) else d1
  }

  function ClampMs(ms: int): int {
    if ms < PULSE_MIN_MS then PULSE_MIN_MS else if ms > PULSE_MAX_MS then PULSE_MAX_MS else ms
  }

  function PulseSeconds(ms: int): real { ClampMs(ms) as real / 1000.0 }

  function Reverified(d: Driver, verdict: Option<bool>): Driver {
    if verdict.Some? then d.(armed := verdict.value) else d
  }

  function WriteVia(d: Driver, r: Relay, v: bool, l: Link, now: real): Driver {
    WriteRelay(Reverified(d, l.verdict), r, v, l.result, now)
  }

  /** The write that starts a pulse; the release task is created only once it has returned. */
  function FinishPulse(d: Driver, r: Relay, ms: int, w: WriteResult, now: real): Driver {
    WithPulse(WriteRelay(d, r, true, w, now), r, if w.Acked? then Waiting(now + PulseSeconds(ms)) else NoPulse)
  }

  /** A whole pulse start, checks and write: ignored while a pulse is active. */
  function StartPulse(d: Driver, r: Relay, ms: int, l: Link, now: real): (bool, Driver) {
    if !PulseOf(d, r).NoPulse? then (true, d)
    else (l.result.Acked?, FinishPulse(Reverified(d, l.verdict), r, ms, l.result, now))
  }

  /** The release task of `r` wakes up, if it is due: the intended state is recorded as off
      before the first attempt, and a failed attempt is retried. */
  function FirePulse(d: Driver, r: Relay, l: Link, now: real): Driver {
    var d1 := Reverified(d, l.verdict).(coils := CoilsAfter(d.coils, r, false, l.result));
    match PulseOf(d, r)
    case NoPulse => d
    case Starting(_) => d
    case Waiting(due) =>
      if now < due then d
      else WithPulse(Record(d1, r, false, now), r, AfterAttempt(l.result, now, now))
    case Releasing(since, retryAt) =>
      if now < retryAt then d else WithPulse(d1, r, AfterAttempt(l.result, since, now))
  }

  function AfterAttempt(w: WriteResult, since: real, now: real): Pulse {
    if w.Acked? then NoPulse else Releasing(since, now + PULSE_RELEASE_RETRY_S)
  }

  /** The commands whose relay stays as it was put. */
  type Maintained = i: Intent | i.SetInhibit? || i.SetForce? witness SetInhibit(false)

  predicate Asserts(i: Intent) {
    match i
    case PulseTest(_) => true
    case PulseBypass(_) => true
    case SetInhibit(on) => on
    case SetForce(on) => on
  }

  /** What becomes of a command at its checks: the fail-safe gate refuses it, an active pulse
      makes it a no-op, or it goes on to its write. */
  datatype Checked = Refused | Ignored | Passed(driver: Driver)

  function Check(d: Driver, i: Intent): Checked {
    if !d.armed && Asserts(i) then Refused
    else match i
      case PulseTest(ms) => if d.testPulse.NoPulse? then Passed(d.(testPulse := Starting(ms))) else Ignored
      case PulseBypass(ms) => if d.bypassPulse.NoPulse? then Passed(d.(bypassPulse := Starting(ms))) else Ignored
      case SetInhibit(_) => Passed(d)
      case SetForce(_) => Passed(d)
  }

  /** The write of a command that has passed its checks; nothing is checked again. */
  function WriteIntent(d: Driver, i: Intent, w: WriteResult, now: real): Driver {
    match i
    case PulseTest(ms) => FinishPulse(d, TestRelay, ms, w, now)
    case PulseBypass(ms) => FinishPulse(d, BypassRelay, ms, w, now)
    case SetInhibit(on) => WriteRelay(d, InhibitRelay, on, w, now)
    case SetForce(on) => WriteRelay(d, ForceRelay, on, w, now)
  }

  /** Cancels the release tasks; a pulse between its checks and its write is not one yet. */
  function Cancelled(p: Pulse): Pulse {
    if p.Starting? then p else NoPulse
  }

  function CancelPulses(d: Driver): Driver {
    d.(testPulse := Cancelled(d.testPulse), bypassPulse := Cancelled(d.bypassPulse))
  }

  /** Switching the relays of channels `k..` off in order, up to the first error. */
  function ReleaseFrom(d: Driver, k: nat, link: Relay -> Link, now: real): (bool, Driver)
    requires k <= 4
    decreases 4 - k
  {
    if k == 4 then (true, d)
    else
      var r := RelayAt(k);
      var d1 := WriteVia(d, r, false, link(r), now);
      if link(r).result.Acked? then ReleaseFrom(d1, k + 1, link, now) else (false, d1)
  }

  function ReleaseAll(d: Driver, link: Relay -> Link, now: real): (bool, Driver) {
    ReleaseFrom(CancelPulses(d), 0, link, now)
  }

  /** Nothing read back differs from what was commanded, settling time allowed for. */
  predicate Consistent(d: Driver, actual: Outputs, now: real) {
    forall r :: r in d.commanded ==>
      now - d.commanded[r].at < OUTPUT_SETTLING_S || Get(actual, r) == d.commanded[r].value
  }

  /** One call of `drive_outputs`, with whichever of its four arguments were given. */
  datatype Call = Call(test: Option<int>, inhibit: Option<bool>, force: Option<bool>, bypass: Option<int>)

  predicate CallAsserts(c: Call) {
    c.test.Some? || c.inhibit == Some(true) || c.force == Some(true) || c.bypass.Some?
  }

  /** The gate is asked once, before any write; then the four parts of a call run in this order
      and stop at the first error. */
  function Drive(d: Driver, c: Call, link: Relay -> Link, now: real): (bool, Driver) {
    if !d.armed && CallAsserts(c) then (false, d)
    else
      var (ok1, d1) := if c.test.Some? then StartPulse(d, TestRelay, c.test.value, link(TestRelay), now) else (true, d);
      if !ok1 then (false, d1) else
      var d2 := if c.inhibit.Some? then WriteVia(d1, InhibitRelay, c.inhibit.value, link(InhibitRelay), now) else d1;
      if c.inhibit.Some? && !link(InhibitRelay).result.Acked? then (false, d2) else
      var d3 := if c.force.Some? then WriteVia(d2, ForceRelay, c.force.value, link(ForceRelay), now) else d2;
      if c.force.Some? && !link(ForceRelay).result.Acked? then (false, d3) else
      if c.bypass.Some? then StartPulse(d3, BypassRelay, c.bypass.value, link(BypassRelay), now) else (true, d3)
  }

  function CallOf(i: Intent): Call {
    match i
    case PulseTest(ms) => Call(Some(ms), None, None, None)
    case SetInhibit(on) => Call(None, Some(on), None, None)
    case SetForce(on) => Call(None, None, Some(on), None)
    case PulseBypass(ms) => Call(None, None, None, Some(ms))
  }

  function RelayOf(i: Intent): Relay {
    match i
    case PulseTest(_) => TestRelay
    case SetInhibit(_) => InhibitRelay
    case SetForce(_) => ForceRelay
    case PulseBypass(_) => BypassRelay
  }

  const RELEASE_MAINTAINED := Call(None, Some(false), Some(false), None)

  /** Releasing everything, when it completes, leaves all four relays off and no release task;
      when it does not, it has still cancelled the tasks and switched off the channels before
      the one that failed. */
  lemma {:induction false} ReleaseFromEffect(d: Driver, k: nat, link: Relay -> Link, now: real)
    requires k <= 4
    ensures var (ok, d') := ReleaseFrom(d, k, link, now);
            && d'.testPulse == d.testPulse && d'.bypassPulse == d.bypassPulse
            && (ok <==> forall j :: k <= j < 4 ==> link(RelayAt(j)).result.Acked?)
            && (forall r :: ChannelOf(r) < k ==> Get(d'.coils, r) == Get(d.coils, r))
            && (forall r :: ok && ChannelOf(r) >= k ==> !Get(d'.coils, r))
            && (forall r :: Get(d'.coils, r) ==> Get(d.coils, r))
    decreases 4 - k
  {
    if k < 4 {
      var r := RelayAt(k);
      if link(r).result.Acked? {
        ReleaseFromEffect(WriteVia(d, r, false, link(r), now), k + 1, link, now);
      }
    }
  }

  /** A call that begins while the fail-safe is unverified leaves no relay newly on. */
  lemma UnarmedNeverAsserts(d: Driver, c: Call, link: Relay -> Link, now: real, r: Relay)
    requires !d.armed
    ensures Get(Drive(d, c, link, now).1.coils, r) ==> Get(d.coils, r)
  {
    if !CallAsserts(c) {
      var d2 := if c.inhibit.Some? then WriteVia(d, InhibitRelay, false, link(InhibitRelay), now) else d;
      WriteOffOnly(d, InhibitRelay, link(InhibitRelay), now, r);
      WriteOffOnly(d2, ForceRelay, link(ForceRelay), now, r);
    }
  }

  lemma WriteOffOnly(d: Driver, x: Relay, l: Link, now: real, r: Relay)
    ensures Get(WriteVia(d, x, false, l, now).coils, r) ==> Get(d.coils, r)
  {
  }

  class IOAdamDriver {
    var coils: Outputs                  // the module's relays
    var commanded: map<Relay, Command>
    var testPulse: Pulse
    var bypassPulse: Pulse
    var armed: bool

    ghost function View(): Driver
      reads this
    {
      Driver(coils, commanded, testPulse, bypassPulse, armed)
    }

    constructor (coils: Outputs, armed: bool)
      ensures View() == FreshDriver(coils, armed)
    {
      this.coils := coils;
      commanded, testPulse, bypassPulse, this.armed := map[], NoPulse, NoPulse, armed;
    }

    /** One write: it may reconnect, which checks the fail-safe anew, and then writes whatever
        the verdict is. */
    method WriteAndRecord(r: Relay, v: bool, l: Link, now: real) returns (ok: bool)
      modifies this`coils, this`commanded, this`armed
      ensures ok == l.result.Acked? && View() == WriteVia(old(View()), r, v, l, now)
    {
      if l.verdict.Some? {
        armed := l.verdict.value;
      }
      if !l.result.Lost? {
        coils := Set(coils, r, v);
      }
      if !l.result.Acked? {
        return false;
      }
      commanded := commanded[r := Command(v, now)];
      return true;
    }

    method StartOf(r: Relay, ms: int, l: Link, now: real) returns (ok: bool)
      requires Pulsed(r) && !PulseOf(View(), r).Starting?
      modifies this
      ensures (ok, View()) == StartPulse(old(View()), r, ms, l, now)
      ensures !PulseOf(View(), r).Starting?
    {
      var prior := if r.TestRelay? then testPulse else bypassPulse;
      if !prior.NoPulse? {
        return true;
      }
      ok := WriteAndRecord(r, true, l, now);
      if ok {
        var task := Waiting(now + PulseSeconds(ms));
        if r.TestRelay? { testPulse := task; } else { bypassPulse := task; }
      }
    }

    /** One call. No other call is between the checks and the write of a pulse that it starts. */
    method DriveOutputs(c: Call, link: Relay -> Link, now: real) returns (ok: bool)
      requires (c.test.Some? ==> !testPulse.Starting?) && (c.bypass.Some? ==> !bypassPulse.Starting?)
      modifies this
      ensures (ok, View()) == Drive(old(View()), c, link, now)
    {
      if !armed && CallAsserts(c) {
        return false;
      }
      if c.test.Some? {
        ok := StartOf(TestRelay, c.test.value, link(TestRelay), now);
        if !ok { return; }
      }
      if c.inhibit.Some? {
        ok := WriteAndRecord(InhibitRelay, c.inhibit.value, link(InhibitRelay), now);
        if !ok { return; }
      }
      if c.force.Some? {
        ok := WriteAndRecord(ForceRelay, c.force.value, link(ForceRelay), now);
        if !ok { return; }
      }
      if c.bypass.Some? {
        ok := StartOf(BypassRelay, c.bypass.value, link(BypassRelay), now);
        if !ok { return; }
      }
      return true;
    }

    method ReleaseAllOutputs(link: Relay -> Link, now: real) returns (ok: bool)
      modifies this
      ensures (ok, View()) == ReleaseAll(old(View()), link, now)
      ensures ok ==> coils == Outputs(false, false, false, false)
      ensures (testPulse.NoPulse? || testPulse.Starting?) && (bypassPulse.NoPulse? || bypassPulse.Starting?)
    {
      testPulse, bypassPulse := Cancelled(testPulse), Cancelled(bypassPulse);
      ReleaseFromEffect(View(), 0, link, now);
      ghost var start := View();
      var k := 0;
      while k < 4
        invariant 0 <= k <= 4
        invariant testPulse == start.testPulse && bypassPulse == start.bypassPulse
        invariant ReleaseFrom(View(), k, link, now) == ReleaseFrom(start, 0, link, now)
      {
        ok := WriteAndRecord(RelayAt(k), false, link(RelayAt(k)), now);
        if !ok { return; }
        k := k + 1;
      }
      assert forall r :: ChannelOf(r) >= 0;
      assert !Get(coils, TestRelay) && !Get(coils, ForceRelay) && !Get(coils, InhibitRelay) && !Get(coils, BypassRelay);
      return true;
    }

    /** One attempt of a release task to switch its relay off. */
    method Attempt(r: Relay, l: Link, since: real, now: real) returns (done: bool)
      requires Pulsed(r)
      modifies this`coils, this`testPulse, this`bypassPulse, this`armed
      ensures done == l.result.Acked?
      ensures var d1 := Reverified(old(View()), l.verdict).(coils := CoilsAfter(old(coils), r, false, l.result));
              View() == WithPulse(d1, r, AfterAttempt(l.result, since, now))
    {
      if l.verdict.Some? {
        armed := l.verdict.value;
      }
      if !l.result.Lost? {
        coils := Set(coils, r, false);
      }
      var task := if l.result.Acked? then NoPulse else Releasing(since, now + PULSE_RELEASE_RETRY_S);
      if r.TestRelay? { testPulse := task; } else { bypassPulse := task; }
      done := l.result.Acked?;
    }

    /** The first attempt; the intended state is recorded before it. */
    method FirstAttempt(r: Relay, l: Link, now: real) returns (done: bool)
      requires Pulsed(r) && PulseOf(View(), r).Waiting? && PulseOf(View(), r).due <= now
      modifies this
      ensures done == l.result.Acked? && View() == FirePulse(old(View()), r, l, now)
      ensures done ==> PulseOf(View(), r).NoPulse? && !Get(coils, r)
      ensures !done ==> PulseOf(View(), r) == Releasing(now, now + 0.25)
      ensures r in commanded && commanded[r] == Command(false, now)
    {
      commanded := commanded[r := Command(false, now)];
      done := Attempt(r, l, now, now);
    }

    /** Another one. */
    method NextAttempt(r: Relay, l: Link, now: real) returns (done: bool)
      requires Pulsed(r) && PulseOf(View(), r).Releasing? && PulseOf(View(), r).retryAt <= now
      modifies this
      ensures done == l.result.Acked? && View() == FirePulse(old(View()), r, l, now)
      ensures done ==> PulseOf(View(), r).NoPulse? && !Get(coils, r)
      ensures !done ==> PulseOf(View(), r) == Releasing(old(PulseOf(View(), r)).since, now + 0.25)
    {
      done := Attempt(r, l, if r.TestRelay? then testPulse.since else bypassPulse.since, now);
    }

    /** The body of a release task from the end of its sleep: it tries at the given times, as
        often as it takes, and its tries end at the first write that returns. */
    method Release(r: Relay, attempts: seq<(Link, real)>) returns (done: bool)
      requires Pulsed(r) && PulseOf(View(), r).Waiting?
      requires attempts != [] && PulseOf(View(), r).due <= attempts[0].1
      requires forall i :: 0 < i < |attempts| ==> attempts[i - 1].1 + 0.25 <= attempts[i].1
      modifies this
      ensures done <==> exists i :: 0 <= i < |attempts| && attempts[i].0.result.Acked?
      ensures done ==> PulseOf(View(), r).NoPulse? && !Get(coils, r)
      ensures !done ==>
                PulseOf(View(), r) == Releasing(attempts[0].1, attempts[|attempts| - 1].1 + 0.25)
      ensures View() == FireAll(old(View()), r, attempts)
    {
      ghost var start := View();
      done := FirstAttempt(r, attempts[0].0, attempts[0].1);
      assert attempts[..1][..0] == [];
      var i := 1;
      while !done && i < |attempts|
        invariant 1 <= i <= |attempts| && View() == FireAll(start, r, attempts[..i])
        invariant forall j :: 0 <= j < i - 1 ==> !attempts[j].0.result.Acked?
        invariant done == attempts[i - 1].0.result.Acked?
        invariant done ==> PulseOf(View(), r).NoPulse? && !Get(coils, r)
        invariant !done ==> PulseOf(View(), r) == Releasing(attempts[0].1, attempts[i - 1].1 + PULSE_RELEASE_RETRY_S)
      {
        assert attempts[..i + 1][..i] == attempts[..i];
        done := NextAttempt(r, attempts[i].0, attempts[i].1);
        i := i + 1;
      }
      if done {
        FiringStops(start, r, attempts, i);
      } else {
        assert attempts[..i] == attempts;
      }
    }

    method CheckOutputConsistency(actual: Outputs, now: real) returns (ok: bool)
      ensures ok == Consistent(View(), actual, now)
      ensures ok <==> forall r :: r in commanded && now - commanded[r].at >= 0.5
                                  ==> Get(actual, r) == commanded[r].value
    {
      var left := commanded.Keys;
      while left != {}
        invariant left <= commanded.Keys
        invariant forall r :: r in commanded && r !in left ==>
          now - commanded[r].at < OUTPUT_SETTLING_S || Get(actual, r) == commanded[r].value
        decreases |left|
      {
        var r :| r in left;
        if !(now - commanded[r].at < OUTPUT_SETTLING_S) && Get(actual, r) != commanded[r].value {
          return false;
        }
        left := left - {r};
      }
      return true;
    }
  }

  /** Successive wake-ups of one release task. */
  function FireAll(d: Driver, r: Relay, attempts: seq<(Link, real)>): Driver {
    if attempts == [] then d
    else
      var n := |attempts| - 1;
      FirePulse(FireAll(d, r, attempts[..n]), r, attempts[n].0, attempts[n].1)
  }

  /** Once the release task has ended, further wake-ups do nothing. */
  lemma {:induction false} FiringStops(d: Driver, r: Relay, attempts: seq<(Link, real)>, n: nat)
    requires n <= |attempts| && PulseOf(FireAll(d, r, attempts[..n]), r).NoPulse?
    ensures FireAll(d, r, attempts) == FireAll(d, r, attempts[..n])
    decreases |attempts|
  {
    if n < |attempts| {
      var m := |attempts| - 1;
      assert attempts[..m][..n] == attempts[..n];
      FiringStops(d, r, attempts[..m], n);
    } else {
      assert attempts[..n] == attempts;
    }
  }

  /** The call with one argument is the checks of that command, then what a reconnect finds, then
      its write. */
  lemma IntentIsCall(d: Driver, i: Intent, link: Relay -> Link, now: real)
    ensures var l := link(RelayOf(i));
            Drive(d, CallOf(i), link, now)
            == match Check(d, i)
               case Refused => (false, d)
               case Ignored => (true, d)
               case Passed(d1) => (l.result.Acked?, WriteIntent(Reverified(d1, l.verdict), i, l.result, now))
  {
  }

  /** The gate is not asked again: a command leaves its relay newly on while the fail-safe is
      unverified exactly if it passed its checks, its write reconnected to a module that fails
      the check, and the write arrived. */
  lemma UnverifiedCallExactlyWhen(d: Driver, i: Intent, link: Relay -> Link, now: real)
    requires Asserts(i) && !Get(d.coils, RelayOf(i))
    ensures var d' := Drive(d, CallOf(i), link, now).1;
            var l := link(RelayOf(i));
            Get(d'.coils, RelayOf(i)) && !d'.armed
            <==> Check(d, i).Passed? && l.verdict == Some(false) && !l.result.Lost?
  {
    IntentIsCall(d, i, link, now);
  }
}
