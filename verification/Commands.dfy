/**
 What a command write means, from the words on the wire to the relay that moves and back to the
 register that reads it: said with the numbers of the protocol alone.
 */
module Commands {
  import opened Prelude
  import opened Store
  import opened Adam
  import opened Watchdog
  import opened Protocol

  /** A write of one word is accepted for any command register in automatic mode, and for the
      inhibit register in manual mode too; every word that is in pattern for its register puts one
      command on its way and any other word none. */
  lemma OneWordCommands(s: StoreState, fc: FunctionCode, addr: int, value: int)
    requires fc.WriteSingle? || fc.WriteMultiple?
    ensures var accepted := Validate(s, fc, addr, 1, false).0;
            var intents := GuardedWrite(s, fc, addr, [value]).0;
            && (accepted <==> (s.snap.mode.Auto? && 0x100 <= addr <= 0x103) || (s.snap.mode.Manual? && addr == 0x101))
            && (!accepted ==> intents == [])
            && (accepted && addr == 0x100 ==> intents == if value == 1 then [PulseTest(750)] else [])
            && (accepted && addr == 0x101 && value == 0 ==> intents == [SetInhibit(false)])
            && (accepted && addr == 0x101 && value == 1 ==> intents == [SetInhibit(true)])
            && (accepted && addr == 0x102 && value == 0 ==> intents == [SetForce(false)])
            && (accepted && addr == 0x102 && value == 1 ==> intents == [SetForce(true)])
            && (accepted && addr == 0x103 ==> intents == if value == 1 then [PulseBypass(750)] else [])
            && (value != 0 && value != 1 ==> intents == [])
  {
    OneWord(s, fc, addr, value);
  }

  lemma OneWord(s: StoreState, fc: FunctionCode, addr: int, value: int)
    requires fc.WriteSingle? || fc.WriteMultiple?
    ensures Validate(s, fc, addr, 1, false).0 <==> ModeAllows(addr, s.snap.mode)
    ensures var intent := IntentOf(addr, value);
            GuardedWrite(s, fc, addr, [value]).0
            == if ModeAllows(addr, s.snap.mode) && intent.Some? then [intent.value] else []
  {
    GuardWordsExact(s, addr, 1);
    assert Permitted(s.snap.mode, addr, 1) <==> ModeAllows(addr, s.snap.mode);
    if ModeAllows(addr, s.snap.mode) {
      WriteWordsExact(s, addr, [value]);
      assert [value][1..] == [] && InPattern(addr + 1, []) == [];
    }
  }

  /** The commands of the words written one at a time. */
  function OneByOne(s: StoreState, addr: int, values: seq<int>): seq<Intent>
    decreases |values|
  {
    if values == [] then [] else GuardedWrite(s, WriteSingle, addr, [values[0]]).0 + OneByOne(s, addr + 1, values[1..])
  }

  lemma {:induction false} InPatternOneByOne(s: StoreState, addr: int, values: seq<int>)
    requires Permitted(s.snap.mode, addr, |values|)
    ensures InPattern(addr, values) == OneByOne(s, addr, values)
    decreases |values|
  {
    if values != [] {
      assert ModeAllows(addr, s.snap.mode);
      assert Permitted(s.snap.mode, addr + 1, |values[1..]|);
      OneWord(s, WriteSingle, addr, values[0]);
      InPatternOneByOne(s, addr + 1, values[1..]);
    }
  }

  /** A write of several words is accepted as a whole or not at all, and accepted it means the same
      as its words written one at a time. */
  lemma ManyWordsCommand(s: StoreState, fc: FunctionCode, addr: int, values: seq<int>)
    requires (fc.WriteSingle? || fc.WriteMultiple?) && values != []
    ensures var accepted := Validate(s, fc, addr, |values|, false).0;
            && (accepted <==> || (s.snap.mode.Auto? && 0x100 <= addr && addr + |values| <= 0x104)
                              || (s.snap.mode.Manual? && addr == 0x101 && |values| == 1))
            && GuardedWrite(s, fc, addr, values).0 == if accepted then OneByOne(s, addr, values) else []
  {
    GuardWordsExact(s, addr, |values|);
    RangePermitted(s.snap.mode, addr, |values|);
    if Permitted(s.snap.mode, addr, |values|) {
      WriteWordsExact(s, addr, values);
      InPatternOneByOne(s, addr, values);
    }
  }

  lemma RangePermitted(mode: Mode, addr: int, count: nat)
    requires count > 0
    ensures Permitted(mode, addr, count)
            <==> (mode.Auto? && 0x100 <= addr && addr + count <= 0x104) || (mode.Manual? && addr == 0x101 && count == 1)
  {
    if Permitted(mode, addr, count) {
      assert ModeAllows(addr, mode) && ModeAllows(addr + count - 1, mode);
    }
  }

  // ---------------------------------------------------------------------- from the word to the relay

  /** The task of a request's one command reaches its checks and is written, with nothing in
      between. */
  function Command(s: System, conn: Conn, fc: FunctionCode, addr: int, value: int, write: Event): seq<Event> {
    [Request(conn, fc, Some(addr), [value]), DispatchStart(|s.tasks|), write]
  }

  lemma RunThree(s: System, a: Event, b: Event, c: Event)
    ensures Run(s, [a, b, c]) == Step(Step(Step(s, a), b), c)
  {
    assert [a, b, c] == [a] + [b] + [c];
    RunAppend(s, [a] + [b], [c]);
    RunAppend(s, [a], [b]);
    RunOne(s, a);
    RunOne(Step(s, a), b);
    RunOne(Step(Step(s, a), b), c);
  }

  /** A request whose one word stands for `i`. */
  lemma RequestQueues(s: System, conn: Conn, fc: FunctionCode, addr: int, value: int, i: Intent)
    requires (fc.WriteSingle? || fc.WriteMultiple?) && GuardedWrite(s.store, fc, addr, [value]).0 == [i]
    ensures var t := Step(s, Request(conn, fc, Some(addr), [value]));
            t.tasks == s.tasks + [i] && t.driver == s.driver && t.gated == s.gated && t.now == s.now
  {
  }

  /** The last task, a maintained command, is checked and written. */
  lemma DispatchLast(s: System, i: Maintained)
    requires s.tasks != [] && s.tasks[|s.tasks| - 1] == i && (s.driver.armed || !Asserts(i))
    ensures var t := Step(Step(s, DispatchStart(|s.tasks| - 1)), DispatchWrite(|s.gated|, Acked));
            t.driver.coils == Set(s.driver.coils, RelayOf(i), i.on)
  {
    assert Step(s, DispatchStart(|s.tasks| - 1)).gated == s.gated + [i];
  }

  /** An accepted 0 or 1 for a maintained relay, written over a link that acknowledges, with the
      fail-safe verified where it is a 1: that relay is off or on as the word says, and no other
      has moved. */
  lemma MaintainedWordMovesRelay(s: System, conn: Conn, fc: FunctionCode, addr: int, value: int)
    requires (fc.WriteSingle? || fc.WriteMultiple?) && Validate(s.store, fc, addr, 1, false).0
    requires (addr == 0x101 || addr == 0x102) && (value == 0 || (value == 1 && s.driver.armed))
    ensures var t := Run(s, Command(s, conn, fc, addr, value, DispatchWrite(|s.gated|, Acked)));
            t.driver.coils == if addr == 0x101 then s.driver.coils.(inhibit := value == 1)
                              else s.driver.coils.(force := value == 1)
  {
    var i := if addr == 0x101 then SetInhibit(value == 1) else SetForce(value == 1);
    assert GuardedWrite(s.store, fc, addr, [value]).0 == [i] by { OneWordCommands(s.store, fc, addr, value); }
    var request := Request(conn, fc, Some(addr), [value]);
    RequestQueues(s, conn, fc, addr, value, i);
    DispatchLast(Step(s, request), i);
    RunThree(s, request, DispatchStart(|s.tasks|), DispatchWrite(|s.gated|, Acked));
  }

  /** An accepted 1 for a pulsed relay whose pulse is not active: that relay is on, due to be
      released three quarters of a second later, and no other has moved. */
  lemma PulsedWordMovesRelay(s: System, conn: Conn, fc: FunctionCode, addr: int)
    requires (fc.WriteSingle? || fc.WriteMultiple?) && Validate(s.store, fc, addr, 1, false).0
    requires s.driver.armed && (addr == 0x100 || addr == 0x103)
    requires (if addr == 0x100 then s.driver.testPulse else s.driver.bypassPulse).NoPulse?
    ensures var r := if addr == 0x100 then TestRelay else BypassRelay;
            var t := Run(s, Command(s, conn, fc, addr, 1, PulseWrite(r, Acked)));
            && t.driver.coils
               == (if addr == 0x100 then s.driver.coils.(test := true) else s.driver.coils.(bypass := true))
            && (if addr == 0x100 then t.driver.testPulse else t.driver.bypassPulse) == Waiting(s.now + 0.75)
            && (if addr == 0x100 then t.driver.bypassPulse == s.driver.bypassPulse
                else t.driver.testPulse == s.driver.testPulse)
  {
    var r := if addr == 0x100 then TestRelay else BypassRelay;
    var i := if addr == 0x100 then PulseTest(750) else PulseBypass(750);
    assert GuardedWrite(s.store, fc, addr, [1]).0 == [i] by { OneWordCommands(s.store, fc, addr, 1); }
    var request := Request(conn, fc, Some(addr), [1]);
    RequestQueues(s, conn, fc, addr, 1, i);
    PulseLast(Step(s, request), i, r);
    RunThree(s, request, DispatchStart(|s.tasks|), PulseWrite(r, Acked));
    assert PulseSeconds(750) == 0.75;
  }

  /** The last task, a pulse, is checked and written. */
  lemma PulseLast(s: System, i: Intent, r: Relay)
    requires s.tasks != [] && s.tasks[|s.tasks| - 1] == i && s.driver.armed
    requires (i == PulseTest(750) && r == TestRelay) || (i == PulseBypass(750) && r == BypassRelay)
    requires PulseOf(s.driver, r).NoPulse?
    ensures var t := Step(Step(s, DispatchStart(|s.tasks| - 1)), PulseWrite(r, Acked));
            && t.driver.coils == Set(s.driver.coils, r, true)
            && (r.TestRelay? ==> t.driver.bypassPulse == s.driver.bypassPulse)
            && (r.BypassRelay? ==> t.driver.testPulse == s.driver.testPulse)
            && PulseOf(t.driver, r) == Waiting(s.now + PulseSeconds(750))
  {
    var s2 := Step(s, DispatchStart(|s.tasks| - 1));
    assert PulseOf(s2.driver, r) == Starting(750) && s2.driver.coils == s.driver.coils && s2.now == s.now;
  }

  /** A word out of pattern puts nothing on its way and moves no relay; nor does a refused one. */
  lemma OtherWordsDoNothing(s: System, conn: Conn, fc: FunctionCode, addr: int, value: int)
    requires fc.WriteSingle? || fc.WriteMultiple?
    requires || !Validate(s.store, fc, addr, 1, false).0
             || (value != 1 && !(value == 0 && (addr == 0x101 || addr == 0x102)))
    ensures var t := Step(s, Request(conn, fc, Some(addr), [value]));
            t.tasks == s.tasks && t.gated == s.gated && t.driver == s.driver
  {
    OneWordCommands(s.store, fc, addr, value);
    assert s.tasks + [] == s.tasks;
  }

  /** Of all the other requests none ever changes anything but who keeps the watchdog quiet: reads of
      registers are always accepted, writes of coils and combined reads and writes never are, and
      what the library answers to the rest is left alone. */
  lemma OtherRequestsDoNothing(s: System, conn: Conn, fc: FunctionCode, addr: int, values: seq<int>, count: nat,
                               fallback: bool)
    requires !fc.WriteSingle? && !fc.WriteMultiple?
    ensures var t := Step(s, Request(conn, fc, Some(addr), values));
            t.store == s.store && t.tasks == s.tasks && t.gated == s.gated && t.driver == s.driver
    ensures Validate(s.store, fc, addr, count, fallback).1 == s.store
    ensures fc.ReadHolding? || fc.ReadInput? ==> Validate(s.store, fc, addr, count, fallback).0
    ensures fc.WriteCoil? || fc.ReadWriteMultiple? ==> !Validate(s.store, fc, addr, count, fallback).0
    ensures fc.OtherFunction? ==> Validate(s.store, fc, addr, count, fallback).0 == fallback
  {
    assert s.tasks + [] == s.tasks;
  }

  /** What a process serves before its first sampling cycle: position and mode unknown, no source, no
      call, no fault and no relay; and of what was saved the two times and the count. */
  lemma StartServes(p: Persisted, start: int, id: Identity, mono: real, wall: int)
    ensures var snap := Load(p, start).snap;
            && ReadRegister(snap, id, 0x0000, mono, wall) == 3 && ReadRegister(snap, id, 0x0004, mono, wall) == 3
            && (forall a :: 0x0001 <= a <= 0x0003 || a == 0x0005 || 0x0040 <= a <= 0x0043
                  ==> ReadRegister(snap, id, a, mono, wall) == 0)
            && snap.lastToGenerator == p.lastToGenerator && snap.lastToUtility == p.lastToUtility
            && snap.lifetime == p.lifetime
  {
  }

  /** The read-back registers are the relays as the last sampling cycle found them. */
  lemma ReadBackIsRelay(s: System, inputs: Inputs, wall: int, id: Identity, mono: real, later: int)
    requires s.reset.Done?
    ensures var snap := Step(s, Sample(inputs, wall)).store.snap;
            && ReadRegister(snap, id, 0x40, mono, later) == (if s.driver.coils.test then 1 else 0)
            && ReadRegister(snap, id, 0x41, mono, later) == (if s.driver.coils.inhibit then 1 else 0)
            && ReadRegister(snap, id, 0x42, mono, later) == (if s.driver.coils.force then 1 else 0)
            && ReadRegister(snap, id, 0x43, mono, later) == (if s.driver.coils.bypass then 1 else 0)
  {
  }

  /** A release that has begun clears the two maintained ones at once, and no other register. */
  lemma ReleaseClearsReadBack(s: StoreState, id: Identity, a: int, mono: real, later: int)
    ensures ReadRegister(Store.Release(s).snap, id, a, mono, later)
            == if a == 0x41 || a == 0x42 then 0 else ReadRegister(s.snap, id, a, mono, later)
  {
  }
}
