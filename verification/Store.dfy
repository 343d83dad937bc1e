/**
 The register store of the ATS companion (atspi/state.py) and the write guard that the
 Modbus server puts in front of it (atspi/server.py).

 `StoreState` is the value of the store; the functions below say what each operation makes
 of it. `RegisterStore` is the object that the server, the sampling loop and the watchdog
 share; each of its methods is proved to move the value exactly as its function says.
 */
module Store {
  import opened Prelude

  // Register addresses (PDU offsets).
  const ADDR_POSITION := 0x0000
  const ADDR_NORMAL_AVAIL := 0x0001
  const ADDR_EMERGENCY_AVAIL := 0x0002
  const ADDR_ENGINE_START_CALLING := 0x0003
  const ADDR_ATS_MODE := 0x0004
  const ADDR_FAULT_SUMMARY := 0x0005
  const ADDR_LAST_TRANSFER_TS := 0x0010
  const ADDR_LAST_RETRANSFER_TS := 0x0012
  const ADDR_UPTIME_S := 0x0014
  const ADDR_WALLCLOCK := 0x0016
  const ADDR_TRANSFER_COUNT_LIFETIME := 0x0020
  const ADDR_TRANSFER_COUNT_24H := 0x0022
  const ADDR_ICD_MAJOR := 0x0030
  const ADDR_ICD_MINOR := 0x0031
  const ADDR_FW_MAJOR := 0x0032
  const ADDR_FW_MINOR := 0x0033
  const ADDR_FW_PATCH := 0x0034
  const ADDR_UNIT_ID := 0x0035
  const ADDR_CMD_TEST_RB := 0x0040
  const ADDR_CMD_INHIBIT_RB := 0x0041
  const ADDR_CMD_FORCE_TRANSFER_RB := 0x0042
  const ADDR_CMD_BYPASS_DELAY_RB := 0x0043
  const ADDR_CMD_TEST := 0x0100
  const ADDR_CMD_INHIBIT := 0x0101
  const ADDR_CMD_FORCE_TRANSFER := 0x0102
  const ADDR_CMD_BYPASS_DELAY := 0x0103

  const DEFAULT_PULSE_MS := 750
  const ROLLING_WINDOW_S := 86400

  /** A fault word, as the set of the numbers of its one-bits. */
  type Bits = set<nat>

  const FAULT_INPUT: nat := 0
  const FAULT_OUTPUT: nat := 1
  const FAULT_MODE_UNKNOWN: nat := 2
  const FAULT_CALIBRATION: nat := 3
  const FAULT_DEFINED_MASK: Bits := {FAULT_INPUT, FAULT_OUTPUT, FAULT_MODE_UNKNOWN, FAULT_CALIBRATION}
  const LOCAL_FAULT_MASK: Bits := {FAULT_INPUT, FAULT_OUTPUT}

  datatype Position = Utility | Generator | Transferring | UnknownPosition

  datatype Mode = Auto | Manual | TestMode | UnknownMode

  /** One coherent read of the input contacts. */
  datatype Inputs = Inputs(position: Position, normalAvailable: bool, emergencyAvailable: bool,
                           engineStart: bool, mode: Mode, faultBits: Bits)

  /** The relay outputs as read back from the module. */
  datatype Outputs = Outputs(test: bool, inhibit: bool, force: bool, bypass: bool)

  /** The published state; replaced as a whole by every writer. */
  datatype Snapshot = Snapshot(
    position: Position,
    normalAvailable: bool,
    emergencyAvailable: bool,
    engineStart: bool,
    mode: Mode,
    faultBits: Bits,
    lastToGenerator: int,
    lastToUtility: int,
    lifetime: int,
    count24h: int,
    outputs: Outputs,
    modeReject: bool)

  /** The fields that survive a restart. */
  datatype Persisted = Persisted(lifetime: int, lastToGenerator: int, lastToUtility: int, recent: seq<int>)

  const ZEROES := Persisted(0, 0, 0, [])

  /** The published snapshot and the wall-clock times of recent transfers. */
  datatype StoreState = StoreState(snap: Snapshot, recent: seq<int>)

  /** A recognised command write, on its way to the relay driver. */
  datatype Intent =
    | PulseTest(ms: int)
    | SetInhibit(on: bool)
    | SetForce(on: bool)
    | PulseBypass(ms: int)

  /** Constants of one process that the identification and uptime registers report. */
  datatype Identity = Identity(unitId: int, icdMajor: int, icdMinor: int,
                               fwMajor: int, fwMinor: int, fwPatch: int, bootMono: real)

  // ---------------------------------------------------------------- the value of the store

  /** The times in `s` that are not before `cutoff`, in order. */
  function Since(s: seq<int>, cutoff: int): (r: seq<int>)
    ensures |r| <= |s|
  {
    if s == [] then [] else (if s[0] >= cutoff then [s[0]] else []) + Since(s[1..], cutoff)
  }

  /** The times left once those at the front that are before `cutoff` have been dropped. */
  function Evict(s: seq<int>, cutoff: int): (r: seq<int>)
    ensures |r| <= |s| && (r != [] ==> r[0] >= cutoff)
  {
    if s != [] && s[0] < cutoff then Evict(s[1..], cutoff) else s
  }

  /** The state a process starts from, given what was persisted. */
  function Load(p: Persisted, nowWall: int): StoreState {
    var recent := Since(p.recent, nowWall - ROLLING_WINDOW_S);
    StoreState(
      Snapshot(UnknownPosition, false, false, false, UnknownMode, {},
               p.lastToGenerator, p.lastToUtility, p.lifetime, |recent|,
               Outputs(false, false, false, false), false),
      recent)
  }

  function ToPersisted(s: StoreState): Persisted {
    Persisted(s.snap.lifetime, s.snap.lastToGenerator, s.snap.lastToUtility, s.recent)
  }

  /** A transfer to the generator: reached from utility, or from the stroke in between. */
  predicate TransferredToGenerator(before: Position, after: Position) {
    (before.Utility? || before.Transferring?) && after.Generator?
  }

  predicate RetransferredToUtility(before: Position, after: Position) {
    (before.Generator? || before.Transferring?) && after.Utility?
  }

  /** The low sixteen bits. */
  function Word(bits: Bits): Bits {
    set b | b in bits && b < 16
  }

  function MergeFaults(own: Bits, driver: Bits): Bits {
    Word(own * LOCAL_FAULT_MASK + (driver - LOCAL_FAULT_MASK))
  }

  function ApplyInputs(s: StoreState, inputs: Inputs, nowWall: int): StoreState {
    var toGenerator := TransferredToGenerator(s.snap.position, inputs.position);
    var toUtility := RetransferredToUtility(s.snap.position, inputs.position);
    var recent := Evict(if toGenerator then s.recent + [nowWall] else s.recent, nowWall - ROLLING_WINDOW_S);
    StoreState(
      Snapshot(inputs.position, inputs.normalAvailable, inputs.emergencyAvailable,
               inputs.engineStart, inputs.mode, MergeFaults(s.snap.faultBits, inputs.faultBits),
               if toGenerator then nowWall else s.snap.lastToGenerator,
               if toUtility then nowWall else s.snap.lastToUtility,
               if toGenerator then s.snap.lifetime + 1 else s.snap.lifetime,
               |recent|, s.snap.outputs, s.snap.modeReject),
      recent)
  }

  function ApplyOutputs(s: StoreState, outputs: Outputs): StoreState {
    s.(snap := s.snap.(outputs := outputs))
  }

  function SetFault(bits: Bits, bit: nat, on: bool): Bits {
    Word(if on then bits + {bit} else bits - {bit})
  }

  function WithInputFault(s: StoreState, on: bool): StoreState {
    s.(snap := s.snap.(faultBits := SetFault(s.snap.faultBits, FAULT_INPUT, on)))
  }

  function WithOutputFault(s: StoreState, on: bool): StoreState {
    s.(snap := s.snap.(faultBits := SetFault(s.snap.faultBits, FAULT_OUTPUT, on)))
  }

  function Release(s: StoreState): StoreState {
    s.(snap := s.snap.(outputs := s.snap.outputs.(inhibit := false, force := false)))
  }

  predicate IsCommandRegister(addr: int) {
    ADDR_CMD_TEST <= addr <= ADDR_CMD_BYPASS_DELAY
  }

  /** The modes in which a command register accepts writes. */
  predicate ModeAllows(addr: int, mode: Mode) {
    IsCommandRegister(addr) && (mode.Auto? || (addr == ADDR_CMD_INHIBIT && mode.Manual?))
  }

  function CanWrite(s: StoreState, addr: int): (bool, StoreState) {
    if !IsCommandRegister(addr) then (false, s)
    else if ModeAllows(addr, s.snap.mode) then (true, s)
    else (false, s.(snap := s.snap.(modeReject := true)))
  }

  /** The command that a value written to a register stands for, if any. */
  function IntentOf(addr: int, value: int): Option<Intent> {
    if addr == ADDR_CMD_TEST && value == 1 then Some(PulseTest(DEFAULT_PULSE_MS))
    else if addr == ADDR_CMD_INHIBIT && (value == 0 || value == 1) then Some(SetInhibit(value == 1))
    else if addr == ADDR_CMD_FORCE_TRANSFER && (value == 0 || value == 1) then Some(SetForce(value == 1))
    else if addr == ADDR_CMD_BYPASS_DELAY && value == 1 then Some(PulseBypass(DEFAULT_PULSE_MS))
    else None
  }

  function WriteRegister(s: StoreState, addr: int, value: int): (Option<Intent>, StoreState) {
    if !IsCommandRegister(addr) then (None, s)
    else if !ModeAllows(addr, s.snap.mode) then (None, s.(snap := s.snap.(modeReject := true)))
    else if IntentOf(addr, value).Some? then (IntentOf(addr, value), s.(snap := s.snap.(modeReject := false)))
    else (None, s)
  }

  function HighWord(x: int): int { x / 0x1_0000 % 0x1_0000 }

  function LowWord(x: int): int { x % 0x1_0000 }

  function FromBool(b: bool): int { if b then 1 else 0 }

  function FaultSummary(s: Snapshot): Bits {
    (if s.modeReject then s.faultBits + {FAULT_INPUT} else s.faultBits) * FAULT_DEFINED_MASK
  }

  /** The number that a word of defined fault bits is on the wire. */
  function WireValue(bits: Bits): int {
    FromBool(0 in bits) + 2 * FromBool(1 in bits) + 4 * FromBool(2 in bits) + 8 * FromBool(3 in bits)
  }

  /** Bit by bit. */
  lemma WireValueBits(bits: Bits)
    ensures var v := WireValue(bits);
            && 0 <= v < 16 && (v % 2 == 1 <==> 0 in bits) && (v / 2 % 2 == 1 <==> 1 in bits)
            && (v / 4 % 2 == 1 <==> 2 in bits) && (v / 8 % 2 == 1 <==> 3 in bits)
  {
  }

  /** The value served at an address. */
  function ReadRegister(s: Snapshot, id: Identity, addr: int, nowMono: real, nowWall: int): int {
    var uptime := (nowMono - id.bootMono).Floor;
    if addr == ADDR_POSITION then
      match s.position { case Utility => 0 case Generator => 1 case Transferring => 2 case UnknownPosition => 3 }
    else if addr == ADDR_NORMAL_AVAIL then FromBool(s.normalAvailable)
    else if addr == ADDR_EMERGENCY_AVAIL then FromBool(s.emergencyAvailable)
    else if addr == ADDR_ENGINE_START_CALLING then FromBool(s.engineStart)
    else if addr == ADDR_ATS_MODE then
      match s.mode { case Auto => 0 case Manual => 1 case TestMode => 2 case UnknownMode => 3 }
    else if addr == ADDR_FAULT_SUMMARY then WireValue(FaultSummary(s))
    else if addr == ADDR_LAST_TRANSFER_TS then HighWord(s.lastToGenerator)
    else if addr == ADDR_LAST_TRANSFER_TS + 1 then LowWord(s.lastToGenerator)
    else if addr == ADDR_LAST_RETRANSFER_TS then HighWord(s.lastToUtility)
    else if addr == ADDR_LAST_RETRANSFER_TS + 1 then LowWord(s.lastToUtility)
    else if addr == ADDR_UPTIME_S then HighWord(uptime)
    else if addr == ADDR_UPTIME_S + 1 then LowWord(uptime)
    else if addr == ADDR_WALLCLOCK then HighWord(nowWall)
    else if addr == ADDR_WALLCLOCK + 1 then LowWord(nowWall)
    else if addr == ADDR_TRANSFER_COUNT_LIFETIME then HighWord(s.lifetime)
    else if addr == ADDR_TRANSFER_COUNT_LIFETIME + 1 then LowWord(s.lifetime)
    else if addr == ADDR_TRANSFER_COUNT_24H then HighWord(s.count24h)
    else if addr == ADDR_TRANSFER_COUNT_24H + 1 then LowWord(s.count24h)
    else if addr == ADDR_ICD_MAJOR then id.icdMajor
    else if addr == ADDR_ICD_MINOR then id.icdMinor
    else if addr == ADDR_FW_MAJOR then id.fwMajor
    else if addr == ADDR_FW_MINOR then id.fwMinor
    else if addr == ADDR_FW_PATCH then id.fwPatch
    else if addr == ADDR_UNIT_ID then id.unitId
    else if addr == ADDR_CMD_TEST_RB then FromBool(s.outputs.test)
    else if addr == ADDR_CMD_INHIBIT_RB then FromBool(s.outputs.inhibit)
    else if addr == ADDR_CMD_FORCE_TRANSFER_RB then FromBool(s.outputs.force)
    else if addr == ADDR_CMD_BYPASS_DELAY_RB then FromBool(s.outputs.bypass)
    else 0
  }

  /** The 32-bit field that begins at an address. */
  predicate Publishes(s: Snapshot, id: Identity, addr: int, nowMono: real, nowWall: int, value: int) {
    || (addr == ADDR_LAST_TRANSFER_TS && value == s.lastToGenerator)
    || (addr == ADDR_LAST_RETRANSFER_TS && value == s.lastToUtility)
    || (addr == ADDR_UPTIME_S && value == (nowMono - id.bootMono).Floor)
    || (addr == ADDR_WALLCLOCK && value == nowWall)
    || (addr == ADDR_TRANSFER_COUNT_LIFETIME && value == s.lifetime)
    || (addr == ADDR_TRANSFER_COUNT_24H && value == s.count24h)
  }

  /** Two neighbouring registers read at one time put each 32-bit field together again, high word
      first, modulo 2^32. */
  lemma TwoWordsCarryField(s: Snapshot, id: Identity, addr: int, nowMono: real, nowWall: int, value: int)
    requires Publishes(s, id, addr, nowMono, nowWall, value)
    ensures var high := ReadRegister(s, id, addr, nowMono, nowWall);
            var low := ReadRegister(s, id, addr + 1, nowMono, nowWall);
            && 0 <= high < 0x1_0000 && 0 <= low < 0x1_0000
            && high * 0x1_0000 + low == value % 0x1_0000_0000
  {
    WordsJoin(value);
    assert ReadRegister(s, id, addr, nowMono, nowWall) == HighWord(value);
    assert ReadRegister(s, id, addr + 1, nowMono, nowWall) == LowWord(value);
  }

  lemma WordsJoin(x: int)
    ensures HighWord(x) * 0x1_0000 + LowWord(x) == x % 0x1_0000_0000
  {
    var q := x / 0x1_0000;
    assert x == q * 0x1_0000 + LowWord(x);
    assert q == q / 0x1_0000 * 0x1_0000 + HighWord(x);
  }

  // ------------------------------------------------------------------------ guarded writes

  datatype FunctionCode =
    | ReadHolding | ReadInput | WriteSingle | WriteMultiple | WriteCoil | ReadWriteMultiple | OtherFunction

  predicate IsHoldingWrite(fc: FunctionCode) {
    fc.WriteSingle? || fc.WriteMultiple?
  }

  /** Checks the words `[addr, addr + count)` in order; stops at the first refusal. */
  function GuardWords(s: StoreState, addr: int, count: nat): (bool, StoreState)
    decreases count
  {
    if count == 0 then (true, s)
    else
      var (ok, s1) := CanWrite(s, addr);
      if ok then GuardWords(s1, addr + 1, count - 1) else (false, s1)
  }

  /** The server's decision about a request; `fallback` is the library's own answer for
      function codes that the guard leaves alone. */
  function Validate(s: StoreState, fc: FunctionCode, addr: int, count: nat, fallback: bool): (bool, StoreState) {
    match fc
    case WriteCoil => (false, s)
    case ReadWriteMultiple => (false, s)
    case WriteSingle => GuardWords(s, addr, count)
    case WriteMultiple => GuardWords(s, addr, count)
    case ReadHolding => (true, s)
    case ReadInput => (true, s)
    case OtherFunction => (fallback, s)
  }

  /** Writes the words in order and collects the commands they stand for. */
  function WriteWords(s: StoreState, addr: int, values: seq<int>): (seq<Intent>, StoreState)
    decreases |values|
  {
    if values == [] then ([], s)
    else
      var (intent, s1) := WriteRegister(s, addr, values[0]);
      var (rest, s2) := WriteWords(s1, addr + 1, values[1..]);
      (if intent.Some? then [intent.value] + rest else rest, s2)
  }

  /** A whole holding-register write: validated first, then written word by word. */
  function GuardedWrite(s: StoreState, fc: FunctionCode, addr: int, values: seq<int>): (seq<Intent>, StoreState) {
    var (ok, s1) := Validate(s, fc, addr, |values|, false);
    if ok && IsHoldingWrite(fc) then WriteWords(s1, addr, values) else ([], s1)
  }

  /** The commands that the in-pattern words of a write stand for, in order. */
  function InPattern(addr: int, values: seq<int>): seq<Intent>
    decreases |values|
  {
    if values == [] then []
    else (if IntentOf(addr, values[0]).Some? then [IntentOf(addr, values[0]).value] else [])
         + InPattern(addr + 1, values[1..])
  }

  /** Every word of the range is a command register that the mode admits. */
  predicate Permitted(mode: Mode, addr: int, count: nat) {
    forall k :: addr <= k < addr + count ==> ModeAllows(k, mode)
  }

  /** The guard accepts exactly the permitted ranges, and touches nothing but the latch. */
  lemma {:induction false} GuardWordsExact(s: StoreState, addr: int, count: nat)
    ensures GuardWords(s, addr, count).0 <==> Permitted(s.snap.mode, addr, count)
    ensures GuardWords(s, addr, count).0 ==> GuardWords(s, addr, count).1 == s
    ensures !GuardWords(s, addr, count).0 ==>
              GuardWords(s, addr, count).1 in {s, s.(snap := s.snap.(modeReject := true))}
    decreases count
  {
    if count > 0 {
      GuardWordsExact(s, addr + 1, count - 1);
      if ModeAllows(addr, s.snap.mode) {
        assert Permitted(s.snap.mode, addr, count) <==> Permitted(s.snap.mode, addr + 1, count - 1);
      } else {
        assert !Permitted(s.snap.mode, addr, count) by { assert addr <= addr < addr + count; }
      }
    }
  }

  /** In a permitted range each in-pattern word gives one command and the others give none;
      the only field that can move is the latch, which the first command clears. */
  lemma {:induction false} WriteWordsExact(s: StoreState, addr: int, values: seq<int>)
    requires Permitted(s.snap.mode, addr, |values|)
    ensures WriteWords(s, addr, values).0 == InPattern(addr, values)
    ensures WriteWords(s, addr, values).1 ==
            s.(snap := s.snap.(modeReject := s.snap.modeReject && InPattern(addr, values) == []))
    decreases |values|
  {
    if values != [] {
      var s1 := WriteRegister(s, addr, values[0]).1;
      assert ModeAllows(addr, s.snap.mode);
      assert Permitted(s1.snap.mode, addr + 1, |values[1..]|);
      WriteWordsExact(s1, addr + 1, values[1..]);
    }
  }

  /** The latch of a rejection shows in one register, and there in one bit. */
  lemma LatchShows(s: StoreState, latch: bool, id: Identity, nowMono: real, nowWall: int)
    ensures var after := s.snap.(modeReject := latch);
            && (forall a :: a != ADDR_FAULT_SUMMARY ==>
                  ReadRegister(after, id, a, nowMono, nowWall) == ReadRegister(s.snap, id, a, nowMono, nowWall))
            && FaultSummary(after) - {FAULT_INPUT} == FaultSummary(s.snap) - {FAULT_INPUT}
  {
  }

  /** What a holding write of one or more words does: it is accepted exactly when every word
      it touches is a command register open in the current mode; an accepted write yields one
      command per in-pattern word, in order; a refused one yields none; and of all the
      registers served, only the mode-reject bit of the fault summary can change. */
  lemma GuardedWriteEffect(s: StoreState, fc: FunctionCode, addr: int, values: seq<int>,
                           id: Identity, nowMono: real, nowWall: int)
    requires IsHoldingWrite(fc) && values != []
    ensures var accepted := Validate(s, fc, addr, |values|, false).0;
            var (intents, after) := GuardedWrite(s, fc, addr, values);
            && (accepted <==> Permitted(s.snap.mode, addr, |values|))
            && (accepted ==> IsCommandRegister(addr) && IsCommandRegister(addr + |values| - 1))
            && intents == (if accepted then InPattern(addr, values) else [])
            && after.recent == s.recent
            && (forall a :: a != ADDR_FAULT_SUMMARY ==>
                  ReadRegister(after.snap, id, a, nowMono, nowWall) == ReadRegister(s.snap, id, a, nowMono, nowWall))
            && FaultSummary(after.snap) - {FAULT_INPUT} == FaultSummary(s.snap) - {FAULT_INPUT}
  {
    GuardWordsExact(s, addr, |values|);
    if Permitted(s.snap.mode, addr, |values|) {
      WriteWordsExact(s, addr, values);
      assert ModeAllows(addr, s.snap.mode) && ModeAllows(addr + |values| - 1, s.snap.mode);
    }
    var after := GuardedWrite(s, fc, addr, values).1;
    assert after == s.(snap := s.snap.(modeReject := after.snap.modeReject));
    LatchShows(s, after.snap.modeReject, id, nowMono, nowWall);
  }

  // ---------------------------------------------------------------------------- the object

  /** What a snapshot asks of the state file: nothing, a save before anything else runs, or a
      save in the background. */
  datatype SaveRequest = NoSave | SaveNow(p: Persisted) | SaveLater(p: Persisted)

  function SaveFor(s: StoreState, inputs: Inputs, nowWall: int): SaveRequest {
    var after := ToPersisted(ApplyInputs(s, inputs, nowWall));
    if TransferredToGenerator(s.snap.position, inputs.position) then SaveNow(after)
    else if RetransferredToUtility(s.snap.position, inputs.position) then SaveLater(after)
    else NoSave
  }

  class RegisterStore {
    var snap: Snapshot
    var recent: seq<int>
    const id: Identity

    ghost function View(): StoreState
      reads this
    {
      StoreState(snap, recent)
    }

    constructor (id: Identity, persisted: Persisted, nowWall: int)
      ensures View() == Load(persisted, nowWall) && this.id == id
    {
      this.id := id;
      var cutoff := nowWall - ROLLING_WINDOW_S;
      var kept: seq<int> := [];
      var i := 0;
      while i < |persisted.recent|
        invariant 0 <= i <= |persisted.recent|
        invariant kept + Since(persisted.recent[i..], cutoff) == Since(persisted.recent, cutoff)
      {
        assert persisted.recent[i..][1..] == persisted.recent[i + 1..];
        if persisted.recent[i] >= cutoff {
          kept := kept + [persisted.recent[i]];
        }
        i := i + 1;
      }
      recent := kept;
      snap := Snapshot(UnknownPosition, false, false, false, UnknownMode, {},
                       persisted.lastToGenerator, persisted.lastToUtility, persisted.lifetime, |kept|,
                       Outputs(false, false, false, false), false);
    }

    method ApplyInputSnapshot(inputs: Inputs, nowWall: int) returns (save: SaveRequest)
      modifies this
      ensures View() == ApplyInputs(old(View()), inputs, nowWall)
      ensures save == SaveFor(old(View()), inputs, nowWall)
    {
      var prev := snap;
      var toGenerator, toUtility, lifetime := prev.lastToGenerator, prev.lastToUtility, prev.lifetime;
      var transferred := TransferredToGenerator(prev.position, inputs.position);
      var returned := RetransferredToUtility(prev.position, inputs.position);
      if transferred {
        toGenerator := nowWall;
        lifetime := lifetime + 1;
        recent := recent + [nowWall];
      } else if returned {
        toUtility := nowWall;
      }
      EvictOldTransfers(nowWall);
      snap := Snapshot(inputs.position, inputs.normalAvailable, inputs.emergencyAvailable,
                       inputs.engineStart, inputs.mode, MergeFaults(prev.faultBits, inputs.faultBits),
                       toGenerator, toUtility, lifetime, |recent|, prev.outputs, prev.modeReject);
      var p := Persisted(snap.lifetime, snap.lastToGenerator, snap.lastToUtility, recent);
      save := if transferred then SaveNow(p) else if returned then SaveLater(p) else NoSave;
    }

    method EvictOldTransfers(nowWall: int)
      modifies this`recent
      ensures recent == Evict(old(recent), nowWall - ROLLING_WINDOW_S)
    {
      var cutoff := nowWall - ROLLING_WINDOW_S;
      while recent != [] && recent[0] < cutoff
        invariant Evict(recent, cutoff) == Evict(old(recent), cutoff)
        decreases |recent|
      {
        recent := recent[1..];
      }
    }

    method ApplyOutputState(outputs: Outputs)
      modifies this
      ensures View() == ApplyOutputs(old(View()), outputs)
    {
      snap := snap.(outputs := outputs);
    }

    method SetInputFault(on: bool)
      modifies this
      ensures View() == WithInputFault(old(View()), on)
    {
      var bits := snap.faultBits;
      if on { bits := bits + {FAULT_INPUT}; } else { bits := bits - {FAULT_INPUT}; }
      snap := snap.(faultBits := Word(bits));
    }

    method SetOutputFault(on: bool)
      modifies this
      ensures View() == WithOutputFault(old(View()), on)
    {
      var bits := snap.faultBits;
      if on { bits := bits + {FAULT_OUTPUT}; } else { bits := bits - {FAULT_OUTPUT}; }
      snap := snap.(faultBits := Word(bits));
    }

    method ReleaseMaintainedCommands()
      modifies this
      ensures View() == Release(old(View()))
      ensures snap.outputs == Outputs(old(snap.outputs.test), false, false, old(snap.outputs.bypass))
    {
      snap := snap.(outputs := snap.outputs.(inhibit := false, force := false));
    }

    method MayWrite(addr: int) returns (ok: bool)
      modifies this
      ensures (ok, View()) == CanWrite(old(View()), addr)
    {
      if !IsCommandRegister(addr) {
        return false;
      }
      if !ModeAllows(addr, snap.mode) {
        snap := snap.(modeReject := true);
        return false;
      }
      return true;
    }

    method Write(addr: int, value: int) returns (intent: Option<Intent>)
      modifies this
      ensures (intent, View()) == WriteRegister(old(View()), addr, value)
    {
      if !IsCommandRegister(addr) {
        return None;
      }
      if !ModeAllows(addr, snap.mode) {
        snap := snap.(modeReject := true);
        return None;
      }
      intent := IntentOf(addr, value);
      if intent.Some? && snap.modeReject {
        snap := snap.(modeReject := false);
      }
    }

    method Read(addr: int, nowMono: real, nowWall: int) returns (v: int)
      ensures v == ReadRegister(snap, id, addr, nowMono, nowWall)
    {
      var s := snap;
      if addr == ADDR_POSITION {
        return match s.position {
          case Utility => 0 case Generator => 1 case Transferring => 2 case UnknownPosition => 3
        };
      }
      if addr == ADDR_NORMAL_AVAIL { return FromBool(s.normalAvailable); }
      if addr == ADDR_EMERGENCY_AVAIL { return FromBool(s.emergencyAvailable); }
      if addr == ADDR_ENGINE_START_CALLING { return FromBool(s.engineStart); }
      if addr == ADDR_ATS_MODE {
        return match s.mode { case Auto => 0 case Manual => 1 case TestMode => 2 case UnknownMode => 3 };
      }
      if addr == ADDR_FAULT_SUMMARY {
        var bits := s.faultBits;
        if s.modeReject { bits := bits + {FAULT_INPUT}; }
        return WireValue(bits * FAULT_DEFINED_MASK);
      }
      if addr == ADDR_LAST_TRANSFER_TS { return HighWord(s.lastToGenerator); }
      if addr == ADDR_LAST_TRANSFER_TS + 1 { return LowWord(s.lastToGenerator); }
      if addr == ADDR_LAST_RETRANSFER_TS { return HighWord(s.lastToUtility); }
      if addr == ADDR_LAST_RETRANSFER_TS + 1 { return LowWord(s.lastToUtility); }
      if addr == ADDR_UPTIME_S || addr == ADDR_UPTIME_S + 1 {
        var uptime := (nowMono - id.bootMono).Floor;
        return if addr == ADDR_UPTIME_S then HighWord(uptime) else LowWord(uptime);
      }
      if addr == ADDR_WALLCLOCK { return HighWord(nowWall); }
      if addr == ADDR_WALLCLOCK + 1 { return LowWord(nowWall); }
      if addr == ADDR_TRANSFER_COUNT_LIFETIME { return HighWord(s.lifetime); }
      if addr == ADDR_TRANSFER_COUNT_LIFETIME + 1 { return LowWord(s.lifetime); }
      if addr == ADDR_TRANSFER_COUNT_24H { return HighWord(s.count24h); }
      if addr == ADDR_TRANSFER_COUNT_24H + 1 { return LowWord(s.count24h); }
      if addr == ADDR_ICD_MAJOR { return id.icdMajor; }
      if addr == ADDR_ICD_MINOR { return id.icdMinor; }
      if addr == ADDR_FW_MAJOR { return id.fwMajor; }
      if addr == ADDR_FW_MINOR { return id.fwMinor; }
      if addr == ADDR_FW_PATCH { return id.fwPatch; }
      if addr == ADDR_UNIT_ID { return id.unitId; }
      if addr == ADDR_CMD_TEST_RB { return FromBool(s.outputs.test); }
      if addr == ADDR_CMD_INHIBIT_RB { return FromBool(s.outputs.inhibit); }
      if addr == ADDR_CMD_FORCE_TRANSFER_RB { return FromBool(s.outputs.force); }
      if addr == ADDR_CMD_BYPASS_DELAY_RB { return FromBool(s.outputs.bypass); }
      return 0;
    }
  }

  /** The write guard in front of the store. */
  class GuardedContext {
    const store: RegisterStore

    constructor (store: RegisterStore)
      ensures this.store == store
    {
      this.store := store;
    }

    method ValidateRequest(fc: FunctionCode, addr: int, count: nat, fallback: bool) returns (ok: bool)
      modifies store
      ensures (ok, store.View()) == Validate(old(store.View()), fc, addr, count, fallback)
    {
      if fc.WriteCoil? || fc.ReadWriteMultiple? {
        return false;
      }
      if IsHoldingWrite(fc) {
        var offset := 0;
        while offset < count
          invariant 0 <= offset <= count
          invariant GuardWords(store.View(), addr + offset, count - offset)
                    == GuardWords(old(store.View()), addr, count)
        {
          var allowed := store.MayWrite(addr + offset);
          if !allowed {
            return false;
          }
          offset := offset + 1;
        }
        return true;
      }
      if fc.ReadHolding? || fc.ReadInput? {
        return true;
      }
      return fallback;
    }

    /** A read of several registers, all of them at one time. */
    method GetValues(addr: int, count: nat, nowMono: real, nowWall: int) returns (values: seq<int>)
      ensures |values| == count
      ensures forall i :: 0 <= i < count ==>
                values[i] == ReadRegister(store.snap, store.id, addr + i, nowMono, nowWall)
      ensures forall value :: count >= 2 && Publishes(store.snap, store.id, addr, nowMono, nowWall, value) ==>
                0 <= values[0] < 0x1_0000 && 0 <= values[1] < 0x1_0000
                && values[0] * 0x1_0000 + values[1] == value % 0x1_0000_0000
    {
      values := [];
      for i := 0 to count
        invariant |values| == i
        invariant forall k :: 0 <= k < i ==>
                    values[k] == ReadRegister(store.snap, store.id, addr + k, nowMono, nowWall)
      {
        var v := store.Read(addr + i, nowMono, nowWall);
        values := values + [v];
      }
      forall value | count >= 2 && Publishes(store.snap, store.id, addr, nowMono, nowWall, value)
        ensures 0 <= values[0] < 0x1_0000 && 0 <= values[1] < 0x1_0000
                && values[0] * 0x1_0000 + values[1] == value % 0x1_0000_0000
      {
        assert values[1] == ReadRegister(store.snap, store.id, addr + 1, nowMono, nowWall);
        TwoWordsCarryField(store.snap, store.id, addr, nowMono, nowWall, value);
      }
    }

    method SetValues(addr: int, values: seq<int>) returns (intents: seq<Intent>)
      modifies store
      ensures (intents, store.View()) == WriteWords(old(store.View()), addr, values)
    {
      intents := [];
      var i := 0;
      while i < |values|
        invariant 0 <= i <= |values|
        invariant intents + WriteWords(store.View(), addr + i, values[i..]).0
                  == WriteWords(old(store.View()), addr, values).0
        invariant WriteWords(store.View(), addr + i, values[i..]).1 == WriteWords(old(store.View()), addr, values).1
      {
        assert values[i..][1..] == values[i + 1..];
        var intent := store.Write(addr + i, values[i]);
        if intent.Some? {
          intents := intents + [intent.value];
        }
        i := i + 1;
      }
      assert values[i..] == [] && intents + [] == intents;
    }
  }
}
