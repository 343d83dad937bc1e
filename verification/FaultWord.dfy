/**
 What the fault-summary register says after any sequence of store operations, recomputed
 from the operations themselves. Several parties own bits of that word: the sampling loop
 and the command dispatcher set and clear the input and output fault, every snapshot
 brings the driver's bits, and the write policy latches a rejection.
 */
module FaultWord {
  import opened Store

  datatype Op =
    | InputSnapshot(inputs: Inputs, nowWall: int)
    | OutputState(outputs: Outputs)
    | InputFault(on: bool)
    | OutputFault(on: bool)
    | ReleaseMaintained
    | CheckWrite(addr: int)
    | WriteWord(addr: int, value: int)

  function Apply(s: StoreState, op: Op): StoreState {
    match op
    case InputSnapshot(inputs, nowWall) => ApplyInputs(s, inputs, nowWall)
    case OutputState(outputs) => ApplyOutputs(s, outputs)
    case InputFault(on) => WithInputFault(s, on)
    case OutputFault(on) => WithOutputFault(s, on)
    case ReleaseMaintained => Release(s)
    case CheckWrite(addr) => CanWrite(s, addr).1
    case WriteWord(addr, value) => WriteRegister(s, addr, value).1
  }

  function Run(s: StoreState, ops: seq<Op>): StoreState {
    if ops == [] then s else Apply(Run(s, ops[..|ops| - 1]), ops[|ops| - 1])
  }

  // ------------------------------------------------ the history, read from the latest event

  /** `i` is the latest operation of a history that satisfies `p`. */
  ghost predicate Latest(ops: seq<Op>, p: Op -> bool, i: int) {
    && 0 <= i < |ops| && p(ops[i])
    && forall j :: i < j < |ops| ==> !p(ops[j])
  }

  /** The last input fault that was set or cleared was set. */
  ghost predicate InputFaultSet(ops: seq<Op>) {
    exists i :: Latest(ops, (op: Op) => op.InputFault?, i) && ops[i].on
  }

  ghost predicate OutputFaultSet(ops: seq<Op>) {
    exists i :: Latest(ops, (op: Op) => op.OutputFault?, i) && ops[i].on
  }

  /** Bit `b` of the last snapshot that the driver delivered. */
  ghost predicate DriverBit(ops: seq<Op>, b: nat) {
    exists i :: Latest(ops, (op: Op) => op.InputSnapshot?, i) && b in ops[i].inputs.faultBits
  }

  /** The mode of the last snapshot; unknown before the first one. */
  function ModeAfter(ops: seq<Op>): Mode {
    if ops == [] then UnknownMode
    else match ops[|ops| - 1]
      case InputSnapshot(inputs, _) => inputs.mode
      case _ => ModeAfter(ops[..|ops| - 1])
  }

  /** At operation `i` the mode is automatic; for the inhibit register manual will do. */
  predicate ModeOpens(ops: seq<Op>, i: nat, addr: int)
    requires i < |ops|
  {
    var mode := ModeAfter(ops[..i]);
    mode.Auto? || (mode.Manual? && addr == 0x101)
  }

  /** Operation `i` was a command write, or the check of one, that the mode forbade. */
  predicate Rejects(ops: seq<Op>, i: nat)
    requires i < |ops|
  {
    match ops[i]
    case CheckWrite(addr) => 0x100 <= addr <= 0x103 && !ModeOpens(ops, i, addr)
    case WriteWord(addr, _) => 0x100 <= addr <= 0x103 && !ModeOpens(ops, i, addr)
    case _ => false
  }

  /** Operation `i` was an accepted command. */
  predicate Accepts(ops: seq<Op>, i: nat)
    requires i < |ops|
  {
    match ops[i]
    case WriteWord(addr, value) =>
      0x100 <= addr <= 0x103 && ModeOpens(ops, i, addr)
      && (value == 1 || (value == 0 && (addr == 0x101 || addr == 0x102)))
    case _ => false
  }

  ghost predicate NoneAcceptedSince(ops: seq<Op>, i: nat) {
    forall j: nat :: i < j < |ops| ==> !Accepts(ops, j)
  }

  /** Some write was rejected and no command has been accepted since. */
  ghost predicate Rejected(ops: seq<Op>) {
    exists i: nat :: i < |ops| && Rejects(ops, i) && NoneAcceptedSince(ops, i)
  }

  // ------------------------------------------------------------------------------- theorem

  lemma {:induction false} ModeIsLastSnapshots(s: StoreState, ops: seq<Op>)
    requires s.snap.mode.UnknownMode?
    ensures Run(s, ops).snap.mode == ModeAfter(ops)
  {
    if ops != [] {
      ModeIsLastSnapshots(s, ops[..|ops| - 1]);
    }
  }

  /** How a "latest event" moves when one more event arrives. */
  lemma LatestStep(ops: seq<Op>, op: Op, p: Op -> bool, i: int)
    requires 0 <= i < |ops|
    ensures Latest(ops + [op], p, i) <==> Latest(ops, p, i) && !p(op)
    ensures p(op) ==> Latest(ops + [op], p, |ops|)
  {
    var all := ops + [op];
    assert all[|ops|] == op && all[i] == ops[i];
    if Latest(all, p, i) {
      forall j | i < j < |ops| ensures !p(ops[j]) { assert all[j] == ops[j]; }
    }
  }

  lemma InputFaultStep(ops: seq<Op>, op: Op)
    ensures InputFaultSet(ops + [op]) <==> if op.InputFault? then op.on else InputFaultSet(ops)
  {
    var p := (o: Op) => o.InputFault?;
    var all := ops + [op];
    forall i | 0 <= i < |ops| ensures all[i] == ops[i] && (Latest(all, p, i) <==> Latest(ops, p, i) && !p(op)) {
      LatestStep(ops, op, p, i);
    }
    assert all[|ops|] == op;
    if op.InputFault? { assert Latest(all, p, |ops|); }
  }

  lemma OutputFaultStep(ops: seq<Op>, op: Op)
    ensures OutputFaultSet(ops + [op]) <==> if op.OutputFault? then op.on else OutputFaultSet(ops)
  {
    var p := (o: Op) => o.OutputFault?;
    var all := ops + [op];
    forall i | 0 <= i < |ops| ensures all[i] == ops[i] && (Latest(all, p, i) <==> Latest(ops, p, i) && !p(op)) {
      LatestStep(ops, op, p, i);
    }
    assert all[|ops|] == op;
    if op.OutputFault? { assert Latest(all, p, |ops|); }
  }

  lemma DriverBitStep(ops: seq<Op>, op: Op, b: nat)
    ensures DriverBit(ops + [op], b) <==> if op.InputSnapshot? then b in op.inputs.faultBits else DriverBit(ops, b)
  {
    var p := (o: Op) => o.InputSnapshot?;
    var all := ops + [op];
    forall i | 0 <= i < |ops| ensures all[i] == ops[i] && (Latest(all, p, i) <==> Latest(ops, p, i) && !p(op)) {
      LatestStep(ops, op, p, i);
    }
    assert all[|ops|] == op;
    if op.InputSnapshot? { assert Latest(all, p, |ops|); }
  }

  lemma RejectedStep(ops: seq<Op>, op: Op)
    ensures var all := ops + [op];
            Rejected(all) <==> Rejects(all, |ops|) || (Rejected(ops) && !Accepts(all, |ops|))
  {
    var all := ops + [op];
    forall i: nat | i < |ops|
      ensures Rejects(all, i) == Rejects(ops, i) && Accepts(all, i) == Accepts(ops, i)
    {
      assert all[i] == ops[i] && all[..i] == ops[..i];
    }
    if Rejected(ops) && !Accepts(all, |ops|) {
      var i: nat :| i < |ops| && Rejects(ops, i) && NoneAcceptedSince(ops, i);
      assert Rejects(all, i) && NoneAcceptedSince(all, i);
    }
    if Rejects(all, |ops|) {
      assert NoneAcceptedSince(all, |ops|);
    }
    if Rejected(all) && !Rejects(all, |ops|) {
      var i: nat :| i < |all| && Rejects(all, i) && NoneAcceptedSince(all, i);
      assert Rejects(ops, i) && NoneAcceptedSince(ops, i);
    }
  }

  /** A store fresh from `Load` starts with no fault and no latch. */
  predicate Fresh(s: StoreState) {
    s.snap.faultBits == {} && !s.snap.modeReject && s.snap.mode.UnknownMode?
  }

  /** What one operation does to one bit of the stored word. */
  lemma BitStep(s: StoreState, op: Op, b: nat)
    requires b < 4
    ensures b in Apply(s, op).snap.faultBits <==>
              if op.InputFault? && b == FAULT_INPUT then op.on
              else if op.OutputFault? && b == FAULT_OUTPUT then op.on
              else if op.InputSnapshot? && b >= 2 then b in op.inputs.faultBits
              else b in s.snap.faultBits
  {
  }

  /** A bit that no snapshot brings follows the party that owns it. */
  lemma {:induction false} OwnedBits(s: StoreState, ops: seq<Op>)
    requires Fresh(s)
    ensures var bits := Run(s, ops).snap.faultBits;
            (FAULT_INPUT in bits <==> InputFaultSet(ops)) && (FAULT_OUTPUT in bits <==> OutputFaultSet(ops))
  {
    if ops != [] {
      var before, op := ops[..|ops| - 1], ops[|ops| - 1];
      assert ops == before + [op];
      OwnedBits(s, before);
      BitStep(Run(s, before), op, FAULT_INPUT);
      BitStep(Run(s, before), op, FAULT_OUTPUT);
      InputFaultStep(before, op);
      OutputFaultStep(before, op);
    }
  }

  lemma {:induction false} DriverBits(s: StoreState, ops: seq<Op>, b: nat)
    requires Fresh(s) && 2 <= b < 4
    ensures b in Run(s, ops).snap.faultBits <==> DriverBit(ops, b)
  {
    if ops != [] {
      var before, op := ops[..|ops| - 1], ops[|ops| - 1];
      assert ops == before + [op];
      DriverBits(s, before, b);
      BitStep(Run(s, before), op, b);
      DriverBitStep(before, op, b);
    }
  }

  lemma {:induction false} LatchFromHistory(s: StoreState, ops: seq<Op>)
    requires Fresh(s)
    ensures Run(s, ops).snap.modeReject <==> Rejected(ops)
  {
    if ops != [] {
      var before, op := ops[..|ops| - 1], ops[|ops| - 1];
      assert ops == before + [op] && ops[..|before|] == before;
      LatchFromHistory(s, before);
      ModeIsLastSnapshots(s, before);
      RejectedStep(before, op);
      LatchStep(Run(s, before), op);
    }
  }

  lemma LatchStep(s: StoreState, op: Op)
    ensures Apply(s, op).snap.modeReject <==>
              match op
              case CheckWrite(addr) => s.snap.modeReject || (IsCommandRegister(addr) && !ModeAllows(addr, s.snap.mode))
              case WriteWord(addr, value) =>
                if ModeAllows(addr, s.snap.mode) then s.snap.modeReject && IntentOf(addr, value).None?
                else s.snap.modeReject || IsCommandRegister(addr)
              case _ => s.snap.modeReject
  {
  }

  /** The fault-summary register after any history: bit 0 is the last input fault or a pending
      mode rejection, bit 1 the last output fault, bits 2 and 3 the driver's last word, and every
      other bit is clear whatever the driver reported. */
  lemma {:induction false} FaultWordFromHistory(
      p: Persisted, start: int, ops: seq<Op>, id: Identity, mono: real, wall: int)
    ensures var w := ReadRegister(Run(Load(p, start), ops).snap, id, 0x0005, mono, wall);
            && 0 <= w < 16
            && (w % 2 == 1 <==> InputFaultSet(ops) || Rejected(ops))
            && (w / 2 % 2 == 1 <==> OutputFaultSet(ops))
            && (w / 4 % 2 == 1 <==> DriverBit(ops, 2))
            && (w / 8 % 2 == 1 <==> DriverBit(ops, 3))
  {
    var s := Load(p, start);
    OwnedBits(s, ops);
    DriverBits(s, ops, 2);
    DriverBits(s, ops, 3);
    LatchFromHistory(s, ops);
    WireValueBits(FaultSummary(Run(s, ops).snap));
  }
}
