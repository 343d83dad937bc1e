/**
 The contract between the two programs: GenWatch's own description of the companion
 (genwatch/registers/ats_pi.yaml and services/ats.py), held against what the companion serves and
 does. What the companion has in its store arrives at GenWatch as the same facts, and what an
 operator commands at GenWatch moves the relay it names.
 */
module Contract {
  import opened Prelude
  import S = Store
  import A = Adam
  import N = Protocol
  import D = Commands
  import R = Registers
  import P = Poller
  import C = Control

  // ------------------------------------------------------------------------------ GenWatch's map

  function Field(name: string, addr: int, kind: R.RegType, tier: R.Tier): R.Register {
    R.Register(name, addr, kind, tier, 1.0)
  }

  const POSITION := Field("position", 0x0000, R.U16, R.Prime)
  const NORMAL_AVAILABLE := Field("normal_available", 0x0001, R.U16, R.Prime)
  const EMERGENCY_AVAILABLE := Field("emergency_available", 0x0002, R.U16, R.Prime)
  const ENGINE_START := Field("engine_start_calling", 0x0003, R.U16, R.Prime)
  const ATS_MODE := Field("ats_mode", 0x0004, R.U16, R.Prime)
  const FAULTS := Field("fault_summary", 0x0005, R.BitField, R.Prime)
  const LAST_TO_GENERATOR := Field("last_transfer_to_gen_ts", 0x0010, R.U32, R.Base)
  const LAST_TO_UTILITY := Field("last_retransfer_to_util_ts", 0x0012, R.U32, R.Base)
  const UPTIME := Field("ats_pi_uptime_s", 0x0014, R.U32, R.Base)
  const WALLCLOCK := Field("ats_pi_wallclock", 0x0016, R.U32, R.Base)
  const COUNT_LIFETIME := Field("transfer_count_lifetime", 0x0020, R.U32, R.Base)
  const COUNT_24H := Field("transfer_count_24h", 0x0022, R.U32, R.Base)
  const ICD_MAJOR := Field("icd_version_major", 0x0030, R.U16, R.Base)
  const ICD_MINOR := Field("icd_version_minor", 0x0031, R.U16, R.Base)
  const FW_MAJOR := Field("ats_pi_fw_major", 0x0032, R.U16, R.Base)
  const FW_MINOR := Field("ats_pi_fw_minor", 0x0033, R.U16, R.Base)
  const FW_PATCH := Field("ats_pi_fw_patch", 0x0034, R.U16, R.Base)
  const UNIT_ID := Field("ats_pi_unit_id", 0x0035, R.U16, R.Base)
  const TEST_ACTIVE := Field("cmd_test_active", 0x0040, R.U16, R.Prime)
  const INHIBIT_ACTIVE := Field("cmd_inhibit_active", 0x0041, R.U16, R.Prime)
  const FORCE_ACTIVE := Field("cmd_force_transfer_active", 0x0042, R.U16, R.Prime)
  const BYPASS_ACTIVE := Field("cmd_bypass_delay_active", 0x0043, R.U16, R.Prime)

  const PRIME_MAP := [POSITION, NORMAL_AVAILABLE, EMERGENCY_AVAILABLE, ENGINE_START, ATS_MODE, FAULTS,
                      TEST_ACTIVE, INHIBIT_ACTIVE, FORCE_ACTIVE, BYPASS_ACTIVE]

  const BASE_MAP := [LAST_TO_GENERATOR, LAST_TO_UTILITY, UPTIME, WALLCLOCK, COUNT_LIFETIME, COUNT_24H,
                     ICD_MAJOR, ICD_MINOR, FW_MAJOR, FW_MINOR, FW_PATCH, UNIT_ID]

  /** GenWatch's reading of the two enumerations; anything else is unknown. */
  function PositionOf(v: int): S.Position {
    if v == 0 then S.Utility else if v == 1 then S.Generator else if v == 2 then S.Transferring else S.UnknownPosition
  }

  function ModeOf(v: int): S.Mode {
    if v == 0 then S.Auto else if v == 1 then S.Manual else if v == 2 then S.TestMode else S.UnknownMode
  }

  /** GenWatch's four fault masks: 1, 2, 4 and 8. */
  function FaultsOf(v: int): set<nat> {
    (if v % 2 == 1 then {0} else {}) + (if v / 2 % 2 == 1 then {1} else {})
    + (if v / 4 % 2 == 1 then {2} else {}) + (if v / 8 % 2 == 1 then {3} else {})
  }

  // ----------------------------------------------------------------------------- what is served

  /** What the companion serves while a poll reads it. */
  datatype Served = Served(snap: S.Snapshot, id: S.Identity, mono: real, wall: int)
  {
    function At(addr: int): int { S.ReadRegister(snap, id, addr, mono, wall) }
  }

  /** The words that the companion serves for a register. */
  function WordsAt(s: Served, r: R.Register): (ws: seq<int>)
    ensures |ws| == R.Words(r)
  {
    if R.Words(r) == 1 then [s.At(r.addr)] else [s.At(r.addr), s.At(r.addr + 1)]
  }

  /** Whatever the client got in a poll is what the companion serves at that address. */
  ghost predicate Answers(s: Served, c: P.Cycle) {
    forall i :: 0 <= i < |c.batches| ==> AnswersBatch(s, c.batches[i])
  }

  ghost predicate AnswersBatch(s: Served, b: P.BatchResult) {
    && (b.whole.Words? ==> forall o :: 0 <= o < |b.whole.words| ==> b.whole.words[o] == s.At(b.read.start + o))
    && (forall o :: 0 <= o < |b.singles| && P.SingleOk(b.singles[o])
          ==> b.singles[o].words[0] == s.At(b.read.start + o))
  }

  lemma BatchIsServed(s: Served, b: P.BatchResult, r: R.Register, ws: seq<int>, o: int)
    requires AnswersBatch(s, b) && P.ReturnedIn(b, r, ws) && 0 <= o < |ws|
    ensures ws[o] == s.At(r.addr + o)
  {
    var at := r.addr - b.read.start + o;
    if b.whole.Words? {
      assert b.whole.words[at] == s.At(b.read.start + at);
    } else {
      assert P.ReturnedAlone(b.singles, at, ws[o]);
      assert b.singles[at].words[0] == s.At(b.read.start + at);
    }
  }

  /** The words returned for a register are the ones served for it. */
  lemma ReturnedIsServed(s: Served, c: P.Cycle, r: R.Register, ws: seq<int>)
    requires Answers(s, c) && P.Returned(c, r, ws)
    ensures ws == WordsAt(s, r)
  {
    var i :| 0 <= i < |c.batches| && P.ReturnedIn(c.batches[i], r, ws);
    BatchIsServed(s, c.batches[i], r, ws, 0);
    if |ws| == 2 {
      BatchIsServed(s, c.batches[i], r, ws, 1);
    }
  }

  /** A fresh value is the decoding of the words served. */
  lemma FreshIsServed(s: Served, c: P.Cycle, r: R.Register, v: real)
    requires Answers(s, c) && P.FreshValue(P.BlocksOf(c.batches), r) == Some(v)
    ensures R.Decode(r, WordsAt(s, r)) == Some(v)
  {
    P.FreshIsReturned(c.batches, r, c);
    var ws :| P.Returned(c, r, ws) && R.Decode(r, ws) == Some(v);
    ReturnedIsServed(s, c, r, ws);
  }

  /** GenWatch has decoded `v` for the register in this poll. */
  ghost predicate Got(c: P.Cycle, r: R.Register, v: int) {
    P.FreshValue(P.BlocksOf(c.batches), r) == Some(v as real)
  }

  lemma GotWord(s: Served, c: P.Cycle, r: R.Register, v: int)
    requires Answers(s, c) && Got(c, r, v) && r.scale == 1.0
    ensures (r.kind.U16? || r.kind.BitField?) ==> v == s.At(r.addr) % 0x1_0000
    ensures r.kind.U32? ==> v == s.At(r.addr) % 0x1_0000 * 0x1_0000 + s.At(r.addr + 1) % 0x1_0000
  {
    FreshIsServed(s, c, r, v as real);
    var raw := R.Raw(r.kind, WordsAt(s, r));
    assert raw.Some? ==> raw.value as real == v as real;
  }

  lemma EnumsArrive(s: Served, c: P.Cycle, v: int)
    requires Answers(s, c)
    ensures Got(c, POSITION, v) ==> PositionOf(v) == s.snap.position
    ensures Got(c, ATS_MODE, v) ==> ModeOf(v) == s.snap.mode
  {
    if Got(c, POSITION, v) { GotWord(s, c, POSITION, v); }
    if Got(c, ATS_MODE, v) { GotWord(s, c, ATS_MODE, v); }
  }

  /** What arrives of the switch's state: whatever GenWatch decodes in a poll is what the companion
      has in its store. */
  lemma StateArrives(s: Served, c: P.Cycle, v: int)
    requires Answers(s, c)
    ensures Got(c, POSITION, v) ==> PositionOf(v) == s.snap.position
    ensures Got(c, NORMAL_AVAILABLE, v) ==> (v != 0 <==> s.snap.normalAvailable)
    ensures Got(c, EMERGENCY_AVAILABLE, v) ==> (v != 0 <==> s.snap.emergencyAvailable)
    ensures Got(c, ENGINE_START, v) ==> (v != 0 <==> s.snap.engineStart)
    ensures Got(c, ATS_MODE, v) ==> ModeOf(v) == s.snap.mode
  {
    EnumsArrive(s, c, v);
    if Got(c, NORMAL_AVAILABLE, v) { GotWord(s, c, NORMAL_AVAILABLE, v); }
    if Got(c, EMERGENCY_AVAILABLE, v) { GotWord(s, c, EMERGENCY_AVAILABLE, v); }
    if Got(c, ENGINE_START, v) { GotWord(s, c, ENGINE_START, v); }
  }

  /** And of its relays. */
  lemma RelaysArrive(s: Served, c: P.Cycle, v: int)
    requires Answers(s, c)
    ensures Got(c, TEST_ACTIVE, v) ==> (v != 0 <==> s.snap.outputs.test)
    ensures Got(c, INHIBIT_ACTIVE, v) ==> (v != 0 <==> s.snap.outputs.inhibit)
    ensures Got(c, FORCE_ACTIVE, v) ==> (v != 0 <==> s.snap.outputs.force)
    ensures Got(c, BYPASS_ACTIVE, v) ==> (v != 0 <==> s.snap.outputs.bypass)
  {
    if Got(c, TEST_ACTIVE, v) { GotWord(s, c, TEST_ACTIVE, v); }
    if Got(c, INHIBIT_ACTIVE, v) { GotWord(s, c, INHIBIT_ACTIVE, v); }
    if Got(c, FORCE_ACTIVE, v) { GotWord(s, c, FORCE_ACTIVE, v); }
    if Got(c, BYPASS_ACTIVE, v) { GotWord(s, c, BYPASS_ACTIVE, v); }
  }

  /** From the contacts to GenWatch: what a poll brings after a sampling cycle is what that cycle
      found, of the switch and of the relays. */
  lemma SampleArrives(s: N.System, inputs: S.Inputs, at: int, id: S.Identity, mono: real, wall: int, c: P.Cycle, v: int)
    requires s.reset.Done?
    requires Answers(Served(N.Step(s, N.Sample(inputs, at)).store.snap, id, mono, wall), c)
    ensures Got(c, POSITION, v) ==> PositionOf(v) == inputs.position
    ensures Got(c, NORMAL_AVAILABLE, v) ==> (v != 0 <==> inputs.normalAvailable)
    ensures Got(c, EMERGENCY_AVAILABLE, v) ==> (v != 0 <==> inputs.emergencyAvailable)
    ensures Got(c, ENGINE_START, v) ==> (v != 0 <==> inputs.engineStart)
    ensures Got(c, ATS_MODE, v) ==> ModeOf(v) == inputs.mode
    ensures Got(c, TEST_ACTIVE, v) ==> (v != 0 <==> s.driver.coils.test)
    ensures Got(c, INHIBIT_ACTIVE, v) ==> (v != 0 <==> s.driver.coils.inhibit)
    ensures Got(c, FORCE_ACTIVE, v) ==> (v != 0 <==> s.driver.coils.force)
    ensures Got(c, BYPASS_ACTIVE, v) ==> (v != 0 <==> s.driver.coils.bypass)
  {
    var served := Served(N.Step(s, N.Sample(inputs, at)).store.snap, id, mono, wall);
    StateArrives(served, c, v);
    RelaysArrive(served, c, v);
  }

  lemma FaultsOfWire(bits: set<nat>)
    ensures FaultsOf(S.WireValue(bits)) == bits * {0, 1, 2, 3}
  {
    S.WireValueBits(bits);
    forall b: nat ensures b in FaultsOf(S.WireValue(bits)) <==> b in bits && b < 4 {}
  }

  /** And of its faults: the four that are defined, a pending rejection showing as the first. */
  lemma FaultsArrive(s: Served, c: P.Cycle, v: int)
    requires Answers(s, c) && Got(c, FAULTS, v)
    ensures FaultsOf(v) == (if s.snap.modeReject then s.snap.faultBits + {0} else s.snap.faultBits) * {0, 1, 2, 3}
  {
    FaultWordArrives(s, c, v);
    FaultsOfWire(S.FaultSummary(s.snap));
  }

  lemma FaultWordArrives(s: Served, c: P.Cycle, v: int)
    requires Answers(s, c) && Got(c, FAULTS, v)
    ensures v == S.WireValue(S.FaultSummary(s.snap))
  {
    GotWord(s, c, FAULTS, v);
    S.WireValueBits(S.FaultSummary(s.snap));
    assert s.At(0x0005) == S.WireValue(S.FaultSummary(s.snap));
  }

  /** The times and counters arrive modulo 2^32, both words of one moment. */
  lemma CountersArrive(s: Served, c: P.Cycle, v: int)
    requires Answers(s, c)
    ensures Got(c, LAST_TO_GENERATOR, v) ==> v == s.snap.lastToGenerator % 0x1_0000_0000
    ensures Got(c, LAST_TO_UTILITY, v) ==> v == s.snap.lastToUtility % 0x1_0000_0000
    ensures Got(c, UPTIME, v) ==> v == (s.mono - s.id.bootMono).Floor % 0x1_0000_0000
    ensures Got(c, WALLCLOCK, v) ==> v == s.wall % 0x1_0000_0000
    ensures Got(c, COUNT_LIFETIME, v) ==> v == s.snap.lifetime % 0x1_0000_0000
    ensures Got(c, COUNT_24H, v) ==> v == s.snap.count24h % 0x1_0000_0000
  {
    if Got(c, LAST_TO_GENERATOR, v) { GotTwoWords(s, c, LAST_TO_GENERATOR, v, s.snap.lastToGenerator); }
    if Got(c, LAST_TO_UTILITY, v) { GotTwoWords(s, c, LAST_TO_UTILITY, v, s.snap.lastToUtility); }
    if Got(c, UPTIME, v) { GotTwoWords(s, c, UPTIME, v, (s.mono - s.id.bootMono).Floor); }
    if Got(c, WALLCLOCK, v) { GotTwoWords(s, c, WALLCLOCK, v, s.wall); }
    if Got(c, COUNT_LIFETIME, v) { GotTwoWords(s, c, COUNT_LIFETIME, v, s.snap.lifetime); }
    if Got(c, COUNT_24H, v) { GotTwoWords(s, c, COUNT_24H, v, s.snap.count24h); }
  }

  lemma GotTwoWords(s: Served, c: P.Cycle, r: R.Register, v: int, value: int)
    requires Answers(s, c) && Got(c, r, v) && r.scale == 1.0 && r.kind.U32?
    requires S.Publishes(s.snap, s.id, r.addr, s.mono, s.wall, value)
    ensures v == value % 0x1_0000_0000
  {
    GotWord(s, c, r, v);
    S.TwoWordsCarryField(s.snap, s.id, r.addr, s.mono, s.wall, value);
  }

  /** Both words of one moment: that holds of a batch, which the companion answers at one time. When
      the batch fails and the words are read one by one, the count may move in between. Then the
      later count arrives if and only if its high word had not changed. */
  lemma FanOutTearsExactlyWhen(before: Served, after: Served, c: P.Cycle, v: int)
    requires 0 <= before.snap.lifetime < 0x1_0000_0000 && 0 <= after.snap.lifetime < 0x1_0000_0000
    requires c.batches == [FannedOut(before, after)] && Got(c, COUNT_LIFETIME, v)
    ensures v == after.snap.lifetime <==> before.snap.lifetime / 0x1_0000 == after.snap.lifetime / 0x1_0000
  {
    var high, low := before.At(0x0020), after.At(0x0021);
    FanOutCarries(before, after, c, v as real);
    S.WordsJoin(before.snap.lifetime);
    S.WordsJoin(after.snap.lifetime);
    assert high == before.snap.lifetime / 0x1_0000 && low == after.snap.lifetime % 0x1_0000;
  }

  /** The words of the lifetime count, the first read before, the second after a change. */
  function FannedOut(before: Served, after: Served): P.BatchResult {
    P.BatchResult(R.Read(0x0020, 2), P.Failed, [P.Words([before.At(0x0020)]), P.Words([after.At(0x0021)])])
  }

  lemma FanOutCarries(before: Served, after: Served, c: P.Cycle, v: real)
    requires c.batches == [FannedOut(before, after)]
    ensures P.FreshValue(P.BlocksOf(c.batches), COUNT_LIFETIME)
            == R.Decode(COUNT_LIFETIME, [before.At(0x0020), after.At(0x0021)])
  {
    var b := FannedOut(before, after);
    assert P.SingleOk(b.singles[0]) && P.SingleOk(b.singles[1]);
    var block := P.BlockOf(b).value;
    assert block.words == [before.At(0x0020), after.At(0x0021)] && block.failed == {};
    assert c.batches[..0] == [] && P.BlocksOf(c.batches) == [block];
    assert block.words[0..2] == block.words;
  }

  /** For example, going from 65535 to 65536 it arrives as 0. */
  lemma CountArrivesAsZero(before: Served, after: Served, c: P.Cycle)
    requires before.snap.lifetime == 65535 && after.snap.lifetime == 65536
    requires c.batches == [FannedOut(before, after)]
    ensures Got(c, COUNT_LIFETIME, 0)
  {
    FanOutCarries(before, after, c, 0.0);
    assert before.At(0x0020) == 0 && after.At(0x0021) == 0;
  }

  /** The identification arrives in the low sixteen bits of each number. */
  lemma IdentityArrives(s: Served, c: P.Cycle, v: int)
    requires Answers(s, c)
    ensures Got(c, ICD_MAJOR, v) ==> v == s.id.icdMajor % 0x1_0000
    ensures Got(c, ICD_MINOR, v) ==> v == s.id.icdMinor % 0x1_0000
    ensures Got(c, FW_MAJOR, v) ==> v == s.id.fwMajor % 0x1_0000
    ensures Got(c, FW_MINOR, v) ==> v == s.id.fwMinor % 0x1_0000
    ensures Got(c, FW_PATCH, v) ==> v == s.id.fwPatch % 0x1_0000
    ensures Got(c, UNIT_ID, v) ==> v == s.id.unitId % 0x1_0000
  {
    if Got(c, ICD_MAJOR, v) { GotWord(s, c, ICD_MAJOR, v); }
    if Got(c, ICD_MINOR, v) { GotWord(s, c, ICD_MINOR, v); }
    if Got(c, FW_MAJOR, v) { GotWord(s, c, FW_MAJOR, v); }
    if Got(c, FW_MINOR, v) { GotWord(s, c, FW_MINOR, v); }
    if Got(c, FW_PATCH, v) { GotWord(s, c, FW_PATCH, v); }
    if Got(c, UNIT_ID, v) { GotWord(s, c, UNIT_ID, v); }
  }

  lemma ChainIsApart(regs: seq<R.Register>)
    requires R.Chain(regs)
    ensures R.NonOverlapping(regs)
  {
    forall i, j | 0 <= i < j < |regs| ensures R.Disjoint(regs[i], regs[j]) {}
  }

  /** No register of the map shares a word with another of its tier. */
  lemma MapsAreApart()
    ensures R.NonOverlapping(PRIME_MAP) && R.NonOverlapping(BASE_MAP)
  {
    ChainIsApart(PRIME_MAP);
    ChainIsApart(BASE_MAP);
  }

  /** The reads that batching makes for a tier of it bring every register of the tier. */
  lemma PollBringsTier(regs: seq<R.Register>, plan: seq<R.Read>, c: P.Cycle, r: R.Register)
    requires R.OptimalReads(regs, plan, 64) && P.AllReturned(c.batches, plan) && r in regs && r.scale == 1.0
    ensures exists v :: Got(c, r, v)
  {
    P.FullReadsDecodeAll(regs, plan, 64, c.batches, r);
    var k, ws := P.FirstCovering(P.BlocksOf(c.batches), r);
    assert Got(c, r, R.Raw(r.kind, ws).value);
  }

  // ------------------------------------------------------------------------------------ commands

  /** The commands in GenWatch's map of the companion. */
  const SWITCH_MAP := C.SwitchMap(
    map[C.Test := C.Command(0x100, [1]), C.Inhibit := C.Command(0x101, [1]),
        C.ForceTransfer := C.Command(0x102, [1]), C.BypassDelay := C.Command(0x103, [1])],
    map[C.Inhibit := C.Command(0x101, [0]), C.ForceTransfer := C.Command(0x102, [0])])

  /** The relay that an action is about. */
  function RelayFor(a: C.Action): A.Relay
    requires C.IsCommand(a)
  {
    match a
    case Test => A.TestRelay
    case Inhibit => A.InhibitRelay
    case ForceTransfer => A.ForceRelay
    case BypassDelay => A.BypassRelay
  }

  /** The events at the companion when a command of GenWatch arrives, is checked and is written. */
  function Arrival(s: N.System, conn: nat, a: C.Action, w: C.Command): seq<N.Event>
    requires C.IsCommand(a) && |w.words| == 1
  {
    D.Command(s, conn, S.WriteSingle, w.address, w.words[0],
              if C.Maintained(a) then N.DispatchWrite(|s.gated|, A.Acked) else N.PulseWrite(RelayFor(a), A.Acked))
  }

  /** From the operator to the relay. A command that GenWatch's control service lets through is one
      write of one word; arriving at a companion in automatic mode whose fail-safe is verified, it
      leaves the relay that the operator named on or off as the operator said, and no other relay
      has moved. */
  lemma CommandMovesRelay(l: C.Ledger, a: C.Action, token: string, operator: string, role: C.Role, assert_: bool,
                          override: bool, switch: C.Switch, now: real, later: real, s: N.System, conn: nat)
    requires C.ExecuteSwitch(SWITCH_MAP, l, a, token, operator, role, assert_, override, switch, now, later).error.None?
    requires s.store.snap.mode.Auto? && s.driver.armed
    requires !C.Maintained(a) ==> A.PulseOf(s.driver, RelayFor(a)).NoPulse?
    ensures var w := SWITCH_MAP.Lookup(a, assert_);
            && C.IsCommand(a) && w.Some? && |w.value.words| == 1
            && N.Run(s, Arrival(s, conn, a, w.value)).driver.coils
               == A.Set(s.driver.coils, RelayFor(a), !C.Maintained(a) || assert_)
  {
    var w := SWITCH_MAP.Lookup(a, assert_).value;
    D.OneWordCommands(s.store, S.WriteSingle, w.address, w.words[0]);
    if C.Maintained(a) {
      D.MaintainedWordMovesRelay(s, conn, S.WriteSingle, w.address, w.words[0]);
    } else {
      D.PulsedWordMovesRelay(s, conn, S.WriteSingle, w.address);
    }
  }
}
