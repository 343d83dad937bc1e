/**
 One poll of a register tier (GenWatch, modbus/poller.py): batch reads, the fan-out into
 single reads when a batch fails, decoding, and the cache of last good values with its time
 limit - and what the cache contains after any number of polls with any pattern of failures.
 */
module Poller {
  import opened Prelude
  import opened Registers

  const TIER_STALE_MULTIPLIER := 3

  /** What the client makes of one read. */
  datatype ReadResult = Words(words: seq<int>) | Failed

  /** What the client makes of one batch: of the whole, and of its words one by one (asked for
      only if the whole failed). */
  datatype BatchResult = BatchResult(read: Read, whole: ReadResult, singles: seq<ReadResult>)

  /** One poll of a tier: the time at which it decodes, and what each batch returned. */
  datatype Cycle = Cycle(tier: Tier, at: real, batches: seq<BatchResult>)

  predicate GoodBatch(b: BatchResult) {
    b.read.count >= 0 && |b.singles| == b.read.count
  }

  predicate GoodCycle(c: Cycle) {
    forall i :: 0 <= i < |c.batches| ==> GoodBatch(c.batches[i])
  }

  /** Words read from an address on; those at the offsets in `failed` are placeholders. */
  datatype Block = Block(start: int, words: seq<int>, failed: set<nat>)

  predicate SingleOk(r: ReadResult) {
    r.Words? && r.words != []
  }

  /** The words of a fan-out, zero standing in for each that could not be read. */
  function FanOut(singles: seq<ReadResult>): (ws: seq<int>)
    ensures |ws| == |singles|
  {
    seq(|singles|, i requires 0 <= i < |singles| => if SingleOk(singles[i]) then singles[i].words[0] else 0)
  }

  function FailedOffsets(singles: seq<ReadResult>): set<nat> {
    set i: nat | i < |singles| && !SingleOk(singles[i])
  }

  predicate AnyOk(singles: seq<ReadResult>) {
    exists i :: 0 <= i < |singles| && SingleOk(singles[i])
  }

  /** What a batch contributes, if anything could be read. */
  function BlockOf(b: BatchResult): Option<Block> {
    if b.whole.Words? then Some(Block(b.read.start, b.whole.words, {}))
    else if AnyOk(b.singles) then Some(Block(b.read.start, FanOut(b.singles), FailedOffsets(b.singles)))
    else None
  }

  /** The blocks of a cycle, in the order of its batches. */
  function BlocksOf(batches: seq<BatchResult>): seq<Block> {
    if batches == [] then []
    else
      var n := |batches| - 1;
      BlocksOf(batches[..n]) + match BlockOf(batches[n]) case Some(b) => [b] case None => []
  }

  predicate Covers(b: Block, r: Register) {
    b.start <= r.addr && End(r) <= b.start + |b.words|
  }

  /** Some word of the register is a placeholder. */
  predicate Tainted(b: Block, r: Register) {
    exists o :: r.addr - b.start <= o < End(r) - b.start && o in b.failed
  }

  /** The value decoded for a register from the first block that covers it. */
  function FreshValue(blocks: seq<Block>, r: Register): Option<real> {
    if blocks == [] then None
    else if !Covers(blocks[0], r) then FreshValue(blocks[1..], r)
    else if Tainted(blocks[0], r) then None
    else Decode(r, blocks[0].words[r.addr - blocks[0].start..End(r) - blocks[0].start])
  }

  /** The cached values and the time of the decode each came from. */
  datatype Reading = Reading(values: map<string, real>, ages: map<string, real>)

  const NOTHING := Reading(map[], map[])

  /** What a poll makes of one entry of the cache. */
  function Refresh(old_: Reading, blocks: seq<Block>, r: Register, now: real, limit: real): Option<(real, real)> {
    var fresh_ := FreshValue(blocks, r);
    if fresh_.Some? then (if now - now >= limit then None else Some((fresh_.value, now)))
    else if r.name in old_.ages && r.name in old_.values && now - old_.ages[r.name] < limit
    then Some((old_.values[r.name], old_.ages[r.name]))
    else None
  }

  /** The entry of the cache under a name. */
  function Entry(reading: Reading, name: string): Option<(real, real)> {
    if name in reading.values && name in reading.ages then Some((reading.values[name], reading.ages[name])) else None
  }

  predicate SameKeys(reading: Reading) {
    reading.values.Keys == reading.ages.Keys
  }

  /** The exact effect of a poll: every register of the tier is refreshed, every other entry
      stays what it was. */
  ghost predicate PollEffect(before: Reading, regs: seq<Register>, c: Cycle, limit: real, after: Reading) {
    && SameKeys(after)
    && (forall r :: r in regs && r.tier == c.tier ==>
          Entry(after, r.name) == Refresh(before, BlocksOf(c.batches), r, c.at, limit))
    && (forall name :: NotOfTier(regs, c.tier, name) ==> Entry(after, name) == Entry(before, name))
  }

  // ------------------------------------------------------------------------------ provenance

  /** The client returned the words `ws` for the register in this cycle: all together in one
      batch, or each of them in a single read. */
  ghost predicate Returned(c: Cycle, r: Register, ws: seq<int>) {
    exists i :: 0 <= i < |c.batches| && ReturnedIn(c.batches[i], r, ws)
  }

  predicate ReturnedIn(b: BatchResult, r: Register, ws: seq<int>) {
    var offset := r.addr - b.read.start;
    && |ws| == Registers.Words(r) && offset >= 0
    && if b.whole.Words? then
         offset + |ws| <= |b.whole.words| && ws == b.whole.words[offset..offset + |ws|]
       else
         && offset + |ws| <= |b.singles|
         && forall o :: 0 <= o < |ws| ==> ReturnedAlone(b.singles, offset + o, ws[o])
  }

  /** The single read at this offset returned this word. */
  predicate ReturnedAlone(singles: seq<ReadResult>, offset: int, w: int) {
    0 <= offset < |singles| && SingleOk(singles[offset]) && w == singles[offset].words[0]
  }

  lemma FreshIsReturned(batches: seq<BatchResult>, r: Register, c: Cycle)
    requires c.batches == batches && FreshValue(BlocksOf(batches), r).Some?
    ensures exists ws :: Returned(c, r, ws) && Decode(r, ws) == FreshValue(BlocksOf(batches), r)
  {
    var blocks := BlocksOf(batches);
    var k, ws := FirstCovering(blocks, r);
    var i := SourceOf(batches, k);
    GenuineBlock(batches[i], r, ws);
    assert Returned(c, r, ws);
  }

  /** The words of a register in an untainted block were returned by the client. */
  lemma GenuineBlock(b: BatchResult, r: Register, ws: seq<int>)
    requires BlockOf(b).Some? && Covers(BlockOf(b).value, r) && !Tainted(BlockOf(b).value, r)
    requires ws == BlockOf(b).value.words[r.addr - b.read.start..End(r) - b.read.start]
    ensures ReturnedIn(b, r, ws)
  {
    var offset := r.addr - b.read.start;
    if !b.whole.Words? {
      forall o | 0 <= o < |ws| ensures ReturnedAlone(b.singles, offset + o, ws[o]) {
        var n: nat := offset + o;
        assert n !in BlockOf(b).value.failed;
        assert SingleOk(b.singles[n]);
      }
    }
  }

  /** The block that a fresh value comes from, and its words. */
  lemma {:induction false} FirstCovering(blocks: seq<Block>, r: Register) returns (k: nat, ws: seq<int>)
    requires FreshValue(blocks, r).Some?
    ensures k < |blocks| && Covers(blocks[k], r) && !Tainted(blocks[k], r)
    ensures ws == blocks[k].words[r.addr - blocks[k].start..End(r) - blocks[k].start]
    ensures Decode(r, ws) == FreshValue(blocks, r)
  {
    if Covers(blocks[0], r) {
      k, ws := 0, blocks[0].words[r.addr - blocks[0].start..End(r) - blocks[0].start];
    } else {
      k, ws := FirstCovering(blocks[1..], r);
      k := k + 1;
    }
  }

  /** The batch that a block comes from. */
  lemma {:induction false} SourceOf(batches: seq<BatchResult>, k: nat) returns (i: nat)
    requires k < |BlocksOf(batches)|
    ensures i < |batches| && BlockOf(batches[i]) == Some(BlocksOf(batches)[k])
    decreases |batches|
  {
    var n := |batches| - 1;
    if k < |BlocksOf(batches[..n])| {
      i := SourceOf(batches[..n], k);
    } else {
      i := n;
    }
  }

  /** In this poll the client returned words for the register that carry a number in its range,
      and that number, scaled where it is to be scaled, is the value. */
  ghost predicate Carried(c: Cycle, r: Register, value: real) {
    exists ws, v :: Returned(c, r, ws) && InRange(r.kind, v) && Carry(r.kind, ws, v)
                    && value == if r.kind.BitField? || r.kind.Enum? then v as real else Scaled(v, r.scale)
  }

  /** A cached value comes from a poll of the register's own tier at the stamped time, and was
      carried by words that the client returned for that register in that poll. */
  ghost predicate Vouched(history: seq<Cycle>, r: Register, value: real, at: real) {
    exists k :: 0 <= k < |history| && history[k].at == at && history[k].tier == r.tier && Carried(history[k], r, value)
  }

  lemma FreshIsCarried(batches: seq<BatchResult>, r: Register, c: Cycle, value: real)
    requires c.batches == batches && FreshValue(BlocksOf(batches), r) == Some(value)
    ensures Carried(c, r, value)
  {
    FreshIsReturned(batches, r, c);
    var ws :| Returned(c, r, ws) && Decode(r, ws) == Some(value);
    var v := DecodesTheNumber(r, ws);
  }

  ghost predicate Provenance(history: seq<Cycle>, regs: seq<Register>, reading: Reading) {
    && SameKeys(reading)
    && forall r :: r in regs && r.name in reading.values ==>
         Vouched(history, r, reading.values[r.name], reading.ages[r.name])
  }

  /** Any number of polls, each with its exact effect. */
  ghost predicate Polls(regs: seq<Register>, cadence: Tier -> real, history: seq<Cycle>, readings: seq<Reading>) {
    && |readings| == |history| + 1 && readings[0] == NOTHING
    && forall k :: 0 <= k < |history| ==>
         PollEffect(readings[k], regs, history[k],
                    cadence(history[k].tier) * TIER_STALE_MULTIPLIER as real, readings[k + 1])
  }

  lemma VouchedLater(history: seq<Cycle>, c: Cycle, r: Register, value: real, at: real)
    requires Vouched(history, r, value, at)
    ensures Vouched(history + [c], r, value, at)
  {
    var k :| 0 <= k < |history| && history[k].at == at && history[k].tier == r.tier && Carried(history[k], r, value);
    assert (history + [c])[k] == history[k];
  }

  lemma ProvenanceStep(history: seq<Cycle>, c: Cycle, regs: seq<Register>, before: Reading, limit: real, after: Reading)
    requires Provenance(history, regs, before) && PollEffect(before, regs, c, limit, after) && DistinctNames(regs)
    ensures Provenance(history + [c], regs, after)
  {
    var all := history + [c];
    forall r | r in regs && r.name in after.values ensures Vouched(all, r, after.values[r.name], after.ages[r.name]) {
      var value, at := after.values[r.name], after.ages[r.name];
      assert Entry(after, r.name) == Some((value, at));
      if r.tier == c.tier {
        if FreshValue(BlocksOf(c.batches), r).Some? {
          FreshIsCarried(c.batches, r, c, value);
          assert all[|history|] == c;
        } else {
          VouchedLater(history, c, r, value, at);
        }
      } else {
        forall q | q in regs && q.tier == c.tier ensures q.name != r.name {
          if q.name == r.name { NamesIdentify(regs, q, r); }
        }
        assert NotOfTier(regs, c.tier, r.name);
        assert Entry(after, r.name) == Entry(before, r.name);
        VouchedLater(history, c, r, value, at);
      }
    }
  }

  lemma NamesIdentify(regs: seq<Register>, q: Register, r: Register)
    requires DistinctNames(regs) && q in regs && r in regs && q.name == r.name
    ensures q == r
  {
    var i :| 0 <= i < |regs| && regs[i] == q;
    var j :| 0 <= j < |regs| && regs[j] == r;
  }

  /** Where cached values come from: after any polls of the two tiers, with any batches and any
      single reads failing, each cached value is the number, scaled as the map says, that words
      really returned for that register carry, in the poll whose time it is stamped with - never
      a placeholder zero. */
  lemma {:induction false} CachedValuesAreGenuine(
      regs: seq<Register>, cadence: Tier -> real, history: seq<Cycle>, readings: seq<Reading>, n: nat)
    requires DistinctNames(regs) && Polls(regs, cadence, history, readings) && n <= |history|
    ensures Provenance(history[..n], regs, readings[n])
    decreases n
  {
    if n > 0 {
      CachedValuesAreGenuine(regs, cadence, history, readings, n - 1);
      assert history[..n] == history[..n - 1] + [history[n - 1]];
      ProvenanceStep(history[..n - 1], history[n - 1], regs, readings[n - 1],
                     cadence(history[n - 1].tier) * TIER_STALE_MULTIPLIER as real, readings[n]);
    }
  }

  /** How old cached values are: right after a poll of a tier, every cached value of that tier is
      younger than three cadences; a register whose words were all returned has the value of
      this very poll; and an older value that is still young enough has not been lost. */
  lemma CachedValuesAreFresh(regs: seq<Register>, before: Reading, c: Cycle, cadence: real, after: Reading, r: Register)
    requires PollEffect(before, regs, c, cadence * TIER_STALE_MULTIPLIER as real, after)
    requires r in regs && r.tier == c.tier && cadence > 0.0
    ensures r.name in after.values ==> c.at - after.ages[r.name] < 3.0 * cadence
    ensures forall v :: FreshValue(BlocksOf(c.batches), r) == Some(v) ==>
              Entry(after, r.name) == Some((v, c.at))
    ensures FreshValue(BlocksOf(c.batches), r).None? && Entry(before, r.name).Some? ==>
              (c.at - before.ages[r.name] < 3.0 * cadence <==> Entry(after, r.name).Some?)
              && (Entry(after, r.name).Some? ==> Entry(after, r.name) == Entry(before, r.name))
  {
    assert Entry(after, r.name) == Refresh(before, BlocksOf(c.batches), r, c.at, cadence * 3.0);
  }

  // --------------------------------------------------------------------- batching and decoding

  /** The registers of a tier, in the order of the map. */
  function TierOf(regs: seq<Register>, tier: Tier): seq<Register> {
    if regs == [] then []
    else
      var n := |regs| - 1;
      TierOf(regs[..n], tier) + if regs[n].tier == tier then [regs[n]] else []
  }

  lemma {:induction false} TierOfIsTier(regs: seq<Register>, tier: Tier, r: Register)
    ensures r in TierOf(regs, tier) <==> r in regs && r.tier == tier
  {
    if regs != [] {
      var n := |regs| - 1;
      TierOfIsTier(regs[..n], tier, r);
      assert regs == regs[..n] + [regs[n]];
    }
  }

  /** Every batch of these reads came back whole. */
  predicate AllReturned(batches: seq<BatchResult>, plan: seq<Read>) {
    && |batches| == |plan|
    && forall k :: 0 <= k < |plan| ==> ReturnedWhole(batches[k], plan[k])
  }

  predicate ReturnedWhole(b: BatchResult, d: Read) {
    b.read == d && b.whole.Words? && |b.whole.words| == d.count
  }

  lemma {:induction false} WholeBlocks(batches: seq<BatchResult>, plan: seq<Read>)
    requires AllReturned(batches, plan)
    ensures var blocks := BlocksOf(batches);
            |blocks| == |plan|
            && forall k :: 0 <= k < |plan| ==> blocks[k] == Block(plan[k].start, batches[k].whole.words, {})
    decreases |batches|
  {
    if batches != [] {
      var n := |batches| - 1;
      forall k | 0 <= k < n ensures ReturnedWhole(batches[..n][k], plan[..n][k]) {
        assert ReturnedWhole(batches[k], plan[k]);
      }
      WholeBlocks(batches[..n], plan[..n]);
      assert ReturnedWhole(batches[n], plan[n]);
    }
  }

  /** Of blocks with nothing missing, the first that covers a register decodes it. */
  lemma {:induction false} FirstCoverDecodes(blocks: seq<Block>, r: Register, k: nat)
    requires k < |blocks| && Covers(blocks[k], r) && blocks[k].failed == {}
    requires forall l :: 0 <= l < k ==> !Covers(blocks[l], r)
    ensures FreshValue(blocks, r).Some?
    decreases k
  {
    if k == 0 {
      var offset := r.addr - blocks[0].start;
      RawRoundTrip(r.kind, 0, blocks[0].words[offset..offset + Registers.Words(r)], 0);
    } else {
      assert !Covers(blocks[0], r);
      FirstCoverDecodes(blocks[1..], r, k - 1);
    }
  }

  /** The reads that batching makes are enough: whatever else is in the map, when all of them come
      back whole, every register they were made for gets a fresh value. */
  lemma FullReadsDecodeAll(regs: seq<Register>, plan: seq<Read>, max: int, batches: seq<BatchResult>, r: Register)
    requires OptimalReads(regs, plan, max) && AllReturned(batches, plan) && r in regs
    ensures FreshValue(BlocksOf(batches), r).Some?
  {
    WholeBlocks(batches, plan);
    assert InExactlyOne(r, plan);
    var k :| 0 <= k < |plan| && Within(r, plan[k]) && forall l :: 0 <= l < |plan| && l != k ==> Apart(r, plan[l]);
    var blocks := BlocksOf(batches);
    assert ReturnedWhole(batches[k], plan[k]);
    forall l | 0 <= l < k ensures !Covers(blocks[l], r) {
      assert Apart(r, plan[l]) && ReturnedWhole(batches[l], plan[l]);
    }
    FirstCoverDecodes(blocks, r, k);
  }

  /** All the words of the register were returned in this batch. */
  predicate AllIn(b: BatchResult, r: Register) {
    var offset := r.addr - b.read.start;
    if b.whole.Words? then End(r) - b.read.start <= |b.whole.words|
    else forall o :: offset <= o < offset + Registers.Words(r) ==> CameAlone(b.singles, o)
  }

  predicate CameAlone(singles: seq<ReadResult>, o: int) {
    0 <= o < |singles| && singles[o].Words? && singles[o].words != []
  }

  /** The batches of a plan: each read asked for, a whole answer no longer than what was asked for,
      and the single reads, one for each word. */
  ghost predicate Executed(batches: seq<BatchResult>, plan: seq<Read>) {
    && |batches| == |plan|
    && forall k :: 0 <= k < |plan| ==> ExecutedAs(batches[k], plan[k])
  }

  predicate ExecutedAs(b: BatchResult, d: Read) {
    b.read == d && (b.whole.Words? ==> |b.whole.words| <= d.count) && GoodBatch(b)
  }

  /** A failure stays where it is. Of the reads that batching makes, a register gets a fresh value
      if and only if all its own words came back, with its batch or one by one, whatever else
      failed. */
  lemma {:induction false} FreshExactlyWhenReturned(
      regs: seq<Register>, plan: seq<Read>, max: int, batches: seq<BatchResult>, r: Register, k: nat)
    requires OptimalReads(regs, plan, max) && Executed(batches, plan) && r in regs
    requires k < |plan| && Within(r, plan[k])
    ensures FreshValue(BlocksOf(batches), r).Some? <==> AllIn(batches[k], r)
  {
    assert ExecutedAs(batches[k], plan[k]);
    forall l | 0 <= l < |plan| && l != k ensures Misses(batches[l], r) {
      assert ExecutedAs(batches[l], plan[l]);
      PlanApart(regs, plan, max, r, k, l);
    }
    FreshFromOne(batches, r, k);
  }

  lemma PlanApart(regs: seq<Register>, plan: seq<Read>, max: int, r: Register, k: nat, l: nat)
    requires OptimalReads(regs, plan, max) && r in regs && k < |plan| && l < |plan| && l != k && Within(r, plan[k])
    ensures Apart(r, plan[l])
  {
    if l < k { assert plan[l].start + plan[l].count <= plan[k].start; }
    else { assert plan[k].start + plan[k].count <= plan[l].start; }
  }

  /** What the batch contributes, if anything, does not cover the register. */
  predicate Misses(b: BatchResult, r: Register) {
    BlockOf(b).Some? ==> !Covers(BlockOf(b).value, r)
  }

  /** What one batch contributes decides. */
  lemma {:induction false} FreshFromOne(batches: seq<BatchResult>, r: Register, k: nat)
    requires k < |batches| && GoodBatch(batches[k]) && r.addr >= batches[k].read.start
    requires forall l :: 0 <= l < |batches| && l != k ==> Misses(batches[l], r)
    ensures FreshValue(BlocksOf(batches), r).Some? <==> AllIn(batches[k], r)
    decreases |batches|
  {
    var n := |batches| - 1;
    var front := BlocksOf(batches[..n]);
    if k < n {
      forall l | 0 <= l < n && l != k ensures Misses(batches[..n][l], r) { assert Misses(batches[l], r); }
      FreshFromOne(batches[..n], r, k);
      assert Misses(batches[n], r) && batches[..n][k] == batches[k];
      FreshAppend(front, BlockOf(batches[n]), r);
      if !exists i :: 0 <= i < |front| && Covers(front[i], r) { UncoveredIsNotFresh(front, r); }
      if BlockOf(batches[n]).Some? { UncoveredIsNotFresh([BlockOf(batches[n]).value], r); }
    } else {
      forall l | 0 <= l < n ensures Misses(batches[..n][l], r) { assert Misses(batches[l], r); }
      NoneCover(batches[..n], r);
      FreshAppend(front, BlockOf(batches[n]), r);
      OneBlock(batches[n], r);
    }
  }

  /** One more block, or none, after those that decide nothing. */
  lemma {:induction false} FreshAppend(blocks: seq<Block>, b: Option<Block>, r: Register)
    ensures var all := blocks + match b case Some(x) => [x] case None => [];
            FreshValue(all, r)
            == if exists i :: 0 <= i < |blocks| && Covers(blocks[i], r) then FreshValue(blocks, r)
               else if b.None? then None else FreshValue([b.value], r)
    decreases |blocks|
  {
    var last := match b case Some(x) => [x] case None => [];
    if blocks == [] {
      assert [] + last == last;
    } else {
      assert (blocks + last)[1..] == blocks[1..] + last;
      FreshAppend(blocks[1..], b, r);
      assert forall i :: 0 < i < |blocks| ==> blocks[i] == blocks[1..][i - 1];
    }
  }

  lemma {:induction false} NoneCover(batches: seq<BatchResult>, r: Register)
    requires forall l :: 0 <= l < |batches| ==> Misses(batches[l], r)
    ensures forall i :: 0 <= i < |BlocksOf(batches)| ==> !Covers(BlocksOf(batches)[i], r)
    decreases |batches|
  {
    if batches != [] {
      var n := |batches| - 1;
      NoneCover(batches[..n], r);
      assert Misses(batches[n], r);
    }
  }

  lemma OneBlock(b: BatchResult, r: Register)
    requires GoodBatch(b) && r.addr >= b.read.start
    ensures (BlockOf(b).Some? && FreshValue([BlockOf(b).value], r).Some?) <==> AllIn(b, r)
  {
    var offset := r.addr - b.read.start;
    if BlockOf(b).Some? {
      var block := BlockOf(b).value;
      assert [block][1..] == [];
      if Covers(block, r) {
        RawRoundTrip(r.kind, 0, block.words[offset..End(r) - block.start], 0);
      }
      if !b.whole.Words? && Covers(block, r) && !Tainted(block, r) {
        forall o | offset <= o < offset + Registers.Words(r) ensures CameAlone(b.singles, o) {
          var n: nat := o;
          assert n !in block.failed;
        }
      }
    }
    if !b.whole.Words? && AllIn(b, r) {
      assert CameAlone(b.singles, offset) && CameAlone(b.singles, offset + Registers.Words(r) - 1);
      assert forall o :: o in BlockOf(b).value.failed ==> !CameAlone(b.singles, o);
      assert Covers(BlockOf(b).value, r) && !Tainted(BlockOf(b).value, r);
    }
  }

  lemma {:induction false} UncoveredIsNotFresh(blocks: seq<Block>, r: Register)
    requires forall i :: 0 <= i < |blocks| ==> !Covers(blocks[i], r)
    ensures FreshValue(blocks, r).None?
    decreases |blocks|
  {
    if blocks != [] {
      UncoveredIsNotFresh(blocks[1..], r);
    }
  }

  /** A poll whose reads all come back leaves every register of the tier with a value of this very
      poll. */
  lemma FullPollRefreshesAll(
      regs: seq<Register>, plan: seq<Read>, before: Reading, c: Cycle, cadence: real, after: Reading, r: Register)
    requires PollEffect(before, regs, c, cadence * TIER_STALE_MULTIPLIER as real, after) && cadence > 0.0
    requires OptimalReads(TierOf(regs, c.tier), plan, 64) && AllReturned(c.batches, plan)
    requires r in regs && r.tier == c.tier
    ensures r.name in after.values && r.name in after.ages && after.ages[r.name] == c.at
  {
    TierOfIsTier(regs, c.tier, r);
    FullReadsDecodeAll(TierOf(regs, c.tier), plan, 64, c.batches, r);
    CachedValuesAreFresh(regs, before, c, cadence, after, r);
    assert Entry(after, r.name).Some?;
  }

  // ------------------------------------------------------------------------------ the object

  class Poller {
    const regs: seq<Register>
    const primeCadence: real
    const baseCadence: real
    const stateNames: seq<string>       // the registers that the engine-state rules refer to
    var reading: Reading
    var lastPrimeGood: Option<real>

    constructor (regs: seq<Register>, primeCadence: real, baseCadence: real, stateNames: seq<string>)
      ensures this.regs == regs && this.primeCadence == primeCadence && this.baseCadence == baseCadence
      ensures this.stateNames == stateNames && reading == NOTHING && lastPrimeGood == None
    {
      this.regs, this.primeCadence, this.baseCadence, this.stateNames := regs, primeCadence, baseCadence, stateNames;
      reading, lastPrimeGood := NOTHING, None;
    }

    /** The reads of a tier: at most 64 words each. */
    method Plan(tier: Tier) returns (plan: seq<Read>)
      requires NonOverlapping(TierOf(regs, tier))
      ensures OptimalReads(TierOf(regs, tier), plan, 64)
    {
      plan := BatchReads(TierOf(regs, tier));
    }

    /** Re-reads a failed batch word by word. */
    method FallbackSingles(b: BatchResult) returns (block: Option<Block>)
      requires GoodBatch(b) && b.whole.Failed?
      ensures block == BlockOf(b)
    {
      var words: seq<int> := [];
      var failed: set<nat> := {};
      var anyOk := false;
      for offset := 0 to |b.singles|
        invariant words == FanOut(b.singles[..offset]) && failed == FailedOffsets(b.singles[..offset])
        invariant anyOk <==> AnyOk(b.singles[..offset])
      {
        var r := b.singles[offset];
        assert b.singles[..offset + 1] == b.singles[..offset] + [r];
        if SingleOk(r) {
          words := words + [r.words[0]];
          anyOk := true;
          assert SingleOk(b.singles[..offset + 1][offset]);
        } else {
          words := words + [0];
          failed := failed + {offset};
        }
      }
      assert b.singles[..|b.singles|] == b.singles;
      return if anyOk then Some(Block(b.read.start, words, failed)) else None;
    }

    /** Executes the batches; one health sample comes of each, good if any of its words could be
        read. */
    method ReadBatches(batches: seq<BatchResult>) returns (blocks: seq<Block>, samples: seq<bool>)
      requires forall i :: 0 <= i < |batches| ==> GoodBatch(batches[i])
      ensures blocks == BlocksOf(batches)
      ensures |samples| == |batches| && forall i :: 0 <= i < |batches| ==> samples[i] == BlockOf(batches[i]).Some?
    {
      blocks, samples := [], [];
      for i := 0 to |batches|
        invariant blocks == BlocksOf(batches[..i])
        invariant |samples| == i && forall j :: 0 <= j < i ==> samples[j] == BlockOf(batches[j]).Some?
      {
        var b := batches[i];
        assert batches[..i + 1][..i] == batches[..i];
        if b.whole.Words? {
          blocks := blocks + [Block(b.read.start, b.whole.words, {})];
          samples := samples + [true];
        } else {
          var block := FallbackSingles(b);
          blocks := blocks + match block case Some(x) => [x] case None => [];
          samples := samples + [block.Some?];
        }
      }
      assert batches[..|batches|] == batches;
    }

    /** The value of a register in this cycle, from the first block that covers it. */
    method DecodeFrom(blocks: seq<Block>, r: Register) returns (value: Option<real>)
      ensures value == FreshValue(blocks, r)
    {
      var i := 0;
      while i < |blocks|
        invariant 0 <= i <= |blocks| && FreshValue(blocks, r) == FreshValue(blocks[i..], r)
      {
        assert blocks[i..][1..] == blocks[i + 1..];
        var b := blocks[i];
        if Covers(b, r) {
          var offset := r.addr - b.start;
          if exists o :: offset <= o < offset + Registers.Words(r) && o in b.failed {
            return None;
          }
          assert !Tainted(b, r);
          return Decode(r, b.words[offset..offset + Registers.Words(r)]);
        }
        i := i + 1;
      }
      return None;
    }

    /** One poll of a tier, the reads done: decode, evict, publish. */
    method PollTier(c: Cycle) returns (samples: seq<bool>)
      requires GoodCycle(c) && c.batches != [] && DistinctNames(regs) && SameKeys(reading)
      modifies this
      ensures PollEffect(old(reading), regs, c,
                (if c.tier.Prime? then primeCadence else baseCadence) * TIER_STALE_MULTIPLIER as real, reading)
      ensures |samples| == |c.batches| && forall i :: 0 <= i < |samples| ==> samples[i] == BlockOf(c.batches[i]).Some?
      ensures lastPrimeGood
              == if c.tier.Prime? && StateFresh(reading, stateNames, c) then Some(c.at) else old(lastPrimeGood)
    {
      var blocks;
      blocks, samples := ReadBatches(c.batches);
      var limit := (if c.tier.Prime? then primeCadence else baseCadence) * TIER_STALE_MULTIPLIER as real;
      var decoded := DecodeTier(blocks, c.tier, c.at);
      var kept := EvictTier(decoded, c.tier, c.at, limit);
      forall r | r in regs && r.tier == c.tier ensures Entry(kept, r.name) == Refresh(reading, blocks, r, c.at, limit) {
        assert Entry(kept, r.name) == Young(Entry(decoded, r.name), c.at, limit);
      }
      reading := kept;
      if c.tier.Prime? && StateFresh(reading, stateNames, c) {
        lastPrimeGood := Some(c.at);
      }
    }

    /** Decodes every register of the tier that it can, over the values cached so far. */
    method DecodeTier(blocks: seq<Block>, tier: Tier, now: real) returns (r: Reading)
      requires DistinctNames(regs) && SameKeys(reading)
      ensures SameKeys(r)
      ensures forall q :: q in regs && q.tier == tier ==> Entry(r, q.name) == Decoded(reading, blocks, q, now)
      ensures forall name :: NotOfTier(regs, tier, name) ==> Entry(r, name) == Entry(reading, name)
    {
      r := reading;
      var i := 0;
      while i < |regs|
        invariant 0 <= i <= |regs| && SameKeys(r)
        invariant forall k :: 0 <= k < i && regs[k].tier == tier ==>
                    Entry(r, regs[k].name) == Decoded(reading, blocks, regs[k], now)
        invariant forall name :: NotOfTier(regs[..i], tier, name) ==> Entry(r, name) == Entry(reading, name)
      {
        var q := regs[i];
        assert regs[..i + 1] == regs[..i] + [q];
        NotOfTierStep(regs, i, tier);
        if q.tier == tier {
          var value := DecodeFrom(blocks, q);
          if value.Some? {
            r := Reading(r.values[q.name := value.value], r.ages[q.name := now]);
          }
        }
        i := i + 1;
      }
      assert regs[..i] == regs;
    }

    /** Drops the values of the tier that are too old. */
    method EvictTier(decoded: Reading, tier: Tier, now: real, limit: real) returns (r: Reading)
      requires DistinctNames(regs) && SameKeys(decoded)
      ensures SameKeys(r)
      ensures forall q :: q in regs && q.tier == tier ==> Entry(r, q.name) == Young(Entry(decoded, q.name), now, limit)
      ensures forall name :: NotOfTier(regs, tier, name) ==> Entry(r, name) == Entry(decoded, name)
    {
      r := decoded;
      var i := 0;
      while i < |regs|
        invariant 0 <= i <= |regs| && SameKeys(r)
        invariant forall k :: 0 <= k < i && regs[k].tier == tier ==>
                    Entry(r, regs[k].name) == Young(Entry(decoded, regs[k].name), now, limit)
        invariant forall name :: NotOfTier(regs[..i], tier, name) ==> Entry(r, name) == Entry(decoded, name)
      {
        var q := regs[i];
        assert regs[..i + 1] == regs[..i] + [q];
        NotOfTierStep(regs, i, tier);
        if q.tier == tier && q.name in r.ages && now - r.ages[q.name] >= limit {
          r := Reading(r.values - {q.name}, r.ages - {q.name});
        }
        i := i + 1;
      }
      assert regs[..i] == regs;
    }
  }

  /** No register of the tier has this name. */
  ghost predicate NotOfTier(regs: seq<Register>, tier: Tier, name: string) {
    forall r :: r in regs && r.tier == tier ==> r.name != name
  }

  lemma NotOfTierStep(regs: seq<Register>, i: nat, tier: Tier)
    requires i < |regs| && DistinctNames(regs)
    ensures forall name :: NotOfTier(regs[..i + 1], tier, name) <==>
              NotOfTier(regs[..i], tier, name) && (regs[i].tier == tier ==> regs[i].name != name)
    ensures NotOfTier(regs[..i], tier, regs[i].name)
  {
    assert regs[..i + 1] == regs[..i] + [regs[i]];
    forall name
      ensures NotOfTier(regs[..i + 1], tier, name) <==>
                NotOfTier(regs[..i], tier, name) && (regs[i].tier == tier ==> regs[i].name != name)
    {
      assert forall r :: r in regs[..i + 1] <==> r in regs[..i] || r == regs[i];
    }
    forall r | r in regs[..i] ensures r.name != regs[i].name {
      var k :| 0 <= k < i && regs[k] == r;
    }
  }

  /** An entry after the decoding half of a poll. */
  function Decoded(before: Reading, blocks: seq<Block>, r: Register, now: real): Option<(real, real)> {
    match FreshValue(blocks, r)
    case Some(v) => Some((v, now))
    case None => Entry(before, r.name)
  }

  /** An entry that is not too old. */
  function Young(entry: Option<(real, real)>, now: real, limit: real): Option<(real, real)> {
    if entry.Some? && now - entry.value.1 >= limit then None else entry
  }

  /** The heartbeat condition of a prime poll: every register that engine-state detection needs
      carries the stamp of this poll; without such registers, any batch that could be read. */
  predicate StateFresh(reading: Reading, stateNames: seq<string>, c: Cycle) {
    if stateNames == [] then exists i :: 0 <= i < |c.batches| && BlockOf(c.batches[i]).Some?
    else forall n :: n in stateNames ==> n in reading.ages && reading.ages[n] == c.at
  }

  /** A map without such registers beats when anything at all could be read. */
  lemma HeartbeatWithoutState(reading: Reading, c: Cycle)
    ensures StateFresh(reading, [], c)
            <==> exists i :: 0 <= i < |c.batches|
                             && (c.batches[i].whole.Words? || exists o :: CameAlone(c.batches[i].singles, o))
  {
    forall b: BatchResult ensures BlockOf(b).Some? <==> b.whole.Words? || exists o :: CameAlone(b.singles, o) {
      if AnyOk(b.singles) {
        var o :| 0 <= o < |b.singles| && SingleOk(b.singles[o]);
        assert CameAlone(b.singles, o);
      }
    }
  }

  /** The heartbeat means what it says: with a clock that has moved on since every cached value
      was stamped, it beats exactly if each state register was decoded in this very poll. */
  lemma HeartbeatMeansDecoded(
      regs: seq<Register>, before: Reading, c: Cycle, cadence: real, after: Reading, stateRegs: seq<Register>)
    requires PollEffect(before, regs, c, cadence * TIER_STALE_MULTIPLIER as real, after)
    requires cadence > 0.0 && c.tier.Prime? && stateRegs != []
    requires forall r :: r in stateRegs ==> r in regs && r.tier.Prime?
    requires forall n :: n in before.ages ==> before.ages[n] < c.at
    ensures StateFresh(after, seq(|stateRegs|, i requires 0 <= i < |stateRegs| => stateRegs[i].name), c)
            <==> forall r :: r in stateRegs ==> FreshValue(BlocksOf(c.batches), r).Some?
  {
    var names := seq(|stateRegs|, i requires 0 <= i < |stateRegs| => stateRegs[i].name);
    forall r | r in stateRegs
      ensures (r.name in after.ages && after.ages[r.name] == c.at) <==> FreshValue(BlocksOf(c.batches), r).Some?
    {
      CachedValuesAreFresh(regs, before, c, cadence, after, r);
      assert Entry(after, r.name) == Refresh(before, BlocksOf(c.batches), r, c.at, cadence * 3.0);
      assert r.name in after.ages <==> Entry(after, r.name).Some?;
    }
    forall r | r in stateRegs ensures r.name in names {
      var i :| 0 <= i < |stateRegs| && stateRegs[i] == r;
      assert names[i] == r.name;
    }
    if forall r :: r in stateRegs ==> FreshValue(BlocksOf(c.batches), r).Some? {
      forall n | n in names ensures n in after.ages && after.ages[n] == c.at {
        var i :| 0 <= i < |names| && names[i] == n;
        assert stateRegs[i] in stateRegs;
      }
    }
  }
}
