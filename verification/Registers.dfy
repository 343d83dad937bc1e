/**
 Register definitions, the decoding of raw words, and the grouping of registers into reads
 (GenWatch, modbus/registers.py).
 */
module Registers {
  import opened Prelude

  datatype RegType = U16 | S16 | U32 | U32Lo | S32 | BitField | Enum

  datatype Tier = Prime | Base

  datatype Register = Register(name: string, addr: int, kind: RegType, tier: Tier, scale: real)

  function WordsOf(kind: RegType): nat {
    if kind.U32? || kind.U32Lo? || kind.S32? then 2 else 1
  }

  function Words(r: Register): nat { WordsOf(r.kind) }

  /** The address just past a register. */
  function End(r: Register): int { r.addr + Words(r) }

  // --------------------------------------------------------------------------------- decoding

  function Low16(w: int): int { w % 0x1_0000 }

  /** The raw number that the words of a register carry, if there are enough of them. */
  function Raw(kind: RegType, words: seq<int>): Option<int> {
    if words == [] then None
    else match kind
      case S16 => var v := Low16(words[0]); Some(if v >= 0x8000 then v - 0x1_0000 else v)
      case U32 => if |words| < 2 then None else Some(Low16(words[0]) * 0x1_0000 + Low16(words[1]))
      case U32Lo => if |words| < 2 then None else Some(Low16(words[1]))
      case S32 =>
        if |words| < 2 then None
        else
          var u := Low16(words[0]) * 0x1_0000 + Low16(words[1]);
          Some(if u < 0x8000_0000 then u else u - 0x1_0000_0000)
      case _ => Some(Low16(words[0]))
  }

  function Scaled(v: int, scale: real): real { v as real * scale }

  /** The engineering value: scaled, except for bit fields and enumerations. */
  function Decode(r: Register, words: seq<int>): Option<real> {
    var raw := Raw(r.kind, words);
    if raw.None? then None
    else if r.scale != 1.0 && !r.kind.BitField? && !r.kind.Enum? then Some(Scaled(raw.value, r.scale))
    else Some(raw.value as real)
  }

  /** Whether the words carry the number: congruent to it, high word first. */
  predicate Carry(kind: RegType, words: seq<int>, v: int) {
    match kind
    case U32 => |words| >= 2 && (words[0] * 0x1_0000 + words[1] % 0x1_0000 - v) % 0x1_0000_0000 == 0
    case S32 => |words| >= 2 && (words[0] * 0x1_0000 + words[1] % 0x1_0000 - v) % 0x1_0000_0000 == 0
    case U32Lo => |words| >= 2 && (words[1] - v) % 0x1_0000 == 0
    case _ => |words| >= 1 && (words[0] - v) % 0x1_0000 == 0
  }

  /** The engineering value of a number: bit fields and enumerations are not scaled. */
  function Value(r: Register, v: int): real {
    match r.kind
    case BitField => v as real
    case Enum => v as real
    case _ => Scaled(v, r.scale)
  }

  /** The numbers that a kind of register can carry. */
  predicate InRange(kind: RegType, v: int) {
    match kind
    case S16 => -0x8000 <= v < 0x8000
    case U32 => 0 <= v < 0x1_0000_0000
    case S32 => -0x8000_0000 <= v < 0x8000_0000
    case _ => 0 <= v < 0x1_0000
  }

  /** The words that a controller puts on the wire for a number: two's complement, high word
      first, and nothing in the reserved high word of a `U32Lo`. */
  function Encode(kind: RegType, v: int): seq<int> {
    match kind
    case S16 => [v % 0x1_0000]
    case U32 => [v / 0x1_0000, v % 0x1_0000]
    case U32Lo => [0, v]
    case S32 => [v % 0x1_0000_0000 / 0x1_0000, v % 0x1_0000]
    case _ => [v]
  }

  /** Decoding inverts encoding on every number in range, whatever sits in the bits that a
      register does not use; and decoding always lands in range. */
  lemma RawRoundTrip(kind: RegType, v: int, words: seq<int>, noise: int)
    ensures InRange(kind, v) ==> |Encode(kind, v)| == WordsOf(kind) && Raw(kind, Encode(kind, v)) == Some(v)
    ensures InRange(kind, v) && kind.U32Lo? ==> Raw(kind, [noise, v]) == Some(v)
    ensures |words| >= WordsOf(kind) ==> Raw(kind, words).Some? && InRange(kind, Raw(kind, words).value)
    ensures Raw(kind, words).None? <==> |words| < WordsOf(kind)
  {
    if kind.S32? && InRange(kind, v) {
      var u := v % 0x1_0000_0000;
      assert u == if v >= 0 then v else v + 0x1_0000_0000;
      assert u == u / 0x1_0000 * 0x1_0000 + u % 0x1_0000;
      assert u % 0x1_0000 == v % 0x1_0000;
    }
  }

  /** Decoding inverts the wire encoding on engineering values too, whatever the scale. */
  lemma {:induction false} DecodeRoundTrip(r: Register, v: int)
    requires InRange(r.kind, v)
    ensures r.kind.BitField? || r.kind.Enum? ==> Decode(r, Encode(r.kind, v)) == Some(v as real)
    ensures !r.kind.BitField? && !r.kind.Enum? ==> Decode(r, Encode(r.kind, v)) == Some(Scaled(v, r.scale))
    ensures Scaled(v, r.scale) == v as real * r.scale
  {
    RawRoundTrip(r.kind, v, [], 0);
    DecodeGivesValue(r, Encode(r.kind, v));
  }

  lemma ScaledByOne(v: int, scale: real)
    requires scale == 1.0
    ensures Scaled(v, scale) == v as real
  {
    assert Scaled(v, 1.0) == v as real;
  }

  lemma DecodeGivesValue(r: Register, words: seq<int>)
    ensures Decode(r, words)
            == match Raw(r.kind, words) case Some(v) => Some(Value(r, v)) case None => None
  {
    if r.scale == 1.0 && Raw(r.kind, words).Some? {
      ScaledByOne(Raw(r.kind, words).value, r.scale);
    }
  }

  lemma HighLow(high: int, low: int)
    ensures (high * 0x1_0000 + low % 0x1_0000 - (Low16(high) * 0x1_0000 + Low16(low))) % 0x1_0000_0000 == 0
    ensures 0 <= Low16(high) * 0x1_0000 + Low16(low) < 0x1_0000_0000
  {
    var q := high / 0x1_0000;
    assert high == q * 0x1_0000 + Low16(high);
    assert high * 0x1_0000 + low % 0x1_0000 - (Low16(high) * 0x1_0000 + Low16(low)) == q * 0x1_0000_0000;
  }

  /** What decoding does to any words at all: it finds the one number in the range of the register
      that they carry, and gives its engineering value. */
  lemma DecodesTheNumber(r: Register, words: seq<int>) returns (v: int)
    requires Decode(r, words).Some?
    ensures InRange(r.kind, v) && Carry(r.kind, words, v) && Decode(r, words) == Some(Value(r, v))
  {
    DecodeGivesValue(r, words);
    v := Raw(r.kind, words).value;
    RawRoundTrip(r.kind, 0, words, 0);
    RawIsCarried(r.kind, words);
  }

  lemma RawIsCarried(kind: RegType, words: seq<int>)
    requires Raw(kind, words).Some?
    ensures Carry(kind, words, Raw(kind, words).value)
  {
    if kind.U32? || kind.S32? {
      HighLow(words[0], words[1]);
    }
  }

  // --------------------------------------------------------------------------------- batching

  const GAP_TOLERANCE := 4
  const DEFAULT_MAX_WORDS := 64

  datatype Read = Read(start: int, count: int)

  predicate SortedByAddr(s: seq<Register>) {
    forall i, j :: 0 <= i < j < |s| ==> s[i].addr <= s[j].addr
  }

  /** Puts a register into sorted ones, behind those of equal address. */
  function Insert(r: Register, s: seq<Register>): (t: seq<Register>)
    ensures |t| == |s| + 1
  {
    if s == [] || r.addr < s[0].addr then [r] + s else [s[0]] + Insert(r, s[1..])
  }

  /** The registers by ascending address; equal addresses keep their order. */
  function SortByAddr(regs: seq<Register>): (t: seq<Register>)
    ensures |t| == |regs|
  {
    if regs == [] then [] else Insert(regs[|regs| - 1], SortByAddr(regs[..|regs| - 1]))
  }

  lemma {:induction false} InsertAbove(r: Register, s: seq<Register>, low: int)
    requires low <= r.addr && forall i :: 0 <= i < |s| ==> low <= s[i].addr
    ensures forall i :: 0 <= i < |Insert(r, s)| ==> low <= Insert(r, s)[i].addr
  {
    if s != [] && !(r.addr < s[0].addr) {
      InsertAbove(r, s[1..], low);
    }
  }

  lemma {:induction false} InsertSorts(r: Register, s: seq<Register>)
    requires SortedByAddr(s)
    ensures SortedByAddr(Insert(r, s))
  {
    if s != [] && !(r.addr < s[0].addr) {
      InsertSorts(r, s[1..]);
      InsertAbove(r, s[1..], s[0].addr);
    }
  }

  lemma {:induction false} InsertPermutes(r: Register, s: seq<Register>)
    ensures multiset(Insert(r, s)) == multiset(s) + multiset{r}
  {
    if s != [] && !(r.addr < s[0].addr) {
      InsertPermutes(r, s[1..]);
      assert s == [s[0]] + s[1..];
    }
  }

  /** Sorting sorts, and only reorders. */
  lemma {:induction false} SortIsSort(regs: seq<Register>)
    ensures SortedByAddr(SortByAddr(regs)) && multiset(SortByAddr(regs)) == multiset(regs)
  {
    if regs != [] {
      var front, last := regs[..|regs| - 1], regs[|regs| - 1];
      assert regs == front + [last];
      SortIsSort(front);
      InsertSorts(last, SortByAddr(front));
      InsertPermutes(last, SortByAddr(front));
    }
  }

  predicate Disjoint(a: Register, b: Register) {
    End(a) <= b.addr || End(b) <= a.addr
  }

  /** No two registers of a map share a word. */
  predicate NonOverlapping(regs: seq<Register>) {
    forall i, j {:trigger Disjoint(regs[i], regs[j])} :: 0 <= i < j < |regs| ==> Disjoint(regs[i], regs[j])
  }

  /** Registers in order of address, none beginning before those before it end. */
  predicate Chain(s: seq<Register>) {
    forall i, j :: 0 <= i < j < |s| ==> End(s[i]) <= s[j].addr
  }

  /** Disjoint registers, sorted, form a chain. */
  lemma SortedDisjointIsChain(s: seq<Register>)
    requires SortedByAddr(s) && NonOverlapping(s)
    ensures Chain(s)
  {
    forall i, j | 0 <= i < j < |s| ensures End(s[i]) <= s[j].addr {
      assert Disjoint(s[i], s[j]) && s[i].addr <= s[j].addr;
    }
  }

  lemma {:induction false} SortKeepsDisjoint(regs: seq<Register>)
    requires NonOverlapping(regs)
    ensures NonOverlapping(SortByAddr(regs))
    decreases |regs|
  {
    if regs != [] {
      var front, last := regs[..|regs| - 1], regs[|regs| - 1];
      SortKeepsDisjoint(front);
      var sorted := SortByAddr(front);
      SortIsSort(front);
      forall i | 0 <= i < |sorted| ensures Disjoint(last, sorted[i]) {
        assert sorted[i] in multiset(front);
        var k :| 0 <= k < |front| && front[k] == sorted[i];
        assert Disjoint(regs[k], regs[|regs| - 1]);
      }
      InsertKeepsDisjoint(last, sorted);
    }
  }

  lemma {:induction false} InsertKeepsDisjoint(r: Register, s: seq<Register>)
    requires NonOverlapping(s) && forall i :: 0 <= i < |s| ==> Disjoint(r, s[i])
    ensures NonOverlapping(Insert(r, s))
    decreases |s|
  {
    if s != [] && !(r.addr < s[0].addr) {
      InsertKeepsDisjoint(r, s[1..]);
      InsertPermutes(r, s[1..]);
      var rest := Insert(r, s[1..]);
      forall i | 0 <= i < |rest| ensures Disjoint(s[0], rest[i]) {
        assert rest[i] in multiset(rest);
        if rest[i] != r {
          assert rest[i] in multiset(s[1..]);
          var k :| 0 <= k < |s[1..]| && s[1..][k] == rest[i];
          assert Disjoint(s[0], s[k + 1]);
        }
      }
    }
  }

  /** At most four unused words lie between a register and the one before it. */
  predicate Near(s: seq<Register>, k: nat)
    requires 0 < k < |s|
  {
    s[k].addr - End(s[k - 1]) <= 4
  }

  /** The sorted registers `[i, j)` may share one read: neighbours are at most four words apart,
      and the whole is at most `max` words unless it is a single register. */
  predicate Fits(s: seq<Register>, i: nat, j: nat, max: int)
    requires j <= |s|
  {
    && i < j
    && (forall k :: i < k < j ==> Near(s, k))
    && (j - i > 1 ==> End(s[j - 1]) - s[i].addr <= max)
  }

  /** The next register joins the group `[i, j)`. */
  predicate Joins(s: seq<Register>, i: nat, j: nat, max: int)
    requires i < j < |s|
  {
    Near(s, j) && End(s[j]) - s[i].addr <= max
  }

  /** Where group `k` begins, the groups ending at `cuts`. */
  function From(cuts: seq<nat>, k: nat): nat
    requires k <= |cuts|
  {
    if k == 0 then 0 else cuts[k - 1]
  }

  /** `cuts` divides the registers `[0, upTo)` into consecutive groups that each fit one read. */
  ghost predicate Groups(s: seq<Register>, cuts: seq<nat>, upTo: nat, max: int) {
    && From(cuts, |cuts|) == upTo
    && forall k :: 0 <= k < |cuts| ==> GroupFits(s, cuts, k, max)
  }

  predicate GroupFits(s: seq<Register>, cuts: seq<nat>, k: nat, max: int)
    requires k < |cuts|
  {
    From(cuts, k) < cuts[k] <= |s| && Fits(s, From(cuts, k), cuts[k], max)
  }

  ghost predicate Partition(s: seq<Register>, cuts: seq<nat>, max: int) {
    Groups(s, cuts, |s|, max)
  }

  function ReadOf(s: seq<Register>, i: nat, j: nat): Read
    requires i < j <= |s|
  {
    Read(s[i].addr, End(s[j - 1]) - s[i].addr)
  }

  /** The reads are those of the groups. */
  ghost predicate ReadsOf(s: seq<Register>, cuts: seq<nat>, batches: seq<Read>) {
    && |batches| == |cuts|
    && forall k :: 0 <= k < |cuts| ==> ReadIs(s, cuts, k, batches[k])
  }

  predicate ReadIs(s: seq<Register>, cuts: seq<nat>, k: nat, d: Read)
    requires k < |cuts|
  {
    From(cuts, k) < cuts[k] <= |s| && d == ReadOf(s, From(cuts, k), cuts[k])
  }

  lemma {:induction false} GroupsAdvance(s: seq<Register>, cuts: seq<nat>, upTo: nat, max: int, a: nat, b: nat)
    requires Groups(s, cuts, upTo, max) && a <= b <= |cuts|
    ensures From(cuts, a) <= From(cuts, b) && (a < b ==> From(cuts, a) < From(cuts, b))
    decreases b
  {
    if a < b {
      GroupsAdvance(s, cuts, upTo, max, a, b - 1);
      assert GroupFits(s, cuts, b - 1, max);
    }
  }

  /** No division of the registers is ahead of these groups at any cut. */
  ghost predicate Ahead(s: seq<Register>, cuts: seq<nat>, max: int) {
    forall other :: Partition(s, other, max) ==>
      forall k :: 0 <= k < |cuts| && k < |other| ==> other[k] <= cuts[k]
  }

  /** Inside a group that fits, the next register always joins. */
  lemma FitsJoins(s: seq<Register>, p: nat, q: nat, i: nat, j: nat, max: int)
    requires Chain(s) && p <= i < j < q <= |s| && Fits(s, p, q, max)
    ensures Joins(s, i, j, max)
  {
    assert Near(s, j);
  }

  /** A group that is closed only when the next register does not join stays ahead. */
  lemma CloseStaysAhead(s: seq<Register>, done: seq<nat>, i: nat, j: nat, max: int)
    requires Chain(s) && Groups(s, done, i, max) && Ahead(s, done, max)
    requires i < j < |s| && !Joins(s, i, j, max)
    ensures Ahead(s, done + [j], max)
  {
    var cuts, n := done + [j], |done|;
    forall other | Partition(s, other, max) ensures forall k :: 0 <= k < |cuts| && k < |other| ==> other[k] <= cuts[k] {
      if n < |other| {
        assert GroupFits(s, other, n, max);
        if n > 0 { assert other[n - 1] <= done[n - 1]; }
        if other[n] > j { FitsJoins(s, From(other, n), other[n], i, j, max); }
      }
    }
  }

  /** Groups that reach the end and stayed ahead all the way are the fewest. */
  lemma AheadIsFewest(s: seq<Register>, cuts: seq<nat>, other: seq<nat>, max: int)
    requires Partition(s, cuts, max) && Partition(s, other, max)
    requires cuts == [] || Ahead(s, cuts[..|cuts| - 1], max)
    ensures |cuts| <= |other|
  {
    var m := |other|;
    if cuts != [] {
      assert GroupFits(s, cuts, 0, max);
    }
    if 0 < m < |cuts| {
      assert cuts[..|cuts| - 1][m - 1] == cuts[m - 1];
      GroupsAdvance(s, cuts, |s|, max, m, |cuts|);
    }
  }

  predicate Within(r: Register, d: Read) {
    d.start <= r.addr && End(r) <= d.start + d.count
  }

  predicate Apart(r: Register, d: Read) {
    End(r) <= d.start || d.start + d.count <= r.addr
  }

  /** Register `n` lies in the read of its own group and touches no other. */
  lemma ReadsPlaceRegister(s: seq<Register>, cuts: seq<nat>, batches: seq<Read>, max: int, n: nat, k: nat)
    requires Chain(s) && Partition(s, cuts, max) && ReadsOf(s, cuts, batches)
    requires k < |cuts| && From(cuts, k) <= n < cuts[k] <= |s|
    ensures Within(s[n], batches[k])
    ensures forall l :: 0 <= l < |batches| && l != k ==> Apart(s[n], batches[l])
  {
    assert GroupFits(s, cuts, k, max) && ReadIs(s, cuts, k, batches[k]);
    forall l | 0 <= l < |batches| && l != k ensures Apart(s[n], batches[l]) {
      assert GroupFits(s, cuts, l, max) && ReadIs(s, cuts, l, batches[l]);
      if l < k {
        GroupsAdvance(s, cuts, |s|, max, l + 1, k);
      } else {
        GroupsAdvance(s, cuts, |s|, max, k + 1, l);
      }
    }
  }

  /** The group of a register. */
  lemma {:induction false} GroupOf(s: seq<Register>, cuts: seq<nat>, upTo: nat, max: int, n: nat) returns (k: nat)
    requires Groups(s, cuts, upTo, max) && n < upTo
    ensures k < |cuts| && From(cuts, k) <= n < cuts[k]
    decreases |cuts|
  {
    var last := |cuts| - 1;
    if From(cuts, last) <= n {
      k := last;
    } else {
      var front := cuts[..last];
      forall m | 0 <= m < last ensures GroupFits(s, front, m, max) {
        assert GroupFits(s, cuts, m, max);
      }
      k := GroupOf(s, front, From(cuts, last), max, n);
    }
  }

  /** Every register by itself fits a read. */
  predicate Narrow(regs: seq<Register>, max: int) {
    forall i :: 0 <= i < |regs| ==> Words(regs[i]) <= max
  }

  lemma SortKeepsNarrow(regs: seq<Register>, max: int)
    requires Narrow(regs, max)
    ensures Narrow(SortByAddr(regs), max)
  {
    var s := SortByAddr(regs);
    SortIsSort(regs);
    forall i | 0 <= i < |s| ensures Words(s[i]) <= max {
      assert s[i] in multiset(regs);
      var k :| 0 <= k < |regs| && regs[k] == s[i];
    }
  }

  lemma ReadsInOrder(s: seq<Register>, cuts: seq<nat>, batches: seq<Read>, max: int)
    requires Chain(s) && Partition(s, cuts, max) && ReadsOf(s, cuts, batches) && Narrow(s, max)
    ensures forall k :: 0 <= k < |batches| ==> 0 < batches[k].count <= max
    ensures forall k, l :: 0 <= k < l < |batches| ==> batches[k].start + batches[k].count <= batches[l].start
  {
    forall k | 0 <= k < |batches| ensures 0 < batches[k].count <= max {
      assert GroupFits(s, cuts, k, max) && ReadIs(s, cuts, k, batches[k]);
    }
    forall k, l | 0 <= k < l < |batches| ensures batches[k].start + batches[k].count <= batches[l].start {
      assert GroupFits(s, cuts, k, max) && ReadIs(s, cuts, k, batches[k]);
      assert GroupFits(s, cuts, l, max) && ReadIs(s, cuts, l, batches[l]);
      GroupsAdvance(s, cuts, |s|, max, k + 1, l);
    }
  }

  /** What a list of reads for a list of registers should be: each at most `max` words, disjoint
      and in order, every register wholly inside exactly one, the reads of groups whose
      neighbours are at most four words apart, and as few as any division under these limits. */
  ghost predicate OptimalReads(regs: seq<Register>, batches: seq<Read>, max: int) {
    var s := SortByAddr(regs);
    && (forall k :: 0 <= k < |batches| ==> 0 < batches[k].count <= max)
    && (forall k, l :: 0 <= k < l < |batches| ==> batches[k].start + batches[k].count <= batches[l].start)
    && (forall r :: r in regs ==> InExactlyOne(r, batches))
    && (exists cuts :: Partition(s, cuts, max) && ReadsOf(s, cuts, batches))
    && (forall other :: Partition(s, other, max) ==> |batches| <= |other|)
  }

  ghost predicate InExactlyOne(r: Register, batches: seq<Read>) {
    exists k :: 0 <= k < |batches| && Within(r, batches[k])
                && forall l :: 0 <= l < |batches| && l != k ==> Apart(r, batches[l])
  }

  lemma ReadsAreOptimal(regs: seq<Register>, cuts: seq<nat>, batches: seq<Read>, max: int)
    requires NonOverlapping(regs) && Narrow(regs, max)
    requires Grouped(SortByAddr(regs), cuts, batches, max)
    ensures OptimalReads(regs, batches, max)
  {
    var s := SortByAddr(regs);
    SortIsSort(regs);
    SortKeepsDisjoint(regs);
    SortedDisjointIsChain(s);
    SortKeepsNarrow(regs, max);
    ReadsInOrder(s, cuts, batches, max);
    forall r | r in regs ensures InExactlyOne(r, batches) {
      assert r in multiset(s);
      var n :| 0 <= n < |s| && s[n] == r;
      var k := GroupOf(s, cuts, |s|, max, n);
      assert GroupFits(s, cuts, k, max);
      ReadsPlaceRegister(s, cuts, batches, max, n, k);
    }
    forall other | Partition(s, other, max) ensures |batches| <= |other| {
      AheadIsFewest(s, cuts, other, max);
    }
  }

  /** The registers before `j` have been grouped, the last group `[i, j)` being open. */
  ghost predicate Progress(s: seq<Register>, done: seq<nat>, batches: seq<Read>, i: nat, j: nat, max: int) {
    && i < j <= |s| && Fits(s, i, j, max)
    && Groups(s, done, i, max) && ReadsOf(s, done, batches) && Ahead(s, done, max)
  }

  /** All registers have been grouped, and no division was ahead anywhere. */
  ghost predicate Grouped(s: seq<Register>, cuts: seq<nat>, batches: seq<Read>, max: int) {
    && Partition(s, cuts, max) && ReadsOf(s, cuts, batches)
    && (cuts == [] || Ahead(s, cuts[..|cuts| - 1], max))
  }

  lemma ProgressBegins(s: seq<Register>, max: int)
    requires s != []
    ensures Progress(s, [], [], 0, 1, max)
  {
  }

  lemma ProgressEnds(s: seq<Register>, done: seq<nat>, batches: seq<Read>, i: nat, max: int)
    requires Progress(s, done, batches, i, |s|, max)
    ensures Grouped(s, done + [|s|], batches + [ReadOf(s, i, |s|)], max)
  {
    CloseGroup(s, done, batches, i, |s|, max);
    assert (done + [|s|])[..|done|] == done;
  }

  lemma ProgressJoins(s: seq<Register>, done: seq<nat>, batches: seq<Read>, i: nat, j: nat, max: int)
    requires Progress(s, done, batches, i, j, max) && j < |s| && Joins(s, i, j, max)
    ensures Progress(s, done, batches, i, j + 1, max)
  {
  }

  lemma ProgressCloses(s: seq<Register>, done: seq<nat>, batches: seq<Read>, i: nat, j: nat, max: int)
    requires Chain(s) && Progress(s, done, batches, i, j, max) && j < |s| && !Joins(s, i, j, max)
    ensures Progress(s, done + [j], batches + [ReadOf(s, i, j)], j, j + 1, max)
  {
    CloseStaysAhead(s, done, i, j, max);
    CloseGroup(s, done, batches, i, j, max);
  }

  /** Groups registers into reads, in one pass over the sorted registers. */
  method BatchReads(regs: seq<Register>, max: int := DEFAULT_MAX_WORDS) returns (batches: seq<Read>)
    requires NonOverlapping(regs) && Narrow(regs, max)
    ensures OptimalReads(regs, batches, max)
  {
    if regs == [] {
      batches := [];
      ReadsAreOptimal(regs, [], batches, max);
      return;
    }
    ghost var cuts;
    SortIsSort(regs);
    SortKeepsDisjoint(regs);
    SortedDisjointIsChain(SortByAddr(regs));
    batches, cuts := BatchSorted(SortByAddr(regs), max);
    ReadsAreOptimal(regs, cuts, batches, max);
  }

  method BatchSorted(s: seq<Register>, max: int) returns (batches: seq<Read>, ghost cuts: seq<nat>)
    requires Chain(s) && s != []
    ensures Grouped(s, cuts, batches, max)
  {
    batches, cuts := [], [];
    ProgressBegins(s, max);
    var start, end := s[0].addr, End(s[0]);
    ghost var i := 0;
    var j := 1;
    while j < |s|
      invariant Progress(s, cuts, batches, i, j, max)
      invariant start == s[i].addr && end == End(s[j - 1])
    {
      var r := s[j];
      var newEnd := if end > End(r) then end else End(r);
      if r.addr - end <= GAP_TOLERANCE && newEnd - start <= max {
        ProgressJoins(s, cuts, batches, i, j, max);
        end := newEnd;
      } else {
        ProgressCloses(s, cuts, batches, i, j, max);
        var closed := Read(start, end - start);
        assert closed == ReadOf(s, i, j);
        batches := batches + [closed];
        cuts, i := cuts + [j], j;
        start, end := r.addr, End(r);
      }
      j := j + 1;
    }
    ProgressEnds(s, cuts, batches, i, max);
    var last := Read(start, end - start);
    assert j == |s| && last == ReadOf(s, i, |s|);
    batches, cuts := batches + [last], cuts + [|s|];
  }

  /** Closing the group `[i, j)` adds its read. */
  lemma CloseGroup(s: seq<Register>, done: seq<nat>, batches: seq<Read>, i: nat, j: nat, max: int)
    requires Groups(s, done, i, max) && ReadsOf(s, done, batches) && i < j <= |s| && Fits(s, i, j, max)
    ensures Groups(s, done + [j], j, max) && ReadsOf(s, done + [j], batches + [ReadOf(s, i, j)])
  {
    var cuts := done + [j];
    forall k | 0 <= k < |cuts|
      ensures GroupFits(s, cuts, k, max) && ReadIs(s, cuts, k, (batches + [ReadOf(s, i, j)])[k])
    {
      if k < |done| {
        assert GroupFits(s, done, k, max) && ReadIs(s, done, k, batches[k]);
      }
    }
  }

  // ------------------------------------------------------------------------------- validation

  /** The structural complaints of the map validation that batching and polling rely on. */
  datatype Complaint = DuplicateName(name: string) | WordOverlap(word: int)

  predicate DistinctNames(regs: seq<Register>) {
    forall i, j :: 0 <= i < j < |regs| ==> regs[i].name != regs[j].name
  }

  predicate Holds(r: Register, w: int) { r.addr <= w < End(r) }

  /** Register `m` is the last of these to hold the word. */
  predicate LastHolder(regs: seq<Register>, w: int, m: int) {
    0 <= m < |regs| && Holds(regs[m], w) && forall k :: m < k < |regs| ==> !Holds(regs[k], w)
  }

  /** `owner` says for every word of these registers who claimed it last, and nothing else. */
  ghost predicate Owned(regs: seq<Register>, owner: map<int, string>) {
    && (forall w :: w in owner ==> exists m :: LastHolder(regs, w, m) && regs[m].name == owner[w])
    && (forall k, w :: 0 <= k < |regs| && Holds(regs[k], w) ==> w in owner)
  }

  /** The books after one register has claimed its words. */
  function Claim(owner: map<int, string>, r: Register): map<int, string> {
    if Words(r) == 1 then owner[r.addr := r.name] else owner[r.addr := r.name][r.addr + 1 := r.name]
  }

  /** No word of the register is held by another name. */
  predicate Unclaimed(owner: map<int, string>, r: Register) {
    forall w :: w in owner && r.addr <= w < End(r) ==> owner[w] == "" || owner[w] == r.name
  }

  /** Claims the words of one register; complains of each that another name holds already. */
  method ClaimWords(r: Register, owner: map<int, string>) returns (complaints: seq<Complaint>, owner': map<int, string>)
    ensures complaints == [] <==> Unclaimed(owner, r)
    ensures owner' == Claim(owner, r)
  {
    complaints, owner' := [], owner;
    var w := r.addr;
    while w < End(r)
      invariant r.addr <= w <= End(r)
      invariant complaints == [] <==> forall v :: v in owner && r.addr <= v < w ==> owner[v] == "" || owner[v] == r.name
      invariant owner' == if w == r.addr then owner
                          else if w == r.addr + 1 then owner[r.addr := r.name] else Claim(owner, r)
    {
      if w in owner' && owner'[w] != "" && owner'[w] != r.name {
        complaints := complaints + [WordOverlap(w)];
      }
      owner' := owner'[w := r.name];
      w := w + 1;
    }
  }

  /** What the validation takes for a clash is missed where the earlier register has no name. */
  predicate NoClash(a: Register, b: Register) {
    a.name == "" || Disjoint(a, b)
  }

  /** The names are distinct, and no register shares a word with an earlier one that has a name. */
  predicate Passes(regs: seq<Register>) {
    && DistinctNames(regs)
    && forall i, j {:trigger NoClash(regs[i], regs[j])} :: 0 <= i < j < |regs| ==> NoClash(regs[i], regs[j])
  }

  /** Registers that pass clash with the next one exactly if it finds a word claimed. */
  lemma ClaimStep(regs: seq<Register>, r: Register, owner: map<int, string>)
    requires Owned(regs, owner) && Passes(regs) && forall k :: 0 <= k < |regs| ==> regs[k].name != r.name
    ensures Unclaimed(owner, r) <==> forall k :: 0 <= k < |regs| ==> NoClash(regs[k], r)
  {
    forall k | 0 <= k < |regs| && !NoClash(regs[k], r)
      ensures !Unclaimed(owner, r)
    {
      var w := if regs[k].addr > r.addr then regs[k].addr else r.addr;
      assert Holds(regs[k], w) && Holds(r, w) && w in owner;
      var m :| LastHolder(regs, w, m) && regs[m].name == owner[w];
      assert m == k || NoClash(regs[k], regs[m]);
    }
    if !Unclaimed(owner, r) {
      var w :| w in owner && r.addr <= w < End(r) && owner[w] != "" && owner[w] != r.name;
      var m :| LastHolder(regs, w, m) && regs[m].name == owner[w];
      assert !NoClash(regs[m], r);
    }
  }

  lemma OwnedStep(regs: seq<Register>, r: Register, owner: map<int, string>)
    requires Owned(regs, owner)
    ensures Owned(regs + [r], Claim(owner, r))
  {
    var all, owner' := regs + [r], Claim(owner, r);
    assert all[|regs|] == r;
    forall w | w in owner' ensures exists m :: LastHolder(all, w, m) && all[m].name == owner'[w] {
      if Holds(r, w) {
        assert LastHolder(all, w, |regs|);
      } else {
        var m :| LastHolder(regs, w, m) && regs[m].name == owner[w];
        forall k | m < k < |all| ensures !Holds(all[k], w) { if k < |regs| { assert all[k] == regs[k]; } }
        assert LastHolder(all, w, m);
      }
    }
    forall k, w | 0 <= k < |all| && Holds(all[k], w) ensures w in owner' {
      if k < |regs| { assert all[k] == regs[k]; }
    }
  }

  /** The part of the map validation that batching relies on, exactly: a map passes if and only if
      its names are distinct and no register shares a word with an earlier one that has a name. */
  method ValidateRegisters(regs: seq<Register>) returns (complaints: seq<Complaint>)
    ensures complaints == [] <==> Passes(regs)
  {
    complaints := [];
    var names: set<string> := {};
    var owner: map<int, string> := map[];
    ghost var seen: seq<Register> := [];
    var i := 0;
    while i < |regs|
      invariant 0 <= i <= |regs| && seen == regs[..i]
      invariant Books(seen, names, owner, complaints == [])
    {
      var r := regs[i];
      assert regs[..i + 1] == seen + [r];
      ghost var clean := complaints == [];
      if r.name in names {
        complaints := complaints + [DuplicateName(r.name)];
      }
      var more, owner' := ClaimWords(r, owner);
      BooksStep(seen, r, names, owner, clean, complaints == [] && more == []);
      names := names + {r.name};
      complaints, owner := complaints + more, owner';
      seen := seen + [r];
      i := i + 1;
    }
    assert regs[..i] == regs && seen == regs;
  }

  /** The names and word owners noted for the registers seen so far, and the verdict on them. */
  ghost predicate Books(seen: seq<Register>, names: set<string>, owner: map<int, string>, clean: bool) {
    NamesOf(seen, names) && Owned(seen, owner) && (clean <==> Passes(seen))
  }

  lemma BooksStep(
      seen: seq<Register>, r: Register, names: set<string>, owner: map<int, string>, clean: bool, clean': bool)
    requires Books(seen, names, owner, clean)
    requires clean' <==> clean && r.name !in names && Unclaimed(owner, r)
    ensures Books(seen + [r], names + {r.name}, Claim(owner, r), clean')
  {
    NamesStep(seen, r, names);
    OwnedStep(seen, r, owner);
    VerdictStep(seen, r, names, owner);
  }

  ghost predicate NamesOf(regs: seq<Register>, names: set<string>) {
    && (forall k :: 0 <= k < |regs| ==> regs[k].name in names)
    && (forall n :: n in names ==> exists k :: 0 <= k < |regs| && regs[k].name == n)
  }

  lemma NamesStep(regs: seq<Register>, r: Register, names: set<string>)
    requires NamesOf(regs, names)
    ensures NamesOf(regs + [r], names + {r.name})
    ensures r.name in names <==> exists k :: 0 <= k < |regs| && regs[k].name == r.name
  {
    var all := regs + [r];
    assert all[|regs|] == r && forall k :: 0 <= k < |regs| ==> all[k] == regs[k];
    forall n | n in names + {r.name} ensures exists k :: 0 <= k < |all| && all[k].name == n {
      if n != r.name {
        var k :| 0 <= k < |regs| && regs[k].name == n;
        assert all[k].name == n;
      }
    }
  }

  /** The map with one more register passes exactly if the map did, the name is new and no word is
      claimed. */
  lemma VerdictStep(regs: seq<Register>, r: Register, names: set<string>, owner: map<int, string>)
    requires NamesOf(regs, names) && Owned(regs, owner)
    ensures Passes(regs + [r]) <==> Passes(regs) && r.name !in names && Unclaimed(owner, r)
  {
    NamesStep(regs, r, names);
    ExtendMap(regs, r);
    if Passes(regs) && r.name !in names {
      ClaimStep(regs, r, owner);
    }
  }

  lemma ExtendMap(regs: seq<Register>, r: Register)
    ensures Passes(regs + [r])
            <==> && Passes(regs) && (forall k :: 0 <= k < |regs| ==> regs[k].name != r.name)
                 && forall k :: 0 <= k < |regs| ==> NoClash(regs[k], r)
  {
    var all := regs + [r];
    assert all[|regs|] == r && forall k :: 0 <= k < |regs| ==> all[k] == regs[k];
    if Passes(all) {
      forall k | 0 <= k < |regs| ensures NoClash(regs[k], r) { assert NoClash(all[k], all[|regs|]); }
      forall k | 0 <= k < |regs| ensures regs[k].name != r.name { assert all[k].name != all[|regs|].name; }
      forall a, b | 0 <= a < b < |regs| ensures NoClash(regs[a], regs[b]) { assert NoClash(all[a], all[b]); }
      forall a, b | 0 <= a < b < |regs| ensures regs[a].name != regs[b].name { assert all[a].name != all[b].name; }
    }
  }

  predicate Named(regs: seq<Register>) {
    forall k :: 0 <= k < |regs| ==> regs[k].name != ""
  }

  /** Where every register has a name, passing means what it should: distinct names and no shared
      word. */
  lemma NamedMapsPassExactly(regs: seq<Register>)
    requires Named(regs)
    ensures Passes(regs) <==> DistinctNames(regs) && NonOverlapping(regs)
  {
    if Passes(regs) {
      forall i, j | 0 <= i < j < |regs| ensures Disjoint(regs[i], regs[j]) { assert NoClash(regs[i], regs[j]); }
    }
    if DistinctNames(regs) && NonOverlapping(regs) {
      forall i, j | 0 <= i < j < |regs| ensures NoClash(regs[i], regs[j]) { assert Disjoint(regs[i], regs[j]); }
    }
  }

  /** Otherwise not: two registers on the same word pass, the first one without a name. */
  lemma UnnamedOverlapPasses()
    ensures var regs := [Register("", 0, U16, Prime, 1.0), Register("rpm", 0, U16, Prime, 1.0)];
            Passes(regs) && !NonOverlapping(regs)
  {
    var regs := [Register("", 0, U16, Prime, 1.0), Register("rpm", 0, U16, Prime, 1.0)];
    assert !Disjoint(regs[0], regs[1]);
    assert NoClash(regs[0], regs[1]) && regs[0].name != regs[1].name;
  }
}
