/**
 The token-bucket limiter of GenWatch (services/ratelimit.py). One float and one time per key
 stand for the whole history of that key; the theorem says which history property they
 decide, exactly.
 */
module RateLimit {
  import opened Prelude

  datatype Bucket = Bucket(tokens: real, last: real)

  /** The rates of one limiter. */
  datatype Rates = Rates(capacity: real, refill: real)

  /** What the refill rate brings in over a stretch of time. */
  function Earned(rates: Rates, seconds: real): real { rates.refill * seconds }

  function Min(a: real, b: real): real { if a < b then a else b }

  /** What one check makes of a bucket, and whether it is admitted. */
  function Check(rates: Rates, b: Option<Bucket>, now: real): (bool, Bucket) {
    if b.None? then (true, Bucket(rates.capacity - 1.0, now))
    else
      var level := Min(rates.capacity, b.value.tokens + Earned(rates, now - b.value.last));
      if level >= 1.0 then (true, Bucket(level - 1.0, now)) else (false, Bucket(level, now))
  }

  /** One check of a key since its last reset: when it came, and whether it was admitted. */
  datatype Entry = Entry(at: real, admitted: bool)

  /** The bucket that a sequence of checks leaves. */
  function BucketAfter(rates: Rates, h: seq<Entry>): Option<Bucket> {
    if h == [] then None
    else
      var n := |h| - 1;
      Some(Check(rates, BucketAfter(rates, h[..n]), h[n].at).1)
  }

  /** The answers recorded in a history are the ones the limiter gives. */
  predicate Honest(rates: Rates, h: seq<Entry>) {
    h == [] ||
    var n := |h| - 1;
    Honest(rates, h[..n]) && h[n].admitted == Check(rates, BucketAfter(rates, h[..n]), h[n].at).0
  }

  /** How many checks of the history from index `j` on were admitted. */
  function Admitted(h: seq<Entry>, j: nat): nat
    requires j <= |h|
    decreases |h|
  {
    if j == |h| then 0
    else
      var n := |h| - 1;
      Admitted(h[..n], j) + if h[n].admitted then 1 else 0
  }

  /** What the window that starts at check `j` still allows at time `t`. */
  function Allowance(rates: Rates, h: seq<Entry>, j: nat, t: real): real
    requires j < |h|
  {
    rates.capacity + Earned(rates, t - h[j].at) - Admitted(h, j) as real
  }

  /** Admitting a check at `t` would put more than `capacity + refill * (t - s)` admissions into
      the window from some earlier check, at `s`, until `t`. */
  ghost predicate Overfills(rates: Rates, h: seq<Entry>, t: real) {
    exists j: nat :: j < |h| && Allowance(rates, h, j, t) < 1.0
  }

  /** The level of the bucket at `t` is the least allowance over all windows, capped by the
      capacity: a lower bound of them all that one of them attains. */
  ghost predicate IsLeastAllowance(rates: Rates, h: seq<Entry>, t: real, level: real) {
    && level <= rates.capacity
    && (forall j: nat :: j < |h| ==> level <= Allowance(rates, h, j, t))
    && (level == rates.capacity || exists j: nat :: j < |h| && level == Allowance(rates, h, j, t))
  }

  function Level(rates: Rates, b: Bucket, t: real): real {
    Min(rates.capacity, b.tokens + Earned(rates, t - b.last))
  }

  lemma EarnedAdds(rates: Rates, a: real, b: real)
    ensures Earned(rates, a + b) == Earned(rates, a) + Earned(rates, b)
  {
  }

  lemma AllowanceStep(rates: Rates, h: seq<Entry>, e: Entry, j: nat, t: real)
    requires j < |h|
    ensures Allowance(rates, h + [e], j, t)
            == Allowance(rates, h, j, e.at) + Earned(rates, t - e.at) - (if e.admitted then 1.0 else 0.0)
  {
    var all := h + [e];
    assert all[..|h|] == h && all[|h|] == e && all[j] == h[j];
    EarnedAdds(rates, e.at - h[j].at, t - e.at);
    assert (e.at - h[j].at) + (t - e.at) == t - h[j].at;
  }

  /** The window that consists of the last check alone. */
  lemma LastAllowance(rates: Rates, h: seq<Entry>, e: Entry, t: real)
    ensures Allowance(rates, h + [e], |h|, t)
            == rates.capacity + Earned(rates, t - e.at) - (if e.admitted then 1.0 else 0.0)
  {
    var all := h + [e];
    assert all[..|h|] == h && all[|h|] == e;
    assert Admitted(h, |h|) == 0;
  }

  /** A check of an existing bucket, in terms of its level at that moment. */
  lemma SpendOne(rates: Rates, b0: Bucket, at: real, t: real)
    ensures var (admitted, b) := Check(rates, Some(b0), at);
            && b.last == at
            && Level(rates, b, t)
               == Min(rates.capacity, Level(rates, b0, at) - (if admitted then 1.0 else 0.0) + Earned(rates, t - at))
  {
  }

  /** The bucket, brought up to date, holds the least allowance. */
  lemma {:induction false} LevelIsLeastAllowance(rates: Rates, h: seq<Entry>, t: real)
    requires Honest(rates, h) && h != []
    ensures BucketAfter(rates, h).value.last == h[|h| - 1].at
    ensures IsLeastAllowance(rates, h, t, Level(rates, BucketAfter(rates, h).value, t))
    decreases |h|
  {
    var n := |h| - 1;
    var e := h[n];
    var before := h[..n];
    assert h == before + [e];
    if before == [] {
      FirstCheck(rates, h, t);
    } else {
      LevelIsLeastAllowance(rates, before, e.at);
      var b0 := BucketAfter(rates, before).value;
      SpendOne(rates, b0, e.at, t);
      LaterCheck(rates, before, e, t, Level(rates, b0, e.at));
    }
  }

  lemma LaterCheck(rates: Rates, before: seq<Entry>, e: Entry, t: real, level0: real)
    requires before != [] && IsLeastAllowance(rates, before, e.at, level0)
    ensures IsLeastAllowance(rates, before + [e], t,
              Min(rates.capacity, level0 - (if e.admitted then 1.0 else 0.0) + Earned(rates, t - e.at)))
  {
    var h := before + [e];
    assert h[..|before|] == before;
    LastAllowance(rates, before, e, t);
    forall j: nat | j < |before|
      ensures Allowance(rates, h, j, t)
              == Allowance(rates, before, j, e.at) + Earned(rates, t - e.at) - (if e.admitted then 1.0 else 0.0)
    {
      AllowanceStep(rates, before, e, j, t);
    }
    LeastAllowanceStep(rates, h, t, level0, Earned(rates, t - e.at), if e.admitted then 1.0 else 0.0);
  }

  lemma FirstCheck(rates: Rates, h: seq<Entry>, t: real)
    requires |h| == 1 && h[0].admitted
    ensures BucketAfter(rates, h) == Some(Bucket(rates.capacity - 1.0, h[0].at))
    ensures IsLeastAllowance(rates, h, t, Level(rates, BucketAfter(rates, h).value, t))
  {
    assert h == [] + [h[0]];
    LastAllowance(rates, [], h[0], t);
  }

  /** Taking the least allowance forward by one check and some time. */
  lemma LeastAllowanceStep(rates: Rates, h: seq<Entry>, t: real, level0: real, gained: real, spent: real)
    requires |h| > 1
    requires var n := |h| - 1;
             && IsLeastAllowance(rates, h[..n], h[n].at, level0)
             && Allowance(rates, h, n, t) == rates.capacity + gained - spent
             && forall j: nat :: j < n ==>
                  Allowance(rates, h, j, t) == Allowance(rates, h[..n], j, h[n].at) + gained - spent
    ensures IsLeastAllowance(rates, h, t, Min(rates.capacity, level0 - spent + gained))
  {
    var n := |h| - 1;
    var level := Min(rates.capacity, level0 - spent + gained);
    forall j: nat | j < |h| ensures level <= Allowance(rates, h, j, t) {
      if j < n { assert level0 <= Allowance(rates, h[..n], j, h[n].at); }
    }
    if level != rates.capacity {
      if level0 == rates.capacity {
        assert level == Allowance(rates, h, n, t);
      } else {
        var j: nat :| j < n && level0 == Allowance(rates, h[..n], j, h[n].at);
        assert level == Allowance(rates, h, j, t);
      }
    }
  }

  /** The exact meaning of a refusal. After the first check of a key since its reset, which is
      always admitted, a check is refused if and only if the capacity is below one token or
      admitting it would overfill a window that starts at an earlier check. */
  lemma {:induction false} RefusedExactlyWhenOverfull(rates: Rates, h: seq<Entry>, t: real)
    requires Honest(rates, h)
    ensures var refused := !Check(rates, BucketAfter(rates, h), t).0;
            && (h == [] ==> !refused)
            && (h != [] ==> (refused <==> rates.capacity < 1.0 || Overfills(rates, h, t)))
  {
    if h != [] {
      LevelIsLeastAllowance(rates, h, t);
    }
  }

  /** Checks come in the order of their times. */
  predicate Ordered(h: seq<Entry>) {
    var n := |h| - 1;
    n <= 0 || (Ordered(h[..n]) && h[n - 1].at <= h[n].at)
  }

  /** Consequently no window ever holds more admissions than its bound: with a capacity of at
      least one token and a refill rate that is not negative, from any check `j` to the last
      check of the history, at most `capacity + refill * duration` were admitted. */
  lemma {:induction false} NoWindowOverfull(rates: Rates, h: seq<Entry>, j: nat)
    requires Honest(rates, h) && j < |h| && Ordered(h)
    requires rates.capacity >= 1.0 && rates.refill >= 0.0
    ensures Allowance(rates, h, j, h[|h| - 1].at) >= 0.0
    decreases |h|
  {
    var n := |h| - 1;
    var e := h[n];
    var before := h[..n];
    assert h == before + [e];
    if j == n {
      LastAllowance(rates, before, e, e.at);
    } else {
      AllowanceStep(rates, before, e, j, e.at);
      assert Earned(rates, e.at - e.at) == 0.0;
      if e.admitted {
        RefusedExactlyWhenOverfull(rates, before, e.at);
      } else {
        NoWindowOverfull(rates, before, j);
        AllowanceGrows(rates, before, j, before[n - 1].at, e.at);
      }
    }
  }

  lemma AllowanceGrows(rates: Rates, h: seq<Entry>, j: nat, t: real, later: real)
    requires j < |h| && t <= later && rates.refill >= 0.0
    ensures Allowance(rates, h, j, t) <= Allowance(rates, h, j, later)
  {
    EarnedMonotone(rates, t - h[j].at, later - h[j].at);
  }

  lemma MulMonotone(k: real, a: real, b: real)
    requires k >= 0.0 && a <= b
    ensures k * a <= k * b
  {
    assert k * b - k * a == k * (b - a);
  }

  class RateLimiter {
    const rates: Rates
    var buckets: map<string, Bucket>

    constructor (capacity: real, refill: real)
      ensures rates == Rates(capacity, refill) && buckets == map[]
    {
      rates, buckets := Rates(capacity, refill), map[];
    }

    ghost function BucketOf(key: string): Option<Bucket>
      reads this
    {
      if key in buckets then Some(buckets[key]) else None
    }

    /** Checks one key; the buckets of all others stay what they were. */
    method CheckKey(key: string, now: real) returns (admitted: bool)
      modifies this
      ensures admitted == Check(rates, old(BucketOf(key)), now).0
      ensures buckets == old(buckets)[key := Check(rates, old(BucketOf(key)), now).1]
      ensures forall other :: other != key ==> BucketOf(other) == old(BucketOf(other))
    {
      if key !in buckets {
        buckets := buckets[key := Bucket(rates.capacity - 1.0, now)];
        return true;
      }
      var b := buckets[key];
      var tokens := Min(rates.capacity, b.tokens + Earned(rates, now - b.last));
      if tokens >= 1.0 {
        buckets := buckets[key := Bucket(tokens - 1.0, now)];
        return true;
      }
      buckets := buckets[key := Bucket(tokens, now)];
      return false;
    }

    method Reset(key: string)
      modifies this
      ensures buckets == old(buckets) - {key}
      ensures BucketOf(key) == None && forall other :: other != key ==> BucketOf(other) == old(BucketOf(other))
    {
      buckets := buckets - {key};
    }

    method RetryAfter(key: string) returns (seconds: int)
      ensures seconds == RetryAfterSeconds(rates, BucketOf(key))
    {
      if key !in buckets || buckets[key].tokens >= 1.0 {
        return 0;
      }
      var needed := 1.0 - buckets[key].tokens;
      var wait := (needed / (if rates.refill > LEAST_REFILL then rates.refill else LEAST_REFILL)).Floor;
      return if wait > 1 then wait else 1;
    }
  }

  // ----------------------------------------------------------- any interleaving of many keys

  datatype Event = CheckEvent(key: string, at: real) | ResetEvent(key: string)

  function Apply(rates: Rates, buckets: map<string, Bucket>, e: Event): map<string, Bucket> {
    match e
    case CheckEvent(key, at) => buckets[key := Check(rates, if key in buckets then Some(buckets[key]) else None, at).1]
    case ResetEvent(key) => buckets - {key}
  }

  function Run(rates: Rates, events: seq<Event>): map<string, Bucket> {
    if events == [] then map[]
    else Apply(rates, Run(rates, events[..|events| - 1]), events[|events| - 1])
  }

  /** The history of one key since its last reset, with the answers the limiter gave. */
  function HistoryOf(rates: Rates, events: seq<Event>, key: string): seq<Entry> {
    if events == [] then []
    else
      var n := |events| - 1;
      var before := HistoryOf(rates, events[..n], key);
      match events[n]
      case ResetEvent(k) => if k == key then [] else before
      case CheckEvent(k, at) =>
        if k != key then before
        else
          var buckets := Run(rates, events[..n]);
          before + [Entry(at, Check(rates, if key in buckets then Some(buckets[key]) else None, at).0)]
  }

  /** Keys do not affect one another: however the checks and resets of many keys interleave,
      the bucket of a key is the one that its own checks since its own last reset produce. */
  lemma {:induction false} KeysAreIndependent(rates: Rates, events: seq<Event>, key: string)
    ensures var buckets := Run(rates, events);
            var h := HistoryOf(rates, events, key);
            Honest(rates, h) && BucketAfter(rates, h) == if key in buckets then Some(buckets[key]) else None
    decreases |events|
  {
    if events != [] {
      var n := |events| - 1;
      KeysAreIndependent(rates, events[..n], key);
      var before := HistoryOf(rates, events[..n], key);
      match events[n]
      case ResetEvent(_) =>
      case CheckEvent(k, at) =>
        if k == key {
          var h := HistoryOf(rates, events, key);
          assert h[..|h| - 1] == before;
        }
    }
  }

  // ------------------------------------------------------------------------- the retry advice

  const LEAST_REFILL := 0.000000001

  /** The rate that the advice reckons with. */
  function Reckoned(rates: Rates): real {
    if rates.refill > LEAST_REFILL then rates.refill else LEAST_REFILL
  }

  function RetryAfterSeconds(rates: Rates, b: Option<Bucket>): int {
    if b.None? || b.value.tokens >= 1.0 then 0
    else
      var wait := ((1.0 - b.value.tokens) / Reckoned(rates)).Floor;
      if wait > 1 then wait else 1
  }

  /** Whether the missing part of a token refills within a second, or at a rate that the advice does
      not raise, in a whole number of seconds. */
  predicate AdviceFits(rates: Rates, missing: real) {
    missing <= rates.refill
    || (rates.refill >= 0.000000001 && missing / rates.refill == (missing / rates.refill).Floor as real)
  }

  /** The advice is meant as the time after which a check succeeds again. It is rounded down, so
      following it works exactly when the limiter can hold a whole token at all and the missing
      part of one refills within a second or in a whole number of seconds; otherwise the check that
      comes that many seconds after the refusal is refused again. At a refill below a billionth of a
      token a second the whole number of seconds does not help either. */
  lemma RetryAdviceWorksExactlyWhen(rates: Rates, b: Bucket)
    requires b.tokens < 1.0
    ensures var wait := RetryAfterSeconds(rates, Some(b));
            Check(rates, Some(b), b.last + wait as real).0
            <==> rates.capacity >= 1.0 && AdviceFits(rates, 1.0 - b.tokens)
  {
    var missing := 1.0 - b.tokens;
    var wait := RetryAfterSeconds(rates, Some(b));
    var later := b.last + wait as real;
    assert later - b.last == wait as real;
    assert Check(rates, Some(b), later).0
           <==> rates.capacity >= 1.0 && b.tokens + Earned(rates, wait as real) >= 1.0;
    if rates.refill >= LEAST_REFILL {
      EarnedBack(rates, missing);
      QuickRefill(rates, missing, wait);
    } else {
      SlowRefill(rates, missing, wait);
    }
  }

  /** At the rate that the advice reckons with. */
  lemma QuickRefill(rates: Rates, missing: real, wait: int)
    requires rates.refill >= LEAST_REFILL && missing > 0.0 && Earned(rates, missing / rates.refill) == missing
    requires var w := (missing / rates.refill).Floor; wait == if w > 1 then w else 1
    ensures Earned(rates, wait as real) >= missing <==> AdviceFits(rates, missing)
  {
    var needed := missing / rates.refill;
    if wait as real >= needed {
      EarnedMonotone(rates, needed, wait as real);
    } else {
      EarnedLess(rates, wait as real, needed);
    }
    if missing <= rates.refill {
      EarnedMonotone(rates, 1.0, wait as real);
    } else if needed <= 1.0 {
      EarnedMonotone(rates, needed, 1.0);
    }
  }

  /** Below it. */
  lemma SlowRefill(rates: Rates, missing: real, wait: int)
    requires rates.refill < LEAST_REFILL && missing > 0.0
    requires var w := (missing / LEAST_REFILL).Floor; wait == if w > 1 then w else 1
    ensures Earned(rates, wait as real) >= missing <==> missing <= rates.refill
  {
    var most := Rates(rates.capacity, LEAST_REFILL);
    assert Earned(rates, 1.0) == rates.refill;
    if wait > 1 {
      EarnedBack(most, missing);
      EarnedMonotone(most, wait as real, missing / LEAST_REFILL);
      EarnedAtLess(rates, most, wait as real);
    }
  }

  lemma EarnedAtLess(a: Rates, b: Rates, t: real)
    requires a.refill < b.refill && t > 0.0
    ensures Earned(a, t) < Earned(b, t)
  {
    assert Earned(b, t) - Earned(a, t) == (b.refill - a.refill) * t;
  }

  lemma EarnedBack(rates: Rates, x: real)
    requires rates.refill > 0.0
    ensures Earned(rates, x / rates.refill) == x
  {
  }

  lemma EarnedMonotone(rates: Rates, a: real, b: real)
    requires rates.refill >= 0.0 && a <= b
    ensures Earned(rates, a) <= Earned(rates, b)
  {
    MulMonotone(rates.refill, a, b);
  }

  lemma EarnedLess(rates: Rates, a: real, b: real)
    requires rates.refill > 0.0 && a < b
    ensures Earned(rates, a) < Earned(rates, b)
  {
    assert Earned(rates, b) - Earned(rates, a) == rates.refill * (b - a);
  }
}
