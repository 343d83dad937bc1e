/**
 The comms-health classifier of GenWatch (modbus/poller.py): counters and two bounded windows
 that stand for the whole history of samples and outages, refined against that history.
 */
module LinkHealth {
  import opened Prelude

  const WINDOW := 60
  const EPISODES := 32
  const HEALTHY_RECOVERY_STREAK := 5
  const FLAP_WINDOW_S := 120.0
  const FLAP_MAX_EPISODES := 2

  datatype Link = Healthy | Degraded | Lost

  function LastN<T>(s: seq<T>, n: nat): (r: seq<T>)
    ensures |r| == if |s| < n then |s| else n
  {
    if |s| <= n then s else s[|s| - n..]
  }

  function Successes(s: seq<bool>): (n: nat)
    ensures n <= |s|
  {
    if s == [] then 0 else Successes(s[..|s| - 1]) + if s[|s| - 1] then 1 else 0
  }

  lemma {:induction false} SuccessesAreMultiplicity(s: seq<bool>)
    ensures Successes(s) == multiset(s)[true]
  {
    if s != [] {
      var n := |s| - 1;
      SuccessesAreMultiplicity(s[..n]);
      assert s == s[..n] + [s[n]];
    }
  }

  /** How many of the outages began at most `FLAP_WINDOW_S` before `now`. */
  function Recent(times: seq<real>, now: real): nat {
    if times == [] then 0
    else Recent(times[..|times| - 1], now) + if now - times[|times| - 1] <= FLAP_WINDOW_S then 1 else 0
  }

  /** The product of a percentage in tenths and a number of samples. */
  function Scaled(tenths: int, n: int): int {
    tenths * n
  }

  /** `tenths` is the success rate of `k` in `n`, in percent, rounded to the nearest tenth; a tie
      may go either way. */
  predicate NearestTenth(tenths: int, k: nat, n: nat) {
    2000 * k - n <= 2 * Scaled(tenths, n) <= 2000 * k + n
  }

  method Rounded(k: nat, n: nat) returns (tenths: int)
    requires n > 0
    ensures NearestTenth(tenths, k, n)
  {
    tenths := (2000 * k + n) / (2 * n);
  }

  /** The classification from its four inputs. */
  function Verdict(failures: nat, successes: nat, flapping: bool, below: bool): Link {
    if failures >= 3 then Lost
    else if successes >= HEALTHY_RECOVERY_STREAK && !flapping then Healthy
    else if below || failures >= 1 then Degraded
    else Healthy
  }

  // ------------------------------------------------------------------------- the whole history

  /** What happens to a link: a sample, or the poll watchdog declaring it lost. */
  datatype Event = Sample(ok: bool, at: real) | Silence(at: real)

  /** Everything there is to know about a link, with no bound on anything. */
  datatype History = History(samples: seq<bool>, outages: seq<real>, failures: nat, successes: nat, link: Link)

  const NEW := History([], [], 0, 0, Healthy)

  /** The last (up to) 60 samples. */
  function Window(samples: seq<bool>): seq<bool> {
    if |samples| <= 60 then samples else samples[|samples| - 60..]
  }

  /** The exact test: fewer than 19 in 20 of the last (up to) 60 samples succeeded. */
  predicate Below95(samples: seq<bool>) {
    20 * multiset(Window(samples))[true] < 19 * |Window(samples)|
  }

  predicate Flapping(outages: seq<real>, now: real) {
    Recent(outages, now) >= FLAP_MAX_EPISODES
  }

  function Extend(h: History, e: Event): History {
    match e
    case Sample(ok, at) =>
      var samples := h.samples + [ok];
      var failures := if ok then 0 else h.failures + 1;
      var successes := if ok then h.successes + 1 else 0;
      var link := Verdict(failures, successes, Flapping(h.outages, at), Below95(samples));
      History(samples, if link.Lost? && !h.link.Lost? then h.outages + [at] else h.outages, failures, successes, link)
    case Silence(at) =>
      if h.link.Lost? then h
      else h.(successes := 0, failures := if h.failures < 3 then 3 else h.failures, link := Lost,
              outages := h.outages + [at])
  }

  function HistoryOf(events: seq<Event>): History {
    if events == [] then NEW else Extend(HistoryOf(events[..|events| - 1]), events[|events| - 1])
  }

  // ------------------------------------------------------------------------ the bounded object

  class CommsHealth {
    var results: seq<bool>              // at most 60
    var lostEpisodes: seq<real>         // at most 32
    var failures: nat
    var successes: nat
    var successPct: int                 // in tenths of a percent
    var link: Link

    /** The object remembers of the history what its bounds allow. */
    ghost predicate Remembers(h: History)
      reads this
    {
      && results == LastN(h.samples, WINDOW) && lostEpisodes == LastN(h.outages, EPISODES)
      && failures == h.failures && successes == h.successes && link == h.link
      && (results != [] ==> NearestTenth(successPct, multiset(results)[true], |results|))
    }

    constructor ()
      ensures Remembers(NEW)
    {
      results, lostEpisodes, failures, successes, successPct, link := [], [], 0, 0, 1000, Healthy;
    }

    method Classify(now: real, ghost samples: seq<bool>, ghost outages: seq<real>) returns (verdict: Link)
      requires results != [] && results == LastN(samples, WINDOW) && lostEpisodes == LastN(outages, EPISODES)
      requires NearestTenth(successPct, multiset(results)[true], |results|) && UpTo(outages, now)
      ensures verdict == Verdict(failures, successes, Flapping(outages, now), Below95(samples))
    {
      RoundedTestIsExact(successPct, multiset(results)[true], |results|);
      WindowSeesFlapping(outages, now);
      if failures >= 3 {
        return Lost;
      }
      if successes >= HEALTHY_RECOVERY_STREAK {
        var recent, i := 0, 0;
        while i < |lostEpisodes|
          invariant 0 <= i <= |lostEpisodes| && recent == Recent(lostEpisodes[..i], now)
        {
          assert lostEpisodes[..i + 1][..i] == lostEpisodes[..i];
          if now - lostEpisodes[i] <= FLAP_WINDOW_S {
            recent := recent + 1;
          }
          i := i + 1;
        }
        assert lostEpisodes[..i] == lostEpisodes;
        if recent < FLAP_MAX_EPISODES {
          return Healthy;
        }
      }
      if successPct < 950 || failures >= 1 {
        return Degraded;
      }
      return Healthy;
    }

    /** The counters and the window after one more sample. */
    method Count(ok: bool, ghost samples: seq<bool>)
      requires results == LastN(samples, WINDOW)
      modifies this`results, this`failures, this`successes, this`successPct
      ensures results == LastN(samples + [ok], WINDOW) && results != []
      ensures NearestTenth(successPct, multiset(results)[true], |results|)
      ensures failures == (if ok then 0 else old(failures) + 1) && successes == (if ok then old(successes) + 1 else 0)
    {
      results := LastN(results + [ok], WINDOW);
      LastNAppend(samples, ok, WINDOW);
      if ok {
        failures, successes := 0, successes + 1;
      } else {
        failures, successes := failures + 1, 0;
      }
      SuccessesAreMultiplicity(results);
      successPct := Rounded(Successes(results), |results|);
    }

    /** Records one sample: the verdict from the bounded windows and the rounded percentage is the
        verdict from the unbounded history and the exact test. */
    method Record(ok: bool, now: real, ghost h: History)
      requires Remembers(h) && UpTo(h.outages, now)
      modifies this
      ensures Remembers(Extend(h, Sample(ok, now)))
    {
      Count(ok, h.samples);
      var verdict := Classify(now, h.samples + [ok], h.outages);
      assert verdict == Extend(h, Sample(ok, now)).link;
      Transition(verdict, now, h.outages);
    }

    /** Takes on a verdict; one that loses the link is an outage. */
    method Transition(verdict: Link, now: real, ghost outages: seq<real>)
      requires lostEpisodes == LastN(outages, EPISODES)
      modifies this`link, this`lostEpisodes
      ensures link == verdict
      ensures lostEpisodes == LastN(if verdict.Lost? && !old(link).Lost? then outages + [now] else outages, EPISODES)
    {
      if verdict != link {
        if verdict.Lost? {
          lostEpisodes := LastN(lostEpisodes + [now], EPISODES);
          LastNAppend(outages, now, EPISODES);
        }
        link := verdict;
      }
    }

    /** The next event of a history. */
    method Take(e: Event, ghost h: History)
      requires Remembers(h) && UpTo(h.outages, e.at)
      modifies this
      ensures Remembers(Extend(h, e))
    {
      match e {
        case Sample(ok, at) => Record(ok, at, h);
        case Silence(at) => CheckSilence(Some(at - 1.0), 0, at, h);
      }
    }

    /** The poll watchdog's check: silence longer than three prime cadences is an outage. */
    method CheckSilence(lastGood: Option<real>, primePollMs: int, now: real, ghost h: History)
      requires Remembers(h)
      modifies this
      ensures Remembers(if lastGood.Some? && now - lastGood.value > 3.0 * primePollMs as real / 1000.0
                        then Extend(h, Silence(now)) else h)
    {
      var threshold := (primePollMs * 3) as real / 1000.0;
      if lastGood.None? {
        return;
      }
      if now - lastGood.value > threshold && !link.Lost? {
        successes := 0;
        failures := if failures < 3 then 3 else failures;
        link := Lost;
        lostEpisodes := LastN(lostEpisodes + [now], EPISODES);
        LastNAppend(h.outages, now, EPISODES);
      }
    }
  }

  /** Times in order, none later than `now`. */
  predicate UpTo(times: seq<real>, now: real) {
    var n := |times| - 1;
    times == [] || (UpTo(times[..n], times[n]) && times[n] <= now)
  }

  lemma {:induction false} NoneLater(times: seq<real>, now: real)
    requires UpTo(times, now)
    ensures forall i :: 0 <= i < |times| ==> times[i] <= now
  {
    if times != [] {
      NoneLater(times[..|times| - 1], times[|times| - 1]);
    }
  }

  lemma LastNAppend<T>(s: seq<T>, x: T, n: nat)
    requires n > 0
    ensures LastN(LastN(s, n) + [x], n) == LastN(s + [x], n)
  {
  }

  /** Rounding the percentage to a tenth never moves it across the 95 % line: for windows of at
      most 60 samples, and whichever way ties go, the rounded test is the exact one. */
  lemma {:induction false} RoundedTestIsExact(tenths: int, k: nat, n: nat)
    requires 0 < n <= 60 && NearestTenth(tenths, k, n)
    ensures tenths < 950 <==> 20 * k < 19 * n
  {
    if tenths < 950 {
      ScaledGrows(tenths, 949, n);
    } else {
      ScaledGrows(950, tenths, n);
    }
  }

  lemma ScaledGrows(a: int, b: int, n: nat)
    requires a <= b
    ensures Scaled(a, n) <= Scaled(b, n)
  {
    assert Scaled(b, n) - Scaled(a, n) == Scaled(b - a, n);
  }

  lemma {:induction false} RecentNone(times: seq<real>, now: real)
    requires forall i :: 0 <= i < |times| ==> now - times[i] > FLAP_WINDOW_S
    ensures Recent(times, now) == 0
  {
    if times != [] {
      RecentNone(times[..|times| - 1], now);
    }
  }

  /** The last two times are the latest ones. */
  predicate LastTwoLatest(times: seq<real>)
    requires |times| >= 2
  {
    times[|times| - 2] <= times[|times| - 1] 
    && forall i :: 0 <= i < |times| - 1 ==> times[i] <= times[|times| - 2]
  }

  lemma {:induction false} InOrderLatest(times: seq<real>, now: real)
    requires UpTo(times, now) && |times| >= 2
    ensures LastTwoLatest(times)
  {
    var n := |times|;
    var front := times[..n - 1];
    assert UpTo(front[..n - 2], front[n - 2]);
    NoneLater(front[..n - 2], times[n - 2]);
    forall i | 0 <= i < n - 1
      ensures times[i] <= times[n - 2]
    {
      if i < n - 2 { assert front[..n - 2][i] == times[i]; }
    }
  }

  /** Whether at least two are recent shows in the last two. */
  lemma RecentTwo(times: seq<real>, now: real)
    requires |times| >= 2 && LastTwoLatest(times)
    ensures Recent(times, now) >= 2 <==> now - times[|times| - 2] <= FLAP_WINDOW_S
  {
    var n := |times|;
    var front := times[..n - 1];
    assert front[|front| - 1] == times[n - 2] && front[..|front| - 1] == times[..n - 2];
    if now - times[n - 2] > FLAP_WINDOW_S {
      RecentNone(front, now);
    }
  }

  /** Thirty-two remembered outages tell flapping as well as all of them. */
  lemma WindowSeesFlapping(outages: seq<real>, now: real)
    requires UpTo(outages, now)
    ensures Flapping(LastN(outages, EPISODES), now) <==> Flapping(outages, now)
  {
    if |outages| > EPISODES {
      var w := LastN(outages, EPISODES);
      InOrderLatest(outages, now);
      assert forall i :: 0 <= i < |w| ==> w[i] == outages[|outages| - |w| + i];
      RecentTwo(w, now);
      RecentTwo(outages, now);
    }
  }

  // -------------------------------------------------------------------------- over all histories

  predicate Ordered(events: seq<Event>) {
    var n := |events| - 1;
    n <= 0 || (Ordered(events[..n]) && events[n - 1].at <= events[n].at)
  }

  lemma {:induction false} PrefixOrdered(events: seq<Event>, n: nat)
    requires Ordered(events) && n <= |events|
    ensures Ordered(events[..n])
    decreases |events|
  {
    if n < |events| {
      PrefixOrdered(events[..|events| - 1], n);
      assert events[..|events| - 1][..n] == events[..n];
    } else {
      assert events[..n] == events;
    }
  }

  /** The outages of a history whose clock does not go backwards are in order. */
  lemma {:induction false} OutagesUpTo(events: seq<Event>, now: real)
    requires Ordered(events) && (events != [] ==> events[|events| - 1].at <= now)
    ensures UpTo(HistoryOf(events).outages, now)
    decreases |events|
  {
    if events != [] {
      var n := |events| - 1;
      OutagesUpTo(events[..n], events[n].at);
      var before := HistoryOf(events[..n]).outages;
      assert (before + [events[n].at])[..|before|] == before;
      Later(before, events[n].at, now);
    }
  }

  lemma Later(times: seq<real>, at: real, now: real)
    requires UpTo(times, at) && at <= now
    ensures UpTo(times, now)
  {
  }

  /** `h` is the history of the first `i` events. */
  ghost predicate AfterFirst(events: seq<Event>, i: nat, h: History)
    requires i <= |events|
  {
    h == HistoryOf(events[..i])
  }

  lemma {:induction false} AfterAll(events: seq<Event>, h: History)
    requires AfterFirst(events, |events|, h)
    ensures h == HistoryOf(events)
  {
    assert events[..|events|] == events;
  }

  lemma {:induction false} HistoryStep(events: seq<Event>, i: nat, h: History)
    requires i < |events| && AfterFirst(events, i, h)
    ensures AfterFirst(events, i + 1, Extend(h, events[i]))
  {
    assert events[..i + 1] == events[..i] + [events[i]];
    HistoryAppend(events[..i], events[i]);
  }

  lemma {:induction false} OutagesSoFar(events: seq<Event>, i: nat, h: History)
    requires Ordered(events) && i < |events| && AfterFirst(events, i, h)
    ensures UpTo(h.outages, events[i].at)
  {
    FrontOrdered(events, i);
    OutagesUpTo(events[..i], events[i].at);
  }

  lemma FrontOrdered(events: seq<Event>, i: nat)
    requires Ordered(events) && i < |events|
    ensures Ordered(events[..i]) && (i > 0 ==> events[i - 1].at <= events[i].at)
  {
    PrefixOrdered(events, i + 1);
    assert events[..i + 1] == events[..i] + [events[i]];
    OrderedLast(events[..i], events[i]);
  }

  lemma HistoryAppend(events: seq<Event>, e: Event)
    ensures HistoryOf(events + [e]) == Extend(HistoryOf(events), e)
  {
    assert (events + [e])[..|events|] == events;
  }

  lemma OrderedLast(events: seq<Event>, e: Event)
    requires Ordered(events + [e])
    ensures Ordered(events) && (events != [] ==> events[|events| - 1].at <= e.at)
  {
    assert (events + [e])[..|events|] == events;
  }

  /** Runs the object through a history. At every moment its verdict is the one that the whole,
      unbounded history gives. */
  method Track(events: seq<Event>) returns (health: CommsHealth)
    requires Ordered(events)
    ensures fresh(health) && health.Remembers(HistoryOf(events))
  {
    health := new CommsHealth();
    ghost var h := NEW;
    var i := 0;
    while i < |events|
      invariant 0 <= i <= |events| && AfterFirst(events, i, h)
      invariant fresh(health) && health.Remembers(h)
    {
      OutagesSoFar(events, i, h);
      HistoryStep(events, i, h);
      health.Take(events[i], h);
      h := Extend(h, events[i]);
      i := i + 1;
    }
    AfterAll(events, h);
  }

  // ---------------------------------------------------------------- the verdict, from events alone

  predicate Good(e: Event) { e.Sample? && e.ok }

  /** The samples among the events. */
  function Samples(events: seq<Event>): seq<bool> {
    if events == [] then []
    else
      var n := |events| - 1;
      Samples(events[..n]) + if events[n].Sample? then [events[n].ok] else []
  }

  /** From event `k` on there was no good sample, but a silence or at least three events. */
  predicate SilentFrom(events: seq<Event>, k: nat)
    requires k <= |events|
  {
    && (forall i :: k <= i < |events| ==> !Good(events[i]))
    && (|events| - k >= 3 || exists i :: k <= i < |events| && events[i].Silence?)
  }

  ghost predicate OutOfTouch(events: seq<Event>) {
    exists k: nat :: k <= |events| && SilentFrom(events, k)
  }

  /** Event `i` is where touch was lost. */
  ghost predicate TurnsLost(events: seq<Event>, i: nat)
    requires i < |events|
  {
    OutOfTouch(events[..i + 1]) && !OutOfTouch(events[..i])
  }

  /** The outages that began at most 120 s before `now`. */
  ghost function RecentOutages(events: seq<Event>, now: real): set<nat> {
    set i: nat | i < |events| && TurnsLost(events, i) && now - events[i].at <= 120.0
  }

  /** The last `n` events were good samples. */
  predicate LastGood(events: seq<Event>, n: nat) {
    n <= |events| && forall i :: |events| - n <= i < |events| ==> Good(events[i])
  }

  /** How many events at the end were no good samples. */
  function Tail(events: seq<Event>): (n: nat)
    ensures n <= |events|
  {
    if events == [] || Good(events[|events| - 1]) then 0 else Tail(events[..|events| - 1]) + 1
  }

  lemma {:induction false} TailIsTail(events: seq<Event>)
    ensures forall i :: |events| - Tail(events) <= i < |events| ==> !Good(events[i])
    ensures Tail(events) < |events| ==> Good(events[|events| - Tail(events) - 1])
  {
    if events != [] && !Good(events[|events| - 1]) {
      TailIsTail(events[..|events| - 1]);
    }
  }

  lemma OutOfTouchStep(events: seq<Event>, e: Event)
    ensures OutOfTouch(events + [e])
            <==> !Good(e) && (e.Silence? || OutOfTouch(events) || Tail(events) >= 2)
  {
    var all, n := events + [e], |events|;
    assert all[n] == e && forall i :: 0 <= i < n ==> all[i] == events[i];
    TailIsTail(events);
    if OutOfTouch(all) {
      var k: nat :| k <= |all| && SilentFrom(all, k);
      if !e.Silence? && Tail(events) < 2 {
        assert |events| - k <= Tail(events);
        assert SilentFrom(events, k);
      }
    }
    if !Good(e) {
      if e.Silence? {
        assert SilentFrom(all, n);
      } else if OutOfTouch(events) {
        var k: nat :| k <= n && SilentFrom(events, k);
        assert SilentFrom(all, k);
      } else if Tail(events) >= 2 {
        assert SilentFrom(all, n - Tail(events));
      }
    }
  }

  /** Failures and the loss of the link, from the events. */
  ghost predicate TouchTold(h: History, events: seq<Event>) {
    && (h.link.Lost? <==> OutOfTouch(events)) && (h.failures >= 3 <==> OutOfTouch(events))
    && (!OutOfTouch(events) ==> h.failures == Tail(events))
  }

  /** The run of successes, from the events. */
  predicate StreakTold(h: History, events: seq<Event>) {
    && (h.successes == 0 <==> events == [] || !Good(events[|events| - 1]))
    && LastGood(events, h.successes) && !LastGood(events, h.successes + 1)
  }

  lemma TouchStep(h: History, events: seq<Event>, e: Event)
    requires TouchTold(h, events)
    ensures TouchTold(Extend(h, e), events + [e])
  {
    var all := events + [e];
    assert all[..|events|] == events && all[|events|] == e;
    OutOfTouchStep(events, e);
  }

  lemma SuccessStep(h: History, events: seq<Event>, e: Event)
    requires TouchTold(h, events) && StreakTold(h, events)
    ensures StreakTold(Extend(h, e), events + [e])
  {
    StreakStep(events, e, h.successes);
  }

  /** The counters, the samples and the loss of the link, of every history. */
  lemma {:induction false} HistoryTells(events: seq<Event>)
    ensures var h := HistoryOf(events);
            h.samples == Samples(events) && TouchTold(h, events) && StreakTold(h, events)
  {
    if events == [] {
      assert !OutOfTouch(events);
    } else {
      var front, e := events[..|events| - 1], events[|events| - 1];
      assert events == front + [e];
      HistoryTells(front);
      TouchStep(HistoryOf(front), front, e);
      SuccessStep(HistoryOf(front), front, e);
      assert HistoryOf(front).samples + [] == HistoryOf(front).samples;
    }
  }

  lemma StreakStep(events: seq<Event>, e: Event, n: nat)
    requires LastGood(events, n) && !LastGood(events, n + 1)
    ensures var all, m := events + [e], if Good(e) then n + 1 else 0;
            LastGood(all, m) && !LastGood(all, m + 1)
  {
    var all := events + [e];
    assert all[|events|] == e && forall i :: 0 <= i < |events| ==> all[i] == events[i];
    if Good(e) && n + 1 <= |events| {
      var i :| |events| - (n + 1) <= i < |events| && !Good(events[i]);
      assert !Good(all[i]);
    }
  }

  lemma LongerStreak(events: seq<Event>, n: nat, m: nat)
    requires LastGood(events, n) && !LastGood(events, n + 1)
    ensures LastGood(events, m) <==> m <= n
  {
  }

  lemma OutagesStep(events: seq<Event>, e: Event)
    ensures var turns := OutOfTouch(events + [e]) && !OutOfTouch(events);
            HistoryOf(events + [e]).outages == HistoryOf(events).outages + if turns then [e.at] else []
  {
    assert (events + [e])[..|events|] == events;
    HistoryTells(events);
    HistoryTells(events + [e]);
  }

  lemma RecentAppend(times: seq<real>, at: real, now: real)
    ensures Recent(times + [at], now) == Recent(times, now) + if now - at <= 120.0 then 1 else 0
  {
    assert (times + [at])[..|times|] == times;
  }

  /** The outages of a history are the events at which touch was lost. */
  lemma {:induction false} OutagesAreTurns(events: seq<Event>, now: real)
    ensures Recent(HistoryOf(events).outages, now) == |RecentOutages(events, now)|
  {
    if events != [] {
      var front, e := events[..|events| - 1], events[|events| - 1];
      assert events == front + [e];
      OutagesAreTurns(front, now);
      OutagesStep(front, e);
      RecentAppend(HistoryOf(front).outages, e.at, now);
      TurnsStep(front, e, now);
      assert HistoryOf(front).outages + [] == HistoryOf(front).outages;
    }
  }

  lemma OneMore(s: set<nat>, n: nat, hit: bool)
    requires n !in s
    ensures |s + if hit then {n} else {}| == |s| + if hit then 1 else 0
  {
    if !hit { assert s + {} == s; }
  }

  lemma TurnsKept(events: seq<Event>, e: Event, i: nat)
    requires i < |events|
    ensures TurnsLost(events + [e], i) == TurnsLost(events, i)
  {
    assert (events + [e])[..i + 1] == events[..i + 1] && (events + [e])[..i] == events[..i];
  }

  lemma TurnsStep(events: seq<Event>, e: Event, now: real)
    ensures var hit := OutOfTouch(events + [e]) && !OutOfTouch(events) && now - e.at <= 120.0;
            |RecentOutages(events + [e], now)| == |RecentOutages(events, now)| + if hit then 1 else 0
  {
    TurnsAre(events, e, now);
    var hit := OutOfTouch(events + [e]) && !OutOfTouch(events) && now - e.at <= 120.0;
    OneMore(RecentOutages(events, now), |events|, hit);
  }

  lemma TurnsAre(events: seq<Event>, e: Event, now: real)
    ensures var hit := OutOfTouch(events + [e]) && !OutOfTouch(events) && now - e.at <= 120.0;
            RecentOutages(events + [e], now) == RecentOutages(events, now) + if hit then {|events|} else {}
  {
    var all, n := events + [e], |events|;
    assert all[..n + 1] == all && all[..n] == events && all[n] == e;
    forall i: nat | i < n ensures i in RecentOutages(all, now) <==> i in RecentOutages(events, now) {
      TurnsKept(events, e, i);
    }
  }

  /** The verdict after a sample, exactly, from the events alone. The link is lost if since the last
      good sample there was a silence or there were three events. It is healthy if the sample was
      good and either 19 in 20 of the last (up to) 60 samples were, or the last five events were
      good samples with fewer than two outages in the last 120 s. Otherwise it is degraded. */
  lemma VerdictExactlyWhen(events: seq<Event>, ok: bool, at: real)
    ensures var all := events + [Sample(ok, at)];
            var link, w := HistoryOf(all).link, Window(Samples(all));
            && (link.Lost? <==> OutOfTouch(all))
            && (link.Healthy? <==>
                  ok && (20 * multiset(w)[true] >= 19 * |w|
                         || (LastGood(all, 5) && |RecentOutages(events, at)| < 2)))
  {
    var all := events + [Sample(ok, at)];
    assert all[..|events|] == events && all[|events|] == Sample(ok, at);
    HistoryTells(all);
    OutagesAreTurns(events, at);
    HealthyExactlyWhen(events, ok, at);
    LongerStreak(all, HistoryOf(all).successes, 5);
  }

  /** A flapping link earns "healthy" the slow way: with two or more outages in the last 120 s, a
      sample can leave the link healthy only if at least 95 % of the last (up to 60) succeeded. */
  lemma FlappingLinkMustEarnHealthy(events: seq<Event>, ok: bool, at: real)
    requires |RecentOutages(events, at)| >= 2
    ensures var all := events + [Sample(ok, at)];
            var w := Window(Samples(all));
            HistoryOf(all).link.Healthy? ==> ok && 20 * multiset(w)[true] >= 19 * |w|
  {
    VerdictExactlyWhen(events, ok, at);
  }

  /** In terms of the counters. */
  lemma HealthyExactlyWhen(events: seq<Event>, ok: bool, at: real)
    ensures var before, h := HistoryOf(events), HistoryOf(events + [Sample(ok, at)]);
            && (h.link.Healthy? <==>
                  ok && ((h.successes >= 5 && Recent(before.outages, at) < 2) || !Below95(h.samples)))
            && (h.link.Lost? <==> !ok && before.failures >= 2)
  {
    assert (events + [Sample(ok, at)])[..|events|] == events;
  }

  /** After the poll watchdog has declared an outage, a single good sample can make the link
      healthy again, contrary to the comment in the code: it does exactly when at least 95 % of
      the window, that sample included, succeeded. */
  lemma OneSuccessAfterSilence(events: seq<Event>, at: real, later: real)
    requires !OutOfTouch(events)
    ensures var h := HistoryOf(events + [Silence(at)] + [Sample(true, later)]);
            var w := Window(Samples(events) + [true]);
            h.link.Healthy? <==> 20 * multiset(w)[true] >= 19 * |w|
  {
    var a := events + [Silence(at)];
    var all := a + [Sample(true, later)];
    assert a[..|events|] == events && all[..|a|] == a;
    assert Samples(a) == Samples(events) && Samples(all) == Samples(events) + [true];
    VerdictExactlyWhen(a, true, later);
    assert !Good(all[|all| - 2]) && !LastGood(all, 5);
  }

  function Repeat<T>(x: T, n: nat): (r: seq<T>)
    ensures |r| == n
  {
    if n == 0 then [] else Repeat(x, n - 1) + [x]
  }

  /** For example, after up to 59 good samples without a failure. */
  lemma {:induction false} QuietLinkRecoversAtOnce(n: nat, at: real)
    requires n <= 59
    ensures var silent := Repeat(Sample(true, at), n) + [Silence(at)];
            HistoryOf(silent).link.Lost? && HistoryOf(silent + [Sample(true, at)]).link.Healthy?
  {
    var good := Repeat(Sample(true, at), n);
    GoodSamples(n, at);
    OutOfTouchStep(good, Silence(at));
    HistoryTells(good + [Silence(at)]);
    assert Samples(good) + [true] == Repeat(true, n + 1);
    OneSuccessAfterSilence(good, at, at);
  }

  lemma {:induction false} GoodSamples(n: nat, at: real)
    ensures var good := Repeat(Sample(true, at), n);
            && !OutOfTouch(good) && Samples(good) == Repeat(true, n)
            && multiset(Repeat(true, n + 1))[true] == n + 1
    decreases n
  {
    if n > 0 {
      GoodSamples(n - 1, at);
      var before := Repeat(Sample(true, at), n - 1);
      OneMoreGood(before, at);
      assert Repeat(Sample(true, at), n) == before + [Sample(true, at)];
    } else {
      assert Repeat(true, 1) == [true] && Repeat(Sample(true, at), 0) == [];
      assert !OutOfTouch([]);
    }
  }

  lemma OneMoreGood(events: seq<Event>, at: real)
    ensures var all := events + [Sample(true, at)];
            !OutOfTouch(all) && Samples(all) == Samples(events) + [true]
  {
    assert (events + [Sample(true, at)])[..|events|] == events;
    OutOfTouchStep(events, Sample(true, at));
  }
}
