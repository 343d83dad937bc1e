/**
 The input debouncer of the ADAM-6060 driver (atspi/io_adam.py, `_Debouncer`) and its trace
 specification: what every channel publishes, said in terms of the raw readings alone.
 */
module Debounce {
  import opened Prelude

  /** One channel: the published level and the count of consecutive disagreeing readings. */
  datatype Channel = Channel(stable: bool, count: nat)

  function ChannelStep(c: Channel, level: bool, samples: nat): Channel {
    if level == c.stable then c.(count := 0)
    else if c.count + 1 >= samples then Channel(level, 0)
    else c.(count := c.count + 1)
  }

  /** A channel after a nonempty stream of readings; the first one seeds it. */
  function ChannelRun(readings: seq<bool>, samples: nat): Channel
    requires readings != []
  {
    var n := |readings| - 1;
    if n == 0 then Channel(readings[0], 0)
    else ChannelStep(ChannelRun(readings[..n], samples), readings[n], samples)
  }

  /** The last `n` readings all differ from `level`. */
  predicate LastDiffer(readings: seq<bool>, n: nat, level: bool) {
    n <= |readings| && forall i :: |readings| - n <= i < |readings| ==> readings[i] != level
  }

  /** The count is the length of the run of disagreeing readings at the end of the stream. */
  lemma {:induction false} CountIsTrailingRun(readings: seq<bool>, samples: nat)
    requires readings != [] && samples >= 1
    ensures var c := ChannelRun(readings, samples);
            && c.count < samples && c.count < |readings|
            && LastDiffer(readings, c.count, c.stable)
            && readings[|readings| - 1 - c.count] == c.stable
  {
    var n := |readings| - 1;
    if n > 0 {
      CountIsTrailingRun(readings[..n], samples);
    }
  }

  /** Exactly when a published bit flips: the channel's last `samples` raw readings, the new one
      included, all differ from the bit published before. The first reading is published at
      once. */
  lemma FlipsExactlyAfterSamples(readings: seq<bool>, level: bool, samples: nat)
    requires samples >= 1
    ensures var all := readings + [level];
            var after := ChannelRun(all, samples).stable;
            if readings == [] then after == level
            else
              var before := ChannelRun(readings, samples).stable;
              after != before <==> LastDiffer(all, samples, before)
  {
    var all := readings + [level];
    if readings != [] {
      assert all[..|all| - 1] == readings;
      CountIsTrailingRun(readings, samples);
      var c := ChannelRun(readings, samples);
      if LastDiffer(all, samples, c.stable) {
        assert all[|all| - 1] == level;
        assert all[|readings| - 1 - c.count] == c.stable;
      }
    }
  }

  /** The readings of channel `i` in a stream of whole reads. */
  function Column(history: seq<seq<bool>>, i: nat): (r: seq<bool>)
    requires forall k :: 0 <= k < |history| ==> i < |history[k]|
    ensures |r| == |history|
    ensures forall k :: 0 <= k < |history| ==> r[k] == history[k][i]
  {
    seq(|history|, k requires 0 <= k < |history| => history[k][i])
  }

  /** The reads since the number of channels last changed. */
  function Epoch(history: seq<seq<bool>>): (e: seq<seq<bool>>)
    ensures |e| <= |history| && (history != [] ==> e != [] && e[|e| - 1] == history[|history| - 1])
    ensures forall k :: 0 <= k < |e| ==> |e[k]| == |history[|history| - 1]|
  {
    if history == [] then []
    else
      var n := |history| - 1;
      if n > 0 && |history[n - 1]| == |history[n]| then Epoch(history[..n]) + [history[n]] else [history[n]]
  }

  class Debouncer {
    const samples: nat
    var stable: Option<seq<bool>>
    var counts: seq<nat>

    ghost predicate Valid()
      reads this
    {
      samples >= 1 && (stable.Some? ==> |stable.value| == |counts|)
    }

    constructor (requested: int)
      ensures Valid() && stable.None? && samples == (if requested < 1 then 1 else requested)
    {
      samples := if requested < 1 then 1 else requested;
      stable := None;
      counts := [];
    }

    ghost function ChannelAt(i: nat): Channel
      requires Valid() && stable.Some? && i < |counts|
      reads this
    {
      Channel(stable.value[i], counts[i])
    }

    /** The object holds, for each channel, exactly what that channel's own stream since the number
        of channels last changed makes. */
    ghost predicate Tracks(history: seq<seq<bool>>)
      requires Valid()
      reads this
    {
      if history == [] then stable.None?
      else
        && stable.Some? && |counts| == |history[|history| - 1]|
        && forall i :: 0 <= i < |counts| ==> ChannelAt(i) == ChannelRun(Column(Epoch(history), i), samples)
    }

    /** Counts one more reading of every channel. */
    method Count(raw: seq<bool>)
      requires Valid() && stable.Some? && |raw| == |counts|
      modifies this`stable, this`counts
      ensures Valid() && stable.Some? && |counts| == |raw|
      ensures forall i :: 0 <= i < |raw| ==> ChannelAt(i) == ChannelStep(old(ChannelAt(i)), raw[i], samples)
    {
      var levels, tally := stable.value, counts;
      for i := 0 to |raw|
        invariant |levels| == |tally| == |raw|
        invariant forall j :: 0 <= j < i ==> Channel(levels[j], tally[j]) == ChannelStep(ChannelAt(j), raw[j], samples)
        invariant forall j :: i <= j < |raw| ==> Channel(levels[j], tally[j]) == ChannelAt(j)
      {
        assert Channel(levels[i], tally[i]) == ChannelAt(i);
        if raw[i] == levels[i] {
          tally := tally[i := 0];
        } else {
          tally := tally[i := tally[i] + 1];
          if tally[i] >= samples {
            levels := levels[i := raw[i]];
            tally := tally[i := 0];
          }
        }
      }
      stable, counts := Some(levels), tally;
    }

    /** Publishes, for every channel, the level that the stream of that channel alone decides:
        channels never influence each other. A read of another width starts all streams anew. */
    method Update(raw: seq<bool>, ghost history: seq<seq<bool>>) returns (published: seq<bool>)
      requires Valid() && Tracks(history)
      modifies this
      ensures Valid() && Tracks(history + [raw])
      ensures |published| == |raw|
      ensures var epoch := Epoch(history + [raw]);
              forall i :: 0 <= i < |raw| ==> published[i] == ChannelRun(Column(epoch, i), samples).stable
    {
      ghost var all := history + [raw];
      assert all[..|history|] == history;
      if stable.None? || |stable.value| != |raw| {
        stable := Some(raw);
        counts := seq(|raw|, _ => 0);
        assert Epoch(all) == [raw];
        forall i | 0 <= i < |raw| ensures ChannelAt(i) == ChannelRun(Column(Epoch(all), i), samples) {}
      } else {
        Count(raw);
        assert Epoch(all) == Epoch(history) + [raw];
        forall i | 0 <= i < |raw| ensures ChannelAt(i) == ChannelRun(Column(Epoch(all), i), samples) {
          ColumnStep(Epoch(history), raw, i);
        }
      }
      published := stable.value;
      forall i | 0 <= i < |raw| ensures published[i] == ChannelRun(Column(Epoch(all), i), samples).stable {
        assert ChannelAt(i) == ChannelRun(Column(Epoch(all), i), samples);
      }
    }
  }

  /** One more read adds one reading to each channel's stream. */
  lemma ColumnStep(history: seq<seq<bool>>, raw: seq<bool>, i: nat)
    requires i < |raw| && forall k :: 0 <= k < |history| ==> i < |history[k]|
    ensures Column(history + [raw], i) == Column(history, i) + [raw[i]]
    ensures Column(history + [raw], i)[..|history|] == Column(history, i)
  {
  }
}
