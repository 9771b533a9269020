/** The sampling controller of icl.c: the running minimum `rtt` over the
    round durations of one pair, and the one-way latency derived from it. */
module Sampling {
  import opened CInt

  /** Handshake steps per round, the literal 100 of every inner loop. */
  const Steps := 100

  /** Initial value of `rtt`, which also marks "no sample kept yet". */
  const NoSample := -1

  /** One update of the running minimum with the duration of one round. */
  function Keep(rtt: int, current: int): int
  {
    if rtt == NoSample || current < rtt then current else rtt
  }

  /** The value of `rtt` after the sample loop has seen `durations`, in order. */
  function RunningMin(durations: seq<int>): int
  {
    if durations == [] then NoSample
    else Keep(RunningMin(durations[..|durations| - 1]), durations[|durations| - 1])
  }

  /** The durations contain no value that the sentinel test would mistake for "no sample". */
  predicate NoSentinel(durations: seq<int>)
  {
    forall m :: 0 <= m < |durations| ==> durations[m] != NoSample
  }

  /** Over durations that never equal the sentinel, the running minimum is
      the minimum: one of the durations, and no larger than any of them. */
  lemma {:induction false} RunningMinIsMinimum(durations: seq<int>)
    requires durations != [] && NoSentinel(durations)
    ensures RunningMin(durations) in durations
    ensures forall m :: 0 <= m < |durations| ==> RunningMin(durations) <= durations[m]
  {
    var front := durations[..|durations| - 1];
    if front != [] {
      assert NoSentinel(front) by {
        forall m | 0 <= m < |front| ensures front[m] != NoSample {
          assert front[m] == durations[m];
        }
      }
      RunningMinIsMinimum(front);
      assert RunningMin(front) != NoSample;
    }
  }

  /** A round whose duration equals the sentinel is forgotten by the next
      round, so the sentinel restriction above cannot be dropped. */
  lemma SentinelDurationIsForgotten()
    ensures RunningMin([NoSample, 5]) == 5
  {
    var once := [NoSample];
    assert once[..0] == [];
    assert RunningMin(once) == NoSample;
    assert [NoSample, 5][..1] == once;
  }

  /** The sample loop of one pair: `nsamples` rounds, keeping the shortest. */
  method MinRoundTrip(nsamples: int, durations: seq<int>) returns (rtt: int)
    requires nsamples <= |durations|
    ensures nsamples <= 0 ==> rtt == NoSample
    ensures nsamples > 0 ==> rtt == RunningMin(durations[..nsamples])
    ensures nsamples > 0 && NoSentinel(durations[..nsamples]) ==>
      rtt in durations[..nsamples] && forall m :: 0 <= m < nsamples ==> rtt <= durations[m]
  {
    rtt := NoSample;
    var m := 0;
    while m < nsamples
      invariant 0 <= m <= |durations| && (m == 0 || m <= nsamples)
      invariant rtt == RunningMin(durations[..m])
    {
      assert durations[..m + 1][..m] == durations[..m];
      rtt := Keep(rtt, durations[m]);
      m := m + 1;
    }
    assert durations[..0] == [];
    if nsamples > 0 && NoSentinel(durations[..nsamples]) {
      RunningMinIsMinimum(durations[..nsamples]);
    }
  }

  /** `rtt` after a pair's sample loop, as a function of its inputs. */
  function SampledRtt(nsamples: int, durations: seq<int>): int
    requires nsamples <= |durations|
  {
    if nsamples <= 0 then NoSample else RunningMin(durations[..nsamples])
  }

  /** The value stored for a pair, `rtt / 2 / 100` in C arithmetic. For a
      non-negative round trip it is the round trip divided by 200, rounded
      down; the sentinel (and any round trip above -200) gives 0. */
  function Latency(rtt: int): (ns: int)
    ensures rtt >= 0 ==> 0 <= ns && ns * (2 * Steps) <= rtt < ns * (2 * Steps) + 2 * Steps
    ensures -2 * Steps < rtt < 0 ==> ns == 0
  {
    TruncDiv(TruncDiv(rtt, 2), Steps)
  }

  /** The stored latency never decreases as the round trip grows. */
  lemma LatencyMonotonic(r1: int, r2: int)
    requires r1 <= r2
    ensures Latency(r1) <= Latency(r2)
  {
  }

  /** The latency stored for one pair. */
  function PairLatency(nsamples: int, durations: seq<int>): int
    requires nsamples <= |durations|
  {
    Latency(SampledRtt(nsamples, durations))
  }

  /** With no rounds, `rtt` keeps its sentinel and the stored value is
      `-1 / 2 / 100`, which C truncates to 0. */
  lemma NoRoundsStoreZero(nsamples: int, durations: seq<int>)
    requires nsamples <= 0 && nsamples <= |durations|
    ensures SampledRtt(nsamples, durations) == NoSample
    ensures PairLatency(nsamples, durations) == 0
  {
  }

  /** With at least one round and non-negative durations, the stored value
      is non-negative, is the latency of one of the rounds, and is bounded
      by the latency of every round. */
  lemma PairLatencyBounds(nsamples: int, durations: seq<int>)
    requires 1 <= nsamples <= |durations|
    requires forall m :: 0 <= m < nsamples ==> durations[m] >= 0
    ensures PairLatency(nsamples, durations) >= 0
    ensures exists m :: 0 <= m < nsamples && PairLatency(nsamples, durations) == Latency(durations[m])
    ensures forall m :: 0 <= m < nsamples ==> PairLatency(nsamples, durations) <= Latency(durations[m])
    ensures forall m :: 0 <= m < nsamples ==> PairLatency(nsamples, durations) * (2 * Steps) <= durations[m]
  {
    var sampled := durations[..nsamples];
    assert NoSentinel(sampled) by {
      forall m | 0 <= m < |sampled| ensures sampled[m] != NoSample {
        assert sampled[m] == durations[m];
      }
    }
    RunningMinIsMinimum(sampled);
    var rtt := RunningMin(sampled);
    var k :| 0 <= k < |sampled| && sampled[k] == rtt;
    assert Latency(durations[k]) == PairLatency(nsamples, durations);
    forall m | 0 <= m < nsamples
      ensures PairLatency(nsamples, durations) <= Latency(durations[m])
    {
      assert sampled[m] == durations[m];
      LatencyMonotonic(rtt, durations[m]);
    }
  }
}
