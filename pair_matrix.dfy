/** The pair matrix builder of icl.c's `main`: a zero-filled `ncpus * ncpus`
    array, one measurement per unordered pair `i < j`, and the result written
    to both `data[i * ncpus + j]` and `data[j * ncpus + i]`. */
module PairMatrix {
  import opened Sampling

  /** `a < b` implies that row `a` ends before row `b` starts. */
  lemma RowsApart(n: nat, a: nat, b: nat)
    requires a < b
    ensures (a + 1) * n <= b * n
  {
  }

  /** The flat index `p * ncpus + q` of row `p`, column `q`; it always lies
      inside the `ncpus * ncpus` array. */
  function Cell(n: nat, p: nat, q: nat): (k: nat)
    requires p < n && q < n
    ensures k < n * n
  {
    RowsApart(n, p, n);
    p * n + q
  }

  /** Distinct rows and columns never share a flat index. */
  lemma CellInjective(n: nat, p: nat, q: nat, p': nat, q': nat)
    requires p < n && q < n && p' < n && q' < n
    requires Cell(n, p, q) == Cell(n, p', q')
    ensures p == p' && q == q'
  {
    if p < p' {
      RowsApart(n, p, p');
    } else if p' < p {
      RowsApart(n, p', p);
    }
  }

  /** Every index of the array is the cell of exactly one row and column. */
  lemma CellOnto(n: nat, k: nat)
    requires k < n * n
    ensures k / n < n && k % n < n && Cell(n, k / n, k % n) == k
  {
    if k / n >= n {
      RowsApart(n, n - 1, k / n);
      assert false;
    }
  }

  /** The measurement oracle supplies, for every pair `i < j`, at least
      `nsamples` round durations, measured with the background thread on
      `cpus[i]` and the foreground thread on `cpus[j]`. */
  ghost predicate Covers(cpus: seq<int>, nsamples: int, oracle: (int, int) -> seq<int>)
  {
    forall i, j :: 0 <= i < j < |cpus| ==> nsamples <= |oracle(cpus[i], cpus[j])|
  }

  /** The value the finished matrix holds at row `p`, column `q`. */
  function Entry(cpus: seq<int>, nsamples: int, oracle: (int, int) -> seq<int>, p: nat, q: nat): int
    requires Covers(cpus, nsamples, oracle) && p < |cpus| && q < |cpus|
  {
    if p == q then 0
    else if p < q then PairLatency(nsamples, oracle(cpus[p], cpus[q]))
    else PairLatency(nsamples, oracle(cpus[q], cpus[p]))
  }

  /** Every off-diagonal entry is non-negative and at most any of its pair's
      round durations divided by 200, when those durations are non-negative;
      with no rounds at all, every entry is 0. */
  lemma EntryBounds(cpus: seq<int>, nsamples: int, oracle: (int, int) -> seq<int>, p: nat, q: nat)
    requires Covers(cpus, nsamples, oracle) && p < |cpus| && q < |cpus|
    requires forall a, b, m :: 0 <= m < |oracle(a, b)| ==> oracle(a, b)[m] >= 0
    ensures nsamples <= 0 ==> Entry(cpus, nsamples, oracle, p, q) == 0
    ensures Entry(cpus, nsamples, oracle, p, q) >= 0
    ensures p != q ==> forall m :: 0 <= m < nsamples ==>
      Entry(cpus, nsamples, oracle, p, q) * (2 * Steps) <= oracle(cpus[Min(p, q)], cpus[Max(p, q)])[m]
  {
    if p != q {
      var durations := oracle(cpus[Min(p, q)], cpus[Max(p, q)]);
      if nsamples <= 0 {
        NoRoundsStoreZero(nsamples, durations);
      } else {
        assert nsamples <= |durations|;
        forall m | 0 <= m < nsamples ensures durations[m] >= 0 {
          var a, b := cpus[Min(p, q)], cpus[Max(p, q)];
          assert 0 <= m < |oracle(a, b)| && durations[m] == oracle(a, b)[m];
        }
        PairLatencyBounds(nsamples, durations);
      }
    }
  }

  function Min(a: nat, b: nat): nat { if a < b then a else b }
  function Max(a: nat, b: nat): nat { if a < b then b else a }

  /** The cell `(p, q)` belongs to a pair the nested loops have finished
      when they are about to measure pair `(i, j)`. */
  predicate Measured(i: nat, j: nat, p: nat, q: nat)
  {
    p != q && (Min(p, q) < i || (Min(p, q) == i && Max(p, q) < j))
  }

  /** The pairs row `i` of the loops measures from column `j` on, in order. */
  function Row(n: nat, i: nat, j: nat): seq<(nat, nat)>
    decreases n - j
  {
    if j >= n then [] else [(i, j)] + Row(n, i, j + 1)
  }

  /** The pairs the loops measure from row `i` on, in order. */
  function Schedule(n: nat, i: nat): seq<(nat, nat)>
    decreases n - i
  {
    if i >= n then [] else Row(n, i, i + 1) + Schedule(n, i + 1)
  }

  predicate LexLess(x: (nat, nat), y: (nat, nat))
  {
    x.0 < y.0 || (x.0 == y.0 && x.1 < y.1)
  }

  predicate LexAscending(s: seq<(nat, nat)>)
  {
    forall a, b :: 0 <= a < b < |s| ==> LexLess(s[a], s[b])
  }

  lemma ConcatAscending(x: seq<(nat, nat)>, y: seq<(nat, nat)>)
    requires LexAscending(x) && LexAscending(y)
    requires forall a, b :: a in x && b in y ==> LexLess(a, b)
    ensures LexAscending(x + y)
  {
  }

  lemma {:induction false} RowShape(n: nat, i: nat, j: nat)
    ensures forall e :: e in Row(n, i, j) <==> e.0 == i && j <= e.1 < n
    ensures LexAscending(Row(n, i, j))
    decreases n - j
  {
    if j < n {
      RowShape(n, i, j + 1);
      ConcatAscending([(i, j)], Row(n, i, j + 1));
    }
  }

  lemma {:induction false} ScheduleShape(n: nat, i: nat)
    ensures forall e :: e in Schedule(n, i) <==> i <= e.0 < e.1 < n
    ensures LexAscending(Schedule(n, i))
    decreases n - i
  {
    if i < n {
      RowShape(n, i, i + 1);
      ScheduleShape(n, i + 1);
      ConcatAscending(Row(n, i, i + 1), Schedule(n, i + 1));
    }
  }

  /** The loops measure every unordered pair `p < q` of the `n` CPUs, each
      exactly once, and nothing else. */
  lemma ScheduleVisitsEachPairOnce(n: nat)
    ensures forall p: nat, q: nat :: (p, q) in Schedule(n, 0) <==> p < q < n
    ensures forall a, b :: 0 <= a < b < |Schedule(n, 0)| ==> Schedule(n, 0)[a] != Schedule(n, 0)[b]
  {
    ScheduleShape(n, 0);
    forall p: nat, q: nat ensures (p, q) in Schedule(n, 0) <==> p < q < n {
      var e: (nat, nat) := (p, q);
      assert e.0 == p && e.1 == q;
    }
  }

  /** Lines 252-253: write one pair's value to its two cells; no other index
      of the array changes. */
  method StorePair(data: array<int>, n: nat, i: nat, j: nat, v: int)
    requires i < n && j < n && data.Length == n * n
    modifies data
    ensures data[..] == old(data[..])[Cell(n, i, j) := v][Cell(n, j, i) := v]
  {
    data[Cell(n, i, j)] := v;
    data[Cell(n, j, i)] := v;
  }

  /** The array, viewed as a sequence, holds the value of every pair the
      loops have finished before pair `(i, j)` and the `calloc` zero elsewhere. */
  ghost predicate FilledBefore(data: seq<int>, cpus: seq<int>, nsamples: int,
                               oracle: (int, int) -> seq<int>, i: nat, j: nat)
    requires Covers(cpus, nsamples, oracle)
  {
    |data| == |cpus| * |cpus| &&
    forall p, q :: 0 <= p < |cpus| && 0 <= q < |cpus| ==>
      data[Cell(|cpus|, p, q)] == if Measured(i, j, p, q) then Entry(cpus, nsamples, oracle, p, q) else 0
  }

  /** Storing pair `(i, j)`'s value in its two cells finishes that pair. */
  lemma StoreAdvances(before: seq<int>, after: seq<int>, cpus: seq<int>, nsamples: int,
                      oracle: (int, int) -> seq<int>, i: nat, j: nat)
    requires Covers(cpus, nsamples, oracle) && i < j < |cpus|
    requires FilledBefore(before, cpus, nsamples, oracle, i, j)
    requires after == before[Cell(|cpus|, i, j) := Entry(cpus, nsamples, oracle, i, j)]
                            [Cell(|cpus|, j, i) := Entry(cpus, nsamples, oracle, i, j)]
    ensures FilledBefore(after, cpus, nsamples, oracle, i, j + 1)
  {
    var n := |cpus|;
    forall p, q | 0 <= p < n && 0 <= q < n
      ensures after[Cell(n, p, q)] ==
        if Measured(i, j + 1, p, q) then Entry(cpus, nsamples, oracle, p, q) else 0
    {
      if (p, q) != (i, j) && (p, q) != (j, i) {
        if Cell(n, p, q) == Cell(n, i, j) {
          CellInjective(n, p, q, i, j);
        }
        if Cell(n, p, q) == Cell(n, j, i) {
          CellInjective(n, p, q, j, i);
        }
      }
    }
  }

  /** Finishing row `i` is the same as starting row `i + 1`. */
  lemma RowAdvances(data: seq<int>, cpus: seq<int>, nsamples: int,
                    oracle: (int, int) -> seq<int>, i: nat)
    requires Covers(cpus, nsamples, oracle) && i < |cpus|
    requires FilledBefore(data, cpus, nsamples, oracle, i, |cpus|)
    ensures FilledBefore(data, cpus, nsamples, oracle, i + 1, i + 2)
  {
  }

  /** Recording pair `(i, j)` moves it from the rest of the row to the log. */
  lemma RowStep(log: seq<(nat, nat)>, n: nat, i: nat, j: nat)
    requires j < n
    ensures log + Row(n, i, j) == (log + [(i, j)]) + Row(n, i, j + 1)
  {
  }

  /** Logging all of row `i` leaves the rows after it to log. */
  lemma ScheduleStep(log: seq<(nat, nat)>, n: nat, i: nat)
    requires i < n
    ensures log + Schedule(n, i) == (log + Row(n, i, i + 1)) + Schedule(n, i + 1)
  {
  }

  /** Once every row is finished, the array holds every entry. */
  lemma Finished(data: seq<int>, cpus: seq<int>, nsamples: int, oracle: (int, int) -> seq<int>)
    requires Covers(cpus, nsamples, oracle)
    requires FilledBefore(data, cpus, nsamples, oracle, |cpus|, |cpus| + 1)
    ensures forall p, q :: 0 <= p < |cpus| && 0 <= q < |cpus| ==>
      data[Cell(|cpus|, p, q)] == Entry(cpus, nsamples, oracle, p, q)
  {
  }

  /** One iteration of the inner loop: the sample loop for pair `(i, j)`,
      then the two stores. */
  method MeasurePair(data: array<int>, cpus: seq<int>, nsamples: int,
                     oracle: (int, int) -> seq<int>, i: nat, j: nat)
    requires Covers(cpus, nsamples, oracle) && i < j < |cpus|
    requires FilledBefore(data[..], cpus, nsamples, oracle, i, j)
    modifies data
    ensures FilledBefore(data[..], cpus, nsamples, oracle, i, j + 1)
  {
    var durations := oracle(cpus[i], cpus[j]);
    var rtt := MinRoundTrip(nsamples, durations);
    assert rtt == SampledRtt(nsamples, durations);
    assert Latency(rtt) == Entry(cpus, nsamples, oracle, i, j);
    ghost var before := data[..];
    StorePair(data, |cpus|, i, j, Latency(rtt));
    StoreAdvances(before, data[..], cpus, nsamples, oracle, i, j);
  }

  /** The inner loop of `main` for row `i`: measure and store every pair
      `(i, j)` with `j > i`. */
  method MeasureRow(data: array<int>, cpus: seq<int>, nsamples: int,
                    oracle: (int, int) -> seq<int>, i: nat, ghost done: seq<(nat, nat)>)
    returns (ghost order: seq<(nat, nat)>)
    requires Covers(cpus, nsamples, oracle) && i < |cpus|
    requires FilledBefore(data[..], cpus, nsamples, oracle, i, i + 1)
    modifies data
    ensures FilledBefore(data[..], cpus, nsamples, oracle, i, |cpus|)
    ensures order == done + Row(|cpus|, i, i + 1)
  {
    var n := |cpus|;
    order := done;
    var j := i + 1;
    while j < n
      invariant i + 1 <= j <= n
      invariant FilledBefore(data[..], cpus, nsamples, oracle, i, j)
      invariant order + Row(n, i, j) == done + Row(n, i, i + 1)
    {
      MeasurePair(data, cpus, nsamples, oracle, i, j);
      RowStep(order, n, i, j);
      order := order + [(i, j)];
      j := j + 1;
    }
  }

  /** The nested pair loops of `main`. `order` records the pairs in the
      order they are measured. */
  method BuildMatrix(cpus: seq<int>, nsamples: int, oracle: (int, int) -> seq<int>)
    returns (data: array<int>, ghost order: seq<(nat, nat)>)
    requires Covers(cpus, nsamples, oracle)
    ensures fresh(data) && data.Length == |cpus| * |cpus|
    ensures forall p, q :: 0 <= p < |cpus| && 0 <= q < |cpus| ==>
      data[Cell(|cpus|, p, q)] == Entry(cpus, nsamples, oracle, p, q)
    ensures forall p, q :: 0 <= p < |cpus| && 0 <= q < |cpus| ==>
      data[Cell(|cpus|, p, q)] == data[Cell(|cpus|, q, p)]
    ensures forall p :: 0 <= p < |cpus| ==> data[Cell(|cpus|, p, p)] == 0
    ensures order == Schedule(|cpus|, 0)
  {
    var n := |cpus|;
    data := new int[n * n](_ => 0);
    order := [];
    var i := 0;
    while i < n
      invariant 0 <= i <= n
      invariant FilledBefore(data[..], cpus, nsamples, oracle, i, i + 1)
      invariant order + Schedule(n, i) == Schedule(n, 0)
    {
      ScheduleStep(order, n, i);
      order := MeasureRow(data, cpus, nsamples, oracle, i, order);
      RowAdvances(data[..], cpus, nsamples, oracle, i);
      i := i + 1;
    }
    Finished(data[..], cpus, nsamples, oracle);
    assert forall p, q :: 0 <= p < n && 0 <= q < n ==>
      data[Cell(n, p, q)] == data[..][Cell(n, p, q)];
  }
}
