# icl: inter-core latency, sequential skeleton

`icl` measures the one-way latency between every pair of CPU cores and
prints it as a symmetric core-by-core matrix. This project models the
deterministic part of its `main` in Dafny and proves what that part
guarantees:

- **CPU enumeration** (`CpuEnum`): the scan of the affinity mask. It covers
  all `CPU_SETSIZE` bits and appends each set bit's index to `cpus`.
- **Sampling** (`Sampling`): the running minimum `rtt` over a pair's round
  durations, with sentinel `-1`, and the stored value `rtt / 2 / 100` in C's
  truncating division (`CInt`).
- **Pair matrix** (`PairMatrix`): the zero-filled `ncpus * ncpus` array. The
  nested `i < j` loops write each pair's value to `data[i*ncpus+j]` and
  `data[j*ncpus+i]`.
- **Display arithmetic** (`Display`): the `-t` remap
  `(k >> 1) + (k & 1) * ncpus / 2`, the lookup loop that turns a shown CPU back
  into a matrix index, and the numbers the text table shows.
- **Write-mode chain** (`WriteChain`): one `-w` round. It is run as a strict
  alternation of the foreground step `2n-1 -> 2n` and the background step
  `2n -> 2n+1`, not as threads.
- **`main`** (`Icl.RunIcl`): the three stages composed.

The measurement is an input. `oracle(a, b)` is the sequence of round
durations for the pair whose background thread is pinned to CPU `a` and whose
foreground thread is pinned to CPU `b`. A `cpu_set_t` is modelled as glibc
lays it out on LP64: 16 words of 64 bits, and `CPU_ISSET(i)` tests bit `i % 64`
of word `i / 64`.

Behaviour of the code worth knowing:

- The sample count is whatever `atoi` returns, not necessarily positive. With
  zero or fewer rounds `rtt` stays `-1`, and every entry is `-1 / 2 / 100 = 0`
  (`Sampling.NoRoundsStoreZero`).
- An entry is the shortest round divided by 200 and rounded down. It can be 0
  even though every round was measured: an entry is positive only when the
  pair's shortest round took at least 200 ns.
- The sentinel test `rtt == -1` cannot tell "no sample yet" from a round that
  lasted exactly -1 ns (`Sampling.SentinelDurationIsForgotten`). The running
  minimum is the true minimum only over durations other than -1. A monotonic
  clock never yields a negative duration, so this does not arise in practice.
- With `-t` and an odd CPU count of three or more, the remap is not a
  permutation. The middle
  slot is shown twice and the last CPU is never shown
  (`Display.SmtSlotOddCount`).

## Model

| member | source | states |
|---|---|---|
| `CInt.TruncDiv` | icl.c:252-253 | The quotient is truncated toward zero, as C's signed `/` is: for a non-negative dividend it is rounded down, for a negative one rounded up |
| `CpuEnum.SetBitsAscending` | icl.c:159-165 | The scan of the first `n` bits lists exactly the CPUs the mask names below `n`, in strictly ascending order |
| `CpuEnum.SetBitsCount` | icl.c:159-165 | The scan lists as many CPUs as the mask names (`ncpus` equals the number of set bits) |
| `CpuEnum.EnumerateCpus` | icl.c:157-165 | After the loop, `cpus` is strictly ascending and contains a CPU iff its bit is set; `ncpus` is the length of `cpus` and the number of set bits |
| `Sampling.RunningMinIsMinimum` | icl.c:215-217 | Over one or more durations, none equal to -1, the running minimum is one of the durations and no larger than any of them |
| `Sampling.SentinelDurationIsForgotten` | icl.c:182-217 | A first round lasting exactly -1 is overwritten by the next round: the running minimum of `[-1, 5]` is 5 |
| `Sampling.MinRoundTrip` | icl.c:198-248 | The sample loop leaves `rtt == -1` when `nsamples <= 0`. Otherwise `rtt` is the running minimum of the first `nsamples` durations, and when none of them is -1 it is their minimum |
| `Sampling.Latency` | icl.c:252-253 | `rtt / 2 / 100` in C arithmetic: for `rtt >= 0` it is `rtt` divided by 200, rounded down; the sentinel -1 (any value above -200) gives 0 |
| `Sampling.LatencyMonotonic` | icl.c:252-253 | A longer round trip never gives a smaller stored latency |
| `Sampling.NoRoundsStoreZero` | icl.c:182-253 | With no rounds, `rtt` keeps the sentinel and the stored value is 0 |
| `Sampling.PairLatencyBounds` | icl.c:212-253 | With at least one round and non-negative durations, the stored value is non-negative, is the latency of one of the rounds, and is at most every round's latency and every duration divided by 200 |
| `PairMatrix.Cell` | icl.c:252-253 | The flat index `p * ncpus + q` of an in-range row and column lies inside the `ncpus * ncpus` array |
| `PairMatrix.CellInjective` | icl.c:252-253 | Two different (row, column) positions never share a flat index |
| `PairMatrix.CellOnto` | icl.c:167 | Every index of the array is the cell of row `k / ncpus`, column `k % ncpus` |
| `PairMatrix.EntryBounds` | icl.c:212-253 | With non-negative durations, every entry is non-negative and an off-diagonal entry times 200 is at most each of its pair's durations; with no rounds every entry is 0 |
| `PairMatrix.ScheduleVisitsEachPairOnce` | icl.c:169-170 | The nested loops visit exactly the pairs `p < q < ncpus`, each once |
| `PairMatrix.StorePair` | icl.c:252-253 | The new array is the old one with both cells of the pair set to the value; no other index of `data` changes |
| `PairMatrix.MeasurePair` | icl.c:171-253 | One inner iteration (sample loop, then the two stores) turns "every pair before `(i, j)` is filled, the rest is zero" into the same statement for the next pair |
| `PairMatrix.MeasureRow` | icl.c:170-254 | The inner loop fills row `i`'s pairs, leaving the later pairs at zero, and logs the pairs `(i, i+1) .. (i, ncpus-1)` in that order |
| `PairMatrix.StoreAdvances` | icl.c:252-253 | Storing pair `(i, j)` turns "every pair before `(i, j)` is filled, the rest is zero" into the same statement for the next pair |
| `PairMatrix.RowAdvances` | icl.c:169-170 | Finishing row `i` of the inner loop is the same state as starting row `i + 1` |
| `PairMatrix.BuildMatrix` | icl.c:167-255 | The fresh `ncpus * ncpus` array holds each pair's stored latency. It is symmetric with a zero diagonal (the `calloc` zero that no iteration writes), and the pairs are measured in the order the loops visit them |
| `Display.SmtSlot` | icl.c:272-280 | `(k >> 1) + (k & 1) * ncpus / 2` always lies in `[0, ncpus)` |
| `Display.DisplaySlot` | icl.c:272-280 | The shown slot is in range, and without `-t` it is the position itself |
| `Display.SmtSource` | icl.c:272-280 | For an even count, the position that a slot comes from lies in range |
| `Display.SmtSlotRoundTrip` | icl.c:272-280 | For an even count, `SmtSource` recovers the position from its slot |
| `Display.SmtSourceRoundTrip` | icl.c:272-280 | For an even count, the slot of `SmtSource(c)` is `c` |
| `Display.SmtSlotPermutes` | icl.c:272-280 | For an even count, the remap is injective and the slots shown are exactly `0..ncpus-1` |
| `Display.SmtSlotOddCount` | icl.c:272-280 | For an odd count of at least 3, positions 1 and `ncpus - 1` share slot `ncpus / 2`, and slot `ncpus - 1` is never shown |
| `Display.LastIndexOf` | icl.c:281-287 | The index the lookup settles on holds the sought id, and no later index holds it; -1 when the id is absent |
| `Display.LastIndexOfDistinct` | icl.c:281-287 | Over distinct ids, looking up the id at position `c` gives `c` |
| `Display.LookupIndices` | icl.c:281-287 | The loop sets `idx0` and `idx1` to in-range indices holding `cpus[c0]` and `cpus[c1]`; over distinct ids they are `c0` and `c1` |
| `Display.ShownIndex` | icl.c:277-288 | The matrix index used for a display position holds the CPU id of that position's slot |
| `Display.HeaderPermutes` | icl.c:271-274 | Over distinct CPUs, without `-t` or with an even count, the header shows every CPU exactly once |
| `Display.RenderRow` | icl.c:278-289 | Row `i` holds, for every column `j`, the matrix value at the looked-up indices of row `i`'s and column `j`'s CPUs |
| `Display.RenderTable` | icl.c:270-291 | The header holds the CPU id of every display slot, and cell `(i, j)` is the matrix value at the looked-up indices of the CPUs shown in row `i` and column `j` |
| `WriteChain.AttemptSemantics` | icl.c:228-234 | A CAS attempt (the foreground's `2n-1 -> 2n`, or the background's `2n -> 2n+1` at lines 84-89) succeeds exactly when `seq1` holds the expected value and then advances that role by one step; a failed attempt leaves the state unchanged |
| `WriteChain.StrictAlternation` | icl.c:228-234 | From the reset on, exactly one role can step at any time until both are done: the foreground when the counts are equal, the background when it is one behind. Each successful step preserves the chain invariant |
| `WriteChain.ResetInv` | icl.c:199-200 | The reset of `seq1` to -1, with neither role having stepped, is a state of the chain invariant, so `StrictAlternation` applies from the first step on |
| `WriteChain.TerminalWait` | icl.c:237-239 | Once the foreground has taken its 100 steps, `seq1 == 199` holds exactly when the background has taken its 100 steps too |
| `WriteChain.WriteRound` | icl.c:199-239 | From the reset, the readiness exchange on `seq2` and 100 alternating steps per role end with `seq1 == 199 == 2 * 100 - 1`, the value the final wait expects, and `seq2 == -1` |
| `Icl.RunIcl` | icl.c:157-291 | `cpus` is the ascending list of set bits. Every table cell is the matrix entry of the CPUs in its row's and column's slots, so the table is symmetric with a zero diagonal. Without `-t`, or with an even count, the header shows each CPU once |

## Left out

- Threads: `pthread_create`, `pthread_join`, the busy-wait loops, atomic memory ordering and the real interleaving of `thread_func` with `main`. Their purpose is timing, so a pair's round durations are an input (`oracle`).
- The read-mode handshake (stores of `n` to `seq1` and `seq2`, lines 72-78 and 203-210). It produces only a duration, which the oracle supplies.
- `clock_gettime`, the 200 ms preheat spin and the duration formula with its `* 1e9` floating-point arithmetic. They depend on wall-clock time.
- `pinThread`, `sched_setaffinity` and `sched_getaffinity`, and their `exit(1)` on failure. These are OS calls; the model assumes they succeed.
- `getopt`, `atoi` and the usage message. These are library calls; `nsamples` and `-t` become parameters of `Icl.RunIcl`. The `-w` flag reaches the skeleton of `main` only through the round durations the oracle supplies (and the plot title, which is left out); `WriteChain` models the `-w` round on its own.
- The `printf` text layout (widths, the `CPU` heading) and the gnuplot script of `-p`/`-n`. This is output only; the model keeps the numbers the table shows and how they are looked up.
- Failures of `realloc`, `calloc` and `free`. The code does not check them; `cpus` is modelled as a growing sequence.
- Fixed-width integers: `ncpus * ncpus` is at most 1024² and fits an `int`; `rtt` and the durations are unbounded integers rather than `long long`.
- `WriteChain.WriteRound`: only the strict alternation is run. The claim that no other interleaving of successful steps is possible is stated separately, by `WriteChain.StrictAlternation`.
- `WriteChain.AttemptSemantics`: the failed CAS's write-back of the observed value into `cmp` is not modelled, because the `do ... while` loop sets `cmp` again before every attempt.
