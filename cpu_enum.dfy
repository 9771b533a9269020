/** Enumeration of the CPUs in the process's affinity mask (the loop that
    fills `cpus` and `ncpus` in icl.c's `main`). */
module CpuEnum {

  /** glibc's `CPU_SETSIZE`: the number of CPUs a `cpu_set_t` can name. */
  const CpuSetSize := 1024

  /** Bits per word of a `cpu_set_t` (an `unsigned long` on LP64). */
  const BitsPerWord := 64

  /** Words in a `cpu_set_t`. */
  const CpuSetWords := CpuSetSize / BitsPerWord

  /** A `cpu_set_t` as its array of words. */
  predicate WellSized(mask: seq<bv64>)
  {
    |mask| == CpuSetWords
  }

  /** glibc's `CPU_ISSET(cpu, &set)`: bit `cpu % 64` of word `cpu / 64`. */
  predicate CpuIsSet(mask: seq<bv64>, cpu: nat)
    requires WellSized(mask) && cpu < CpuSetSize
  {
    mask[cpu / BitsPerWord] & (1 << (cpu % BitsPerWord)) != 0
  }

  /** The mask as one flag per CPU. */
  function BitsOf(mask: seq<bv64>): (bits: seq<bool>)
    requires WellSized(mask)
    ensures |bits| == CpuSetSize
    ensures forall c :: 0 <= c < CpuSetSize ==> bits[c] == CpuIsSet(mask, c)
  {
    seq(CpuSetSize, c requires 0 <= c < CpuSetSize => CpuIsSet(mask, c))
  }

  /** The CPUs below `n` whose flag is set, as a set. */
  ghost function MaskCpus(bits: seq<bool>, n: nat): set<int>
    requires n <= |bits|
  {
    set c | 0 <= c < n && bits[c]
  }

  /** Strictly increasing, hence free of repetitions. */
  predicate Ascending(s: seq<int>)
  {
    forall a, b :: 0 <= a < b < |s| ==> s[a] < s[b]
  }

  /** `cpus` after the enumeration loop has scanned the flags below `n`. */
  function SetBits(bits: seq<bool>, n: nat): seq<int>
    requires n <= |bits|
  {
    if n == 0 then []
    else SetBits(bits, n - 1) + (if bits[n - 1] then [n - 1] else [])
  }

  /** The scan lists exactly the CPUs whose flag is set, in increasing order. */
  lemma {:induction false} SetBitsAscending(bits: seq<bool>, n: nat)
    requires n <= |bits|
    ensures Ascending(SetBits(bits, n))
    ensures forall c :: c in SetBits(bits, n) <==> 0 <= c < n && bits[c]
  {
    if n > 0 {
      SetBitsAscending(bits, n - 1);
      var front := SetBits(bits, n - 1);
      if bits[n - 1] {
        var s := front + [n - 1];
        forall a, b | 0 <= a < b < |s| ensures s[a] < s[b] {
          if b == |front| {
            assert s[a] == front[a] && front[a] in front;
          }
        }
      }
    }
  }

  /** The scan lists as many CPUs as there are set flags (`CPU_COUNT`). */
  lemma {:induction false} SetBitsCount(bits: seq<bool>, n: nat)
    requires n <= |bits|
    ensures |SetBits(bits, n)| == |MaskCpus(bits, n)|
  {
    if n == 0 {
      assert MaskCpus(bits, 0) == {};
    } else {
      SetBitsCount(bits, n - 1);
      var last := if bits[n - 1] then {n - 1} else {};
      assert MaskCpus(bits, n) == MaskCpus(bits, n - 1) + last;
      assert n - 1 !in MaskCpus(bits, n - 1);
    }
  }

  /** The enumeration loop: scan all `CPU_SETSIZE` bits and append the index
      of every set bit to `cpus`, counting them in `ncpus`. */
  method EnumerateCpus(mask: seq<bv64>) returns (cpus: seq<int>, ncpus: nat)
    requires WellSized(mask)
    ensures ncpus == |cpus| && cpus == SetBits(BitsOf(mask), CpuSetSize)
    ensures Ascending(cpus)
    ensures forall c :: c in cpus <==> 0 <= c < CpuSetSize && CpuIsSet(mask, c)
    ensures ncpus == |MaskCpus(BitsOf(mask), CpuSetSize)|
  {
    ghost var bits := BitsOf(mask);
    cpus, ncpus := [], 0;
    var i := 0;
    while i < CpuSetSize
      invariant 0 <= i <= CpuSetSize
      invariant cpus == SetBits(bits, i) && ncpus == |cpus|
    {
      if CpuIsSet(mask, i) {
        ncpus := ncpus + 1;
        cpus := cpus + [i];
      }
      i := i + 1;
    }
    SetBitsAscending(bits, CpuSetSize);
    SetBitsCount(bits, CpuSetSize);
  }
}
