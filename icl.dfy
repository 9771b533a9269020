/** The sequential skeleton of icl.c's `main`: enumerate the CPUs, build the
    pair matrix from measured round durations, and lay out the table. */
module Icl {
  import opened CpuEnum
  import opened PairMatrix
  import opened Display

  /** `main` after option parsing, with the measurement of each pair given by
      `oracle(a, b)`: the round durations, in order, of the pair whose
      background thread runs on CPU `a` and foreground thread on CPU `b`.
      Every shown cell is the finished matrix entry of the CPUs in its row's
      and column's display slots, so the table is symmetric with zeros on the
      diagonal. */
  method RunIcl(mask: seq<bv64>, nsamples: int, smt: bool, oracle: (int, int) -> seq<int>)
    returns (cpus: seq<int>, header: seq<int>, cells: seq<seq<int>>)
    requires WellSized(mask)
    requires forall a, b :: nsamples <= |oracle(a, b)|
    ensures cpus == SetBits(BitsOf(mask), CpuSetSize) && Ascending(cpus)
    ensures Covers(cpus, nsamples, oracle)
    ensures |header| == |cpus| && |cells| == |cpus|
    ensures forall i :: 0 <= i < |cpus| ==>
      header[i] == cpus[DisplaySlot(smt, i, |cpus|)] && |cells[i]| == |cpus|
    ensures forall i, j :: 0 <= i < |cpus| && 0 <= j < |cpus| ==>
      cells[i][j] == Entry(cpus, nsamples, oracle, DisplaySlot(smt, i, |cpus|), DisplaySlot(smt, j, |cpus|))
    ensures forall i, j :: 0 <= i < |cpus| && 0 <= j < |cpus| ==> cells[i][j] == cells[j][i]
    ensures forall i :: 0 <= i < |cpus| ==> cells[i][i] == 0
    ensures !smt || |cpus| % 2 == 0 ==> Distinct(header) && forall x :: x in header <==> x in cpus
  {
    var ncpus;
    cpus, ncpus := EnumerateCpus(mask);
    var data, order := BuildMatrix(cpus, nsamples, oracle);
    header, cells := RenderTable(cpus, data, smt);
    forall k | 0 <= k < |cpus| ensures ShownIndex(cpus, smt, k) == DisplaySlot(smt, k, |cpus|) {
      LastIndexOfDistinct(cpus, DisplaySlot(smt, k, |cpus|));
    }
    if !smt || |cpus| % 2 == 0 {
      HeaderPermutes(cpus, smt, header);
    }
  }
}
