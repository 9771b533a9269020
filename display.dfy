/** The index arithmetic of icl.c's table output: the `-t` remap that
    interleaves hardware threads with their cores, the search that turns a
    displayed CPU back into a matrix index, and the values the table shows. */
module Display {
  import opened PairMatrix

  /** The display slot of row or column `k` under `-t`:
      `(k >> 1) + (k & 1) * ncpus / 2`. Both operands are non-negative C
      ints, so `>> 1` is `/ 2`, `& 1` is `% 2`, and C's truncating `/`
      agrees with Dafny's. The slot always names one of the `n` CPUs. */
  function SmtSlot(k: nat, n: nat): (c: nat)
    requires k < n
    ensures c < n
  {
    k / 2 + (k % 2) * n / 2
  }

  /** The slot shown at position `k`, with or without `-t`. */
  function DisplaySlot(smt: bool, k: nat, n: nat): (c: nat)
    requires k < n
    ensures c < n
    ensures !smt ==> c == k
  {
    if smt then SmtSlot(k, n) else k
  }

  /** For an even count, the position whose slot is `c`: the first half of
      the slots come from even positions, the second half from odd ones. */
  function SmtSource(c: nat, n: nat): (k: nat)
    requires n % 2 == 0 && c < n
    ensures k < n
  {
    if c < n / 2 then 2 * c else 2 * (c - n / 2) + 1
  }

  /** For an even count, `SmtSource` undoes `SmtSlot`... */
  lemma SmtSlotRoundTrip(k: nat, n: nat)
    requires n % 2 == 0 && k < n
    ensures SmtSource(SmtSlot(k, n), n) == k
  {
  }

  /** ... and `SmtSlot` undoes `SmtSource`. */
  lemma SmtSourceRoundTrip(c: nat, n: nat)
    requires n % 2 == 0 && c < n
    ensures SmtSlot(SmtSource(c, n), n) == c
  {
  }

  /** The slots that appear on screen under `-t`. */
  ghost function ShownSlots(n: nat): set<int>
  {
    set k | 0 <= k < n :: SmtSlot(k, n)
  }

  /** For an even count the `-t` remap is a permutation of `0..n-1`: no slot
      is shown twice and every slot is shown. */
  lemma SmtSlotPermutes(n: nat)
    requires n % 2 == 0
    ensures forall k1, k2 :: 0 <= k1 < n && 0 <= k2 < n && SmtSlot(k1, n) == SmtSlot(k2, n) ==> k1 == k2
    ensures forall c :: c in ShownSlots(n) <==> 0 <= c < n
  {
    forall k1, k2 | 0 <= k1 < n && 0 <= k2 < n && SmtSlot(k1, n) == SmtSlot(k2, n)
      ensures k1 == k2
    {
      SmtSlotRoundTrip(k1, n);
      SmtSlotRoundTrip(k2, n);
    }
    forall c | 0 <= c < n ensures c in ShownSlots(n) {
      SmtSourceRoundTrip(c, n);
      assert SmtSlot(SmtSource(c, n), n) in ShownSlots(n);
    }
  }

  /** For an odd count of three or more the remap is not a permutation:
      positions 1 and `n - 1` share the middle slot, and the last slot
      `n - 1` is never shown. */
  lemma SmtSlotOddCount(n: nat)
    requires n % 2 == 1 && n >= 3
    ensures SmtSlot(1, n) == SmtSlot(n - 1, n) == n / 2
    ensures forall k :: 0 <= k < n ==> SmtSlot(k, n) != n - 1
  {
  }

  /** No CPU id appears twice. */
  predicate Distinct(s: seq<int>)
  {
    forall a, b :: 0 <= a < b < |s| ==> s[a] != s[b]
  }

  /** The index the lookup loop settles on: the last position holding `x`,
      or -1 when there is none. */
  function LastIndexOf(s: seq<int>, x: int): (r: int)
    ensures x in s ==> 0 <= r < |s| && s[r] == x && forall k :: r < k < |s| ==> s[k] != x
    ensures x !in s ==> r == -1
  {
    if s == [] then -1
    else if s[|s| - 1] == x then |s| - 1
    else LastIndexOf(s[..|s| - 1], x)
  }

  /** Over distinct ids, looking up the id at position `c` gives back `c`. */
  lemma LastIndexOfDistinct(s: seq<int>, c: nat)
    requires Distinct(s) && c < |s|
    ensures LastIndexOf(s, s[c]) == c
  {
  }

  /** The lookup loop of lines 281-287: one pass over `cpus` that records
      where the ids shown in slots `c0` and `c1` occur. */
  method LookupIndices(cpus: seq<int>, c0: nat, c1: nat) returns (idx0: int, idx1: int)
    requires c0 < |cpus| && c1 < |cpus|
    ensures idx0 == LastIndexOf(cpus, cpus[c0]) && idx1 == LastIndexOf(cpus, cpus[c1])
    ensures 0 <= idx0 < |cpus| && cpus[idx0] == cpus[c0]
    ensures 0 <= idx1 < |cpus| && cpus[idx1] == cpus[c1]
    ensures Distinct(cpus) ==> idx0 == c0 && idx1 == c1
  {
    idx0, idx1 := -1, -1;
    var k := 0;
    while k < |cpus|
      invariant 0 <= k <= |cpus|
      invariant idx0 == LastIndexOf(cpus[..k], cpus[c0])
      invariant idx1 == LastIndexOf(cpus[..k], cpus[c1])
    {
      assert cpus[..k + 1][..k] == cpus[..k];
      if cpus[k] == cpus[c0] {
        idx0 := k;
      }
      if cpus[k] == cpus[c1] {
        idx1 := k;
      }
      k := k + 1;
    }
    assert cpus[..k] == cpus;
    if Distinct(cpus) {
      LastIndexOfDistinct(cpus, c0);
      LastIndexOfDistinct(cpus, c1);
    }
  }

  /** The matrix index the table uses for display position `k`. */
  function ShownIndex(cpus: seq<int>, smt: bool, k: nat): (r: nat)
    requires k < |cpus|
    ensures r < |cpus| && cpus[r] == cpus[DisplaySlot(smt, k, |cpus|)]
  {
    LastIndexOf(cpus, cpus[DisplaySlot(smt, k, |cpus|)])
  }

  /** Without `-t`, or with it over an even count of distinct CPUs, the
      header shows every CPU exactly once. */
  lemma HeaderPermutes(cpus: seq<int>, smt: bool, header: seq<int>)
    requires Distinct(cpus) && (!smt || |cpus| % 2 == 0)
    requires |header| == |cpus|
    requires forall i :: 0 <= i < |cpus| ==> header[i] == cpus[DisplaySlot(smt, i, |cpus|)]
    ensures Distinct(header)
    ensures forall x :: x in header <==> x in cpus
  {
    var n := |cpus|;
    if smt {
      SmtSlotPermutes(n);
    }
    forall a, b | 0 <= a < b < n ensures header[a] != header[b] {
      assert DisplaySlot(smt, a, n) != DisplaySlot(smt, b, n);
    }
    forall x | x in cpus ensures x in header {
      var c :| 0 <= c < n && cpus[c] == x;
      var k := c;
      if smt {
        k := SmtSource(c, n);
        SmtSourceRoundTrip(c, n);
      }
      assert header[k] == x;
    }
  }

  /** `row` is what the table prints after the label of display position `i`. */
  ghost predicate ShowsRow(cpus: seq<int>, data: array<int>, smt: bool, i: nat, row: seq<int>)
    requires data.Length == |cpus| * |cpus| && i < |cpus|
    reads data
  {
    |row| == |cpus| &&
    forall j :: 0 <= j < |cpus| ==>
      row[j] == data[Cell(|cpus|, ShownIndex(cpus, smt, i), ShownIndex(cpus, smt, j))]
  }

  /** One data row of the table (lines 278-289): for every column, the
      matrix value at the looked-up indices of the row's and the column's CPU. */
  method RenderRow(cpus: seq<int>, data: array<int>, smt: bool, i: nat) returns (row: seq<int>)
    requires data.Length == |cpus| * |cpus| && i < |cpus|
    ensures ShowsRow(cpus, data, smt, i, row)
  {
    var n := |cpus|;
    var c0 := DisplaySlot(smt, i, n);
    row := [];
    var j := 0;
    while j < n
      invariant 0 <= j <= n && |row| == j
      invariant forall r :: 0 <= r < j ==>
        row[r] == data[Cell(n, ShownIndex(cpus, smt, i), ShownIndex(cpus, smt, r))]
    {
      var c1 := DisplaySlot(smt, j, n);
      var idx0, idx1 := LookupIndices(cpus, c0, c1);
      row := row + [data[Cell(n, idx0, idx1)]];
      j := j + 1;
    }
  }

  /** The numbers of the text table (lines 270-291): the header holds the
      CPU id of every display position, which also labels that position's
      row, and `cells[i][j]` is the matrix value printed in row `i`,
      column `j`. */
  method RenderTable(cpus: seq<int>, data: array<int>, smt: bool)
    returns (header: seq<int>, cells: seq<seq<int>>)
    requires data.Length == |cpus| * |cpus|
    ensures |header| == |cpus|
    ensures forall i :: 0 <= i < |cpus| ==> header[i] == cpus[DisplaySlot(smt, i, |cpus|)]
    ensures |cells| == |cpus|
    ensures forall i :: 0 <= i < |cpus| ==> |cells[i]| == |cpus|
    ensures forall i, j :: 0 <= i < |cpus| && 0 <= j < |cpus| ==>
      cells[i][j] == data[Cell(|cpus|, ShownIndex(cpus, smt, i), ShownIndex(cpus, smt, j))]
  {
    var n := |cpus|;
    header := [];
    var i := 0;
    while i < n
      invariant 0 <= i <= n && |header| == i
      invariant forall r :: 0 <= r < i ==> header[r] == cpus[DisplaySlot(smt, r, n)]
    {
      var c0 := DisplaySlot(smt, i, n);
      header := header + [cpus[c0]];
      i := i + 1;
    }
    cells := [];
    i := 0;
    while i < n
      invariant 0 <= i <= n && |cells| == i
      invariant forall r :: 0 <= r < i ==> ShowsRow(cpus, data, smt, r, cells[r])
    {
      var row := RenderRow(cpus, data, smt, i);
      cells := cells + [row];
      i := i + 1;
    }
  }
}
