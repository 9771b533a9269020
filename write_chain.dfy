/** One round of the write-mode handshake (`-w`): the readiness exchange on
    `seq2`, then a chain of compare-and-swap steps on `seq1` in which the
    foreground moves `2n - 1` to `2n` and the background moves `2n` to
    `2n + 1`. The two roles are run here as a strict alternation instead of
    as threads. */
module WriteChain {
  import opened Sampling

  /** The value the foreground waits for after its last step (line 239). */
  const Awaited := 199

  /** The value both cells are reset to before a round (lines 199-200). */
  const Reset := -1

  /** `atomic_compare_exchange_strong(&cell, &expected, desired)`: whether it
      succeeded and the cell's new value. */
  datatype Exchange = Exchange(ok: bool, cell: int)

  function CompareExchange(cell: int, expected: int, desired: int): Exchange
  {
    if cell == expected then Exchange(true, desired) else Exchange(false, cell)
  }

  /** The two cells and how many chain steps each role has completed. */
  datatype Round = Round(seq1: int, seq2: int, fg: nat, bg: nat)

  /** One attempt of the foreground's CAS for its step `n = fg` (lines 230-234). */
  function FgAttempt(r: Round): Round
    requires r.fg < Steps
  {
    var x := CompareExchange(r.seq1, 2 * r.fg - 1, 2 * r.fg);
    if x.ok then r.(seq1 := x.cell, fg := r.fg + 1) else r.(seq1 := x.cell)
  }

  /** One attempt of the background's CAS for its step `n = bg` (lines 86-89). */
  function BgAttempt(r: Round): Round
    requires r.bg < Steps
  {
    var x := CompareExchange(r.seq1, 2 * r.bg, 2 * r.bg + 1);
    if x.ok then r.(seq1 := x.cell, bg := r.bg + 1) else r.(seq1 := x.cell)
  }

  /** The foreground's next CAS would succeed. */
  predicate FgCanStep(r: Round)
  {
    r.fg < Steps && r.seq1 == 2 * r.fg - 1
  }

  /** The background's next CAS would succeed. */
  predicate BgCanStep(r: Round)
  {
    r.bg < Steps && r.seq1 == 2 * r.bg
  }

  /** An attempt succeeds exactly when `seq1` holds the expected value and then
      advances that role by one step; a failed attempt changes nothing, so the
      `do ... while` retry loop only spins. */
  lemma AttemptSemantics(r: Round)
    ensures r.fg < Steps ==>
      FgAttempt(r) == if FgCanStep(r) then Round(2 * r.fg, r.seq2, r.fg + 1, r.bg) else r
    ensures r.bg < Steps ==>
      BgAttempt(r) == if BgCanStep(r) then Round(2 * r.bg + 1, r.seq2, r.fg, r.bg + 1) else r
  {
  }

  /** What holds of the chain from its reset on: `seq1` counts the steps
      taken, and the foreground is never behind the background nor more than
      one step ahead. */
  ghost predicate ChainInv(r: Round)
  {
    r.fg <= Steps && r.bg <= Steps && r.bg <= r.fg <= r.bg + 1 && r.seq1 == r.fg + r.bg - 1
  }

  /** In every state of the chain exactly one role can take its step until
      both have taken all of theirs: the foreground when the counts are
      equal, the background when the foreground is one ahead. So the roles
      strictly alternate, whatever the scheduling, and never deadlock. */
  lemma StrictAlternation(r: Round)
    requires ChainInv(r)
    ensures FgCanStep(r) <==> r.fg == r.bg < Steps
    ensures BgCanStep(r) <==> r.fg == r.bg + 1
    ensures !(FgCanStep(r) && BgCanStep(r))
    ensures FgCanStep(r) || BgCanStep(r) || (r.fg == Steps && r.bg == Steps)
    ensures FgCanStep(r) ==> ChainInv(FgAttempt(r))
    ensures BgCanStep(r) ==> ChainInv(BgAttempt(r))
  {
  }

  /** The reset state, with no step taken, satisfies the chain invariant. */
  lemma ResetInv(s: int)
    ensures ChainInv(Round(Reset, s, 0, 0))
  {
  }

  /** After its own last step the foreground waits for `seq1 == 199`; that
      wait ends exactly when the background has taken all of its steps. */
  lemma TerminalWait(r: Round)
    requires ChainInv(r) && r.fg == Steps
    ensures r.seq1 == Awaited <==> r.bg == Steps
  {
  }

  /** One write-mode round from the reset at lines 199-200 to the end of the
      foreground's final wait, with every wait released and every CAS
      succeeding on its first attempt. */
  method WriteRound() returns (seq1: int, seq2: int)
    ensures seq1 == Awaited == 2 * Steps - 1
    ensures seq2 == Reset
  {
    var r := Round(Reset, Reset, 0, 0);
    // Foreground announces it is ready (lines 220-221).
    r := r.(seq2 := 0);
    // Background's wait for `seq2 == 0` (lines 80-81) is released; it answers (lines 82-83).
    r := r.(seq2 := 1);
    // Foreground's wait while `seq2 == 0` (lines 222-224) is released; it clears `seq2` (lines 225-226).
    r := r.(seq2 := Reset);
    var n := 0;
    while n < Steps
      invariant 0 <= n <= Steps
      invariant r == Round(2 * n - 1, Reset, n, n)
    {
      r := FgAttempt(r);
      assert r.fg == n + 1;
      r := BgAttempt(r);
      assert r.bg == n + 1;
      n := n + 1;
    }
    // The foreground's final wait (lines 237-239) is released.
    TerminalWait(r);
    seq1, seq2 := r.seq1, r.seq2;
  }
}
