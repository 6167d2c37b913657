/** The busy-wait delay shared by the three programs (`delay`, and `delay_core1`
    on the second core): a 32-bit counter runs from zero up to
    `millisec * 2398`, one `nop` per turn. The product is taken in 32-bit
    unsigned arithmetic, so it wraps. */
module Timing {
  import opened AtomicAccess
  import opened Registers

  /** Loop turns per millisecond at the 12 MHz crystal clock. */
  const LOOPS_PER_MS: nat := 2398
  const WORD_RANGE: nat := 0x1_0000_0000

  /** The loop bound `millisec * 2398` as the 32-bit multiply computes it. */
  function Iterations(ms: Word): (n: nat)
    ensures n < WORD_RANGE
    ensures n == ms as int * LOOPS_PER_MS || ms as int * LOOPS_PER_MS >= WORD_RANGE
  {
    (ms as int * LOOPS_PER_MS) % WORD_RANGE
  }

  /** The largest delay whose loop bound does not wrap. */
  const MAX_EXACT_MS: nat := (WORD_RANGE - 1) / LOOPS_PER_MS

  /** Up to about 29.8 minutes the delay runs the full count; one millisecond
      more and the bound wraps below the count asked for. */
  lemma IterationsExact(ms: Word)
    ensures ms as int <= MAX_EXACT_MS <==> Iterations(ms) == ms as int * LOOPS_PER_MS
  {
    if ms as int > MAX_EXACT_MS {
      assert ms as int * LOOPS_PER_MS >= (MAX_EXACT_MS + 1) * LOOPS_PER_MS >= WORD_RANGE;
    }
  }

  /** The delays the programs ask for are all below the wrap. */
  lemma ProgramDelaysExact()
    ensures Iterations(1) == 2398 && Iterations(5) == 11990 && Iterations(50) == 119900
    ensures Iterations(100) == 239800 && Iterations(200) == 479600
    ensures Iterations(400) == 959200 && Iterations(1000) == 2398000
  {
    IterationsExact(1);
    IterationsExact(5);
    IterationsExact(50);
    IterationsExact(100);
    IterationsExact(200);
    IterationsExact(400);
    IterationsExact(1000);
  }

  lemma NopsSnoc(n: nat)
    ensures Nops(n) + [Nop] == Nops(n + 1)
  {
    assert Nops(n) + [Nop] == Nops(n + 1);
  }

  /** A run of `nop`s stores nothing and counts its length in `nop`s. */
  lemma {:induction false} NopsEvents(n: nat, a: Addr)
    ensures WritesTo(Nops(n), a) == [] && StoresIn(Nops(n)) == [] && Count(Nops(n), Nop) == n
    decreases n
  {
    if n > 0 {
      assert Nops(n)[..n - 1] == Nops(n - 1);
      NopsEvents(n - 1, a);
    }
  }

  /** `delay(millisec)`: exactly Iterations(millisec) `nop`s and nothing else. */
  method Delay(rf: RegisterFile, millisec: Word)
    modifies rf`trace
    ensures rf.trace == old(rf.trace) + Nops(Iterations(millisec))
  {
    var bound := Iterations(millisec);
    var i := 0;
    while i < bound
      invariant 0 <= i <= bound
      invariant rf.trace == old(rf.trace) + Nops(i)
    {
      rf.NoOperation();
      NopsSnoc(i);
      i := i + 1;
    }
  }
}
