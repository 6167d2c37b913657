/** 01_BlinkLED: start the crystal oscillator, run the system clock from it,
    hand GPIO25 to SIO as an output, then toggle the LED every 50 ms.

    The oscillator wait of this program is written `while (!(x) & (1 << 31))`:
    `!` binds tighter than `&`, so the guard is (0 or 1) & 0x8000_0000, which
    is 0 whatever the status word. ConfigDeviceAsWritten models the routine
    as written (one load of the status, no wait), and RunMain builds on it;
    ConfigDevice models it as the other two programs write the same wait,
    and RunMainIntended builds on that. */
module BlinkLed {
  import opened AtomicAccess
  import opened Registers
  import opened Sequencer
  import opened DeviceConfig
  import opened Timing

  /** The guard of the oscillator wait as written: C's `!` gives the int 1
      for a zero status and 0 otherwise, and that is masked with bit 31. */
  function WaitGuardAsWritten(x: Word): bool {
    ((if x == 0 then 1 else 0) as Word) & XOSC_STABLE != 0
  }

  /** The guard evidently intended, `!(x & (1 << 31))`: the oscillator is not
      stable yet. */
  function WaitGuardIntended(x: Word): bool {
    x & XOSC_STABLE == 0
  }

  /** The written guard never holds, so the loop body never runs and the
      status is loaded exactly once. */
  lemma GuardAsWrittenNeverHolds(x: Word)
    ensures !WaitGuardAsWritten(x)
  {
    var b: Word := if x == 0 then 1 else 0;
    assert b & XOSC_STABLE == 0 by {
      assert b == 0 || b == 1;
    }
  }

  /** The intended guard keeps waiting exactly while a load misses the bit
      the table's AwaitSet step waits for; at status 0 (oscillator not yet
      stable) the written loop goes on and the intended one keeps waiting. */
  lemma GuardDiscrepancy(x: Word)
    ensures WaitGuardIntended(x) <==> !Hit(x, XOSC_STABLE, true)
    ensures x == 0 ==> WaitGuardIntended(x) && !WaitGuardAsWritten(x)
  {
    GuardAsWrittenNeverHolds(x);
  }

  /** The loads of the written `configDevice`, laid out by the steps of
      CONFIG_BLINK: none for the stores and the one status load for the wait. */
  function AsWrittenPolls(status: Word): (polls: seq<seq<Word>>)
    ensures |polls| == |CONFIG_BLINK|
  {
    [[], [], [], [status], [], [], [], []]
  }

  /** `configDevice` as written: the three oscillator stores, one load of
      XOSC STATUS (the loop ends at its first test, its guard being false),
      then the four stores that route GPIO25. Its effect is that of the table
      CONFIG_BLINK with that one load standing for the wait, whatever the
      oscillator reports. */
  method ConfigDeviceAsWritten(rf: RegisterFile) returns (ghost status: Word)
    modifies rf
    ensures status == old(rf.Peek(XOSC_STATUS))
    ensures rf.Snapshot() == RunEffect(old(rf.Snapshot()), CONFIG_BLINK, AsWrittenPolls(status))
    ensures rf.inbox == old(rf.inbox) && rf.outbox == old(rf.outbox) && rf.peer == old(rf.peer)
  {
    SegmentsValid();
    StoreTables();
    ghost var v0 := rf.Snapshot();
    var ok1, p1 := Run(rf, XOSC_START[..3]);
    if !ok1 {
      assert false;
    }
    StoresOnlyPolls(XOSC_START[..3], p1);
    assert XOSC_START[..3][..|p1|] == XOSC_START[..3];
    EnableKeepsStatus(v0.regs, v0.hw, p1);
    ghost var v1 := rf.Snapshot();
    assert rf.Peek(XOSC_STATUS) == old(rf.Peek(XOSC_STATUS));
    var x := rf.Get32(0x4004_8000 + 4);
    status := x;
    GuardAsWrittenNeverHolds(x);
    WaitOnce(v1, x);
    var ok2, p2 := Run(rf, BLINK_REST);
    if !ok2 {
      assert false;
    }
    StoresOnlyPolls(BLINK_REST, p2);
    assert BLINK_REST[..|p2|] == BLINK_REST;
    AsWrittenJoin(v0, p1, x, p2);
  }

  /** The parts of the written routine around the status load are tables of
      stores only. */
  lemma StoreTables()
    ensures forall i :: 0 <= i < |XOSC_START[..3]| ==> XOSC_START[..3][i].Put?
    ensures forall i :: 0 <= i < |BLINK_REST| ==> BLINK_REST[i].Put?
  {}

  /** A completed run of a table of stores loads nothing. */
  lemma StoresOnlyPolls(prog: seq<Step>, polls: seq<seq<Word>>)
    requires Completed(prog, polls)
    requires forall i :: 0 <= i < |prog| ==> prog[i].Put?
    ensures polls == seq(|prog|, _ => [])
  {}

  /** A wait step whose single load returned `x`: one load event, one
      scripted value used. */
  lemma WaitOnce(v: View, x: Word)
    ensures RunEffect(v, [AwaitSet(XOSC_STATUS, XOSC_STABLE)], [[x]]) ==
            View(v.regs, Drop(v.hw, XOSC_STATUS, 1), v.trace + [Read(XOSC_STATUS, x)])
  {
    var wait, polls := [AwaitSet(XOSC_STATUS, XOSC_STABLE)], [[x]];
    assert wait[..0] == [] && polls[..0] == [];
    assert RegsAfter(v.regs, wait) == v.regs;
    assert Consumed(v.hw, wait, polls) == Drop(v.hw, XOSC_STATUS, 1);
    assert ProgTrace(wait, polls) == Reads(XOSC_STATUS, [x]);
    assert Reads(XOSC_STATUS, [x]) == [Read(XOSC_STATUS, x)];
  }

  /** The three oscillator stores leave the status register and its load
      script as they were. */
  lemma EnableKeepsStatus(regs: map<Addr, Word>, hw: map<Addr, seq<Word>>, polls: seq<seq<Word>>)
    requires polls == seq(3, _ => [])
    ensures Consumed(hw, XOSC_START[..3], polls) == hw
    ensures Reg(RegsAfter(regs, XOSC_START[..3]), XOSC_STATUS) == Reg(regs, XOSC_STATUS)
  {
    var p := XOSC_START[..3];
    assert p[..2][..1][..0] == [] && polls[..2][..1][..0] == [];
    assert Consumed(hw, p[..2][..1], polls[..2][..1]) == hw;
    assert Consumed(hw, p[..2], polls[..2]) == hw;
    assert XOSC_START[..4][..3] == p && XOSC_START[..4] == XOSC_START;
    assert RegsAfter(regs, XOSC_START) == RegsAfter(regs, p);
    SegmentsValid();
    RegsAfterTouching(regs, XOSC_START, XOSC_STATUS);
    XoscHits(XOSC_STATUS);
  }

  /** The three parts of the written routine joined make CONFIG_BLINK with
      the wait's loads replaced by the one status load. */
  lemma AsWrittenJoin(v0: View, p1: seq<seq<Word>>, x: Word, p2: seq<seq<Word>>)
    requires p1 == seq(3, _ => []) && p2 == seq(4, _ => [])
    ensures RunEffect(RunEffect(RunEffect(v0, XOSC_START[..3], p1), [AwaitSet(XOSC_STATUS, XOSC_STABLE)], [[x]]), BLINK_REST, p2) ==
            RunEffect(v0, CONFIG_BLINK, AsWrittenPolls(x))
  {
    var wait := [AwaitSet(XOSC_STATUS, XOSC_STABLE)];
    RunEffectAppend(v0, XOSC_START[..3], wait, p1, [[x]]);
    RunEffectAppend(v0, XOSC_START[..3] + wait, BLINK_REST, p1 + [[x]], p2);
    assert XOSC_START[..3] + wait + BLINK_REST == CONFIG_BLINK;
    assert p1 + [[x]] + p2 == AsWrittenPolls(x);
  }

  /** The written routine runs to its end as the intended one would exactly
      when the one status load already shows the oscillator stable. */
  lemma AsWrittenCompletes(status: Word)
    ensures Completed(CONFIG_BLINK, AsWrittenPolls(status)) <==> Hit(status, XOSC_STABLE, true)
  {
    var polls := AsWrittenPolls(status);
    assert StepDone(CONFIG_BLINK[3], polls[3]) <==> Hit(status, XOSC_STABLE, true) by {
      assert polls[3] == [status] && polls[3][..0] == [];
    }
    if Hit(status, XOSC_STABLE, true) {
      forall i | 0 <= i < |CONFIG_BLINK|
        ensures StepDone(CONFIG_BLINK[i], polls[i])
      {
        if i != 3 {
          assert CONFIG_BLINK[i].Put? && polls[i] == [];
        }
      }
    }
  }

  /** The discrepancy: with the oscillator not yet stable (status 0) the
      written routine goes on to the clock switch and the GPIO stores, leaving
      the oscillator wait unfinished. */
  lemma AsWrittenSkipsWait()
    ensures !Completed(CONFIG_BLINK, AsWrittenPolls(0))
    ensures !Hit(0, XOSC_STABLE, true) && !WaitGuardAsWritten(0)
  {
    AsWrittenCompletes(0);
    GuardAsWrittenNeverHolds(0);
  }

  /** The seven stores of this program's `configDevice`, as bus addresses. */
  const BLINK_STORES: seq<Store> := [
    Store(0x4004_8000, 0xaa0), Store(0x4004_800c, 0xc4), Store(0x4004_a000, 0xfa_b000),
    Store(0x4001_003c, 0), Store(0x4002_80cc, 5), Store(0xd000_2038, LED_BIT), Store(0x4003_b068, PAD_ISO)
  ]

  lemma StoresOfPrefix(p: seq<Step>, k: nat)
    requires 0 < k <= |p|
    ensures StoresOf(p[..k]) == StoresOf(p[..k - 1]) +
              (if p[k - 1].Put? then [Store(BusAddr(p[k - 1].reg, p[k - 1].window), p[k - 1].value)] else [])
  {
    assert p[..k][..k - 1] == p[..k - 1];
  }

  lemma XoscStores()
    ensures StoresOf(XOSC_START) == BLINK_STORES[..3]
  {
    var p := XOSC_START;
    assert p[..4] == p && p[..0] == [];
    StoresOfPrefix(p, 4);
    StoresOfPrefix(p, 3);
    StoresOfPrefix(p, 2);
    StoresOfPrefix(p, 1);
    assert BusAddr(XOSC_CTRL, Set) == 0x4004_a000;
  }

  lemma BlinkRestStores()
    ensures StoresOf(BLINK_REST) == BLINK_STORES[3..]
  {
    var p := BLINK_REST;
    assert p[..4] == p && p[..0] == [];
    StoresOfPrefix(p, 4);
    StoresOfPrefix(p, 3);
    StoresOfPrefix(p, 2);
    StoresOfPrefix(p, 1);
    assert BusAddr(PADS_GPIO25, Clear) == 0x4003_b068;
    assert BusAddr(SIO_GPIO_OE, Set) == 0xd000_2038;
  }

  /** The stores of two tables run one after the other. */
  lemma {:induction false} StoresOfAppend(p: seq<Step>, q: seq<Step>)
    ensures StoresOf(p + q) == StoresOf(p) + StoresOf(q)
    decreases |q|
  {
    if q == [] {
      assert p + q == p;
    } else {
      var n := |q| - 1;
      assert (p + q)[..|p + q| - 1] == p + q[..n];
      StoresOfAppend(p, q[..n]);
    }
  }

  lemma BlinkStoresOf()
    ensures StoresOf(CONFIG_BLINK) == BLINK_STORES
  {
    StoresOfAppend(XOSC_START, BLINK_REST);
    XoscStores();
    BlinkRestStores();
    assert BLINK_STORES[..3] + BLINK_STORES[3..] == BLINK_STORES;
  }

  /** Whatever its loads return, a run of CONFIG_BLINK through its end, the
      written routine's included, stores exactly BLINK_STORES in that order. */
  lemma BlinkStoresInOrder(polls: seq<seq<Word>>)
    requires |polls| == |CONFIG_BLINK|
    ensures StoresIn(ProgTrace(CONFIG_BLINK, polls)) == BLINK_STORES
  {
    StoresOfTrace(CONFIG_BLINK, polls);
    BlinkStoresOf();
  }

  /** `configDevice` with the oscillator wait as intended: the table
      CONFIG_BLINK. `ok` is false when the oscillator never reports stable. */
  method ConfigDevice(rf: RegisterFile) returns (ok: bool, ghost polls: seq<seq<Word>>)
    modifies rf
    ensures rf.inbox == old(rf.inbox) && rf.outbox == old(rf.outbox) && rf.peer == old(rf.peer)
    ensures |polls| <= |CONFIG_BLINK|
    ensures rf.Snapshot() == RunEffect(old(rf.Snapshot()), CONFIG_BLINK[..|polls|], polls)
    ensures ok <==> Completed(CONFIG_BLINK, polls)
    ensures !ok ==> |polls| == 4 && HungRun(old(rf.Snapshot()), CONFIG_BLINK, polls)
  {
    TablesValid();
    ok, polls := Run(rf, CONFIG_BLINK);
    if !ok {
      OnlyWait(|polls| - 1);
      HungNotCompleted(old(rf.Snapshot()), CONFIG_BLINK, polls);
    }
  }

  /** The oscillator wait is the one wait of CONFIG_BLINK, at step 3. */
  lemma OnlyWait(k: nat)
    requires k < |CONFIG_BLINK| && CONFIG_BLINK[k].AwaitSet?
    ensures k == 3
  {}

  /** One turn of `main`'s endless loop: the toggle store, then `delay(50)`. */
  function BlinkTurn(): seq<Event> {
    [Write(LED_TOGGLE, LED_BIT)] + Nops(Iterations(50))
  }

  /** `n` turns of `main`'s loop. */
  function BlinkTurns(n: nat): seq<Event> {
    if n == 0 then [] else BlinkTurns(n - 1) + BlinkTurn()
  }

  /** One turn of `main`'s loop. */
  method BlinkPass(rf: RegisterFile)
    modifies rf
    ensures rf.trace == old(rf.trace) + BlinkTurn()
    ensures rf.regs == ApplyStore(old(rf.regs), Store(LED_TOGGLE, LED_BIT))
    ensures rf.hw == old(rf.hw) && rf.inbox == old(rf.inbox) && rf.outbox == old(rf.outbox) && rf.peer == old(rf.peer)
  {
    rf.Put32(0xd000_0000 + Offset(Set) as Addr + 0x028, 1 << 25);
    Delay(rf, 50);
  }

  /** `main` as written: `configDevice` as written, then the first `passes`
      turns of the endless loop. It always reaches the loop, whatever the
      oscillator reports. */
  method RunMain(rf: RegisterFile, passes: nat) returns (ghost status: Word)
    modifies rf
    ensures status == old(rf.Peek(XOSC_STATUS))
    ensures rf.inbox == old(rf.inbox) && rf.outbox == old(rf.outbox) && rf.peer == old(rf.peer)
    ensures rf.trace == old(rf.trace) + ProgTrace(CONFIG_BLINK, AsWrittenPolls(status)) + BlinkTurns(passes)
  {
    status := ConfigDeviceAsWritten(rf);
    BlinkLoop(rf, passes);
  }

  /** `main` with the oscillator wait as intended: `configDevice`, then the
      first `passes` turns of the endless loop. Nothing after a hung
      `configDevice` runs. */
  method RunMainIntended(rf: RegisterFile, passes: nat) returns (ok: bool, ghost polls: seq<seq<Word>>)
    modifies rf
    ensures rf.inbox == old(rf.inbox) && rf.outbox == old(rf.outbox) && rf.peer == old(rf.peer)
    ensures |polls| <= |CONFIG_BLINK|
    ensures ok <==> Completed(CONFIG_BLINK, polls)
    ensures ok ==> rf.trace == old(rf.trace) + ProgTrace(CONFIG_BLINK, polls) + BlinkTurns(passes)
    ensures !ok ==> HungRun(old(rf.Snapshot()), CONFIG_BLINK, polls) &&
                    rf.Snapshot() == RunEffect(old(rf.Snapshot()), CONFIG_BLINK[..|polls|], polls)
  {
    ok, polls := ConfigDevice(rf);
    if !ok {
      return;
    }
    assert CONFIG_BLINK[..|polls|] == CONFIG_BLINK;
    BlinkLoop(rf, passes);
  }

  /** The first `passes` turns of `main`'s endless loop. */
  method BlinkLoop(rf: RegisterFile, passes: nat)
    modifies rf
    ensures rf.inbox == old(rf.inbox) && rf.outbox == old(rf.outbox) && rf.peer == old(rf.peer)
    ensures rf.trace == old(rf.trace) + BlinkTurns(passes)
  {
    var n := 0;
    while n < passes
      invariant 0 <= n <= passes
      invariant rf.inbox == old(rf.inbox) && rf.outbox == old(rf.outbox) && rf.peer == old(rf.peer)
      invariant rf.trace == old(rf.trace) + BlinkTurns(n)
    {
      BlinkPass(rf);
      n := n + 1;
    }
  }

  /** Every turn stores 1 << 25 to the toggle address once and runs
      Iterations(50) = 119900 `nop`s: `n` turns make n such stores, and no
      other store. */
  lemma {:induction false} BlinkTurnsEvents(n: nat)
    ensures WritesTo(BlinkTurns(n), LED_TOGGLE) == seq(n, _ => LED_BIT)
    ensures |StoresIn(BlinkTurns(n))| == n
    ensures Count(BlinkTurns(n), Nop) == n * 119900
  {
    if n > 0 {
      BlinkTurnsEvents(n - 1);
      BlinkTurnEvents();
      WritesToAppend(BlinkTurns(n - 1), BlinkTurn(), LED_TOGGLE);
      StoresInAppend(BlinkTurns(n - 1), BlinkTurn());
      CountAppend(BlinkTurns(n - 1), BlinkTurn(), Nop);
      assert seq(n, _ => LED_BIT) == seq(n - 1, _ => LED_BIT) + [LED_BIT];
    }
  }

  lemma BlinkTurnEvents()
    ensures WritesTo(BlinkTurn(), LED_TOGGLE) == [LED_BIT]
    ensures StoresIn(BlinkTurn()) == [Store(LED_TOGGLE, LED_BIT)]
    ensures Count(BlinkTurn(), Nop) == 119900
  {
    ProgramDelaysExact();
    var w := [Write(LED_TOGGLE, LED_BIT)];
    assert w[..0] == [];
    WritesToAppend(w, Nops(119900), LED_TOGGLE);
    StoresInAppend(w, Nops(119900));
    CountAppend(w, Nops(119900), Nop);
    NopsEvents(119900, LED_TOGGLE);
  }
}
