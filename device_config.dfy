/** The bring-up tables of the three `configDevice` routines, cut into the
    segments their comments name, and what each table leaves in every
    register. */
module DeviceConfig {
  import opened AtomicAccess
  import opened Registers
  import opened Sequencer

  /* Registers, by the names of the RP2350 datasheet. */
  const XOSC_CTRL: Addr := 0x4004_8000
  const XOSC_STATUS: Addr := 0x4004_8004
  const XOSC_STARTUP: Addr := 0x4004_800c
  const CLK_SYS_CTRL: Addr := 0x4001_003c
  const CLK_PERI_CTRL: Addr := 0x4001_0048
  const RESETS_RESET: Addr := 0x4002_0000
  const RESETS_RESET_DONE: Addr := 0x4002_0008
  const IO_GPIO0_CTRL: Addr := 0x4002_8004
  const IO_GPIO1_CTRL: Addr := 0x4002_800c
  const IO_GPIO25_CTRL: Addr := 0x4002_80cc
  const PADS_GPIO0: Addr := 0x4003_8004
  const PADS_GPIO1: Addr := 0x4003_8008
  const PADS_GPIO25: Addr := 0x4003_8068
  const UART0_IBRD: Addr := 0x4007_0024
  const UART0_FBRD: Addr := 0x4007_0028
  const UART0_LCR_H: Addr := 0x4007_002c
  const UART0_CR: Addr := 0x4007_0030
  /** PSM FRCE_ON (offset 0): a set bit forces that power domain on; bit 24
      is core 1, so setting it takes core 1 out of reset. */
  const PSM_FRCE_ON: Addr := 0x4001_8000
  const PSM_DONE: Addr := 0x4001_800c
  /** SIO GPIO_OE, which the programs address as `0xd0000000 + WRITE_SET + 0x038`. */
  const SIO_GPIO_OE: Addr := 0xd000_0038
  /** Where that store lands: SIO addresses are taken literally. */
  const SIO_OE_STORE: Addr := 0xd000_2038
  /** The address all three programs store 1 << 25 to in order to toggle the
      LED: SIO GPIO_OUT (0x028) plus the SET window offset. What SIO does with
      such a store is not part of this model; the store is recorded as is. */
  const LED_TOGGLE: Addr := 0xd000_2028

  const XOSC_STABLE: Word := 0x8000_0000
  const UART0_BIT: Word := 0x400_0000
  const PROC1_BIT: Word := 0x100_0000
  const LED_BIT: Word := 0x200_0000
  const PAD_ISO: Word := 0x100
  const PAD_IE: Word := 0x40

  /** Start the crystal oscillator and wait until it is stable. */
  const XOSC_START: seq<Step> :=
    [Put(XOSC_CTRL, Normal, 0xaa0), Put(XOSC_STARTUP, Normal, 0xc4),
     Put(XOSC_CTRL, Set, 0xfa_b000), AwaitSet(XOSC_STATUS, XOSC_STABLE)]

  /** Run the system and peripheral clocks from the oscillator. */
  const CLOCK_SELECT: seq<Step> :=
    [Put(CLK_SYS_CTRL, Normal, 0), Put(CLK_PERI_CTRL, Normal, 0x880)]

  /** Pulse the reset of UART0 and wait until it is out of reset. */
  const UART_RESET: seq<Step> :=
    [Put(RESETS_RESET, Set, UART0_BIT), Pause, Pause,
     Put(RESETS_RESET, Clear, UART0_BIT), AwaitSet(RESETS_RESET_DONE, UART0_BIT)]

  /** GPIO25 to SIO (function 5), GPIO0 and GPIO1 to UART0 (function 2). */
  const IO_SELECT: seq<Step> :=
    [Put(IO_GPIO25_CTRL, Normal, 5), Put(IO_GPIO0_CTRL, Normal, 2), Put(IO_GPIO1_CTRL, Normal, 2)]

  /** Drive GPIO25 as an output. */
  const LED_ENABLE: seq<Step> := [Put(SIO_GPIO_OE, Set, LED_BIT)]

  /** Remove the isolation of the three pads and enable the input of GPIO1. */
  const PAD_SETUP: seq<Step> :=
    [Put(PADS_GPIO25, Clear, PAD_ISO), Put(PADS_GPIO0, Clear, PAD_ISO),
     Put(PADS_GPIO1, Clear, PAD_ISO), Put(PADS_GPIO1, Set, PAD_IE)]

  /** Divisors 6 + 5104/65536 (read as 6.5104), 8-bit words with FIFOs,
      UART, transmitter and receiver enabled. */
  const UART_SETUP: seq<Step> :=
    [Put(UART0_IBRD, Normal, 6), Put(UART0_FBRD, Normal, 5104),
     Put(UART0_LCR_H, Normal, 0x70), Put(UART0_CR, Normal, 0x301)]

  /** Take core 1 out of reset and wait until it is. */
  const PROC1_RELEASE: seq<Step> :=
    [Put(PSM_FRCE_ON, Set, PROC1_BIT), AwaitSet(PSM_DONE, PROC1_BIT)]

  /** `configDevice` of the blocking UART program. */
  const CONFIG_UART: seq<Step> :=
    XOSC_START + CLOCK_SELECT + UART_RESET + IO_SELECT + LED_ENABLE + PAD_SETUP + UART_SETUP

  /** `configDevice` of the multicore program: the same, then core 1 released. */
  const CONFIG_MULTICORE: seq<Step> := CONFIG_UART + PROC1_RELEASE

  /** `configDevice` of the blink program after the oscillator start, as the
      program writes it. */
  const BLINK_REST: seq<Step> :=
    [Put(CLK_SYS_CTRL, Normal, 0), Put(IO_GPIO25_CTRL, Normal, 5),
     Put(SIO_GPIO_OE, Set, LED_BIT), Put(PADS_GPIO25, Clear, PAD_ISO)]

  /** `configDevice` of the blink program with the oscillator wait it
      evidently intends. */
  const CONFIG_BLINK: seq<Step> := XOSC_START + BLINK_REST

  lemma ValidAppend(p: seq<Step>, q: seq<Step>)
    requires ValidTable(p) && ValidTable(q)
    ensures ValidTable(p + q)
  {
    forall i | 0 <= i < |p + q|
      ensures ValidStep((p + q)[i])
    {
      if i >= |p| {
        assert (p + q)[i] == q[i - |p|];
      }
    }
  }

  /** Every step of the three tables is a store through the normal, set or
      clear window of a register, or a wait on a plain register. */
  lemma TablesValid()
    ensures ValidTable(CONFIG_UART) && ValidTable(CONFIG_MULTICORE) && ValidTable(CONFIG_BLINK)
  {
    SegmentsValid();
    ValidAppend(XOSC_START, CLOCK_SELECT);
    ValidAppend(XOSC_START + CLOCK_SELECT, UART_RESET);
    ValidAppend(XOSC_START + CLOCK_SELECT + UART_RESET, IO_SELECT);
    ValidAppend(XOSC_START + CLOCK_SELECT + UART_RESET + IO_SELECT, LED_ENABLE);
    ValidAppend(XOSC_START + CLOCK_SELECT + UART_RESET + IO_SELECT + LED_ENABLE, PAD_SETUP);
    ValidAppend(XOSC_START + CLOCK_SELECT + UART_RESET + IO_SELECT + LED_ENABLE + PAD_SETUP, UART_SETUP);
    ValidAppend(CONFIG_UART, PROC1_RELEASE);
    ValidAppend(XOSC_START, BLINK_REST);
  }

  lemma SegmentsValid()
    ensures ValidTable(XOSC_START) && ValidTable(CLOCK_SELECT) && ValidTable(UART_RESET)
    ensures ValidTable(IO_SELECT) && ValidTable(LED_ENABLE) && ValidTable(PAD_SETUP)
    ensures ValidTable(UART_SETUP) && ValidTable(PROC1_RELEASE) && ValidTable(BLINK_REST)
  {
    ClockSegmentsValid();
    PinSegmentsValid();
  }

  lemma ClockSegmentsValid()
    ensures ValidTable(XOSC_START) && ValidTable(CLOCK_SELECT) && ValidTable(UART_RESET)
    ensures ValidTable(PROC1_RELEASE)
  {}

  lemma PinSegmentsValid()
    ensures ValidTable(IO_SELECT) && ValidTable(LED_ENABLE) && ValidTable(PAD_SETUP)
    ensures ValidTable(UART_SETUP) && ValidTable(BLINK_REST)
  {}

  /* What each segment stores into each register, in order. */

  lemma XoscHits(a: Addr)
    ensures Touching(XOSC_START, a) ==
              if a == XOSC_CTRL then More(Normal, 0xaa0, More(Set, 0xfa_b000, Done))
              else if a == XOSC_STARTUP then More(Normal, 0xc4, Done)
              else Done
  {
    var p := XOSC_START;
    assert Touching(p[3..], a) == Done;
    assert Touching(p[2..], a) == if a == XOSC_CTRL then More(Set, 0xfa_b000, Done) else Done;
  }

  lemma ClockHits(a: Addr)
    ensures Touching(CLOCK_SELECT, a) ==
              if a == CLK_SYS_CTRL then More(Normal, 0, Done)
              else if a == CLK_PERI_CTRL then More(Normal, 0x880, Done)
              else Done
  {
    var p := CLOCK_SELECT;
    assert Touching(p[2..], a) == Done;
  }

  lemma ResetHits(a: Addr)
    ensures Touching(UART_RESET, a) ==
              if a == RESETS_RESET then More(Set, UART0_BIT, More(Clear, UART0_BIT, Done)) else Done
  {
    var p := UART_RESET;
    assert Touching(p[4..], a) == Done;
    assert Touching(p[3..], a) == if a == RESETS_RESET then More(Clear, UART0_BIT, Done) else Done;
    assert Touching(p[1..], a) == Touching(p[3..], a);
  }

  lemma IoHits(a: Addr)
    ensures Touching(IO_SELECT, a) ==
              if a == IO_GPIO25_CTRL then More(Normal, 5, Done)
              else if a == IO_GPIO0_CTRL || a == IO_GPIO1_CTRL then More(Normal, 2, Done)
              else Done
  {
    var p := IO_SELECT;
    assert Touching(p[3..], a) == Done;
    assert Touching(p[2..], a) == if a == IO_GPIO1_CTRL then More(Normal, 2, Done) else Done;
  }

  lemma LedHits(a: Addr)
    ensures Touching(LED_ENABLE, a) == if a == SIO_OE_STORE then More(Normal, LED_BIT, Done) else Done
  {
    assert LED_ENABLE[1..] == [];
  }

  lemma PadHits(a: Addr)
    ensures Touching(PAD_SETUP, a) ==
              if a == PADS_GPIO25 || a == PADS_GPIO0 then More(Clear, PAD_ISO, Done)
              else if a == PADS_GPIO1 then More(Clear, PAD_ISO, More(Set, PAD_IE, Done))
              else Done
  {
    var p := PAD_SETUP;
    assert Touching(p[4..], a) == Done;
    assert Touching(p[3..], a) == if a == PADS_GPIO1 then More(Set, PAD_IE, Done) else Done;
    assert Touching(p[2..], a) == if a == PADS_GPIO1 then More(Clear, PAD_ISO, More(Set, PAD_IE, Done)) else Done;
    assert Touching(p[1..], a) ==
             if a == PADS_GPIO0 then More(Clear, PAD_ISO, Done)
             else if a == PADS_GPIO1 then More(Clear, PAD_ISO, More(Set, PAD_IE, Done)) else Done;
  }

  lemma UartHits(a: Addr)
    ensures Touching(UART_SETUP, a) ==
              if a == UART0_IBRD then More(Normal, 6, Done)
              else if a == UART0_FBRD then More(Normal, 5104, Done)
              else if a == UART0_LCR_H then More(Normal, 0x70, Done)
              else if a == UART0_CR then More(Normal, 0x301, Done)
              else Done
  {
    var p := UART_SETUP;
    assert Touching(p[4..], a) == Done;
    assert Touching(p[3..], a) == if a == UART0_CR then More(Normal, 0x301, Done) else Done;
    assert Touching(p[2..], a) ==
             if a == UART0_LCR_H then More(Normal, 0x70, Done)
             else if a == UART0_CR then More(Normal, 0x301, Done) else Done;
    assert Touching(p[1..], a) ==
             if a == UART0_FBRD then More(Normal, 5104, Done)
             else if a == UART0_LCR_H then More(Normal, 0x70, Done)
             else if a == UART0_CR then More(Normal, 0x301, Done) else Done;
  }

  lemma ProcHits(a: Addr)
    ensures Touching(PROC1_RELEASE, a) == if a == PSM_FRCE_ON then More(Set, PROC1_BIT, Done) else Done
  {
    var p := PROC1_RELEASE;
    assert Touching(p[2..], a) == Done;
  }

  lemma BlinkRestHits(a: Addr)
    ensures Touching(BLINK_REST, a) ==
              if a == CLK_SYS_CTRL then More(Normal, 0, Done)
              else if a == IO_GPIO25_CTRL then More(Normal, 5, Done)
              else if a == SIO_OE_STORE then More(Normal, LED_BIT, Done)
              else if a == PADS_GPIO25 then More(Clear, PAD_ISO, Done)
              else Done
  {
    var p := BLINK_REST;
    assert Touching(p[4..], a) == Done;
    assert Touching(p[3..], a) == if a == PADS_GPIO25 then More(Clear, PAD_ISO, Done) else Done;
    assert Touching(p[2..], a) ==
             if a == SIO_OE_STORE then More(Normal, LED_BIT, Done)
             else if a == PADS_GPIO25 then More(Clear, PAD_ISO, Done) else Done;
    assert Touching(p[1..], a) ==
             if a == IO_GPIO25_CTRL then More(Normal, 5, Done)
             else if a == SIO_OE_STORE then More(Normal, LED_BIT, Done)
             else if a == PADS_GPIO25 then More(Clear, PAD_ISO, Done) else Done;
  }

  /** Per register, the stores the blocking UART program's `configDevice`
      makes to it, in order. */
  function UartConfigStores(a: Addr): Hits {
    if a == XOSC_CTRL then More(Normal, 0xaa0, More(Set, 0xfa_b000, Done))
    else if a == XOSC_STARTUP then More(Normal, 0xc4, Done)
    else if a == CLK_SYS_CTRL then More(Normal, 0, Done)
    else if a == CLK_PERI_CTRL then More(Normal, 0x880, Done)
    else if a == RESETS_RESET then More(Set, UART0_BIT, More(Clear, UART0_BIT, Done))
    else if a == IO_GPIO25_CTRL then More(Normal, 5, Done)
    else if a == IO_GPIO0_CTRL || a == IO_GPIO1_CTRL then More(Normal, 2, Done)
    else if a == SIO_OE_STORE then More(Normal, LED_BIT, Done)
    else if a == PADS_GPIO25 || a == PADS_GPIO0 then More(Clear, PAD_ISO, Done)
    else if a == PADS_GPIO1 then More(Clear, PAD_ISO, More(Set, PAD_IE, Done))
    else if a == UART0_IBRD then More(Normal, 6, Done)
    else if a == UART0_FBRD then More(Normal, 5104, Done)
    else if a == UART0_LCR_H then More(Normal, 0x70, Done)
    else if a == UART0_CR then More(Normal, 0x301, Done)
    else Done
  }

  lemma UartConfigTouching(a: Addr)
    ensures Touching(CONFIG_UART, a) == UartConfigStores(a)
  {
    var s1 := XOSC_START + CLOCK_SELECT;
    var s2 := s1 + UART_RESET;
    var s3 := s2 + IO_SELECT;
    var s4 := s3 + LED_ENABLE;
    var s5 := s4 + PAD_SETUP;
    TouchingAppend(XOSC_START, CLOCK_SELECT, a);
    TouchingAppend(s1, UART_RESET, a);
    TouchingAppend(s2, IO_SELECT, a);
    TouchingAppend(s3, LED_ENABLE, a);
    TouchingAppend(s4, PAD_SETUP, a);
    TouchingAppend(s5, UART_SETUP, a);
    XoscHits(a);
    ClockHits(a);
    ResetHits(a);
    IoHits(a);
    LedHits(a);
    PadHits(a);
    UartHits(a);
  }

  /** The summary, register by register. */
  lemma UartConfigStoresEarly()
    ensures UartConfigStores(XOSC_CTRL) == More(Normal, 0xaa0, More(Set, 0xfa_b000, Done))
    ensures UartConfigStores(XOSC_STARTUP) == More(Normal, 0xc4, Done)
    ensures UartConfigStores(CLK_SYS_CTRL) == More(Normal, 0, Done)
    ensures UartConfigStores(CLK_PERI_CTRL) == More(Normal, 0x880, Done)
    ensures UartConfigStores(RESETS_RESET) == More(Set, UART0_BIT, More(Clear, UART0_BIT, Done))
    ensures UartConfigStores(IO_GPIO25_CTRL) == More(Normal, 5, Done)
    ensures UartConfigStores(IO_GPIO0_CTRL) == More(Normal, 2, Done)
    ensures UartConfigStores(IO_GPIO1_CTRL) == More(Normal, 2, Done)
  {}

  lemma UartConfigStoresLate()
    ensures UartConfigStores(SIO_OE_STORE) == More(Normal, LED_BIT, Done)
    ensures UartConfigStores(PADS_GPIO25) == More(Clear, PAD_ISO, Done)
    ensures UartConfigStores(PADS_GPIO0) == More(Clear, PAD_ISO, Done)
    ensures UartConfigStores(PADS_GPIO1) == More(Clear, PAD_ISO, More(Set, PAD_IE, Done))
    ensures UartConfigStores(UART0_IBRD) == More(Normal, 6, Done)
    ensures UartConfigStores(UART0_FBRD) == More(Normal, 5104, Done)
    ensures UartConfigStores(UART0_LCR_H) == More(Normal, 0x70, Done)
    ensures UartConfigStores(UART0_CR) == More(Normal, 0x301, Done)
  {}

  lemma UartConfigAt(regs: map<Addr, Word>, a: Addr, h: Hits)
    requires UartConfigStores(a) == h
    ensures Reg(RegsAfter(regs, CONFIG_UART), a) == Replay(Reg(regs, a), h)
  {
    TablesValid();
    RegsAfterTouching(regs, CONFIG_UART, a);
    UartConfigTouching(a);
  }

  /** The registers the blocking UART program's `configDevice` stores to. */
  const UART_CONFIG_REGS: set<Addr> :=
    {XOSC_CTRL, XOSC_STARTUP, CLK_SYS_CTRL, CLK_PERI_CTRL, RESETS_RESET,
     IO_GPIO25_CTRL, IO_GPIO0_CTRL, IO_GPIO1_CTRL, SIO_OE_STORE,
     PADS_GPIO25, PADS_GPIO0, PADS_GPIO1, UART0_IBRD, UART0_FBRD, UART0_LCR_H, UART0_CR}

  /** After `configDevice` the oscillator is enabled with its range and
      start-up delay, and both clocks run from it, whatever the registers
      held before. */
  lemma UartConfigClocks(regs: map<Addr, Word>)
    ensures var r := RegsAfter(regs, CONFIG_UART);
            Reg(r, XOSC_CTRL) == 0xfa_baa0 && Reg(r, XOSC_STARTUP) == 0xc4 &&
            Reg(r, CLK_SYS_CTRL) == 0 && Reg(r, CLK_PERI_CTRL) == 0x880
  {
    UartConfigStoresEarly();
    UartConfigAt(regs, XOSC_CTRL, More(Normal, 0xaa0, More(Set, 0xfa_b000, Done)));
    ReplayNormal(Reg(regs, XOSC_CTRL), 0xaa0, More(Set, 0xfa_b000, Done));
    ReplaySet(0xaa0, 0xfa_b000);
    UartConfigAt(regs, XOSC_STARTUP, More(Normal, 0xc4, Done));
    ReplayNormal(Reg(regs, XOSC_STARTUP), 0xc4, Done);
    UartConfigAt(regs, CLK_SYS_CTRL, More(Normal, 0, Done));
    ReplayNormal(Reg(regs, CLK_SYS_CTRL), 0, Done);
    UartConfigAt(regs, CLK_PERI_CTRL, More(Normal, 0x880, Done));
    ReplayNormal(Reg(regs, CLK_PERI_CTRL), 0x880, Done);
  }

  /** UART0 ends out of reset with every other reset bit as before, and the
      three pins are routed to SIO and UART0. */
  lemma UartConfigReset(regs: map<Addr, Word>)
    ensures var r := RegsAfter(regs, CONFIG_UART);
            Reg(r, RESETS_RESET) == Reg(regs, RESETS_RESET) & !UART0_BIT &&
            Reg(r, IO_GPIO25_CTRL) == 5 && Reg(r, IO_GPIO0_CTRL) == 2 && Reg(r, IO_GPIO1_CTRL) == 2
  {
    UartConfigStoresEarly();
    UartConfigAt(regs, RESETS_RESET, More(Set, UART0_BIT, More(Clear, UART0_BIT, Done)));
    ReplayPulse(Reg(regs, RESETS_RESET), UART0_BIT);
    UartConfigAt(regs, IO_GPIO25_CTRL, More(Normal, 5, Done));
    ReplayNormal(Reg(regs, IO_GPIO25_CTRL), 5, Done);
    UartConfigAt(regs, IO_GPIO0_CTRL, More(Normal, 2, Done));
    ReplayNormal(Reg(regs, IO_GPIO0_CTRL), 2, Done);
    UartConfigAt(regs, IO_GPIO1_CTRL, More(Normal, 2, Done));
    ReplayNormal(Reg(regs, IO_GPIO1_CTRL), 2, Done);
  }

  /** GPIO25 drives its output; the three pads lose their isolation and
      GPIO1's input is enabled, other pad bits untouched. */
  lemma UartConfigPads(regs: map<Addr, Word>)
    ensures var r := RegsAfter(regs, CONFIG_UART);
            Reg(r, SIO_OE_STORE) == LED_BIT &&
            Reg(r, PADS_GPIO25) == Reg(regs, PADS_GPIO25) & !PAD_ISO &&
            Reg(r, PADS_GPIO0) == Reg(regs, PADS_GPIO0) & !PAD_ISO &&
            Reg(r, PADS_GPIO1) == (Reg(regs, PADS_GPIO1) & !PAD_ISO) | PAD_IE
  {
    UartConfigStoresLate();
    UartConfigAt(regs, SIO_OE_STORE, More(Normal, LED_BIT, Done));
    ReplayNormal(Reg(regs, SIO_OE_STORE), LED_BIT, Done);
    UartConfigAt(regs, PADS_GPIO25, More(Clear, PAD_ISO, Done));
    ReplayClear(Reg(regs, PADS_GPIO25), PAD_ISO);
    UartConfigAt(regs, PADS_GPIO0, More(Clear, PAD_ISO, Done));
    ReplayClear(Reg(regs, PADS_GPIO0), PAD_ISO);
    UartConfigAt(regs, PADS_GPIO1, More(Clear, PAD_ISO, More(Set, PAD_IE, Done)));
    ReplayClearSet(Reg(regs, PADS_GPIO1), PAD_ISO, PAD_IE);
  }

  /** UART0 ends with divisors 6 and 5104, 8-bit words with FIFOs, and
      transmitter and receiver enabled. */
  lemma UartConfigUart(regs: map<Addr, Word>)
    ensures var r := RegsAfter(regs, CONFIG_UART);
            Reg(r, UART0_IBRD) == 6 && Reg(r, UART0_FBRD) == 5104 &&
            Reg(r, UART0_LCR_H) == 0x70 && Reg(r, UART0_CR) == 0x301
  {
    UartConfigStoresLate();
    UartConfigAt(regs, UART0_IBRD, More(Normal, 6, Done));
    ReplayNormal(Reg(regs, UART0_IBRD), 6, Done);
    UartConfigAt(regs, UART0_FBRD, More(Normal, 5104, Done));
    ReplayNormal(Reg(regs, UART0_FBRD), 5104, Done);
    UartConfigAt(regs, UART0_LCR_H, More(Normal, 0x70, Done));
    ReplayNormal(Reg(regs, UART0_LCR_H), 0x70, Done);
    UartConfigAt(regs, UART0_CR, More(Normal, 0x301, Done));
    ReplayNormal(Reg(regs, UART0_CR), 0x301, Done);
  }

  /** `configDevice` changes no register outside those it names. */
  lemma UartConfigElsewhere(regs: map<Addr, Word>, a: Addr)
    requires a !in UART_CONFIG_REGS
    ensures Reg(RegsAfter(regs, CONFIG_UART), a) == Reg(regs, a)
  {
    UartConfigAt(regs, a, Done);
  }

  /** What the multicore program's `configDevice` leaves in register `a`: what
      the blocking UART one does, and core 1 forced on in the power-on state
      machine. */
  lemma MulticoreConfigAt(regs: map<Addr, Word>, a: Addr)
    ensures var r := RegsAfter(regs, CONFIG_UART);
            Reg(RegsAfter(regs, CONFIG_MULTICORE), a) ==
              if a == PSM_FRCE_ON then Reg(r, a) | PROC1_BIT else Reg(r, a)
  {
    TablesValid();
    SegmentsValid();
    RegsAfterTouching(regs, CONFIG_MULTICORE, a);
    RegsAfterTouching(regs, CONFIG_UART, a);
    TouchingAppend(CONFIG_UART, PROC1_RELEASE, a);
    ReplayJoin(Reg(regs, a), Touching(CONFIG_UART, a), Touching(PROC1_RELEASE, a));
    ProcHits(a);
    ReplaySet(Reg(RegsAfter(regs, CONFIG_UART), a), PROC1_BIT);
  }

  /** The multicore `configDevice` sets bit 24 of PSM FRCE_ON, leaving its
      other bits as they were. */
  lemma MulticoreConfigProc1(regs: map<Addr, Word>)
    ensures Reg(RegsAfter(regs, CONFIG_MULTICORE), PSM_FRCE_ON) == Reg(regs, PSM_FRCE_ON) | PROC1_BIT
  {
    MulticoreConfigAt(regs, PSM_FRCE_ON);
    UartConfigElsewhere(regs, PSM_FRCE_ON);
  }

  /** Per register, the stores of the blink program's `configDevice`. */
  function BlinkConfigStores(a: Addr): Hits {
    if a == XOSC_CTRL then More(Normal, 0xaa0, More(Set, 0xfa_b000, Done))
    else if a == XOSC_STARTUP then More(Normal, 0xc4, Done)
    else if a == CLK_SYS_CTRL then More(Normal, 0, Done)
    else if a == IO_GPIO25_CTRL then More(Normal, 5, Done)
    else if a == SIO_OE_STORE then More(Normal, LED_BIT, Done)
    else if a == PADS_GPIO25 then More(Clear, PAD_ISO, Done)
    else Done
  }

  const BLINK_CONFIG_REGS: set<Addr> :=
    {XOSC_CTRL, XOSC_STARTUP, CLK_SYS_CTRL, IO_GPIO25_CTRL, SIO_OE_STORE, PADS_GPIO25}

  lemma BlinkConfigTouching(a: Addr)
    ensures Touching(CONFIG_BLINK, a) == BlinkConfigStores(a)
  {
    TouchingAppend(XOSC_START, BLINK_REST, a);
    XoscHits(a);
    BlinkRestHits(a);
  }

  lemma BlinkConfigStoresAt()
    ensures BlinkConfigStores(XOSC_CTRL) == More(Normal, 0xaa0, More(Set, 0xfa_b000, Done))
    ensures BlinkConfigStores(XOSC_STARTUP) == More(Normal, 0xc4, Done)
    ensures BlinkConfigStores(CLK_SYS_CTRL) == More(Normal, 0, Done)
    ensures BlinkConfigStores(IO_GPIO25_CTRL) == More(Normal, 5, Done)
    ensures BlinkConfigStores(SIO_OE_STORE) == More(Normal, LED_BIT, Done)
    ensures BlinkConfigStores(PADS_GPIO25) == More(Clear, PAD_ISO, Done)
  {}

  lemma BlinkConfigAt(regs: map<Addr, Word>, a: Addr, h: Hits)
    requires BlinkConfigStores(a) == h
    ensures Reg(RegsAfter(regs, CONFIG_BLINK), a) == Replay(Reg(regs, a), h)
  {
    TablesValid();
    RegsAfterTouching(regs, CONFIG_BLINK, a);
    BlinkConfigTouching(a);
  }

  /** After the blink program's `configDevice` (with its oscillator wait as
      intended) the oscillator and system clock are set up, GPIO25 is an SIO
      output and its pad is no longer isolated. */
  lemma BlinkConfigRegisters(regs: map<Addr, Word>)
    ensures var r := RegsAfter(regs, CONFIG_BLINK);
            Reg(r, XOSC_CTRL) == 0xfa_baa0 && Reg(r, XOSC_STARTUP) == 0xc4 &&
            Reg(r, CLK_SYS_CTRL) == 0 && Reg(r, IO_GPIO25_CTRL) == 5 &&
            Reg(r, SIO_OE_STORE) == LED_BIT &&
            Reg(r, PADS_GPIO25) == Reg(regs, PADS_GPIO25) & !PAD_ISO
  {
    BlinkConfigStoresAt();
    BlinkConfigAt(regs, XOSC_CTRL, More(Normal, 0xaa0, More(Set, 0xfa_b000, Done)));
    ReplayNormal(Reg(regs, XOSC_CTRL), 0xaa0, More(Set, 0xfa_b000, Done));
    ReplaySet(0xaa0, 0xfa_b000);
    BlinkConfigAt(regs, XOSC_STARTUP, More(Normal, 0xc4, Done));
    ReplayNormal(Reg(regs, XOSC_STARTUP), 0xc4, Done);
    BlinkConfigAt(regs, CLK_SYS_CTRL, More(Normal, 0, Done));
    ReplayNormal(Reg(regs, CLK_SYS_CTRL), 0, Done);
    BlinkConfigAt(regs, IO_GPIO25_CTRL, More(Normal, 5, Done));
    ReplayNormal(Reg(regs, IO_GPIO25_CTRL), 5, Done);
    BlinkConfigAt(regs, SIO_OE_STORE, More(Normal, LED_BIT, Done));
    ReplayNormal(Reg(regs, SIO_OE_STORE), LED_BIT, Done);
    BlinkConfigAt(regs, PADS_GPIO25, More(Clear, PAD_ISO, Done));
    ReplayClear(Reg(regs, PADS_GPIO25), PAD_ISO);
  }

  lemma BlinkConfigElsewhere(regs: map<Addr, Word>, a: Addr)
    requires a !in BLINK_CONFIG_REGS
    ensures Reg(RegsAfter(regs, CONFIG_BLINK), a) == Reg(regs, a)
  {
    BlinkConfigAt(regs, a, Done);
  }

  /** The UART0 reset pulse on the bus: a store of bit 26 through the SET
      alias, two `nop`s, a store of bit 26 through the CLR alias, then the
      loads of RESET_DONE. */
  lemma UartResetTrace(ps: seq<seq<Word>>)
    requires |ps| == |UART_RESET|
    ensures ProgTrace(UART_RESET, ps) ==
              [Write(0x4002_2000, UART0_BIT), Nop, Nop, Write(0x4002_3000, UART0_BIT)] +
              Reads(RESETS_RESET_DONE, ps[4])
  {
    var p := UART_RESET;
    assert p[..5] == p && ps[..5] == ps;
    ResetPulseWrites(ps);
    ProgTracePrefix(p, ps, 4);
  }

  lemma ResetPulseWrites(ps: seq<seq<Word>>)
    requires |ps| == |UART_RESET|
    ensures ProgTrace(UART_RESET[..4], ps[..4]) ==
              [Write(0x4002_2000, UART0_BIT), Nop, Nop, Write(0x4002_3000, UART0_BIT)]
  {
    var p := UART_RESET;
    ResetPulseSet(ps);
    ProgTracePrefix(p, ps, 2);
    assert BusAddr(RESETS_RESET, Clear) == 0x4002_3000;
    ProgTracePrefix(p, ps, 3);
  }

  lemma ResetPulseSet(ps: seq<seq<Word>>)
    requires |ps| == |UART_RESET|
    ensures ProgTrace(UART_RESET[..2], ps[..2]) == [Write(0x4002_2000, UART0_BIT), Nop]
  {
    var p := UART_RESET;
    assert p[..0] == [];
    assert BusAddr(RESETS_RESET, Set) == 0x4002_2000;
    ProgTracePrefix(p, ps, 0);
    ProgTracePrefix(p, ps, 1);
  }

  /** In the blocking UART `configDevice`, after the oscillator and clock
      steps, UART0's reset is pulsed and the routine goes on only after a load
      of RESET_DONE with bit 26 set, every earlier load having it clear. */
  lemma UartConfigResetOrder(polls: seq<seq<Word>>)
    requires Completed(CONFIG_UART, polls)
    ensures var before := XOSC_START + CLOCK_SELECT;
            var after := IO_SELECT + LED_ENABLE + PAD_SETUP + UART_SETUP;
            var w := polls[|before| + 4];
            ProgTrace(CONFIG_UART, polls) ==
              ProgTrace(before, polls[..|before|]) +
              ([Write(0x4002_2000, UART0_BIT), Nop, Nop, Write(0x4002_3000, UART0_BIT)] + Reads(RESETS_RESET_DONE, w)) +
              ProgTrace(after, polls[|before| + |UART_RESET|..]) &&
            Waited(w, UART0_BIT, true)
  {
    ResetSplit(polls);
    ResetWaited(polls);
  }

  lemma ResetSplit(polls: seq<seq<Word>>)
    requires |polls| == |CONFIG_UART|
    ensures var before := XOSC_START + CLOCK_SELECT;
            var after := IO_SELECT + LED_ENABLE + PAD_SETUP + UART_SETUP;
            |before| + |UART_RESET| + |after| == |polls| &&
            ProgTrace(CONFIG_UART, polls) ==
              ProgTrace(before, polls[..|before|]) +
              ([Write(0x4002_2000, UART0_BIT), Nop, Nop, Write(0x4002_3000, UART0_BIT)] +
               Reads(RESETS_RESET_DONE, polls[|before| + 4])) +
              ProgTrace(after, polls[|before| + |UART_RESET|..])
  {
    var before := XOSC_START + CLOCK_SELECT;
    var after := IO_SELECT + LED_ENABLE + PAD_SETUP + UART_SETUP;
    assert CONFIG_UART == before + UART_RESET + after by {
      var head := before + UART_RESET;
      ConcatAssoc(head, IO_SELECT, LED_ENABLE);
      ConcatAssoc(head, IO_SELECT + LED_ENABLE, PAD_SETUP);
      ConcatAssoc(head, IO_SELECT + LED_ENABLE + PAD_SETUP, UART_SETUP);
    }
    ResetBetween(before, after, polls);
  }

  /** The trace of a table with the reset pulse in its middle. */
  lemma ResetBetween(before: seq<Step>, after: seq<Step>, polls: seq<seq<Word>>)
    requires |polls| == |before| + |UART_RESET| + |after|
    ensures ProgTrace(before + UART_RESET + after, polls) ==
              ProgTrace(before, polls[..|before|]) +
              ([Write(0x4002_2000, UART0_BIT), Nop, Nop, Write(0x4002_3000, UART0_BIT)] +
               Reads(RESETS_RESET_DONE, polls[|before| + 4])) +
              ProgTrace(after, polls[|before| + |UART_RESET|..])
  {
    var k := |before|;
    ThreeParts(before, UART_RESET, after, polls);
    var mid := polls[k..k + |UART_RESET|];
    UartResetTrace(mid);
    assert mid[4] == polls[k + 4];
  }

  lemma ResetWaited(polls: seq<seq<Word>>)
    requires Completed(CONFIG_UART, polls)
    ensures Waited(polls[|XOSC_START + CLOCK_SELECT| + 4], UART0_BIT, true)
  {
    assert CONFIG_UART[|XOSC_START + CLOCK_SELECT| + 4] == AwaitSet(RESETS_RESET_DONE, UART0_BIT);
  }

  /** The multicore `configDevice` ends by setting bit 24 through the SET
      alias of PSM FRCE_ON and then loading PSM DONE until bit 24 reads set:
      it returns only once core 1 is out of reset. */
  lemma MulticoreConfigTrace(polls: seq<seq<Word>>)
    requires Completed(CONFIG_MULTICORE, polls)
    ensures var n := |CONFIG_UART|;
            ProgTrace(CONFIG_MULTICORE, polls) ==
              ProgTrace(CONFIG_UART, polls[..n]) + [Write(0x4001_a000, PROC1_BIT)] + Reads(PSM_DONE, polls[n + 1]) &&
            Waited(polls[n + 1], PROC1_BIT, true)
  {
    var n := |CONFIG_UART|;
    assert polls == polls[..n] + polls[n..];
    ProgTraceAppend(CONFIG_UART, PROC1_RELEASE, polls[..n], polls[n..]);
    var ps := polls[n..];
    var p := PROC1_RELEASE;
    assert p[..1][..0] == [] && p[..2] == p;
    assert ProgTrace(p[..1], ps[..1]) == [Write(0x4001_a000, PROC1_BIT)];
    assert ps[1] == polls[n + 1];
    assert CONFIG_MULTICORE[n + 1] == AwaitSet(PSM_DONE, PROC1_BIT);
  }
}
