/** 03_MultiCore `main` and `main_core_1`: core 0 brings up the clocks, the
    UART and core 1's power, launches core 1 through the mailbox, waits a
    second and sends its banner; core 1 blinks the LED. */
module MultiCoreMain {
  import opened AtomicAccess
  import opened Registers
  import opened Sequencer
  import opened DeviceConfig
  import opened Timing
  import opened Uart
  import opened Startup
  import opened MultiCore

  /** The banner text "-= RP2350 MultiCore =-\n\n", without its terminator. */
  const BANNER_TEXT: seq<Byte> :=
    [0x2d, 0x3d, 0x20, 0x52, 0x50, 0x32, 0x33, 0x35, 0x30, 0x20, 0x4d, 0x75,
     0x6c, 0x74, 0x69, 0x43, 0x6f, 0x72, 0x65, 0x20, 0x3d, 0x2d, 0x0a, 0x0a]

  /** The banner as the `int8_t` C string `main` passes to `uartTxString`. */
  const BANNER: seq<Byte> := BANNER_TEXT + [0]

  /** What sending the banner puts on the line: its text, then CR LF. */
  const BANNER_OUT: seq<Byte> := BANNER_TEXT + [CR, LF]

  /** The banner is plain ASCII, so its `int8_t` characters are never
      sign-extended. */
  lemma BannerAscii()
    ensures Ascii(BANNER_OUT)
  {}

  lemma BannerFramed()
    ensures 0 in BANNER
    ensures Framed(BANNER) == BANNER_OUT
  {
    assert BANNER == BANNER_TEXT + [0] + [];
    assert 0 !in BANNER_TEXT;
    FramedText(BANNER_TEXT, []);
  }

  /** `configDevice` of the multicore program: the blocking UART bring-up,
      then core 1 taken out of reset. `ok` is false exactly when a wait
      hangs, and then nothing else runs. */
  method ConfigDevice(rf: RegisterFile) returns (ok: bool, ghost polls: seq<seq<Word>>)
    modifies rf
    ensures rf.inbox == old(rf.inbox) && rf.outbox == old(rf.outbox) && rf.peer == old(rf.peer)
    ensures |polls| <= |CONFIG_MULTICORE|
    ensures rf.Snapshot() == RunEffect(old(rf.Snapshot()), CONFIG_MULTICORE[..|polls|], polls)
    ensures ok <==> Completed(CONFIG_MULTICORE, polls)
    ensures !ok ==> HungRun(old(rf.Snapshot()), CONFIG_MULTICORE, polls)
  {
    TablesValid();
    ok, polls := Run(rf, CONFIG_MULTICORE);
    if !ok {
      HungNotCompleted(old(rf.Snapshot()), CONFIG_MULTICORE, polls);
    }
  }

  /** Before any mailbox store, `configDevice` has set bit 24 through the
      SET alias of PSM FRCE_ON and has loaded PSM DONE with bit 24 set, as
      its last access; it emits no `sev`. */
  lemma ConfigBeforeMailbox(polls: seq<seq<Word>>)
    requires Completed(CONFIG_MULTICORE, polls)
    ensures var t := ProgTrace(CONFIG_MULTICORE, polls);
            WritesTo(t, FIFO_WR) == [] && Count(t, Sev) == 0 &&
            Write(0x4001_a000, PROC1_BIT) in t &&
            t != [] && t[|t| - 1].Read? && t[|t| - 1].addr == PSM_DONE && t[|t| - 1].value & PROC1_BIT != 0
  {
    TablesValid();
    NoMailboxEvents(CONFIG_MULTICORE, polls);
    MulticoreConfigTrace(polls);
    var n := |CONFIG_UART|;
    ReleaseTail(ProgTrace(CONFIG_UART, polls[..n]), polls[n + 1]);
  }

  /** The release of core 1 as the tail of a trace: the set store, then the
      loads of PSM DONE up to the first with bit 24 set. */
  lemma ReleaseTail(pre: seq<Event>, p: seq<Word>)
    requires Waited(p, PROC1_BIT, true)
    ensures var t := pre + [Write(0x4001_a000, PROC1_BIT)] + Reads(PSM_DONE, p);
            Write(0x4001_a000, PROC1_BIT) in t && t != [] &&
            t[|t| - 1] == Read(PSM_DONE, p[|p| - 1]) && p[|p| - 1] & PROC1_BIT != 0
  {
    var w := pre + [Write(0x4001_a000, PROC1_BIT)];
    assert w[|w| - 1] == Write(0x4001_a000, PROC1_BIT);
    assert (w + Reads(PSM_DONE, p))[|w| - 1] == w[|w| - 1];
  }

  /** The events of `init_core_1` when every word was answered: the two
      drain rounds, then the six handshake rounds. */
  function Launch(ds: seq<seq<Word>>, m: LinkMap, ws: seq<nat>, vs: seq<Word>): seq<Event>
    requires |ws| == 6 && |vs| == 6
  {
    DrainTraces(ds) + Rounds(CmdList(m), ws, vs)
  }

  /** The events of `delay(1000)` and the banner. */
  function Greeting(bpolls: seq<seq<Word>>): seq<Event>
    requires |bpolls| == |BANNER_OUT|
  {
    Nops(Iterations(1000)) + TxTrace(Signed8, BANNER_OUT, bpolls)
  }

  /** `delay(1000)`, then the banner. `ok` is false when a UART wait hangs. */
  method Greet(rf: RegisterFile) returns (ok: bool, ghost bpolls: seq<seq<Word>>, ghost hang: Hang)
    modifies rf
    ensures rf.inbox == old(rf.inbox) && rf.outbox == old(rf.outbox) && rf.peer == old(rf.peer)
    ensures ok ==> |bpolls| == |BANNER_OUT| && rf.trace == old(rf.trace) + Greeting(bpolls)
    ensures !ok ==> hang.mask == TXFF && UartHang(hang, rf.Snapshot(), old(rf.trace) + Nops(Iterations(1000)))
  {
    Delay(rf, 1000);
    BannerFramed();
    ok, bpolls, hang := TxString(rf, Signed8, BANNER);
    if ok {
      ConcatAssoc(old(rf.trace), Nops(Iterations(1000)), TxTrace(Signed8, BANNER_OUT, bpolls));
    }
  }

  /** `main` of core 0 up to its endless loop: `configDevice`, `init_core_1`,
      `delay(1000)` and the banner. Nothing reaches the mailbox unless
      `configDevice` returned; with six replies from core 1 all six words go
      out. `ok` is false when some wait hangs. */
  method RunMain(rf: RegisterFile, m: LinkMap)
    returns (ok: bool, ghost polls: seq<seq<Word>>, ghost ds: seq<seq<Word>>, ghost ws: seq<nat>,
             ghost vs: seq<Word>, ghost bpolls: seq<seq<Word>>, ghost hang: Hang)
    modifies rf
    ensures |polls| <= |CONFIG_MULTICORE|
    ensures !Completed(CONFIG_MULTICORE, polls) ==> !ok && rf.outbox == old(rf.outbox)
    ensures Completed(CONFIG_MULTICORE, polls) && |old(rf.peer)| >= 6 ==> rf.outbox == old(rf.outbox) + CmdList(m)
    ensures ok ==> Completed(CONFIG_MULTICORE, polls) && |ds| == 2 && |ws| == 6 && |vs| == 6 &&
                   |bpolls| == |BANNER_OUT| && rf.outbox == old(rf.outbox) + CmdList(m) &&
                   rf.trace == old(rf.trace) + ProgTrace(CONFIG_MULTICORE, polls) + Launch(ds, m, ws, vs) +
                               Greeting(bpolls)
    ensures !ok ==> HungMain(old(rf.Snapshot()), rf.Snapshot(), rf.outbox, old(rf.outbox), rf.inbox, rf.peer, m,
                             polls, ds, ws, vs, hang)
  {
    ds, ws, vs, bpolls := [], [], [], [];
    hang := Hang(rf.Snapshot(), UART0_FR, TXFF, false, []);
    ok, polls := ConfigDevice(rf);
    if !ok {
      return;
    }
    assert CONFIG_MULTICORE[..|polls|] == CONFIG_MULTICORE;
    ghost var t1 := rf.trace;
    assert t1 == old(rf.trace) + ProgTrace(CONFIG_MULTICORE, polls);
    var launched;
    launched, ds, ws, vs := InitCore1(rf, m);
    if !launched {
      return false, polls, ds, ws, vs, bpolls, hang;
    }
    ghost var t2 := rf.trace;
    assert t2 == t1 + Launch(ds, m, ws, vs) by {
      ConcatAssoc(t1, DrainTraces(ds), Rounds(CmdList(m), ws, vs));
    }
    ok, bpolls, hang := Greet(rf);
  }

  /** Where a hung start of core 0 stopped: in a wait of `configDevice`, with
      nothing after it run; in `init_core_1`, waiting for a reply to handshake
      word |ws| after sending it, with nothing in the inbound FIFO and no reply
      left to come; or in a UARTFR wait of the banner, after the
      whole handshake and `delay(1000)`. */
  ghost predicate HungMain(v0: View, v: View, outbox: seq<Word>, outbox0: seq<Word>, inbox: seq<Reply>,
                           peer: seq<Reply>, m: LinkMap,
                           polls: seq<seq<Word>>, ds: seq<seq<Word>>, ws: seq<nat>, vs: seq<Word>, hang: Hang) {
    (!Completed(CONFIG_MULTICORE, polls) && HungRun(v0, CONFIG_MULTICORE, polls) &&
     v == RunEffect(v0, CONFIG_MULTICORE[..|polls|], polls) && outbox == outbox0) ||
    (Completed(CONFIG_MULTICORE, polls) && |ds| == 2 && |ws| == |vs| < 6 &&
     outbox == outbox0 + CmdList(m)[..|ws| + 1] && inbox == [] && peer == [] &&
     v.trace == v0.trace + ProgTrace(CONFIG_MULTICORE, polls) + DrainTraces(ds) + Rounds(CmdList(m)[..|ws|], ws, vs) +
                ([Write(FIFO_WR, CmdList(m)[|ws|]), Sev] + Spin(1))) ||
    (Completed(CONFIG_MULTICORE, polls) && |ds| == 2 && |ws| == |vs| == 6 && outbox == outbox0 + CmdList(m) &&
     hang.mask == TXFF && UartHang(hang, v, v0.trace + ProgTrace(CONFIG_MULTICORE, polls) + Launch(ds, m, ws, vs) + Nops(Iterations(1000))))
  }

  /** Over the whole of core 0's start: exactly two `sev`s and no mailbox
      store come before the first handshake store, which sends 0; the
      mailbox receives exactly CmdList(m), in order. */
  lemma MainOrder(polls: seq<seq<Word>>, ds: seq<seq<Word>>, m: LinkMap, ws: seq<nat>, vs: seq<Word>)
    requires Completed(CONFIG_MULTICORE, polls) && |ds| == 2 && |ws| == 6 && |vs| == 6
    ensures var before := ProgTrace(CONFIG_MULTICORE, polls) + DrainTraces(ds);
            var hs := Rounds(CmdList(m), ws, vs);
            Count(before, Sev) == 2 && WritesTo(before, FIFO_WR) == [] &&
            hs[0] == Write(FIFO_WR, 0) && WritesTo(before + hs, FIFO_WR) == CmdList(m)
  {
    var cfg := ProgTrace(CONFIG_MULTICORE, polls);
    var hs := Rounds(CmdList(m), ws, vs);
    ConfigBeforeMailbox(polls);
    InitCore1Order(m, ds, ws, vs);
    DrainTracesEvents(ds);
    CountAppend(cfg, DrainTraces(ds), Sev);
    WritesToAppend(cfg, DrainTraces(ds), FIFO_WR);
    RoundsEvents(CmdList(m), ws, vs);
    WritesToAppend(cfg + DrainTraces(ds), hs, FIFO_WR);
  }

  /** The banner reaches UARTDR as its plain ASCII bytes, zero-extended. */
  lemma GreetingEvents(bpolls: seq<seq<Word>>)
    requires |bpolls| == |BANNER_OUT|
    ensures WritesTo(Greeting(bpolls), UART0_DR) == Widened(Unsigned8, BANNER_OUT)
  {
    NopsEvents(Iterations(1000), UART0_DR);
    WritesToAppend(Nops(Iterations(1000)), TxTrace(Signed8, BANNER_OUT, bpolls), UART0_DR);
    TxTraceWrites(Signed8, BANNER_OUT, bpolls);
    BannerAscii();
    WidenedAscii(BANNER_OUT);
  }

  /** The store `main_core_1` toggles the LED with: 1 << 25 at
      0xd0000000 + WRITE_SET + 0x028, an SIO address taken as written. */
  const TOGGLE: Store := Store(LED_TOGGLE, LED_BIT)

  /** `delay_core1(ms)` followed by the toggle store. */
  function Blink(ms: Word): seq<Event> {
    Nops(Iterations(ms)) + [Write(LED_TOGGLE, LED_BIT)]
  }

  /** One pass of `main_core_1`'s endless loop. */
  function Core1Pass(): seq<Event> {
    Blink(100) + Blink(5) + Blink(1) + Blink(5)
  }

  /** `delay_core1(ms)`, then the toggle store. */
  method DelayToggle(rf: RegisterFile, ms: Word)
    modifies rf
    ensures rf.trace == old(rf.trace) + Blink(ms)
    ensures rf.regs == old(rf.regs)[LED_TOGGLE := LED_BIT]
    ensures rf.hw == old(rf.hw) && rf.inbox == old(rf.inbox) && rf.outbox == old(rf.outbox) && rf.peer == old(rf.peer)
  {
    Delay(rf, ms);
    rf.Put32(0xd000_0000 + Offset(Set) as Addr + 0x028, 1 << 25);
    ConcatAssoc(old(rf.trace), Nops(Iterations(ms)), [Write(LED_TOGGLE, LED_BIT)]);
    NormalBits(Reg(old(rf.regs), LED_TOGGLE), LED_BIT);
  }

  /** One pass of `main_core_1`, on core 1's view of the bus. */
  method MainCore1Pass(rf: RegisterFile)
    modifies rf
    ensures rf.trace == old(rf.trace) + Core1Pass()
    ensures rf.regs == old(rf.regs)[LED_TOGGLE := LED_BIT]
    ensures rf.hw == old(rf.hw) && rf.inbox == old(rf.inbox) && rf.outbox == old(rf.outbox) && rf.peer == old(rf.peer)
  {
    ghost var t0 := rf.trace;
    DelayToggle(rf, 100);
    DelayToggle(rf, 5);
    ConcatAssoc(t0, Blink(100), Blink(5));
    DelayToggle(rf, 1);
    ConcatAssoc(t0, Blink(100) + Blink(5), Blink(1));
    DelayToggle(rf, 5);
    ConcatAssoc(t0, Blink(100) + Blink(5) + Blink(1), Blink(5));
  }

  /** A blink stores 1 << 25 at the toggle address once, and nothing else. */
  lemma BlinkEvents(ms: Word)
    ensures WritesTo(Blink(ms), LED_TOGGLE) == [LED_BIT]
    ensures StoresIn(Blink(ms)) == [TOGGLE]
    ensures Count(Blink(ms), Nop) == Iterations(ms)
  {
    var w := [Write(LED_TOGGLE, LED_BIT)];
    assert w[..0] == [];
    NopsEvents(Iterations(ms), LED_TOGGLE);
    WritesToAppend(Nops(Iterations(ms)), w, LED_TOGGLE);
    StoresInAppend(Nops(Iterations(ms)), w);
    CountAppend(Nops(Iterations(ms)), w, Nop);
  }

  /** A pass of `main_core_1` makes exactly four stores, each the toggle,
      and spins 100 + 5 + 1 + 5 milliseconds' worth of `nop`s. */
  lemma Core1PassEvents()
    ensures WritesTo(Core1Pass(), LED_TOGGLE) == [LED_BIT, LED_BIT, LED_BIT, LED_BIT]
    ensures StoresIn(Core1Pass()) == [TOGGLE, TOGGLE, TOGGLE, TOGGLE]
    ensures Count(Core1Pass(), Nop) == 266_178
  {
    ProgramDelaysExact();
    BlinkEvents(100);
    BlinkEvents(5);
    BlinkEvents(1);
    var a, b := Blink(100), Blink(5);
    WritesToAppend(a, b, LED_TOGGLE);
    StoresInAppend(a, b);
    CountAppend(a, b, Nop);
    var c := Blink(1);
    WritesToAppend(a + b, c, LED_TOGGLE);
    StoresInAppend(a + b, c);
    CountAppend(a + b, c, Nop);
    WritesToAppend(a + b + c, b, LED_TOGGLE);
    StoresInAppend(a + b + c, b);
    CountAppend(a + b + c, b, Nop);
  }
}
