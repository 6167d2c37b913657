/** 02_BlockingUART: bring up the crystal, UART0 (115200 baud, 8 bits, FIFOs
    on) and the LED; after a second, send a banner, then for each character
    from '0' to 'Z' send the line "[c] Hola Mundo!", toggle the LED, wait
    400 ms and echo one received character if one is waiting. */
module BlockingUart {
  import opened AtomicAccess
  import opened Registers
  import opened Sequencer
  import opened DeviceConfig
  import opened Timing
  import opened Uart

  /** What a run of events shows on the outside: the words stored to UARTDR
      (sent), the words stored to the LED toggle address, the words loaded
      from UARTDR (received) and the number of `nop`s (time spent waiting). */
  datatype Tally = Tally(tx: seq<Word>, led: seq<Word>, rx: seq<Word>, nops: nat)

  const EMPTY: Tally := Tally([], [], [], 0)

  function Plus(x: Tally, y: Tally): Tally {
    Tally(x.tx + y.tx, x.led + y.led, x.rx + y.rx, x.nops + y.nops)
  }

  function EventTally(e: Event): Tally {
    match e
    case Write(a, v) => Tally(if a == UART0_DR then [v] else [], if a == LED_TOGGLE then [v] else [], [], 0)
    case Read(a, v) => Tally([], [], if a == UART0_DR then [v] else [], 0)
    case Nop => Tally([], [], [], 1)
    case _ => EMPTY
  }

  function TallyOf(t: seq<Event>): Tally {
    Tally(WritesTo(t, UART0_DR), WritesTo(t, LED_TOGGLE), ReadsFrom(t, UART0_DR), Count(t, Nop))
  }

  /** The tally of two runs of events one after the other adds up. */
  lemma TallyAppend(a: seq<Event>, b: seq<Event>)
    ensures TallyOf(a + b) == Plus(TallyOf(a), TallyOf(b))
  {
    WritesToAppend(a, b, UART0_DR);
    WritesToAppend(a, b, LED_TOGGLE);
    ReadsFromAppend(a, b, UART0_DR);
    CountAppend(a, b, Nop);
  }

  lemma OneTally(e: Event)
    ensures TallyOf([e]) == EventTally(e)
  {
    var t := [e];
    assert t[..0] == [] && t[0] == e;
    assert WritesTo(t, UART0_DR) == EventTally(e).tx;
    assert WritesTo(t, LED_TOGGLE) == EventTally(e).led;
    assert ReadsFrom(t, UART0_DR) == EventTally(e).rx;
    assert Count(t, Nop) == EventTally(e).nops;
  }

  /** Loads of a register other than UARTDR show nothing. */
  lemma {:induction false} ReadsTally(a: Addr, vals: seq<Word>)
    requires a != UART0_DR
    ensures TallyOf(Reads(a, vals)) == EMPTY
    decreases |vals|
  {
    if vals != [] {
      var n := |vals| - 1;
      assert Reads(a, vals)[..n] == Reads(a, vals[..n]);
      ReadsTally(a, vals[..n]);
    }
  }

  lemma {:induction false} NopsTally(n: nat)
    ensures TallyOf(Nops(n)) == Tally([], [], [], n)
  {
    if n > 0 {
      assert Nops(n)[..n - 1] == Nops(n - 1);
      NopsTally(n - 1);
    }
  }

  /** One `uartTxChar` sends its widened character and nothing else. */
  lemma TxCharTally(t: CharType, b: Byte, p: seq<Word>)
    ensures TallyOf(TxCharTrace(t, b, p)) == Tally([Widen(t, b)], [], [], 0)
  {
    TallyAppend(Reads(UART0_FR, p), [Write(UART0_DR, Widen(t, b))]);
    ReadsTally(UART0_FR, p);
    OneTally(Write(UART0_DR, Widen(t, b)));
  }

  /** Sending `bs` sends exactly their widened bytes, in order. */
  lemma {:induction false} TxTally(t: CharType, bs: seq<Byte>, polls: seq<seq<Word>>)
    requires |polls| == |bs|
    ensures TallyOf(TxTrace(t, bs, polls)) == Tally(Widened(t, bs), [], [], 0)
    decreases |bs|
  {
    if bs != [] {
      var n := |bs| - 1;
      TxTally(t, bs[..n], polls[..n]);
      TallyAppend(TxTrace(t, bs[..n], polls[..n]), TxCharTrace(t, bs[n], polls[n]));
      TxCharTally(t, bs[n], polls[n]);
      assert bs == bs[..n] + [bs[n]];
      WidenedSnoc(t, bs[..n], bs[n]);
    }
  }

  /** "] Hola Mundo!" in ASCII. */
  const HOLA: seq<Byte> := [0x5d, 0x20, 0x48, 0x6f, 0x6c, 0x61, 0x20, 0x4d, 0x75, 0x6e, 0x64, 0x6f, 0x21]

  /** `textString` as declared, "[ ] Hola Mundo!" with its terminator. */
  const LINE_TEMPLATE: seq<Byte> := [0x5b, 0x20] + HOLA + [0]

  /** What one line sends: '[', the character, "] Hola Mundo!", CR LF. */
  function LineOut(c: Byte): (bs: seq<Byte>)
    ensures |bs| == 17
  {
    [0x5b, c] + HOLA + [CR, LF]
  }

  /** `uartTxString(textString)` after `textString[1] = c` sends LineOut(c). */
  lemma LineFramed(c: Byte)
    requires c != 0
    ensures 0 in LINE_TEMPLATE[1 := c]
    ensures Framed(LINE_TEMPLATE[1 := c]) == LineOut(c)
  {
    var text := [0x5b, c] + HOLA;
    assert LINE_TEMPLATE[1 := c] == text + [0] + [];
    assert 0 !in HOLA;
    FramedText(text, []);
  }

  /** "-= UART Blocking Example for RP2350 =-\n\n" in ASCII. */
  const BANNER_TEXT: seq<Byte> :=
    [0x2d, 0x3d, 0x20, 0x55, 0x41, 0x52, 0x54, 0x20, 0x42, 0x6c, 0x6f, 0x63, 0x6b, 0x69, 0x6e, 0x67, 0x20, 0x45,
     0x78, 0x61, 0x6d, 0x70, 0x6c, 0x65, 0x20, 0x66, 0x6f, 0x72, 0x20, 0x52, 0x50, 0x32, 0x33, 0x35, 0x30, 0x20,
     0x3d, 0x2d, 0x0a, 0x0a]

  /** The banner `main` sends first, as a C string with its terminator. */
  const BANNER: seq<Byte> := BANNER_TEXT + [0]

  /** What sending the banner puts on the line: its text, then CR LF. */
  const BANNER_OUT: seq<Byte> := BANNER_TEXT + [CR, LF]

  lemma BannerFramed()
    ensures 0 in BANNER
    ensures Framed(BANNER) == BANNER_OUT
  {
    assert BANNER == BANNER_TEXT + [0] + [];
    assert 0 !in BANNER_TEXT;
    FramedText(BANNER_TEXT, []);
  }

  /** What an echo sends for the received words `rx` (none or one): the
      received byte, cast to unsigned char. */
  function Echo(rx: seq<Word>): seq<Word> {
    if rx == [] then [] else [Widen(Unsigned8, Low8(rx[0]))]
  }

  /** The echo of a received byte is that byte. */
  lemma EchoIsReceived(w: Word)
    ensures |Echo([w])| == 1 && Low8(Echo([w])[0]) == Low8(w)
  {
    WidenFaithful(Unsigned8, Low8(w));
  }

  datatype Option<T> = None | Some(value: T)

  /** What one echo depended on: the UARTFR loads of the receive wait, the
      word loaded from UARTDR, the UARTFR loads of the transmit wait. */
  datatype EchoPolls = EchoPolls(rxPolls: seq<Word>, data: Word, txPolls: seq<Word>)

  /** The events of `uartTxChar(uartRxChar())`. */
  function EchoTrace(e: EchoPolls): seq<Event> {
    Reads(UART0_FR, e.rxPolls) + [Read(UART0_DR, e.data)] + TxCharTrace(Unsigned8, Low8(e.data), e.txPolls)
  }

  /** What one turn of the inner loop depended on: the loads of the waits
      sending the line, the UARTFR word `uartRxDataAvail` loaded, and the
      echo if that word showed a received byte. */
  datatype Turn = Turn(txPolls: seq<seq<Word>>, status: Word, echo: Option<EchoPolls>)

  /** A turn echoes exactly when the UARTFR word it loaded showed a received
      byte (bit 4 clear). */
  predicate Echoed(u: Turn) {
    u.echo.Some? <==> u.status & RXFE == 0
  }

  /** The word received in a turn, if any. */
  function TurnRx(u: Turn): seq<Word> {
    if u.echo.Some? then [u.echo.value.data] else []
  }

  /** The events of one turn that sends `bs`. */
  function TurnTrace(bs: seq<Byte>, u: Turn): seq<Event>
    requires |u.txPolls| == |bs|
  {
    TxTrace(Unsigned8, bs, u.txPolls) + [Write(LED_TOGGLE, LED_BIT)] + Nops(Iterations(400)) + [Read(UART0_FR, u.status)] +
    (if u.echo.Some? then EchoTrace(u.echo.value) else [])
  }

  /** A turn sends its line, then the echo of what it received; it toggles
      the LED once, loads from UARTDR only the byte it echoes, and runs
      `delay(400)`. */
  lemma TurnTally(bs: seq<Byte>, u: Turn)
    requires |u.txPolls| == |bs|
    ensures TallyOf(TurnTrace(bs, u)) == Tally(Widened(Unsigned8, bs) + Echo(TurnRx(u)), [LED_BIT], TurnRx(u), Iterations(400))
  {
    var tx := TxTrace(Unsigned8, bs, u.txPolls);
    var head := tx + [Write(LED_TOGGLE, LED_BIT)] + Nops(Iterations(400)) + [Read(UART0_FR, u.status)];
    var h := Tally(Widened(Unsigned8, bs), [LED_BIT], [], Iterations(400));
    assert TallyOf(head) == h by {
      HeadTally(tx, bs, u.txPolls, u.status);
    }
    if u.echo.Some? {
      var e := u.echo.value;
      assert TallyOf(head + EchoTrace(e)) == Plus(h, Tally(Echo([e.data]), [], [e.data], 0)) by {
        EchoTally(e.rxPolls, e.data, e.txPolls);
        TallyAppend(head, EchoTrace(e));
      }
    } else {
      assert head + [] == head;
    }
  }

  lemma HeadTally(tx: seq<Event>, bs: seq<Byte>, polls: seq<seq<Word>>, st: Word)
    requires |polls| == |bs| && tx == TxTrace(Unsigned8, bs, polls)
    ensures TallyOf(tx + [Write(LED_TOGGLE, LED_BIT)] + Nops(Iterations(400)) + [Read(UART0_FR, st)]) ==
            Tally(Widened(Unsigned8, bs), [LED_BIT], [], Iterations(400))
  {
    var toggle, wait, load := [Write(LED_TOGGLE, LED_BIT)], Nops(Iterations(400)), [Read(UART0_FR, st)];
    TxTally(Unsigned8, bs, polls);
    TallyAppend(tx, toggle);
    TallyAppend(tx + toggle, wait);
    TallyAppend(tx + toggle + wait, load);
    OneTally(toggle[0]);
    OneTally(load[0]);
    NopsTally(Iterations(400));
  }

  lemma EchoTally(rpolls: seq<Word>, v: Word, tpolls: seq<Word>)
    ensures TallyOf(EchoTrace(EchoPolls(rpolls, v, tpolls))) == Tally(Echo([v]), [], [v], 0)
  {
    var wait, load := Reads(UART0_FR, rpolls), [Read(UART0_DR, v)];
    ReadsTally(UART0_FR, rpolls);
    OneTally(load[0]);
    TallyAppend(wait, load);
    TallyAppend(wait + load, TxCharTrace(Unsigned8, Low8(v), tpolls));
    TxCharTally(Unsigned8, Low8(v), tpolls);
  }

  /** `uartTxChar(uartRxChar())`. `ok` is false when a wait hangs. */
  method EchoTurn(rf: RegisterFile) returns (ok: bool, ghost e: EchoPolls, ghost hang: Hang)
    modifies rf
    ensures rf.inbox == old(rf.inbox) && rf.outbox == old(rf.outbox) && rf.peer == old(rf.peer)
    ensures ok ==> rf.trace == old(rf.trace) + EchoTrace(e) && e.data == old(rf.Peek(UART0_DR))
    ensures !ok ==> UartHang(hang, rf.Snapshot(), old(rf.trace))
  {
    e := EchoPolls([], 0, []);
    ghost var v := rf.Peek(UART0_DR);
    ghost var v1 := rf.Snapshot();
    var got, b, rpolls := RxChar(rf);
    if !got {
      return false, e, Hang(v1, UART0_FR, RXFE, false, rpolls);
    }
    assert rf.trace == old(rf.trace) + (Reads(UART0_FR, rpolls) + [Read(UART0_DR, v)]);
    ghost var v2 := rf.Snapshot();
    var sent, tpolls := TxChar(rf, Unsigned8, b);
    if !sent {
      PrefixGrow(old(rf.trace), Reads(UART0_FR, rpolls) + [Read(UART0_DR, v)], v2.trace);
      return false, e, Hang(v2, UART0_FR, TXFF, false, tpolls);
    }
    hang := Hang(v2, UART0_FR, TXFF, false, tpolls);
    e := EchoPolls(rpolls, v, tpolls);
    ok := true;
    assert rf.trace == old(rf.trace) + EchoTrace(e) by {
      ConcatAssoc(old(rf.trace), Reads(UART0_FR, rpolls) + [Read(UART0_DR, v)], TxCharTrace(Unsigned8, b, tpolls));
    }
  }

  /** The first half of a turn: send the C string `s`, toggle the LED,
      `delay(400)`. `ok` is false when a UART wait hangs. */
  method SendLine(rf: RegisterFile, s: seq<Byte>) returns (ok: bool, ghost polls: seq<seq<Word>>, ghost hang: Hang)
    requires 0 in s
    modifies rf
    ensures rf.inbox == old(rf.inbox) && rf.outbox == old(rf.outbox) && rf.peer == old(rf.peer)
    ensures ok ==> |polls| == |Framed(s)| &&
                   rf.trace == old(rf.trace) + (TxTrace(Unsigned8, Framed(s), polls) + [Write(LED_TOGGLE, LED_BIT)] + Nops(Iterations(400)))
    ensures !ok ==> hang.mask == TXFF && UartHang(hang, rf.Snapshot(), old(rf.trace))
  {
    ghost var t0 := rf.trace;
    ok, polls, hang := TxString(rf, Unsigned8, s);
    if !ok {
      return;
    }
    ghost var done := TxTrace(Unsigned8, Framed(s), polls);
    ghost var step: seq<Event> := [Write(LED_TOGGLE, LED_BIT)];
    rf.Put32(0xd000_0000 + 0x2000 + 0x028, 1 << 25);
    assert rf.trace == t0 + (done + step) by { ConcatAssoc(t0, done, step); }
    done, step := done + step, Nops(Iterations(400));
    Delay(rf, 400);
    assert rf.trace == t0 + (done + step) by { ConcatAssoc(t0, done, step); }
  }

  /** The second half of a turn: `uartRxDataAvail`, and the echo of the
      received byte if UARTFR showed one (bit 4 clear). `ok` is false when a
      UART wait hangs. */
  method PollEcho(rf: RegisterFile) returns (ok: bool, ghost status: Word, ghost echo: Option<EchoPolls>, ghost hang: Hang)
    modifies rf
    ensures rf.inbox == old(rf.inbox) && rf.outbox == old(rf.outbox) && rf.peer == old(rf.peer)
    ensures status == old(rf.Peek(UART0_FR))
    ensures ok ==> (echo.Some? <==> status & RXFE == 0)
    ensures ok ==> rf.trace == old(rf.trace) + ([Read(UART0_FR, status)] + (if echo.Some? then EchoTrace(echo.value) else []))
    ensures !ok ==> status & RXFE == 0 && UartHang(hang, rf.Snapshot(), old(rf.trace) + [Read(UART0_FR, status)])
  {
    status := rf.Peek(UART0_FR);
    echo := None;
    hang := Hang(rf.Snapshot(), UART0_FR, RXFE, false, []);
    var avail := RxDataAvail(rf);
    ghost var t1 := rf.trace;
    if avail {
      var echoed;
      ghost var e;
      echoed, e, hang := EchoTurn(rf);
      if !echoed {
        return false, status, echo, hang;
      }
      echo := Some(e);
      assert rf.trace == old(rf.trace) + ([Read(UART0_FR, status)] + EchoTrace(e)) by {
        ConcatAssoc(old(rf.trace), [Read(UART0_FR, status)], EchoTrace(e));
      }
    } else {
      assert [Read(UART0_FR, status)] + [] == [Read(UART0_FR, status)];
    }
    ok := true;
  }

  /** One turn of the inner loop of `main` for the C string `s`: send it,
      toggle the LED, `delay(400)`, then, if the UARTFR word loaded shows a
      received byte (bit 4 clear), echo it. `ok` is false when a UART wait
      hangs. */
  method LineTurn(rf: RegisterFile, s: seq<Byte>) returns (ok: bool, ghost u: Turn, ghost hang: Hang)
    requires 0 in s
    modifies rf
    ensures rf.inbox == old(rf.inbox) && rf.outbox == old(rf.outbox) && rf.peer == old(rf.peer)
    ensures ok ==> |u.txPolls| == |Framed(s)| && rf.trace == old(rf.trace) + TurnTrace(Framed(s), u)
    ensures ok ==> Echoed(u)
    ensures !ok ==> UartHang(hang, rf.Snapshot(), old(rf.trace))
  {
    u := Turn([], 0, None);
    var sent;
    ghost var polls;
    sent, polls, hang := SendLine(rf, s);
    if !sent {
      return false, u, hang;
    }
    ghost var t1 := rf.trace;
    var polled;
    ghost var st, echo;
    polled, st, echo, hang := PollEcho(rf);
    if !polled {
      PrefixGrow(t1, [Read(UART0_FR, st)], hang.at.trace);
      PrefixGrow(old(rf.trace), TxTrace(Unsigned8, Framed(s), polls) + [Write(LED_TOGGLE, LED_BIT)] + Nops(Iterations(400)), hang.at.trace);
      return false, u, hang;
    }
    u := Turn(polls, st, echo);
    ghost var head := TxTrace(Unsigned8, Framed(s), polls) + [Write(LED_TOGGLE, LED_BIT)] + Nops(Iterations(400));
    ghost var tail := [Read(UART0_FR, st)] + (if echo.Some? then EchoTrace(echo.value) else []);
    assert TurnTrace(Framed(s), u) == head + tail by {
      ConcatAssoc(head, [Read(UART0_FR, st)], if echo.Some? then EchoTrace(echo.value) else []);
    }
    ConcatAssoc(old(rf.trace), head, tail);
    ok := true;
  }

  /** The characters the inner loop runs through: '0' (0x30) to 'Z' (0x5a). */
  const FIRST: Byte := 0x30
  const LAST: Byte := 0x5a
  const LINES: nat := 43

  /** The character of line k (from 0): `i` in the k-th turn of the loop. */
  function LineChar(k: nat): Byte
    requires k <= LINES
  {
    if k == 0 then FIRST else LineChar(k - 1) + 1
  }

  /** The turns of the first lines, each having sent a whole line and echoed
      exactly when UARTFR showed a received byte. */
  predicate LinesWf(turns: seq<Turn>) {
    |turns| <= LINES && forall k :: 0 <= k < |turns| ==> |turns[k].txPolls| == 17 && Echoed(turns[k])
  }

  /** The events of the first |turns| lines, line k being for FIRST + k. */
  function LinesTrace(turns: seq<Turn>): seq<Event>
    requires LinesWf(turns)
    decreases |turns|
  {
    if turns == [] then []
    else
      var n := |turns| - 1;
      LinesTrace(turns[..n]) + TurnTrace(LineOut(LineChar(n)), turns[n])
  }

  /** What each line received, line by line. */
  function Rxs(turns: seq<Turn>): (rxs: seq<seq<Word>>)
    ensures |rxs| == |turns|
    decreases |turns|
  {
    if turns == [] then [] else Rxs(turns[..|turns| - 1]) + [TurnRx(turns[|turns| - 1])]
  }

  /** What the first |rxs| lines send, line k being for character FIRST + k
      and `rxs[k]` what was received after it. */
  function LinesTx(rxs: seq<seq<Word>>): seq<Word>
    requires |rxs| <= LINES
    decreases |rxs|
  {
    if rxs == [] then []
    else
      var n := |rxs| - 1;
      LinesTx(rxs[..n]) + Widened(Unsigned8, LineOut(LineChar(n))) + Echo(rxs[n])
  }

  function Flatten(rxs: seq<seq<Word>>): seq<Word>
    decreases |rxs|
  {
    if rxs == [] then [] else Flatten(rxs[..|rxs| - 1]) + rxs[|rxs| - 1]
  }

  /** The lines, in order, each followed by its echo; one LED toggle and one
      `delay(400)` per line; UARTDR loaded only for the bytes echoed. */
  lemma {:induction false} LinesTally(turns: seq<Turn>)
    requires LinesWf(turns)
    ensures TallyOf(LinesTrace(turns)) == LinesSum(turns)
    decreases |turns|
  {
    if turns == [] {
      assert TallyOf([]) == EMPTY;
      assert Rxs(turns) == [];
    } else {
      var n := |turns| - 1;
      var pre, u := turns[..n], turns[n];
      var line := LineOut(LineChar(n));
      assert pre + [u] == turns;
      LinesSnoc(pre, u);
      LinesTally(pre);
      TurnTally(line, u);
      TallyAppend(LinesTrace(pre), TurnTrace(line, u));
      LinesSumSnoc(pre, u);
    }
  }

  /** What the first |turns| lines add up to. */
  function LinesSum(turns: seq<Turn>): Tally
    requires |turns| <= LINES
  {
    Tally(LinesTx(Rxs(turns)), Toggles(|turns|), Flatten(Rxs(turns)), |turns| * Iterations(400))
  }

  lemma LinesSumSnoc(pre: seq<Turn>, u: Turn)
    requires |pre| < LINES
    ensures LinesSum(pre + [u]) ==
            Plus(LinesSum(pre), Tally(Widened(Unsigned8, LineOut(LineChar(|pre|))) + Echo(TurnRx(u)), [LED_BIT], TurnRx(u), Iterations(400)))
  {
    LinesSumTx(pre, u);
    LinesSumRx(pre, u);
    LinesSumRest(pre, u);
  }

  lemma LinesSumTx(pre: seq<Turn>, u: Turn)
    requires |pre| < LINES
    ensures LinesSum(pre + [u]).tx == LinesSum(pre).tx + (Widened(Unsigned8, LineOut(LineChar(|pre|))) + Echo(TurnRx(u)))
  {
    var w, e := Widened(Unsigned8, LineOut(LineChar(|pre|))), Echo(TurnRx(u));
    RxsSnoc(pre, u);
    LinesTxSnoc(Rxs(pre), TurnRx(u));
    ConcatAssoc(LinesTx(Rxs(pre)), w, e);
  }

  lemma LinesSumRx(pre: seq<Turn>, u: Turn)
    requires |pre| < LINES
    ensures LinesSum(pre + [u]).rx == LinesSum(pre).rx + TurnRx(u)
  {
    RxsSnoc(pre, u);
    assert (Rxs(pre) + [TurnRx(u)])[..|pre|] == Rxs(pre);
  }

  lemma LinesSumRest(pre: seq<Turn>, u: Turn)
    requires |pre| < LINES
    ensures LinesSum(pre + [u]).led == LinesSum(pre).led + [LED_BIT]
    ensures LinesSum(pre + [u]).nops == LinesSum(pre).nops + Iterations(400)
  {
    var n := |pre|;
    assert Toggles(n + 1) == Toggles(n) + [LED_BIT];
    MulSucc(n, Iterations(400));
  }

  lemma MulSucc(n: nat, m: nat)
    ensures (n + 1) * m == n * m + m
  {
  }

  /** The LED toggle words stored by `n` lines. */
  function Toggles(n: nat): (ws: seq<Word>)
    ensures |ws| == n
  {
    if n == 0 then [] else Toggles(n - 1) + [LED_BIT]
  }

  lemma RxsSnoc(turns: seq<Turn>, u: Turn)
    ensures Rxs(turns + [u]) == Rxs(turns) + [TurnRx(u)]
  {
    assert Rxs(turns + [u])[..|turns|] == Rxs(turns);
  }

  lemma LinesTxSnoc(rxs: seq<seq<Word>>, rx: seq<Word>)
    requires |rxs| < LINES
    ensures LinesTx(rxs + [rx]) == LinesTx(rxs) + Widened(Unsigned8, LineOut(LineChar(|rxs|))) + Echo(rx)
  {
    var rs := rxs + [rx];
    assert rs[..|rxs|] == rxs && rs[|rxs|] == rx;
  }

  /** The inner loop of `main`: `textString` is a 16-byte buffer whose
      character 1 is overwritten before each line. `ok` is false when a UART
      wait hangs. */
  method Lines(rf: RegisterFile) returns (ok: bool, ghost turns: seq<Turn>, ghost hang: Hang)
    modifies rf
    ensures rf.inbox == old(rf.inbox) && rf.outbox == old(rf.outbox) && rf.peer == old(rf.peer)
    ensures ok ==> |turns| == LINES && LinesWf(turns) && rf.trace == old(rf.trace) + LinesTrace(turns)
    ensures !ok ==> |turns| < LINES && LinesWf(turns) && UartHang(hang, rf.Snapshot(), old(rf.trace) + LinesTrace(turns))
  {
    hang := Hang(rf.Snapshot(), UART0_FR, TXFF, false, []);
    var i: Byte := FIRST;
    var text := NewText();
    turns := [];
    ghost var t0 := rf.trace;
    LineCharStep(0);
    while i <= LAST
      invariant |turns| <= LINES && i == LineChar(|turns|)
      invariant text[..] == LINE_TEMPLATE[1 := text[1]]
      invariant rf.inbox == old(rf.inbox) && rf.outbox == old(rf.outbox) && rf.peer == old(rf.peer)
      invariant LinesWf(turns) && rf.trace == t0 + LinesTrace(turns)
      decreases LINES - |turns|
    {
      LineCharStep(|turns|);
      var lineOk;
      ghost var u;
      lineOk, u, hang := NextLine(rf, text, i);
      if !lineOk {
        return false, turns, hang;
      }
      LinesStep(t0, turns, u, rf.trace);
      turns := turns + [u];
      i := i + 1;
    }
    LineCharStep(|turns|);
    ok := true;
  }

  /** `unsigned char textString[] = "[ ] Hola Mundo!"`. */
  method NewText() returns (text: array<Byte>)
    ensures fresh(text) && text.Length == 16 && text[..] == LINE_TEMPLATE[1 := text[1]]
  {
    text := new Byte[16](k requires 0 <= k < 16 => LINE_TEMPLATE[k]);
    assert text[..] == LINE_TEMPLATE;
  }

  /** One turn of the inner loop: `textString[1] = c`, then the line. */
  method NextLine(rf: RegisterFile, text: array<Byte>, c: Byte) returns (ok: bool, ghost u: Turn, ghost hang: Hang)
    requires text.Length == 16 && text[..] == LINE_TEMPLATE[1 := text[1]] && c != 0
    modifies rf, text
    ensures text[..] == LINE_TEMPLATE[1 := c]
    ensures rf.inbox == old(rf.inbox) && rf.outbox == old(rf.outbox) && rf.peer == old(rf.peer)
    ensures ok ==> |u.txPolls| == 17 && Echoed(u) && rf.trace == old(rf.trace) + TurnTrace(LineOut(c), u)
    ensures !ok ==> UartHang(hang, rf.Snapshot(), old(rf.trace))
  {
    ghost var before := text[..];
    text[1] := c;
    assert text[..] == before[1 := c];
    TemplateSet(before, c);
    LineFramed(c);
    ok, u, hang := LineTurn(rf, text[..]);
  }

  /** Overwriting character 1 of the template buffer again. */
  lemma TemplateSet(text: seq<Byte>, c: Byte)
    requires |text| == 16 && text == LINE_TEMPLATE[1 := text[1]]
    ensures text[1 := c] == LINE_TEMPLATE[1 := c]
  {
  }

  /** The loop's `i` runs through the line characters and stops after 'Z'. */
  lemma LineCharStep(k: nat)
    requires k <= LINES
    ensures LineChar(k) <= LAST <==> k < LINES
    ensures k < LINES ==> LineChar(k) != 0
  {
    LineCharValue(k);
  }

  lemma LineCharNext(k: nat)
    requires k < LINES
    ensures LineChar(k + 1) == LineChar(k) + 1
  {
  }

  lemma {:induction false} LineCharValue(k: nat)
    requires k <= LINES
    ensures LineChar(k) as int == 0x30 + k
  {
    if k > 0 {
      LineCharValue(k - 1);
      var x := LineChar(k - 1);
      assert x < 0xff;
      assert (x + 1) as int == x as int + 1;
    }
  }

  /** One more turn of the loop, for the character LineChar(|turns|). */
  lemma LinesStep(t0: seq<Event>, turns: seq<Turn>, u: Turn, tr: seq<Event>)
    requires LinesWf(turns) && |turns| < LINES && |u.txPolls| == 17 && Echoed(u)
    requires tr == t0 + LinesTrace(turns) + TurnTrace(LineOut(LineChar(|turns|)), u)
    ensures LinesWf(turns + [u]) && tr == t0 + LinesTrace(turns + [u])
    ensures LineChar(|turns|) + 1 == LineChar(|turns + [u]|)
  {
    var line := TurnTrace(LineOut(LineChar(|turns|)), u);
    assert LinesWf(turns + [u]) && LinesTrace(turns + [u]) == LinesTrace(turns) + line by {
      LinesSnoc(turns, u);
    }
    assert tr == t0 + (LinesTrace(turns) + line) by {
      ConcatAssoc(t0, LinesTrace(turns), line);
    }
    assert LineChar(|turns|) + 1 == LineChar(|turns + [u]|) by {
      LineCharNext(|turns|);
    }
  }

  lemma LinesSnoc(turns: seq<Turn>, u: Turn)
    requires LinesWf(turns) && |turns| < LINES && |u.txPolls| == 17 && Echoed(u)
    ensures LinesWf(turns + [u])
    ensures LinesTrace(turns + [u]) == LinesTrace(turns) + TurnTrace(LineOut(LineChar(|turns|)), u)
  {
    var ts := turns + [u];
    assert ts[..|turns|] == turns;
    assert ts[|turns|] == u;
    assert LinesWf(ts) by {
      forall k | 0 <= k < |ts|
        ensures |ts[k].txPolls| == 17 && Echoed(ts[k])
      {
        if k < |turns| { assert ts[k] == turns[k]; }
      }
    }
  }

  /** `configDevice`: the table CONFIG_UART. `ok` is false when a wait can
      never finish. */
  method ConfigDevice(rf: RegisterFile) returns (ok: bool, ghost polls: seq<seq<Word>>)
    modifies rf
    ensures rf.inbox == old(rf.inbox) && rf.outbox == old(rf.outbox) && rf.peer == old(rf.peer)
    ensures |polls| <= |CONFIG_UART|
    ensures rf.Snapshot() == RunEffect(old(rf.Snapshot()), CONFIG_UART[..|polls|], polls)
    ensures ok <==> Completed(CONFIG_UART, polls)
    ensures !ok ==> HungRun(old(rf.Snapshot()), CONFIG_UART, polls)
  {
    TablesValid();
    ok, polls := Run(rf, CONFIG_UART);
    if !ok {
      HungNotCompleted(old(rf.Snapshot()), CONFIG_UART, polls);
    }
  }

  /** The events of `main` after `configDevice`, up to the end of the first
      pass of its endless loop, when the banner sends `banner`. */
  function MainTrace(banner: seq<Byte>, bpolls: seq<seq<Word>>, turns: seq<Turn>): seq<Event>
    requires |bpolls| == |banner| && LinesWf(turns)
  {
    Nops(Iterations(1000)) + TxTrace(Unsigned8, banner, bpolls) + LinesTrace(turns)
  }

  /** `delay(1000)`, then the banner. `ok` is false when a UART wait hangs. */
  method Greet(rf: RegisterFile) returns (ok: bool, ghost bpolls: seq<seq<Word>>, ghost hang: Hang)
    modifies rf
    ensures rf.inbox == old(rf.inbox) && rf.outbox == old(rf.outbox) && rf.peer == old(rf.peer)
    ensures ok ==> |bpolls| == |BANNER_OUT| &&
                   rf.trace == old(rf.trace) + (Nops(Iterations(1000)) + TxTrace(Unsigned8, BANNER_OUT, bpolls))
    ensures !ok ==> hang.mask == TXFF && UartHang(hang, rf.Snapshot(), old(rf.trace) + Nops(Iterations(1000)))
  {
    Delay(rf, 1000);
    ghost var t1 := rf.trace;
    BannerFramed();
    ok, bpolls, hang := TxString(rf, Unsigned8, BANNER);
    if ok {
      ConcatAssoc(old(rf.trace), Nops(Iterations(1000)), TxTrace(Unsigned8, BANNER_OUT, bpolls));
    }
  }

  /** `main` up to the end of the first pass of its endless loop:
      `configDevice`, `delay(1000)`, the banner, then the 43 lines. */
  method RunMain(rf: RegisterFile) returns (ok: bool, ghost polls: seq<seq<Word>>, ghost bpolls: seq<seq<Word>>,
                                         ghost turns: seq<Turn>, ghost hang: Hang)
    modifies rf
    ensures rf.inbox == old(rf.inbox) && rf.outbox == old(rf.outbox) && rf.peer == old(rf.peer)
    ensures |polls| <= |CONFIG_UART|
    ensures ok ==> Completed(CONFIG_UART, polls) && |bpolls| == |BANNER_OUT| && |turns| == LINES && LinesWf(turns)
    ensures ok ==> rf.trace == old(rf.trace) + ProgTrace(CONFIG_UART, polls) + MainTrace(BANNER_OUT, bpolls, turns)
    ensures !ok ==> HungMain(old(rf.Snapshot()), rf.Snapshot(), polls, bpolls, turns, hang)
  {
    bpolls, turns := [], [];
    hang := Hang(rf.Snapshot(), UART0_FR, TXFF, false, []);
    ok, polls := ConfigDevice(rf);
    if !ok {
      return;
    }
    assert CONFIG_UART[..|polls|] == CONFIG_UART;
    ghost var t1 := rf.trace;
    assert t1 == old(rf.trace) + ProgTrace(CONFIG_UART, polls);
    var greeted;
    greeted, bpolls, hang := Greet(rf);
    if !greeted {
      return false, polls, bpolls, turns, hang;
    }
    ghost var greeting := Nops(Iterations(1000)) + TxTrace(Unsigned8, BANNER_OUT, bpolls);
    ok, turns, hang := Lines(rf);
    ConcatAssoc(t1, greeting, LinesTrace(turns));
  }

  /** Where a hung `main` stopped: in a wait of `configDevice`, with nothing
      after it run; in a UARTFR wait of the banner, after `delay(1000)`; or
      in a UARTFR wait of line |turns|, after the banner and the lines
      before it. */
  ghost predicate HungMain(v0: View, v: View, polls: seq<seq<Word>>, bpolls: seq<seq<Word>>,
                           turns: seq<Turn>, hang: Hang) {
    (!Completed(CONFIG_UART, polls) && HungRun(v0, CONFIG_UART, polls) &&
     v == RunEffect(v0, CONFIG_UART[..|polls|], polls)) ||
    (Completed(CONFIG_UART, polls) && hang.mask == TXFF &&
     UartHang(hang, v, v0.trace + ProgTrace(CONFIG_UART, polls) + Nops(Iterations(1000)))) ||
    (Completed(CONFIG_UART, polls) && |bpolls| == |BANNER_OUT| && |turns| < LINES && LinesWf(turns) &&
     UartHang(hang, v, v0.trace + ProgTrace(CONFIG_UART, polls) + MainTrace(BANNER_OUT, bpolls, turns)))
  }

  /** After configuration, a pass of `main` sends the banner and then every
      line with its echo, toggles the LED once per line, loads from UARTDR
      only the bytes it echoes, and spends 1000 + 43 * 400 ms in delay loops. */
  lemma MainTally(banner: seq<Byte>, bpolls: seq<seq<Word>>, turns: seq<Turn>)
    requires |bpolls| == |banner| && |turns| == LINES && LinesWf(turns)
    ensures TallyOf(MainTrace(banner, bpolls, turns)) ==
            Tally(Widened(Unsigned8, banner) + LinesTx(Rxs(turns)), Toggles(LINES), Flatten(Rxs(turns)), 43_643_600)
  {
    var wait, sent, lines := Nops(Iterations(1000)), TxTrace(Unsigned8, banner, bpolls), LinesTrace(turns);
    NopsTally(Iterations(1000));
    TxTally(Unsigned8, banner, bpolls);
    LinesTally(turns);
    TallyAppend(wait, sent);
    TallyAppend(wait + sent, lines);
    PlusThree(Iterations(1000), Widened(Unsigned8, banner), LinesSum(turns));
    MainDelays();
  }

  /** A wait, a send and a tally `z` in a row. */
  lemma PlusThree(n: nat, ws: seq<Word>, z: Tally)
    ensures Plus(Plus(Tally([], [], [], n), Tally(ws, [], [], 0)), z) == Tally(ws + z.tx, z.led, z.rx, n + z.nops)
  {
    assert [] + ws == ws;
  }

  /** `delay(1000)` and 43 times `delay(400)`, in `nop`s. */
  lemma MainDelays()
    ensures Iterations(1000) + LINES * Iterations(400) == 43_643_600
  {
    ProgramDelaysExact();
  }
}
