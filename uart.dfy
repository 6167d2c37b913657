/** The blocking UART0 driver that 02_BlockingUART and 03_MultiCore share:
    transmit one character once the transmit FIFO has room, transmit a
    NUL-terminated string followed by CR LF, test for a received character,
    and receive one. The two programs differ only in the character type
    `uartTxChar` takes: unsigned char in the first, int8_t in the second. */
module Uart {
  import opened AtomicAccess
  import opened Registers

  const UART0_DR: Addr := 0x4007_0000
  const UART0_FR: Addr := 0x4007_0018
  /** UARTFR bit 5: the transmit FIFO is full. */
  const TXFF: Word := 0x20
  /** UARTFR bit 4: the receive FIFO is empty. */
  const RXFE: Word := 0x10
  const CR: Byte := 13
  const LF: Byte := 10

  /** The parameter type of `uartTxChar`. */
  datatype CharType = Unsigned8 | Signed8

  /** The 32-bit word PUT32 stores for a character of type `t` with bits `b`:
      zero-extended when unsigned, sign-extended when signed. */
  function Widen(t: CharType, b: Byte): Word {
    if t == Signed8 && b >= 0x80 then (b as Word) | 0xffff_ff00 else b as Word
  }

  /** The cast to unsigned char: the low 8 bits of a word. */
  function Low8(w: Word): Byte {
    (w & 0xff) as Byte
  }

  /** The integer a signed or unsigned 8-bit character stands for. */
  function CharValue(t: CharType, b: Byte): int {
    if t == Signed8 && b >= 0x80 then b as int - 0x100 else b as int
  }

  /** The integer an `int` register word stands for in two's complement. */
  function WordValue(w: Word): int {
    if w >= 0x8000_0000 then w as int - 0x1_0000_0000 else w as int
  }

  /** Widening keeps the character's value, and its low byte is the character:
      the byte a receive returns is the byte an echo transmits. */
  lemma WidenFaithful(t: CharType, b: Byte)
    ensures Low8(Widen(t, b)) == b
    ensures t == Unsigned8 ==> Widen(t, b) as int == CharValue(t, b)
    ensures t == Signed8 ==> WordValue(Widen(t, b)) == CharValue(t, b)
  {
    if t == Signed8 && b >= 0x80 {
      var w := (b as Word) | 0xffff_ff00;
      assert w as int == b as int + 0xffff_ff00 by {
        assert b as Word & 0xffff_ff00 == 0;
      }
    }
  }

  /** On ASCII text the two character types store the same words. */
  lemma WidenAscii(b: Byte)
    requires b < 0x80
    ensures Widen(Signed8, b) == Widen(Unsigned8, b) == b as Word
  {}

  /** The index of the terminating NUL. */
  function NulIndex(s: seq<Byte>): (n: nat)
    requires 0 in s
    ensures n < |s| && s[n] == 0
    ensures forall j :: 0 <= j < n ==> s[j] != 0
  {
    if s[0] == 0 then 0 else 1 + NulIndex(s[1..])
  }

  /** The bytes `uartTxString` sends for the C string `s`: everything before
      the first NUL, then CR LF. */
  function Framed(s: seq<Byte>): seq<Byte>
    requires 0 in s
  {
    s[..NulIndex(s)] + [CR, LF]
  }

  /** A string whose text holds no NUL is sent as its text then CR LF, whatever
      follows the terminator; the empty string sends only CR LF. */
  lemma {:induction false} FramedText(text: seq<Byte>, rest: seq<Byte>)
    requires 0 !in text
    ensures 0 in text + [0] + rest
    ensures Framed(text + [0] + rest) == text + [CR, LF]
    decreases |text|
  {
    var s := text + [0] + rest;
    assert s[|text|] == 0;
    if text != [] {
      assert s[1..] == text[1..] + [0] + rest;
      FramedText(text[1..], rest);
      assert s[..NulIndex(s)] == [text[0]] + text[1..];
    }
  }

  /** The events of one `uartTxChar`: loads of UARTFR, then the store to UARTDR. */
  function TxCharTrace(t: CharType, b: Byte, polls: seq<Word>): seq<Event> {
    Reads(UART0_FR, polls) + [Write(UART0_DR, Widen(t, b))]
  }

  /** The events of `uartTxChar` for each of `bs` in turn. */
  function TxTrace(t: CharType, bs: seq<Byte>, polls: seq<seq<Word>>): seq<Event>
    requires |polls| == |bs|
    decreases |bs|
  {
    if bs == [] then []
    else TxTrace(t, bs[..|bs| - 1], polls[..|bs| - 1]) + TxCharTrace(t, bs[|bs| - 1], polls[|bs| - 1])
  }

  /** The words stored for `bs`. */
  function Widened(t: CharType, bs: seq<Byte>): (ws: seq<Word>)
    ensures |ws| == |bs|
    decreases |bs|
  {
    if bs == [] then [] else Widened(t, bs[..|bs| - 1]) + [Widen(t, bs[|bs| - 1])]
  }

  /** The stores that send `bs`. */
  function DrStores(t: CharType, bs: seq<Byte>): (ss: seq<Store>)
    ensures |ss| == |bs|
    decreases |bs|
  {
    if bs == [] then [] else DrStores(t, bs[..|bs| - 1]) + [Store(UART0_DR, Widen(t, bs[|bs| - 1]))]
  }

  /** Total number of loads. */
  function Total(polls: seq<seq<Word>>): nat
    decreases |polls|
  {
    if polls == [] then 0 else Total(polls[..|polls| - 1]) + |polls[|polls| - 1]|
  }

  /** One `uartTxChar` stores exactly its widened character to UARTDR. */
  lemma TxCharWrites(t: CharType, b: Byte, p: seq<Word>)
    ensures WritesTo(TxCharTrace(t, b, p), UART0_DR) == [Widen(t, b)]
  {
    WritesToAppend(Reads(UART0_FR, p), [Write(UART0_DR, Widen(t, b))], UART0_DR);
    NoWritesInReads(UART0_FR, p, UART0_DR);
    assert [Write(UART0_DR, Widen(t, b))][..0] == [];
  }

  lemma WidenedSnoc(t: CharType, bs: seq<Byte>, b: Byte)
    ensures Widened(t, bs + [b]) == Widened(t, bs) + [Widen(t, b)]
  {
    assert (bs + [b])[..|bs|] == bs;
  }

  /** Text in the 7-bit ASCII range. */
  predicate Ascii(bs: seq<Byte>) {
    forall i :: 0 <= i < |bs| ==> bs[i] < 0x80
  }

  /** On ASCII text a signed-char string stores the same words as an
      unsigned one: each is its byte, zero-extended. */
  lemma {:induction false} WidenedAscii(bs: seq<Byte>)
    requires Ascii(bs)
    ensures Widened(Signed8, bs) == Widened(Unsigned8, bs)
    decreases |bs|
  {
    if bs != [] {
      var n := |bs| - 1;
      assert Ascii(bs[..n]) by {
        forall i | 0 <= i < n
          ensures bs[..n][i] < 0x80
        {
          assert bs[..n][i] == bs[i];
        }
      }
      WidenedAscii(bs[..n]);
      WidenAscii(bs[n]);
    }
  }

  /** Sending `bs` stores exactly their widened bytes to UARTDR, in order. */
  lemma {:induction false} TxTraceWrites(t: CharType, bs: seq<Byte>, polls: seq<seq<Word>>)
    requires |polls| == |bs|
    ensures WritesTo(TxTrace(t, bs, polls), UART0_DR) == Widened(t, bs)
    decreases |bs|
  {
    if bs != [] {
      var n := |bs| - 1;
      TxTraceWrites(t, bs[..n], polls[..n]);
      WritesToAppend(TxTrace(t, bs[..n], polls[..n]), TxCharTrace(t, bs[n], polls[n]), UART0_DR);
      TxCharWrites(t, bs[n], polls[n]);
      assert bs == bs[..n] + [bs[n]];
      WidenedSnoc(t, bs[..n], bs[n]);
    }
  }

  /** If event j of `tr` is a store, it goes to UARTDR and comes right after a
      load of UARTFR that showed room in the transmit FIFO. */
  predicate GuardedAt(tr: seq<Event>, j: nat)
    requires j < |tr|
  {
    tr[j].Write? ==>
      tr[j].addr == UART0_DR && 0 < j && tr[j - 1].Read? && tr[j - 1].addr == UART0_FR &&
      tr[j - 1].value & TXFF == 0
  }

  predicate Guarded(tr: seq<Event>) {
    forall j :: 0 <= j < |tr| ==> GuardedAt(tr, j)
  }

  /** Every store of a transmission goes to UARTDR right after a load of
      UARTFR that showed room in the transmit FIFO. */
  lemma {:induction false} TxTraceGuarded(t: CharType, bs: seq<Byte>, polls: seq<seq<Word>>)
    requires |polls| == |bs| && AllWaited(polls)
    ensures Guarded(TxTrace(t, bs, polls))
    decreases |bs|
  {
    if bs != [] {
      var n := |bs| - 1;
      assert AllWaited(polls[..n]);
      TxTraceGuarded(t, bs[..n], polls[..n]);
      assert Waited(polls[n], TXFF, false);
      GuardedSnoc(TxTrace(t, bs[..n], polls[..n]), t, bs[n], polls[n]);
    }
  }

  /** A guarded trace stays guarded when a `uartTxChar` that waited for room
      is appended. */
  lemma GuardedSnoc(a: seq<Event>, t: CharType, b: Byte, p: seq<Word>)
    requires Guarded(a) && Waited(p, TXFF, false)
    ensures Guarded(a + TxCharTrace(t, b, p))
  {
    var tr := a + TxCharTrace(t, b, p);
    forall j | 0 <= j < |tr|
      ensures GuardedAt(tr, j)
    {
      if j < |a| {
        GuardedLeft(a, TxCharTrace(t, b, p), j);
      } else {
        GuardedRight(a, t, b, p, j - |a|);
      }
    }
  }

  lemma GuardedLeft(a: seq<Event>, c: seq<Event>, j: nat)
    requires j < |a| && GuardedAt(a, j)
    ensures GuardedAt(a + c, j)
  {
    assert (a + c)[j] == a[j];
    if 0 < j {
      assert (a + c)[j - 1] == a[j - 1];
    }
  }

  lemma GuardedRight(a: seq<Event>, t: CharType, b: Byte, p: seq<Word>, k: nat)
    requires Waited(p, TXFF, false) && k < |TxCharTrace(t, b, p)|
    ensures GuardedAt(a + TxCharTrace(t, b, p), |a| + k)
  {
    var c := TxCharTrace(t, b, p);
    var tr := a + c;
    assert tr[|a| + k] == c[k];
    if k < |p| {
      assert c[k] == Read(UART0_FR, p[k]);
    } else {
      assert tr[|a| + k - 1] == c[|p| - 1] == Read(UART0_FR, p[|p| - 1]);
    }
  }

  /** Every wait of `polls` stopped at its first load showing room. */
  predicate AllWaited(polls: seq<seq<Word>>) {
    forall i :: 0 <= i < |polls| ==> Waited(polls[i], TXFF, false)
  }

  /** The effect of one `uartTxChar` whose wait made loads `p`. */
  function TxCharEffect(v: View, t: CharType, b: Byte, p: seq<Word>): View {
    Stored(Polled(v, UART0_FR, p), UART0_DR, Widen(t, b))
  }

  /** The effect of sending `bs` in full, the waits making loads `polls`. */
  function TxEffect(v: View, t: CharType, bs: seq<Byte>, polls: seq<seq<Word>>): View
    requires |polls| == |bs|
  {
    View(ApplyStores(v.regs, DrStores(t, bs)), Drop(v.hw, UART0_FR, Total(polls)), v.trace + TxTrace(t, bs, polls))
  }

  lemma DrStoresSnoc(t: CharType, bs: seq<Byte>, b: Byte)
    ensures DrStores(t, bs + [b]) == DrStores(t, bs) + [Store(UART0_DR, Widen(t, b))]
  {
    assert (bs + [b])[..|bs|] == bs;
  }

  lemma TxTraceSnoc(t: CharType, bs: seq<Byte>, polls: seq<seq<Word>>, b: Byte, p: seq<Word>)
    requires |polls| == |bs|
    ensures TxTrace(t, bs + [b], polls + [p]) == TxTrace(t, bs, polls) + TxCharTrace(t, b, p)
  {
    assert (bs + [b])[..|bs|] == bs;
    assert (polls + [p])[..|bs|] == polls;
  }

  lemma TotalSnoc(polls: seq<seq<Word>>, p: seq<Word>)
    ensures Total(polls + [p]) == Total(polls) + |p|
  {
    assert (polls + [p])[..|polls|] == polls;
  }

  /** Sending one more character is one more `uartTxChar`. */
  lemma TxEffectSnoc(v: View, t: CharType, bs: seq<Byte>, polls: seq<seq<Word>>, b: Byte, p: seq<Word>)
    requires |polls| == |bs|
    ensures TxEffect(v, t, bs + [b], polls + [p]) == TxCharEffect(TxEffect(v, t, bs, polls), t, b, p)
  {
    TxRegsSnoc(v.regs, t, bs, b);
    TxHwSnoc(v.hw, polls, p);
    TxEventsSnoc(v.trace, t, bs, polls, b, p);
  }

  lemma TxRegsSnoc(regs: map<Addr, Word>, t: CharType, bs: seq<Byte>, b: Byte)
    ensures ApplyStores(regs, DrStores(t, bs + [b])) ==
            ApplyStore(ApplyStores(regs, DrStores(t, bs)), Store(UART0_DR, Widen(t, b)))
  {
    DrStoresSnoc(t, bs, b);
    ApplyStoresSnoc(regs, DrStores(t, bs), Store(UART0_DR, Widen(t, b)));
  }

  lemma TxHwSnoc(hw: map<Addr, seq<Word>>, polls: seq<seq<Word>>, p: seq<Word>)
    ensures Drop(hw, UART0_FR, Total(polls + [p])) == Drop(Drop(hw, UART0_FR, Total(polls)), UART0_FR, |p|)
  {
    TotalSnoc(polls, p);
    DropDrop(hw, UART0_FR, Total(polls), |p|);
  }

  lemma TxEventsSnoc(t0: seq<Event>, t: CharType, bs: seq<Byte>, polls: seq<seq<Word>>, b: Byte, p: seq<Word>)
    requires |polls| == |bs|
    ensures t0 + TxTrace(t, bs + [b], polls + [p]) ==
            t0 + TxTrace(t, bs, polls) + Reads(UART0_FR, p) + [Write(UART0_DR, Widen(t, b))]
  {
    TxTraceSnoc(t, bs, polls, b, p);
    var tx, rd, wr := TxTrace(t, bs, polls), Reads(UART0_FR, p), [Write(UART0_DR, Widen(t, b))];
    ConcatAssoc(tx, rd, wr);
    ConcatAssoc(t0, tx + rd, wr);
    ConcatAssoc(t0, tx, rd);
  }

  /** `uartTxChar`: waits until UARTFR shows room (bit 5 clear), then stores the
      character to UARTDR. `ok` is false when the FIFO never drains. */
  method TxChar(rf: RegisterFile, t: CharType, b: Byte) returns (ok: bool, ghost polls: seq<Word>)
    modifies rf
    ensures rf.inbox == old(rf.inbox) && rf.outbox == old(rf.outbox) && rf.peer == old(rf.peer)
    ensures ok ==> Waited(polls, TXFF, false) && rf.Snapshot() == TxCharEffect(old(rf.Snapshot()), t, b, polls)
    ensures polls <= old(rf.Script(UART0_FR))
    ensures !ok ==> HungIn(Hang(old(rf.Snapshot()), UART0_FR, TXFF, false, polls), rf.Snapshot())
    ensures ok ==> rf.trace == old(rf.trace) + TxCharTrace(t, b, polls)
  {
    ok, polls := rf.Await(UART0_FR, TXFF, false);
    if ok {
      rf.Put32(UART0_DR, Widen(t, b));
    }
  }

  /** The program spins for ever in the UARTFR wait `h` (room to send or a
      byte to receive) and has reached `v`; `pre` had gone out before that
      wait began. */
  predicate UartHang(h: Hang, v: View, pre: seq<Event>) {
    HungIn(h, v) && h.addr == UART0_FR && !h.wantSet && (h.mask == TXFF || h.mask == RXFE) && pre <= h.at.trace
  }

  /** `uartTxString`: sends `Framed(s)`. When `ok` is false the first
      |polls| - 1 characters went out and the sender hangs waiting for room
      for the next. */
  method TxString(rf: RegisterFile, t: CharType, s: seq<Byte>)
    returns (ok: bool, ghost polls: seq<seq<Word>>, ghost hang: Hang)
    requires 0 in s
    modifies rf
    ensures rf.inbox == old(rf.inbox) && rf.outbox == old(rf.outbox) && rf.peer == old(rf.peer)
    ensures ok ==> |polls| == |Framed(s)| && AllWaited(polls) &&
                   rf.Snapshot() == TxEffect(old(rf.Snapshot()), t, Framed(s), polls)
    ensures !ok ==> 0 < |polls| <= |Framed(s)| && AllWaited(polls[..|polls| - 1]) &&
                    hang == TxHang(old(rf.Snapshot()), t, Framed(s), polls) &&
                    UartHang(hang, rf.Snapshot(), old(rf.trace))
  {
    ghost var f := Framed(s);
    ghost var v0 := rf.Snapshot();
    hang := Hang(v0, UART0_FR, TXFF, false, []);
    ok, polls := TxText(rf, t, s, v0, f);
    if !ok {
      TxHangAfter(v0, t, f, polls, rf.Snapshot());
      return ok, polls, TxHang(v0, t, f, polls);
    }
    ok, polls := TxLineEnd(rf, t, v0, f, polls);
    if !ok {
      TxHangAfter(v0, t, f, polls, rf.Snapshot());
      hang := TxHang(v0, t, f, polls);
    }
  }

  /** The wait a sender of `f` hangs in, the bytes before it having gone out
      with loads `polls` minus the last. */
  function TxHang(v0: View, t: CharType, f: seq<Byte>, polls: seq<seq<Word>>): Hang
    requires 0 < |polls| <= |f|
  {
    var n := |polls| - 1;
    Hang(TxEffect(v0, t, f[..n], polls[..n]), UART0_FR, TXFF, false, polls[n])
  }

  lemma TxHangAfter(v0: View, t: CharType, f: seq<Byte>, polls: seq<seq<Word>>, v: View)
    requires 0 < |polls| <= |f| && HungIn(TxHang(v0, t, f, polls), v)
    ensures UartHang(TxHang(v0, t, f, polls), v, v0.trace)
  {
    var n := |polls| - 1;
    PrefixGrow(v0.trace, TxTrace(t, f[..n], polls[..n]), TxHang(v0, t, f, polls).at.trace);
  }

  /** The loop of `uartTxString`: sends the bytes of `s` before its NUL, the
      first bytes of `f`. */
  method TxText(rf: RegisterFile, t: CharType, s: seq<Byte>, ghost v0: View, ghost f: seq<Byte>)
    returns (ok: bool, ghost polls: seq<seq<Word>>)
    requires 0 in s && f == Framed(s) && rf.Snapshot() == v0
    modifies rf
    ensures rf.inbox == old(rf.inbox) && rf.outbox == old(rf.outbox) && rf.peer == old(rf.peer)
    ensures ok ==> |polls| == |f| - 2 && f[|f| - 2] == CR && f[|f| - 1] == LF &&
                   AllWaited(polls) && rf.Snapshot() == TxEffect(v0, t, f[..|polls|], polls)
    ensures !ok ==> 0 < |polls| <= |f| && AllWaited(polls[..|polls| - 1]) && HungIn(TxHang(v0, t, f, polls), rf.Snapshot())
  {
    polls := [];
    var i := 0;
    while s[i] != 0
      invariant 0 <= i <= NulIndex(s) && |polls| == i
      invariant rf.inbox == old(rf.inbox) && rf.outbox == old(rf.outbox) && rf.peer == old(rf.peer)
      invariant AllWaited(polls) && rf.Snapshot() == TxEffect(v0, t, f[..i], polls)
      decreases NulIndex(s) - i
    {
      FramedAt(s, i);
      polls, ok := TxNext(rf, t, s[i], v0, f, i, polls);
      if !ok {
        return;
      }
      i := i + 1;
    }
    FramedAt(s, i);
    FramedAt(s, i + 1);
    ok := true;
  }

  /** The CR LF that close `f`, the text before them having gone out with
      loads `polls`. */
  method TxLineEnd(rf: RegisterFile, t: CharType, ghost v0: View, ghost f: seq<Byte>,
                   ghost polls: seq<seq<Word>>) returns (ok: bool, ghost polls': seq<seq<Word>>)
    requires |f| >= 2 && f[|f| - 2] == CR && f[|f| - 1] == LF && |polls| == |f| - 2 && AllWaited(polls)
    requires rf.Snapshot() == TxEffect(v0, t, f[..|f| - 2], polls)
    modifies rf
    ensures rf.inbox == old(rf.inbox) && rf.outbox == old(rf.outbox) && rf.peer == old(rf.peer)
    ensures ok ==> |polls'| == |f| && AllWaited(polls') && rf.Snapshot() == TxEffect(v0, t, f, polls')
    ensures !ok ==> 0 < |polls'| <= |f| && AllWaited(polls'[..|polls'| - 1]) && HungIn(TxHang(v0, t, f, polls'), rf.Snapshot())
  {
    var i := |f| - 2;
    var sent;
    polls', sent := TxNext(rf, t, CR, v0, f, i, polls);
    if !sent {
      return false, polls';
    }
    polls', ok := TxNext(rf, t, LF, v0, f, i + 1, polls');
    if ok {
      assert f[..i + 2] == f;
    }
  }

  /** Byte i of the framed string. */
  lemma FramedAt(s: seq<Byte>, i: nat)
    requires 0 in s && i <= NulIndex(s) + 1
    ensures |Framed(s)| == NulIndex(s) + 2
    ensures Framed(s)[i] == if i < NulIndex(s) then s[i] else if i == NulIndex(s) then CR else LF
  {}

  /** Sends byte i of `f`, the bytes before it having gone out with loads
      `polls`, and extends `polls` with the loads it makes. */
  method TxNext(rf: RegisterFile, t: CharType, b: Byte, ghost v0: View, ghost f: seq<Byte>, ghost i: nat,
                ghost polls: seq<seq<Word>>) returns (ghost polls': seq<seq<Word>>, sent: bool)
    requires i < |f| && f[i] == b && |polls| == i && AllWaited(polls)
    requires rf.Snapshot() == TxEffect(v0, t, f[..i], polls)
    modifies rf
    ensures rf.inbox == old(rf.inbox) && rf.outbox == old(rf.outbox) && rf.peer == old(rf.peer)
    ensures |polls'| == i + 1 && polls'[..i] == polls
    ensures sent ==> AllWaited(polls') && rf.Snapshot() == TxEffect(v0, t, f[..i + 1], polls')
    ensures !sent ==> HungIn(TxHang(v0, t, f, polls'), rf.Snapshot())
  {
    ghost var p;
    sent, p := TxChar(rf, t, b);
    Advance(v0, t, f, i, polls, p);
    polls' := polls + [p];
  }

  /** Bookkeeping for character i of `f`: the loads before it and the prefix sent. */
  lemma Advance(v0: View, t: CharType, f: seq<Byte>, i: nat, polls: seq<seq<Word>>, p: seq<Word>)
    requires i < |f| && |polls| == i
    ensures (polls + [p])[..i] == polls && (polls + [p])[i] == p
    ensures AllWaited(polls) && Waited(p, TXFF, false) ==> AllWaited(polls + [p])
    ensures TxEffect(v0, t, f[..i + 1], polls + [p]) == TxCharEffect(TxEffect(v0, t, f[..i], polls), t, f[i], p)
  {
    assert (polls + [p])[..i] == polls;
    assert f[..i] + [f[i]] == f[..i + 1];
    TxEffectSnoc(v0, t, f[..i], polls, f[i], p);
  }

  /** `uartRxDataAvail`: one load of UARTFR; true iff bit 4 (receive FIFO
      empty) is clear. */
  method RxDataAvail(rf: RegisterFile) returns (avail: bool)
    modifies rf
    ensures avail <==> old(rf.Peek(UART0_FR)) & RXFE == 0
    ensures rf.trace == old(rf.trace) + [Read(UART0_FR, old(rf.Peek(UART0_FR)))]
    ensures rf.hw == Drop(old(rf.hw), UART0_FR, 1)
    ensures rf.regs == old(rf.regs) && rf.inbox == old(rf.inbox) && rf.outbox == old(rf.outbox) && rf.peer == old(rf.peer)
  {
    var v := rf.Get32(UART0_FR);
    avail := v & RXFE == 0;
  }

  /** `uartRxChar`: waits until `uartRxDataAvail` holds, then returns the low
      byte of one load of UARTDR. `ok` is false when nothing ever arrives. */
  method RxChar(rf: RegisterFile) returns (ok: bool, b: Byte, ghost polls: seq<Word>)
    modifies rf
    ensures rf.regs == old(rf.regs) && rf.inbox == old(rf.inbox) && rf.outbox == old(rf.outbox) && rf.peer == old(rf.peer)
    ensures ok ==> Waited(polls, RXFE, false) && b == Low8(old(rf.Peek(UART0_DR)))
    ensures ok ==> rf.trace == old(rf.trace) + Reads(UART0_FR, polls) + [Read(UART0_DR, old(rf.Peek(UART0_DR)))]
    ensures ok ==> rf.hw == Drop(Drop(old(rf.hw), UART0_FR, |polls|), UART0_DR, 1)
    ensures polls <= old(rf.Script(UART0_FR))
    ensures !ok ==> HungIn(Hang(old(rf.Snapshot()), UART0_FR, RXFE, false, polls), rf.Snapshot())
  {
    b := 0;
    ok, polls := rf.Await(UART0_FR, RXFE, false);
    if ok {
      var v := rf.Get32(UART0_DR);
      b := Low8(v);
    }
  }
}
