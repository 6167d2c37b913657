/** 03_MultiCore: launching core 1 through the SIO mailbox. The inbound FIFO
    (core 1 to core 0) shows a word through bit 0 of FIFO_ST and is popped by
    loads of FIFO_RD; words for core 1 go to FIFO_WR. Core 1's boot stub
    answers every word it receives; in this model its replies are the
    register file's `peer` script. */
module MultiCore {
  import opened AtomicAccess
  import opened Registers
  import opened Startup

  /** FIFO_ST as core 0 loads it with, and without, a word to read. */
  const STATUS_VALID: Word := 0x3
  const STATUS_EMPTY: Word := 0x2

  lemma StatusWords(rf: RegisterFile)
    ensures rf.RxValid() ==> rf.Status() == STATUS_VALID
    ensures !rf.RxValid() ==> rf.Status() == STATUS_EMPTY
    ensures STATUS_VALID & FIFO_VLD == FIFO_VLD && STATUS_EMPTY & FIFO_VLD == 0
  {}

  /** `w` turns of the `wait_rx_fifo_data` loop that found nothing: a load of
      FIFO_ST with bit 0 clear, then a `wfe`. */
  function Spin(w: nat): (t: seq<Event>)
    ensures |t| == 2 * w
  {
    if w == 0 then [] else Spin(w - 1) + [Read(FIFO_ST, STATUS_EMPTY), Wfe]
  }

  /** The events of a `wait_rx_fifo_data` whose reply needed `w` wake-ups. */
  function WaitTrace(w: nat): seq<Event> {
    Spin(w) + [Read(FIFO_ST, STATUS_VALID)]
  }

  /** The inbound FIFO after core 1 has answered a word: its reply, if it
      has one left, joins the end. */
  function Arrive(inbox: seq<Reply>, peer: seq<Reply>): (q: seq<Reply>)
    ensures peer == [] ==> q == inbox
    ensures peer != [] ==> q == inbox + [peer[0]]
  {
    if peer == [] then inbox else inbox + [peer[0]]
  }

  /** One load of FIFO_ST: bit 0 tells whether a reply can be read now. */
  method LoadStatus(rf: RegisterFile) returns (st: Word)
    modifies rf
    ensures rf.trace == old(rf.trace) + [Read(FIFO_ST, st)]
    ensures rf.regs == old(rf.regs) && rf.hw == old(rf.hw) && rf.inbox == old(rf.inbox) &&
            rf.outbox == old(rf.outbox) && rf.peer == old(rf.peer)
    ensures st == if old(rf.RxValid()) then STATUS_VALID else STATUS_EMPTY
    ensures STATUS_VALID & FIFO_VLD == FIFO_VLD && STATUS_EMPTY & FIFO_VLD == 0
  {
    StatusWords(rf);
    st := rf.Get32(FIFO_ST);
  }

  /** `wait_rx_fifo_data`: loads FIFO_ST until bit 0 is set, with a `wfe`
      after each load that finds it clear. With nothing in the inbound FIFO
      and no reply on its way the loop spins forever; `ok` is then false and
      one turn is recorded. */
  method WaitRxFifoData(rf: RegisterFile) returns (ok: bool)
    modifies rf
    ensures ok <==> old(rf.inbox) != []
    ensures rf.regs == old(rf.regs) && rf.hw == old(rf.hw) && rf.outbox == old(rf.outbox) && rf.peer == old(rf.peer)
    ensures ok ==> rf.trace == old(rf.trace) + WaitTrace(old(rf.inbox[0].wakeups)) &&
                   rf.inbox == [Reply(0, old(rf.inbox[0].value))] + old(rf.inbox[1..])
    ensures !ok ==> rf.trace == old(rf.trace) + Spin(1) && rf.inbox == []
  {
    ghost var t0 := rf.trace;
    var st := LoadStatus(rf);
    if rf.inbox == [] {
      // Bit 0 is clear and stays clear: every further turn is this one.
      rf.WaitForEvent();
      SpinStep(t0, 0, []);
      return false;
    }
    ghost var w0, v0, rest := rf.inbox[0].wakeups, rf.inbox[0].value, rf.inbox[1..];
    ghost var k: nat := 0;
    while st & FIFO_VLD == 0
      invariant rf.regs == old(rf.regs) && rf.hw == old(rf.hw) && rf.outbox == old(rf.outbox) && rf.peer == old(rf.peer)
      invariant k <= w0 && rf.inbox == [Reply(w0 - k, v0)] + rest
      invariant st == if k == w0 then STATUS_VALID else STATUS_EMPTY
      invariant rf.trace == t0 + Spin(k) + [Read(FIFO_ST, st)]
      decreases w0 - k
    {
      st := WaitTurn(rf, w0 - k, v0, rest);
      SpinStep(t0, k, [Read(FIFO_ST, st)]);
      k := k + 1;
    }
    ok := true;
  }

  /** A `wfe` after a load that found bit 0 clear, then the next load. */
  method WaitTurn(rf: RegisterFile, ghost w: nat, ghost v: Word, ghost rest: seq<Reply>) returns (st: Word)
    requires w > 0 && rf.inbox == [Reply(w, v)] + rest
    modifies rf
    ensures rf.regs == old(rf.regs) && rf.hw == old(rf.hw) && rf.outbox == old(rf.outbox) && rf.peer == old(rf.peer)
    ensures rf.inbox == [Reply(w - 1, v)] + rest
    ensures st == if w == 1 then STATUS_VALID else STATUS_EMPTY
    ensures rf.trace == old(rf.trace) + [Wfe] + [Read(FIFO_ST, st)]
  {
    rf.WaitForEvent();
    st := LoadStatus(rf);
  }

  /** One more turn of the wait loop. */
  lemma SpinStep(t0: seq<Event>, k: nat, next: seq<Event>)
    ensures t0 + Spin(k) + [Read(FIFO_ST, STATUS_EMPTY)] + [Wfe] + next == t0 + Spin(k + 1) + next
  {
    assert Spin(k + 1) == Spin(k) + [Read(FIFO_ST, STATUS_EMPTY), Wfe];
  }

  /** How many words at the head of the inbound FIFO core 0 can read now. */
  function Visible(q: seq<Reply>): (n: nat)
    ensures n <= |q|
    ensures forall i :: 0 <= i < n ==> q[i].wakeups == 0
    ensures n < |q| ==> q[n].wakeups > 0
  {
    if q != [] && q[0].wakeups == 0 then 1 + Visible(q[1..]) else 0
  }

  /** The loads of one drain round that pop the words `vs`. */
  function DrainReads(vs: seq<Word>): (t: seq<Event>)
    ensures |t| == 2 * |vs|
    decreases |vs|
  {
    if vs == [] then []
    else DrainReads(vs[..|vs| - 1]) + [Read(FIFO_ST, STATUS_VALID), Read(FIFO_RD, vs[|vs| - 1])]
  }

  /** The events of one round of the drain loop of `init_core_1` that popped
      `vs`: their loads, the load that found the FIFO empty, and one `sev`. */
  function DrainTrace(vs: seq<Word>): seq<Event> {
    DrainReads(vs) + [Read(FIFO_ST, STATUS_EMPTY), Sev]
  }

  /** One round of the drain loop of `init_core_1`: while bit 0 of FIFO_ST is
      set, load FIFO_RD and discard the word; then `sev`. It pops every word
      core 0 can read now and stops at the first that is still on its way. */
  method DrainRound(rf: RegisterFile) returns (ghost drained: seq<Word>)
    modifies rf
    ensures drained == Values(old(rf.inbox)[..Visible(old(rf.inbox))])
    ensures rf.inbox == old(rf.inbox)[Visible(old(rf.inbox))..]
    ensures rf.trace == old(rf.trace) + DrainTrace(drained)
    ensures rf.regs == old(rf.regs) && rf.hw == old(rf.hw) && rf.outbox == old(rf.outbox) && rf.peer == old(rf.peer)
  {
    ghost var t0, q0 := rf.trace, rf.inbox;
    ghost var n := Visible(q0);
    drained := [];
    ghost var i := 0;
    var st := LoadStatus(rf);
    while st & FIFO_VLD == FIFO_VLD
      invariant rf.regs == old(rf.regs) && rf.hw == old(rf.hw) && rf.outbox == old(rf.outbox) && rf.peer == old(rf.peer)
      invariant 0 <= i <= n && rf.inbox == q0[i..] && drained == Values(q0[..i])
      invariant st == if i < n then STATUS_VALID else STATUS_EMPTY
      invariant rf.trace == t0 + DrainReads(drained) + [Read(FIFO_ST, st)]
      decreases |rf.inbox|
    {
      var discarded;
      discarded, st := DrainTurn(rf, q0, i);
      DrainStep(q0, i, rf.inbox);
      DrainReadsStep(t0, drained, discarded, st);
      drained := drained + [discarded];
      i := i + 1;
    }
    rf.SendEvent();
  }

  /** One turn of the drain loop: pop word i, which core 0 can read now,
      then load FIFO_ST again. */
  method DrainTurn(rf: RegisterFile, ghost q0: seq<Reply>, ghost i: nat) returns (v: Word, st: Word)
    requires i < Visible(q0) && rf.inbox == q0[i..]
    modifies rf
    ensures rf.regs == old(rf.regs) && rf.hw == old(rf.hw) && rf.outbox == old(rf.outbox) && rf.peer == old(rf.peer)
    ensures v == q0[i].value && rf.inbox == q0[i + 1..]
    ensures st == if i + 1 < Visible(q0) then STATUS_VALID else STATUS_EMPTY
    ensures rf.trace == old(rf.trace) + [Read(FIFO_RD, v)] + [Read(FIFO_ST, st)]
  {
    v := rf.Get32(FIFO_RD);
    assert rf.inbox == q0[i + 1..];
    st := LoadStatus(rf);
  }

  /** Popping word i of the inbound FIFO. */
  lemma DrainStep(q0: seq<Reply>, i: nat, rest: seq<Reply>)
    requires i < |q0| && rest == q0[i + 1..]
    ensures Values(q0[..i + 1]) == Values(q0[..i]) + [q0[i].value]
    ensures rest == q0[i..][1..]
  {
    assert Values(q0[..i + 1]) == Values(q0[..i]) + [q0[i].value];
  }

  /** One more word popped by the drain loop. */
  lemma DrainReadsStep(t0: seq<Event>, vs: seq<Word>, v: Word, st: Word)
    ensures t0 + DrainReads(vs) + [Read(FIFO_ST, STATUS_VALID)] + [Read(FIFO_RD, v)] + [Read(FIFO_ST, st)] ==
            t0 + DrainReads(vs + [v]) + [Read(FIFO_ST, st)]
  {
    assert (vs + [v])[..|vs|] == vs;
  }

  /** The trace of a single event. */
  lemma OneEvent(x: Event, a: Addr, e: Event)
    ensures StoresIn([x]) == if x.Write? then [Store(x.addr, x.value)] else []
    ensures WritesTo([x], a) == if x.Write? && x.addr == a then [x.value] else []
    ensures Count([x], e) == if x == e then 1 else 0
  {
    assert [x][..0] == [];
  }

  /** Two events that are not stores: none of them is a store, and each
      counts once if it is `e`. */
  lemma PairEvents(x: Event, y: Event, a: Addr, e: Event)
    requires !x.Write? && !y.Write?
    ensures StoresIn([x, y]) == [] && WritesTo([x, y], a) == []
    ensures Count([x, y], e) == (if x == e then 1 else 0) + (if y == e then 1 else 0)
  {
    OneEvent(x, a, e);
    assert [x, y][..1] == [x];
  }

  /** One round of the drain phase emits one `sev` and stores nothing. */
  lemma {:induction false} DrainTraceEvents(vs: seq<Word>)
    ensures Count(DrainTrace(vs), Sev) == 1
    ensures StoresIn(DrainTrace(vs)) == [] && WritesTo(DrainTrace(vs), FIFO_WR) == []
  {
    DrainReadsEvents(vs);
    var tail := [Read(FIFO_ST, STATUS_EMPTY), Sev];
    CountAppend(DrainReads(vs), tail, Sev);
    StoresInAppend(DrainReads(vs), tail);
    WritesToAppend(DrainReads(vs), tail, FIFO_WR);
    PairEvents(Read(FIFO_ST, STATUS_EMPTY), Sev, FIFO_WR, Sev);
  }

  lemma {:induction false} DrainReadsEvents(vs: seq<Word>)
    ensures Count(DrainReads(vs), Sev) == 0
    ensures StoresIn(DrainReads(vs)) == [] && WritesTo(DrainReads(vs), FIFO_WR) == []
    decreases |vs|
  {
    if vs != [] {
      var n := |vs| - 1;
      var pair := [Read(FIFO_ST, STATUS_VALID), Read(FIFO_RD, vs[n])];
      DrainReadsEvents(vs[..n]);
      CountAppend(DrainReads(vs[..n]), pair, Sev);
      StoresInAppend(DrainReads(vs[..n]), pair);
      WritesToAppend(DrainReads(vs[..n]), pair, FIFO_WR);
      PairEvents(Read(FIFO_ST, STATUS_VALID), Read(FIFO_RD, vs[n]), FIFO_WR, Sev);
    }
  }

  /** The six words `init_core_1` sends to core 1's boot stub: two zeros and
      a one to synchronise, then the vector table, the stack pointer 256
      bytes below the end of core 0's stack (32-bit arithmetic), and the
      entry point `main_core_1`. */
  function CmdList(m: LinkMap): (cmds: seq<Word>)
    ensures |cmds| == 6
  {
    [0, 0, 1, m.vectorTable, m.stackEnd - 0x100, m.mainCore1]
  }

  /** The events of one handshake step: the word `c` to FIFO_WR, a `sev`,
      the wait for an answer over `w` wake-ups, and one load of FIFO_RD that
      returned `v`. */
  function Round(c: Word, w: nat, v: Word): seq<Event> {
    [Write(FIFO_WR, c), Sev] + WaitTrace(w) + [Read(FIFO_RD, v)]
  }

  /** The handshake steps for `cs`, in order. */
  function Rounds(cs: seq<Word>, ws: seq<nat>, vs: seq<Word>): seq<Event>
    requires |ws| == |cs| && |vs| == |cs|
    decreases |cs|
  {
    if cs == [] then []
    else
      var n := |cs| - 1;
      Rounds(cs[..n], ws[..n], vs[..n]) + Round(cs[n], ws[n], vs[n])
  }

  /** One pass of the handshake loop of `init_core_1`: send `c`, `sev`, wait
      for an answer and load it from FIFO_RD. The answer is not looked at and
      nothing is retried. `ok` is false when no answer can ever come. */
  method HandshakeRound(rf: RegisterFile, c: Word) returns (ok: bool, ghost w: nat, ghost v: Word)
    modifies rf
    ensures rf.regs == old(rf.regs) && rf.hw == old(rf.hw)
    ensures rf.outbox == old(rf.outbox) + [c]
    ensures rf.peer == if old(rf.peer) == [] then [] else old(rf.peer)[1..]
    ensures ok <==> Arrive(old(rf.inbox), old(rf.peer)) != []
    ensures ok ==> w == Arrive(old(rf.inbox), old(rf.peer))[0].wakeups &&
                   v == Arrive(old(rf.inbox), old(rf.peer))[0].value &&
                   rf.inbox == Arrive(old(rf.inbox), old(rf.peer))[1..]
    ensures ok ==> rf.trace == old(rf.trace) + Round(c, w, v)
    ensures !ok ==> rf.inbox == [] && rf.peer == [] && rf.trace == old(rf.trace) + ([Write(FIFO_WR, c), Sev] + Spin(1))
  {
    w, v := 0, 0;
    rf.Put32(FIFO_WR, c);
    rf.SendEvent();
    ghost var q := rf.inbox;
    ghost var t := rf.trace;
    ok := WaitRxFifoData(rf);
    if ok {
      w := q[0].wakeups;
      var response := rf.Get32(FIFO_RD);
      v := response;
    }
  }

  /** The events of drain rounds that popped `ds[0]`, `ds[1]`, ... */
  function DrainTraces(ds: seq<seq<Word>>): seq<Event>
    decreases |ds|
  {
    if ds == [] then [] else DrainTraces(ds[..|ds| - 1]) + DrainTrace(ds[|ds| - 1])
  }

  /** Each drain round emits one `sev` and no drain round stores anything. */
  lemma {:induction false} DrainTracesEvents(ds: seq<seq<Word>>)
    ensures Count(DrainTraces(ds), Sev) == |ds|
    ensures StoresIn(DrainTraces(ds)) == [] && WritesTo(DrainTraces(ds), FIFO_WR) == []
    decreases |ds|
  {
    if ds != [] {
      var n := |ds| - 1;
      DrainTracesEvents(ds[..n]);
      DrainTraceEvents(ds[n]);
      CountAppend(DrainTraces(ds[..n]), DrainTrace(ds[n]), Sev);
      StoresInAppend(DrainTraces(ds[..n]), DrainTrace(ds[n]));
      WritesToAppend(DrainTraces(ds[..n]), DrainTrace(ds[n]), FIFO_WR);
    }
  }

  /** A wait for the mailbox neither stores nor sends an event, and sleeps
      once per wake-up its reply needed. */
  lemma {:induction false} WaitTraceEvents(w: nat)
    ensures StoresIn(WaitTrace(w)) == [] && WritesTo(WaitTrace(w), FIFO_WR) == []
    ensures Count(WaitTrace(w), Sev) == 0 && Count(WaitTrace(w), Wfe) == w
  {
    SpinEvents(w);
    var last := [Read(FIFO_ST, STATUS_VALID)];
    OneEvent(Read(FIFO_ST, STATUS_VALID), FIFO_WR, Sev);
    OneEvent(Read(FIFO_ST, STATUS_VALID), FIFO_WR, Wfe);
    StoresInAppend(Spin(w), last);
    WritesToAppend(Spin(w), last, FIFO_WR);
    CountAppend(Spin(w), last, Sev);
    CountAppend(Spin(w), last, Wfe);
  }

  lemma {:induction false} SpinEvents(w: nat)
    ensures StoresIn(Spin(w)) == [] && WritesTo(Spin(w), FIFO_WR) == []
    ensures Count(Spin(w), Sev) == 0 && Count(Spin(w), Wfe) == w
  {
    if w > 0 {
      var turn := [Read(FIFO_ST, STATUS_EMPTY), Wfe];
      SpinEvents(w - 1);
      PairEvents(Read(FIFO_ST, STATUS_EMPTY), Wfe, FIFO_WR, Sev);
      PairEvents(Read(FIFO_ST, STATUS_EMPTY), Wfe, FIFO_WR, Wfe);
      StoresInAppend(Spin(w - 1), turn);
      WritesToAppend(Spin(w - 1), turn, FIFO_WR);
      CountAppend(Spin(w - 1), turn, Sev);
      CountAppend(Spin(w - 1), turn, Wfe);
    }
  }

  /** The start of a handshake step: one store, of `c` to FIFO_WR, then a `sev`. */
  lemma SendEvents(c: Word)
    ensures WritesTo([Write(FIFO_WR, c), Sev], FIFO_WR) == [c]
    ensures |StoresIn([Write(FIFO_WR, c), Sev])| == 1
    ensures Count([Write(FIFO_WR, c), Sev], Sev) == 1 && Count([Write(FIFO_WR, c), Sev], Wfe) == 0
  {
    OneEvent(Write(FIFO_WR, c), FIFO_WR, Sev);
    OneEvent(Write(FIFO_WR, c), FIFO_WR, Wfe);
    assert [Write(FIFO_WR, c), Sev][..1] == [Write(FIFO_WR, c)];
  }

  /** The wait and the load that end a handshake step. */
  lemma AnswerEvents(w: nat, v: Word)
    ensures WritesTo(WaitTrace(w) + [Read(FIFO_RD, v)], FIFO_WR) == []
    ensures StoresIn(WaitTrace(w) + [Read(FIFO_RD, v)]) == []
    ensures Count(WaitTrace(w) + [Read(FIFO_RD, v)], Sev) == 0
    ensures Count(WaitTrace(w) + [Read(FIFO_RD, v)], Wfe) == w
  {
    var last := [Read(FIFO_RD, v)];
    WaitTraceEvents(w);
    OneEvent(Read(FIFO_RD, v), FIFO_WR, Sev);
    OneEvent(Read(FIFO_RD, v), FIFO_WR, Wfe);
    StoresInAppend(WaitTrace(w), last);
    WritesToAppend(WaitTrace(w), last, FIFO_WR);
    CountAppend(WaitTrace(w), last, Sev);
    CountAppend(WaitTrace(w), last, Wfe);
  }

  /** One handshake step writes its word to FIFO_WR and nothing else, and
      sends exactly one event. */
  lemma RoundEvents(c: Word, w: nat, v: Word)
    ensures WritesTo(Round(c, w, v), FIFO_WR) == [c]
    ensures |StoresIn(Round(c, w, v))| == 1
    ensures Count(Round(c, w, v), Sev) == 1 && Count(Round(c, w, v), Wfe) == w
  {
    var head := [Write(FIFO_WR, c), Sev];
    var tail := WaitTrace(w) + [Read(FIFO_RD, v)];
    assert Round(c, w, v) == head + tail;
    SendEvents(c);
    AnswerEvents(w, v);
    StoresInAppend(head, tail);
    WritesToAppend(head, tail, FIFO_WR);
    CountAppend(head, tail, Sev);
    CountAppend(head, tail, Wfe);
  }

  /** The handshake writes exactly `cs` to FIFO_WR, in order, with one `sev`
      per word, and its first event is the write of `cs[0]`. */
  lemma {:induction false} RoundsEvents(cs: seq<Word>, ws: seq<nat>, vs: seq<Word>)
    requires |ws| == |cs| && |vs| == |cs|
    ensures WritesTo(Rounds(cs, ws, vs), FIFO_WR) == cs
    ensures |StoresIn(Rounds(cs, ws, vs))| == |cs|
    ensures Count(Rounds(cs, ws, vs), Sev) == |cs|
    ensures cs != [] ==> Rounds(cs, ws, vs)[0] == Write(FIFO_WR, cs[0])
    decreases |cs|
  {
    if cs != [] {
      var n := |cs| - 1;
      var before := Rounds(cs[..n], ws[..n], vs[..n]);
      RoundsEvents(cs[..n], ws[..n], vs[..n]);
      RoundEvents(cs[n], ws[n], vs[n]);
      WritesToAppend(before, Round(cs[n], ws[n], vs[n]), FIFO_WR);
      StoresInAppend(before, Round(cs[n], ws[n], vs[n]));
      CountAppend(before, Round(cs[n], ws[n], vs[n]), Sev);
      assert cs == cs[..n] + [cs[n]];
      if n > 0 {
        assert cs[..n][0] == cs[0];
      }
    }
  }

  lemma RoundsSnoc(cs: seq<Word>, ws: seq<nat>, vs: seq<Word>, c: Word, w: nat, v: Word)
    requires |ws| == |cs| && |vs| == |cs|
    ensures Rounds(cs + [c], ws + [w], vs + [v]) == Rounds(cs, ws, vs) + Round(c, w, v)
  {
    assert (cs + [c])[..|cs|] == cs && (ws + [w])[..|cs|] == ws && (vs + [v])[..|cs|] == vs;
  }

  lemma RoundsStep(t: seq<Event>, cs: seq<Word>, ws: seq<nat>, vs: seq<Word>, c: Word, w: nat, v: Word)
    requires |ws| == |cs| && |vs| == |cs|
    ensures t + Rounds(cs, ws, vs) + Round(c, w, v) == t + Rounds(cs + [c], ws + [w], vs + [v])
  {
    RoundsSnoc(cs, ws, vs, c, w, v);
  }

  /** Core 1's remaining replies after it answers word i. */
  lemma PeerStep(p0: seq<Reply>, i: nat)
    requires i < |p0|
    ensures p0[i..] != [] && p0[i..][1..] == p0[i + 1..]
  {}

  /** The outbound words after word i is sent. */
  lemma Sent(o: seq<Word>, cs: seq<Word>, i: nat)
    requires i < |cs|
    ensures o + cs[..i] + [cs[i]] == o + cs[..i + 1]
  {
    assert cs[..i + 1] == cs[..i] + [cs[i]];
  }

  /** With the inbound FIFO empty, step i of the handshake reads the reply
      core 1 gives to word i. */
  lemma CleanStep(p0: seq<Reply>, i: nat, vs: seq<Word>, inbox: seq<Reply>, peer: seq<Reply>, v: Word)
    requires i < |p0| && vs == Values(p0[..i]) && inbox == [] && peer == p0[i..]
    requires v == Arrive(inbox, peer)[0].value
    ensures Arrive(inbox, peer)[1..] == []
    ensures vs + [v] == Values(p0[..i + 1])
  {
    assert Values(p0[..i + 1]) == Values(p0[..i]) + [p0[i].value];
  }

  lemma DrainTracesSnoc(ds: seq<seq<Word>>, d: seq<Word>)
    ensures DrainTraces(ds + [d]) == DrainTraces(ds) + DrainTrace(d)
  {
    assert (ds + [d])[..|ds|] == ds;
  }

  /** The handshake loop of `init_core_1`: one HandshakeRound per word of
      `cmds`. `ok` is false when an answer never comes: core 0 then waits
      forever after sending word |ws|. */
  method Handshake(rf: RegisterFile, cmds: seq<Word>) returns (ok: bool, ghost ws: seq<nat>, ghost vs: seq<Word>)
    modifies rf
    ensures rf.regs == old(rf.regs) && rf.hw == old(rf.hw)
    ensures |ws| == |vs| <= |cmds|
    ensures ok ==> |ws| == |cmds| && rf.outbox == old(rf.outbox) + cmds &&
                   rf.trace == old(rf.trace) + Rounds(cmds, ws, vs)
    ensures !ok ==> |ws| < |cmds| && rf.outbox == old(rf.outbox) + cmds[..|ws| + 1] &&
                    rf.trace == old(rf.trace) + Rounds(cmds[..|ws|], ws, vs) + ([Write(FIFO_WR, cmds[|ws|]), Sev] + Spin(1))
    ensures !ok ==> rf.inbox == [] && rf.peer == []
    ensures |old(rf.peer)| >= |cmds| ==> ok
    ensures old(rf.inbox) == [] && |old(rf.peer)| >= |cmds| ==> vs == Values(old(rf.peer)[..|cmds|])
  {
    ghost var t0, p0 := rf.trace, rf.peer;
    ghost var clean := rf.inbox == [] && |p0| >= |cmds|;
    ws, vs := [], [];
    ok := true;
    var i := 0;
    while i < |cmds|
      invariant 0 <= i <= |cmds| && |ws| == i && |vs| == i
      invariant rf.regs == old(rf.regs) && rf.hw == old(rf.hw)
      invariant rf.outbox == old(rf.outbox) + cmds[..i]
      invariant rf.trace == t0 + Rounds(cmds[..i], ws, vs)
      invariant |p0| >= |cmds| ==> rf.peer == p0[i..]
      invariant clean ==> rf.inbox == [] && vs == Values(p0[..i])
    {
      var answered;
      answered, ws, vs := HandshakeNext(rf, cmds, i, t0, old(rf.outbox), p0, clean, ws, vs);
      if !answered {
        ok := false;
        return;
      }
      i := i + 1;
    }
    assert cmds[..i] == cmds;
  }

  /** Pass i of the handshake loop: HandshakeRound on word i, with the
      bookkeeping that carries the loop's invariant from i to i + 1. */
  method HandshakeNext(rf: RegisterFile, cmds: seq<Word>, i: nat, ghost t0: seq<Event>, ghost o0: seq<Word>,
                       ghost p0: seq<Reply>, ghost clean: bool, ghost ws: seq<nat>, ghost vs: seq<Word>)
    returns (answered: bool, ghost ws': seq<nat>, ghost vs': seq<Word>)
    requires i < |cmds| && |ws| == i && |vs| == i
    requires rf.outbox == o0 + cmds[..i] && rf.trace == t0 + Rounds(cmds[..i], ws, vs)
    requires |p0| >= |cmds| ==> rf.peer == p0[i..]
    requires clean ==> |p0| >= |cmds| && rf.inbox == [] && vs == Values(p0[..i])
    modifies rf
    ensures rf.regs == old(rf.regs) && rf.hw == old(rf.hw)
    ensures rf.outbox == o0 + cmds[..i + 1]
    ensures answered ==> |ws'| == i + 1 && |vs'| == i + 1 && rf.trace == t0 + Rounds(cmds[..i + 1], ws', vs')
    ensures answered ==> |p0| >= |cmds| ==> rf.peer == p0[i + 1..]
    ensures answered ==> clean ==> rf.inbox == [] && vs' == Values(p0[..i + 1])
    ensures !answered ==> |p0| < |cmds| && ws' == ws && vs' == vs &&
                          rf.trace == t0 + Rounds(cmds[..i], ws, vs) + ([Write(FIFO_WR, cmds[i]), Sev] + Spin(1))
    ensures !answered ==> rf.inbox == [] && rf.peer == []
  {
    ghost var w, v;
    ghost var peer, inbox := rf.peer, rf.inbox;
    if |p0| >= |cmds| {
      PeerStep(p0, i);
    }
    answered, w, v := HandshakeRound(rf, cmds[i]);
    Sent(o0, cmds, i);
    ws', vs' := ws, vs;
    if answered {
      RoundsStep(t0, cmds[..i], ws, vs, cmds[i], w, v);
      TakeNext(cmds, i);
      if clean {
        CleanStep(p0, i, vs, inbox, peer, v);
      }
      ws', vs' := ws + [w], vs + [v];
    }
  }

  /** `init_core_1`: two rounds of draining the inbound FIFO, each ended by a
      `sev`, then the handshake over the six words of CmdList(m). `ok` is
      false when an answer never comes: core 0 then waits forever after
      sending word |ws|. */
  method InitCore1(rf: RegisterFile, m: LinkMap)
    returns (ok: bool, ghost ds: seq<seq<Word>>, ghost ws: seq<nat>, ghost vs: seq<Word>)
    modifies rf
    ensures rf.regs == old(rf.regs) && rf.hw == old(rf.hw)
    ensures |ds| == 2 && |ws| == |vs| <= 6
    ensures ok ==> |ws| == 6 && rf.outbox == old(rf.outbox) + CmdList(m) &&
                   rf.trace == old(rf.trace) + DrainTraces(ds) + Rounds(CmdList(m), ws, vs)
    ensures !ok ==> |ws| < 6 && rf.outbox == old(rf.outbox) + CmdList(m)[..|ws| + 1] &&
                    rf.trace == old(rf.trace) + DrainTraces(ds) + Rounds(CmdList(m)[..|ws|], ws, vs) +
                                ([Write(FIFO_WR, CmdList(m)[|ws|]), Sev] + Spin(1))
    ensures !ok ==> rf.inbox == [] && rf.peer == []
    ensures |old(rf.peer)| >= 6 ==> ok
    ensures Visible(old(rf.inbox)) == |old(rf.inbox)| && |old(rf.peer)| >= 6 ==> vs == Values(old(rf.peer)[..6])
  {
    var cmdList := CmdList(m);
    ds := Drain(rf);
    ok, ws, vs := Handshake(rf, cmdList);
  }

  /** The first loop of `init_core_1`: two drain rounds, whatever the inbound
      FIFO holds. When every queued reply is already visible the first round
      empties the FIFO. */
  method Drain(rf: RegisterFile) returns (ghost ds: seq<seq<Word>>)
    modifies rf
    ensures |ds| == 2
    ensures rf.regs == old(rf.regs) && rf.hw == old(rf.hw) && rf.outbox == old(rf.outbox) && rf.peer == old(rf.peer)
    ensures rf.trace == old(rf.trace) + DrainTraces(ds)
    ensures Visible(old(rf.inbox)) == |old(rf.inbox)| ==> rf.inbox == []
  {
    ghost var t0, q0 := rf.trace, rf.inbox;
    ds := [];
    var loop := 0;
    while loop < 2
      invariant 0 <= loop <= 2 && |ds| == loop
      invariant rf.regs == old(rf.regs) && rf.hw == old(rf.hw) && rf.outbox == old(rf.outbox) && rf.peer == old(rf.peer)
      invariant rf.trace == t0 + DrainTraces(ds)
      invariant Visible(q0) == |q0| ==> rf.inbox == (if loop == 0 then q0 else [])
    {
      ghost var d := DrainRound(rf);
      DrainTracesSnoc(ds, d);
      ds := ds + [d];
      loop := loop + 1;
    }
  }

  /** Before its first word goes to core 1, `init_core_1` has sent exactly two
      events and stored nothing; the first store is then the word 0 to
      FIFO_WR, and the handshake writes exactly CmdList(m) there. */
  lemma InitCore1Order(m: LinkMap, ds: seq<seq<Word>>, ws: seq<nat>, vs: seq<Word>)
    requires |ds| == 2 && |ws| == 6 && |vs| == 6
    ensures var drain := DrainTraces(ds);
            var hs := Rounds(CmdList(m), ws, vs);
            Count(drain, Sev) == 2 && StoresIn(drain) == [] &&
            hs[0] == Write(FIFO_WR, 0) && WritesTo(drain + hs, FIFO_WR) == CmdList(m) &&
            Count(hs, Sev) == 6
  {
    DrainTracesEvents(ds);
    RoundsEvents(CmdList(m), ws, vs);
    WritesToAppend(DrainTraces(ds), Rounds(CmdList(m), ws, vs), FIFO_WR);
  }
}
