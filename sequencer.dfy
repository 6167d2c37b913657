/** The bring-up routines (`configDevice` in each program) are straight-line
    lists of register stores, `nop`s and polling waits. Each routine is kept here
    as a table of steps, and one interpreter runs any table against the register
    file. */
module Sequencer {
  import opened AtomicAccess
  import opened Registers

  datatype Step =
    | Put(reg: Addr, window: Mode, value: Word)   // PUT32(reg + window offset, value)
    | AwaitSet(addr: Addr, mask: Word)   // while (!(GET32(addr) & mask));
    | Pause   // asm("nop")

  /** The bus address of a store: register plus window offset, in 32-bit
      address arithmetic. */
  function BusAddr(reg: Addr, window: Mode): Addr {
    ((reg as int + Offset(window) as int) % 0x1_0000_0000) as Addr
  }

  /** The register a store step acts on, and how: a peripheral register
      through its window; an SIO address as written, as a plain store. */
  function StepTarget(reg: Addr, window: Mode): Target {
    if HasAliases(reg) then Target(reg, window) else Target(BusAddr(reg, window), Normal)
  }

  /** What every step of a bring-up routine satisfies: stores name a register
      with its alias bits clear through the normal, set or clear window (SIO
      stores are taken as written, but never reach the mailbox), and waits
      poll a plain register. */
  predicate ValidStep(s: Step) {
    match s
    case Put(r, w, _) =>
      w != Xor && r as int + Offset(w) as int < 0x1_0000_0000 &&
      (HasAliases(r) ==> AliasBits(r) == 0 && HasAliases(BusAddr(r, w))) &&
      BusAddr(r, w) != FIFO_WR
    case AwaitSet(a, _) => a != FIFO_ST && a != FIFO_RD
    case Pause => true
  }

  predicate ValidTable(prog: seq<Step>) {
    forall i :: 0 <= i < |prog| ==> ValidStep(prog[i])
  }

  /** The register file decodes a valid store step's bus address back to the
      step's register and window. */
  lemma StepDecode(r: Addr, w: Mode, v: Word)
    requires ValidStep(Put(r, w, v))
    ensures Decode(BusAddr(r, w)) == StepTarget(r, w)
    ensures BusAddr(r, w) != FIFO_WR && Decode(BusAddr(r, w)).mode != Xor
  {
    NoWrap(r as int, Offset(w) as int);
    if HasAliases(r) {
      DecodeAlias(r, w);
    }
  }

  lemma NoWrap(r: int, off: int)
    requires 0 <= r && 0 <= off && r + off < 0x1_0000_0000
    ensures (r + off) % 0x1_0000_0000 == r + off
  {}

  /** The events of one step, given the values its loads returned. */
  function StepTrace(s: Step, polls: seq<Word>): seq<Event> {
    match s
    case Put(r, w, v) => [Write(BusAddr(r, w), v)]
    case AwaitSet(a, _) => Reads(a, polls)
    case Pause => [Nop]
  }

  /** The events of a table run to its end; `polls[i]` are the loads of step i. */
  function ProgTrace(prog: seq<Step>, polls: seq<seq<Word>>): seq<Event>
    requires |polls| == |prog|
    decreases |prog|
  {
    if prog == [] then []
    else ProgTrace(prog[..|prog| - 1], polls[..|polls| - 1]) + StepTrace(prog[|prog| - 1], polls[|polls| - 1])
  }

  /** The stores of a table, in order. */
  function StoresOf(prog: seq<Step>): seq<Store>
    decreases |prog|
  {
    if prog == [] then []
    else
      var s := prog[|prog| - 1];
      StoresOf(prog[..|prog| - 1]) + (if s.Put? then [Store(BusAddr(s.reg, s.window), s.value)] else [])
  }

  /** The register map after the stores of a table, step by step. */
  function RegsAfter(regs: map<Addr, Word>, prog: seq<Step>): map<Addr, Word>
    decreases |prog|
  {
    if prog == [] then regs
    else
      var s := prog[|prog| - 1];
      var before := RegsAfter(regs, prog[..|prog| - 1]);
      if s.Put? then ApplyStore(before, Store(BusAddr(s.reg, s.window), s.value)) else before
  }

  /** The hardware load scripts after the polls of a table. */
  function Consumed(hw: map<Addr, seq<Word>>, prog: seq<Step>, polls: seq<seq<Word>>): map<Addr, seq<Word>>
    requires |polls| == |prog|
    decreases |prog|
  {
    if prog == [] then hw
    else
      var s := prog[|prog| - 1];
      var before := Consumed(hw, prog[..|prog| - 1], polls[..|polls| - 1]);
      if s.AwaitSet? then Drop(before, s.addr, |polls[|polls| - 1]|) else before
  }

  /** Step `s` ran to its end with loads `p`: a wait stopped at the first load
      with its bit set; other steps load nothing. */
  predicate StepDone(s: Step, p: seq<Word>) {
    if s.AwaitSet? then Waited(p, s.mask, true) else p == []
  }

  /** Every step of the table ran to its end. */
  predicate Completed(prog: seq<Step>, polls: seq<seq<Word>>) {
    |polls| == |prog| && forall i :: 0 <= i < |prog| ==> StepDone(prog[i], polls[i])
  }

  /** The effect of one step whose loads returned `p`. */
  function StepEffect(v: View, s: Step, p: seq<Word>): View {
    match s
    case Put(r, w, value) => Stored(v, BusAddr(r, w), value)
    case AwaitSet(a, _) => Polled(v, a, p)
    case Pause => View(v.regs, v.hw, v.trace + [Nop])
  }

  /** The effect of a table run to its end. */
  function RunEffect(v: View, prog: seq<Step>, polls: seq<seq<Word>>): View
    requires |polls| == |prog|
  {
    View(RegsAfter(v.regs, prog), Consumed(v.hw, prog, polls), v.trace + ProgTrace(prog, polls))
  }

  /** One more step appended to a table and its loads. */
  lemma Snoc(v: View, prog: seq<Step>, polls: seq<seq<Word>>, k: nat, p: seq<Word>)
    requires k < |prog| && |polls| == k
    ensures prog[..k + 1][..k] == prog[..k] && (polls + [p])[..k] == polls
    ensures RunEffect(v, prog[..k + 1], polls + [p]) == StepEffect(RunEffect(v, prog[..k], polls), prog[k], p)
    ensures Completed(prog[..k], polls) && StepDone(prog[k], p) ==> Completed(prog[..k + 1], polls + [p])
  {
    var pre, ps := prog[..k + 1], polls + [p];
    assert pre[..k] == prog[..k] && pre[k] == prog[k];
    assert ps[..k] == polls && ps[k] == p;
    SnocParts(v, pre, ps);
  }

  /** The effect of a non-empty table is its last step after the rest. */
  lemma SnocParts(v: View, prog: seq<Step>, polls: seq<seq<Word>>)
    requires |polls| == |prog| > 0
    ensures var n := |prog| - 1;
            RunEffect(v, prog, polls) == StepEffect(RunEffect(v, prog[..n], polls[..n]), prog[n], polls[n])
  {
    var n := |prog| - 1;
    var before := RunEffect(v, prog[..n], polls[..n]);
    assert v.trace + ProgTrace(prog, polls) == before.trace + StepTrace(prog[n], polls[n]);
  }

  /** A run of `prog` from `v` that stopped for good: every step before the
      last one of `polls` finished, and the last one is a wait whose loads
      were the whole script of its register and never showed the bit. */
  predicate HungRun(v: View, prog: seq<Step>, polls: seq<seq<Word>>) {
    0 < |polls| <= |prog| &&
    var n := |polls| - 1;
    Completed(prog[..n], polls[..n]) && prog[n].AwaitSet? &&
    Stuck(RunEffect(v, prog[..n], polls[..n]), prog[n].addr, polls[n], prog[n].mask, true)
  }

  /** Runs one step. `done` is false when the step is a wait that can never
      finish. */
  method Exec(rf: RegisterFile, s: Step) returns (done: bool, ghost p: seq<Word>)
    requires ValidStep(s)
    modifies rf
    ensures rf.inbox == old(rf.inbox) && rf.outbox == old(rf.outbox) && rf.peer == old(rf.peer)
    ensures rf.Snapshot() == StepEffect(old(rf.Snapshot()), s, p)
    ensures done ==> StepDone(s, p)
    ensures !done ==> s.AwaitSet? && Stuck(old(rf.Snapshot()), s.addr, p, s.mask, true)
  {
    done, p := true, [];
    match s {
      case Put(r, w, v) =>
        rf.Put32(BusAddr(r, w), v);
      case AwaitSet(a, m) =>
        done, p := rf.Await(a, m, true);
      case Pause =>
        rf.NoOperation();
    }
  }

  /** Runs a bring-up table. `ok` is false when a wait can never finish: the
      routine then spins forever at step |polls| - 1 and nothing after it runs. */
  method Run(rf: RegisterFile, prog: seq<Step>) returns (ok: bool, ghost polls: seq<seq<Word>>)
    requires ValidTable(prog)
    modifies rf
    ensures rf.inbox == old(rf.inbox) && rf.outbox == old(rf.outbox) && rf.peer == old(rf.peer)
    ensures |polls| <= |prog|
    ensures rf.Snapshot() == RunEffect(old(rf.Snapshot()), prog[..|polls|], polls)
    ensures ok ==> Completed(prog, polls)
    ensures !ok ==> HungRun(old(rf.Snapshot()), prog, polls)
  {
    ghost var v0 := rf.Snapshot();
    polls := [];
    ok := true;
    var k := 0;
    while k < |prog|
      invariant 0 <= k <= |prog| && |polls| == k
      invariant rf.inbox == old(rf.inbox) && rf.outbox == old(rf.outbox) && rf.peer == old(rf.peer)
      invariant rf.Snapshot() == RunEffect(v0, prog[..k], polls)
      invariant Completed(prog[..k], polls)
      decreases |prog| - k
    {
      var done;
      ghost var p;
      done, p := Exec(rf, prog[k]);
      Snoc(v0, prog, polls, k, p);
      polls := polls + [p];
      if !done {
        return false, polls;
      }
      k := k + 1;
    }
    assert prog[..k] == prog;
  }

  /** The trace of two tables run one after the other is the first's trace
      followed by the second's. */
  lemma {:induction false} ProgTraceAppend(p: seq<Step>, q: seq<Step>, a: seq<seq<Word>>, b: seq<seq<Word>>)
    requires |a| == |p| && |b| == |q|
    ensures ProgTrace(p + q, a + b) == ProgTrace(p, a) + ProgTrace(q, b)
    decreases |q|
  {
    if q == [] {
      assert p + q == p && a + b == a;
    } else {
      var n := |q| - 1;
      ProgTraceAppend(p, q[..n], a, b[..n]);
      AppendLastSplit(p, q, a, b);
      ProgTraceLast(q, b);
      ConcatAssoc(ProgTrace(p, a), ProgTrace(q[..n], b[..n]), StepTrace(q[n], b[n]));
    }
  }

  /** The trace of three tables run one after another, part by part. */
  lemma ThreeParts(p: seq<Step>, q: seq<Step>, r: seq<Step>, polls: seq<seq<Word>>)
    requires |polls| == |p| + |q| + |r|
    ensures ProgTrace(p + q + r, polls) ==
              ProgTrace(p, polls[..|p|]) + ProgTrace(q, polls[|p|..|p| + |q|]) + ProgTrace(r, polls[|p| + |q|..])
  {
    var k, j := |p|, |p| + |q|;
    var front := polls[..j];
    assert polls == front + polls[j..];
    ProgTraceAppend(p + q, r, front, polls[j..]);
    assert front == polls[..k] + polls[k..j];
    ProgTraceAppend(p, q, polls[..k], polls[k..j]);
  }

  /** Splitting the last step off a concatenation of tables. */
  lemma AppendLastSplit(p: seq<Step>, q: seq<Step>, a: seq<seq<Word>>, b: seq<seq<Word>>)
    requires |a| == |p| && |b| == |q| && q != []
    ensures ProgTrace(p + q, a + b) == ProgTrace(p + q[..|q| - 1], a + b[..|q| - 1]) + StepTrace(q[|q| - 1], b[|q| - 1])
  {
    var n := |q| - 1;
    assert p + q == (p + q[..n]) + [q[n]] by { assert q == q[..n] + [q[n]]; }
    assert a + b == (a + b[..n]) + [b[n]] by { assert b == b[..n] + [b[n]]; }
    SnocTrace(p + q[..n], a + b[..n], q[n], b[n]);
  }

  /** The trace of a table with one more step at its end. */
  lemma SnocTrace(prog: seq<Step>, polls: seq<seq<Word>>, s: Step, p: seq<Word>)
    requires |polls| == |prog|
    ensures ProgTrace(prog + [s], polls + [p]) == ProgTrace(prog, polls) + StepTrace(s, p)
  {
    assert (prog + [s])[..|prog|] == prog && (polls + [p])[..|prog|] == polls;
  }

  lemma ProgTraceLast(prog: seq<Step>, polls: seq<seq<Word>>)
    requires |polls| == |prog| > 0
    ensures ProgTrace(prog, polls) == ProgTrace(prog[..|prog| - 1], polls[..|prog| - 1]) + StepTrace(prog[|prog| - 1], polls[|prog| - 1])
  {}

  /** The trace of the first k + 1 steps is that of the first k and then step k's. */
  lemma ProgTracePrefix(prog: seq<Step>, polls: seq<seq<Word>>, k: nat)
    requires |polls| == |prog| && k < |prog|
    ensures ProgTrace(prog[..k + 1], polls[..k + 1]) == ProgTrace(prog[..k], polls[..k]) + StepTrace(prog[k], polls[k])
  {
    assert prog[..k + 1][..k] == prog[..k] && polls[..k + 1][..k] == polls[..k];
    ProgTraceLast(prog[..k + 1], polls[..k + 1]);
  }

  /** A completed run of two tables completes each of them. */
  lemma CompletedAppend(p: seq<Step>, q: seq<Step>, polls: seq<seq<Word>>)
    requires Completed(p + q, polls)
    ensures Completed(p, polls[..|p|]) && Completed(q, polls[|p|..])
  {
    forall i | 0 <= i < |q|
      ensures StepDone(q[i], polls[|p|..][i])
    {
      assert (p + q)[|p| + i] == q[i];
    }
    forall i | 0 <= i < |p|
      ensures StepDone(p[i], polls[..|p|][i])
    {
      assert (p + q)[i] == p[i];
    }
  }

  /** The registers after two tables run one after the other. */
  lemma {:induction false} RegsAfterAppend(regs: map<Addr, Word>, p: seq<Step>, q: seq<Step>)
    ensures RegsAfter(regs, p + q) == RegsAfter(RegsAfter(regs, p), q)
    decreases |q|
  {
    if q == [] {
      assert p + q == p;
    } else {
      var n := |q| - 1;
      assert (p + q)[..|p + q| - 1] == p + q[..n];
      RegsAfterAppend(regs, p, q[..n]);
    }
  }

  /** The load scripts after two tables run one after the other. */
  lemma {:induction false} ConsumedAppend(hw: map<Addr, seq<Word>>, p: seq<Step>, q: seq<Step>, a: seq<seq<Word>>, b: seq<seq<Word>>)
    requires |a| == |p| && |b| == |q|
    ensures Consumed(hw, p + q, a + b) == Consumed(Consumed(hw, p, a), q, b)
    decreases |q|
  {
    if q == [] {
      assert p + q == p && a + b == a;
    } else {
      var n := |q| - 1;
      assert (p + q)[..|p + q| - 1] == p + q[..n];
      assert (a + b)[..|a + b| - 1] == a + b[..n];
      ConsumedAppend(hw, p, q[..n], a, b[..n]);
    }
  }

  /** Running two tables one after the other has the effect of running the
      two joined. */
  lemma RunEffectAppend(v: View, p: seq<Step>, q: seq<Step>, a: seq<seq<Word>>, b: seq<seq<Word>>)
    requires |a| == |p| && |b| == |q|
    ensures RunEffect(v, p + q, a + b) == RunEffect(RunEffect(v, p, a), q, b)
  {
    RegsAfterAppend(v.regs, p, q);
    ConsumedAppend(v.hw, p, q, a, b);
    ProgTraceAppend(p, q, a, b);
    ConcatAssoc(v.trace, ProgTrace(p, a), ProgTrace(q, b));
  }

  /** The stores a run performs are exactly those its trace shows. */
  lemma {:induction false} StoresOfTrace(prog: seq<Step>, polls: seq<seq<Word>>)
    requires |polls| == |prog|
    ensures StoresIn(ProgTrace(prog, polls)) == StoresOf(prog)
    decreases |prog|
  {
    if prog != [] {
      var n := |prog| - 1;
      StoresOfTrace(prog[..n], polls[..n]);
      StoresInAppend(ProgTrace(prog[..n], polls[..n]), StepTrace(prog[n], polls[n]));
      match prog[n]
      case Put(_, _, _) =>
        assert StepTrace(prog[n], polls[n])[..0] == [];
      case AwaitSet(a, _) =>
        NoStoresInReads(a, polls[n]);
      case Pause =>
        assert [Nop][..0] == [];
    }
  }

  /** A bring-up table never stores to the mailbox and never sends an event:
      its run leaves FIFO_WR untouched and holds no `sev`. */
  lemma {:induction false} NoMailboxEvents(prog: seq<Step>, polls: seq<seq<Word>>)
    requires ValidTable(prog) && |polls| == |prog|
    ensures WritesTo(ProgTrace(prog, polls), FIFO_WR) == [] && Count(ProgTrace(prog, polls), Sev) == 0
    decreases |prog|
  {
    if prog != [] {
      var n := |prog| - 1;
      var before, last := ProgTrace(prog[..n], polls[..n]), StepTrace(prog[n], polls[n]);
      assert ProgTrace(prog, polls) == before + last;
      assert ValidTable(prog[..n]) by {
        forall i | 0 <= i < n
          ensures ValidStep(prog[..n][i])
        {
          assert prog[..n][i] == prog[i];
        }
      }
      NoMailboxEvents(prog[..n], polls[..n]);
      WritesToAppend(before, last, FIFO_WR);
      CountAppend(before, last, Sev);
      StepNoMailbox(prog[n], polls[n]);
    }
  }

  lemma StepNoMailbox(s: Step, p: seq<Word>)
    requires ValidStep(s)
    ensures WritesTo(StepTrace(s, p), FIFO_WR) == [] && Count(StepTrace(s, p), Sev) == 0
  {
    match s
    case Put(r, w, v) =>
      assert [Write(BusAddr(r, w), v)][..0] == [];
    case AwaitSet(a, _) =>
      NoWritesInReads(a, p, FIFO_WR);
      NoSevInReads(a, p);
    case Pause =>
      assert [Nop][..0] == [];
  }

  /** A table whose run stopped at a wait that never saw its bit did not
      complete. */
  lemma HungNotCompleted(v: View, prog: seq<Step>, polls: seq<seq<Word>>)
    requires HungRun(v, prog, polls)
    ensures !Completed(prog, polls)
  {
    var k := |polls| - 1;
    var p := polls[k];
    assert p != [];
    assert !Hit(p[|p| - 1], prog[k].mask, true);
    assert !StepDone(prog[k], p);
  }

  /** The register map after a run is the stores of the table applied in order. */
  lemma {:induction false} RegsAfterStores(regs: map<Addr, Word>, prog: seq<Step>)
    ensures RegsAfter(regs, prog) == ApplyStores(regs, StoresOf(prog))
    decreases |prog|
  {
    if prog != [] {
      var n := |prog| - 1;
      RegsAfterStores(regs, prog[..n]);
      if prog[n].Put? {
        var st := Store(BusAddr(prog[n].reg, prog[n].window), prog[n].value);
        assert StoresOf(prog) == StoresOf(prog[..n]) + [st];
        assert RegsAfter(regs, prog) == ApplyStore(RegsAfter(regs, prog[..n]), st);
        ApplyStoresSnoc(regs, StoresOf(prog[..n]), st);
      } else {
        assert StoresOf(prog) == StoresOf(prog[..n]) + [];
        assert StoresOf(prog) == StoresOf(prog[..n]);
      }
    }
  }

  /** No valid table stores through the XOR window. */
  lemma {:induction false} StoresOfNoXor(prog: seq<Step>)
    requires ValidTable(prog)
    ensures NoXor(StoresOf(prog))
    decreases |prog|
  {
    if prog != [] {
      var n := |prog| - 1;
      assert ValidTable(prog[..n]);
      StoresOfNoXor(prog[..n]);
      var s := prog[n];
      if s.Put? {
        assert ValidStep(s);
        StepDecode(s.reg, s.window, s.value);
        assert StoresOf(prog) == StoresOf(prog[..n]) + [Store(BusAddr(s.reg, s.window), s.value)];
      } else {
        assert StoresOf(prog) == StoresOf(prog[..n]) + [];
      }
    }
  }

  /** Running any bring-up table a second time leaves every register as the
      first run left it: its stores are plain stores and set/clear masks. */
  lemma RunTwice(regs: map<Addr, Word>, prog: seq<Step>)
    requires ValidTable(prog)
    ensures RegsAfter(RegsAfter(regs, prog), prog) == RegsAfter(regs, prog)
  {
    RegsAfterStores(regs, prog);
    RegsAfterStores(RegsAfter(regs, prog), prog);
    StoresOfNoXor(prog);
    StoresIdempotent(regs, StoresOf(prog));
  }

  /** A completed run whose last step is a wait ends with the load that saw
      the awaited bit set. */
  lemma EndsWithHit(prog: seq<Step>, polls: seq<seq<Word>>)
    requires Completed(prog, polls) && prog != [] && prog[|prog| - 1].AwaitSet?
    ensures var t := ProgTrace(prog, polls);
            var s := prog[|prog| - 1];
            t != [] && t[|t| - 1].Read? && t[|t| - 1].addr == s.addr && t[|t| - 1].value & s.mask != 0
  {
    var n := |prog| - 1;
    assert Waited(polls[n], prog[n].mask, true);
  }

  /** The stores that reach one register, in order, as (window, value) pairs. */
  datatype Hits = Done | More(mode: Mode, value: Word, more: Hits)

  function Join(h: Hits, k: Hits): Hits {
    match h
    case Done => k
    case More(m, v, rest) => More(m, v, Join(rest, k))
  }

  /** The stores of a table that act on register `a`. */
  function Touching(prog: seq<Step>, a: Addr): Hits
    decreases |prog|
  {
    if prog == [] then Done
    else
      var s := prog[0];
      if s.Put? && StepTarget(s.reg, s.window).base == a
      then More(StepTarget(s.reg, s.window).mode, s.value, Touching(prog[1..], a))
      else Touching(prog[1..], a)
  }

  /** A register of value `x` after the stores `h`. */
  function Replay(x: Word, h: Hits): Word
    decreases h
  {
    if h.Done? then x else Replay(Effect(x, h.mode, h.value), h.more)
  }

  /* The shapes of store runs the bring-up tables make to one register. */

  lemma ReplayNormal(x: Word, v: Word, h: Hits)
    ensures Replay(x, More(Normal, v, h)) == Replay(v, h)
  {
    NormalBits(x, v);
  }

  lemma ReplaySet(x: Word, v: Word)
    ensures Replay(x, More(Set, v, Done)) == x | v
  {
    SetIsOr(x, v);
  }

  lemma ReplayClear(x: Word, v: Word)
    ensures Replay(x, More(Clear, v, Done)) == x & !v
  {
    ClearIsAndNot(x, v);
  }

  /** A set followed by a clear of the same bits leaves them clear. */
  lemma ReplayPulse(x: Word, v: Word)
    ensures Replay(x, More(Set, v, More(Clear, v, Done))) == x & !v
  {
    SetIsOr(x, v);
    ReplayClear(x | v, v);
    OrAndNot(x, v);
    assert Replay(x, More(Set, v, More(Clear, v, Done))) == Replay(x | v, More(Clear, v, Done));
  }

  lemma ReplayClearSet(x: Word, c: Word, v: Word)
    ensures Replay(x, More(Clear, c, More(Set, v, Done))) == (x & !c) | v
  {
    ClearIsAndNot(x, c);
    ReplaySet(x & !c, v);
    assert Replay(x, More(Clear, c, More(Set, v, Done))) == Replay(x & !c, More(Set, v, Done));
  }

  lemma OrAndNot(x: Word, v: Word)
    ensures (x | v) & !v == x & !v
  {}

  lemma {:induction false} TouchingAppend(p: seq<Step>, q: seq<Step>, a: Addr)
    ensures Touching(p + q, a) == Join(Touching(p, a), Touching(q, a))
    decreases |p|
  {
    if p == [] {
      assert p + q == q;
    } else {
      assert (p + q)[0] == p[0] && (p + q)[1..] == p[1..] + q;
      TouchingAppend(p[1..], q, a);
    }
  }

  lemma {:induction false} ReplayJoin(x: Word, h: Hits, k: Hits)
    ensures Replay(x, Join(h, k)) == Replay(Replay(x, h), k)
    decreases h
  {
    if h.More? {
      ReplayJoin(Effect(x, h.mode, h.value), h.more, k);
    }
  }

  /** What a valid table leaves in register `a` is its old value after exactly
      the stores of the table that reach `a`, in table order. */
  lemma {:induction false} RegsAfterTouching(regs: map<Addr, Word>, prog: seq<Step>, a: Addr)
    requires ValidTable(prog)
    ensures Reg(RegsAfter(regs, prog), a) == Replay(Reg(regs, a), Touching(prog, a))
    decreases |prog|
  {
    if prog != [] {
      var n := |prog| - 1;
      var s := prog[n];
      assert ValidTable(prog[..n]) && ValidStep(s);
      RegsAfterTouching(regs, prog[..n], a);
      assert prog == prog[..n] + [s];
      TouchingAppend(prog[..n], [s], a);
      assert [s][1..] == [];
      ReplayJoin(Reg(regs, a), Touching(prog[..n], a), Touching([s], a));
      if s.Put? {
        StepDecode(s.reg, s.window, s.value);
        ApplyStoreReg(RegsAfter(regs, prog[..n]), Store(BusAddr(s.reg, s.window), s.value), a);
      }
    }
  }

  /** A valid table run to its end leaves register `a` as `Replay` says,
      whatever the register file held before. */
  lemma RunTouching(v: View, prog: seq<Step>, polls: seq<seq<Word>>, a: Addr)
    requires ValidTable(prog) && |polls| == |prog|
    ensures Reg(RunEffect(v, prog, polls).regs, a) == Replay(Reg(v.regs, a), Touching(prog, a))
  {
    RegsAfterTouching(v.regs, prog, a);
  }
}
