/** Memory-mapped register access of the RP2350 as the three bare-metal programs
    use it: 32-bit stores and loads (the PUT32 and GET32 macros) decoded through
    the atomic alias windows, the SIO inter-core FIFOs, and a trace of every bus
    access and every hint instruction (nop, sev, wfe) in program order. */
module Registers {
  import opened AtomicAccess

  const CPUID: Addr := 0xd000_0000
  const FIFO_ST: Addr := 0xd000_0050
  const FIFO_WR: Addr := 0xd000_0054
  const FIFO_RD: Addr := 0xd000_0058
  /** FIFO_ST bit 0: the inbound FIFO holds a word. */
  const FIFO_VLD: Word := 0x1
  /** FIFO_ST bit 1: the outbound FIFO has room (it never fills in this model). */
  const FIFO_RDY: Word := 0x2


  datatype Store = Store(addr: Addr, value: Word)

  /** A register never stored to reads as zero. */
  function Reg(regs: map<Addr, Word>, a: Addr): Word {
    if a in regs then regs[a] else 0
  }

  /** The register map after one store. A store to the outbound FIFO goes to
      the mailbox, not to a register. */
  function ApplyStore(regs: map<Addr, Word>, s: Store): map<Addr, Word> {
    if s.addr == FIFO_WR then regs
    else
      var t := Decode(s.addr);
      regs[t.base := Effect(Reg(regs, t.base), t.mode, s.value)]
  }

  /** One store changes at most the register it decodes to. */
  lemma ApplyStoreReg(regs: map<Addr, Word>, s: Store, a: Addr)
    ensures s.addr == FIFO_WR || Decode(s.addr).base != a ==> Reg(ApplyStore(regs, s), a) == Reg(regs, a)
    ensures s.addr != FIFO_WR && Decode(s.addr).base == a ==>
              Reg(ApplyStore(regs, s), a) == Effect(Reg(regs, a), Decode(s.addr).mode, s.value)
  {
    if s.addr != FIFO_WR {
      var t := Decode(s.addr);
      var r := regs[t.base := Effect(Reg(regs, t.base), t.mode, s.value)];
      assert ApplyStore(regs, s) == r;
      if t.base == a {
        assert a in r && r[a] == Effect(Reg(regs, a), t.mode, s.value);
      } else {
        assert a in r <==> a in regs;
        assert a in r ==> r[a] == regs[a];
      }
    }
  }

  /** The register map after a sequence of stores, first to last. */
  function ApplyStores(regs: map<Addr, Word>, ss: seq<Store>): map<Addr, Word>
    decreases |ss|
  {
    if ss == [] then regs
    else ApplyStore(ApplyStores(regs, ss[..|ss| - 1]), ss[|ss| - 1])
  }

  lemma ApplyStoresSnoc(regs: map<Addr, Word>, ss: seq<Store>, s: Store)
    ensures ApplyStores(regs, ss + [s]) == ApplyStore(ApplyStores(regs, ss), s)
  {
    assert (ss + [s])[..|ss|] == ss;
  }

  /** The registers a sequence of stores writes to. */
  function Bases(ss: seq<Store>): set<Addr>
    decreases |ss|
  {
    if ss == [] then {}
    else
      var s := ss[|ss| - 1];
      Bases(ss[..|ss| - 1]) + (if s.addr == FIFO_WR then {} else {Decode(s.addr).base})
  }

  lemma {:induction false} ApplyStoresKeys(regs: map<Addr, Word>, ss: seq<Store>)
    ensures ApplyStores(regs, ss).Keys == regs.Keys + Bases(ss)
    decreases |ss|
  {
    if ss != [] {
      ApplyStoresKeys(regs, ss[..|ss| - 1]);
    }
  }

  predicate NoXor(ss: seq<Store>) {
    forall i :: 0 <= i < |ss| ==> Decode(ss[i].addr).mode != Xor
  }

  function MaskOf(s: Store, a: Addr): Mask
    requires Decode(s.addr).mode != Xor
  {
    var t := Decode(s.addr);
    if s.addr == FIFO_WR || t.base != a then Identity else ModeMask(t.mode, s.value)
  }

  function MaskOfAll(ss: seq<Store>, a: Addr): Mask
    requires NoXor(ss)
    decreases |ss|
  {
    if ss == [] then Identity
    else Then(MaskOfAll(ss[..|ss| - 1], a), MaskOf(ss[|ss| - 1], a))
  }

  lemma MaskOfOther(regs: map<Addr, Word>, s: Store, a: Addr)
    requires s.addr == FIFO_WR || (Decode(s.addr).base != a && Decode(s.addr).mode != Xor)
    ensures Reg(ApplyStore(regs, s), a) == Ap(MaskOf(s, a), Reg(regs, a))
  {
    ApplyStoreReg(regs, s, a);
    IdentityBits(Reg(regs, a));
  }

  /** One XOR-free store acts on each register as a keep/add mask. */
  lemma MaskOfStore(regs: map<Addr, Word>, s: Store, a: Addr)
    requires Decode(s.addr).mode != Xor
    ensures Reg(ApplyStore(regs, s), a) == Ap(MaskOf(s, a), Reg(regs, a))
  {
    var t := Decode(s.addr);
    if s.addr == FIFO_WR || t.base != a {
      MaskOfOther(regs, s, a);
    } else {
      ApplyStoreReg(regs, s, a);
    }
  }

  /** A XOR-free store sequence acts on each register as one keep/add mask. */
  lemma {:induction false} ApplyStoresMask(regs: map<Addr, Word>, ss: seq<Store>, a: Addr)
    requires NoXor(ss)
    ensures Reg(ApplyStores(regs, ss), a) == Ap(MaskOfAll(ss, a), Reg(regs, a))
    decreases |ss|
  {
    if ss != [] {
      var init, s := ss[..|ss| - 1], ss[|ss| - 1];
      assert NoXor(init);
      var before := ApplyStores(regs, init);
      assert ApplyStores(regs, ss) == ApplyStore(before, s);
      ApplyStoresMask(regs, init, a);
      MaskOfStore(before, s, a);
      ThenAp(MaskOfAll(init, a), MaskOf(s, a), Reg(regs, a));
    }
  }

  /** Running a sequence of plain stores and set/clear masks a second time
      changes no register: each register ends as (x & keep) | add, and that
      map is idempotent. */
  lemma StoresIdempotent(regs: map<Addr, Word>, ss: seq<Store>)
    requires NoXor(ss)
    ensures ApplyStores(ApplyStores(regs, ss), ss) == ApplyStores(regs, ss)
  {
    var once := ApplyStores(regs, ss);
    var twice := ApplyStores(once, ss);
    ApplyStoresKeys(regs, ss);
    ApplyStoresKeys(once, ss);
    forall a | a in twice
      ensures twice[a] == once[a]
    {
      ApplyStoresMask(regs, ss, a);
      ApplyStoresMask(once, ss, a);
      ApIdempotent(MaskOfAll(ss, a), Reg(regs, a));
    }
  }

  /** One bus access or hint instruction, in program order. */
  datatype Event =
    | Write(addr: Addr, value: Word)
    | Read(addr: Addr, value: Word)
    | Sev
    | Wfe
    | Nop

  /** Consecutive loads of one address returning `vals`. */
  function Reads(addr: Addr, vals: seq<Word>): (t: seq<Event>)
    ensures |t| == |vals|
    ensures forall i :: 0 <= i < |vals| ==> t[i] == Read(addr, vals[i])
  {
    seq(|vals|, i requires 0 <= i < |vals| => Read(addr, vals[i]))
  }

  function Nops(n: nat): (t: seq<Event>)
    ensures |t| == n
    ensures forall i :: 0 <= i < n ==> t[i] == Nop
  {
    seq(n, _ => Nop)
  }

  /** The values stored at `addr`, in order. */
  function WritesTo(t: seq<Event>, addr: Addr): seq<Word>
    decreases |t|
  {
    if t == [] then []
    else
      var e := t[|t| - 1];
      WritesTo(t[..|t| - 1], addr) + (if e.Write? && e.addr == addr then [e.value] else [])
  }

  lemma {:induction false} WritesToAppend(a: seq<Event>, b: seq<Event>, addr: Addr)
    ensures WritesTo(a + b, addr) == WritesTo(a, addr) + WritesTo(b, addr)
    decreases |b|
  {
    if b == [] {
      assert a + b == a;
    } else {
      assert (a + b)[..|a + b| - 1] == a + b[..|b| - 1];
      WritesToAppend(a, b[..|b| - 1], addr);
    }
  }

  /** The values loaded from `addr`, in order. */
  function ReadsFrom(t: seq<Event>, addr: Addr): seq<Word>
    decreases |t|
  {
    if t == [] then []
    else
      var e := t[|t| - 1];
      ReadsFrom(t[..|t| - 1], addr) + (if e.Read? && e.addr == addr then [e.value] else [])
  }

  lemma {:induction false} ReadsFromAppend(a: seq<Event>, b: seq<Event>, addr: Addr)
    ensures ReadsFrom(a + b, addr) == ReadsFrom(a, addr) + ReadsFrom(b, addr)
    decreases |b|
  {
    if b == [] {
      assert a + b == a;
    } else {
      assert (a + b)[..|a + b| - 1] == a + b[..|b| - 1];
      ReadsFromAppend(a, b[..|b| - 1], addr);
    }
  }

  /** Every store of a trace, in order. */
  function StoresIn(t: seq<Event>): seq<Store>
    decreases |t|
  {
    if t == [] then []
    else
      var e := t[|t| - 1];
      StoresIn(t[..|t| - 1]) + (if e.Write? then [Store(e.addr, e.value)] else [])
  }

  lemma {:induction false} StoresInAppend(a: seq<Event>, b: seq<Event>)
    ensures StoresIn(a + b) == StoresIn(a) + StoresIn(b)
    decreases |b|
  {
    if b == [] {
      assert a + b == a;
    } else {
      assert (a + b)[..|a + b| - 1] == a + b[..|b| - 1];
      StoresInAppend(a, b[..|b| - 1]);
    }
  }

  lemma {:induction false} NoStoresInReads(addr: Addr, vals: seq<Word>)
    ensures StoresIn(Reads(addr, vals)) == []
    decreases |vals|
  {
    if vals != [] {
      assert Reads(addr, vals)[..|vals| - 1] == Reads(addr, vals[..|vals| - 1]);
      NoStoresInReads(addr, vals[..|vals| - 1]);
    }
  }

  lemma {:induction false} NoWritesInReads(addr: Addr, vals: seq<Word>, a: Addr)
    ensures WritesTo(Reads(addr, vals), a) == []
    decreases |vals|
  {
    if vals != [] {
      assert Reads(addr, vals)[..|vals| - 1] == Reads(addr, vals[..|vals| - 1]);
      NoWritesInReads(addr, vals[..|vals| - 1], a);
    }
  }

  lemma ConcatAssoc<T>(x: seq<T>, y: seq<T>, z: seq<T>)
    ensures (x + y) + z == x + (y + z)
  {}

  lemma TakeNext<T>(s: seq<T>, i: nat)
    requires i < |s|
    ensures s[..i + 1] == s[..i] + [s[i]]
  {}

  /** How many times `e` occurs in `t`. */
  function Count(t: seq<Event>, e: Event): nat
    decreases |t|
  {
    if t == [] then 0
    else Count(t[..|t| - 1], e) + (if t[|t| - 1] == e then 1 else 0)
  }

  lemma {:induction false} CountAppend(a: seq<Event>, b: seq<Event>, e: Event)
    ensures Count(a + b, e) == Count(a, e) + Count(b, e)
    decreases |b|
  {
    if b == [] {
      assert a + b == a;
    } else {
      assert (a + b)[..|a + b| - 1] == a + b[..|b| - 1];
      CountAppend(a, b[..|b| - 1], e);
    }
  }

  /** Loads send no event. */
  lemma {:induction false} NoSevInReads(addr: Addr, vals: seq<Word>)
    ensures Count(Reads(addr, vals), Sev) == 0
    decreases |vals|
  {
    if vals != [] {
      assert Reads(addr, vals)[..|vals| - 1] == Reads(addr, vals[..|vals| - 1]);
      NoSevInReads(addr, vals[..|vals| - 1]);
    }
  }

  /** A load value `v` that a polling loop waits for: bit `mask` set, or clear. */
  predicate Hit(v: Word, mask: Word, wantSet: bool) {
    (v & mask != 0) == wantSet
  }

  /** A polling loop that stopped at its first satisfying load. */
  predicate Waited(polls: seq<Word>, mask: Word, wantSet: bool) {
    polls != [] && Hit(polls[|polls| - 1], mask, wantSet) &&
    forall i :: 0 <= i < |polls| - 1 ==> !Hit(polls[i], mask, wantSet)
  }

  /** No load of `vs` is the one a polling loop waits for. */
  predicate NeverHit(vs: seq<Word>, mask: Word, wantSet: bool) {
    forall i :: 0 <= i < |vs| ==> !Hit(vs[i], mask, wantSet)
  }

  /** A polling loop that stopped after `k` loads of `script`, all but the
      last missing, found a hit iff the script holds one; when it found
      none it read the whole script. */
  lemma FirstHit(script: seq<Word>, k: nat, mask: Word, wantSet: bool)
    requires 1 <= k <= |script|
    requires forall i :: 0 <= i < k - 1 ==> !Hit(script[i], mask, wantSet)
    requires Hit(script[k - 1], mask, wantSet) || k == |script|
    ensures script[..k] <= script
    ensures forall i :: 0 <= i < k - 1 ==> !Hit(script[..k][i], mask, wantSet)
    ensures Hit(script[k - 1], mask, wantSet) <==> exists i :: 0 <= i < |script| && Hit(script[i], mask, wantSet)
    ensures !Hit(script[k - 1], mask, wantSet) ==> script[..k] == script
  {
    if !Hit(script[k - 1], mask, wantSet) {
      assert script[..k] == script;
      assert forall i :: 0 <= i < |script| ==> !Hit(script[i], mask, wantSet);
    }
  }

  /** The load script of `addr` after `k` loads is the rest of the original. */
  lemma DropScript(hw: map<Addr, seq<Word>>, regs: map<Addr, Word>, addr: Addr, k: nat)
    requires k <= |if addr in hw then hw[addr] else []|
    ensures var q := if addr in hw then hw[addr] else [];
            var d := Drop(hw, addr, k);
            (if addr in d then d[addr] else []) + [Reg(regs, addr)] == (q + [Reg(regs, addr)])[k..]
  {}

  /** Load k of a polling loop over `script`, the loads before it being
      `polls`: the value it returns and what it consumes and records. */
  lemma AwaitStep(h0: map<Addr, seq<Word>>, regs: map<Addr, Word>, addr: Addr, k: nat,
                  t0: seq<Event>, polls: seq<Word>, script: seq<Word>)
    requires script == (if addr in h0 then h0[addr] else []) + [Reg(regs, addr)]
    requires 1 <= k < |script| && polls == script[..k]
    ensures var d := Drop(h0, addr, k);
            ((if addr in d then d[addr] else []) + [Reg(regs, addr)])[0] == script[k]
    ensures Drop(Drop(h0, addr, k), addr, 1) == Drop(h0, addr, k + 1)
    ensures t0 + Reads(addr, polls + [script[k]]) == t0 + Reads(addr, polls) + [Read(addr, script[k])]
    ensures script[..k + 1] == polls + [script[k]]
  {
    DropScript(h0, regs, addr, k);
    DropDrop(h0, addr, k, 1);
    TraceSnoc(t0, addr, polls, script[k]);
  }

  /** One more load at the end of a polling trace. */
  lemma TraceSnoc(t: seq<Event>, addr: Addr, vals: seq<Word>, v: Word)
    ensures t + Reads(addr, vals + [v]) == t + Reads(addr, vals) + [Read(addr, v)]
  {
    ReadsSnoc(addr, vals, v);
  }

  /** The scripted load values of `addr` with the first `k` consumed. */
  function Drop(hw: map<Addr, seq<Word>>, addr: Addr, k: nat): map<Addr, seq<Word>> {
    if addr in hw then
      var q := hw[addr];
      hw[addr := q[if k < |q| then k else |q|..]]
    else hw
  }

  /** An inbound FIFO entry: the core-1 reply `value`, which becomes visible to
      core 0 after `wakeups` more wait-for-event wake-ups. */
  datatype Reply = Reply(wakeups: nat, value: Word)

  function Values(q: seq<Reply>): (vs: seq<Word>)
    ensures |vs| == |q|
    ensures forall i :: 0 <= i < |q| ==> vs[i] == q[i].value
  {
    seq(|q|, i requires 0 <= i < |q| => q[i].value)
  }

  /** One wake-up brings the head entry of the inbound FIFO one step closer. */
  function Wake(q: seq<Reply>): (r: seq<Reply>)
    ensures |r| == |q| && Values(r) == Values(q)
    ensures q != [] ==> r[1..] == q[1..]
  {
    if q != [] && q[0].wakeups > 0 then [Reply(q[0].wakeups - 1, q[0].value)] + q[1..] else q
  }

  /** Consuming x and then y scripted loads of one address consumes x + y. */
  lemma DropDrop(hw: map<Addr, seq<Word>>, addr: Addr, x: nat, y: nat)
    ensures Drop(Drop(hw, addr, x), addr, y) == Drop(hw, addr, x + y)
  {
    if addr in hw {
      var q := hw[addr];
      var r := q[if x < |q| then x else |q|..];
      assert r[if y < |r| then y else |r|..] == q[if x + y < |q| then x + y else |q|..];
    }
  }

  lemma ReadsSnoc(addr: Addr, vals: seq<Word>, v: Word)
    ensures Reads(addr, vals + [v]) == Reads(addr, vals) + [Read(addr, v)]
  {
    assert Reads(addr, vals + [v]) == Reads(addr, vals) + [Read(addr, v)];
  }

  /** The part of the register file one core's peripheral accesses change:
      registers, hardware load scripts and the trace. */
  datatype View = View(regs: map<Addr, Word>, hw: map<Addr, seq<Word>>, trace: seq<Event>)

  /** The effect of loads of `addr` (not a mailbox register) returning `vals`. */
  function Polled(v: View, addr: Addr, vals: seq<Word>): View {
    View(v.regs, Drop(v.hw, addr, |vals|), v.trace + Reads(addr, vals))
  }

  /** The effect of one store. */
  function Stored(v: View, addr: Addr, value: Word): View {
    View(ApplyStore(v.regs, Store(addr, value)), v.hw, v.trace + [Write(addr, value)])
  }

  /** Every value loads of plain address `addr` return from state `v` on:
      the scripted values, then the stored value for ever. */
  function ScriptIn(v: View, addr: Addr): (vals: seq<Word>)
    ensures vals != []
  {
    (if addr in v.hw then v.hw[addr] else []) + [Reg(v.regs, addr)]
  }

  /** A polling loop on `addr` begun in state `v` has loaded `p`, every value
      the hardware will ever present there, and none was the one it waits
      for: from now on it loads the stored value, a miss, for ever. */
  predicate Stuck(v: View, addr: Addr, p: seq<Word>, mask: Word, wantSet: bool) {
    p == ScriptIn(v, addr) && NeverHit(p, mask, wantSet)
  }

  /** Where a routine stopped for good: the polling loop on `addr` begun in
      state `at` (waiting for bit `mask` set when `wantSet`, clear otherwise)
      after loading `loads`. */
  datatype Hang = Hang(at: View, addr: Addr, mask: Word, wantSet: bool, loads: seq<Word>)

  /** The routine spins for ever in the wait `h`, and `v` is the state it
      has reached. */
  predicate HungIn(h: Hang, v: View) {
    Stuck(h.at, h.addr, h.loads, h.mask, h.wantSet) && v == Polled(h.at, h.addr, h.loads)
  }

  /** A stuck wait and a finished one are told apart: the loads of the first
      hold no awaited value, those of the second end with one. So a routine
      cannot both hang in a wait and have finished it. */
  lemma StuckNotWaited(v: View, addr: Addr, p: seq<Word>, mask: Word, wantSet: bool)
    requires Stuck(v, addr, p, mask, wantSet)
    ensures !Waited(p, mask, wantSet)
    ensures forall i :: 0 <= i < |ScriptIn(v, addr)| ==> !Hit(ScriptIn(v, addr)[i], mask, wantSet)
  {
    assert !Hit(p[|p| - 1], mask, wantSet);
  }

  /** A prefix of a trace is a prefix of any extension of it. */
  lemma PrefixThen<T>(a: seq<T>, b: seq<T>, c: seq<T>)
    requires a <= b
    ensures a <= b + c
  {
    assert (b + c)[..|a|] == b[..|a|];
  }

  lemma PrefixGrow<T>(a: seq<T>, x: seq<T>, c: seq<T>)
    requires a + x <= c
    ensures a <= c
  {
    assert c[..|a|] == (a + x)[..|a|];
  }

  lemma PrefixTrans<T>(a: seq<T>, b: seq<T>, c: seq<T>)
    requires a <= b && b <= c
    ensures a <= c
  {
    assert c[..|a|] == c[..|b|][..|a|];
  }

  /** The shared register file of the RP2350 as one core sees it, with the
      hardware and the peer core supplied as scripts:
      - `regs` holds what stores left in each register;
      - `hw` lists, per address, the values hardware presents at the next loads
        (status flags, received bytes, the core number); once a script is used
        up, a load returns the register's stored value;
      - `inbox` is the inbound SIO FIFO (core 1 to core 0), `outbox` every word
        written to the outbound FIFO, and `peer` the replies the core-1 boot
        stub gives, one per word it receives, until it falls silent;
      - `trace` records every access and hint instruction. */
  class RegisterFile {
    var regs: map<Addr, Word>
    var hw: map<Addr, seq<Word>>
    var inbox: seq<Reply>
    var outbox: seq<Word>
    var peer: seq<Reply>
    var trace: seq<Event>

    constructor (regs0: map<Addr, Word>, hw0: map<Addr, seq<Word>>, inbox0: seq<Reply>, peer0: seq<Reply>)
      ensures regs == regs0 && hw == hw0 && inbox == inbox0 && peer == peer0
      ensures outbox == [] && trace == []
    {
      regs, hw, inbox, peer := regs0, hw0, inbox0, peer0;
      outbox, trace := [], [];
    }

    function Snapshot(): View
      reads this
    {
      View(regs, hw, trace)
    }

    function Queue(addr: Addr): seq<Word>
      reads this
    {
      if addr in hw then hw[addr] else []
    }

    /** Every value the next loads of `addr` can return, the last repeated forever. */
    function Script(addr: Addr): seq<Word>
      reads this
    {
      Queue(addr) + [Reg(regs, addr)]
    }

    /** The value the next load of a plain address returns. */
    function Peek(addr: Addr): Word
      reads this
    {
      Script(addr)[0]
    }

    predicate RxValid()
      reads this
    {
      inbox != [] && inbox[0].wakeups == 0
    }

    function Status(): Word
      reads this
    {
      (if RxValid() then FIFO_VLD else 0) | FIFO_RDY
    }

    /** PUT32. */
    method Put32(addr: Addr, value: Word)
      modifies this
      ensures trace == old(trace) + [Write(addr, value)]
      ensures regs == ApplyStore(old(regs), Store(addr, value))
      ensures hw == old(hw)
      ensures addr != FIFO_WR ==> inbox == old(inbox) && outbox == old(outbox) && peer == old(peer)
      ensures addr == FIFO_WR ==> outbox == old(outbox) + [value]
      ensures addr == FIFO_WR && old(peer) == [] ==> inbox == old(inbox) && peer == []
      ensures addr == FIFO_WR && old(peer) != [] ==>
                inbox == old(inbox) + [old(peer)[0]] && peer == old(peer)[1..]
    {
      trace := trace + [Write(addr, value)];
      regs := ApplyStore(regs, Store(addr, value));
      if addr == FIFO_WR {
        outbox := outbox + [value];
        if peer != [] {
          inbox := inbox + [peer[0]];
          peer := peer[1..];
        }
      }
    }

    /** GET32. */
    method Get32(addr: Addr) returns (value: Word)
      modifies this
      ensures trace == old(trace) + [Read(addr, value)]
      ensures regs == old(regs) && outbox == old(outbox) && peer == old(peer)
      ensures addr == FIFO_ST ==> value == old(Status()) && hw == old(hw) && inbox == old(inbox)
      ensures addr == FIFO_RD && old(RxValid()) ==>
                value == old(inbox[0].value) && inbox == old(inbox[1..]) && hw == old(hw)
      ensures addr == FIFO_RD && !old(RxValid()) ==> value == 0 && inbox == old(inbox) && hw == old(hw)
      ensures addr != FIFO_ST && addr != FIFO_RD ==>
                value == old(Peek(addr)) && inbox == old(inbox) && hw == Drop(old(hw), addr, 1)
    {
      if addr == FIFO_ST {
        value := Status();
      } else if addr == FIFO_RD {
        if RxValid() {
          value := inbox[0].value;
          inbox := inbox[1..];
        } else {
          value := 0;
        }
      } else {
        value := Peek(addr);
        hw := Drop(hw, addr, 1);
      }
      trace := trace + [Read(addr, value)];
    }

    /** `asm("sev")`. */
    method SendEvent()
      modifies this`trace
      ensures trace == old(trace) + [Sev]
    {
      trace := trace + [Sev];
    }

    /** `asm("wfe")`: the core sleeps until an event, which lets the peer's
        pending reply progress by one wake-up. */
    method WaitForEvent()
      modifies this`trace, this`inbox
      ensures trace == old(trace) + [Wfe]
      ensures inbox == Wake(old(inbox))
    {
      trace := trace + [Wfe];
      inbox := Wake(inbox);
    }

    /** `asm("nop")`. */
    method NoOperation()
      modifies this`trace
      ensures trace == old(trace) + [Nop]
    {
      trace := trace + [Nop];
    }

    /** `while (!(GET32(addr) & mask));` when `wantSet`, and
        `while (GET32(addr) & mask);` otherwise. `ok` is false when the script
        of `addr` runs out without the awaited value: the loop then spins
        forever on the stored value. */
    method Await(addr: Addr, mask: Word, wantSet: bool) returns (ok: bool, ghost polls: seq<Word>)
      requires addr != FIFO_ST && addr != FIFO_RD
      modifies this
      ensures regs == old(regs) && inbox == old(inbox) && outbox == old(outbox) && peer == old(peer)
      ensures trace == old(trace) + Reads(addr, polls)
      ensures hw == Drop(old(hw), addr, |polls|)
      ensures polls != [] && polls <= old(Script(addr))
      ensures forall i :: 0 <= i < |polls| - 1 ==> !Hit(polls[i], mask, wantSet)
      ensures ok == Hit(polls[|polls| - 1], mask, wantSet)
      ensures ok <==> exists i :: 0 <= i < |old(Script(addr))| && Hit(old(Script(addr))[i], mask, wantSet)
      ensures !ok ==> polls == old(Script(addr))
    {
      ghost var script := Script(addr);
      ghost var h0 := hw;
      var n := |Queue(addr)| + 1;
      var v := Get32(addr);
      var k := 1;
      polls := [v];
      while !Hit(v, mask, wantSet) && k < n
        invariant regs == old(regs) && inbox == old(inbox) && outbox == old(outbox) && peer == old(peer)
        invariant n == |script| && 1 <= k <= n
        invariant polls == script[..k] && v == script[k - 1]
        invariant hw == Drop(h0, addr, k)
        invariant trace == old(trace) + Reads(addr, polls)
        invariant forall i :: 0 <= i < k - 1 ==> !Hit(script[i], mask, wantSet)
        decreases n - k
      {
        AwaitStep(h0, regs, addr, k, old(trace), polls, script);
        v := Get32(addr);
        polls := polls + [v];
        k := k + 1;
      }
      ok := Hit(v, mask, wantSet);
      FirstHit(script, k, mask, wantSet);
    }
  }
}
