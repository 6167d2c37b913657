/** Section 2.1.3 "Atomic Register Access" of the RP2350 datasheet: every
    peripheral register can be written through four address windows, 0x1000
    apart, that replace it, XOR into it, set bits in it or clear bits in it.
    Only bit-vector words and the address decoding live here, so that the
    bit-level proofs stay small. */
module AtomicAccess {

  type Word = bv32
  type Byte = bv8
  /** Bus addresses. They index maps, so they are bounded integers, not bit-vectors. */
  newtype Addr = a: int | 0 <= a < 0x1_0000_0000

  /* Alias offsets: a store at base + offset acts on the register at base. */
  const WRITE_NORMAL: Addr := 0x0000
  const WRITE_XOR: Addr := 0x1000
  const WRITE_SET: Addr := 0x2000
  const WRITE_CLR: Addr := 0x3000

  /** The single-cycle IO block. Its addresses are recorded literally: the
      alias windows are not decoded there. */
  const SIO_BASE: Addr := 0xd000_0000

  datatype Mode = Normal | Xor | Set | Clear

  function Offset(mode: Mode): Addr {
    match mode
    case Normal => WRITE_NORMAL
    case Xor => WRITE_XOR
    case Set => WRITE_SET
    case Clear => WRITE_CLR
  }

  /** The register a store acts on, and how. */
  datatype Target = Target(base: Addr, mode: Mode)

  predicate HasAliases(addr: Addr) {
    addr < SIO_BASE
  }

  /** Address bits 12 and 13 of `addr`, in place. */
  function AliasBits(addr: Addr): int {
    addr as int % 0x4000 - addr as int % 0x1000
  }

  /** Splits a peripheral address into the register it names and the access
      mode selected by address bits 12 and 13. */
  function Decode(addr: Addr): Target {
    if !HasAliases(addr) then Target(addr, Normal)
    else
      var sel := AliasBits(addr);
      Target((addr as int - sel) as Addr,
             if sel == WRITE_XOR as int then Xor
             else if sel == WRITE_SET as int then Set
             else if sel == WRITE_CLR as int then Clear
             else Normal)
  }

  /** Every peripheral address is a register with alias bits clear plus the
      offset of the decoded mode; an SIO address is a plain store to itself. */
  lemma DecodeSplit(addr: Addr)
    ensures HasAliases(addr) ==>
              HasAliases(Decode(addr).base) && AliasBits(Decode(addr).base) == 0 &&
              Decode(addr).base + Offset(Decode(addr).mode) == addr
    ensures !HasAliases(addr) ==> Decode(addr) == Target(addr, Normal)
  {
    if HasAliases(addr) {
      WindowSplit(addr as int);
    }
  }

  /** An address is its alias bits plus a base whose alias bits are clear,
      and the alias bits are one of the four window offsets. */
  lemma WindowSplit(a: int)
    requires 0 <= a
    ensures var sel := a % 0x4000 - a % 0x1000;
            sel in {0, 0x1000, 0x2000, 0x3000} && 0 <= a - sel &&
            (a - sel) % 0x4000 == a % 0x1000 && (a - sel) % 0x1000 == a % 0x1000
  {
    var q, r := a / 0x4000, a % 0x4000;
    var k, m := r / 0x1000, r % 0x1000;
    assert 0 <= k < 4;
    Mod1000(a, q * 4 + k, m);
    Mod4000(q * 0x4000 + m, q, m);
    Mod1000(q * 0x4000 + m, q * 4, m);
  }

  lemma Mod1000(x: int, q: int, r: int)
    requires 0 <= r < 0x1000 && x == q * 0x1000 + r
    ensures x % 0x1000 == r
  {}

  lemma Mod4000(x: int, q: int, r: int)
    requires 0 <= r < 0x4000 && x == q * 0x4000 + r
    ensures x % 0x4000 == r
  {}

  /** Encoding a register and a mode as an alias address and decoding it again
      gives back the register and the mode. */
  lemma DecodeAlias(base: Addr, mode: Mode)
    requires HasAliases(base) && AliasBits(base) == 0
    ensures HasAliases(base + Offset(mode))
    ensures Decode(base + Offset(mode)) == Target(base, mode)
  {
    WindowShift(base as int, Offset(mode) as int);
  }

  /** Adding a window offset to an address with alias bits clear changes only
      bits 12 and 13. */
  lemma WindowShift(b: int, off: int)
    requires 0 <= b && b % 0x4000 < 0x1000 && 0 <= off < 0x4000 && off % 0x1000 == 0
    ensures (b + off) % 0x4000 == b % 0x4000 + off && (b + off) % 0x1000 == b % 0x1000
  {
    var q, r := b / 0x4000, b % 0x4000;
    assert b + off == q * 0x4000 + (r + off);
    var k := off / 0x1000;
    assert b + off == (q * 4 + k) * 0x1000 + r;
  }

  /** What the store of `value` in a mode other than XOR does to a register:
      x becomes (x & keep) | add. */
  datatype Mask = Mask(keep: Word, add: Word)

  function Ap(m: Mask, x: Word): Word {
    (x & m.keep) | m.add
  }

  function ModeMask(mode: Mode, value: Word): Mask
    requires mode != Xor
  {
    match mode
    case Normal => Mask(0, value)
    case Set => Mask(0xffff_ffff, value)
    case Clear => Mask(!value, 0)
  }

  /** New value of a register of value `current` after a store of `value` in `mode`. */
  function Effect(current: Word, mode: Mode, value: Word): Word {
    if mode == Xor then current ^ value else Ap(ModeMask(mode, value), current)
  }

  /** A normal store replaces the register. */
  lemma NormalBits(current: Word, value: Word)
    ensures Effect(current, Normal, value) == value
  {}

  lemma XorWordBits(c: Word, v: Word)
    ensures (c ^ v) & v == !c & v && (c ^ v) & !v == c & !v
  {}

  lemma EffectSet(c: Word, v: Word)
    ensures Effect(c, Set, v) == Ap(Mask(0xffff_ffff, v), c)
  {}

  lemma SetApBits(c: Word, v: Word)
    ensures var r := Ap(Mask(0xffff_ffff, v), c); r & v == v && r & !v == c & !v
  {}

  lemma ClearWordBits(c: Word, v: Word)
    ensures ((c & !v) | 0) & v == 0 && ((c & !v) | 0) & !v == c & !v
  {}

  /** A XOR store flips exactly the bits of `value`. */
  lemma XorBits(current: Word, value: Word)
    ensures var r := Effect(current, Xor, value);
            r & value == !current & value && r & !value == current & !value
  {
    XorWordBits(current, value);
  }

  /** A SET store sets exactly the bits of `value`. */
  lemma SetBits(current: Word, value: Word)
    ensures var r := Effect(current, Set, value);
            r & value == value && r & !value == current & !value
  {
    EffectSet(current, value);
    SetApBits(current, value);
  }

  /** A CLR store clears exactly the bits of `value`. */
  lemma ClearBits(current: Word, value: Word)
    ensures var r := Effect(current, Clear, value);
            r & value == 0 && r & !value == current & !value
  {
    var r := Effect(current, Clear, value);
    assert r == Ap(Mask(!value, 0), current);
    ClearWordBits(current, value);
  }

  lemma OrZero(x: Word)
    ensures x | 0 == x
  {}

  lemma AndAllOnes(x: Word)
    ensures x & 0xffff_ffff == x
  {}

  /** A CLR store is an AND with the complement of its value. */
  lemma ClearIsAndNot(current: Word, value: Word)
    ensures Effect(current, Clear, value) == current & !value
  {
    assert Effect(current, Clear, value) == Ap(Mask(!value, 0), current);
    OrZero(current & !value);
  }

  /** A SET store is an OR with its value. */
  lemma SetIsOr(current: Word, value: Word)
    ensures Effect(current, Set, value) == current | value
  {
    EffectSet(current, value);
    AndAllOnes(current);
  }

  const Identity := Mask(0xffff_ffff, 0)

  /** f, then g. */
  function Then(f: Mask, g: Mask): Mask {
    Mask(f.keep & g.keep, (f.add & g.keep) | g.add)
  }

  lemma ThenBits(k1: Word, a1: Word, k2: Word, a2: Word, x: Word)
    ensures (((x & k1) | a1) & k2) | a2 == (x & (k1 & k2)) | ((a1 & k2) | a2)
  {}

  lemma MaskBitsIdempotent(k: Word, a: Word, x: Word)
    ensures (((x & k) | a) & k) | a == (x & k) | a
  {}

  lemma ThenAp(f: Mask, g: Mask, x: Word)
    ensures Ap(Then(f, g), x) == Ap(g, Ap(f, x))
  {
    ThenBits(f.keep, f.add, g.keep, g.add, x);
  }

  lemma ApIdempotent(m: Mask, x: Word)
    ensures Ap(m, Ap(m, x)) == Ap(m, x)
  {
    MaskBitsIdempotent(m.keep, m.add, x);
  }

  lemma IdentityBits(x: Word)
    ensures (x & 0xffff_ffff) | 0 == x
  {}
}
