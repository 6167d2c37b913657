/** What runs first on either core: the Armv8-M vector table at the start of
    the image and `Reset_Handler`, which lets only core 0 reach `main`.
    01_BlinkLED and 03_MultiCore carry the same table and handler. */
module Startup {
  import opened AtomicAccess
  import opened Registers

  /** The addresses the linker and compiler fill in. The handler and entry
      addresses of Thumb code are taken as given, Thumb bit included. */
  datatype LinkMap = LinkMap(stackEnd: Word, resetHandler: Word, defaultHandler: Word,
                             vectorTable: Word, mainCore1: Word)

  /** What one slot of the vector table holds: `&__stack_end__`,
      `Reset_Handler`, `Default_Handler` or 0. */
  datatype Entry = InitialSp | ResetVector | DefaultVector | Null

  const VECTOR_SLOTS: nat := 18

  /** `vectorTable`: the initial stack pointer, the reset vector, the
      exception vectors and the first two interrupt vectors. */
  const VECTOR_TABLE: seq<Entry> := [
    InitialSp, ResetVector,
    DefaultVector, DefaultVector, DefaultVector, DefaultVector, DefaultVector,
    Null, Null, Null, Null,
    DefaultVector, DefaultVector,
    Null,
    DefaultVector, DefaultVector,
    DefaultVector, DefaultVector
  ]

  /** Slots 7 to 10 and 13, which Armv8-M reserves. */
  predicate ReservedSlot(i: nat) {
    7 <= i <= 10 || i == 13
  }

  /** The word an entry becomes once linked. */
  function Resolve(m: LinkMap, e: Entry): Word {
    match e
    case InitialSp => m.stackEnd
    case ResetVector => m.resetHandler
    case DefaultVector => m.defaultHandler
    case Null => 0
  }

  /** The table as the words the image holds: the stack end, the reset
      handler, then 0 in each reserved slot and the default handler in every
      other. */
  function VectorWords(m: LinkMap): (ws: seq<Word>)
    ensures |ws| == VECTOR_SLOTS
    ensures ws[0] == m.stackEnd && ws[1] == m.resetHandler
    ensures forall i: nat :: 2 <= i < |ws| ==> ws[i] == if ReservedSlot(i) then 0 else m.defaultHandler
  {
    VectorTableLayout();
    seq(|VECTOR_TABLE|, i requires 0 <= i < |VECTOR_TABLE| => Resolve(m, VECTOR_TABLE[i]))
  }

  /** The table has 18 slots: the stack end first, the reset handler second,
      nothing in the reserved slots and the default handler everywhere else. */
  lemma VectorTableLayout()
    ensures |VECTOR_TABLE| == VECTOR_SLOTS
    ensures VECTOR_TABLE[0] == InitialSp && VECTOR_TABLE[1] == ResetVector
    ensures forall i: nat :: 2 <= i < VECTOR_SLOTS ==>
              (VECTOR_TABLE[i] == Null <==> ReservedSlot(i)) &&
              (VECTOR_TABLE[i] == DefaultVector <==> !ReservedSlot(i))
  {
    forall i: nat | 2 <= i < VECTOR_SLOTS
      ensures VECTOR_TABLE[i] == Null <==> ReservedSlot(i)
      ensures VECTOR_TABLE[i] == DefaultVector <==> !ReservedSlot(i)
    {
      if i < 7 {
      } else if i <= 10 {
      } else if i < 13 {
      } else if i == 13 {
      } else {
      }
    }
  }

  /** Once linked, a slot of the table holds zero exactly when it is reserved,
      provided the linker placed the stack end and both handlers away from
      address zero. */
  lemma VectorWordsNull(m: LinkMap, i: nat)
    requires m.stackEnd != 0 && m.resetHandler != 0 && m.defaultHandler != 0
    requires i < VECTOR_SLOTS
    ensures VectorWords(m)[i] == 0 <==> ReservedSlot(i)
  {
    VectorTableLayout();
    if i >= 2 {
      assert VECTOR_TABLE[i] == Null <==> ReservedSlot(i);
    }
  }

  /** `Reset_Handler`: loads the CPUID register of the SIO block; core 1 (CPUID
      1) parks in an endless `nop` loop and never reaches `main`, any other
      core goes on to `main` once. `runMain` says which happened; the park is
      not unrolled. */
  method ResetHandler(rf: RegisterFile) returns (runMain: bool)
    modifies rf
    ensures runMain <==> old(rf.Peek(CPUID)) != 1
    ensures rf.trace == old(rf.trace) + [Read(CPUID, old(rf.Peek(CPUID)))]
    ensures rf.regs == old(rf.regs) && rf.hw == Drop(old(rf.hw), CPUID, 1)
    ensures rf.inbox == old(rf.inbox) && rf.outbox == old(rf.outbox) && rf.peer == old(rf.peer)
  {
    var cpuId := rf.Get32(CPUID);
    runMain := cpuId != 1;
  }
}
