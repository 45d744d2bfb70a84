/** Hardware-abstraction values shared by the kernel modules: page size,
    physical ranges, and the environment that stands for the opaque
    collaborators of the kernel core (allocators, the arch layer, the ELF
    and handover parsers). */
module Hal {
  import opened Wrappers

  const PAGE_SIZE: nat := 4096

  /** `alignUp(x, PAGE_SIZE)`: the least multiple of the page size that is
      at least `x`. */
  function AlignUp(x: nat): (r: nat)
    ensures x <= r < x + PAGE_SIZE
    ensures r % PAGE_SIZE == 0
  {
    (x + PAGE_SIZE - 1) / PAGE_SIZE * PAGE_SIZE
  }

  function Max(a: nat, b: nat): (r: nat)
    ensures r >= a && r >= b && (r == a || r == b)
  {
    if a >= b then a else b
  }

  /** A range of physical memory. */
  datatype PmmRange = PmmRange(start: nat, size: nat) {
    function End(): nat { start + size }
  }

  /** A fixed physical range reachable by DMA (a device window or memory
      described by the boot loader). */
  datatype DmaRange = DmaRange(start: nat, size: nat)

  /** A range of a task's virtual address space. */
  datatype VRange = VRange(start: nat, size: nat) {
    function End(): nat { start + size }
  }

  /** Each call site of an opaque, fallible collaborator that the modelled
      code makes. Loop iterations over program headers are told apart by
      the index of the header. */
  datatype Site =
    | ArchInit
    | MemInit
    | BootSpace
    | BootStack
    | BootCtx
    | InitSpace
    | ElfVmo
    | ElfKmm
    | SegAlloc(i: nat)
    | SegKmm(i: nat)
    | SegMap(i: nat)
    | HandoverVmo
    | HandoverMap
    | StackAlloc
    | StackMap
    | InitDomain
    | InitStack
    | InitCtx

  /** What the collaborators answer: whether the call at a site fails (and
      with which error), where a physical allocation lands, and where an
      address space places a mapping whose range it chooses itself. */
  datatype Env = Env(
    fault: Site -> Option<Error>,
    phys: Site -> nat,
    place: Site -> nat)
}
