/** Virtual memory objects (hjert-core/vmo.h): a tagged union of freshly
    allocated physical memory and a fixed DMA range. */
module Vmos {
  import opened Wrappers
  import opened Hal

  /** The kernel's object type tags (`Hj::Type`). */
  datatype ObjectType = TASK | SPACE | VMO | DOMAIN

  datatype VmoFlags = NoFlags | Upper

  /** `_Mem`: exactly one of allocated physical memory or a DMA range. */
  datatype Mem = Pmm(pmm: PmmRange) | Dma(dma: DmaRange)

  datatype Vmo = Vmo(mem: Mem) {
    /** Every VMO carries the object tag VMO. */
    function Type(): (t: ObjectType)
      ensures t == VMO
    {
      VMO
    }

    /** `isDma()`: whether the stored variant is the DMA range. */
    predicate IsDma()
    {
      mem.Dma?
    }

    /** The physical range behind the VMO, whichever variant holds it. */
    function Range(): (r: PmmRange)
      ensures mem.Pmm? ==> r == mem.pmm
      ensures mem.Dma? ==> r.start == mem.dma.start && r.size == mem.dma.size
    {
      match mem
      case Pmm(p) => p
      case Dma(d) => PmmRange(d.start, d.size)
    }

    function Size(): nat
    {
      Range().size
    }
  }

  /** The constructor `Vmo(_Mem mem)`: stores the variant unchanged. */
  function MakeVmo(mem: Mem): (v: Vmo)
    ensures v.mem == mem
    ensures v.IsDma() <==> mem.Dma?
  {
    Vmo(mem)
  }

  /** `Vmo::alloc(size, flags)`: fallible; on success a VMO over `size`
      bytes of fresh physical memory at the address the allocator picked. */
  function Alloc(size: nat, flags: VmoFlags, at: nat, fault: Option<Error>): (r: Result<Vmo>)
    ensures r.Err? <==> fault.Some?
    ensures r.Err? ==> r.error == fault.value
    ensures r.Ok? ==> !r.value.IsDma() && r.value.Range() == PmmRange(at, size)
  {
    FromFault(fault, MakeVmo(Pmm(PmmRange(at, size))))
  }

  /** `Vmo::makeDma(range)`: fallible; on success a VMO over exactly the
      given range, never allocating. */
  function MakeDma(range: DmaRange, fault: Option<Error>): (r: Result<Vmo>)
    ensures r.Err? <==> fault.Some?
    ensures r.Err? ==> r.error == fault.value
    ensures r.Ok? ==> r.value.IsDma() && r.value.mem.dma == range
  {
    FromFault(fault, MakeVmo(Dma(range)))
  }

  /** A VMO's memory is exactly one of the two kinds, and `IsDma` tells
      which. */
  lemma KindIsExclusive(v: Vmo)
    ensures v.IsDma() <==> !v.mem.Pmm?
    ensures v.mem.Pmm? != v.mem.Dma?
  {
  }
}
