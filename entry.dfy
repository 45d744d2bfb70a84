/** The kernel entry (hjert-core/entry.cpp): checking and dumping the
    handover payload, loading the init program into a fresh address space
    and queueing its task, and the order of the boot steps. The handover
    parser, the ELF parser, the kernel memory manager and the address
    space are opaque collaborators: their answers are parameters or come
    from the environment `Env`. */
module Entry {
  import opened Wrappers
  import opened Hal
  import opened Arch
  import opened Vmos
  import opened Spaces
  import opened Tasks
  import opened Scheduler

  type byte = bv8

  /** The handover record kinds the entry code tells apart. */
  datatype Tag = Free | File | Other

  /** A handover record: a tagged physical range; a FILE record also
      carries the file's name. */
  datatype Record = Record(tag: Tag, start: nat, size: nat, name: string)

  /* ---- validateAndDump ---------------------------------------------- */

  /** The total size of the FREE records among the first `n`. */
  function FreeTotal(records: seq<Record>, n: nat): nat
    requires n <= |records|
    decreases n
  {
    if n == 0 then 0
    else FreeTotal(records, n - 1) + (if records[n - 1].tag == Free then records[n - 1].size else 0)
  }

  /** The FREE records among the first `n`, in order. */
  function FreeRecords(records: seq<Record>, n: nat): (r: seq<Record>)
    requires n <= |records|
    ensures forall j :: 0 <= j < |r| ==> r[j].tag == Free
    decreases n
  {
    if n == 0 then []
    else FreeRecords(records, n - 1) + (if records[n - 1].tag == Free then [records[n - 1]] else [])
  }

  /** The total size of every record of `rs`. */
  function SizeSum(rs: seq<Record>): nat
  {
    if rs == [] then 0 else SizeSum(rs[..|rs| - 1]) + rs[|rs| - 1].size
  }

  lemma {:induction false} SizeSumAppend(a: seq<Record>, b: seq<Record>)
    ensures SizeSum(a + b) == SizeSum(a) + SizeSum(b)
    decreases |b|
  {
    if b != [] {
      assert (a + b)[..|a + b| - 1] == a + b[..|b| - 1];
      assert (a + b)[|a + b| - 1] == b[|b| - 1];
      SizeSumAppend(a, b[..|b| - 1]);
      assert SizeSum(b) == SizeSum(b[..|b| - 1]) + b[|b| - 1].size;
    } else {
      assert a + b == a;
    }
  }

  /** The reported total is the size of exactly the FREE records: it is
      the plain sum over the records that are FREE. */
  lemma {:induction false} FreeTotalIsSumOfFree(records: seq<Record>, n: nat)
    requires n <= |records|
    ensures FreeTotal(records, n) == SizeSum(FreeRecords(records, n))
    decreases n
  {
    if n > 0 {
      FreeTotalIsSumOfFree(records, n - 1);
      var tail := if records[n - 1].tag == Free then [records[n - 1]] else [];
      SizeSumAppend(FreeRecords(records, n - 1), tail);
      assert SizeSum(tail) == (if records[n - 1].tag == Free then records[n - 1].size else 0) by {
        if tail != [] {
          assert tail[..0] == [];
        }
      }
    }
  }

  /** Records that are not FREE never change the total, whatever their
      size. */
  lemma {:induction false} FreeTotalIgnoresOthers(records: seq<Record>, j: nat, size: nat, n: nat)
    requires j < |records| && records[j].tag != Free && n <= |records|
    ensures FreeTotal(records[j := records[j].(size := size)], n) == FreeTotal(records, n)
    decreases n
  {
    if n > 0 {
      FreeTotalIgnoresOthers(records, j, size, n - 1);
    }
  }

  /** `validateAndDump(magic, payload)`: `valid` is the handover parser's
      verdict on the magic and the payload. An invalid payload is refused
      before any record is read; otherwise the records are walked and the
      size of the FREE ones is summed into `totalFree`, the figure the
      dump reports. */
  method ValidateAndDump(valid: bool, records: seq<Record>) returns (r: Result<()>, totalFree: nat)
    ensures r.Err? <==> !valid
    ensures r.Err? ==> r.error == InvalidInput && totalFree == 0
    ensures r.Ok? ==> totalFree == FreeTotal(records, |records|)
  {
    totalFree := 0;
    if !valid {
      return Err(InvalidInput), totalFree;
    }
    var i := 0;
    while i < |records|
      invariant i <= |records| && totalFree == FreeTotal(records, i)
    {
      if records[i].tag == Free {
        totalFree := totalFree + records[i].size;
      }
      i := i + 1;
    }
    return Ok(()), totalFree;
  }

  /* ---- enterUserspace ----------------------------------------------- */

  /** The path of the init program in the boot bundle. */
  const INIT_PATH: string := "bundle://grund-system/_bin"

  /** The init task's stack: 64 KiB. */
  const STACK_SIZE: nat := 64 * 1024

  /** Width of `usize`, for the handover base computation. */
  const USIZE_LIMIT: int := 0x1_0000_0000_0000_0000

  /** `PT_LOAD` and the write permission bit `PF_W` of an ELF program
      header (System V gABI, chapter 5, "Program Header"). */
  const PT_LOAD: nat := 1
  const PF_W: bv32 := 2

  /** A program header as the ELF parser exposes it, with the segment's
      file bytes. */
  datatype Program = Program(ptype: nat, flags: bv32, vaddr: nat, offset: nat,
                             memsz: nat, filesz: nat, bytes: seq<byte>)

  /** The ELF parser's view of the init file: whether the image is valid,
      its entry point, and its program headers. */
  datatype Image = Image(valid: bool, entry: nat, programs: seq<Program>)

  /** A copy into physical memory: `bytes` written from address `at`. */
  datatype Write = Write(at: nat, bytes: seq<byte>)

  predicate IsFileNamed(r: Record, name: string)
  {
    r.tag == File && r.name == name
  }

  /** `payload.fileByName(name)`, from index `from` on: the index of the
      first FILE record with that name. */
  function FindFile(records: seq<Record>, name: string, from: nat): (k: Option<nat>)
    requires from <= |records|
    ensures k.Some? ==> from <= k.value < |records| && IsFileNamed(records[k.value], name)
    ensures k.Some? ==> forall j :: from <= j < k.value ==> !IsFileNamed(records[j], name)
    ensures k.None? ==> forall j :: from <= j < |records| ==> !IsFileNamed(records[j], name)
    decreases |records| - from
  {
    if from == |records| then None
    else if IsFileNamed(records[from], name) then Some(from)
    else FindFile(records, name, from + 1)
  }

  /** The segment is writable: `(flags & WRITE) == WRITE`. */
  predicate Writable(p: Program)
  {
    p.flags & PF_W == PF_W
  }

  /** `alignUp(max(memsz, filesz), PAGE_SIZE)`: the size mapped for a
      LOAD segment, whole pages covering both its memory and file
      sizes. */
  function SegSize(p: Program): (size: nat)
    ensures size % PAGE_SIZE == 0 && p.memsz <= size && p.filesz <= size
    ensures size < Max(p.memsz, p.filesz) + PAGE_SIZE
  {
    AlignUp(Max(p.memsz, p.filesz))
  }

  /** `copy(src, dst)` copies as many bytes as both sides hold. */
  function Fit(bytes: seq<byte>, room: nat): (r: seq<byte>)
    ensures |r| <= room && r <= bytes
    ensures |bytes| <= room ==> r == bytes
  {
    if |bytes| <= room then bytes else bytes[..room]
  }

  /** The first fault header `i` meets: none for a header that is not
      LOAD; for a writable one the allocation, then the kernel mapping
      of its memory, then the map; for the others only the map. */
  function SegFault(p: Program, i: nat, env: Env): Option<Error>
  {
    if p.ptype != PT_LOAD then None
    else if Writable(p) then
      if env.fault(SegAlloc(i)).Some? then env.fault(SegAlloc(i))
      else if env.fault(SegKmm(i)).Some? then env.fault(SegKmm(i))
      else env.fault(SegMap(i))
    else env.fault(SegMap(i))
  }

  /** The mapping made for header `i`: a writable LOAD segment gets a
      fresh VMO of the segment's size mapped READ|WRITE from offset 0; any
      other LOAD segment is mapped from the shared ELF VMO at the
      segment's file offset, READ|EXEC. */
  function SegMapping(p: Program, i: nat, elf: Vmo, env: Env): Option<Mapping>
  {
    if p.ptype != PT_LOAD then None
    else if Writable(p) then
      Some(Mapping(VRange(p.vaddr, SegSize(p)), Vmo(Pmm(PmmRange(env.phys(SegAlloc(i)), SegSize(p)))),
                   0, READ_WRITE))
    else Some(Mapping(VRange(p.vaddr, SegSize(p)), elf, p.offset, READ_EXEC))
  }

  /** The copy made for header `i`: a writable LOAD segment's bytes go
      into its fresh memory. */
  function SegWrite(p: Program, i: nat, env: Env): Option<Write>
  {
    if p.ptype == PT_LOAD && Writable(p) then
      Some(Write(env.phys(SegAlloc(i)), Fit(p.bytes, SegSize(p))))
    else None
  }

  function OptSeq<T>(o: Option<T>): seq<T>
  {
    if o.Some? then [o.value] else []
  }

  /** The first fault among the first `n` headers. */
  function SegmentsFault(progs: seq<Program>, env: Env, n: nat): Option<Error>
    requires n <= |progs|
    decreases n
  {
    if n == 0 then None
    else if SegmentsFault(progs, env, n - 1).Some? then SegmentsFault(progs, env, n - 1)
    else SegFault(progs[n - 1], n - 1, env)
  }

  /** The mappings made for the first `n` headers, in header order. */
  function Mappings(progs: seq<Program>, elf: Vmo, env: Env, n: nat): seq<Mapping>
    requires n <= |progs|
    decreases n
  {
    if n == 0 then [] else Mappings(progs, elf, env, n - 1) + OptSeq(SegMapping(progs[n - 1], n - 1, elf, env))
  }

  /** The copies made for the first `n` headers, in header order. */
  function Writes(progs: seq<Program>, env: Env, n: nat): seq<Write>
    requires n <= |progs|
    decreases n
  {
    if n == 0 then [] else Writes(progs, env, n - 1) + OptSeq(SegWrite(progs[n - 1], n - 1, env))
  }

  /** Once a header has failed, the loading fails with that fault. */
  lemma {:induction false} FaultSticks(progs: seq<Program>, env: Env, i: nat, n: nat)
    requires i <= n <= |progs|
    ensures SegmentsFault(progs, env, i).Some? ==> SegmentsFault(progs, env, n) == SegmentsFault(progs, env, i)
    decreases n
  {
    if i < n {
      FaultSticks(progs, env, i, n - 1);
    }
  }

  /** The mapping policy: every mapping covers whole pages; it is either
      a non-DMA VMO mapped READ|WRITE from offset 0, or the shared ELF
      VMO mapped READ|EXEC. */
  lemma {:induction false} MappingPolicy(progs: seq<Program>, elf: Vmo, env: Env, n: nat)
    requires n <= |progs|
    ensures forall m :: m in Mappings(progs, elf, env, n) ==>
              m.range.size % PAGE_SIZE == 0
              && ((m.flags == READ_WRITE && !m.vmo.IsDma() && m.offset == 0)
                  || (m.flags == READ_EXEC && m.vmo == elf))
    decreases n
  {
    if n > 0 {
      MappingPolicy(progs, elf, env, n - 1);
    }
  }

  /** Exactly the LOAD headers are mapped: one mapping each, at the
      header's address, covering its memory and file sizes. */
  lemma {:induction false} LoadHeadersMapped(progs: seq<Program>, elf: Vmo, env: Env, n: nat, j: nat)
    requires j < n <= |progs|
    ensures progs[j].ptype == PT_LOAD ==>
              SegMapping(progs[j], j, elf, env).Some? && SegMapping(progs[j], j, elf, env).value in Mappings(progs, elf, env, n)
    ensures progs[j].ptype != PT_LOAD ==> SegMapping(progs[j], j, elf, env).None?
    decreases n
  {
    if j < n - 1 {
      LoadHeadersMapped(progs, elf, env, n - 1, j);
    }
  }

  /** The number of LOAD headers among the first `n`. */
  function LoadCount(progs: seq<Program>, n: nat): nat
    requires n <= |progs|
    decreases n
  {
    if n == 0 then 0 else LoadCount(progs, n - 1) + (if progs[n - 1].ptype == PT_LOAD then 1 else 0)
  }

  lemma {:induction false} OneMappingPerLoad(progs: seq<Program>, elf: Vmo, env: Env, n: nat)
    requires n <= |progs|
    ensures |Mappings(progs, elf, env, n)| == LoadCount(progs, n)
    decreases n
  {
    if n > 0 {
      OneMappingPerLoad(progs, elf, env, n - 1);
    }
  }

  /** A segment whose file bytes fit its memory size is copied whole. */
  lemma WholeSegmentCopied(p: Program, i: nat, env: Env)
    requires p.ptype == PT_LOAD && Writable(p) && |p.bytes| <= p.filesz
    ensures SegWrite(p, i, env) == Some(Write(env.phys(SegAlloc(i)), p.bytes))
  {
  }

  /** What the physical allocator promises `Vmo::alloc`: distinct
      headers' allocations do not overlap. */
  predicate AllocsDisjoint(progs: seq<Program>, env: Env)
  {
    forall j, k :: 0 <= j < k < |progs| ==>
      env.phys(SegAlloc(j)) + SegSize(progs[j]) <= env.phys(SegAlloc(k))
      || env.phys(SegAlloc(k)) + SegSize(progs[k]) <= env.phys(SegAlloc(j))
  }

  /** Each writable segment gets memory of its own: with an allocator
      that hands out disjoint memory, the VMOs of two writable segments
      do not overlap, and each segment's copy stays inside its own VMO. */
  lemma SegmentsDisjoint(progs: seq<Program>, elf: Vmo, env: Env, j: nat, k: nat)
    requires AllocsDisjoint(progs, env) && j < |progs| && k < |progs| && j != k
    requires progs[j].ptype == PT_LOAD && Writable(progs[j])
    requires progs[k].ptype == PT_LOAD && Writable(progs[k])
    ensures var a := SegMapping(progs[j], j, elf, env).value.vmo.Range();
            var b := SegMapping(progs[k], k, elf, env).value.vmo.Range();
            a.start + a.size <= b.start || b.start + b.size <= a.start
    ensures var a := SegMapping(progs[j], j, elf, env).value.vmo.Range();
            var w := SegWrite(progs[j], j, env).value;
            w.at == a.start && |w.bytes| <= a.size
  {
    if j < k {
      assert env.phys(SegAlloc(j)) + SegSize(progs[j]) <= env.phys(SegAlloc(k))
             || env.phys(SegAlloc(k)) + SegSize(progs[k]) <= env.phys(SegAlloc(j));
    } else {
      assert env.phys(SegAlloc(k)) + SegSize(progs[k]) <= env.phys(SegAlloc(j))
             || env.phys(SegAlloc(j)) + SegSize(progs[j]) <= env.phys(SegAlloc(k));
    }
  }

  /** The kernel's view of physical memory: `pmm2Kmm` and the copies made
      through it. */
  class Kmm {
    var writes: seq<Write>

    constructor()
      ensures writes == []
    {
      writes := [];
    }

    /** `copy(bytes, range.mutBytes())`. */
    method Copy(range: PmmRange, bytes: seq<byte>)
      modifies this
      ensures writes == old(writes) + [Write(range.start, Fit(bytes, range.size))]
    {
      writes := writes + [Write(range.start, Fit(bytes, range.size))];
    }
  }

  /** The loop over the ELF program headers: skip the ones that are not
      LOAD, map every LOAD segment (copying a writable one into fresh
      memory first), and stop at the first fault. */
  method LoadSegments(space: Space, kmm: Kmm, progs: seq<Program>, elf: Vmo, env: Env) returns (r: Result<()>)
    modifies space, kmm
    ensures r.Err? <==> SegmentsFault(progs, env, |progs|).Some?
    ensures r.Err? ==> r.error == SegmentsFault(progs, env, |progs|).value
    ensures r.Ok? ==> space.mappings == old(space.mappings) + Mappings(progs, elf, env, |progs|)
    ensures r.Ok? ==> kmm.writes == old(kmm.writes) + Writes(progs, env, |progs|)
  {
    var i := 0;
    while i < |progs|
      invariant i <= |progs| && SegmentsFault(progs, env, i).None?
      invariant space.mappings == old(space.mappings) + Mappings(progs, elf, env, i)
      invariant kmm.writes == old(kmm.writes) + Writes(progs, env, i)
    {
      FaultSticks(progs, env, i + 1, |progs|);
      var p := progs[i];
      if p.ptype == PT_LOAD {
        var size := SegSize(p);
        if Writable(p) {
          var vmo :- Alloc(size, Upper, env.phys(SegAlloc(i)), env.fault(SegAlloc(i)));
          var range :- FromFault(env.fault(SegKmm(i)), vmo.Range());
          kmm.Copy(range, p.bytes);
          var _ :- space.Map(Some(VRange(p.vaddr, size)), vmo, 0, READ_WRITE,
                             env.fault(SegMap(i)), env.place(SegMap(i)));
        } else {
          var _ :- space.Map(Some(VRange(p.vaddr, size)), elf, p.offset, READ_EXEC,
                             env.fault(SegMap(i)), env.place(SegMap(i)));
        }
      }
      i := i + 1;
    }
    return Ok(());
  }

  /** `(usize)&payload - Handover::KERNEL_BASE`, with `usize`
      wrap-around. */
  function HandoverBase(payloadAddr: nat, kernelBase: nat): (b: nat)
    ensures b < USIZE_LIMIT
    ensures kernelBase <= payloadAddr < kernelBase + USIZE_LIMIT ==> b == payloadAddr - kernelBase
  {
    (payloadAddr - kernelBase) % USIZE_LIMIT
  }

  /** Every step that builds the init space succeeds: no collaborator
      reports a fault and the image is valid. */
  predicate SpaceReady(image: Image, env: Env)
  {
    env.fault(InitSpace).None? && env.fault(ElfVmo).None? && env.fault(ElfKmm).None?
    && image.valid
    && SegmentsFault(image.programs, env, |image.programs|).None?
    && env.fault(HandoverVmo).None? && env.fault(HandoverMap).None?
    && env.fault(StackAlloc).None? && env.fault(StackMap).None?
  }

  /** The first failure building the init space meets, in the order of
      the steps: the space, the ELF VMO, its kernel mapping, the image
      check, the segments, the handover VMO and mapping, then the stack's
      allocation and mapping. */
  function BuildFault(image: Image, env: Env): Option<Error>
  {
    if env.fault(InitSpace).Some? then env.fault(InitSpace)
    else if env.fault(ElfVmo).Some? then env.fault(ElfVmo)
    else if env.fault(ElfKmm).Some? then env.fault(ElfKmm)
    else if !image.valid then Some(InvalidInput)
    else if SegmentsFault(image.programs, env, |image.programs|).Some? then SegmentsFault(image.programs, env, |image.programs|)
    else if env.fault(HandoverVmo).Some? then env.fault(HandoverVmo)
    else if env.fault(HandoverMap).Some? then env.fault(HandoverMap)
    else if env.fault(StackAlloc).Some? then env.fault(StackAlloc)
    else env.fault(StackMap)
  }

  /** The first failure `enterUserspace` meets: a missing init file, the
      space, then the domain, the task's stack and its context. */
  function EnterFault(records: seq<Record>, image: Image, env: Env): Option<Error>
  {
    if FindFile(records, INIT_PATH, 0).None? then Some(InvalidInput)
    else if BuildFault(image, env).Some? then BuildFault(image, env)
    else if env.fault(InitDomain).Some? then env.fault(InitDomain)
    else if env.fault(InitStack).Some? then env.fault(InitStack)
    else env.fault(InitCtx)
  }

  /** Every step of `enterUserspace` succeeds: the init file is present,
      its space can be built, and the task can be created and readied. */
  predicate Loadable(records: seq<Record>, image: Image, env: Env)
  {
    FindFile(records, INIT_PATH, 0).Some? && SpaceReady(image, env)
    && env.fault(InitDomain).None? && env.fault(InitStack).None? && env.fault(InitCtx).None?
  }

  /** The shared VMO over the init file's bytes. */
  function ElfVmoOf(rec: Record): Vmo
  {
    Vmo(Dma(DmaRange(rec.start, rec.size)))
  }

  /** Everything the init space holds once it is built: the segments in
      header order, then the handover payload (READ), then the stack
      (READ|WRITE), the last two where the space placed them. */
  function InitMappings(rec: Record, image: Image, env: Env, payloadAddr: nat,
                        kernelBase: nat, payloadSize: nat): seq<Mapping>
  {
    Mappings(image.programs, ElfVmoOf(rec), env, |image.programs|)
    + [Mapping(VRange(env.place(HandoverMap), payloadSize),
               Vmo(Dma(DmaRange(HandoverBase(payloadAddr, kernelBase), payloadSize))), 0, READ),
       Mapping(VRange(env.place(StackMap), STACK_SIZE),
               Vmo(Pmm(PmmRange(env.phys(StackAlloc), STACK_SIZE))), 0, READ_WRITE)]
  }

  /** The init space with the ranges of its handover and stack mappings. */
  datatype InitSpaceOf = InitSpaceOf(space: Space, handover: VRange, stack: VRange)

  /** The first half of `enterUserspace`: create the space, wrap the init
      file in a DMA VMO and map it into the kernel, refuse an invalid
      image, load the segments, then map the handover payload and a fresh
      64 KiB stack where the space chooses. */
  method BuildSpace(rec: Record, image: Image, payloadAddr: nat, kernelBase: nat, payloadSize: nat,
                    env: Env, kmm: Kmm) returns (r: Result<InitSpaceOf>)
    modifies kmm
    ensures r.Ok? <==> SpaceReady(image, env)
    ensures r.Err? ==> BuildFault(image, env).Some? && r.error == BuildFault(image, env).value
    ensures env.fault(InitSpace).None? && env.fault(ElfVmo).None? && env.fault(ElfKmm).None?
            ==> (!image.valid ==> r == Err(InvalidInput))
    ensures r.Ok? ==> fresh(r.value.space)
    ensures r.Ok? ==> r.value.space.mappings == InitMappings(rec, image, env, payloadAddr, kernelBase, payloadSize)
    ensures r.Ok? ==> r.value.handover == VRange(env.place(HandoverMap), payloadSize)
                      && r.value.stack == VRange(env.place(StackMap), STACK_SIZE)
    ensures r.Ok? ==> kmm.writes == old(kmm.writes) + Writes(image.programs, env, |image.programs|)
  {
    var space :- Space.Create(env.fault(InitSpace));
    var elf :- MakeDma(DmaRange(rec.start, rec.size), env.fault(ElfVmo));
    var _ :- FromFault(env.fault(ElfKmm), elf.Range());
    if !image.valid {
      return Err(InvalidInput);
    }
    var _ :- LoadSegments(space, kmm, image.programs, elf, env);
    var handoverVmo :- MakeDma(DmaRange(HandoverBase(payloadAddr, kernelBase), payloadSize), env.fault(HandoverVmo));
    var handoverRange :- space.Map(None, handoverVmo, 0, READ, env.fault(HandoverMap), env.place(HandoverMap));
    var stackVmo :- Alloc(STACK_SIZE, Upper, env.phys(StackAlloc), env.fault(StackAlloc));
    var stackRange :- space.Map(None, stackVmo, 0, READ_WRITE, env.fault(StackMap), env.place(StackMap));
    return Ok(InitSpaceOf(space, handoverRange, stackRange));
  }

  /** `enterUserspace(payload)`: find the init file and build its space,
      then create the USER task and ready it at the ELF entry with the
      stack's end as stack pointer and the handover mapping's start as
      argument, and queue it. Every step's failure is passed on; a
      missing init file or an invalid image is refused with InvalidInput.
      The task is queued only when every step succeeds. */
  method EnterUserspace(records: seq<Record>, image: Image, payloadAddr: nat, kernelBase: nat,
                        payloadSize: nat, env: Env, kmm: Kmm, sched: Sched) returns (r: Result<()>)
    modifies kmm, sched`tasks
    ensures r.Ok? <==> Loadable(records, image, env)
    ensures r.Err? ==> EnterFault(records, image, env).Some? && r.error == EnterFault(records, image, env).value
    ensures FindFile(records, INIT_PATH, 0).None? ==> r == Err(InvalidInput)
    ensures FindFile(records, INIT_PATH, 0).Some? && env.fault(InitSpace).None?
            && env.fault(ElfVmo).None? && env.fault(ElfKmm).None?
            ==> (!image.valid ==> r == Err(InvalidInput))
    ensures r.Err? ==> sched.tasks == old(sched.tasks)
    ensures r.Ok? ==> |sched.tasks| == |old(sched.tasks)| + 1
                      && sched.tasks[..|old(sched.tasks)|] == old(sched.tasks)
    ensures r.Ok? ==> var t := sched.tasks[|old(sched.tasks)|];
                      fresh(t) && t.mode == User && t.space.Some? && t.domain.Some? && !t.locked
                      && t.ctx == Some(Ctx(User, image.entry, env.place(StackMap) + STACK_SIZE,
                                           env.phys(InitStack), [env.place(HandoverMap)]))
                      && t.space.value.mappings
                         == InitMappings(records[FindFile(records, INIT_PATH, 0).value], image, env,
                                         payloadAddr, kernelBase, payloadSize)
    ensures r.Ok? ==> kmm.writes == old(kmm.writes) + Writes(image.programs, env, |image.programs|)
  {
    var k := FindFile(records, INIT_PATH, 0);
    if k.None? {
      return Err(InvalidInput);
    }
    var built :- BuildSpace(records[k.value], image, payloadAddr, kernelBase, payloadSize, env, kmm);
    var domain :- Domain.Create(env.fault(InitDomain));
    var task :- Task.Create(User, Some(built.space), Some(domain), env.fault(InitStack), env.phys(InitStack));
    var _ :- task.Ready(image.entry, built.stack.End(), [built.handover.start], env.fault(InitCtx));
    var _ := sched.Enqueue(task);  // enqueue never fails
    return Ok(());
  }

  /* ---- init --------------------------------------------------------- */

  /** The boot steps `init` completes, in order. */
  datatype Phase = ArchReady | HandoverChecked | MemReady | SchedReady
                 | InterruptsOn | UserspaceEntered | Idling

  const ALL_PHASES: seq<Phase> :=
    [ArchReady, HandoverChecked, MemReady, SchedReady, InterruptsOn, UserspaceEntered, Idling]

  /** `init(magic, payload)`: Arch, the handover check, Mem and Sched are
      initialised in that order, the first failure aborting the boot;
      then interrupts are enabled, the init program is entered, and the
      boot task (the current one) becomes the idle task. `phases` is the
      steps completed; `Ok` stands for reaching the idle loop, which does
      not return. */
  method KernelInit(valid: bool, records: seq<Record>, image: Image, payloadAddr: nat, kernelBase: nat,
                    payloadSize: nat, env: Env, cpu: Cpu, kmm: Kmm)
    returns (r: Result<Sched>, phases: seq<Phase>, totalFree: nat)
    modifies cpu, kmm
    ensures phases <= ALL_PHASES
    ensures r.Ok? <==> phases == ALL_PHASES
    ensures |phases| == 0 <==> env.fault(ArchInit).Some?
    ensures |phases| == 1 <==> env.fault(ArchInit).None? && !valid
    ensures |phases| >= 2 ==> totalFree == FreeTotal(records, |records|)
    ensures |phases| >= 4 <==> env.fault(ArchInit).None? && valid && env.fault(MemInit).None?
                               && env.fault(BootSpace).None? && env.fault(BootStack).None? && env.fault(BootCtx).None?
    ensures |phases| >= 5 ==> (|phases| == 7 <==> Loadable(records, image, env))
    ensures cpu.log == old(cpu.log) + (if |phases| >= 4 then [InterruptsEnabled] else [])
    ensures |phases| == 0 ==> env.fault(ArchInit).Some? && r == Err(env.fault(ArchInit).value)
    ensures |phases| == 1 ==> r == Err(InvalidInput)
    ensures |phases| == 2 ==> env.fault(MemInit).Some? && r == Err(env.fault(MemInit).value)
    ensures |phases| == 3 ==> BootFault(env).Some? && r == Err(BootFault(env).value)
    ensures |phases| == 5 ==> EnterFault(records, image, env).Some? && r == Err(EnterFault(records, image, env).value)
    ensures r.Ok? ==> |r.value.tasks| == 2 && r.value.tasks[0] == r.value.curr
                      && r.value.curr.mode == Idle && r.value.tasks[1].mode == User
  {
    phases := [];
    totalFree := 0;
    if env.fault(ArchInit).Some? {
      return Err(env.fault(ArchInit).value), phases, totalFree;
    }
    phases := phases + [ArchReady];
    var checked;
    checked, totalFree := ValidateAndDump(valid, records);
    if checked.Err? {
      return Err(checked.error), phases, totalFree;
    }
    phases := phases + [HandoverChecked];
    if env.fault(MemInit).Some? {
      return Err(env.fault(MemInit).value), phases, totalFree;
    }
    phases := phases + [MemReady];
    var s := Sched.Init(env);
    if s.Err? {
      return Err(s.error), phases, totalFree;
    }
    var sched := s.value;
    phases := phases + [SchedReady];
    cpu.EnableInterrupts();
    phases := phases + [InterruptsOn];
    var entered := EnterUserspace(records, image, payloadAddr, kernelBase, payloadSize, env, kmm, sched);
    if entered.Err? {
      return Err(entered.error), phases, totalFree;
    }
    phases := phases + [UserspaceEntered];
    sched.curr.Enter(Idle);
    phases := phases + [Idling];
    return Ok(sched), phases, totalFree;
  }
}
