/** The architecture boundary as the kernel core sees it: privilege modes,
    saved execution contexts, and a CPU whose observable effects (address
    space activation, context loads, yields, interrupt enabling) are kept
    in an ordered log. */
module Arch {
  import opened Wrappers

  datatype Mode = Super | User | Idle

  /** An execution context created by `Arch::createCtx`: privilege mode,
      entry point, user stack pointer, kernel stack pointer and the
      argument words handed to the task. */
  datatype Ctx = Ctx(mode: Mode, ip: nat, sp: nat, ksp: nat, args: seq<nat>)

  /** `Arch::createCtx`, an opaque fallible call: it fails with `fault`
      when one is reported and otherwise builds the context from exactly
      the given values. */
  function CreateCtx(mode: Mode, ip: nat, sp: nat, ksp: nat, args: seq<nat>,
                     fault: Option<Error>): (r: Result<Ctx>)
    ensures r.Err? <==> fault.Some?
    ensures r.Ok? ==> r.value.mode == mode && r.value.ip == ip && r.value.sp == sp
    ensures r.Ok? ==> r.value.ksp == ksp && r.value.args == args
  {
    FromFault(fault, Ctx(mode, ip, sp, ksp, args))
  }

  datatype CpuEvent =
    | Activated(space: object)
    | Loaded(ctx: Ctx)
    | Yielded
    | InterruptsEnabled

  class Cpu {
    var log: seq<CpuEvent>

    constructor()
      ensures log == []
    {
      log := [];
    }

    /** `Arch::yield()`: trap into the scheduler with a zero time span. */
    method Yield()
      modifies this
      ensures log == old(log) + [Yielded]
    {
      log := log + [Yielded];
    }

    /** Install a page-table root (called by `Space::activate`). */
    method Activate(space: object)
      modifies this
      ensures log == old(log) + [Activated(space)]
    {
      log := log + [Activated(space)];
    }

    /** Restore a saved context into the trap frame. */
    method Load(ctx: Ctx)
      modifies this
      ensures log == old(log) + [Loaded(ctx)]
    {
      log := log + [Loaded(ctx)];
    }

    method EnableInterrupts()
      modifies this
      ensures log == old(log) + [InterruptsEnabled]
    {
      log := log + [InterruptsEnabled];
    }
  }
}
