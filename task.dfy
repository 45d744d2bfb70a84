/** Tasks (hjert-core/task.cpp): the capability mask, the
    EXITED/BLOCKED/RUNNABLE evaluation, and the lock discipline around
    yields. The task lock is a ghost flag; `YieldUnlocked` can only be
    called while it is free, so every path that yields is checked to have
    released it first. */
module Tasks {
  import opened Wrappers
  import opened Arch
  import opened Spaces

  /** `Hj::Pledge`, a flag set, as a 64-bit mask. */
  type Mask = bv64

  /** The mask a new task holds (every capability). */
  const ALL_PLEDGES: Mask := 0xFFFF_FFFF_FFFF_FFFF

  /** `Flags::has`: every bit of `p` is set in `mask`. */
  predicate Has(mask: Mask, p: Mask)
  {
    mask & p == p
  }

  /** The answer of `ensure(p)` for a task holding `mask`. */
  function EnsureResult(mask: Mask, p: Mask): (r: Result<()>)
    ensures r.Ok? <==> Has(mask, p)
    ensures r.Err? ==> r.error == PermissionDenied
  {
    if !Has(mask, p) then Err(PermissionDenied) else Ok(())
  }

  /** The answer of `pledge(p)` for a task holding `mask`: the new mask. */
  function PledgeResult(mask: Mask, p: Mask): (r: Result<Mask>)
    ensures r.Ok? <==> Has(mask, p)
    ensures r.Err? ==> r.error == PermissionDenied
    ensures r.Ok? ==> r.value == p
  {
    if !Has(mask, p) then Err(PermissionDenied) else Ok(p)
  }

  /** Pledging can only drop capabilities: whatever the new mask grants,
      the old one granted. */
  lemma PledgeOnlyNarrows(mask: Mask, p: Mask, q: Mask)
    requires PledgeResult(mask, p).Ok?
    requires Has(PledgeResult(mask, p).value, q)
    ensures Has(mask, q)
  {
  }

  /** Re-pledging the current mask always succeeds and changes nothing. */
  lemma RepledgeIsNoop(mask: Mask)
    ensures PledgeResult(mask, mask) == Ok(mask)
  {
  }

  /** A capability that `ensure` refuses can never be regained by pledging. */
  lemma NoEscalation(mask: Mask, p: Mask)
    requires EnsureResult(mask, p).Err?
    ensures PledgeResult(mask, p).Err?
    ensures forall q: Mask :: PledgeResult(mask, q).Ok? ==> EnsureResult(q, p).Err?
  {
  }

  datatype State = Runnable | Blocked | Exited

  /** An installed blocker. The closure is opaque; what it returns when
      called (it takes no argument) is `poll(b)`. */
  datatype Blocker = Blocker(id: nat)

  /** The state `eval(now)` reports for a task whose exit signal is
      `exited` and whose installed blocker is `block`. */
  function Evaluate(exited: bool, block: Option<Blocker>, now: int, poll: Blocker -> int): State
  {
    if exited then Exited
    else if block.Some? && poll(block.value) == now then Blocked
    else Runnable
  }

  /** The blocker left installed by `eval(now)`. */
  function AfterEval(exited: bool, block: Option<Blocker>, now: int, poll: Blocker -> int): Option<Blocker>
  {
    if exited then block
    else if block.Some? && poll(block.value) == now then block
    else None
  }

  /** The transition function's three outcomes: exit is decided before any
      blocker is consulted; a blocker keeps the task BLOCKED (and stays
      installed) exactly while it returns `now`; otherwise the task is
      RUNNABLE and holds no blocker. */
  lemma EvaluateCases(exited: bool, block: Option<Blocker>, now: int, poll: Blocker -> int)
    ensures exited ==> Evaluate(exited, block, now, poll) == Exited
                       && AfterEval(exited, block, now, poll) == block
    ensures !exited && block.Some? ==>
              (Evaluate(exited, block, now, poll) == Blocked <==> poll(block.value) == now)
    ensures Evaluate(exited, block, now, poll) == Blocked ==> AfterEval(exited, block, now, poll) == block
    ensures Evaluate(exited, block, now, poll) == Runnable ==> AfterEval(exited, block, now, poll).None?
    ensures !exited && block.None? ==> Evaluate(exited, block, now, poll) == Runnable
  {
  }

  /** Evaluating twice at the same time stamp reports the same state and
      leaves the same blocker: a task listed twice is treated alike both
      times. */
  lemma EvaluateIdempotent(exited: bool, block: Option<Blocker>, now: int, poll: Blocker -> int)
    ensures Evaluate(exited, AfterEval(exited, block, now, poll), now, poll) == Evaluate(exited, block, now, poll)
    ensures AfterEval(exited, AfterEval(exited, block, now, poll), now, poll) == AfterEval(exited, block, now, poll)
  {
  }

  /** A capability domain; its contents are not part of this model. */
  class Domain {
    constructor()
    {
    }

    static method Create(fault: Option<Error>) returns (r: Result<Domain>)
      ensures r.Err? <==> fault.Some?
      ensures r.Err? ==> r.error == fault.value
      ensures r.Ok? ==> fresh(r.value)
    {
      if fault.Some? {
        return Err(fault.value);
      }
      var d := new Domain();
      return Ok(d);
    }
  }

  class Task {
    var mode: Mode
    /** The top of the task's kernel stack (`stack().loadSp()`). */
    const kernelSp: nat
    const space: Option<Space>
    const domain: Option<Domain>
    var pledges: Mask
    var block: Option<Blocker>
    var ctx: Option<Ctx>
    var sliceEnd: int
    /** The EXITED signal, which `_ret()` reports. */
    var exited: bool
    var crashed: bool
    ghost var locked: bool

    constructor(mode: Mode, kernelSp: nat, space: Option<Space>, domain: Option<Domain>)
      ensures this.mode == mode && this.kernelSp == kernelSp
      ensures this.space == space && this.domain == domain
      ensures pledges == ALL_PLEDGES && block.None? && ctx.None? && sliceEnd == 0
      ensures !exited && !crashed && !locked
    {
      this.mode := mode;
      this.kernelSp := kernelSp;
      this.space := space;
      this.domain := domain;
      pledges := ALL_PLEDGES;
      block := None;
      ctx := None;
      sliceEnd := 0;
      exited := false;
      crashed := false;
      locked := false;
    }

    /** `Task::create(mode, space, domain)`: allocates the kernel stack (a
        fallible collaborator; on success its top is `stackTop`) and
        builds a task that has no context yet. */
    static method Create(mode: Mode, space: Option<Space>, domain: Option<Domain>,
                         stackFault: Option<Error>, stackTop: nat) returns (r: Result<Task>)
      ensures r.Err? <==> stackFault.Some?
      ensures r.Err? ==> r.error == stackFault.value
      ensures r.Ok? ==> fresh(r.value) && r.value.mode == mode && r.value.kernelSp == stackTop
      ensures r.Ok? ==> r.value.space == space && r.value.domain == domain
      ensures r.Ok? ==> r.value.ctx.None? && r.value.block.None? && r.value.pledges == ALL_PLEDGES
      ensures r.Ok? ==> r.value.sliceEnd == 0 && !r.value.exited && !r.value.locked
    {
      if stackFault.Some? {
        return Err(stackFault.value);
      }
      var t := new Task(mode, stackTop, space, domain);
      return Ok(t);
    }

    /** `_ret()`: the task has been signalled to exit. */
    predicate Ret()
      reads this
    {
      exited
    }

    method Acquire()
      requires !locked
      modifies this`locked
      ensures locked
    {
      locked := true;
    }

    method Release()
      requires locked
      modifies this`locked
      ensures !locked
    {
      locked := false;
    }

    /** `Arch::yield()` issued on behalf of this task: only allowed while
        the task's lock is free. */
    method YieldUnlocked(cpu: Cpu)
      requires !locked
      modifies cpu
      ensures cpu.log == old(cpu.log) + [Yielded]
    {
      cpu.Yield();
    }

    method Ensure(p: Mask) returns (r: Result<()>)
      requires !locked
      modifies this`locked
      ensures !locked
      ensures r == EnsureResult(pledges, p)
    {
      Acquire();
      if !Has(pledges, p) {
        Release();
        return Err(PermissionDenied);
      }
      Release();
      return Ok(());
    }

    method Pledge(p: Mask) returns (r: Result<()>)
      requires !locked
      modifies this`locked, this`pledges
      ensures !locked
      ensures r.Ok? <==> PledgeResult(old(pledges), p).Ok?
      ensures r.Err? ==> r.error == PermissionDenied && pledges == old(pledges)
      ensures r.Ok? ==> pledges == PledgeResult(old(pledges), p).value
    {
      Acquire();
      if !Has(pledges, p) {
        Release();
        return Err(PermissionDenied);
      }
      pledges := p;
      Release();
      return Ok(());
    }

    /** `ready(ip, sp, args)`: create the execution context in the task's
        current mode on its kernel stack; a creation error is passed on and
        leaves the task without a new context. */
    method Ready(ip: nat, sp: nat, args: seq<nat>, fault: Option<Error>) returns (r: Result<()>)
      requires !locked
      modifies this`locked, this`ctx
      ensures !locked
      ensures r.Err? <==> fault.Some?
      ensures r.Err? ==> r.error == fault.value && ctx == old(ctx)
      ensures r.Ok? ==> ctx == Some(Ctx(mode, ip, sp, kernelSp, args))
    {
      Acquire();
      var c := CreateCtx(mode, ip, sp, kernelSp, args, fault);
      if c.Err? {
        Release();
        return Err(c.error);
      }
      ctx := Some(c.value);
      Release();
      return Ok(());
    }

    /** `block(blocker)`: install the blocker under the lock, release the
        lock, then yield. */
    method Block(b: Blocker, cpu: Cpu) returns (r: Result<()>)
      requires !locked
      modifies this`locked, this`block, cpu
      ensures !locked && block == Some(b) && r == Ok(())
      ensures cpu.log == old(cpu.log) + [Yielded]
    {
      Acquire();
      block := Some(b);
      Release();
      YieldUnlocked(cpu);
      return Ok(());
    }

    /** `crash()`: raise the EXITED and CRASHED signals. */
    method Crash()
      modifies this`exited, this`crashed
      ensures exited && crashed
    {
      exited := true;
      crashed := true;
    }

    /** `eval(now)`: the state transition, under the task lock. */
    method Eval(now: int, poll: Blocker -> int) returns (s: State)
      requires !locked
      modifies this`locked, this`block
      ensures !locked
      ensures s == Evaluate(exited, old(block), now, poll)
      ensures block == AfterEval(exited, old(block), now, poll)
    {
      Acquire();
      if Ret() {
        Release();
        return Exited;
      }
      if block.Some? {
        if poll(block.value) == now {
          Release();
          return Blocked;
        }
        block := None;
      }
      Release();
      return Runnable;
    }

    /** `load(frame)`: activate the task's space, if it has one, then
        load its context. */
    method Load(cpu: Cpu)
      requires ctx.Some?
      modifies cpu
      ensures cpu.log == old(cpu.log)
                         + (if space.Some? then [Activated(space.value)] else [])
                         + [Loaded(ctx.value)]
    {
      if space.Some? {
        space.value.Activate(cpu);
      }
      cpu.Load(ctx.value);
    }

    /** `enter(mode)`: switch privilege mode under the lock. */
    method Enter(m: Mode)
      requires !locked
      modifies this`locked, this`mode
      ensures !locked && mode == m
    {
      Acquire();
      mode := m;
      Release();
    }

    /** `leave()`: drop to USER mode and, when the task has been signalled
        to exit, yield after releasing the lock. */
    method Leave(cpu: Cpu)
      requires !locked
      modifies this`locked, this`mode, cpu
      ensures !locked && mode == User
      ensures cpu.log == old(cpu.log) + (if exited then [Yielded] else [])
    {
      Acquire();
      mode := User;
      var mustYield := Ret();
      Release();
      if mustYield {
        YieldUnlocked(cpu);
      }
    }
  }
}
