/** The scheduler (hjert-core/sched.cpp): one pass of `schedule(span)`
    advances the time base, stamps the outgoing task, evaluates every live
    task once, evicts the EXITED ones in place and picks the RUNNABLE task
    with the smallest slice end, the idle task being the fallback. */
module Scheduler {
  import opened Wrappers
  import opened Hal
  import opened Arch
  import opened Spaces
  import opened Tasks

  /** The selection over the first `n` entries, on values: the index of
      the task that becomes current, or -1 when the default (idle)
      candidate stays. The scan replaces the candidate whenever a RUNNABLE
      entry's end is `<=` the candidate's, so among equal minima the last
      one wins. */
  function PickIndex(ends: seq<int>, states: seq<State>, dflt: int, n: nat): (k: int)
    requires n <= |ends| && n <= |states|
    ensures -1 <= k < n
    ensures k >= 0 ==> states[k] == Runnable && ends[k] <= dflt
    decreases n
  {
    if n == 0 then -1
    else
      var p := PickIndex(ends, states, dflt, n - 1);
      var best := if p < 0 then dflt else ends[p];
      if states[n - 1] == Runnable && ends[n - 1] <= best then n - 1 else p
  }

  /** The pick is a minimum: no RUNNABLE entry has a smaller end than
      the picked one (nor than the default, when nothing is picked), and
      every RUNNABLE entry after the picked one has a strictly larger end. */
  lemma {:induction false} PickIsMinimal(ends: seq<int>, states: seq<State>, dflt: int, n: nat, j: nat)
    requires n <= |ends| && n <= |states| && j < n && states[j] == Runnable
    ensures var k := PickIndex(ends, states, dflt, n);
            (k >= 0 ==> ends[k] <= ends[j] && (k < j ==> ends[k] < ends[j]))
            && (k < 0 ==> dflt < ends[j])
    decreases n
  {
    if j < n - 1 {
      PickIsMinimal(ends, states, dflt, n - 1, j);
    }
  }

  /** The entries among the first `n` of `ts` that survive a pass, in
      their original order. */
  function Survivors<T>(ts: seq<T>, states: seq<State>, n: nat): (r: seq<T>)
    requires n <= |ts| && n <= |states|
    ensures |r| <= n
    decreases n
  {
    if n == 0 then []
    else Survivors(ts, states, n - 1) + (if states[n - 1] == Exited then [] else [ts[n - 1]])
  }

  /** Only the first `n` states matter. */
  lemma {:induction false} SurvivorsExtend<T>(ts: seq<T>, states: seq<State>, st: State, n: nat)
    requires n < |ts| && n == |states|
    ensures Survivors(ts, states + [st], n + 1)
            == Survivors(ts, states, n) + (if st == Exited then [] else [ts[n]])
  {
    SurvivorsAgree(ts, states, states + [st], n);
  }

  lemma {:induction false} SurvivorsAgree<T>(ts: seq<T>, s1: seq<State>, s2: seq<State>, n: nat)
    requires n <= |ts| && n <= |s1| && n <= |s2| && s1[..n] == s2[..n]
    ensures Survivors(ts, s1, n) == Survivors(ts, s2, n)
    decreases n
  {
    if n > 0 {
      assert s1[n - 1] == s1[..n][n - 1];
      SurvivorsAgree(ts, s1, s2, n - 1);
    }
  }

  /** One more scanned entry: it replaces the candidate exactly when it
      is RUNNABLE and its end is at most the candidate's. */
  lemma {:induction false} PickExtend(ends: seq<int>, states: seq<State>, st: State, dflt: int, n: nat)
    requires n < |ends| && n == |states|
    ensures var p := PickIndex(ends, states, dflt, n);
            var best := if p < 0 then dflt else ends[p];
            PickIndex(ends, states + [st], dflt, n + 1)
            == if st == Runnable && ends[n] <= best then n else p
  {
    PickAgree(ends, states, states + [st], dflt, n);
  }

  lemma {:induction false} PickAgree(ends: seq<int>, s1: seq<State>, s2: seq<State>, dflt: int, n: nat)
    requires n <= |ends| && n <= |s1| && n <= |s2| && s1[..n] == s2[..n]
    ensures PickIndex(ends, s1, dflt, n) == PickIndex(ends, s2, dflt, n)
    decreases n
  {
    if n > 0 {
      assert s1[n - 1] == s1[..n][n - 1];
      PickAgree(ends, s1, s2, dflt, n - 1);
    }
  }

  /** One step of the in-place eviction: the entry under the cursor is
      the next unscanned one, and removing it (EXITED) or stepping over it
      (otherwise) keeps the list equal to the survivors so far followed by
      the unscanned rest. */
  lemma EvictStep<T>(S: seq<T>, sts: seq<State>, st: State, k: nat, ts: seq<T>, i: nat)
    requires k < |S| && |sts| == k
    requires ts == Survivors(S, sts, k) + S[k..] && i == |Survivors(S, sts, k)|
    ensures i < |ts| && ts[i] == S[k]
    ensures st == Exited ==> ts[..i] + ts[i + 1..] == Survivors(S, sts + [st], k + 1) + S[k + 1..]
                             && i == |Survivors(S, sts + [st], k + 1)|
    ensures st != Exited ==> ts == Survivors(S, sts + [st], k + 1) + S[k + 1..]
                             && i + 1 == |Survivors(S, sts + [st], k + 1)|
  {
    SurvivorsExtend(S, sts, st, k);
    assert S[k..] == [S[k]] + S[k + 1..];
    if st == Exited {
      assert ts[..i] == Survivors(S, sts, k);
      assert ts[i + 1..] == S[k + 1..];
    }
  }

  /** The indices among the first `n` whose entry is not EXITED, in
      increasing order. */
  function Kept(states: seq<State>, n: nat): (idx: seq<nat>)
    requires n <= |states|
    ensures forall a :: 0 <= a < |idx| ==> idx[a] < n && states[idx[a]] != Exited
    ensures forall a, b :: 0 <= a < b < |idx| ==> idx[a] < idx[b]
    decreases n
  {
    if n == 0 then []
    else Kept(states, n - 1) + (if states[n - 1] == Exited then [] else [n - 1])
  }

  /** Every non-EXITED index is kept. */
  lemma {:induction false} KeptComplete(states: seq<State>, n: nat, i: nat)
    requires n <= |states| && i < n && states[i] != Exited
    ensures i in Kept(states, n)
    decreases n
  {
    if i < n - 1 {
      KeptComplete(states, n - 1, i);
    }
  }

  /** Eviction is an order-preserving filter: the survivors are exactly
      the entries at the kept indices, listed in scan order. */
  lemma {:induction false} SurvivorsAreKept<T>(ts: seq<T>, states: seq<State>, n: nat)
    requires n <= |ts| && n <= |states|
    ensures |Survivors(ts, states, n)| == |Kept(states, n)|
    ensures forall a :: 0 <= a < |Kept(states, n)| ==> Survivors(ts, states, n)[a] == ts[Kept(states, n)[a]]
    decreases n
  {
    if n > 0 {
      SurvivorsAreKept(ts, states, n - 1);
    }
  }

  /** No EXITED entry survives, and every other entry does. */
  lemma {:induction false} SurvivorsMembership<T>(ts: seq<T>, states: seq<State>, n: nat, x: T)
    requires n <= |ts| && n <= |states|
    ensures x in Survivors(ts, states, n) <==> exists i :: 0 <= i < n && ts[i] == x && states[i] != Exited
    decreases n
  {
    if n > 0 {
      SurvivorsMembership(ts, states, n - 1, x);
    }
  }

  /** The default candidate stays exactly when every RUNNABLE entry ends
      after it. */
  lemma NothingPicked(ends: seq<int>, states: seq<State>, dflt: int, n: nat)
    requires n <= |ends| && n <= |states|
    ensures PickIndex(ends, states, dflt, n) == -1
            <==> forall j :: 0 <= j < n && states[j] == Runnable ==> dflt < ends[j]
  {
    if PickIndex(ends, states, dflt, n) == -1 {
      forall j | 0 <= j < n && states[j] == Runnable
        ensures dflt < ends[j]
      {
        PickIsMinimal(ends, states, dflt, n, j);
      }
    }
  }

  /** The idle deadline `stamp + 1` loses to any RUNNABLE entry whose
      slice end is at most `stamp`. */
  lemma IdleDeadlineLoses(ends: seq<int>, states: seq<State>, stamp: int, j: nat)
    requires |ends| == |states| && j < |ends|
    requires states[j] == Runnable && ends[j] <= stamp
    ensures PickIndex(ends, states, stamp + 1, |ends|) >= 0
    ensures ends[PickIndex(ends, states, stamp + 1, |ends|)] <= stamp
  {
    PickIsMinimal(ends, states, stamp + 1, |ends|, j);
  }

  /** Ties go to the task scanned last: of two RUNNABLE tasks with the
      same slice end, the earlier one is never picked, and when that end
      is no later than the idle deadline some task is. */
  lemma TieGoesToLast(ends: seq<int>, states: seq<State>, dflt: int, n: nat, j: nat, k: nat)
    requires n <= |ends| && n <= |states| && j < k < n
    requires states[j] == Runnable && states[k] == Runnable && ends[j] == ends[k]
    ensures PickIndex(ends, states, dflt, n) != j
    ensures ends[k] <= dflt ==> PickIndex(ends, states, dflt, n) >= 0
  {
    PickIsMinimal(ends, states, dflt, n, k);
  }

  /** The heap during a pass, against snapshots taken before it: the
      exit flags `X` and slice ends `E` are unchanged, no task is locked,
      and a task's blocker is what evaluation left it (if the task has been
      evaluated) or the one it had (`B`). */
  ghost predicate Progress(S: seq<Task>, X: seq<bool>, B: seq<Option<Blocker>>, E: seq<int>,
                           seen: set<Task>, now: int, poll: Blocker -> int)
    reads S`exited, S`block, S`locked, S`sliceEnd
  {
    |X| == |S| && |B| == |S| && |E| == |S|
    && forall j {:trigger B[j]} :: 0 <= j < |S| ==>
         S[j].exited == X[j] && S[j].sliceEnd == E[j] && !S[j].locked
         && S[j].block == (if S[j] in seen then AfterEval(X[j], B[j], now, poll) else B[j])
  }

  /** Snapshots of the exit flags, blockers and slice ends of `S`. */
  ghost method Snapshot(S: seq<Task>, now: int, poll: Blocker -> int)
    returns (X: seq<bool>, B: seq<Option<Blocker>>, E: seq<int>)
    requires forall j :: 0 <= j < |S| ==> !S[j].locked
    ensures Progress(S, X, B, E, {}, now, poll)
  {
    X, B, E := [], [], [];
    var n := 0;
    while n < |S|
      invariant n <= |S| && |X| == n && |B| == n && |E| == n
      invariant forall j :: 0 <= j < n ==> S[j].exited == X[j] && S[j].block == B[j] && S[j].sliceEnd == E[j]
    {
      X, B, E := X + [S[n].exited], B + [S[n].block], E + [S[n].sliceEnd];
      n := n + 1;
    }
  }

  /** Evaluate the `k`-th listed task during a pass. A task listed twice
      reports the same state both times. */
  method EvalListed(t: Task, ghost S: seq<Task>, ghost X: seq<bool>, ghost B: seq<Option<Blocker>>,
                    ghost E: seq<int>, ghost seen: set<Task>, ghost k: nat, now: int, poll: Blocker -> int)
    returns (st: State)
    requires k < |S| && S[k] == t && Progress(S, X, B, E, seen, now, poll)
    modifies t`block, t`locked
    ensures Progress(S, X, B, E, seen + {t}, now, poll)
    ensures st == Evaluate(X[k], B[k], now, poll) && t.sliceEnd == E[k]
  {
    EvaluateIdempotent(X[k], B[k], now, poll);
    st := t.Eval(now, poll);
    forall j | 0 <= j < |S|
      ensures S[j].exited == X[j] && S[j].sliceEnd == E[j] && !S[j].locked
      ensures S[j].block == (if S[j] in seen + {t} then AfterEval(X[j], B[j], now, poll) else B[j])
    {
      assert old(S[j].block) == (if S[j] in seen then AfterEval(X[j], B[j], now, poll) else B[j]);
    }
  }

  /** The end the candidate must beat: the idle deadline while the
      default stands, else the candidate's slice end. */
  function Best(E: seq<int>, sts: seq<State>, dflt: int, k: nat): int
    requires k <= |E| && k <= |sts|
  {
    var p := PickIndex(E, sts, dflt, k);
    if p < 0 then dflt else E[p]
  }

  /** The values a pass has reached after scanning `k` of the listed
      tasks `S`: the list holds the survivors so far followed by the rest,
      `i` is the cursor, each scanned task's state is recorded in `sts`,
      and `next` is the candidate picked so far. */
  ghost predicate Scanned(S: seq<Task>, X: seq<bool>, B: seq<Option<Blocker>>, E: seq<int>,
                          now: int, poll: Blocker -> int, idle: Task,
                          sts: seq<State>, seen: set<Task>, k: nat, ts: seq<Task>, i: nat, next: Task)
  {
    k <= |S| && |sts| == k && |X| == |S| && |B| == |S| && |E| == |S|
    && ts == Survivors(S, sts, k) + S[k..] && i == |Survivors(S, sts, k)|
    && (forall j :: 0 <= j < k ==> sts[j] == Evaluate(X[j], B[j], now, poll))
    && (forall j :: 0 <= j < k ==> S[j] in seen)
    && next == (var p := PickIndex(E, sts, now + 1, k); if p < 0 then idle else S[p])
  }

  /** An iteration that evicts the scanned task. */
  lemma ScanEvict(S: seq<Task>, X: seq<bool>, B: seq<Option<Blocker>>, E: seq<int>,
                  now: int, poll: Blocker -> int, idle: Task,
                  sts: seq<State>, seen: set<Task>, k: nat, ts: seq<Task>, i: nat, next: Task)
    requires Scanned(S, X, B, E, now, poll, idle, sts, seen, k, ts, i, next) && k < |S|
    requires Evaluate(X[k], B[k], now, poll) == Exited
    ensures i < |ts|
    ensures Scanned(S, X, B, E, now, poll, idle, sts + [Exited], seen + {S[k]}, k + 1,
                    ts[..i] + ts[i + 1..], i, next)
    ensures Best(E, sts + [Exited], now + 1, k + 1) == Best(E, sts, now + 1, k)
  {
    EvictStep(S, sts, Exited, k, ts, i);
    PickExtend(E, sts, Exited, now + 1, k);
  }

  /** An iteration that keeps the scanned task, which becomes the
      candidate when `picked`. */
  lemma ScanKeep(S: seq<Task>, X: seq<bool>, B: seq<Option<Blocker>>, E: seq<int>,
                 now: int, poll: Blocker -> int, idle: Task,
                 sts: seq<State>, seen: set<Task>, k: nat, ts: seq<Task>, i: nat, next: Task,
                 st: State, picked: bool)
    requires Scanned(S, X, B, E, now, poll, idle, sts, seen, k, ts, i, next) && k < |S|
    requires st == Evaluate(X[k], B[k], now, poll) && st != Exited
    requires picked == (st == Runnable && E[k] <= Best(E, sts, now + 1, k))
    ensures Scanned(S, X, B, E, now, poll, idle, sts + [st], seen + {S[k]}, k + 1,
                    ts, i + 1, if picked then S[k] else next)
    ensures Best(E, sts + [st], now + 1, k + 1) == if picked then E[k] else Best(E, sts, now + 1, k)
  {
    EvictStep(S, sts, st, k, ts, i);
    PickExtend(E, sts, st, now + 1, k);
  }

  /** Where the pass ends: every task has been scanned and evaluated. */
  lemma ScanDone(S: seq<Task>, X: seq<bool>, B: seq<Option<Blocker>>, E: seq<int>,
                 now: int, poll: Blocker -> int, idle: Task,
                 sts: seq<State>, seen: set<Task>, k: nat, ts: seq<Task>, i: nat, next: Task)
    requires Scanned(S, X, B, E, now, poll, idle, sts, seen, k, ts, i, next) && k == |S|
    ensures ts == Survivors(S, sts, |S|)
    ensures forall j :: 0 <= j < |S| ==> S[j] in seen && sts[j] == Evaluate(X[j], B[j], now, poll)
    ensures next == (var p := PickIndex(E, sts, now + 1, |S|); if p < 0 then idle else S[p])
  {
    assert S[k..] == [];
  }

  /** Where the pass starts. */
  lemma ScanStart(S: seq<Task>, X: seq<bool>, B: seq<Option<Blocker>>, E: seq<int>,
                  now: int, poll: Blocker -> int, idle: Task)
    requires |X| == |S| && |B| == |S| && |E| == |S|
    ensures Scanned(S, X, B, E, now, poll, idle, [], {}, 0, S, 0, idle)
  {
  }

  /** The cursor is inside the list exactly while some tasks are unscanned,
      and then it rests on the next one. */
  lemma ScanCursor(S: seq<Task>, X: seq<bool>, B: seq<Option<Blocker>>, E: seq<int>,
                   now: int, poll: Blocker -> int, idle: Task,
                   sts: seq<State>, seen: set<Task>, k: nat, ts: seq<Task>, i: nat, next: Task)
    requires Scanned(S, X, B, E, now, poll, idle, sts, seen, k, ts, i, next)
    ensures (i < |ts|) == (k < |S|)
    ensures i < |ts| ==> ts[i] == S[k]
  {
    if k < |S| {
      EvictStep(S, sts, Exited, k, ts, i);
    } else {
      assert S[k..] == [];
    }
  }

  /** Everything a pass keeps true after scanning `k` of the listed
      tasks: the scan values, the heap against the snapshots, the
      candidate's slice end, and the cursor. */
  ghost predicate Pass(S: seq<Task>, X: seq<bool>, B: seq<Option<Blocker>>, E: seq<int>,
                       now: int, poll: Blocker -> int, idle: Task,
                       sts: seq<State>, seen: set<Task>, k: nat, ts: seq<Task>, i: nat, next: Task)
    reads S`exited, S`block, S`locked, S`sliceEnd, next`sliceEnd
  {
    Scanned(S, X, B, E, now, poll, idle, sts, seen, k, ts, i, next)
    && Progress(S, X, B, E, seen, now, poll)
    && next.sliceEnd == Best(E, sts, now + 1, k)
  }

  /** One iteration of the pass: evaluate the task under the cursor, evict
      it if it reported EXITED, else step past it and make it the
      candidate when it is RUNNABLE and its slice ends no later than the
      candidate's. */
  method Visit(ts: seq<Task>, i: nat, next: Task, now: int, poll: Blocker -> int,
               ghost S: seq<Task>, ghost X: seq<bool>, ghost B: seq<Option<Blocker>>, ghost E: seq<int>,
               ghost idle: Task, ghost sts: seq<State>, ghost seen: set<Task>, ghost k: nat)
    returns (ts': seq<Task>, i': nat, next': Task, ghost sts': seq<State>, ghost seen': set<Task>, ghost k': nat)
    requires Pass(S, X, B, E, now, poll, idle, sts, seen, k, ts, i, next) && i < |ts|
    modifies S`block, S`locked
    ensures Pass(S, X, B, E, now, poll, idle, sts', seen', k', ts', i', next')
    ensures k' == k + 1 && (i' < |ts'|) == (k' < |S|)
  {
    ScanCursor(S, X, B, E, now, poll, idle, sts, seen, k, ts, i, next);
    var t := ts[i];
    var st := EvalListed(t, S, X, B, E, seen, k, now, poll);
    if st == Exited {
      ScanEvict(S, X, B, E, now, poll, idle, sts, seen, k, ts, i, next);
      ts', i', next' := ts[..i] + ts[i + 1..], i, next;
    } else {
      ScanKeep(S, X, B, E, now, poll, idle, sts, seen, k, ts, i, next,
               st, st == Runnable && t.sliceEnd <= next.sliceEnd);
      ts', i', next' := ts, i + 1, next;
      if st == Runnable && t.sliceEnd <= next.sliceEnd {
        next' := t;
      }
    }
    sts', seen', k' := sts + [st], seen + {S[k]}, k + 1;
    ScanCursor(S, X, B, E, now, poll, idle, sts', seen', k', ts', i', next');
  }

  /** The loop of `schedule(span)` over the listed tasks `S`: evaluate
      every one at `now`, evict the EXITED ones in place, and return the
      surviving list and the candidate, `idle` when no RUNNABLE task beats
      the idle deadline. `X`, `B` and `E` are snapshots of the tasks' exit
      flags, blockers and slice ends. */
  method Sweep(S: seq<Task>, idle: Task, now: int, poll: Blocker -> int,
               ghost X: seq<bool>, ghost B: seq<Option<Blocker>>, ghost E: seq<int>)
    returns (ts: seq<Task>, next: Task, ghost states: seq<State>, ghost seen: set<Task>)
    requires Progress(S, X, B, E, {}, now, poll) && idle.sliceEnd == now + 1
    modifies S`block, S`locked
    ensures |states| == |S| && Progress(S, X, B, E, seen, now, poll)
    ensures forall j :: 0 <= j < |S| ==> S[j] in seen && states[j] == Evaluate(X[j], B[j], now, poll)
    ensures ts == Survivors(S, states, |S|)
    ensures next == (var p := PickIndex(E, states, now + 1, |S|); if p < 0 then idle else S[p])
  {
    next, ts := idle, S;
    states, seen := [], {};
    ghost var k: nat := 0;
    var i: nat := 0;
    ScanStart(S, X, B, E, now, poll, idle);
    ScanCursor(S, X, B, E, now, poll, idle, states, seen, k, ts, i, next);
    while i < |ts|
      invariant Pass(S, X, B, E, now, poll, idle, states, seen, k, ts, i, next)
      invariant (i < |ts|) == (k < |S|)
      decreases |S| - k
    {
      ts, i, next, states, seen, k := Visit(ts, i, next, now, poll, S, X, B, E, idle, states, seen, k);
    }
    ScanDone(S, X, B, E, now, poll, idle, states, seen, k, ts, i, next);
  }

  /** The first fault `Sched::init` meets: creating the space, then the
      boot stack, then the boot context. */
  function BootFault(env: Env): Option<Error>
  {
    if env.fault(BootSpace).Some? then env.fault(BootSpace)
    else if env.fault(BootStack).Some? then env.fault(BootStack)
    else env.fault(BootCtx)
  }

  class Sched {
    var tasks: seq<Task>
    var stamp: nat
    var prev: Task
    var curr: Task
    var idle: Task

    /** `Sched(boot)`: the boot task is the only task and is at once the
        previous, the current and the idle task. */
    constructor(boot: Task)
      ensures tasks == [boot] && stamp == 0
      ensures prev == boot && curr == boot && idle == boot
    {
      tasks := [boot];
      stamp := 0;
      prev := boot;
      curr := boot;
      idle := boot;
    }

    /** `Sched::init`: create the boot task in SUPER mode with a fresh
        space, ready it at ip 0, sp 0 with no arguments, and build the
        scheduler around it. Each step's failure is passed on. */
    static method Init(env: Env) returns (r: Result<Sched>)
      ensures r.Err? ==> BootFault(env).Some? && r.error == BootFault(env).value
      ensures r.Ok? <==> env.fault(BootSpace).None? && env.fault(BootStack).None? && env.fault(BootCtx).None?
      ensures r.Ok? ==> fresh(r.value) && fresh(r.value.curr)
      ensures r.Ok? ==> r.value.tasks == [r.value.curr] && r.value.stamp == 0
      ensures r.Ok? ==> r.value.prev == r.value.curr && r.value.idle == r.value.curr
      ensures r.Ok? ==> r.value.curr.mode == Super && r.value.curr.space.Some?
      ensures r.Ok? ==> r.value.curr.ctx == Some(Ctx(Super, 0, 0, env.phys(BootStack), []))
      ensures r.Ok? ==> !r.value.curr.locked && !r.value.curr.exited && r.value.curr.block.None?
    {
      var space :- Space.Create(env.fault(BootSpace));
      var boot :- Task.Create(Super, Some(space), None, env.fault(BootStack), env.phys(BootStack));
      var _ :- boot.Ready(0, 0, [], env.fault(BootCtx));
      var s := new Sched(boot);
      return Ok(s);
    }

    /** `enqueue(task)`: append the task; it always succeeds. */
    method Enqueue(t: Task) returns (r: Result<()>)
      modifies this`tasks
      ensures tasks == old(tasks) + [t] && r == Ok(())
    {
      tasks := tasks + [t];
      return Ok(());
    }

    /** The start of `schedule(span)`: advance the time base, remember the
        outgoing task, end its slice now and the idle task's one tick
        later. */
    method Advance(span: nat)
      modifies this`stamp, this`prev, curr`sliceEnd, idle`sliceEnd
      ensures stamp == old(stamp) + span && prev == curr
      ensures idle.sliceEnd == stamp + 1
      ensures curr != idle ==> curr.sliceEnd == stamp
    {
      stamp := stamp + span;
      prev := curr;
      curr.sliceEnd := stamp;
      idle.sliceEnd := stamp + 1;
    }

    /** `schedule(span)`: one scheduling pass. The time base advances by
        `span`; the outgoing task's slice ends now and the idle task's one
        tick later; every listed task is evaluated; the EXITED ones are
        evicted in place; the RUNNABLE task with the smallest slice end
        (the last such on a tie) becomes current, the idle task when none
        ends by `stamp + 1`. `states` is what each listed task reported
        and `ends` the slice ends the selection compared. */
    method Schedule(span: nat, poll: Blocker -> int) returns (ghost states: seq<State>, ghost ends: seq<int>)
      requires forall j :: 0 <= j < |tasks| ==> !tasks[j].locked
      modifies this, tasks`block, tasks`locked, curr`sliceEnd, idle`sliceEnd
      ensures stamp == old(stamp) + span
      ensures prev == old(curr) && idle == old(idle)
      ensures idle.sliceEnd == stamp + 1
      ensures old(curr) != idle ==> old(curr).sliceEnd == stamp
      ensures |states| == |old(tasks)|
      ensures forall j :: 0 <= j < |states| ==>
                states[j] == Evaluate(old(tasks[j].exited), old(tasks[j].block), stamp, poll)
      ensures tasks == Survivors(old(tasks), states, |states|)
      ensures |ends| == |old(tasks)|
      ensures var p := PickIndex(ends, states, stamp + 1, |states|);
              curr == if p < 0 then idle else old(tasks)[p]
      ensures forall j :: 0 <= j < |old(tasks)| ==>
                old(tasks)[j].block == AfterEval(old(tasks[j].exited), old(tasks[j].block), stamp, poll)
                && !old(tasks)[j].locked && old(tasks)[j].sliceEnd == ends[j]
    {
      Advance(span);
      ghost var S := tasks;
      ghost var X, B, E := Snapshot(S, stamp, poll);
      forall j | 0 <= j < |S|
        ensures X[j] == old(S[j].exited) && B[j] == old(S[j].block)
      {
        assert B[j] == S[j].block;
      }
      ghost var seen;
      var ts, next;
      ts, next, states, seen := Sweep(tasks, idle, stamp, poll, X, B, E);
      tasks, curr := ts, next;
      forall j | 0 <= j < |S|
        ensures S[j].block == AfterEval(X[j], B[j], stamp, poll) && !S[j].locked && S[j].sliceEnd == E[j]
      {
      }
      ends := E;
    }
  }
}
