/**
  Every interleaving of generated entry points, each in a thread of its own. `mbus_app_lock` is a
  mutex; between any two steps of one thread the others may take any number of theirs.
 */
module CodegenRuns {
  import opened AddressSpace
  import opened CodegenConfig
  import opened CodegenProgram

  datatype HookStatus = HookOk | IllegalDataAddress | IllegalDataValue | DeviceFailure

  /** What the scheduler sees of an invocation: hooks to pass, then work under the lock. */
  datatype Shape = Shape(calls: seq<Call>, work: nat)

  datatype Action = Asked(call: Call, answer: HookStatus) | Acquired | Worked | Released

  /** What happened so far, newest step outermost. */
  datatype Run = Idle | Step(earlier: Run, tid: nat, action: Action)

  /** A C hook may answer from everything that happened so far in any thread; it does not touch the model. */
  type CHook = (Run, nat, Call) -> HookStatus

  function Answer(hook: CHook, run: Run, tid: nat, call: Call): HookStatus
  {
    match call
    case Missing => IllegalDataAddress
    case Silent => HookOk
    case Invoke(_, _, _) => hook(run, tid, call)
  }

  /** Where an invocation stands: `k` calls accepted, refused, `m` cells done under the lock, or finished. */
  datatype Phase = Asking(k: nat) | Refused(status: HookStatus) | Inside(m: nat) | Done

  function PhaseOf(run: Run, tid: nat): Phase
  {
    match run
    case Idle => Asking(0)
    case Step(earlier, t, action) =>
      var phase := PhaseOf(earlier, tid);
      if t != tid then phase
      else
        match action
        case Asked(_, answer) =>
          if answer != HookOk then Refused(answer) else if phase.Asking? then Asking(phase.k + 1) else phase
        case Acquired => Inside(0)
        case Worked => if phase.Inside? then Inside(phase.m + 1) else phase
        case Released => Done
  }

  function Holder(run: Run): Option<nat>
  {
    match run
    case Idle => None
    case Step(earlier, t, action) =>
      match action
      case Acquired => Some(t)
      case Released => None
      case _ => Holder(earlier)
  }

  /** Whether a thread can take the step at this point of the run. */
  ghost predicate Enabled(shapes: seq<Shape>, hook: CHook, run: Run, tid: nat, action: Action)
  {
    && tid < |shapes|
    && var phase := PhaseOf(run, tid);
    match action
    case Asked(call, answer) =>
      && phase.Asking? && phase.k < |shapes[tid].calls|
      && call == shapes[tid].calls[phase.k] && answer == Answer(hook, run, tid, call)
    case Acquired => phase == Asking(|shapes[tid].calls|) && Holder(run).None?
    case Worked => phase.Inside? && phase.m < shapes[tid].work
    case Released => phase == Inside(shapes[tid].work)
  }

  ghost predicate IsRun(shapes: seq<Shape>, hook: CHook, run: Run)
  {
    run.Step? ==> IsRun(shapes, hook, run.earlier) && Enabled(shapes, hook, run.earlier, run.tid, run.action)
  }

  /** Mutual exclusion, and how far an invocation can be. */
  ghost predicate InStep(shapes: seq<Shape>, run: Run, t: nat)
  {
    && (PhaseOf(run, t).Inside? <==> Holder(run) == Some(t))
    && (PhaseOf(run, t) != Asking(0) ==> t < |shapes|)
    && match PhaseOf(run, t)
       case Asking(k) => k == 0 || k <= |shapes[t].calls|
       case Inside(m) => m <= shapes[t].work
       case _ => true
  }

  lemma {:induction false} Exclusive(shapes: seq<Shape>, hook: CHook, run: Run, t: nat)
    requires IsRun(shapes, hook, run)
    ensures InStep(shapes, run, t)
  {
    if run.Step? {
      Exclusive(shapes, hook, run.earlier, t);
      Exclusive(shapes, hook, run.earlier, run.tid);
    }
  }

  /** The order in which invocations got the lock, latest outermost. */
  datatype Order = First | After(earlier: Order, tid: nat)

  function OrderOf(run: Run): Order
  {
    match run
    case Idle => First
    case Step(earlier, t, action) => if action.Acquired? then After(OrderOf(earlier), t) else OrderOf(earlier)
  }

  /** The order as it was when `t` got the lock. */
  function OrderBefore(run: Run, t: nat): Order
  {
    match run
    case Idle => First
    case Step(earlier, tid, action) => if tid == t && action.Acquired? then OrderOf(earlier) else OrderBefore(earlier, t)
  }

  /** The operations of every invocation on one data domain fit the work the scheduler sees. */
  ghost predicate Views<V>(ops: seq<seq<Op<V>>>, shapes: seq<Shape>)
  {
    |ops| == |shapes| && forall t :: 0 <= t < |ops| ==> |ops[t]| == shapes[t].work
  }

  /** The operation a work step performs. */
  ghost function OpAt<V>(ops: seq<seq<Op<V>>>, t: nat, phase: Phase): Op<V>
  {
    if t < |ops| && phase.Inside? && phase.m < |ops[t]| then ops[t][phase.m] else Elsewhere
  }

  /** The cells of the domain after a run. */
  ghost function Cells<V>(ops: seq<seq<Op<V>>>, run: Run, cells: map<int, V>): (r: map<int, V>)
    ensures r.Keys == cells.Keys
  {
    match run
    case Idle => cells
    case Step(earlier, t, action) =>
      var now := Cells(ops, earlier, cells);
      if action.Worked? then Apply(OpAt(ops, t, PhaseOf(earlier, t)), now) else now
  }

  /** What invocation `t` has read from the domain so far. */
  ghost function Loaded<V>(ops: seq<seq<Op<V>>>, run: Run, t: nat, cells: map<int, V>): seq<V>
  {
    match run
    case Idle => []
    case Step(earlier, tid, action) =>
      var before := Loaded(ops, earlier, t, cells);
      var now := Cells(ops, earlier, cells);
      var op := OpAt(ops, t, PhaseOf(earlier, t));
      if tid == t && action.Worked? && op.Load? && op.address in now then before + [now[op.address]] else before
  }

  /** The cells after the critical sections of `order` ran whole, one after the other. */
  ghost function Serial<V>(ops: seq<seq<Op<V>>>, order: Order, cells: map<int, V>): (r: map<int, V>)
    ensures r.Keys == cells.Keys
  {
    match order
    case First => cells
    case After(earlier, t) =>
      var before := Serial(ops, earlier, cells);
      if t < |ops| then RunOps(ops[t], |ops[t]|, before) else before
  }

  /**
    With the lock free the cells are those of the serial execution in lock order; otherwise the
    holder is the latest in that order and the cells show the part of its work that it has done.
   */
  ghost predicate Serialized<V>(ops: seq<seq<Op<V>>>, run: Run, cells: map<int, V>)
  {
    match Holder(run)
    case None => Cells(ops, run, cells) == Serial(ops, OrderOf(run), cells)
    case Some(h) =>
      && OrderOf(run).After? && OrderOf(run).tid == h && h < |ops|
      && PhaseOf(run, h).Inside? && PhaseOf(run, h).m <= |ops[h]|
      && Cells(ops, run, cells) == RunOps(ops[h], PhaseOf(run, h).m, Serial(ops, OrderOf(run).earlier, cells))
  }

  /** Serializability: every interleaving has the effect of whole critical sections in lock order. */
  lemma {:induction false} Serializable<V>(ops: seq<seq<Op<V>>>, shapes: seq<Shape>, hook: CHook, run: Run,
                                           cells: map<int, V>)
    requires IsRun(shapes, hook, run) && Views(ops, shapes)
    ensures Serialized(ops, run, cells)
  {
    if run.Step? {
      Serializable(ops, shapes, hook, run.earlier, cells);
      Exclusive(shapes, hook, run.earlier, run.tid);
      if Holder(run.earlier).Some? { Exclusive(shapes, hook, run.earlier, Holder(run.earlier).value); }
    }
  }

  /** What an invocation has read is what it reads from the serial state at its place in lock order. */
  ghost predicate Snapshot<V>(ops: seq<seq<Op<V>>>, run: Run, t: nat, cells: map<int, V>)
  {
    match PhaseOf(run, t)
    case Inside(m) =>
      && t < |ops| && m <= |ops[t]| && OrderOf(run) == After(OrderBefore(run, t), t)
      && Loaded(ops, run, t, cells) == Seen(ops[t], m, Serial(ops, OrderBefore(run, t), cells))
    case Done =>
      t < |ops| && Loaded(ops, run, t, cells) == Seen(ops[t], |ops[t]|, Serial(ops, OrderBefore(run, t), cells))
    case _ => Loaded(ops, run, t, cells) == []
  }

  /** Every invocation reads from one serial state, whatever the others do meanwhile. */
  lemma {:induction false} ReadsSnapshot<V>(ops: seq<seq<Op<V>>>, shapes: seq<Shape>, hook: CHook, run: Run, t: nat,
                                            cells: map<int, V>)
    requires IsRun(shapes, hook, run) && Views(ops, shapes)
    ensures Snapshot(ops, run, t, cells)
  {
    if run.Step? {
      ReadsSnapshot(ops, shapes, hook, run.earlier, t, cells);
      Exclusive(shapes, hook, run.earlier, t);
      Exclusive(shapes, hook, run.earlier, run.tid);
      Serializable(ops, shapes, hook, run.earlier, cells);
    }
  }

  /** An invocation's hooks from call `k` on, with no other thread in between. */
  function Gate(hook: CHook, run: Run, tid: nat, calls: seq<Call>, k: nat): (Run, HookStatus)
    requires k <= |calls|
    decreases |calls| - k
  {
    if k == |calls| then (run, HookOk)
    else
      var answer := Answer(hook, run, tid, calls[k]);
      var told := Step(run, tid, Asked(calls[k], answer));
      if answer != HookOk then (told, answer) else Gate(hook, told, tid, calls, k + 1)
  }

  function Work(run: Run, tid: nat, n: nat): Run
  {
    if n == 0 then run else Step(Work(run, tid, n - 1), tid, Worked)
  }

  /** A critical section with no other thread in between. */
  function Critical(run: Run, tid: nat, n: nat): Run
  {
    Step(Work(Step(run, tid, Acquired), tid, n), tid, Released)
  }

  /** A whole invocation with no other thread in between: the hooks, then the work between lock and unlock. */
  function Alone(hook: CHook, run: Run, tid: nat, shape: Shape): (Run, HookStatus)
  {
    var (asked, status) := Gate(hook, run, tid, shape.calls, 0);
    if status != HookOk then (asked, status)
    else (Critical(asked, tid, shape.work), HookOk)
  }

  lemma {:induction false} GateIsRun(shapes: seq<Shape>, hook: CHook, run: Run, tid: nat, k: nat)
    requires IsRun(shapes, hook, run) && Holder(run).None? && tid < |shapes| && k <= |shapes[tid].calls|
    requires PhaseOf(run, tid) == Asking(k)
    ensures var (asked, status) := Gate(hook, run, tid, shapes[tid].calls, k);
            && IsRun(shapes, hook, asked) && Holder(asked).None?
            && PhaseOf(asked, tid) == if status == HookOk then Asking(|shapes[tid].calls|) else Refused(status)
    decreases |shapes[tid].calls| - k
  {
    if k < |shapes[tid].calls| {
      var answer := Answer(hook, run, tid, shapes[tid].calls[k]);
      var told := Step(run, tid, Asked(shapes[tid].calls[k], answer));
      assert IsRun(shapes, hook, told);
      if answer == HookOk { GateIsRun(shapes, hook, told, tid, k + 1); }
    }
  }

  lemma {:induction false} WorkIsRun(shapes: seq<Shape>, hook: CHook, run: Run, tid: nat, n: nat)
    requires IsRun(shapes, hook, run) && tid < |shapes| && PhaseOf(run, tid) == Inside(0) && n <= shapes[tid].work
    ensures IsRun(shapes, hook, Work(run, tid, n)) && PhaseOf(Work(run, tid, n), tid) == Inside(n)
  {
    if n > 0 { WorkIsRun(shapes, hook, run, tid, n - 1); }
  }

  /** A sequential execution of an entry point is one of the interleavings, and leaves the lock free. */
  lemma AloneIsRun(shapes: seq<Shape>, hook: CHook, run: Run, tid: nat)
    requires IsRun(shapes, hook, run) && Holder(run).None? && tid < |shapes| && PhaseOf(run, tid) == Asking(0)
    ensures var (told, status) := Alone(hook, run, tid, shapes[tid]);
            && IsRun(shapes, hook, told) && Holder(told).None?
            && PhaseOf(told, tid) == if status == HookOk then Done else Refused(status)
  {
    GateIsRun(shapes, hook, run, tid, 0);
    var (asked, status) := Gate(hook, run, tid, shapes[tid].calls, 0);
    if status == HookOk {
      var inside := Step(asked, tid, Acquired);
      assert IsRun(shapes, hook, inside);
      WorkIsRun(shapes, hook, inside, tid, shapes[tid].work);
    }
  }
}
