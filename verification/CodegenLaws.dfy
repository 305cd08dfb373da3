/**
  What the generated server app promises over every interleaving: hook protocol, atomic writes,
  snapshots and access rights.
 */
module CodegenLaws {
  import opened AddressSpace
  import opened WriteRoute
  import opened Maps
  import opened CodegenConfig
  import opened CodegenProgram
  import opened CodegenRuns

  /** The answers the hooks of invocation `t` have given, in order. */
  function AnswersTo(run: Run, t: nat): seq<HookStatus>
  {
    match run
    case Idle => []
    case Step(earlier, tid, action) =>
      if tid == t && action.Asked? then AnswersTo(earlier, t) + [action.answer] else AnswersTo(earlier, t)
  }

  /** The calls invocation `t` has made, in order. */
  function CallsBy(run: Run, t: nat): seq<Call>
  {
    match run
    case Idle => []
    case Step(earlier, tid, action) =>
      if tid == t && action.Asked? then CallsBy(earlier, t) + [action.call] else CallsBy(earlier, t)
  }

  ghost predicate AllOk(answers: seq<HookStatus>)
  {
    forall i :: 0 <= i < |answers| ==> answers[i] == HookOk
  }

  ghost predicate NoneMissing(calls: seq<Call>, n: nat)
  {
    forall i :: 0 <= i < n && i < |calls| ==> !calls[i].Missing?
  }

  /** The hooks were asked in order and once each, up to the first refusal; nothing follows a refusal. */
  ghost predicate Asks(shapes: seq<Shape>, run: Run, t: nat)
  {
    var answers := AnswersTo(run, t);
    var calls := if t < |shapes| then shapes[t].calls else [];
    && CallsBy(run, t) == calls[..Min(|answers|, |calls|)]
    && match PhaseOf(run, t)
    case Asking(k) => |answers| == k && AllOk(answers) && NoneMissing(calls, k)
    case Refused(status) =>
      && 0 < |answers| <= |calls| && status != HookOk
      && answers[|answers| - 1] == status && AllOk(answers[..|answers| - 1])
    case Inside(_) => |answers| == |calls| && AllOk(answers) && Servable(calls)
    case Done => |answers| == |calls| && AllOk(answers) && Servable(calls)
  }

  lemma {:induction false} HookProtocol(shapes: seq<Shape>, hook: CHook, run: Run, t: nat)
    requires IsRun(shapes, hook, run)
    ensures Asks(shapes, run, t)
  {
    if run.Step? {
      HookProtocol(shapes, hook, run.earlier, t);
      Exclusive(shapes, hook, run.earlier, t);
      if run.tid == t && run.action.Asked? {
        var k := PhaseOf(run.earlier, t).k;
        assert shapes[t].calls[..k] + [shapes[t].calls[k]] == shapes[t].calls[..k + 1];
        assert AnswersTo(run, t)[..|AnswersTo(run, t)| - 1] == AnswersTo(run.earlier, t);
      }
    }
  }

  /**
    What an asked step answers: the hook's own answer, success where no hook is set, an address
    error where no entry is writable.
   */
  lemma HookDecides(shapes: seq<Shape>, hook: CHook, run: Run)
    requires IsRun(shapes, hook, run) && run.Step? && run.action.Asked?
    ensures run.action.call.Invoke? ==> run.action.answer == hook(run.earlier, run.tid, run.action.call)
    ensures run.action.call.Silent? ==> run.action.answer == HookOk
    ensures run.action.call.Missing? ==> run.action.answer == IllegalDataAddress
  {
    assert Enabled(shapes, hook, run.earlier, run.tid, run.action);
  }

  /** A hook never runs while its own thread holds the lock. */
  lemma HooksOutsideOwnLock(shapes: seq<Shape>, hook: CHook, run: Run)
    requires IsRun(shapes, hook, run) && run.Step? && run.action.Asked?
    ensures Holder(run.earlier) != Some(run.tid)
  {
    Exclusive(shapes, hook, run.earlier, run.tid);
  }

  lemma {:induction false} GateOfOthers(hook: CHook, run: Run, tid: nat, calls: seq<Call>, k: nat, t: nat)
    requires k <= |calls| && t != tid
    ensures PhaseOf(Gate(hook, run, tid, calls, k).0, t) == PhaseOf(run, t)
    decreases |calls| - k
  {
    if k < |calls| {
      var answer := Answer(hook, run, tid, calls[k]);
      var told := Step(run, tid, Action.Asked(calls[k], answer));
      assert PhaseOf(told, t) == PhaseOf(run, t);
      if answer == HookOk { GateOfOthers(hook, told, tid, calls, k + 1, t); }
    }
  }

  /** A servable request gets past hooks that accept everything. */
  lemma {:induction false} GateAccepts(hook: CHook, run: Run, tid: nat, calls: seq<Call>, k: nat)
    requires k <= |calls| && Servable(calls) && forall r, t, c :: hook(r, t, c) == HookOk
    ensures Gate(hook, run, tid, calls, k).1 == HookOk
    decreases |calls| - k
  {
    if k < |calls| {
      var told := Step(run, tid, Action.Asked(calls[k], Answer(hook, run, tid, calls[k])));
      GateAccepts(hook, told, tid, calls, k + 1);
    }
  }

  /** The calls of invocation `tid` before call `n`, with no other thread in between. */
  function AskTo(hook: CHook, run: Run, tid: nat, calls: seq<Call>, n: nat): Run
    requires n <= |calls|
  {
    if n == 0 then run
    else
      var earlier := AskTo(hook, run, tid, calls, n - 1);
      Step(earlier, tid, Action.Asked(calls[n - 1], Answer(hook, earlier, tid, calls[n - 1])))
  }

  /**
    With accepting hooks an invocation can make its calls up to the first one without an entry,
    whoever holds the lock.
   */
  lemma {:induction false} AskToIsRun(shapes: seq<Shape>, hook: CHook, run: Run, t: nat, n: nat)
    requires IsRun(shapes, hook, run) && t < |shapes| && PhaseOf(run, t) == Asking(0)
    requires n <= |shapes[t].calls| && NoneMissing(shapes[t].calls, n) && forall r, tid, c :: hook(r, tid, c) == HookOk
    ensures var asked := AskTo(hook, run, t, shapes[t].calls, n);
            IsRun(shapes, hook, asked) && PhaseOf(asked, t) == Asking(n) && Holder(asked) == Holder(run)
  {
    if n > 0 { AskToIsRun(shapes, hook, run, t, n - 1); }
  }

  /** A C hook runs, as the last step, while some thread holds the lock. */
  ghost predicate HookUnderLock(run: Run)
  {
    run.Step? && run.action.Asked? && run.action.call.Invoke? && Holder(run.earlier).Some?
  }

  /**
    Call `k` of one invocation is a hook that can be reached, and in another thread only hooks
    could stop an invocation.
   */
  ghost predicate MayCollide(shapes: seq<Shape>, t: nat, u: nat, k: nat)
  {
    && t < |shapes| && u < |shapes| && t != u
    && k < |shapes[t].calls| && shapes[t].calls[k].Invoke? && NoneMissing(shapes[t].calls, k)
    && Servable(shapes[u].calls)
  }

  /** Such a pair does collide: `u` passes its hooks and takes the lock, and then `t` gets to its hook. */
  lemma Collision(shapes: seq<Shape>, hook: CHook, t: nat, u: nat, k: nat) returns (run: Run)
    requires MayCollide(shapes, t, u, k) && forall r, tid, c :: hook(r, tid, c) == HookOk
    ensures IsRun(shapes, hook, run) && HookUnderLock(run)
  {
    GateIsRun(shapes, hook, Idle, u, 0);
    GateAccepts(hook, Idle, u, shapes[u].calls, 0);
    GateOfOthers(hook, Idle, u, shapes[u].calls, 0, t);
    var held := Step(Gate(hook, Idle, u, shapes[u].calls, 0).0, u, Acquired);
    assert IsRun(shapes, hook, held) && PhaseOf(held, t) == Asking(0);
    AskToIsRun(shapes, hook, held, t, k);
    var asked := AskTo(hook, held, t, shapes[t].calls, k);
    run := Step(asked, t, Action.Asked(shapes[t].calls[k], Answer(hook, asked, t, shapes[t].calls[k])));
  }

  lemma CollisionNeeds(shapes: seq<Shape>, hook: CHook, run: Run)
    requires IsRun(shapes, hook, run) && HookUnderLock(run)
    ensures exists t, u, k :: MayCollide(shapes, t, u, k)
  {
    var t, u := run.tid, Holder(run.earlier).value;
    HooksOutsideOwnLock(shapes, hook, run);
    Exclusive(shapes, hook, run.earlier, u);
    HookProtocol(shapes, hook, run.earlier, u);
    HookProtocol(shapes, hook, run.earlier, t);
    assert MayCollide(shapes, t, u, PhaseOf(run.earlier, t).k);
  }

  /** With these hooks no schedule has a hook run while the lock is held. */
  ghost predicate NeverUnderLock(shapes: seq<Shape>, hook: CHook)
  {
    forall run :: IsRun(shapes, hook, run) ==> !HookUnderLock(run)
  }

  /**
    Another thread may hold the lock meanwhile. That no C hook ever runs while the lock is held, by
    whatever hooks and schedule, is true of exactly those sets of invocations in which none that
    can get to a hook meets a second one whose addresses can all be served.
   */
  lemma HooksOutsideEveryLock(shapes: seq<Shape>)
    ensures (forall hook: CHook :: NeverUnderLock(shapes, hook)) <==>
            !exists t, u, k :: MayCollide(shapes, t, u, k)
  {
    if t, u, k :| MayCollide(shapes, t, u, k) {
      var accept: CHook := (_, _, _) => HookOk;
      var run := Collision(shapes, accept, t, u, k);
      assert !NeverUnderLock(shapes, accept);
    } else {
      forall hook: CHook
        ensures NeverUnderLock(shapes, hook)
      {
        forall run | IsRun(shapes, hook, run) && HookUnderLock(run)
          ensures false
        {
          CollisionNeeds(shapes, hook, run);
        }
      }
    }
  }

  /** Two single writes to a coil without a hook never collide; give the first one a hook, and they do. */
  lemma SilentWritersDoNotCollide(address: u16, symbol: string)
    ensures var silent := Shape([Silent], 1);
            var hooked := Shape([Invoke(symbol, address, 1)], 1);
            && (forall hook: CHook :: NeverUnderLock([silent, silent], hook))
            && !(forall hook: CHook :: NeverUnderLock([hooked, silent], hook))
  {
    var silent := Shape([Silent], 1);
    var hooked := Shape([Invoke(symbol, address, 1)], 1);
    HooksOutsideEveryLock([silent, silent]);
    HooksOutsideEveryLock([hooked, silent]);
    assert MayCollide([hooked, silent], 0, 1, 0);
  }

  ghost predicate InOrder(order: Order, t: nat)
  {
    order.After? && (order.tid == t || InOrder(order.earlier, t))
  }

  /** The invocations that take effect are those that got the lock; a refused one never does. */
  lemma {:induction false} EffectiveIffPassed(shapes: seq<Shape>, hook: CHook, run: Run, t: nat)
    requires IsRun(shapes, hook, run)
    ensures InOrder(OrderOf(run), t) <==> PhaseOf(run, t).Inside? || PhaseOf(run, t).Done?
  {
    if run.Step? {
      EffectiveIffPassed(shapes, hook, run.earlier, t);
    }
  }

  /** The invocations work on section `s` by `requests`, or on another data domain where that is `None`. */
  ghost predicate Serves<V>(s: Section, range: Range, requests: seq<Option<Request<V>>>, ops: seq<seq<Op<V>>>,
                            shapes: seq<Shape>)
  {
    && |requests| == |shapes| && Views(ops, shapes)
    && forall t :: 0 <= t < |requests| ==> ServesOne(s, range, requests[t], ops[t], shapes[t].calls)
  }

  ghost predicate ServesOne<V>(s: Section, range: Range, request: Option<Request<V>>, ops: seq<Op<V>>, calls: seq<Call>)
  {
    match request
    case None => forall k :: 0 <= k < |ops| ==> ops[k].Elsewhere?
    case Some(r) => r.Fits(s) && Program(calls, ops) == ProgramOf(s, range, r)
  }

  /** A request by which the application itself sets the cell. */
  ghost predicate SetsByName<V>(s: Section, request: Option<Request<V>>, a: int)
  {
    request.Some? && request.value.SetNamed? && request.value.index < |s.entries| && s.entries[request.value.index].address == a
  }

  lemma StoreAllowed<V>(s: Section, range: Range, request: Option<Request<V>>, ops: seq<Op<V>>, calls: seq<Call>,
                        k: nat)
    requires ServesOne(s, range, request, ops, calls) && Servable(calls) && k < |ops| && ops[k].Store?
    ensures MayWrite(s, ops[k].address) || SetsByName(s, request, ops[k].address)
  {
    if request.Some? && !request.value.SetNamed? {
      OnlyWritable(s, range, request.value, k);
    }
  }

  /**
    The access invariant: over every run, a cell that no writable entry declares keeps its value
    unless its own named setter is called. It covers wrapping windows and short payloads.
   */
  lemma {:induction false} OnlyWritableChange<V>(s: Section, range: Range, requests: seq<Option<Request<V>>>,
                                                 ops: seq<seq<Op<V>>>,
                                                 shapes: seq<Shape>, hook: CHook, run: Run, cells: map<int, V>, a: int)
    requires Serves(s, range, requests, ops, shapes) && IsRun(shapes, hook, run) && a in cells && !MayWrite(s, a)
    requires forall t :: 0 <= t < |requests| ==> !SetsByName(s, requests[t], a)
    ensures Cells(ops, run, cells)[a] == cells[a]
  {
    if run.Step? {
      OnlyWritableChange(s, range, requests, ops, shapes, hook, run.earlier, cells, a);
      var t, phase := run.tid, PhaseOf(run.earlier, run.tid);
      HookProtocol(shapes, hook, run.earlier, t);
      if run.action.Worked? && ops[t][phase.m].Store? {
        StoreAllowed(s, range, requests[t], ops[t], shapes[t].calls, phase.m);
      }
    }
  }

  /** `ro` in a validated config is such a cell. */
  lemma ReadOnlyKept<V>(s: Section, range: Range, requests: seq<Option<Request<V>>>, ops: seq<seq<Op<V>>>,
                        shapes: seq<Shape>, hook: CHook, run: Run, cells: map<int, V>, a: int)
    requires Serves(s, range, requests, ops, shapes) && IsRun(shapes, hook, run) && cells.Keys == Keys(s)
    requires Distinct(s.entries) && ReadOnlyAt(s, a)
    requires forall t :: 0 <= t < |requests| ==> !SetsByName(s, requests[t], a)
    ensures a in cells && Cells(ops, run, cells)[a] == cells[a]
  {
    ReadOnlyIsNotWritable(s, a);
    var i :| 0 <= i < |s.entries| && s.entries[i].address == a && s.entries[i].access.Ro?;
    assert s.entries[i] in s.entries;
    OnlyWritableChange(s, range, requests, ops, shapes, hook, run, cells, a);
  }

  /** A multi-cell write with a payload for its whole window, which does not wrap. */
  ghost predicate WholeWrite<V>(s: Section, request: Request<V>)
  {
    && request.Fits(s) && (request.WritePacked? || request.WriteList?)
    && request.window.start < request.window.end <= 0x1_0000 && request.window.limit == request.window.end
  }

  /**
    FC0F and FC10 are all-or-nothing over every run: an invocation that got past its hooks puts
    the whole window into the serial order as one step; one that did not is not in that order.
   */
  lemma AllOrNothing<V>(s: Section, range: Range, requests: seq<Option<Request<V>>>, ops: seq<seq<Op<V>>>,
                        shapes: seq<Shape>,
                        hook: CHook, run: Run, t: nat, before: map<int, V>)
    requires Serves(s, range, requests, ops, shapes) && IsRun(shapes, hook, run) && Spans(range, s)
    requires t < |requests| && requests[t].Some? && WholeWrite(s, requests[t].value)
    ensures InOrder(OrderOf(run), t) <==> AllOk(AnswersTo(run, t)) && !PhaseOf(run, t).Asking?
    ensures InOrder(OrderOf(run), t) ==>
              var w := requests[t].value.window;
              RunOps(ops[t], |ops[t]|, before) == Put(before, w, w.start, w.end)
  {
    HookProtocol(shapes, hook, run, t);
    EffectiveIffPassed(shapes, hook, run, t);
    if InOrder(OrderOf(run), t) {
      var request := requests[t].value;
      if request.WritePacked? {
        PackedStored(s, range, request.window, request.raws, before);
      } else {
        ListStored(s, range, request.window, request.raws, before);
      }
    }
  }

  /** A finished read that `encode` accepts returns the window as it was at one point of the serial order. */
  lemma ReadReturnsSnapshot<V>(s: Section, range: Range, requests: seq<Option<Request<V>>>, ops: seq<seq<Op<V>>>,
                               shapes: seq<Shape>,
                               hook: CHook, run: Run, t: nat, cells: map<int, V>)
    requires Serves(s, range, requests, ops, shapes) && IsRun(shapes, hook, run) && cells.Keys == Keys(s)
    requires t < |requests| && requests[t].Some? && requests[t].value.ReadMany? && PhaseOf(run, t).Done?
    ensures var r := requests[t].value;
            EncodeVerdict(range, Keys(s), r.address, r.end, r.bytes, r.room, r.none).Ok? ==>
              && AllMapped(Serial(ops, OrderBefore(run, t), cells), r.address, r.end)
              && Loaded(ops, run, t, cells) == Read(Serial(ops, OrderBefore(run, t), cells), r.address, r.end)
  {
    ReadsSnapshot(ops, shapes, hook, run, t, cells);
    ReadSees(s, range, requests[t].value, Serial(ops, OrderBefore(run, t), cells));
  }

  /** The step an invocation takes next, unless it has ended. */
  ghost function NextStep(shapes: seq<Shape>, hook: CHook, run: Run, t: nat): Action
    requires t < |shapes|
  {
    match PhaseOf(run, t)
    case Asking(k) =>
      if k < |shapes[t].calls| then Action.Asked(shapes[t].calls[k], Answer(hook, run, t, shapes[t].calls[k])) else Acquired
    case Inside(m) => if m < shapes[t].work then Worked else Released
    case _ => Released
  }

  /** No deadlock: while an invocation has not ended, it or the holder of the lock can take a step. */
  lemma NoDeadlock(shapes: seq<Shape>, hook: CHook, run: Run, t: nat)
    requires IsRun(shapes, hook, run) && t < |shapes| && (PhaseOf(run, t).Asking? || PhaseOf(run, t).Inside?)
    ensures var u := if Holder(run).Some? then Holder(run).value else t;
            u < |shapes| && Enabled(shapes, hook, run, u, NextStep(shapes, hook, run, u))
  {
    Exclusive(shapes, hook, run, t);
    if Holder(run).Some? { Exclusive(shapes, hook, run, Holder(run).value); }
  }

  /** The whole app is serializable: all four data domains show the same serial execution in lock order. */
  lemma AppSerializable(coils: seq<seq<Op<bool>>>, discrete: seq<seq<Op<bool>>>, holding: seq<seq<Op<bv16>>>,
                        inputs: seq<seq<Op<bv16>>>,
                        shapes: seq<Shape>, hook: CHook, run: Run,
                        c: map<int, bool>, d: map<int, bool>, h: map<int, bv16>, i: map<int, bv16>)
    requires IsRun(shapes, hook, run) && Holder(run).None?
    requires Views(coils, shapes) && Views(discrete, shapes) && Views(holding, shapes) && Views(inputs, shapes)
    ensures Cells(coils, run, c) == Serial(coils, OrderOf(run), c)
    ensures Cells(discrete, run, d) == Serial(discrete, OrderOf(run), d)
    ensures Cells(holding, run, h) == Serial(holding, OrderOf(run), h)
    ensures Cells(inputs, run, i) == Serial(inputs, OrderOf(run), i)
  {
    Serializable(coils, shapes, hook, run, c);
    Serializable(discrete, shapes, hook, run, d);
    Serializable(holding, shapes, hook, run, h);
    Serializable(inputs, shapes, hook, run, i);
  }
}
