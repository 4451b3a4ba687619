/** Interrupt handler, tasklet and work item as interleaved micro-steps. The handler does
    not overlap itself and a tasklet does not overlap itself; runs of the work item may overlap. */
module DeferredIrq {

  /** One run of a deferred function. `at` is how many schedule calls came before it began. */
  datatype Run = Started(at: nat) | Counted(at: nat) | Finished(at: nat, seen: nat, stamp: nat)

  /** A tasklet or work item: its pending bit, the schedule calls made, its counter, its runs. */
  datatype Deferred = Deferred(pending: bool, calls: nat, counter: nat, runs: seq<Run>)

  /** Where the handler stands: before its first line, or just after one of its four. */
  datatype Handler = Idle | Entered | Stamped | TaskletScheduled | WorkQueued

  datatype Kind = Tasklet | Work

  /** `writer` is the number of the interrupt whose time is in `stamp`; `stamps` remembers them all. */
  datatype State = State(attached: bool, clock: nat, counterTh: nat, stamp: nat, writer: nat, stamps: seq<nat>,
                         handler: Handler, tasklet: Deferred, work: Deferred)
  {
    function Get(k: Kind): Deferred { if k == Tasklet then tasklet else work }

    function Set(k: Kind, d: Deferred): State { if k == Tasklet then this.(tasklet := d) else this.(work := d) }
  }

  datatype Action =
    | Tick
    | Interrupt | WriteStamp | ScheduleTasklet | QueueWork | Return
    | Begin(kind: Kind) | Count(kind: Kind, run: nat) | Read(kind: Kind, run: nat)
    | FreeIrq

  /** After `my_init`. */
  const START := State(true, 0, 0, 0, 0, [], Idle, Deferred(false, 0, 0, []), Deferred(false, 0, 0, []))

  predicate Enabled(s: State, a: Action) {
    match a
    case Tick => true
    case Interrupt => s.attached && s.handler == Idle
    case WriteStamp => s.handler == Entered
    case ScheduleTasklet => s.handler == Stamped
    case QueueWork => s.handler == TaskletScheduled
    case Return => s.handler == WorkQueued
    case Begin(k) => s.Get(k).pending && (k == Tasklet ==> AllFinished(s.tasklet.runs))
    case Count(k, i) => i < |s.Get(k).runs| && s.Get(k).runs[i].Started?
    case Read(k, i) => i < |s.Get(k).runs| && s.Get(k).runs[i].Counted?
    case FreeIrq => s.attached && s.handler == Idle
  }

  /** Setting a pending bit that is set already does nothing more: calls coalesce. */
  function Schedule(d: Deferred): Deferred { d.(pending := true, calls := d.calls + 1) }

  function BeginRun(d: Deferred): Deferred { d.(pending := false, runs := d.runs + [Started(d.calls)]) }

  function CountRun(d: Deferred, i: nat): Deferred
    requires i < |d.runs|
  {
    d.(counter := d.counter + 1, runs := d.runs[i := Counted(d.runs[i].at)])
  }

  function ReadStamp(d: Deferred, i: nat, writer: nat, stamp: nat): Deferred
    requires i < |d.runs|
  {
    d.(runs := d.runs[i := Finished(d.runs[i].at, writer, stamp)])
  }

  function Apply(s: State, a: Action): State
    requires Enabled(s, a)
  {
    match a
    case Tick => s.(clock := s.clock + 1)
    case Interrupt => s.(handler := Entered, counterTh := s.counterTh + 1)
    case WriteStamp => s.(handler := Stamped, stamp := s.clock, writer := s.writer + 1, stamps := s.stamps + [s.clock])
    case ScheduleTasklet => s.(handler := TaskletScheduled, tasklet := Schedule(s.tasklet))
    case QueueWork => s.(handler := WorkQueued, work := Schedule(s.work))
    case Return => s.(handler := Idle)
    case Begin(k) => s.Set(k, BeginRun(s.Get(k)))
    case Count(k, i) => s.Set(k, CountRun(s.Get(k), i))
    case Read(k, i) => s.Set(k, ReadStamp(s.Get(k), i, s.writer, s.stamp))
    case FreeIrq => s.(attached := false)
  }

  predicate Playable(s: State, actions: seq<Action>)
    decreases |actions|
  {
    actions == [] || (Enabled(s, actions[0]) && Playable(Apply(s, actions[0]), actions[1..]))
  }

  function Play(s: State, actions: seq<Action>): State
    requires Playable(s, actions)
    decreases |actions|
  {
    if actions == [] then s else Play(Apply(s, actions[0]), actions[1..])
  }

  ghost predicate Reachable(s: State) {
    exists actions :: Playable(START, actions) && Play(START, actions) == s
  }

  // ---- The invariant

  predicate AllFinished(runs: seq<Run>) { forall i :: 0 <= i < |runs| ==> runs[i].Finished? }

  /** Runs that have begun but not yet counted themselves. */
  function Uncounted(runs: seq<Run>): nat {
    if runs == [] then 0 else Uncounted(runs[..|runs| - 1]) + if runs[|runs| - 1].Started? then 1 else 0
  }

  predicate RunOk(r: Run, calls: nat, stamps: seq<nat>) {
    && 1 <= r.at <= calls
    && (r.Finished? ==> r.at <= r.seen <= |stamps| && r.stamp == stamps[r.seen - 1])
  }

  predicate DeferredOk(d: Deferred, stamps: seq<nat>) {
    && d.calls <= |stamps|
    && |d.runs| + (if d.pending then 1 else 0) <= d.calls
    && d.counter + Uncounted(d.runs) == |d.runs|
    && (forall i :: 0 <= i < |d.runs| ==> RunOk(d.runs[i], d.calls, stamps))
    && (!d.pending && d.calls > 0 ==> d.runs != [] && d.runs[|d.runs| - 1].at == d.calls)
  }

  predicate Inv(s: State) {
    && s.counterTh == |s.stamps| + (if s.handler == Entered then 1 else 0)
    && s.writer == |s.stamps|
    && (s.writer > 0 ==> s.stamp == s.stamps[s.writer - 1])
    && s.tasklet.calls == |s.stamps| - (if s.handler == Stamped then 1 else 0)
    && s.work.calls == |s.stamps| - (if s.handler in {Stamped, TaskletScheduled} then 1 else 0)
    && DeferredOk(s.tasklet, s.stamps) && DeferredOk(s.work, s.stamps)
  }

  lemma {:induction false} UncountedUpdate(runs: seq<Run>, i: nat, r: Run)
    requires i < |runs|
    ensures Uncounted(runs[i := r]) + (if runs[i].Started? then 1 else 0)
            == Uncounted(runs) + if r.Started? then 1 else 0
  {
    var last := |runs| - 1;
    if i == last {
      assert runs[i := r][..last] == runs[..last];
    } else {
      UncountedUpdate(runs[..last], i, r);
      assert runs[i := r][..last] == runs[..last][i := r];
    }
  }

  lemma MoreStamps(d: Deferred, stamps: seq<nat>, stamp: nat)
    requires DeferredOk(d, stamps)
    ensures DeferredOk(d, stamps + [stamp])
  {
    forall i | 0 <= i < |d.runs| ensures RunOk(d.runs[i], d.calls, stamps + [stamp]) {
      assert RunOk(d.runs[i], d.calls, stamps);
    }
  }

  lemma BeginOk(d: Deferred, stamps: seq<nat>)
    requires DeferredOk(d, stamps) && d.pending
    ensures DeferredOk(BeginRun(d), stamps)
  {
    assert (d.runs + [Started(d.calls)])[..|d.runs|] == d.runs;
  }

  lemma CountOk(d: Deferred, stamps: seq<nat>, i: nat)
    requires DeferredOk(d, stamps) && i < |d.runs| && d.runs[i].Started?
    ensures DeferredOk(CountRun(d, i), stamps)
  {
    UncountedUpdate(d.runs, i, Counted(d.runs[i].at));
    assert RunOk(d.runs[i], d.calls, stamps);
  }

  lemma ReadOk(d: Deferred, stamps: seq<nat>, i: nat)
    requires DeferredOk(d, stamps) && i < |d.runs| && d.runs[i].Counted? && stamps != []
    ensures DeferredOk(ReadStamp(d, i, |stamps|, stamps[|stamps| - 1]), stamps)
  {
    UncountedUpdate(d.runs, i, Finished(d.runs[i].at, |stamps|, stamps[|stamps| - 1]));
    assert RunOk(d.runs[i], d.calls, stamps);
  }

  lemma ReplaceOk(s: State, k: Kind, d: Deferred)
    requires Inv(s) && DeferredOk(d, s.stamps) && d.calls == s.Get(k).calls
    ensures Inv(s.Set(k, d))
  {
  }

  lemma HandlerStepKeepsInv(s: State, a: Action)
    requires Inv(s) && Enabled(s, a) && !a.Begin? && !a.Count? && !a.Read?
    ensures Inv(Apply(s, a))
  {
    if a == WriteStamp {
      MoreStamps(s.tasklet, s.stamps, s.clock);
      MoreStamps(s.work, s.stamps, s.clock);
    } else if a == ScheduleTasklet {
      ScheduleOk(s.tasklet, s.stamps);
    } else if a == QueueWork {
      ScheduleOk(s.work, s.stamps);
    }
  }

  lemma ScheduleOk(d: Deferred, stamps: seq<nat>)
    requires DeferredOk(d, stamps) && d.calls < |stamps|
    ensures DeferredOk(Schedule(d), stamps)
  {
    forall i | 0 <= i < |d.runs| ensures RunOk(d.runs[i], d.calls + 1, stamps) {
      assert RunOk(d.runs[i], d.calls, stamps);
    }
  }

  lemma HasStamps(d: Deferred, stamps: seq<nat>, i: nat)
    requires DeferredOk(d, stamps) && i < |d.runs|
    ensures stamps != []
  {
    assert RunOk(d.runs[i], d.calls, stamps);
  }

  lemma RunStepOk(s: State, a: Action)
    requires Inv(s) && Enabled(s, a) && (a.Begin? || a.Count? || a.Read?)
    ensures DeferredOk(Apply(s, a).Get(a.kind), s.stamps)
  {
    hide DeferredOk;
    var d := s.Get(a.kind);
    assert DeferredOk(d, s.stamps);
    match a
    case Begin(k) => BeginOk(d, s.stamps);
    case Count(k, i) => CountOk(d, s.stamps, i);
    case Read(k, i) =>
      HasStamps(d, s.stamps, i);
      ReadOk(d, s.stamps, i);
  }

  lemma StepKeepsInv(s: State, a: Action)
    requires Inv(s) && Enabled(s, a)
    ensures Inv(Apply(s, a))
  {
    if a.Begin? || a.Count? || a.Read? {
      RunStepOk(s, a);
      ReplaceOk(s, a.kind, Apply(s, a).Get(a.kind));
    } else {
      HandlerStepKeepsInv(s, a);
    }
  }

  lemma {:induction false} PlayKeepsInv(s: State, actions: seq<Action>)
    requires Inv(s) && Playable(s, actions)
    ensures Inv(Play(s, actions))
    decreases |actions|
  {
    if actions != [] {
      StepKeepsInv(s, actions[0]);
      PlayKeepsInv(Apply(s, actions[0]), actions[1..]);
    }
  }

  lemma ReachableInv(s: State)
    requires Reachable(s)
    ensures Inv(s)
  {
    var actions :| Playable(START, actions) && Play(START, actions) == s;
    PlayKeepsInv(START, actions);
  }

  // ---- Main results

  predicate Quiescent(s: State) {
    && s.handler == Idle
    && !s.tasklet.pending && AllFinished(s.tasklet.runs)
    && !s.work.pending && AllFinished(s.work.runs)
  }

  /** In every quiescent state that saw an interrupt, the last run of tasklet and work item began after the last
      interrupt scheduled it, and read that interrupt's stamp. */
  lemma LastRunSawLast(s: State, k: Kind)
    requires Reachable(s) && Quiescent(s) && s.counterTh > 0
    ensures var runs := s.Get(k).runs;
            && |s.stamps| == s.Get(k).calls == s.counterTh && runs != []
            && runs[|runs| - 1] == Finished(s.counterTh, s.counterTh, s.stamps[s.counterTh - 1])
  {
    hide Reachable;
    ReachableInv(s);
    var runs := s.Get(k).runs;
    assert RunOk(runs[|runs| - 1], s.Get(k).calls, s.stamps);
  }

  // ---- What a run adds up to

  function Times(actions: seq<Action>, a: Action): nat {
    if actions == [] then 0 else (if actions[0] == a then 1 else 0) + Times(actions[1..], a)
  }

  function Counts(actions: seq<Action>, k: Kind): nat {
    if actions == [] then 0
    else (if actions[0].Count? && actions[0].kind == k then 1 else 0) + Counts(actions[1..], k)
  }

  function ScheduleOf(k: Kind): Action { if k == Tasklet then ScheduleTasklet else QueueWork }

  /** Every number of the state is the number of times the run took the step that it counts. */
  lemma {:induction false} RunAddsUp(s: State, actions: seq<Action>, k: Kind)
    requires Playable(s, actions)
    ensures var end := Play(s, actions);
            && end.clock == s.clock + Times(actions, Tick)
            && end.counterTh == s.counterTh + Times(actions, Interrupt)
            && |end.stamps| == |s.stamps| + Times(actions, WriteStamp)
            && end.Get(k).calls == s.Get(k).calls + Times(actions, ScheduleOf(k))
            && |end.Get(k).runs| == |s.Get(k).runs| + Times(actions, Begin(k))
            && end.Get(k).counter == s.Get(k).counter + Counts(actions, k)
    decreases |actions|
  {
    if actions != [] {
      StepAddsUp(s, actions[0], k);
      RunAddsUp(Apply(s, actions[0]), actions[1..], k);
    }
  }

  lemma StepAddsUp(s: State, a: Action, k: Kind)
    requires Enabled(s, a)
    ensures var end := Apply(s, a);
            && end.clock == s.clock + (if a == Tick then 1 else 0)
            && end.counterTh == s.counterTh + (if a == Interrupt then 1 else 0)
            && |end.stamps| == |s.stamps| + (if a == WriteStamp then 1 else 0)
            && end.Get(k).calls == s.Get(k).calls + (if a == ScheduleOf(k) then 1 else 0)
            && |end.Get(k).runs| == |s.Get(k).runs| + (if a == Begin(k) then 1 else 0)
            && end.Get(k).counter == s.Get(k).counter + (if a.Count? && a.kind == k then 1 else 0)
  {
  }

  lemma {:induction false} PlaySplit(s: State, a: seq<Action>, b: seq<Action>)
    requires Playable(s, a + b)
    ensures Playable(s, a) && Playable(Play(s, a), b) && Play(s, a + b) == Play(Play(s, a), b)
    decreases |a|
  {
    if a == [] {
      assert a + b == b;
    } else {
      assert (a + b)[1..] == a[1..] + b;
      PlaySplit(Apply(s, a[0]), a[1..], b);
    }
  }

  lemma {:induction false} TimesAppend(a: seq<Action>, b: seq<Action>, x: Action)
    ensures Times(a + b, x) == Times(a, x) + Times(b, x)
  {
    if a == [] {
      assert a + b == b;
    } else {
      assert (a + b)[1..] == a[1..] + b;
      TimesAppend(a[1..], b, x);
    }
  }

  lemma {:induction false} StampsStay(s: State, actions: seq<Action>)
    requires Playable(s, actions)
    ensures s.stamps <= Play(s, actions).stamps
    decreases |actions|
  {
    if actions != [] {
      StampsStay(Apply(s, actions[0]), actions[1..]);
    }
  }

  /** The stamp an interrupt leaves is its time: the number of ticks before it was written. */
  lemma StampIsTime(before: seq<Action>, later: seq<Action>)
    requires Playable(START, before + ([WriteStamp] + later))
    ensures var n, stamps := Times(before, WriteStamp), Play(START, before + ([WriteStamp] + later)).stamps;
            n < |stamps| && stamps[n] == Times(before, Tick)
  {
    PlaySplit(START, before, [WriteStamp] + later);
    var s := Play(START, before);
    assert ([WriteStamp] + later)[1..] == later;
    RunAddsUp(START, before, Tasklet);
    StampsStay(Apply(s, WriteStamp), later);
  }

  /** The last time an interrupt wrote its stamp. */
  lemma {:induction false} LastStamp(actions: seq<Action>) returns (before: seq<Action>, later: seq<Action>)
    requires Times(actions, WriteStamp) > 0
    ensures actions == before + ([WriteStamp] + later) && Times(later, WriteStamp) == 0
    decreases |actions|
  {
    if Times(actions[1..], WriteStamp) > 0 {
      before, later := LastStamp(actions[1..]);
      before := [actions[0]] + before;
    } else {
      before, later := [], actions[1..];
    }
  }

  /** In a quiescent state every interrupt has left its stamp, so the last of them can be found. */
  lemma EveryInterruptStamped(actions: seq<Action>)
    requires Playable(START, actions) && Quiescent(Play(START, actions))
    ensures Times(actions, WriteStamp) == Times(actions, Interrupt)
  {
    hide Play, Playable;
    assert Reachable(Play(START, actions));
    ReachableInv(Play(START, actions));
    RunAddsUp(START, actions, Tasklet);
  }

  /** No lost work: in every run that comes to rest, with the last stamp written where it is split, the last run of
      tasklet and of work item began after all schedule calls, saw all interrupts, and read the time at which the last
      of them came. */
  lemma NoLostWork(before: seq<Action>, later: seq<Action>, k: Kind)
    requires Playable(START, before + ([WriteStamp] + later)) && Times(later, WriteStamp) == 0
    requires Quiescent(Play(START, before + ([WriteStamp] + later)))
    ensures var actions := before + ([WriteStamp] + later);
            var runs := Play(START, actions).Get(k).runs;
            && runs != []
            && runs[|runs| - 1]
               == Finished(Times(actions, ScheduleOf(k)), Times(actions, Interrupt), Times(before, Tick))
  {
    hide Inv, Play, Quiescent;
    var actions := before + ([WriteStamp] + later);
    var s := Play(START, actions);
    RunAddsUp(START, actions, k);
    EveryInterruptStamped(actions);
    StampIsTime(before, later);
    assert Times(actions, WriteStamp) == Times(before, WriteStamp) + 1 by {
      TimesAppend(before, [WriteStamp] + later, WriteStamp);
      assert ([WriteStamp] + later)[1..] == later;
    }
    assert Reachable(s);
    LastRunSawLast(s, k);
  }

  lemma InvAccounts(s: State, k: Kind)
    requires Inv(s)
    ensures var d := s.Get(k);
            d.counter + Uncounted(d.runs) + (if d.pending then 1 else 0) <= s.counterTh
  {
    hide Uncounted, RunOk;
  }

  /** Counted runs, runs begun but uncounted, and a pending one never exceed the interrupts. */
  lemma CoalescingAccount(s: State, k: Kind)
    requires Reachable(s)
    ensures var d := s.Get(k);
            d.counter + Uncounted(d.runs) + (if d.pending then 1 else 0) <= s.counterTh
  {
    hide Inv, Reachable, Uncounted;
    ReachableInv(s);
    InvAccounts(s, k);
  }

  lemma {:induction false} DetachedKeepsTh(s: State, actions: seq<Action>)
    requires Inv(s) && !s.attached && s.handler == Idle && Playable(s, actions)
    ensures Play(s, actions).counterTh == s.counterTh && !Play(s, actions).attached
    decreases |actions|
  {
    if actions != [] {
      StepKeepsInv(s, actions[0]);
      DetachedKeepsTh(Apply(s, actions[0]), actions[1..]);
    }
  }

  lemma TotalStaysBelow(s: State, k: Kind, th: seq<Action>, later: seq<Action>)
    requires Inv(s) && !s.attached && s.handler == Idle && Playable(s, th) && Playable(s, later)
    ensures Play(s, later).Get(k).counter <= Play(s, th).counterTh
  {
    assert Play(s, th).counterTh == s.counterTh by { DetachedKeepsTh(s, th); }
    var end := Play(s, later);
    assert end.counterTh == s.counterTh by { DetachedKeepsTh(s, later); }
    assert Inv(end) by { PlayKeepsInv(s, later); }
  }

  /** The totals at exit: read at any three moments after `free_irq`, whatever still runs in between. */
  lemma TotalsAtExit(freed: State, th: seq<Action>, bh: seq<Action>, wq: seq<Action>)
    requires Reachable(freed) && Enabled(freed, FreeIrq)
    requires var s := Apply(freed, FreeIrq); Playable(s, th) && Playable(s, bh) && Playable(s, wq)
    ensures var s := Apply(freed, FreeIrq);
            && Play(s, bh).tasklet.counter <= Play(s, th).counterTh
            && Play(s, wq).work.counter <= Play(s, th).counterTh
  {
    var s := Apply(freed, FreeIrq);
    assert Inv(s) by {
      ReachableInv(freed);
      StepKeepsInv(freed, FreeIrq);
    }
    TotalStaysBelow(s, Tasklet, th, bh);
    TotalStaysBelow(s, Work, th, wq);
  }

  // ---- Quiescence is always reached once interrupts stop

  function RunLeft(r: Run): nat { match r case Started(_) => 2 case Counted(_) => 1 case Finished(_, _, _) => 0 }

  function RunsLeft(runs: seq<Run>): nat {
    if runs == [] then 0 else RunsLeft(runs[..|runs| - 1]) + RunLeft(runs[|runs| - 1])
  }

  function HandlerLeft(h: Handler): nat {
    match h case Idle => 0 case WorkQueued => 1 case TaskletScheduled => 5 case Stamped => 9 case Entered => 10
  }

  function DeferredLeft(d: Deferred): nat { RunsLeft(d.runs) + if d.pending then 3 else 0 }

  function Left(s: State): nat { HandlerLeft(s.handler) + DeferredLeft(s.tasklet) + DeferredLeft(s.work) }

  /** Actions that only carry on what has begun. */
  predicate Internal(a: Action) { !a.Interrupt? && !a.Tick? && !a.FreeIrq? }

  lemma {:induction false} RunsLeftUpdate(runs: seq<Run>, i: nat, r: Run)
    requires i < |runs|
    ensures RunsLeft(runs[i := r]) + RunLeft(runs[i]) == RunsLeft(runs) + RunLeft(r)
  {
    var last := |runs| - 1;
    if i == last {
      assert runs[i := r][..last] == runs[..last];
    } else {
      RunsLeftUpdate(runs[..last], i, r);
      assert runs[i := r][..last] == runs[..last][i := r];
    }
  }

  lemma InternalStepsRunOut(s: State, a: Action)
    requires Enabled(s, a) && Internal(a)
    ensures Left(Apply(s, a)) < Left(s)
  {
    match a
    case Begin(k) =>
      var d := s.Get(k);
      assert (d.runs + [Started(d.calls)])[..|d.runs|] == d.runs;
    case Count(k, i) => RunsLeftUpdate(s.Get(k).runs, i, Counted(s.Get(k).runs[i].at));
    case Read(k, i) => RunsLeftUpdate(s.Get(k).runs, i, Finished(s.Get(k).runs[i].at, s.writer, s.stamp));
    case _ =>
  }

  lemma SomethingToDo(s: State) returns (a: Action)
    requires !Quiescent(s)
    ensures Enabled(s, a) && Internal(a)
  {
    match s.handler
    case Entered => return WriteStamp;
    case Stamped => return ScheduleTasklet;
    case TaskletScheduled => return QueueWork;
    case WorkQueued => return Return;
    case Idle =>
      if k: Kind :| !AllFinished(s.Get(k).runs) {
        var i :| 0 <= i < |s.Get(k).runs| && !s.Get(k).runs[i].Finished?;
        return if s.Get(k).runs[i].Started? then Count(k, i) else Read(k, i);
      } else {
        assert AllFinished(s.Get(Tasklet).runs) && AllFinished(s.Get(Work).runs);
        return if s.tasklet.pending then Begin(Tasklet) else Begin(Work);
      }
  }

  /** From every state, carrying on what has begun reaches quiescence. */
  lemma {:induction false} QuiescenceIsReached(s: State) returns (actions: seq<Action>)
    ensures Playable(s, actions) && Quiescent(Play(s, actions)) && Play(s, actions).counterTh == s.counterTh
    ensures forall a <- actions :: Internal(a)
    decreases Left(s)
  {
    if Quiescent(s) { return []; }
    var a := SomethingToDo(s);
    InternalStepsRunOut(s, a);
    var rest := QuiescenceIsReached(Apply(s, a));
    actions := [a] + rest;
    assert actions[1..] == rest;
  }

  predicate NoInterrupt(actions: seq<Action>) { actions == [] || (!actions[0].Interrupt? && NoInterrupt(actions[1..])) }

  function InternalSteps(actions: seq<Action>): nat {
    if actions == [] then 0 else (if Internal(actions[0]) then 1 else 0) + InternalSteps(actions[1..])
  }

  /** Quiescent states are exactly those in which nothing is left to carry on. */
  lemma QuiescentExactlyWhenNothingLeft(s: State)
    ensures Quiescent(s) <==> forall a :: Enabled(s, a) ==> !Internal(a)
  {
    if !Quiescent(s) { var a := SomethingToDo(s); }
  }

  /** No schedule avoids quiescence: whatever the order, and however the clock ticks and `free_irq` comes in between,
      a run without interrupts has no more internal steps than the start state has left to do, and one that cannot
      go on is quiescent. */
  lemma {:induction false} EveryScheduleRunsOut(s: State, actions: seq<Action>)
    requires Playable(s, actions) && NoInterrupt(actions)
    ensures InternalSteps(actions) + Left(Play(s, actions)) <= Left(s)
    ensures (forall a :: Enabled(Play(s, actions), a) ==> !Internal(a)) <==> Quiescent(Play(s, actions))
    decreases |actions|
  {
    QuiescentExactlyWhenNothingLeft(Play(s, actions));
    if actions != [] {
      var a := actions[0];
      if Internal(a) { InternalStepsRunOut(s, a); }
      EveryScheduleRunsOut(Apply(s, a), actions[1..]);
    }
  }
}
