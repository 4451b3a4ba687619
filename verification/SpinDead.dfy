/** N threads and one spinlock; the first to enter goes to sleep with the lock held. */
module SpinDead {
  import opened Options

  datatype Pc = New | Ready | Locked | Incremented | Preparing | Asleep | Leaving | Done

  datatype State = State(count: nat, lock: Option<nat>, threads: seq<Pc>)

  /** `Start` is the wake-up that creation gives every thread, `Wake` any later one. */
  datatype Action =
    | Start(t: nat) | Acquire(t: nat) | Increment(t: nat) | Test(t: nat) | Sleep(t: nat) | Wake(t: nat) | Unlock(t: nat)

  function Initial(n: nat): State { State(0, None, seq(n, _ => New)) }

  predicate Enabled(s: State, a: Action) {
    && a.t < |s.threads|
    && var pc := s.threads[a.t];
       match a
       case Start(_) => pc == New
       case Acquire(_) => pc == Ready && s.lock == None
       case Increment(_) => pc == Locked
       case Test(_) => pc == Incremented
       case Sleep(_) => pc == Preparing
       case Wake(_) => pc == Preparing || pc == Asleep
       case Unlock(_) => pc == Leaving
  }

  function Apply(s: State, a: Action): State
    requires Enabled(s, a)
  {
    match a
    case Start(t) => s.(threads := s.threads[t := Ready])
    case Acquire(t) => s.(threads := s.threads[t := Locked], lock := Some(t))
    case Increment(t) => s.(threads := s.threads[t := Incremented], count := s.count + 1)
    case Test(t) => s.(threads := s.threads[t := if s.count == 1 then Preparing else Leaving])
    case Sleep(t) => s.(threads := s.threads[t := Asleep])
    case Wake(t) => s.(threads := s.threads[t := Leaving])
    case Unlock(t) => s.(threads := s.threads[t := Done], lock := None)
  }

  predicate Playable(s: State, actions: seq<Action>)
    decreases |actions|
  {
    actions == [] || (Enabled(s, actions[0]) && Playable(Apply(s, actions[0]), actions[1..]))
  }

  function Play(s: State, actions: seq<Action>): State
    requires Playable(s, actions)
    decreases |actions|
  {
    if actions == [] then s else Play(Apply(s, actions[0]), actions[1..])
  }

  // ---- Safety

  predicate Critical(pc: Pc) { pc != New && pc != Ready && pc != Done }

  predicate Entered(pc: Pc) { (Critical(pc) && pc != Locked) || pc == Done }

  /** Threads past their increment. */
  function EnteredCount(threads: seq<Pc>): nat {
    if threads == [] then 0
    else EnteredCount(threads[..|threads| - 1]) + if Entered(threads[|threads| - 1]) then 1 else 0
  }

  lemma {:induction false} EnteredUpdate(threads: seq<Pc>, t: nat, pc: Pc)
    requires t < |threads|
    ensures EnteredCount(threads[t := pc]) + (if Entered(threads[t]) then 1 else 0)
            == EnteredCount(threads) + if Entered(pc) then 1 else 0
  {
    var last := |threads| - 1;
    if t == last {
      assert threads[t := pc][..last] == threads[..last];
    } else {
      EnteredUpdate(threads[..last], t, pc);
      assert threads[t := pc][..last] == threads[..last][t := pc];
    }
  }

  ghost predicate Inv(s: State) {
    && s.count == EnteredCount(s.threads)
    && (s.lock.Some? ==> s.lock.value < |s.threads|)
    && forall t :: 0 <= t < |s.threads| ==> (Critical(s.threads[t]) <==> s.lock == Some(t))
  }

  lemma StepKeepsInv(s: State, a: Action)
    requires Inv(s) && Enabled(s, a)
    ensures Inv(Apply(s, a))
  {
    EnteredUpdate(s.threads, a.t, Apply(s, a).threads[a.t]);
  }

  lemma {:induction false} InitialInv(n: nat)
    ensures Inv(Initial(n))
  {
    if n > 0 {
      InitialInv(n - 1);
      assert Initial(n).threads[..n - 1] == Initial(n - 1).threads;
    }
  }

  lemma {:induction false} PlayKeepsInv(s: State, actions: seq<Action>)
    requires Inv(s) && Playable(s, actions)
    ensures Inv(Play(s, actions)) && |Play(s, actions).threads| == |s.threads|
    decreases |actions|
  {
    if actions != [] {
      StepKeepsInv(s, actions[0]);
      PlayKeepsInv(Apply(s, actions[0]), actions[1..]);
    }
  }

  /** In every run, with whatever wake-ups: at most one thread is between lock and unlock,
      and count is the number of threads that have got past the increment. */
  lemma MutualExclusion(n: nat, actions: seq<Action>)
    requires Playable(Initial(n), actions)
    ensures var s := Play(Initial(n), actions);
            && s.count == EnteredCount(s.threads)
            && forall t, u :: 0 <= t < u < |s.threads| ==> !(Critical(s.threads[t]) && Critical(s.threads[u]))
  {
    InitialInv(n);
    PlayKeepsInv(Initial(n), actions);
  }

  // ---- Without a wake-up nobody returns

  predicate NoWake(actions: seq<Action>) { forall a <- actions :: !a.Wake? }

  ghost predicate Blocked(s: State) {
    && Inv(s) && s.count <= 1
    && (s.count == 1 ==> s.lock.Some? && s.threads[s.lock.value] != Locked)
    && forall t :: 0 <= t < |s.threads| ==> s.threads[t] != Leaving && s.threads[t] != Done
  }

  lemma {:induction false} CountsHolder(threads: seq<Pc>, t: nat)
    requires t < |threads| && Entered(threads[t])
    ensures EnteredCount(threads) >= 1
  {
    var last := |threads| - 1;
    if t < last { CountsHolder(threads[..last], t); }
  }

  lemma {:induction false} SleeperBlocksAll(s: State, actions: seq<Action>)
    requires Blocked(s) && Playable(s, actions) && NoWake(actions)
    ensures Blocked(Play(s, actions))
    decreases |actions|
  {
    if actions != [] {
      var a := actions[0];
      assert a in actions && forall b <- actions[1..] :: b in actions;
      StepKeepsInv(s, a);
      if a.Test? { CountsHolder(s.threads, a.t); }
      SleeperBlocksAll(Apply(s, a), actions[1..]);
    }
  }

  /** Started together with nobody to wake the sleeper, no thread ever returns and at most one enters. */
  lemma NobodyReturns(n: nat, actions: seq<Action>)
    requires Playable(Initial(n), actions) && NoWake(actions)
    ensures var s := Play(Initial(n), actions);
            s.count == EnteredCount(s.threads) <= 1 && forall t :: 0 <= t < |s.threads| ==> s.threads[t] != Done
  {
    InitialInv(n);
    SleeperBlocksAll(Initial(n), actions);
  }

  /** Where such a run must end: one thread asleep with the lock, all others spinning. */
  lemma DeadlockShape(n: nat, actions: seq<Action>)
    requires n > 0 && Playable(Initial(n), actions) && NoWake(actions)
    requires forall a :: Enabled(Play(Initial(n), actions), a) ==> a.Wake?
    ensures var s := Play(Initial(n), actions);
            && s.count == 1 && s.lock.Some? && s.lock.value < |s.threads| == n && s.threads[s.lock.value] == Asleep
            && forall t :: 0 <= t < n && t != s.lock.value ==> s.threads[t] == Ready
  {
    InitialInv(n);
    SleeperBlocksAll(Initial(n), actions);
    PlayKeepsInv(Initial(n), actions);
    var s := Play(Initial(n), actions);
    forall t | 0 <= t < n ensures s.threads[t] == Asleep || (s.threads[t] == Ready && s.lock != None) {
      assert !Enabled(s, Start(t)) && !Enabled(s, Acquire(t)) && !Enabled(s, Increment(t)) && !Enabled(s, Test(t));
      assert !Enabled(s, Sleep(t)) && !Enabled(s, Unlock(t));
    }
    assert s.threads[0] == Asleep || s.lock.Some?;
    CountsHolder(s.threads, s.lock.value);
  }

  // ---- With wake-ups everybody returns

  function Rank(pc: Pc): nat {
    match pc
    case New => 7 case Ready => 6 case Locked => 5 case Incremented => 4
    case Preparing => 3 case Asleep => 2 case Leaving => 1 case Done => 0
  }

  function Left(threads: seq<Pc>): nat {
    if threads == [] then 0 else Left(threads[..|threads| - 1]) + Rank(threads[|threads| - 1])
  }

  lemma {:induction false} LeftUpdate(threads: seq<Pc>, t: nat, pc: Pc)
    requires t < |threads|
    ensures Left(threads[t := pc]) + Rank(threads[t]) == Left(threads) + Rank(pc)
  {
    var last := |threads| - 1;
    if t == last {
      assert threads[t := pc][..last] == threads[..last];
    } else {
      LeftUpdate(threads[..last], t, pc);
      assert threads[t := pc][..last] == threads[..last][t := pc];
    }
  }

  lemma {:induction false} InitialLeft(n: nat)
    ensures Left(Initial(n).threads) == 7 * n
  {
    if n > 0 {
      InitialLeft(n - 1);
      assert Initial(n).threads[..n - 1] == Initial(n - 1).threads;
    }
  }

  lemma {:induction false} LeftBoundsRun(s: State, actions: seq<Action>)
    requires Playable(s, actions)
    ensures |actions| + Left(Play(s, actions).threads) <= Left(s.threads)
    decreases |actions|
  {
    if actions != [] {
      LeftUpdate(s.threads, actions[0].t, Apply(s, actions[0]).threads[actions[0].t]);
      LeftBoundsRun(Apply(s, actions[0]), actions[1..]);
    }
  }

  lemma {:induction false} AllEntered(threads: seq<Pc>)
    requires forall t :: 0 <= t < |threads| ==> threads[t] == Done
    ensures EnteredCount(threads) == |threads|
  {
    if threads != [] { AllEntered(threads[..|threads| - 1]); }
  }

  /** No run takes more than seven steps a thread, and one that cannot go on has every thread returned and count = N. */
  lemma EverybodyReturns(n: nat, actions: seq<Action>)
    requires Playable(Initial(n), actions)
    ensures |actions| <= 7 * n
    ensures var s := Play(Initial(n), actions);
            (forall a :: !Enabled(s, a)) ==>
              s.count == n == |s.threads| && forall t :: 0 <= t < n ==> s.threads[t] == Done
  {
    InitialInv(n);
    InitialLeft(n);
    LeftBoundsRun(Initial(n), actions);
    PlayKeepsInv(Initial(n), actions);
    var s := Play(Initial(n), actions);
    if forall a :: !Enabled(s, a) {
      forall t | 0 <= t < n ensures s.threads[t] == Done {
        if s.threads[t] != Done { SomeStep(s, if s.lock.Some? then s.lock.value else t); }
      }
      AllEntered(s.threads);
    }
  }

  lemma SomeStep(s: State, t: nat)
    requires t < |s.threads| && s.threads[t] != Done && (s.threads[t] == Ready ==> s.lock == None)
    ensures exists a :: Enabled(s, a)
  {
    var a := match s.threads[t]
      case New => Start(t) case Ready => Acquire(t) case Locked => Increment(t) case Incremented => Test(t)
      case Leaving => Unlock(t) case _ => Wake(t);
    assert Enabled(s, a);
  }

  // ---- One wake-up decides

  /** Once the sleeper has been woken nobody goes to sleep any more. */
  ghost predicate Woken(s: State) {
    && Inv(s) && s.count >= 1
    && forall t :: 0 <= t < |s.threads| ==>
         s.threads[t] != Preparing && s.threads[t] != Asleep && (s.threads[t] == Incremented ==> s.count >= 2)
  }

  lemma WakeWakes(s: State, t: nat)
    requires Inv(s) && Enabled(s, Wake(t))
    ensures Woken(Apply(s, Wake(t)))
  {
    StepKeepsInv(s, Wake(t));
    CountsHolder(s.threads, t);
    assert Critical(s.threads[t]);
  }

  lemma StepKeepsWoken(s: State, a: Action)
    requires Woken(s) && Enabled(s, a)
    ensures Woken(Apply(s, a))
  {
    StepKeepsInv(s, a);
  }

  lemma {:induction false} StaysWoken(s: State, actions: seq<Action>)
    requires Woken(s) && Playable(s, actions)
    ensures Woken(Play(s, actions))
    decreases |actions|
  {
    if actions != [] {
      StepKeepsWoken(s, actions[0]);
      StaysWoken(Apply(s, actions[0]), actions[1..]);
    }
  }

  lemma {:induction false} EndsWoken(s: State, actions: seq<Action>)
    requires Inv(s) && Playable(s, actions) && !NoWake(actions)
    ensures Woken(Play(s, actions))
    decreases |actions|
  {
    var a := actions[0];
    if a.Wake? {
      WakeWakes(s, a.t);
      StaysWoken(Apply(s, a), actions[1..]);
    } else {
      StepKeepsInv(s, a);
      assert !NoWake(actions[1..]) by {
        var w :| w in actions && w.Wake?;
        assert w in actions[1..];
      }
      EndsWoken(Apply(s, a), actions[1..]);
    }
  }

  /** A run that could go on only by a wake-up has every thread returned exactly when there was a wake-up in it:
      a single one lets all threads through, and without one they all stay. */
  lemma ReturnExactlyWhenWoken(n: nat, actions: seq<Action>)
    requires n > 0 && Playable(Initial(n), actions)
    requires forall a :: Enabled(Play(Initial(n), actions), a) ==> a.Wake?
    ensures (forall pc <- Play(Initial(n), actions).threads :: pc == Done) <==> !NoWake(actions)
  {
    InitialInv(n);
    var s := Play(Initial(n), actions);
    PlayKeepsInv(Initial(n), actions);
    if NoWake(actions) {
      NobodyReturns(n, actions);
      assert s.threads[0] in s.threads;
    } else {
      EndsWoken(Initial(n), actions);
      assert forall a :: !Enabled(s, a);
      EverybodyReturns(n, actions);
    }
  }
}
