/** The semaphore the two modules share: taken once by the first module's start, tried by every
    open, which also raises it when the try failed, and waited for by the second module's load. */
module SharedSemaphore {

  /** One call of `my_open`: before the try, then with the semaphore or refused, then past its `up`. */
  datatype Open = Entered | Taken | Refused | LeftTaken | LeftRefused

  datatype Second = Unloaded | Waiting | Holding

  /** `loaded` is the first module; the second cannot be loading or loaded without it. */
  datatype State = State(loaded: bool, count: nat, opens: seq<Open>, second: Second)

  datatype Action = Enter | Try(open: nat) | Up(open: nat) | Load | Signal | Unload | Exit

  /** After the first module's start has set the count to one and taken it. */
  const START := State(true, 0, [], Unloaded)

  function Number(s: State, o: Open): nat { multiset(s.opens)[o] }

  function Busy(s: State): nat { Number(s, Entered) + Number(s, Taken) + Number(s, Refused) }

  predicate Enabled(s: State, a: Action) {
    && s.loaded
    && match a
       case Enter => true
       case Try(i) => i < |s.opens| && s.opens[i] == Entered
       case Up(i) => i < |s.opens| && s.opens[i] in {Taken, Refused}
       case Load => s.second == Unloaded
       case Signal => s.second == Waiting
       case Unload => s.second == Holding
       case Exit => s.second == Unloaded && Busy(s) == 0
  }

  /** `up` hands the semaphore to a sleeper if there is one. */
  function Raise(s: State): State {
    if s.second == Waiting then s.(second := Holding) else s.(count := s.count + 1)
  }

  function Apply(s: State, a: Action): State
    requires Enabled(s, a)
  {
    match a
    case Enter => s.(opens := s.opens + [Entered])
    case Try(i) =>
      if s.count > 0 then s.(count := s.count - 1, opens := s.opens[i := Taken]) else s.(opens := s.opens[i := Refused])
    case Up(i) => Raise(s.(opens := s.opens[i := if s.opens[i] == Taken then LeftTaken else LeftRefused]))
    case Load => if s.count > 0 then s.(count := s.count - 1, second := Holding) else s.(second := Waiting)
    case Signal => s.(second := Unloaded)
    case Unload => Raise(s.(second := Unloaded))
    case Exit => Raise(s).(loaded := false)
  }

  predicate Playable(s: State, actions: seq<Action>)
    decreases |actions|
  {
    actions == [] || (Enabled(s, actions[0]) && Playable(Apply(s, actions[0]), actions[1..]))
  }

  function Play(s: State, actions: seq<Action>): State
    requires Playable(s, actions)
    decreases |actions|
  {
    if actions == [] then s else Play(Apply(s, actions[0]), actions[1..])
  }

  // ---- The ledger

  ghost predicate Ledger(s: State) {
    && s.count + Number(s, Taken) + (if s.second == Holding then 1 else 0)
       == Number(s, LeftRefused) + (if s.loaded then 0 else 1)
    && (s.second == Waiting ==> s.count == 0)
    && (!s.loaded ==> s.second == Unloaded && Busy(s) == 0)
  }

  lemma Replace(s: State, i: nat, o: Open)
    requires i < |s.opens|
    ensures forall x :: Number(s.(opens := s.opens[i := o]), x) + (if x == s.opens[i] then 1 else 0)
                        == Number(s, x) + if x == o then 1 else 0
  {
    assert s.opens == s.opens[..i] + [s.opens[i]] + s.opens[i + 1..];
    assert s.opens[i := o] == s.opens[..i] + [o] + s.opens[i + 1..];
  }

  /** What one step does to the number of opens in each phase. */
  lemma StepCounts(s: State, a: Action)
    requires Enabled(s, a)
    ensures forall x :: Number(Apply(s, a), x) ==
              match a
              case Enter => Number(s, x) + (if x == Entered then 1 else 0)
              case Try(i) => Number(s, x) - (if x == Entered then 1 else 0)
                             + (if x == if s.count > 0 then Taken else Refused then 1 else 0)
              case Up(i) => Number(s, x) - (if x == s.opens[i] then 1 else 0)
                            + (if x == if s.opens[i] == Taken then LeftTaken else LeftRefused then 1 else 0)
              case _ => Number(s, x)
    ensures a.Try? ==> Number(s, Entered) >= 1
    ensures a.Up? ==> Number(s, s.opens[a.open]) >= 1
  {
    match a
    case Try(i) =>
      Replace(s, i, if s.count > 0 then Taken else Refused);
      assert s.opens[i] in multiset(s.opens);
    case Up(i) =>
      Replace(s, i, if s.opens[i] == Taken then LeftTaken else LeftRefused);
      assert s.opens[i] in multiset(s.opens);
    case _ =>
  }

  lemma StepKeepsLedger(s: State, a: Action)
    requires Ledger(s) && Enabled(s, a)
    ensures Ledger(Apply(s, a))
  {
    hide Number;
    StepCounts(s, a);
  }

  lemma StartLedger()
    ensures Ledger(START) && Busy(START) == 0 && Number(START, LeftRefused) == 0
  {
    assert multiset(START.opens) == multiset{};
  }

  /** However opens, the second module's loads and unloads, and the first module's exit interleave: what is
      available or held is what refused opens and the exit have put in. */
  lemma {:induction false} LedgerHolds(s: State, actions: seq<Action>)
    requires Ledger(s) && Playable(s, actions)
    ensures Ledger(Play(s, actions))
    decreases |actions|
  {
    if actions != [] {
      StepKeepsLedger(s, actions[0]);
      LedgerHolds(Apply(s, actions[0]), actions[1..]);
    }
  }

  /** The second module gets the semaphore only after an open that was refused it has raised it. */
  lemma LoadNeedsRefusedOpen(actions: seq<Action>)
    requires Playable(START, actions)
    ensures var s := Play(START, actions);
            && (s.second == Holding ==> Number(s, LeftRefused) >= 1)
            && Number(s, Taken) <= Number(s, LeftRefused)
  {
    StartLedger();
    LedgerHolds(START, actions);
  }

  // ---- A waiting load

  /** The second module's load is neither interrupted nor undone. */
  predicate LoadGoesOn(actions: seq<Action>) {
    actions == [] || (actions[0] != Signal && actions[0] != Unload && LoadGoesOn(actions[1..]))
  }

  predicate SomeUp(actions: seq<Action>) { actions != [] && (actions[0].Up? || SomeUp(actions[1..])) }

  lemma {:induction false} WaiterIsServed(s: State, during: seq<Action>)
    requires s.second != Unloaded && Playable(s, during) && LoadGoesOn(during)
    ensures Play(s, during).second == if s.second == Holding || SomeUp(during) then Holding else Waiting
    decreases |during|
  {
    if during != [] {
      WaiterIsServed(Apply(s, during[0]), during[1..]);
    }
  }

  /** The second module's load, while it goes on, has the semaphore exactly if it found one available or some open has
      called `up` since; otherwise it is waiting still. */
  lemma LoadHoldsExactlyWhenServed(s: State, during: seq<Action>)
    requires Enabled(s, Load) && Playable(Apply(s, Load), during) && LoadGoesOn(during)
    ensures var end := Play(Apply(s, Load), during);
            && (end.second == Holding <==> s.count > 0 || SomeUp(during))
            && (end.second == Waiting <==> s.count == 0 && !SomeUp(during))
  {
    WaiterIsServed(Apply(s, Load), during);
  }

  lemma {:induction false} SomeUpAppend(during: seq<Action>, i: nat)
    requires LoadGoesOn(during)
    ensures LoadGoesOn(during + [Up(i)]) && SomeUp(during + [Up(i)])
  {
    if during == [] {
      assert during + [Up(i)] == [Up(i)];
    } else {
      assert (during + [Up(i)])[1..] == during[1..] + [Up(i)];
      SomeUpAppend(during[1..], i);
    }
  }

  /** The next `up` of an open serves a waiting load. */
  lemma UpServesLoad(s: State, during: seq<Action>, i: nat)
    requires Enabled(s, Load) && LoadGoesOn(during) && Playable(Apply(s, Load), during + [Up(i)])
    ensures Play(Apply(s, Load), during + [Up(i)]).second == Holding
  {
    SomeUpAppend(during, i);
    LoadHoldsExactlyWhenServed(s, during + [Up(i)]);
  }

  /** A load interrupted while it waits leaves nothing behind: the semaphore is as unavailable as before, and the
      module can be loaded again. */
  lemma InterruptedLoadLeavesNothing(s: State)
    requires Ledger(s) && Enabled(s, Load) && s.count == 0
    ensures Enabled(Apply(s, Load), Signal) && Apply(Apply(s, Load), Signal) == s
  {
  }

  // ---- Opens in flight

  /** An open begins only while fewer than k others are under way. */
  predicate AtMost(s: State, actions: seq<Action>, k: nat)
    requires Playable(s, actions)
    decreases |actions|
  {
    actions == [] || ((actions[0] == Enter ==> Busy(s) < k) && AtMost(Apply(s, actions[0]), actions[1..], k))
  }

  /** How many refusals k opens in flight allow. */
  function Bound(k: nat): nat { if k == 0 then 0 else k + 1 }

  function Refusals(s: State): nat { Number(s, Refused) + Number(s, LeftRefused) }

  ghost predicate Saturated(s: State, k: nat) {
    Ledger(s) && Busy(s) <= k && Refusals(s) <= Bound(k)
  }

  lemma StepKeepsSaturated(s: State, a: Action, k: nat)
    requires Saturated(s, k) && Enabled(s, a) && (a == Enter ==> Busy(s) < k)
    ensures Saturated(Apply(s, a), k)
  {
    hide Number;
    assert Ledger(Apply(s, a)) by { StepKeepsLedger(s, a); }
    StepCounts(s, a);
    if a.Try? && s.count == 0 {
      assert Number(s, Entered) >= 1 && k >= 1;
      assert Number(s, LeftRefused) <= Number(s, Taken) + 1;
    }
  }

  lemma {:induction false} RunSaturates(s: State, actions: seq<Action>, k: nat)
    requires Saturated(s, k) && Playable(s, actions) && AtMost(s, actions, k)
    ensures Saturated(Play(s, actions), k)
    decreases |actions|
  {
    if actions != [] {
      var a := actions[0];
      assert Saturated(Apply(s, a), k) by { StepKeepsSaturated(s, a, k); }
      RunSaturates(Apply(s, a), actions[1..], k);
    }
  }

  lemma SaturatedBounds(s: State, k: nat)
    requires Saturated(s, k)
    ensures Number(s, Taken) <= k && Refusals(s) <= Bound(k) && (s.loaded ==> s.count <= Bound(k))
  {
  }

  /** With at most k opens in flight at most k hold the semaphore, and only k + 1 are ever refused, none if k is 0. */
  lemma RefusalsAreBounded(actions: seq<Action>, k: nat)
    requires Playable(START, actions) && AtMost(START, actions, k)
    ensures var s := Play(START, actions);
            Number(s, Taken) <= k && Refusals(s) <= Bound(k) && (s.loaded ==> s.count <= Bound(k))
  {
    assert Saturated(Play(START, actions), k) by {
      StartLedger();
      RunSaturates(START, actions, k);
    }
    SaturatedBounds(Play(START, actions), k);
  }

  /** If opens do not overlap, at most two are ever refused. */
  lemma AtMostTwoRefusals(actions: seq<Action>)
    requires Playable(START, actions) && AtMost(START, actions, 1)
    ensures var s := Play(START, actions);
            Refusals(s) <= 2 && (s.loaded ==> s.count <= 2)
  {
    RefusalsAreBounded(actions, 1);
  }

  // ---- The bounds are reached

  /** A run from the start with at most k opens in flight. */
  ghost predicate Run(actions: seq<Action>, k: nat, end: State) {
    Playable(START, actions) && AtMost(START, actions, k) && Play(START, actions) == end
  }

  lemma {:induction false} OneMore(s: State, actions: seq<Action>, a: Action, k: nat)
    requires Playable(s, actions) && AtMost(s, actions, k)
    requires Enabled(Play(s, actions), a) && (a == Enter ==> Busy(Play(s, actions)) < k)
    ensures Playable(s, actions + [a]) && AtMost(s, actions + [a], k)
    ensures Play(s, actions + [a]) == Apply(Play(s, actions), a)
    decreases |actions|
  {
    if actions == [] {
      assert actions + [a] == [a] && [a][1..] == [];
    } else {
      assert (actions + [a])[1..] == actions[1..] + [a];
      OneMore(Apply(s, actions[0]), actions[1..], a, k);
    }
  }

  function Copies(n: nat, o: Open): seq<Open> { seq(n, _ => o) }

  lemma {:induction false} CopiesCount(n: nat, o: Open)
    ensures multiset(Copies(n, o)) == multiset{}[o := n]
  {
    if n > 0 {
      CopiesCount(n - 1, o);
      assert Copies(n, o) == Copies(n - 1, o) + [o];
    }
  }

  lemma CountTwo(s: State, n: nat, m: nat, o: Open, p: Open)
    requires s.opens == Copies(n, o) + Copies(m, p)
    ensures forall x :: Number(s, x) == (if x == o then n else 0) + if x == p then m else 0
  {
    CopiesCount(n, o);
    CopiesCount(m, p);
  }

  /** One more open enters and tries. */
  lemma EnterAndTry(actions: seq<Action>, k: nat, s: State) returns (more: seq<Action>)
    requires Run(actions, k, s) && s.loaded && Busy(s) < k
    ensures var o := if s.count > 0 then Taken else Refused;
            Run(more, k, State(true, if s.count > 0 then s.count - 1 else 0, s.opens + [o], s.second))
  {
    var i, entered := |s.opens|, s.opens + [Entered];
    OneMore(START, actions, Enter, k);
    OneMore(START, actions + [Enter], Try(i), k);
    assert entered[i := Taken] == s.opens + [Taken] && entered[i := Refused] == s.opens + [Refused];
    more := actions + [Enter] + [Try(i)];
  }

  lemma {:induction false} RefuseMany(n: nat, k: nat) returns (actions: seq<Action>)
    requires n <= k
    ensures Run(actions, k, State(true, 0, Copies(n, Refused), Unloaded))
  {
    if n == 0 { return []; }
    var before := RefuseMany(n - 1, k);
    var s := State(true, 0, Copies(n - 1, Refused), Unloaded);
    CountTwo(s, n - 1, 0, Refused, Taken);
    actions := EnterAndTry(before, k, s);
    assert Copies(n - 1, Refused) + [Refused] == Copies(n, Refused);
  }

  lemma {:induction false} RaiseMany(n: nat, j: nat) returns (actions: seq<Action>)
    requires j <= n
    ensures Run(actions, n, State(true, j, Copies(j, LeftRefused) + Copies(n - j, Refused), Unloaded))
  {
    if j == 0 {
      actions := RefuseMany(n, n);
      assert Copies(0, LeftRefused) + Copies(n, Refused) == Copies(n, Refused);
      return;
    }
    var before := RaiseMany(n, j - 1);
    var opens := Copies(j - 1, LeftRefused) + Copies(n - (j - 1), Refused);
    OneMore(START, before, Up(j - 1), n);
    assert opens[j - 1 := LeftRefused] == Copies(j, LeftRefused) + Copies(n - j, Refused);
    actions := before + [Up(j - 1)];
  }

  /** With n refused opens past their `up`, and perhaps the second module loaded, j more opens take the semaphore. */
  lemma {:induction false} TakeMany(n: nat, j: nat, second: bool) returns (actions: seq<Action>)
    requires j + (if second then 1 else 0) <= n
    ensures Run(actions, n, State(true, n - j - (if second then 1 else 0), Copies(n, LeftRefused) + Copies(j, Taken),
                                  if second then Holding else Unloaded))
  {
    if j == 0 {
      actions := RaiseMany(n, n);
      assert Copies(n, LeftRefused) + Copies(0, Refused) == Copies(n, LeftRefused) + Copies(0, Taken);
      if second {
        OneMore(START, actions, Load, n);
        actions := actions + [Load];
      }
      return;
    }
    var before := TakeMany(n, j - 1, second);
    var opens, used := Copies(n, LeftRefused) + Copies(j - 1, Taken), j - 1 + (if second then 1 else 0);
    var s := State(true, n - used, opens, if second then Holding else Unloaded);
    CountTwo(s, n, j - 1, LeftRefused, Taken);
    actions := EnterAndTry(before, n, s);
    assert opens + [Taken] == Copies(n, LeftRefused) + Copies(j, Taken);
  }

  lemma HoldersReachBound(k: nat) returns (actions: seq<Action>)
    ensures Playable(START, actions) && AtMost(START, actions, k) && Number(Play(START, actions), Taken) == k
  {
    actions := TakeMany(k, k, false);
    CountTwo(Play(START, actions), k, k, LeftRefused, Taken);
  }

  lemma RefusalsReachBound(k: nat) returns (actions: seq<Action>)
    ensures Playable(START, actions) && AtMost(START, actions, k) && Refusals(Play(START, actions)) == Bound(k)
  {
    if k == 0 {
      actions := TakeMany(0, 0, false);
      CountTwo(Play(START, actions), 0, 0, LeftRefused, Taken);
      return;
    }
    var before := TakeMany(k, k - 1, true);
    var s := State(true, 0, Copies(k, LeftRefused) + Copies(k - 1, Taken), Holding);
    CountTwo(s, k, k - 1, LeftRefused, Taken);
    actions := EnterAndTry(before, k, s);
    var end := Play(START, actions);
    assert end.opens == s.opens + [Refused] && multiset(end.opens) == multiset(s.opens) + multiset{Refused};
    assert Number(s, LeftRefused) == k && Number(s, Refused) == 0;
    assert Number(end, LeftRefused) == k && Number(end, Refused) == 1;
  }

  /** How many opens the semaphore lets in at once: as many as are in flight, and no fewer will do for a bound.
      With m = 1: it excludes exactly when opens come one at a time. */
  lemma HoldersBoundIsExact(k: nat, m: nat)
    ensures (forall actions :: Playable(START, actions) && AtMost(START, actions, k) ==>
               Number(Play(START, actions), Taken) <= m)
            <==> k <= m
  {
    var worst := HoldersReachBound(k);
    forall actions | Playable(START, actions) && AtMost(START, actions, k)
      ensures Number(Play(START, actions), Taken) <= k
    {
      RefusalsAreBounded(actions, k);
    }
  }

  lemma ExcludesExactlyOneAtATime(k: nat)
    ensures (forall actions :: Playable(START, actions) && AtMost(START, actions, k) ==>
               Number(Play(START, actions), Taken) <= 1)
            <==> k <= 1
  {
    HoldersBoundIsExact(k, 1);
  }

  /** The bound on refusals is exact too. */
  lemma RefusalBoundIsExact(k: nat, m: nat)
    ensures (forall actions :: Playable(START, actions) && AtMost(START, actions, k) ==>
               Refusals(Play(START, actions)) <= m)
            <==> Bound(k) <= m
  {
    var worst := RefusalsReachBound(k);
    forall actions | Playable(START, actions) && AtMost(START, actions, k)
      ensures Refusals(Play(START, actions)) <= Bound(k)
    {
      RefusalsAreBounded(actions, k);
    }
  }

  /** Without a limit on the opens in flight the semaphore excludes nobody. */
  lemma NoMutualExclusion(n: nat)
    ensures exists actions :: Playable(START, actions) && Number(Play(START, actions), Taken) == n
  {
    var actions := HoldersReachBound(n);
  }
}
