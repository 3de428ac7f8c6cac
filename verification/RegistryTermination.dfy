/** Every interleaving of registrations and finalizations ends.

  A finalizer restarts its scan whenever anyone has registered more.  What makes it end
  all the same is that a restart follows a call, and a call uses up an entry for good. */
module AtexitTermination {
  import opened AtexitRegistry
  import opened AtexitInterleavings

  // ---------------------------------------------------------------------------
  // Sums over activities
  // ---------------------------------------------------------------------------

  /** The weights of the activities below `m`. */
  function Sum(acts: map<Activity, Pc>, m: nat, weight: Pc -> nat): nat {
    if m == 0 then 0
    else Sum(acts, m - 1, weight) + if m - 1 in acts then weight(acts[m - 1]) else 0
  }

  function WeightAt(acts: map<Activity, Pc>, a: Activity, weight: Pc -> nat): nat {
    if a in acts then weight(acts[a]) else 0
  }

  lemma {:induction false} SumElsewhere(acts: map<Activity, Pc>, m: nat, weight: Pc -> nat, a: Activity, pc: Pc)
    requires m <= a
    ensures Sum(acts[a := pc], m, weight) == Sum(acts, m, weight)
    decreases m
  {
    if m > 0 {
      SumElsewhere(acts, m - 1, weight, a, pc);
    }
  }

  lemma {:induction false} SumUpdate(acts: map<Activity, Pc>, m: nat, weight: Pc -> nat, a: Activity, pc: Pc)
    requires a < m
    ensures Sum(acts[a := pc], m, weight) + WeightAt(acts, a, weight) == Sum(acts, m, weight) + weight(pc)
    decreases m
  {
    if a == m - 1 {
      SumElsewhere(acts, m - 1, weight, a, pc);
    } else {
      SumUpdate(acts, m - 1, weight, a, pc);
    }
  }

  lemma {:induction false} SumOfNone(acts: map<Activity, Pc>, m: nat, weight: Pc -> nat)
    requires acts == map[]
    ensures Sum(acts, m, weight) == 0
    decreases m
  {
    if m > 0 {
      SumOfNone(acts, m - 1, weight);
    }
  }

  // ---------------------------------------------------------------------------
  // The measure
  // ---------------------------------------------------------------------------

  predicate Registers(pc: Pc) {
    pc.RegStart? || pc.RegLocked? || pc.RegCounted? || pc.RegRoom? || pc.RegDone?
  }

  /** The steps that an activity may take before it makes a call, if there never are more
      than `n` entries. */
  function Rank(pc: Pc, n: nat): nat {
    match pc
    case RegStart(_) => 4
    case RegLocked(_) => 3
    case RegCounted(_) => 2
    case RegRoom(_) => 1
    case RegDone => 0
    case FinStart => n + 3
    case FinRestart => n + 2
    case FinScan(_, i) => i + 2
    case FinCalling(_, _, _) => n + 5
    case FinReturned(_, _) => n + 4
    case FinCheck(_, _) => n + 3
    case FinRelease => 1
    case FinDone => 0
  }

  function Ranks(n: nat): Pc -> nat {
    pc => Rank(pc, n)
  }

  /** The entries below `n` whose calls have not begun. */
  function Unbegun(begun: seq<nat>, n: nat): nat {
    if n == 0 then 0 else Unbegun(begun, n - 1) + if n - 1 in begun then 0 else 1
  }

  lemma {:induction false} UnbegunAfter(begun: seq<nat>, i: nat, n: nat)
    requires i !in begun
    ensures Unbegun(begun + [i], n) == Unbegun(begun, n) - if i < n then 1 else 0
    decreases n
  {
    if n > 0 {
      UnbegunAfter(begun, i, n - 1);
    }
  }

  lemma {:induction false} UnbegunAtFirst(n: nat)
    ensures Unbegun([], n) == n
    decreases n
  {
    if n > 0 {
      UnbegunAtFirst(n - 1);
    }
  }

  function Times(a: nat, b: nat): nat {
    if a == 0 then 0 else Times(a - 1, b) + b
  }

  lemma {:induction false} TimesIsProduct(a: nat, b: nat)
    ensures Times(a, b) == a * b
    decreases a
  {
    if a > 0 {
      TimesIsProduct(a - 1, b);
    }
  }

  function Potential(s: State, m: nat, n: nat): nat {
    Sum(s.acts, m, Ranks(n)) + Times(Unbegun(s.begun, n), n + 5)
  }

  /** A step moves one activity on, within the same function. */
  lemma {:induction false} StepMovesOne(s: State, s': State, a: Activity)
    requires Step(s, s', a)
    ensures a in s.acts && a in s'.acts && s'.acts == s.acts[a := s'.acts[a]]
    ensures Registers(s'.acts[a]) <==> Registers(s.acts[a])
    ensures |s.log| <= |s'.log|
  {
  }

  /** It lowers the rank, or begins a call. */
  lemma {:induction false} StepLowersRank(s: State, s': State, a: Activity, n: nat)
    requires Inv(s) && Step(s, s', a) && |s.log| <= n
    ensures a in s.acts && a in s'.acts
    ensures if s'.begun == s.begun then Rank(s'.acts[a], n) < Rank(s.acts[a], n)
            else
              exists i :: 0 <= i < n && i !in s.begun && s'.begun == s.begun + [i]
                          && Rank(s'.acts[a], n) == n + 5 && Rank(s.acts[a], n) > 0
  {
    hide CallsTracked, AllBegun;
    var pc := s.acts[a];
    assert Position(pc, s.begun, |s.log|);
    if pc.FinScan? && s.slots[pc.i].fn.Fn? {
      assert pc.i !in s.begun;
      assert s'.begun == s.begun + [pc.i];
    }
  }

  lemma {:induction false} RankSumUpdate(acts: map<Activity, Pc>, m: nat, n: nat, a: Activity, pc: Pc)
    requires a < m
    ensures Sum(acts[a := pc], m, Ranks(n)) + (if a in acts then Rank(acts[a], n) else 0) ==
            Sum(acts, m, Ranks(n)) + Rank(pc, n)
  {
    hide Sum, Rank;
    SumUpdate(acts, m, Ranks(n), a, pc);
  }

  lemma {:induction false} StepLowersPotential(s: State, s': State, a: Activity, m: nat, n: nat)
    requires Inv(s) && Step(s, s', a) && |s.log| <= n && a < m
    ensures Potential(s', m, n) < Potential(s, m, n)
  {
    hide Inv, Step, Rank, Sum, Unbegun, Ranks;
    StepLowersRank(s, s', a, n);
    StepMovesOne(s, s', a);
    RankSumUpdate(s.acts, m, n, a, s'.acts[a]);
    if s'.begun != s.begun {
      var i :| 0 <= i < n && i !in s.begun && s'.begun == s.begun + [i]
               && Rank(s'.acts[a], n) == n + 5 && Rank(s.acts[a], n) > 0;
      UnbegunAfter(s.begun, i, n);
    }
  }

  // ---------------------------------------------------------------------------
  // Every run
  // ---------------------------------------------------------------------------

  /** The steps that an activity brings with it, its beginning included. */
  function Budget(pc: Pc, n: nat): nat {
    if Registers(pc) then 5 else n + 4
  }

  function Budgets(n: nat): Pc -> nat {
    pc => Budget(pc, n)
  }

  const REGISTERING: Pc -> nat := (pc: Pc) => if Registers(pc) then 1 else 0
  const FINALIZING: Pc -> nat := (pc: Pc) => if Registers(pc) then 0 else 1
  const STORED: Pc -> nat := (pc: Pc) => if pc.RegDone? then 1 else 0

  /** The registrations and the finalizations that have begun, in activities below `m`. */
  function Registrations(s: State, m: nat): nat {
    Sum(s.acts, m, REGISTERING)
  }

  function Finalizations(s: State, m: nat): nat {
    Sum(s.acts, m, FINALIZING)
  }

  lemma {:induction false} BudgetOfAll(acts: map<Activity, Pc>, m: nat, n: nat)
    ensures Sum(acts, m, Budgets(n)) == 5 * Sum(acts, m, REGISTERING) + (n + 4) * Sum(acts, m, FINALIZING)
    decreases m
  {
    if m > 0 {
      BudgetOfAll(acts, m - 1, n);
    }
  }

  lemma {:induction false} StoredByRegistrations(acts: map<Activity, Pc>, m: nat)
    ensures Sum(acts, m, STORED) <= Sum(acts, m, REGISTERING)
    decreases m
  {
    if m > 0 {
      StoredByRegistrations(acts, m - 1);
    }
  }

  /** Each finished registration has stored one entry. */
  lemma {:induction false} StepCountsEntries(s: State, s': State, a: Activity)
    requires Step(s, s', a)
    ensures a in s.acts && a in s'.acts
    ensures |s'.log| - |s.log| == STORED(s'.acts[a]) - STORED(s.acts[a])
  {
  }

  ghost predicate AllBelow(acts: map<Activity, Pc>, m: nat) {
    forall a :: a in acts ==> a < m
  }

  lemma {:induction false} BelowBefore(acts: map<Activity, Pc>, a: Activity, pc: Pc, m: nat)
    requires AllBelow(acts[a := pc], m)
    ensures a < m && AllBelow(acts, m)
  {
    assert a in acts[a := pc];
    assert forall b :: b in acts ==> b in acts[a := pc];
  }

  lemma {:induction false} EntriesCounted(states: seq<State>, at: nat, m: nat)
    requires Run(states) && at < |states| && AllBelow(states[at].acts, m)
    ensures |states[at].log| == Sum(states[at].acts, m, STORED)
    decreases at
  {
    hide Step, Begin, Sum, Inv;
    if at == 0 {
      SumOfNone(states[0].acts, m, STORED);
    } else {
      var s, s' := states[at - 1], states[at];
      RunKeepsInv(states, at - 1);
      var a, pc, begins := LastStep(states, at);
      BelowBefore(s.acts, a, pc, m);
      EntriesCounted(states, at - 1, m);
      SumUpdate(s.acts, m, STORED, a, pc);
    }
  }

  /** The step that leads to a state: activity `a` begins, or goes on, at `pc`. */
  lemma {:induction false} LastStep(states: seq<State>, at: nat) returns (a: Activity, pc: Pc, begins: bool)
    requires Run(states) && 0 < at < |states|
    ensures states[at].acts == states[at - 1].acts[a := pc]
    ensures if begins then Begin(states[at - 1], states[at], a, pc)
            else Step(states[at - 1], states[at], a) && a in states[at - 1].acts
    ensures |states[at].log| - |states[at - 1].log| ==
            if begins then 0 else STORED(pc) - STORED(states[at - 1].acts[a])
    ensures begins ==> STORED(pc) == 0
  {
    var s, s' := states[at - 1], states[at];
    RunKeepsInv(states, at - 1);
    assert Next(states[at - 1], states[at - 1 + 1]);
    if b, q :| Begin(s, s', b, q) {
      a, pc, begins := b, q, true;
    } else {
      var b :| Step(s, s', b);
      StepCountsEntries(s, s', b);
      StepMovesOne(s, s', b);
      a, pc, begins := b, s'.acts[b], false;
    }
  }

  lemma {:induction false} BeginKeepsBudget(s: State, s': State, a: Activity, pc: Pc, m: nat, n: nat)
    requires Begin(s, s', a, pc) && a < m
    ensures Potential(s', m, n) - Potential(s, m, n) + 1 ==
            Sum(s'.acts, m, Budgets(n)) - Sum(s.acts, m, Budgets(n))
  {
    hide Sum, Times, Unbegun;
    RankSumUpdate(s.acts, m, n, a, pc);
    SumUpdate(s.acts, m, Budgets(n), a, pc);
  }

  lemma {:induction false} StepKeepsBudgets(s: State, s': State, a: Activity, m: nat, n: nat)
    requires Step(s, s', a) && a < m
    ensures Sum(s'.acts, m, Budgets(n)) == Sum(s.acts, m, Budgets(n))
  {
    hide Step, Sum;
    StepMovesOne(s, s', a);
    SumUpdate(s.acts, m, Budgets(n), a, s'.acts[a]);
  }

  /** At each point of a run, the steps taken and those still possible are paid for by the
      entries and by the activities that have begun. */
  lemma {:induction false} StepsArePaidFor(states: seq<State>, at: nat, m: nat, n: nat)
    requires Run(states) && at < |states| && AllBelow(states[at].acts, m) && |states[at].log| <= n
    ensures at + Potential(states[at], m, n) <= Times(n, n + 5) + Sum(states[at].acts, m, Budgets(n))
    decreases at
  {
    hide Step, Begin, Sum, Inv, Potential;
    if at == 0 {
      PotentialAtFirst(states[0], m, n);
    } else {
      var s, s' := states[at - 1], states[at];
      RunKeepsInv(states, at - 1);
      var a, pc, begins := LastStep(states, at);
      BelowBefore(s.acts, a, pc, m);
      if begins {
        StepsArePaidFor(states, at - 1, m, n);
        BeginKeepsBudget(s, s', a, pc, m, n);
      } else {
        StepMovesOne(s, s', a);
        StepsArePaidFor(states, at - 1, m, n);
        StepLowersPotential(s, s', a, m, n);
        StepKeepsBudgets(s, s', a, m, n);
      }
    }
  }

  lemma {:induction false} PotentialAtFirst(s: State, m: nat, n: nat)
    requires Init(s)
    ensures Potential(s, m, n) == Times(n, n + 5)
  {
    hide Sum, Unbegun, Times;
    SumOfNone(s.acts, m, Ranks(n));
    UnbegunAtFirst(n);
  }

  /** No run is longer than the registrations and finalizations that begin in it allow,
      however they are interleaved: every finalizer comes to its end. */
  lemma {:induction false} RunsAreBounded(states: seq<State>, at: nat, m: nat)
    requires Run(states) && at < |states| && AllBelow(states[at].acts, m)
    ensures var r, f := Registrations(states[at], m), Finalizations(states[at], m);
            at <= r * (r + 10) + (r + 4) * f
  {
    hide Run, Sum, Potential, Times;
    var acts, r, f := states[at].acts, Registrations(states[at], m), Finalizations(states[at], m);
    EntriesCounted(states, at, m);
    StoredByRegistrations(acts, m);
    StepsArePaidFor(states, at, m, r);
    TimesIsProduct(r, r + 5);
    BudgetOfAll(acts, m, r);
    assert r * (r + 10) == r * (r + 5) + 5 * r;
  }

  predicate Ended(pc: Pc) {
    pc.RegDone? || pc.FinDone?
  }

  /** And no run gets stuck before that: until the array is released, some activity can go
      on as long as there is one that has not ended. */
  lemma {:induction false} SomeoneCanStep(states: seq<State>, at: nat, a: Activity) returns (b: Activity, s': State)
    requires Run(states) && at < |states| && states[at].releasedBy.Nobody?
    requires a in states[at].acts && !Ended(states[at].acts[a])
    ensures Step(states[at], s', b)
  {
    RunKeepsInv(states, at);
    var s := states[at];
    if s.lock.By? {
      b := s.lock.owner;
      s' := HolderCanStep(states, at, b);
    } else {
      b := a;
      assert !HoldsLock(s.acts[a]);
      match s.acts[a]
      case RegStart(e) => s' := At(s, a, RegLocked(e)).(lock := By(a));
      case FinStart => s' := At(s, a, FinRestart).(lock := By(a));
      case FinCalling(total, i, e) =>
        s' := At(s, a, FinReturned(total, i)).(ended := s.ended + [i], running := s.running - {i});
      case FinReturned(total, i) => s' := At(s, a, FinCheck(total, i)).(lock := By(a));
    }
  }
}
