/** `__cxa_atexit` and `__cxa_finalize` as steps of concurrent activities.

  An activity is one running invocation of either function, in any thread.  Any number
  of them may start at any time, also from inside a callback, so the runs below include
  every interleaving of finalizers with registering threads.  Only the lock orders them. */
module AtexitInterleavings {
  import opened AtexitRegistry

  type Activity = nat

  datatype Holder = Nobody | By(owner: Activity)

  /** Where an activity stands.  Registrations arrive with a function that is not null:
      the others return before they touch anything. */
  datatype Pc =
    | RegStart(e: Entry)                       // about to take the lock
    | RegLocked(e: Entry)                      // about to increment the count
    | RegCounted(e: Entry)                     // about to make room
    | RegRoom(e: Entry)                        // about to store the entry and unlock
    | RegDone
    | FinStart                                 // about to take the lock
    | FinRestart                               // at the label `restart`
    | FinScan(total: nat, i: nat)              // at the head of the scan
    | FinCalling(total: nat, i: nat, e: Entry) // unlocked, inside the callback
    | FinReturned(total: nat, i: nat)          // about to retake the lock
    | FinCheck(total: nat, i: nat)             // about to compare the count
    | FinRelease                               // about to release the array
    | FinDone

  /** The shared variables, the activities, and four histories: the entries stored so far
      (an entry is identified by its slot, which is never used again), the slots whose
      calls have begun and have ended, in order, and who is now inside which call. */
  datatype State = State(
    lock: Holder, count: nat, capacity: nat, slots: seq<Entry>, releasedBy: Holder,
    acts: map<Activity, Pc>,
    log: seq<Entry>, begun: seq<nat>, ended: seq<nat>, running: map<nat, Activity>)

  predicate Init(s: State) {
    s == State(Nobody, 0, INITIAL_CAPACITY, [], Nobody, map[], [], [], [], map[])
  }

  predicate HoldsLock(pc: Pc) {
    pc.RegLocked? || pc.RegCounted? || pc.RegRoom? ||
    pc.FinRestart? || pc.FinScan? || pc.FinCheck? || pc.FinRelease?
  }

  function At(s: State, a: Activity, pc: Pc): State {
    s.(acts := s.acts[a := pc])
  }

  predicate Begin(s: State, s': State, a: Activity, pc: Pc) {
    a !in s.acts && ((pc.RegStart? && pc.e.fn.Fn?) || pc.FinStart?) && s' == At(s, a, pc)
  }

  predicate Acquire(s: State, s': State, a: Activity, pc: Pc) {
    s.lock.Nobody? && s' == At(s, a, pc).(lock := By(a))
  }

  /** Room for the counted entry: allocation or doubling, as needed.  Fresh memory holds
      anything. */
  predicate MakeRoom(s: State, s': State, a: Activity, e: Entry) {
    var capacity' := if s.count > s.capacity then 2 * s.capacity else s.capacity;
    && s.releasedBy.Nobody?
    && |s'.slots| == capacity'
    && s.slots <= s'.slots
    && s' == At(s, a, RegRoom(e)).(capacity := capacity', slots := s'.slots)
  }

  predicate Store(s: State, s': State, a: Activity, e: Entry) {
    && s.releasedBy.Nobody?
    && 0 < s.count <= |s.slots|
    && s' == At(s, a, RegDone).(lock := Nobody, slots := s.slots[s.count - 1 := e], log := s.log + [e])
  }

  /** One turn of the scan: skip a tombstone, or clear the slot, unlock and call. */
  predicate Scan(s: State, s': State, a: Activity, total: nat, i: nat) {
    && s.releasedBy.Nobody?
    && i < |s.slots|
    && if s.slots[i].fn.Null? then
        s' == At(s, a, Below(total, i))
      else
        s' == At(s, a, FinCalling(total, i, s.slots[i]))
              .(lock := Nobody, slots := s.slots[i := CLEARED], begun := s.begun + [i], running := s.running[i := a])
  }

  function Below(total: nat, i: nat): Pc {
    if i == 0 then FinRelease else FinScan(total, i - 1)
  }

  predicate Step(s: State, s': State, a: Activity) {
    a in s.acts &&
    match s.acts[a]
    case RegStart(e) => Acquire(s, s', a, RegLocked(e))
    case RegLocked(e) => s' == At(s, a, RegCounted(e)).(count := s.count + 1)
    case RegCounted(e) => MakeRoom(s, s', a, e)
    case RegRoom(e) => Store(s, s', a, e)
    case RegDone => false
    case FinStart => Acquire(s, s', a, FinRestart)
    case FinRestart =>
      if s.count > 0 then s' == At(s, a, FinScan(s.count, s.count - 1))
      else s' == At(s, a, FinDone).(lock := Nobody)
    case FinScan(total, i) => Scan(s, s', a, total, i)
    case FinCalling(total, i, e) =>
      s' == At(s, a, FinReturned(total, i)).(ended := s.ended + [i], running := s.running - {i})
    case FinReturned(total, i) => Acquire(s, s', a, FinCheck(total, i))
    case FinCheck(total, i) => s' == At(s, a, if s.count != total then FinRestart else Below(total, i))
    case FinRelease => s.releasedBy.Nobody? && s' == At(s, a, FinDone).(lock := Nobody, releasedBy := By(a))
    case FinDone => false
  }

  ghost predicate Next(s: State, s': State) {
    (exists a, pc :: Begin(s, s', a, pc)) || (exists a :: Step(s, s', a))
  }

  ghost predicate Run(states: seq<State>) {
    && |states| > 0
    && Init(states[0])
    && forall k :: 0 <= k < |states| - 1 ==> Next(states[k], states[k + 1])
  }

  // ---------------------------------------------------------------------------
  // What every step keeps
  // ---------------------------------------------------------------------------

  ghost predicate Distinct(xs: seq<nat>) {
    forall j, k :: 0 <= j < k < |xs| ==> xs[j] != xs[k]
  }

  ghost predicate AllBegun(begun: seq<nat>, from: nat, n: nat) {
    forall k :: from <= k < n ==> k in begun
  }

  predicate Carries(pc: Pc) {
    pc.RegStart? || pc.RegLocked? || pc.RegCounted? || pc.RegRoom?
  }

  /** The lock is held by the one activity whose position says so. */
  ghost predicate MutualExclusion(s: State) {
    && (s.lock.By? ==> s.lock.owner in s.acts)
    && forall a :: a in s.acts ==> (HoldsLock(s.acts[a]) <==> s.lock == By(a))
  }

  predicate Registering(s: State) {
    s.lock.By? && s.lock.owner in s.acts
    && (s.acts[s.lock.owner].RegCounted? || s.acts[s.lock.owner].RegRoom?)
  }

  /** The count is ahead of the stored entries only inside a registration, and every
      stored entry has its slot in the array. */
  ghost predicate Sizes(s: State) {
    && s.count == |s.log| + (if Registering(s) then 1 else 0)
    && 0 < s.capacity
    && (s.slots == [] || |s.slots| == s.capacity)
    && |s.log| <= |s.slots|
    && (forall a :: a in s.acts && s.acts[a].RegRoom? ==> s.count <= |s.slots|)
  }

  /** A slot holds its entry until the call begins and a tombstone from then on. */
  ghost predicate SlotsMatch(s: State) {
    && (forall k :: 0 <= k < |s.log| ==> s.log[k].fn.Fn?)
    && (forall k :: 0 <= k < |s.log| && k < |s.slots| ==>
         s.slots[k] == if k in s.begun then CLEARED else s.log[k])
    && (forall a :: a in s.acts && Carries(s.acts[a]) ==> s.acts[a].e.fn.Fn?)
  }

  /** Calls begin once and end once, and the running ones are those between the two. */
  ghost predicate Histories(begun: seq<nat>, ended: seq<nat>, running: map<nat, Activity>, n: nat) {
    && Distinct(begun) && Distinct(ended)
    && (forall k :: k in begun ==> k < n)
    && (forall k :: k in begun <==> k in ended || k in running)
    && (forall k :: k in ended ==> k !in running)
  }

  /** A running call has exactly one activity inside it. */
  ghost predicate Callers(acts: map<Activity, Pc>, running: map<nat, Activity>, log: seq<Entry>) {
    && (forall k :: k in running ==>
         running[k] in acts && acts[running[k]].FinCalling? && acts[running[k]].i == k)
    && (forall a :: a in acts && acts[a].FinCalling? ==>
         && acts[a].i in running && running[acts[a].i] == a
         && acts[a].i < |log| && acts[a].e == log[acts[a].i])
  }

  ghost predicate CallsTracked(s: State) {
    && Histories(s.begun, s.ended, s.running, |s.log|)
    && Callers(s.acts, s.running, s.log)
  }

  /** What a finalizer at this point may rely on: the slots above its own are cleared,
      unless entries have been added since it noted the count. */
  ghost predicate Position(pc: Pc, begun: seq<nat>, n: nat) {
    match pc
    case FinScan(total, i) => i < total == n && AllBegun(begun, i + 1, n)
    case FinCalling(total, i, _) => i < total <= n && (n == total ==> AllBegun(begun, i, n))
    case FinReturned(total, i) => i < total <= n && (n == total ==> AllBegun(begun, i, n))
    case FinCheck(total, i) => i < total <= n && (n == total ==> AllBegun(begun, i, n))
    case FinRelease => AllBegun(begun, 0, n)
    case _ => true
  }

  ghost predicate Positions(s: State) {
    && (forall a :: a in s.acts ==> Position(s.acts[a], s.begun, |s.log|))
    && (s.releasedBy.By? ==>
         AllBegun(s.begun, 0, |s.log|) && s.releasedBy.owner in s.acts && s.acts[s.releasedBy.owner].FinDone?)
  }

  ghost predicate Inv(s: State) {
    MutualExclusion(s) && Sizes(s) && SlotsMatch(s) && CallsTracked(s) && Positions(s)
  }

  lemma {:induction false} StepKeepsExclusion(s: State, s': State, a: Activity)
    requires MutualExclusion(s) && Step(s, s', a)
    ensures MutualExclusion(s')
  {
  }

  lemma {:induction false} StepKeepsSizes(s: State, s': State, a: Activity)
    requires MutualExclusion(s) && Sizes(s) && Step(s, s', a)
    ensures Sizes(s')
  {
  }

  /** Storing an entry. */
  lemma {:induction false} StoreKeepsInv(s: State, s': State, a: Activity, e: Entry)
    requires Inv(s) && a in s.acts && s.acts[a] == RegRoom(e) && Store(s, s', a, e)
    ensures SlotsMatch(s') && CallsTracked(s') && Positions(s')
  {
  }

  /** Clearing a slot and entering its callback. */
  lemma {:induction false} CallKeepsSlots(s: State, s': State, a: Activity, total: nat, i: nat)
    requires Inv(s) && a in s.acts && s.acts[a] == FinScan(total, i) && Scan(s, s', a, total, i)
    requires s.slots[i].fn.Fn?
    ensures SlotsMatch(s')
  {
    assert s.slots[i] == s.log[i];
  }

  lemma {:induction false} HistoriesAtCall(begun: seq<nat>, ended: seq<nat>, running: map<nat, Activity>, n: nat,
                        i: nat, a: Activity)
    requires Histories(begun, ended, running, n) && i < n && i !in begun
    ensures Histories(begun + [i], ended, running[i := a], n)
  {
  }

  lemma {:induction false} HistoriesAtReturn(begun: seq<nat>, ended: seq<nat>, running: map<nat, Activity>,
                                             n: nat, i: nat)
    requires Histories(begun, ended, running, n) && i in running
    ensures Histories(begun, ended + [i], running - {i}, n)
  {
  }

  lemma {:induction false} CallersAtCall(acts: map<Activity, Pc>, running: map<nat, Activity>, log: seq<Entry>,
                      a: Activity, pc: Pc)
    requires Callers(acts, running, log) && a in acts && !acts[a].FinCalling?
    requires pc.FinCalling? && pc.i !in running && pc.i < |log| && pc.e == log[pc.i]
    ensures Callers(acts[a := pc], running[pc.i := a], log)
  {
  }

  lemma {:induction false} CallKeepsCalls(s: State, s': State, a: Activity, total: nat, i: nat)
    requires SlotsMatch(s) && CallsTracked(s) && Positions(s)
    requires a in s.acts && s.acts[a] == FinScan(total, i) && Scan(s, s', a, total, i)
    requires s.slots[i].fn.Fn?
    ensures CallsTracked(s')
  {
    assert i !in s.begun;
    HistoriesAtCall(s.begun, s.ended, s.running, |s.log|, i, a);
    CallersAtCall(s.acts, s.running, s.log, a, s'.acts[a]);
  }

  /** A callback that has returned. */
  lemma {:induction false} ReturnKeepsCalls(s: State, s': State, a: Activity)
    requires SlotsMatch(s) && CallsTracked(s) && a in s.acts && s.acts[a].FinCalling? && Step(s, s', a)
    ensures SlotsMatch(s') && CallsTracked(s')
  {
    HistoriesAtReturn(s.begun, s.ended, s.running, |s.log|, s.acts[a].i);
  }

  /** All other steps leave the entries and the calls alone. */
  predicate Quiet(s: State, s': State, a: Activity) {
    && a in s.acts && a in s'.acts
    && s'.acts == s.acts[a := s'.acts[a]]
    && !s.acts[a].FinCalling? && !s'.acts[a].FinCalling?
    && s.slots <= s'.slots
    && (s.log, s.begun, s.ended, s.running) == (s'.log, s'.begun, s'.ended, s'.running)
  }

  lemma {:induction false} OtherStepsAreQuiet(s: State, s': State, a: Activity)
    requires Step(s, s', a) && !s.acts[a].RegRoom? && !s.acts[a].FinCalling? && !s'.acts[a].FinCalling?
    ensures Quiet(s, s', a)
    ensures Carries(s'.acts[a]) ==> Carries(s.acts[a]) && s.acts[a].e == s'.acts[a].e
  {
  }

  lemma {:induction false} QuietKeepsInv(s: State, s': State, a: Activity)
    requires SlotsMatch(s) && CallsTracked(s) && |s.log| <= |s.slots| && Quiet(s, s', a)
    requires Carries(s'.acts[a]) ==> Carries(s.acts[a]) && s.acts[a].e == s'.acts[a].e
    ensures SlotsMatch(s') && CallsTracked(s')
  {
  }

  lemma {:induction false} PositionKept(pc: Pc, begun: seq<nat>, n: nat, i: nat)
    requires Position(pc, begun, n)
    ensures Position(pc, begun + [i], n)
    ensures AllBegun(begun, 0, n) ==> AllBegun(begun + [i], 0, n)
  {
    assert forall k :: k in begun ==> k in begun + [i];
  }

  /** A turn of the scan moves down over slots that are cleared or being cleared. */
  lemma {:induction false} ScanKeepsPositions(s: State, s': State, a: Activity, total: nat, i: nat)
    requires Inv(s) && a in s.acts && s.acts[a] == FinScan(total, i) && Scan(s, s', a, total, i)
    ensures Positions(s')
  {
    if s.slots[i].fn.Null? {
      assert i in s.begun;
    } else {
      assert s'.begun[|s.begun|] == i;
      forall b | b in s.acts
        ensures Position(s.acts[b], s'.begun, |s.log|)
      {
        PositionKept(s.acts[b], s.begun, |s.log|, i);
      }
    }
  }

  lemma {:induction false} StepKeepsPositions(s: State, s': State, a: Activity)
    requires MutualExclusion(s) && Sizes(s) && Positions(s)
    requires Step(s, s', a) && !s.acts[a].RegRoom? && !s.acts[a].FinScan?
    ensures Positions(s')
  {
  }

  lemma {:induction false} StepKeepsSlotsAndCalls(s: State, s': State, a: Activity)
    requires Inv(s) && Step(s, s', a) && !s.acts[a].RegRoom?
    ensures SlotsMatch(s') && CallsTracked(s')
  {
    var pc := s.acts[a];
    if pc.FinCalling? {
      ReturnKeepsCalls(s, s', a);
    } else if s'.acts[a].FinCalling? {
      CallKeepsSlots(s, s', a, pc.total, pc.i);
      CallKeepsCalls(s, s', a, pc.total, pc.i);
    } else {
      OtherStepsAreQuiet(s, s', a);
      QuietKeepsInv(s, s', a);
    }
  }

  lemma {:induction false} StepKeepsInv(s: State, s': State, a: Activity)
    requires Inv(s) && Step(s, s', a)
    ensures Inv(s')
  {
    StepKeepsExclusion(s, s', a);
    StepKeepsSizes(s, s', a);
    var pc := s.acts[a];
    if pc.RegRoom? {
      StoreKeepsInv(s, s', a, pc.e);
    } else {
      StepKeepsSlotsAndCalls(s, s', a);
      if pc.FinScan? {
        ScanKeepsPositions(s, s', a, pc.total, pc.i);
      } else {
        StepKeepsPositions(s, s', a);
      }
    }
  }

  lemma {:induction false} BeginKeepsInv(s: State, s': State, a: Activity, pc: Pc)
    requires Inv(s) && Begin(s, s', a, pc)
    ensures Inv(s')
  {
  }

  lemma {:induction false} RunKeepsInv(states: seq<State>, k: nat)
    requires Run(states) && k < |states|
    ensures Inv(states[k])
  {
    if k > 0 {
      RunKeepsInv(states, k - 1);
      var s, s' := states[k - 1], states[k];
      assert Next(states[k - 1], states[k - 1 + 1]);
      if a, pc :| Begin(s, s', a, pc) {
        BeginKeepsInv(s, s', a, pc);
      } else {
        var a :| Step(s, s', a);
        StepKeepsInv(s, s', a);
      }
    }
  }

  // ---------------------------------------------------------------------------
  // The results, for every run
  // ---------------------------------------------------------------------------

  ghost predicate IsLive(s: State, k: nat) {
    k < |s.slots| && s.slots[k].fn.Fn?
  }

  predicate InCall(s: State, a: Activity, k: nat) {
    a in s.acts && s.acts[a].FinCalling? && s.acts[a].i == k
  }

  ghost predicate InFlight(s: State, k: nat) {
    exists a :: InCall(s, a, k)
  }

  ghost predicate Finished(s: State, k: nat) {
    k in s.ended
  }

  lemma {:induction false} DistinctCounts(xs: seq<nat>, k: nat)
    requires Distinct(xs)
    ensures multiset(xs)[k] == if k in xs then 1 else 0
  {
    if xs != [] {
      var n := |xs| - 1;
      assert xs == xs[..n] + [xs[n]];
      DistinctCounts(xs[..n], k);
    }
  }

  /** Registered = finished + in flight + live: at every point of every run, each entry
      is in exactly one of the three, and its call has begun once if it is not live.  No
      two activities are inside the same call, and the one that is has the entry's own
      function and argument. */
  lemma {:induction false} EveryEntryAccountedFor(states: seq<State>, at: nat, k: nat)
    requires Run(states) && at < |states| && k < |states[at].log|
    ensures var s := states[at];
            && (IsLive(s, k) <==> !InFlight(s, k) && !Finished(s, k))
            && !(InFlight(s, k) && Finished(s, k))
            && (IsLive(s, k) ==> s.slots[k] == s.log[k])
            && multiset(s.begun)[k] == (if IsLive(s, k) then 0 else 1)
            && multiset(s.ended)[k] == (if Finished(s, k) then 1 else 0)
            && (forall a, b :: InCall(s, a, k) && InCall(s, b, k) ==> a == b)
            && (forall a :: InCall(s, a, k) ==> s.acts[a].e == s.log[k])
  {
    RunKeepsInv(states, at);
    var s := states[at];
    DistinctCounts(s.begun, k);
    DistinctCounts(s.ended, k);
    if k in s.running {
      assert InCall(s, s.running[k], k);
    }
  }

  /** Last in, first out: a call that begins is for the newest entry that is still live. */
  lemma {:induction false} CallsNewestFirst(states: seq<State>, at: nat, newer: nat)
    requires Run(states) && at + 1 < |states|
    requires |states[at + 1].begun| > |states[at].begun|
    ensures var called := states[at + 1].begun[|states[at].begun|];
            && called < |states[at].log|
            && IsLive(states[at], called)
            && !IsLive(states[at + 1], called)
            && (called < newer < |states[at].log| ==> !IsLive(states[at], newer))
  {
    RunKeepsInv(states, at);
    var s, s' := states[at], states[at + 1];
    assert Next(s, s');
    var a :| Step(s, s', a);
    assert s.acts[a].FinScan?;
    assert Position(s.acts[a], s.begun, |s.log|);
  }

  /** When the array is released no entry is left: every registration ever stored has
      been called, and called once. */
  lemma {:induction false} ReleaseMeansDrained(states: seq<State>, at: nat, k: nat)
    requires Run(states) && at < |states| && states[at].releasedBy.By?
    ensures k < |states[at].log| ==> !IsLive(states[at], k)
    ensures multiset(states[at].begun)[k] == if k < |states[at].log| then 1 else 0
  {
    RunKeepsInv(states, at);
    DistinctCounts(states[at].begun, k);
  }

  /** Neither done nor registering. */
  predicate Underway(s: State, a: Activity) {
    IsFinalizer(s, a) && !s.acts[a].FinDone?
  }

  /** A finalizer at work, with entries stored, goes on or releases the array. */
  lemma {:induction false} WorkGoesOn(s: State, s': State, a: Activity)
    requires Inv(s) && Next(s, s') && Underway(s, a) && |s.log| > 0
    ensures |s'.log| >= |s.log| && (Underway(s', a) || s'.releasedBy.By?)
  {
    hide CallsTracked, Positions, SlotsMatch;
    if b, pc :| Begin(s, s', b, pc) {
      assert b != a;
    } else {
      var b :| Step(s, s', b);
    }
  }

  lemma {:induction false} ReleaseIsFinal(s: State, s': State)
    requires Next(s, s') && s.releasedBy.By?
    ensures s'.releasedBy.By?
  {
    if b, pc :| Begin(s, s', b, pc) {
    } else {
      var b :| Step(s, s', b);
    }
  }

  lemma {:induction false} FinalizerWorksOrReleased(states: seq<State>, i: nat, at: nat, a: Activity)
    requires Run(states) && i <= at < |states|
    requires Underway(states[i], a) && |states[i].log| > 0
    ensures |states[at].log| > 0 || states[at].releasedBy.By?
    ensures Underway(states[at], a) || states[at].releasedBy.By?
    decreases at
  {
    hide Next, Underway, Inv;
    if i < at {
      FinalizerWorksOrReleased(states, i, at - 1, a);
      assert Next(states[at - 1], states[at - 1 + 1]);
      RunKeepsInv(states, at - 1);
      if states[at - 1].releasedBy.By? {
        ReleaseIsFinal(states[at - 1], states[at]);
      } else {
        WorkGoesOn(states[at - 1], states[at], a);
      }
    }
  }

  /** A finalizer finalizes: if there was an entry when it started, then once it has ended
      the array has been released, and every entry stored by then has been called once. */
  lemma {:induction false} EndedFinalizerHasDrained(states: seq<State>, i: nat, at: nat, a: Activity, k: nat)
    requires Run(states) && i <= at < |states| && |states[i].log| > 0
    requires a in states[i].acts && states[i].acts[a].FinStart?
    requires a in states[at].acts && states[at].acts[a].FinDone?
    ensures states[at].releasedBy.By?
    ensures multiset(states[at].begun)[k] == if k < |states[at].log| then 1 else 0
  {
    hide Run;
    FinalizerWorksOrReleased(states, i, at, a);
    ReleaseMeansDrained(states, at, k);
  }

  /** A finalizer restarts its scan only if entries have been added since it noted the
      count, and otherwise goes on below the slot of the call. */
  lemma {:induction false} RestartMeansGrowth(states: seq<State>, at: nat, a: Activity)
    requires Run(states) && at + 1 < |states| && a in states[at].acts && states[at].acts[a].FinCheck?
    requires a in states[at + 1].acts && states[at + 1].acts[a] != states[at].acts[a]
    ensures var pc, pc' := states[at].acts[a], states[at + 1].acts[a];
            if |states[at].log| > pc.total then pc'.FinRestart?
            else if pc.i > 0 then pc' == FinScan(pc.total, pc.i - 1) else pc'.FinRelease?
  {
    RunKeepsInv(states, at);
    var s, s' := states[at], states[at + 1];
    assert Next(s, s');
    assert Position(s.acts[a], s.begun, |s.log|);
    if b, pc :| Begin(s, s', b, pc) {
    } else {
      var b :| Step(s, s', b);
    }
  }

  predicate IsFinalizer(s: State, a: Activity) {
    a in s.acts &&
    var pc := s.acts[a];
    pc.FinStart? || pc.FinRestart? || pc.FinScan? || pc.FinCalling? ||
    pc.FinReturned? || pc.FinCheck? || pc.FinRelease? || pc.FinDone?
  }

  /** With a single finalizer all those calls have also returned by then. */
  lemma {:induction false} SingleFinalizerCompletes(states: seq<State>, at: nat, k: nat)
    requires Run(states) && at < |states| && states[at].releasedBy.By?
    requires forall a, b :: IsFinalizer(states[at], a) && IsFinalizer(states[at], b) ==> a == b
    ensures multiset(states[at].ended)[k] == if k < |states[at].log| then 1 else 0
  {
    RunKeepsInv(states, at);
    var s := states[at];
    DistinctCounts(s.ended, k);
    if k in s.running {
      assert IsFinalizer(s, s.running[k]) && IsFinalizer(s, s.releasedBy.owner);
      assert false;
    }
  }

  function Blank(n: nat): (slots: seq<Entry>)
    ensures |slots| == n
  {
    if n == 0 then [] else Blank(n - 1) + [CLEARED]
  }

  /** Every access is in bounds and nobody gets stuck with the lock: until the array is
      released, the activity that holds the lock can always take its next step. */
  lemma {:induction false} HolderCanStep(states: seq<State>, at: nat, a: Activity) returns (s': State)
    requires Run(states) && at < |states| && states[at].releasedBy.Nobody?
    requires states[at].lock == By(a)
    ensures Step(states[at], s', a)
    ensures states[at].acts[a].RegRoom? ==> 0 < states[at].count <= |states[at].slots|
    ensures states[at].acts[a].FinScan? ==> states[at].acts[a].i < |states[at].slots|
  {
    RunKeepsInv(states, at);
    var s := states[at];
    assert a in s.acts && HoldsLock(s.acts[a]);
    match s.acts[a]
    case RegLocked(e) => s' := At(s, a, RegCounted(e)).(count := s.count + 1);
    case RegCounted(e) =>
      var capacity := if s.count > s.capacity then 2 * s.capacity else s.capacity;
      s' := At(s, a, RegRoom(e)).(capacity := capacity, slots := s.slots + Blank(capacity - |s.slots|));
    case RegRoom(e) =>
      s' := At(s, a, RegDone).(lock := Nobody, slots := s.slots[s.count - 1 := e], log := s.log + [e]);
    case FinRestart =>
      s' := if s.count > 0 then At(s, a, FinScan(s.count, s.count - 1)) else At(s, a, FinDone).(lock := Nobody);
    case FinScan(total, i) =>
      s' := if s.slots[i].fn.Null? then At(s, a, Below(total, i))
            else At(s, a, FinCalling(total, i, s.slots[i]))
                   .(lock := Nobody, slots := s.slots[i := CLEARED], begun := s.begun + [i],
                     running := s.running[i := a]);
    case FinCheck(total, i) => s' := At(s, a, if s.count != total then FinRestart else Below(total, i));
    case FinRelease => s' := At(s, a, FinDone).(lock := Nobody, releasedBy := By(a));
  }
}
