/** The handshake between the callback in the app process and the companion, which forks
  a child to work in the app's mount namespace.

  All three run concurrently and one step is one system call or one stage of work.  Every
  failure is a possible outcome of its step.  The sockets are closed by the callback and,
  when the handler returns, by its caller. */
module Companion {
  import opened Streams
  import opened Specialize

  /** The statements of the callback. */
  datatype AppPc =
    | AppStart | AppBegun | AppToUnshare | AppToSlave | AppToWrite | AppToRead | AppToClose
    | AppDecide | AppToHide | AppReopen(next: nat) | AppDone

  /** The statements of the handler. */
  datatype HandlerPc = ToReadPid | ToFork | ToWait | ToWrite(result: bool) | Returned

  datatype Work = Unmounted | Remounted | PropertiesReset

  /** The forked child, which exits with the value of its function or is killed. */
  datatype Child =
    | NotForked | ToSwitch | ToUnmount | ToRemount | ToResetProperties
    | Exited(code: nat) | Killed(signal: nat, core: bool)

  /** The callback. */
  datatype Callee = Callee(
    fd: int,                    // its end of the socket, or -1
    pc: AppPc, result: bool, closed: bool, pidSent: bool,
    env: BodyEnv,               // the outcomes that it has met so far
    trace: seq<Event>)

  datatype State = State(
    app: Callee, handler: HandlerPc, answer: Option<bool>, child: Child, work: seq<Work>)

  predicate Init(s: State) {
    && s.app.pc.AppStart? && !s.app.result && !s.app.closed && !s.app.pidSent && s.app.trace == []
    && s.app.env == BodyEnv(s.app.env.openFds, false, false, false, None)
    && s.handler == (if s.app.fd == -1 then Returned else ToReadPid)
    && s.answer.None? && s.child.NotForked? && s.work == []
  }

  /** One step of one of the three; `ok` is the outcome if it can fail. */
  datatype Action = AppRuns(ok: bool) | HandlerRuns(ok: bool) | ChildRuns(ok: bool) | Kill(signal: nat, core: bool)

  // ---------------------------------------------------------------------------
  // The steps
  // ---------------------------------------------------------------------------

  function Emit(s: Callee, pc: AppPc, e: Event): Callee {
    s.(pc := pc, trace := s.trace + [e])
  }

  /** A step of the callback, where `sent` is what waits in the socket. */
  function AppStep(s: Callee, sent: Option<bool>, ok: bool): Option<Callee> {
    match s.pc
    case AppStart => Some(Emit(s, AppBegun, BodyStart))
    case AppBegun => Some(Emit(s, AppToUnshare, Snapshot(SnapshotOf(s.env))))
    case AppToUnshare =>
      Some(Emit(s.(env := s.env.(unshareOk := ok)), if ok then AppToSlave else AppReopen(0),
                KernelUnshare(Callback, CLONE_NEWNS)))
    case AppToSlave =>
      var next := if !ok then AppReopen(0) else if s.fd == -1 then AppDecide else AppToWrite;
      Some(Emit(s.(env := s.env.(slaveOk := ok)), next, MakeSlave))
    case AppToWrite =>
      Some(Emit(s.(env := s.env.(writeOk := ok), pidSent := ok), if ok then AppToRead else AppToClose, WritePid))
    case AppToRead =>
      // The read blocks until there is an answer, or fails.
      if ok && sent.None? then None else
      var got := if ok then sent else None;
      Some(Emit(s.(env := s.env.(answer := got), result := got == Some(true)), AppToClose, ReadResult))
    case AppToClose => Some(Emit(s.(closed := true), AppDecide, CloseSocket))
    case AppDecide => Some(Emit(s, AppToHide, if s.result then ResultTrue else LocalUnmount))
    case AppToHide => Some(Emit(s, AppReopen(0), HideZygisk))
    case AppReopen(next) =>
      var fds := SnapshotOf(s.env);
      if next < |fds| then Some(Emit(s, AppReopen(next + 1), Reopen(fds[next])))
      else Some(Emit(s, AppDone, BodyEnd))
    case AppDone => None
  }

  /** The status that `waitpid` stores. */
  function StatusOf(child: Child): int {
    match child
    case Exited(code) => code * 256
    case Killed(signal, core) => signal + if core then 128 else 0
    case _ => -1
  }

  predicate WifExited(status: int) {
    status % 128 == 0
  }

  function HandlerStep(s: State, ok: bool): Option<State> {
    match s.handler
    case ToReadPid =>
      if !ok then Some(s.(handler := Returned))
      else if s.app.pidSent then Some(s.(handler := ToFork)) else None
    case ToFork =>
      if !ok then Some(s.(handler := ToWrite(WifExited(-1))))
      else Some(s.(handler := ToWait, child := ToSwitch))
    case ToWait =>
      if !ok then Some(s.(handler := ToWrite(WifExited(-1))))
      else if s.child.Exited? || s.child.Killed? then Some(s.(handler := ToWrite(WifExited(StatusOf(s.child)))))
      else None
    case ToWrite(result) => Some(s.(handler := Returned, answer := if ok then Some(result) else None))
    case Returned => None
  }

  function ChildStepOf(s: State, ok: bool): Option<State> {
    match s.child
    case ToSwitch => Some(s.(child := if ok then ToUnmount else Exited(1)))
    case ToUnmount => Some(s.(child := ToRemount, work := s.work + [Unmounted]))
    case ToRemount => Some(s.(child := ToResetProperties, work := s.work + [Remounted]))
    case ToResetProperties => Some(s.(child := Exited(0), work := s.work + [PropertiesReset]))
    case _ => None
  }

  predicate Running(child: Child) {
    child.ToSwitch? || child.ToUnmount? || child.ToRemount? || child.ToResetProperties?
  }

  /** The state after an action, if the action is possible. */
  function Apply(s: State, a: Action): Option<State> {
    match a
    case AppRuns(ok) =>
      var app :- AppStep(s.app, s.answer, ok);
      Some(s.(app := app))
    case HandlerRuns(ok) => HandlerStep(s, ok)
    case ChildRuns(ok) => ChildStepOf(s, ok)
    case Kill(signal, core) =>
      if Running(s.child) && 0 < signal < 127 then Some(s.(child := Killed(signal, core))) else None
  }

  function Exec(s: State, actions: seq<Action>): Option<State> {
    if actions == [] then Some(s) else
    var before :- Exec(s, actions[..|actions| - 1]);
    Apply(before, actions[|actions| - 1])
  }

  // ---------------------------------------------------------------------------
  // What every step keeps
  // ---------------------------------------------------------------------------

  /** The work that the child has done, for each place where it may be. */
  predicate ChildWorks(child: Child, work: seq<Work>) {
    match child
    case NotForked => work == []
    case ToSwitch => work == []
    case ToUnmount => work == []
    case ToRemount => work == [Unmounted]
    case ToResetProperties => work == [Unmounted, Remounted]
    case Exited(code) =>
      (code == 0 && work == [Unmounted, Remounted, PropertiesReset]) || (code == 1 && work == [])
    case Killed(signal, _) => 0 < signal < 127
  }

  /** Success, on its way to the app, comes from a child that has exited, and the companion
      does nothing before it is asked. */
  predicate Caused(s: State) {
    && (s.app.result ==> s.child.Exited?)
    && (s.app.result ==> s.answer == Some(true))
    && (s.answer == Some(true) ==> s.child.Exited?)
    && (s.answer.Some? ==> s.handler.Returned?)
    && (s.handler == ToWrite(true) ==> s.child.Exited?)
    && (s.handler.ToReadPid? || s.handler.ToFork? ==> s.child.NotForked?)
    && (s.handler.ToWait? ==> !s.child.NotForked?)
    && (!s.app.pidSent ==> (s.handler.ToReadPid? || s.handler.Returned?) && s.child.NotForked? && s.answer.None?)
  }

  /** The part of the conversation that lies behind the app. */
  function Said(pc: AppPc, fd: int, env: BodyEnv): seq<Event> {
    match pc
    case AppToRead => [WritePid]
    case AppToClose => [WritePid] + if env.writeOk then [ReadResult] else []
    case AppDecide => Talk(fd, env)
    case AppToHide => Talk(fd, env) + [if ResultIsTrue(fd, env) then ResultTrue else LocalUnmount]
    case _ => []
  }

  /** The trace of the callback up to the place where the app is. */
  function TraceSoFar(pc: AppPc, fd: int, env: BodyEnv): seq<Event> {
    var fds := SnapshotOf(env);
    match pc
    case AppStart => []
    case AppBegun => [BodyStart]
    case AppToUnshare => [BodyStart, Snapshot(fds)]
    case AppToSlave => [BodyStart, Snapshot(fds)] + [KernelUnshare(Callback, CLONE_NEWNS)]
    case AppReopen(next) =>
      if next <= |fds| then [BodyStart, Snapshot(fds)] + Namespace(fd, env) + Reopens(fds[..next]) else []
    case AppDone => BodyTrace(fd, env)
    case _ => [BodyStart, Snapshot(fds)] + ([KernelUnshare(Callback, CLONE_NEWNS)] + ([MakeSlave] + Said(pc, fd, env)))
  }

  predicate InConversation(pc: AppPc) {
    pc.AppToWrite? || pc.AppToRead? || pc.AppToClose?
  }

  predicate Before(pc: AppPc) {
    pc.AppStart? || pc.AppBegun? || pc.AppToUnshare? || pc.AppToSlave? || pc.AppToWrite?
  }

  predicate Decided(pc: AppPc) {
    pc.AppToHide? || pc.AppReopen? || pc.AppDone?
  }

  /** How often the callback has taken each of the two ways out of the conversation. */
  predicate OutcomeCounted(s: Callee) {
    && Count(s.trace, ResultTrue) == (if Decided(s.pc) && s.env.slaveOk && s.result then 1 else 0)
    && Count(s.trace, LocalUnmount) == (if Decided(s.pc) && s.env.slaveOk && !s.result then 1 else 0)
  }

  /** The variables of the callback agree with the outcomes that it has met. */
  predicate Consistent(s: Callee) {
    && (InConversation(s.pc) ==> s.fd != -1)
    && (InConversation(s.pc) || s.pc.AppDecide? || s.pc.AppToHide? ==> s.env.unshareOk && s.env.slaveOk)
    && (s.pc.AppStart? || s.pc.AppBegun? || s.pc.AppToUnshare? || s.pc.AppToSlave? ==> !s.env.slaveOk)
    && (s.pc.AppToSlave? ==> s.env.unshareOk)
    && (s.env.slaveOk ==> s.env.unshareOk)
    && (s.pc.AppReopen? ==> s.pc.next <= |SnapshotOf(s.env)|)
    && (s.pc.AppToRead? ==> s.env.writeOk)
    && (s.pidSent <==> s.env.writeOk)
    && (s.env.writeOk ==> s.fd != -1 && s.env.slaveOk && !Before(s.pc))
    && (Before(s.pc) || s.pc.AppToRead? ==> !s.result && s.env.answer.None?)
    && (!Before(s.pc) && !s.pc.AppToRead? ==> (s.result <==> ResultIsTrue(s.fd, s.env)))
    && (s.closed <==> s.fd != -1 && s.env.slaveOk && !Before(s.pc) && !InConversation(s.pc))
  }

  predicate Traced(s: Callee) {
    s.trace == TraceSoFar(s.pc, s.fd, s.env)
  }

  predicate Inv(s: State) {
    Consistent(s.app) && Traced(s.app) && OutcomeCounted(s.app) &&
    ChildWorks(s.child, s.work) && Caused(s)
  }

  lemma {:induction false} ReopenOne(fds: seq<int>, next: nat)
    requires next < |fds|
    ensures Reopens(fds[..next + 1]) == Reopens(fds[..next]) + [Reopen(fds[next])]
  {
    assert fds[..next + 1][..next] == fds[..next];
  }

  lemma {:induction false} OneMore(a: seq<Event>, b: seq<Event>, c: seq<Event>, d: seq<Event>, e: Event)
    ensures a + (b + (c + d)) + [e] == a + (b + (c + (d + [e])))
    ensures a + (b + (c + [])) == a + b + c
    ensures a + b + c + [] == a + b + c
    ensures a + b + (c + [e]) == a + b + c + [e]
  {
    assert c + [] == c;
  }

  lemma {:induction false} ConversationTraced(s: Callee, sent: Option<bool>, ok: bool)
    requires Consistent(s) && Traced(s) && AppStep(s, sent, ok).Some?
    requires InConversation(s.pc) || s.pc.AppDecide? || s.pc.AppToHide?
    ensures Traced(AppStep(s, sent, ok).value)
  {
    hide Reopens;
    var s' := AppStep(s, sent, ok).value;
    var fds := SnapshotOf(s.env);
    OneMore([BodyStart, Snapshot(fds)], [KernelUnshare(Callback, CLONE_NEWNS)], [MakeSlave],
            Said(s.pc, s.fd, s.env), s'.trace[|s.trace|]);
    assert fds[..0] == [];
  }

  lemma {:induction false} ReopeningTraced(s: Callee, sent: Option<bool>, ok: bool)
    requires Consistent(s) && Traced(s) && s.pc.AppReopen? && AppStep(s, sent, ok).Some?
    ensures Traced(AppStep(s, sent, ok).value)
  {
    hide SnapshotOf, Namespace, Reopens, Consistent;
    var fds, next := SnapshotOf(s.env), s.pc.next;
    assert next <= |fds| by { ReopensBound(s); }
    if next < |fds| {
      ReopenOne(fds, next);
      OneMore([BodyStart, Snapshot(fds)], Namespace(s.fd, s.env), Reopens(fds[..next]), [], Reopen(fds[next]));
    } else {
      assert fds[..next] == fds;
    }
  }

  lemma {:induction false} ReopensBound(s: Callee)
    requires Consistent(s) && s.pc.AppReopen?
    ensures s.pc.next <= |SnapshotOf(s.env)|
  {
    hide SnapshotOf;
  }

  lemma {:induction false} OpeningTraced(s: Callee, sent: Option<bool>, ok: bool)
    requires Traced(s) && AppStep(s, sent, ok).Some?
    requires s.pc.AppStart? || s.pc.AppBegun? || s.pc.AppToUnshare? || s.pc.AppToSlave?
    requires s.pc.AppToSlave? ==> s.env.unshareOk
    ensures Traced(AppStep(s, sent, ok).value)
  {
    hide Reopens, RegularFds, Inside, BodyTrace;
    var fds := SnapshotOf(s.env);
    assert fds[..0] == [];
    assert [BodyStart] + [Snapshot(fds)] == [BodyStart, Snapshot(fds)];
  }

  lemma {:induction false} AppStepTraced(s: Callee, sent: Option<bool>, ok: bool)
    requires Consistent(s) && Traced(s) && AppStep(s, sent, ok).Some?
    ensures Traced(AppStep(s, sent, ok).value)
  {
    hide TraceSoFar, Traced;
    if s.pc.AppReopen? {
      ReopeningTraced(s, sent, ok);
    } else if InConversation(s.pc) || s.pc.AppDecide? || s.pc.AppToHide? {
      ConversationTraced(s, sent, ok);
    } else {
      OpeningTraced(s, sent, ok);
    }
  }

  lemma {:induction false} AppStepConsistent(s: Callee, sent: Option<bool>, ok: bool)
    requires Consistent(s) && AppStep(s, sent, ok).Some?
    ensures var s' := AppStep(s, sent, ok).value;
            Consistent(s') && (s.pidSent ==> s'.pidSent) && (s'.result ==> s.result || sent == Some(true))
  {
    hide RegularFds, Reopens;
  }

  lemma {:induction false} CountSnoc(t: seq<Event>, e: Event, x: Event)
    ensures Count(t + [e], x) == Count(t, x) + if e == x then 1 else 0
  {
    assert (t + [e])[..|t|] == t;
  }

  lemma {:induction false} AppStepCounted(s: Callee, sent: Option<bool>, ok: bool)
    requires Consistent(s) && OutcomeCounted(s) && AppStep(s, sent, ok).Some?
    ensures OutcomeCounted(AppStep(s, sent, ok).value)
  {
    hide SnapshotOf, Reopens, ResultIsTrue, Count;
    var e := AppStep(s, sent, ok).value.trace[|s.trace|];
    CountSnoc(s.trace, e, ResultTrue);
    CountSnoc(s.trace, e, LocalUnmount);
  }

  lemma {:induction false} StepKeepsInv(s: State, a: Action)
    requires Inv(s) && Apply(s, a).Some?
    ensures Inv(Apply(s, a).value)
  {
    hide Traced, Consistent, OutcomeCounted, AppStep;
    if a.AppRuns? {
      AppStepCounted(s.app, s.answer, a.ok);
      AppStepTraced(s.app, s.answer, a.ok);
      AppStepConsistent(s.app, s.answer, a.ok);
    }
  }

  lemma {:induction false} RunKeepsInv(s: State, actions: seq<Action>)
    requires Init(s) && Exec(s, actions).Some?
    ensures Inv(Exec(s, actions).value)
    decreases |actions|
  {
    hide Inv, Apply, Init;
    if actions == [] {
      InitInv(s);
    } else {
      var n := |actions| - 1;
      RunKeepsInv(s, actions[..n]);
      StepKeepsInv(Exec(s, actions[..n]).value, actions[n]);
    }
  }

  lemma {:induction false} InitInv(s: State)
    requires Init(s)
    ensures Inv(s)
  {
    hide SnapshotOf;
  }

  // ---------------------------------------------------------------------------
  // The results, for every interleaving
  // ---------------------------------------------------------------------------

  /** The app takes the answer for success only after the child has ended by exiting, which
      it does after all of its work in order, or after none of it when it could not enter
      the app's namespace. */
  lemma {:induction false} SuccessMeansExit(s: State, actions: seq<Action>)
    requires Init(s) && Exec(s, actions).Some?
    ensures var end := Exec(s, actions).value;
            end.app.result || Count(end.app.trace, ResultTrue) > 0 ==>
            || (end.child == Exited(0) && end.work == [Unmounted, Remounted, PropertiesReset])
            || (end.child == Exited(1) && end.work == [])
  {
    hide Consistent, Traced;
    RunKeepsInv(s, actions);
  }

  /** Once the namespace has been made and the conversation is over, the app has either
      taken the answer for success or unmounted by itself, exactly one of the two and
      exactly once; until then, and if there is no namespace, neither. */
  lemma {:induction false} ExactlyOneOutcome(s: State, actions: seq<Action>)
    requires Init(s) && Exec(s, actions).Some?
    ensures var app := Exec(s, actions).value.app;
            && Count(app.trace, ResultTrue) + Count(app.trace, LocalUnmount) ==
               (if Decided(app.pc) && app.env.slaveOk then 1 else 0)
            && (Count(app.trace, ResultTrue) > 0 ==> app.result)
            && (Count(app.trace, LocalUnmount) > 0 ==> !app.result)
  {
    hide Consistent, Traced, Caused, ChildWorks;
    RunKeepsInv(s, actions);
  }

  /** Seen from the app, the callback runs exactly as in a process of its own that meets
      the same outcomes. */
  lemma {:induction false} CallbackRefinesBody(s: State, actions: seq<Action>)
    requires Init(s) && Exec(s, actions).Some? && Exec(s, actions).value.app.pc.AppDone?
    ensures var app := Exec(s, actions).value.app;
            app.trace == BodyTrace(app.fd, app.env) && (app.result <==> ResultIsTrue(app.fd, app.env))
  {
    hide OutcomeCounted, Caused, ChildWorks, BodyTrace;
    RunKeepsInv(s, actions);
  }

  /** Whether the child has got into the app's namespace, once it has tried. */
  function Switched(s: State, actions: seq<Action>): Option<bool> {
    if actions == [] then None else
    var front, last := actions[..|actions| - 1], actions[|actions| - 1];
    if last.ChildRuns? && Exec(s, front).Some? && Exec(s, front).value.child.ToSwitch? then Some(last.ok)
    else Switched(s, front)
  }

  /** What the place of the child says about its attempt. */
  predicate Follows(child: Child, switched: Option<bool>) {
    match child
    case NotForked => switched.None?
    case ToSwitch => switched.None?
    case Exited(code) => switched == Some(code == 0)
    case Killed(_, _) => switched != Some(false)
    case _ => switched == Some(true)
  }

  lemma {:induction false} ChildFollowsSwitch(s: State, actions: seq<Action>)
    requires Init(s) && Exec(s, actions).Some?
    ensures Follows(Exec(s, actions).value.child, Switched(s, actions))
    decreases |actions|
  {
    hide AppStep, Consistent, Traced, OutcomeCounted;
    if actions != [] {
      var n := |actions| - 1;
      ChildFollowsSwitch(s, actions[..n]);
      RunKeepsInv(s, actions[..n]);
    }
  }

  /** So the app's success stands for work that has been done exactly if the child got into
      the namespace, and for no work at all exactly if it did not. */
  lemma {:induction false} SuccessIsWorkIffSwitched(s: State, actions: seq<Action>)
    requires Init(s) && Exec(s, actions).Some? && Exec(s, actions).value.app.result
    ensures var work := Exec(s, actions).value.work;
            && (work == [Unmounted, Remounted, PropertiesReset] <==> Switched(s, actions) == Some(true))
            && (work == [] <==> Switched(s, actions) == Some(false))
  {
    hide Exec, Switched;
    SuccessMeansExit(s, actions);
    ChildFollowsSwitch(s, actions);
  }

  /** A call that fails, on the way of the request or of the answer. */
  predicate Fails(s: State, a: Action) {
    match a
    case AppRuns(ok) =>
      !ok && (s.app.pc.AppToUnshare? || s.app.pc.AppToSlave? || s.app.pc.AppToWrite? || s.app.pc.AppToRead?)
    case HandlerRuns(ok) => !ok
    case ChildRuns(_) => false
    case Kill(_, _) => true
  }

  /** No success can reach the app any more: it is past the conversation without, or there
      is none to come. */
  predicate Lost(s: State) {
    && !s.app.result
    && (|| (!Before(s.app.pc) && !s.app.pc.AppToRead?)
        || s.answer == Some(false) || s.handler == ToWrite(false) || (s.handler.Returned? && s.answer.None?)
        || s.child.Killed?)
  }

  lemma {:induction false} FailureLoses(s: State, a: Action)
    requires Inv(s) && Apply(s, a).Some? && Fails(s, a)
    ensures Lost(Apply(s, a).value)
  {
    hide Traced, OutcomeCounted, ResultIsTrue, SnapshotOf, Reopens, ChildWorks;
  }

  lemma {:induction false} LostStays(s: State, a: Action)
    requires Inv(s) && Apply(s, a).Some? && Lost(s)
    ensures Lost(Apply(s, a).value)
  {
    hide Traced, OutcomeCounted, ResultIsTrue, SnapshotOf, Reopens, ChildWorks;
  }

  lemma {:induction false} LostForGood(s: State, actions: seq<Action>, j: nat)
    requires Init(s) && Exec(s, actions).Some? && j <= |actions|
    requires Exec(s, actions[..j]).Some? && Lost(Exec(s, actions[..j]).value)
    ensures Lost(Exec(s, actions).value)
    decreases |actions|
  {
    hide Inv, Apply, Lost, Init;
    if j == |actions| {
      assert actions[..j] == actions;
    } else {
      var n := |actions| - 1;
      assert actions[..n][..j] == actions[..j];
      LostForGood(s, actions[..n], j);
      RunKeepsInv(s, actions[..n]);
      LostStays(Exec(s, actions[..n]).value, actions[n]);
    }
  }

  lemma {:induction false} PrefixRuns(s: State, actions: seq<Action>, j: nat)
    requires Exec(s, actions).Some? && j <= |actions|
    ensures Exec(s, actions[..j]).Some?
    decreases |actions|
  {
    hide Apply;
    if j == |actions| {
      assert actions[..j] == actions;
    } else {
      var n := |actions| - 1;
      assert actions[..n][..j] == actions[..j];
      PrefixRuns(s, actions[..n], j);
    }
  }

  /** The app sees success only if no call has failed on the way: neither making the
      namespace, nor writing or reading on either side, nor the fork or the wait. */
  lemma {:induction false} SuccessNeedsEveryCall(s: State, actions: seq<Action>, k: nat)
    requires Init(s) && Exec(s, actions).Some? && Exec(s, actions).value.app.result && k < |actions|
    ensures Exec(s, actions[..k]).Some? && !Fails(Exec(s, actions[..k]).value, actions[k])
  {
    hide Inv, Apply, Init, Fails;
    PrefixRuns(s, actions, k);
    PrefixRuns(s, actions, k + 1);
    assert actions[..k + 1][..k] == actions[..k];
    if Fails(Exec(s, actions[..k]).value, actions[k]) {
      RunKeepsInv(s, actions[..k]);
      FailureLoses(Exec(s, actions[..k]).value, actions[k]);
      LostForGood(s, actions, k + 1);
    }
  }

  // Every run ends

  function AppRank(s: Callee): (rank: nat)
    requires s.pc.AppReopen? ==> s.pc.next <= |SnapshotOf(s.env)|
  {
    var n := |SnapshotOf(s.env)|;
    match s.pc
    case AppStart => 10 + n
    case AppBegun => 9 + n
    case AppToUnshare => 8 + n
    case AppToSlave => 7 + n
    case AppToWrite => 6 + n
    case AppToRead => 5 + n
    case AppToClose => 4 + n
    case AppDecide => 3 + n
    case AppToHide => 2 + n
    case AppReopen(next) => 1 + n - next
    case AppDone => 0
  }

  function HandlerRank(pc: HandlerPc): nat {
    match pc
    case ToReadPid => 4
    case ToFork => 3
    case ToWait => 2
    case ToWrite(_) => 1
    case Returned => 0
  }

  function ChildRank(child: Child): nat {
    match child
    case NotForked => 5
    case ToSwitch => 4
    case ToUnmount => 3
    case ToRemount => 2
    case ToResetProperties => 1
    case _ => 0
  }

  /** The steps that may still follow. */
  function Rank(s: State): nat
    requires Consistent(s.app)
  {
    AppRank(s.app) + HandlerRank(s.handler) + ChildRank(s.child)
  }

  lemma {:induction false} AppRankDecreases(s: Callee, sent: Option<bool>, ok: bool)
    requires Consistent(s) && AppStep(s, sent, ok).Some?
    ensures Consistent(AppStep(s, sent, ok).value) && AppRank(AppStep(s, sent, ok).value) < AppRank(s)
  {
    AppStepConsistent(s, sent, ok);
    hide RegularFds, Reopens, ResultIsTrue, Consistent;
  }

  lemma {:induction false} RankDecreases(s: State, a: Action)
    requires Inv(s) && Apply(s, a).Some?
    ensures Inv(Apply(s, a).value) && Rank(Apply(s, a).value) < Rank(s)
  {
    hide Traced, Consistent, OutcomeCounted, AppStep, AppRank, ChildWorks;
    StepKeepsInv(s, a);
    if a.AppRuns? {
      AppRankDecreases(s.app, s.answer, a.ok);
    }
  }

  /** No run has more steps than one for each descriptor to be reopened and 19 more. */
  lemma {:induction false} RunsAreBounded(s: State, actions: seq<Action>)
    requires Init(s) && Exec(s, actions).Some?
    ensures Inv(Exec(s, actions).value)
    ensures |actions| + Rank(Exec(s, actions).value) <= 19 + |SnapshotOf(s.app.env)|
    decreases |actions|
  {
    hide Inv, Rank, Apply, Init;
    RunKeepsInv(s, actions);
    if actions == [] {
      InitRank(s);
    } else {
      var n := |actions| - 1;
      RunsAreBounded(s, actions[..n]);
      RankDecreases(Exec(s, actions[..n]).value, actions[n]);
    }
  }

  lemma {:induction false} InitRank(s: State)
    requires Init(s)
    ensures Inv(s) && Rank(s) <= 19 + |SnapshotOf(s.app.env)|
  {
    InitInv(s);
    hide Inv, SnapshotOf;
  }

  // Nothing waits for ever

  /** The steps that happen without a failure of their own.  A read from a socket whose
      other end has been closed ends without data. */
  predicate Prompt(s: State, a: Action) {
    && Apply(s, a).Some?
    && match a
       case AppRuns(ok) => ok || (s.app.pc.AppToRead? && s.handler.Returned? && s.answer.None?)
       case HandlerRuns(ok) => ok || (s.handler.ToReadPid? && s.app.closed && !s.app.pidSent)
       case ChildRuns(ok) => ok
       case Kill(_, _) => false
  }

  /** The callback has returned without closing the socket that the handler reads. */
  predicate LeftReading(s: State) {
    s.app.pc.AppDone? && s.handler.ToReadPid? && !s.app.pidSent && !s.app.closed
  }

  lemma {:induction false} SomeStep(s: State) returns (a: Action)
    requires Inv(s) && !LeftReading(s)
    requires !s.app.pc.AppDone? || !s.handler.Returned?
    ensures Prompt(s, a)
  {
    hide Traced, OutcomeCounted, SnapshotOf, ChildWorks, ResultIsTrue;
    if !s.app.pc.AppDone? && (!s.app.pc.AppToRead? || s.answer.Some?) {
      a := AppRuns(true);
    } else if s.handler.Returned? {
      a := AppRuns(false);
    } else if s.handler.ToWait? && Running(s.child) {
      a := ChildRuns(true);
    } else {
      a := HandlerRuns(!s.handler.ToReadPid? || s.app.pidSent);
    }
  }

  /** A run can stop for good only when the callback and the handler have returned, or when
      the callback has found no way to make the namespace: then it returns with the socket
      open, and the handler keeps waiting for a request without having done anything. */
  lemma {:induction false} WhereRunsStop(s: State, actions: seq<Action>)
    requires Init(s) && Exec(s, actions).Some?
    ensures var end := Exec(s, actions).value;
            (forall a :: !Prompt(end, a)) ==>
            end.app.pc.AppDone? && (end.handler.Returned? || LeftReading(end))
    ensures var end := Exec(s, actions).value;
            end.app.pc.AppDone? && end.app.fd != -1 ==>
            (!end.app.closed <==> !end.app.env.slaveOk) && (!end.app.closed ==> end.child.NotForked?)
    ensures LeftReading(Exec(s, actions).value) ==> forall a :: !Prompt(Exec(s, actions).value, a)
  {
    hide Traced, OutcomeCounted, ChildWorks, ResultIsTrue, SnapshotOf;
    RunKeepsInv(s, actions);
    var end := Exec(s, actions).value;
    if !LeftReading(end) && !(end.app.pc.AppDone? && end.handler.Returned?) {
      var a := SomeStep(end);
    }
  }

  /** The callback in the middle of reopening finishes, and nothing else changes. */
  lemma {:induction false} ReopenToEnd(s: State, done: seq<Action>, next: nat) returns (actions: seq<Action>)
    requires Exec(s, done).Some? && Exec(s, done).value.app.pc == AppReopen(next)
    requires next <= |SnapshotOf(Exec(s, done).value.app.env)|
    ensures Exec(s, actions).Some?
    ensures var before, end := Exec(s, done).value, Exec(s, actions).value;
            && end.app.pc.AppDone? && end.app.pidSent == before.app.pidSent && end.app.closed == before.app.closed
            && end.handler == before.handler
    decreases |SnapshotOf(Exec(s, done).value.app.env)| - next
  {
    hide Exec, SnapshotOf;
    actions := Extend(s, done, AppRuns(true));
    if next < |SnapshotOf(Exec(s, done).value.app.env)| {
      actions := ReopenToEnd(s, actions, next + 1);
    }
  }

  /** The other way round, the handler can be left waiting, whatever descriptors are open:
      it is, when the namespace cannot be made although there is a companion to ask. */
  lemma {:induction false} HandlerMayBeLeft(s: State) returns (actions: seq<Action>)
    requires Init(s) && s.app.fd != -1
    ensures Exec(s, actions).Some? && LeftReading(Exec(s, actions).value)
  {
    hide Exec, SnapshotOf;
    ExecEmpty(s);
    actions := Extend(s, [], AppRuns(true));
    actions := Extend(s, actions, AppRuns(true));
    actions := Extend(s, actions, AppRuns(false));
    actions := ReopenToEnd(s, actions, 0);
  }

  lemma {:induction false} ExecEmpty(s: State)
    ensures Exec(s, []) == Some(s)
  {
  }

  lemma {:induction false} Extend(s: State, actions: seq<Action>, a: Action) returns (longer: seq<Action>)
    requires Exec(s, actions).Some?
    ensures Exec(s, longer) == Apply(Exec(s, actions).value, a)
  {
    hide Apply;
    longer := actions + [a];
    assert longer[..|actions|] == actions;
  }

  /** The app's request reaches the companion. */
  lemma {:induction false} RequestSent(s: State) returns (actions: seq<Action>)
    requires Init(s) && s.app.fd != -1
    ensures Exec(s, actions).Some?
    ensures var end := Exec(s, actions).value;
            && end.app.pc.AppToRead? && end.app.pidSent && end.answer.None?
            && end.handler.ToReadPid? && end.child.NotForked? && end.work == []
  {
    hide Exec, SnapshotOf;
    ExecEmpty(s);
    actions := Extend(s, [], AppRuns(true));
    actions := Extend(s, actions, AppRuns(true));
    actions := Extend(s, actions, AppRuns(true));
    actions := Extend(s, actions, AppRuns(true));
    actions := Extend(s, actions, AppRuns(true));
  }

  /** For every app that has a companion there is a run in which the child fails to get into
      the namespace, exits without having done anything, and the app takes that for success. */
  lemma {:induction false} SuccessWithoutWork(s: State) returns (actions: seq<Action>)
    requires Init(s) && s.app.fd != -1
    ensures Exec(s, actions).Some?
    ensures var end := Exec(s, actions).value; end.app.result && end.child == Exited(1) && end.work == []
  {
    hide Exec;
    actions := RequestSent(s);
    actions := Extend(s, actions, HandlerRuns(true));
    actions := Extend(s, actions, HandlerRuns(true));
    actions := Extend(s, actions, ChildRuns(false));
    actions := Extend(s, actions, HandlerRuns(true));
    actions := Extend(s, actions, HandlerRuns(true));
    actions := Extend(s, actions, AppRuns(true));
  }

  // Without failures

  predicate Succeeds(a: Action) {
    !a.Kill? && a.ok
  }

  predicate Smooth(s: State) {
    var app := s.app;
    && (app.env.unshareOk || app.pc.AppStart? || app.pc.AppBegun? || app.pc.AppToUnshare?)
    && (app.env.slaveOk || app.pc.AppStart? || app.pc.AppBegun? || app.pc.AppToUnshare? || app.pc.AppToSlave?)
    && (app.fd != -1 && !Before(app.pc) ==> app.env.writeOk)
    && (app.fd != -1 && !Before(app.pc) && !app.pc.AppToRead? ==> app.env.answer == Some(true))
    && (s.answer.Some? ==> s.answer.value) && (s.handler.ToWrite? ==> s.handler.result)
    && !s.child.Killed? && (s.child.Exited? ==> s.child.code == 0)
  }

  lemma {:induction false} StepStaysSmooth(s: State, a: Action)
    requires Inv(s) && Smooth(s) && Apply(s, a).Some? && Succeeds(a)
    ensures Smooth(Apply(s, a).value)
  {
    hide Traced, OutcomeCounted, SnapshotOf, ResultIsTrue, Reopens;
  }

  lemma {:induction false} RunStaysSmooth(s: State, actions: seq<Action>)
    requires Init(s) && Exec(s, actions).Some?
    requires forall k :: 0 <= k < |actions| ==> Succeeds(actions[k])
    ensures Smooth(Exec(s, actions).value)
    decreases |actions|
  {
    hide Inv, Apply, Consistent;
    if actions != [] {
      var n := |actions| - 1;
      RunStaysSmooth(s, actions[..n]);
      RunKeepsInv(s, actions[..n]);
      StepStaysSmooth(Exec(s, actions[..n]).value, actions[n]);
    }
  }

  /** If no call fails and nothing is killed, a callback that can reach the companion ends
      with its success and all the work done, and one that cannot ends without. */
  lemma {:induction false} WithoutFailures(s: State, actions: seq<Action>)
    requires Init(s) && Exec(s, actions).Some? && Exec(s, actions).value.app.pc.AppDone?
    requires forall k :: 0 <= k < |actions| ==> Succeeds(actions[k])
    ensures var end := Exec(s, actions).value;
            && (end.app.result <==> end.app.fd != -1)
            && (end.app.fd != -1 ==>
                  end.child == Exited(0) && end.work == [Unmounted, Remounted, PropertiesReset])
  {
    hide Traced, OutcomeCounted, SnapshotOf;
    RunKeepsInv(s, actions);
    RunStaysSmooth(s, actions);
  }
}
