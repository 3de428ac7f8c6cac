/** The hooks that the module places on `unshare` and `setresuid` while an app process is
  specialized, and the callback that they run once.

  Outcomes that the code does not decide (hooking, system calls, the companion) are
  arguments of the operations.  What the process does is recorded as a trace of events. */
module Specialize {
  import opened Streams

  const CLONE_NEWNS: bv32 := 0x0002_0000

  /** Who makes a call that reaches libc: the runtime directly, a hook that passes the
      call on, or the callback. */
  datatype Caller = Runtime | Hook | Callback

  datatype Event =
    | Armed
    | BodyStart
    | Snapshot(fds: seq<int>)
    | KernelUnshare(via: Caller, flags: bv32)
    | MakeSlave
    | WritePid
    | ReadResult
    | CloseSocket
    | ResultTrue
    | LocalUnmount
    | HideZygisk
    | Reopen(fd: int)
    | BodyEnd
    | KernelSetresuid(via: Caller)

  // ---------------------------------------------------------------------------
  // The callback
  // ---------------------------------------------------------------------------

  datatype FdInfo = FdInfo(fd: int, isSock: bool, filePath: string)

  /** What the environment answers while the callback runs.  `openFds` is missing if the
      descriptors cannot be listed, and an element if that one cannot be examined;
      `answer` is missing if reading from the companion fails. */
  datatype BodyEnv = BodyEnv(
    openFds: Option<seq<Option<FdInfo>>>, unshareOk: bool, slaveOk: bool, writeOk: bool,
    answer: Option<bool>)

  predicate Regular(info: Option<FdInfo>) {
    info.Some? && !info.value.isSock && !("/memfd:" <= info.value.filePath)
  }

  /** The descriptors that are kept to be reopened: regular files that are no memfds. */
  function RegularFds(infos: seq<Option<FdInfo>>): seq<int> {
    if infos == [] then [] else
    RegularFds(infos[..|infos| - 1]) +
    (if Regular(infos[|infos| - 1]) then [infos[|infos| - 1].value.fd] else [])
  }

  function SnapshotOf(env: BodyEnv): seq<int> {
    match env.openFds
    case None => []
    case Some(infos) => RegularFds(infos)
  }

  /** Whether the companion has answered with success. */
  predicate ResultIsTrue(fd: int, env: BodyEnv) {
    fd != -1 && env.writeOk && env.answer == Some(true)
  }

  function Talk(fd: int, env: BodyEnv): seq<Event> {
    if fd == -1 then []
    else [WritePid] + (if env.writeOk then [ReadResult] else []) + [CloseSocket]
  }

  function Inside(fd: int, env: BodyEnv): seq<Event> {
    Talk(fd, env) + [if ResultIsTrue(fd, env) then ResultTrue else LocalUnmount, HideZygisk]
  }

  function Namespace(fd: int, env: BodyEnv): seq<Event> {
    [KernelUnshare(Callback, CLONE_NEWNS)] +
    (if !env.unshareOk then [] else [MakeSlave] + if !env.slaveOk then [] else Inside(fd, env))
  }

  function Reopens(fds: seq<int>): (events: seq<Event>)
    ensures |events| == |fds| && forall k :: 0 <= k < |fds| ==> events[k] == Reopen(fds[k])
  {
    if fds == [] then [] else Reopens(fds[..|fds| - 1]) + [Reopen(fds[|fds| - 1])]
  }

  /** The events of one run of the callback. */
  function BodyTrace(fd: int, env: BodyEnv): seq<Event> {
    [BodyStart, Snapshot(SnapshotOf(env))] + Namespace(fd, env) + Reopens(SnapshotOf(env)) + [BodyEnd]
  }

  // ---------------------------------------------------------------------------
  // The process
  // ---------------------------------------------------------------------------

  /** The global `callbackFunction`: empty, or the callback with the companion socket. */
  datatype Function = Empty | Body(fd: int)

  /** What becomes of an attempt to hook: a failure may be reported although the hook is
      in place, but not the other way round. */
  datatype HookOutcome = Installed | ReportedFailed | NotInstalled

  datatype App = App(
    callback: Function,
    oldUnshare: bool, oldSetresuid: bool,          // the saved originals are not null
    unshareHooked: bool, setresuidHooked: bool,    // the calls go to the hooks
    trace: seq<Event>)

  const START := App(Empty, false, false, false, false, [])

  /** What is done to the process, with the answers of the environment. */
  datatype Action =
    | Pre(isRoot: bool, isOnDenylist: bool, isUserApp: bool,
          unshareHook: HookOutcome, setresuidHook: HookOutcome, companionFd: int)
    | Unshare(flags: bv32, env: BodyEnv)
    | Setresuid(env: BodyEnv)
    | Post(unshareUnhook: HookOutcome, setresuidUnhook: HookOutcome)

  function Emit(s: App, events: seq<Event>): App {
    s.(trace := s.trace + events)
  }

  function RunCallback(s: App, env: BodyEnv): App {
    match s.callback
    case Empty => s
    case Body(fd) => Emit(s.(callback := Empty), BodyTrace(fd, env))
  }

  predicate OnlyNewns(flags: bv32) {
    flags | CLONE_NEWNS == CLONE_NEWNS
  }

  /** The flag for a new mount namespace is gone and all others are the same. */
  predicate WithoutNewns(rest: bv32, flags: bv32) {
    rest & CLONE_NEWNS == 0 && rest | CLONE_NEWNS == flags | CLONE_NEWNS
  }

  /** The flags that the hook passes on. */
  function Masked(flags: bv32): (rest: bv32)
    ensures WithoutNewns(rest, flags)
  {
    flags & !CLONE_NEWNS
  }

  function NewUnshareSpec(s: App, flags: bv32, env: BodyEnv): App {
    var s' := RunCallback(s, env);
    var rest := Masked(flags);
    if rest == 0 then s' else Emit(s', [KernelUnshare(Hook, rest)])
  }

  function PreSpec(s: App, a: Action): App
    requires a.Pre?
  {
    if a.isRoot || !a.isOnDenylist || !a.isUserApp then s else
    var s1 := if a.unshareHook.NotInstalled? then s else s.(unshareHooked := true, oldUnshare := true);
    if !a.unshareHook.Installed? then s1 else
    var s2 := if a.setresuidHook.NotInstalled? then s1 else s1.(setresuidHooked := true, oldSetresuid := true);
    if !a.setresuidHook.Installed? then s2 else
    Emit(s2.(callback := Body(a.companionFd)), [Armed])
  }

  function Next(s: App, a: Action): App {
    match a
    case Pre(_, _, _, _, _, _) => PreSpec(s, a)
    case Unshare(flags, env) =>
      if s.unshareHooked then NewUnshareSpec(s, flags, env) else Emit(s, [KernelUnshare(Runtime, flags)])
    case Setresuid(env) =>
      if s.setresuidHooked then Emit(RunCallback(s, env), [KernelSetresuid(Hook)])
      else Emit(s, [KernelSetresuid(Runtime)])
    case Post(unshareUnhook, setresuidUnhook) =>
      s.(unshareHooked := s.unshareHooked && (!s.oldUnshare || unshareUnhook.NotInstalled?),
         setresuidHooked := s.setresuidHooked && (!s.oldSetresuid || setresuidUnhook.NotInstalled?))
  }

  function After(actions: seq<Action>): App {
    if actions == [] then START else Next(After(actions[..|actions| - 1]), actions[|actions| - 1])
  }

  lemma {:induction false} Nested(t: seq<Event>, a: seq<Event>, b: seq<Event>, c: seq<Event>, d: seq<Event>)
    ensures (((t + a) + b) + c) + d == t + (((a + b) + c) + d)
  {
  }

  class AppProcess {
    var callbackFunction: Function
    var oldUnshare: bool
    var oldSetresuid: bool
    var unshareHooked: bool
    var setresuidHooked: bool
    ghost var trace: seq<Event>

    ghost function View(): App
      reads this
    {
      App(callbackFunction, oldUnshare, oldSetresuid, unshareHooked, setresuidHooked, trace)
    }

    /** The saved originals exist whenever they may be needed. */
    ghost predicate Valid()
      reads this
    {
      && (callbackFunction.Body? ==> oldUnshare && oldSetresuid)
      && (unshareHooked ==> oldUnshare)
      && (setresuidHooked ==> oldSetresuid)
    }

    constructor ()
      ensures Valid() && View() == START
    {
      callbackFunction := Empty;
      oldUnshare, oldSetresuid, unshareHooked, setresuidHooked := false, false, false, false;
      trace := [];
    }

    /** The call goes through the saved original, which must not be null. */
    method OldUnshare(via: Caller, flags: bv32)
      requires Valid() && oldUnshare
      modifies this`trace
      ensures trace == old(trace) + [KernelUnshare(via, flags)]
    {
      trace := trace + [KernelUnshare(via, flags)];
    }

    method NewMountNs(env: BodyEnv) returns (ok: bool)
      requires Valid() && oldUnshare
      modifies this`trace
      ensures ok == (env.unshareOk && env.slaveOk)
      ensures trace == old(trace) + [KernelUnshare(Callback, CLONE_NEWNS)]
                       + if env.unshareOk then [MakeSlave] else []
    {
      OldUnshare(Callback, CLONE_NEWNS);
      ok := env.unshareOk;
      if ok {
        trace := trace + [MakeSlave];
        ok := env.slaveOk;
      }
    }

    /** `callbackFunction()` */
    method InvokeCallback(env: BodyEnv)
      requires Valid()
      modifies this
      ensures Valid() && View() == RunCallback(old(View()), env)
      ensures unshareHooked == old(unshareHooked)
    {
      if callbackFunction.Empty? {
        return;
      }
      hide Namespace, SnapshotOf, Reopens;
      var fd := callbackFunction.fd;
      ghost var t0 := trace;
      trace := trace + [BodyStart];
      callbackFunction := Empty;
      var fds := SnapshotOf(env);
      trace := trace + [Snapshot(fds)];
      assert trace == t0 + [BodyStart, Snapshot(fds)];
      InNamespace(fd, env);
      trace := trace + Reopens(fds);
      trace := trace + [BodyEnd];
      Nested(t0, [BodyStart, Snapshot(fds)], Namespace(fd, env), Reopens(fds), [BodyEnd]);
    }

    method InNamespace(fd: int, env: BodyEnv)
      requires Valid() && oldUnshare
      modifies this`trace
      ensures trace == old(trace) + Namespace(fd, env)
    {
      var ok := NewMountNs(env);
      if ok {
        AskCompanion(fd, env);
      }
    }

    method AskCompanion(fd: int, env: BodyEnv)
      modifies this`trace
      ensures trace == old(trace) + Inside(fd, env)
    {
      var result := false;
      if fd != -1 {
        trace := trace + [WritePid];
        if env.writeOk {
          trace := trace + [ReadResult];
          if env.answer.Some? {
            result := env.answer.value;
          }
        }
        trace := trace + [CloseSocket];
      }
      trace := trace + [if result then ResultTrue else LocalUnmount];
      trace := trace + [HideZygisk];
    }

    method NewUnshare(flags: bv32, env: BodyEnv)
      requires Valid() && unshareHooked
      modifies this
      ensures Valid() && View() == Next(old(View()), Unshare(flags, env))
    {
      hide RunCallback, Masked;
      InvokeCallback(env);
      var rest := Masked(flags);
      if rest != 0 {
        OldUnshare(Hook, rest);
      }
    }

    method NewSetresuid(env: BodyEnv)
      requires Valid() && setresuidHooked
      modifies this
      ensures Valid() && View() == Next(old(View()), Setresuid(env))
    {
      hide BodyTrace;
      InvokeCallback(env);
      trace := trace + [KernelSetresuid(Hook)];
    }

    method PreAppSpecialize(a: Action)
      requires Valid() && a.Pre?
      modifies this
      ensures Valid() && View() == Next(old(View()), a)
      ensures if !a.isRoot && a.isOnDenylist && a.isUserApp && a.unshareHook.Installed? && a.setresuidHook.Installed?
              then callbackFunction == Body(a.companionFd) && trace == old(trace) + [Armed]
              else callbackFunction == old(callbackFunction) && trace == old(trace)
    {
      if a.isRoot || !a.isOnDenylist || !a.isUserApp {
        return;
      }
      if !a.unshareHook.NotInstalled? {
        unshareHooked, oldUnshare := true, true;
      }
      if !a.unshareHook.Installed? {
        return;
      }
      if !a.setresuidHook.NotInstalled? {
        setresuidHooked, oldSetresuid := true, true;
      }
      if !a.setresuidHook.Installed? {
        return;
      }
      callbackFunction := Body(a.companionFd);
      trace := trace + [Armed];
    }

    method PostAppSpecialize(a: Action)
      requires Valid() && a.Post?
      modifies this
      ensures Valid() && View() == Next(old(View()), a)
    {
      if oldUnshare && !a.unshareUnhook.NotInstalled? {
        unshareHooked := false;
      }
      if oldSetresuid && !a.setresuidUnhook.NotInstalled? {
        setresuidHooked := false;
      }
    }
  }

  // ---------------------------------------------------------------------------
  // Every run
  // ---------------------------------------------------------------------------

  /** The number of times that specialization was prepared.  Zygisk does it once. */
  function Preparations(actions: seq<Action>): nat {
    if actions == [] then 0
    else Preparations(actions[..|actions| - 1]) + if actions[|actions| - 1].Pre? then 1 else 0
  }

  /** How often a descriptor has been noted to be reopened. */
  function Noted(trace: seq<Event>, fd: int): nat {
    if trace == [] then 0 else
    Noted(trace[..|trace| - 1], fd) +
    match trace[|trace| - 1]
    case Snapshot(fds) => multiset(fds)[fd]
    case _ => 0
  }

  lemma {:induction false} NotedAppend(a: seq<Event>, b: seq<Event>, fd: int)
    ensures Noted(a + b, fd) == Noted(a, fd) + Noted(b, fd)
    decreases |b|
  {
    if b == [] {
      assert a + b == a;
    } else {
      assert (a + b)[..|a + b| - 1] == a + b[..|b| - 1];
      NotedAppend(a, b[..|b| - 1], fd);
    }
  }

  /** The callback has been set and has not run since. */
  function Waiting(trace: seq<Event>): bool {
    trace != [] &&
    match trace[|trace| - 1]
    case Armed => true
    case BodyEnd => false
    case _ => Waiting(trace[..|trace| - 1])
  }

  predicate ByHook(e: Event) {
    (e.KernelUnshare? || e.KernelSetresuid?) && e.via == Hook
  }

  /** How often an event occurs. */
  function Count(trace: seq<Event>, e: Event): nat {
    if trace == [] then 0
    else Count(trace[..|trace| - 1], e) + if trace[|trace| - 1] == e then 1 else 0
  }

  lemma {:induction false} CountAppend(a: seq<Event>, b: seq<Event>, e: Event)
    ensures Count(a + b, e) == Count(a, e) + Count(b, e)
    decreases |b|
  {
    if b == [] {
      assert a + b == a;
    } else {
      assert (a + b)[..|a + b| - 1] == a + b[..|b| - 1];
      CountAppend(a, b[..|b| - 1], e);
    }
  }

  lemma {:induction false} CountOne(x: Event, e: Event)
    ensures Count([x], e) == if x == e then 1 else 0
  {
    assert [x][..0] == [];
  }

  lemma {:induction false} CountAbsent(t: seq<Event>, e: Event)
    requires forall k :: 0 <= k < |t| ==> t[k] != e
    ensures Count(t, e) == 0
    decreases |t|
  {
    if t != [] {
      CountAbsent(t[..|t| - 1], e);
    }
  }

  lemma {:induction false} NothingNoted(t: seq<Event>, fd: int)
    requires forall k :: 0 <= k < |t| ==> !t[k].Snapshot?
    ensures Noted(t, fd) == 0
    decreases |t|
  {
    if t != [] {
      NothingNoted(t[..|t| - 1], fd);
    }
  }

  lemma {:induction false} ReopensCount(fds: seq<int>, fd: int)
    ensures Count(Reopens(fds), Reopen(fd)) == multiset(fds)[fd]
    decreases |fds|
  {
    if fds != [] {
      var n := |fds| - 1;
      ReopensCount(fds[..n], fd);
      assert fds == fds[..n] + [fds[n]];
      assert Reopens(fds)[..n] == Reopens(fds[..n]);
    }
  }

  /** The events that may occur between making the namespace and reopening. */
  predicate IsInner(e: Event) {
    e == MakeSlave || e == WritePid || e == ReadResult || e == CloseSocket ||
    e == ResultTrue || e == LocalUnmount || e == HideZygisk
  }

  /** What follows the call that makes the namespace. */
  function Inner(fd: int, env: BodyEnv): seq<Event> {
    if !env.unshareOk then [] else [MakeSlave] + if !env.slaveOk then [] else Inside(fd, env)
  }

  lemma {:induction false} InnerEvents(fd: int, env: BodyEnv)
    ensures Namespace(fd, env) == [KernelUnshare(Callback, CLONE_NEWNS)] + Inner(fd, env)
    ensures forall k :: 0 <= k < |Inner(fd, env)| ==> IsInner(Inner(fd, env)[k])
  {
  }

  lemma {:induction false} InnerOutcome(fd: int, env: BodyEnv)
    ensures Count(Inner(fd, env), ResultTrue) + Count(Inner(fd, env), LocalUnmount) ==
            if env.unshareOk && env.slaveOk then 1 else 0
  {
    var outcome := if ResultIsTrue(fd, env) then ResultTrue else LocalUnmount;
    forall e | e == ResultTrue || e == LocalUnmount
      ensures Count(Inner(fd, env), e) == if env.unshareOk && env.slaveOk && e == outcome then 1 else 0
    {
      CountOne(MakeSlave, e);
      if env.unshareOk && env.slaveOk {
        var talk := Talk(fd, env);
        CountAbsent(talk, e);
        CountOne(outcome, e);
        CountOne(HideZygisk, e);
        CountAppend([outcome], [HideZygisk], e);
        CountAppend(talk, [outcome, HideZygisk], e);
        assert [outcome] + [HideZygisk] == [outcome, HideZygisk];
        CountAppend([MakeSlave], Inside(fd, env), e);
      } else {
        assert [MakeSlave] + [] == [MakeSlave];
      }
    }
  }

  /** The count of an event over the parts of a run of the callback. */
  lemma {:induction false} CountInCallback(fd: int, env: BodyEnv, e: Event)
    ensures Count(BodyTrace(fd, env), e) ==
            (if e == BodyStart then 1 else 0) + (if e == Snapshot(SnapshotOf(env)) then 1 else 0) +
            (if e == KernelUnshare(Callback, CLONE_NEWNS) then 1 else 0) + Count(Inner(fd, env), e) +
            Count(Reopens(SnapshotOf(env)), e) + (if e == BodyEnd then 1 else 0)
  {
    hide Inner, Namespace, Reopens, SnapshotOf, Count;
    var fds := SnapshotOf(env);
    InnerEvents(fd, env);
    var ns := KernelUnshare(Callback, CLONE_NEWNS);
    CountOne(BodyStart, e);
    CountOne(Snapshot(fds), e);
    CountOne(ns, e);
    CountOne(BodyEnd, e);
    assert [BodyStart, Snapshot(fds)] == [BodyStart] + [Snapshot(fds)];
    CountAppend([BodyStart], [Snapshot(fds)], e);
    CountAppend([ns], Inner(fd, env), e);
    CountAppend([BodyStart, Snapshot(fds)], Namespace(fd, env), e);
    CountAppend([BodyStart, Snapshot(fds)] + Namespace(fd, env), Reopens(fds), e);
    CountAppend([BodyStart, Snapshot(fds)] + Namespace(fd, env) + Reopens(fds), [BodyEnd], e);
  }

  lemma {:induction false} NotedInCallback(fd: int, env: BodyEnv, x: int)
    ensures Noted(BodyTrace(fd, env), x) == multiset(SnapshotOf(env))[x]
  {
    hide Inner, Namespace, SnapshotOf;
    var fds := SnapshotOf(env);
    InnerEvents(fd, env);
    NothingNoted(Namespace(fd, env), x);
    NothingNoted(Reopens(fds), x);
    NothingNoted([BodyEnd], x);
    NothingNoted([BodyStart], x);
    assert [BodyStart, Snapshot(fds)][..1] == [BodyStart];
    NotedAppend([BodyStart, Snapshot(fds)], Namespace(fd, env), x);
    NotedAppend([BodyStart, Snapshot(fds)] + Namespace(fd, env), Reopens(fds), x);
    NotedAppend([BodyStart, Snapshot(fds)] + Namespace(fd, env) + Reopens(fds), [BodyEnd], x);
  }

  /** Inside the callback: the descriptors are noted before the namespace is made, and
      each is reopened afterwards, once and in order, on every path. */
  lemma {:induction false} DescriptorsReopened(fd: int, env: BodyEnv)
    ensures var t, fds := BodyTrace(fd, env), SnapshotOf(env);
            && t[0] == BodyStart && t[1] == Snapshot(fds)
            && t[2] == KernelUnshare(Callback, CLONE_NEWNS)
            && |t| - 1 - |fds| > 2
            && t[|t| - 1 - |fds|..] == Reopens(fds) + [BodyEnd]
            && forall k :: 0 <= k < |t| - 1 - |fds| ==> !t[k].Reopen?
  {
    hide Inner, Namespace, SnapshotOf;
    InnerEvents(fd, env);
  }

  /** The callback, spelled out case by case. */
  lemma {:induction false} CallbackSpelledOut(fd: int, env: BodyEnv)
    ensures var fds := SnapshotOf(env);
            BodyTrace(fd, env) ==
            [BodyStart, Snapshot(fds), KernelUnshare(Callback, 0x0002_0000)]
            + (if !env.unshareOk then []
               else if !env.slaveOk then [MakeSlave]
               else if fd == -1 then [MakeSlave, LocalUnmount, HideZygisk]
               else if !env.writeOk then [MakeSlave, WritePid, CloseSocket, LocalUnmount, HideZygisk]
               else if env.answer != Some(true) then
                 [MakeSlave, WritePid, ReadResult, CloseSocket, LocalUnmount, HideZygisk]
               else [MakeSlave, WritePid, ReadResult, CloseSocket, ResultTrue, HideZygisk])
            + Reopens(fds) + [BodyEnd]
  {
    hide Reopens, SnapshotOf;
    InnerSpelledOut(fd, env);
    hide Inner;
  }

  lemma {:induction false} InnerSpelledOut(fd: int, env: BodyEnv)
    ensures Namespace(fd, env) ==
            [KernelUnshare(Callback, 0x0002_0000)]
            + (if !env.unshareOk then []
               else if !env.slaveOk then [MakeSlave]
               else if fd == -1 then [MakeSlave, LocalUnmount, HideZygisk]
               else if !env.writeOk then [MakeSlave, WritePid, CloseSocket, LocalUnmount, HideZygisk]
               else if env.answer != Some(true) then
                 [MakeSlave, WritePid, ReadResult, CloseSocket, LocalUnmount, HideZygisk]
               else [MakeSlave, WritePid, ReadResult, CloseSocket, ResultTrue, HideZygisk])
  {
  }

  lemma {:induction false} RegularFdsAre(infos: seq<Option<FdInfo>>, fd: int)
    ensures fd in RegularFds(infos) <==>
            exists k :: 0 <= k < |infos| && Regular(infos[k]) && infos[k].value.fd == fd
    decreases |infos|
  {
    if infos != [] {
      RegularFdsAre(infos[..|infos| - 1], fd);
    }
  }

  /** A descriptor is reopened exactly if it was listed, could be examined, and is neither a
      socket nor a memfd. */
  lemma {:induction false} ReopenedIffRegular(fd: int, env: BodyEnv, x: int)
    ensures Reopen(x) in BodyTrace(fd, env) <==>
            && env.openFds.Some?
            && exists info :: Some(info) in env.openFds.value && info.fd == x &&
                              !info.isSock && !("/memfd:" <= info.filePath)
  {
    hide Inner, Namespace, RegularFds;
    InnerEvents(fd, env);
    var fds := SnapshotOf(env);
    assert Reopen(x) in BodyTrace(fd, env) <==> Reopen(x) in Reopens(fds);
    if x in fds {
      var k :| 0 <= k < |fds| && fds[k] == x;
      assert Reopens(fds)[k] == Reopen(x);
    }
    if env.openFds.Some? {
      RegularFdsAre(env.openFds.value, x);
    }
  }

  /** Whichever call fails, a run of the callback that gets past making the namespace ends
      either with the companion's success or with unmounting locally, never with both and
      never with neither; any other run ends with neither. */
  lemma {:induction false} OneOutcome(fd: int, env: BodyEnv)
    ensures Count(BodyTrace(fd, env), ResultTrue) + Count(BodyTrace(fd, env), LocalUnmount) ==
            if env.unshareOk && env.slaveOk then 1 else 0
    ensures Count(BodyTrace(fd, env), ResultTrue) == 1 ==> ResultIsTrue(fd, env)
  {
    hide Inner, SnapshotOf, Reopens, BodyTrace, Count;
    CountInCallback(fd, env, ResultTrue);
    CountInCallback(fd, env, LocalUnmount);
    CountAbsent(Reopens(SnapshotOf(env)), ResultTrue);
    CountAbsent(Reopens(SnapshotOf(env)), LocalUnmount);
    InnerOutcome(fd, env);
    InnerResult(fd, env);
  }

  lemma {:induction false} InnerResult(fd: int, env: BodyEnv)
    ensures Count(Inner(fd, env), ResultTrue) > 0 ==> ResultIsTrue(fd, env)
  {
    if !ResultIsTrue(fd, env) {
      CountAbsent(Inner(fd, env), ResultTrue);
    }
  }

  // What every action keeps

  /** The books of a trace: runs of the callback against preparations, namespaces against
      runs, reopened descriptors against noted ones. */
  ghost predicate Balanced(callback: Function, trace: seq<Event>, preparations: nat) {
    && (callback.Body? <==> Waiting(trace))
    && Count(trace, BodyStart) + (if callback.Body? then 1 else 0) <= Count(trace, Armed)
    && Count(trace, Armed) <= preparations
    && Count(trace, BodyEnd) == Count(trace, BodyStart)
    && Count(trace, KernelUnshare(Callback, CLONE_NEWNS)) == Count(trace, BodyStart)
    && forall fd :: Count(trace, Reopen(fd)) == Noted(trace, fd)
  }

  ghost predicate InOrder(s: App, preparations: nat) {
    Balanced(s.callback, s.trace, preparations) && Guarded(s.trace)
  }

  /** A hook passes no call on while the callback is waiting, nor the flag at any time. */
  predicate Guarded(trace: seq<Event>) {
    trace == [] ||
    var front, e := trace[..|trace| - 1], trace[|trace| - 1];
    && Guarded(front)
    && (ByHook(e) ==> !Waiting(front))
    && (e.KernelUnshare? && e.flags & CLONE_NEWNS != 0 ==> e.via != Hook)
  }

  lemma {:induction false} GuardedAppend(a: seq<Event>, b: seq<Event>)
    requires Guarded(a) && forall k :: 0 <= k < |b| ==> !ByHook(b[k])
    ensures Guarded(a + b)
    decreases |b|
  {
    if b == [] {
      assert a + b == a;
    } else {
      assert (a + b)[..|a + b| - 1] == a + b[..|b| - 1];
      GuardedAppend(a, b[..|b| - 1]);
    }
  }

  lemma {:induction false} CallbackEvents(fd: int, env: BodyEnv, k: nat)
    requires k < |BodyTrace(fd, env)|
    ensures !ByHook(BodyTrace(fd, env)[k]) && BodyTrace(fd, env)[k] != Armed
  {
    hide Inner, Namespace, SnapshotOf;
    InnerEvents(fd, env);
  }

  lemma {:induction false} CallbackCounts(fd: int, env: BodyEnv, x: int)
    ensures var t := BodyTrace(fd, env);
            && Count(t, BodyStart) == Count(t, BodyEnd) == 1 && Count(t, Armed) == 0
            && Count(t, KernelUnshare(Callback, CLONE_NEWNS)) == 1
            && Count(t, Reopen(x)) == Noted(t, x)
  {
    hide Inner, Namespace, Reopens, SnapshotOf, Count;
    InnerEvents(fd, env);
    forall e | e == BodyStart || e == BodyEnd || e == Armed || e == KernelUnshare(Callback, CLONE_NEWNS)
      ensures Count(BodyTrace(fd, env), e) == if e == Armed then 0 else 1
    {
      CountInCallback(fd, env, e);
      CountAbsent(Inner(fd, env), e);
      CountAbsent(Reopens(SnapshotOf(env)), e);
    }
    CountInCallback(fd, env, Reopen(x));
    CountAbsent(Inner(fd, env), Reopen(x));
    ReopensCount(SnapshotOf(env), x);
    NotedInCallback(fd, env, x);
  }

  lemma {:induction false} CallbackKeepsBooks(s: App, env: BodyEnv, n: nat)
    requires InOrder(s, n)
    ensures InOrder(RunCallback(s, env), n)
    ensures RunCallback(s, env).callback.Empty?
  {
    hide BodyTrace, Count, Noted, Guarded;
    match s.callback
    case Empty =>
    case Body(fd) =>
      var t := BodyTrace(fd, env);
      CallbackCounts(fd, env, 0);
      forall x
        ensures Count(s.trace + t, Reopen(x)) == Noted(s.trace + t, x)
      {
        CallbackCounts(fd, env, x);
        CountAppend(s.trace, t, Reopen(x));
        NotedAppend(s.trace, t, x);
      }
      CountAppend(s.trace, t, BodyStart);
      CountAppend(s.trace, t, BodyEnd);
      CountAppend(s.trace, t, Armed);
      CountAppend(s.trace, t, KernelUnshare(Callback, CLONE_NEWNS));
      assert t[|t| - 1] == BodyEnd && |t| > 0 by { CallbackEnds(fd, env); }
      assert (s.trace + t)[|s.trace + t| - 1] == BodyEnd;
      forall k | 0 <= k < |t|
        ensures !ByHook(t[k])
      {
        CallbackEvents(fd, env, k);
      }
      GuardedAppend(s.trace, t);
  }

  lemma {:induction false} CallbackEnds(fd: int, env: BodyEnv)
    ensures var t := BodyTrace(fd, env); |t| > 0 && t[|t| - 1] == BodyEnd
  {
  }

  /** A call that reaches libc, from a hook or from the runtime itself. */
  lemma {:induction false} CallKeepsBooks(s: App, e: Event, n: nat)
    requires InOrder(s, n)
    requires (e.KernelUnshare? && e.via != Callback) || e.KernelSetresuid?
    requires e.via == Hook ==> s.callback.Empty? && (e.KernelUnshare? ==> e.flags & CLONE_NEWNS == 0)
    ensures InOrder(Emit(s, [e]), n)
  {
    OneMoreEvent(s, e, n);
  }

  lemma {:induction false} OneMoreEvent(s: App, e: Event, n: nat)
    requires Balanced(s.callback, s.trace, n)
    requires e == Armed || (e.KernelUnshare? && e.via != Callback) || e.KernelSetresuid?
    ensures var t := s.trace + [e];
            && t[..|s.trace|] == s.trace
            && (Waiting(t) <==> e == Armed || Waiting(s.trace))
            && Count(t, BodyStart) == Count(s.trace, BodyStart)
            && Count(t, BodyEnd) == Count(s.trace, BodyEnd)
            && Count(t, Armed) == Count(s.trace, Armed) + (if e == Armed then 1 else 0)
            && Count(t, KernelUnshare(Callback, CLONE_NEWNS)) ==
               Count(s.trace, KernelUnshare(Callback, CLONE_NEWNS))
            && forall fd :: Count(t, Reopen(fd)) == Noted(t, fd)
  {
    var t := s.trace + [e];
    assert t[..|s.trace|] == s.trace;
  }

  lemma {:induction false} PreparationShape(s: App, a: Action)
    requires a.Pre?
    ensures var s' := PreSpec(s, a);
            || (s'.callback == s.callback && s'.trace == s.trace)
            || (s'.callback == Body(a.companionFd) && s'.trace == s.trace + [Armed])
  {
  }

  lemma {:induction false} PreparationKeepsBooks(s: App, a: Action, n: nat)
    requires InOrder(s, n) && a.Pre?
    ensures InOrder(PreSpec(s, a), n + 1)
  {
    hide Count, Noted, PreSpec;
    PreparationShape(s, a);
    OneMoreEvent(s, Armed, n);
  }

  lemma {:induction false} ActionKeepsBooks(s: App, a: Action, n: nat)
    requires InOrder(s, n)
    ensures InOrder(Next(s, a), n + if a.Pre? then 1 else 0)
  {
    hide Balanced, Guarded, RunCallback, Masked;
    match a
    case Pre(_, _, _, _, _, _) =>
      PreparationKeepsBooks(s, a, n);
    case Unshare(flags, env) =>
      if s.unshareHooked {
        CallbackKeepsBooks(s, env, n);
        CallKeepsBooks(RunCallback(s, env), KernelUnshare(Hook, Masked(flags)), n);
      } else {
        CallKeepsBooks(s, KernelUnshare(Runtime, flags), n);
      }
    case Setresuid(env) =>
      if s.setresuidHooked {
        CallbackKeepsBooks(s, env, n);
        CallKeepsBooks(RunCallback(s, env), KernelSetresuid(Hook), n);
      } else {
        CallKeepsBooks(s, KernelSetresuid(Runtime), n);
      }
    case Post(_, _) =>
  }

  lemma {:induction false} RunKeepsBooks(actions: seq<Action>)
    ensures InOrder(After(actions), Preparations(actions))
    decreases |actions|
  {
    if actions != [] {
      RunKeepsBooks(actions[..|actions| - 1]);
      ActionKeepsBooks(After(actions[..|actions| - 1]), actions[|actions| - 1],
                       Preparations(actions[..|actions| - 1]));
    }
  }

  // The results, for every run

  /** The callback starts at most once for each preparation, always completes, makes one
      new namespace each time, and reopens every descriptor exactly as often as it was
      noted.  With a single preparation, all of that happens at most once. */
  lemma {:induction false} CallbackRunsAtMostOnce(actions: seq<Action>, fd: int)
    ensures var t := After(actions).trace;
            && Count(t, BodyStart) <= Preparations(actions)
            && Count(t, BodyEnd) == Count(t, BodyStart)
            && Count(t, KernelUnshare(Callback, CLONE_NEWNS)) == Count(t, BodyStart)
            && Count(t, Reopen(fd)) == Noted(t, fd)
  {
    RunKeepsBooks(actions);
  }

  lemma {:induction false} NotWaiting(trace: seq<Event>, i: nat) returns (m: nat)
    requires i < |trace| && trace[i] == Armed && !Waiting(trace)
    ensures i < m < |trace| && trace[m] == BodyEnd
    decreases |trace|
  {
    var n := |trace| - 1;
    if trace[n] == BodyEnd {
      m := n;
    } else {
      m := NotWaiting(trace[..n], i);
    }
  }

  lemma {:induction false} GuardedAt(trace: seq<Event>, j: nat)
    requires Guarded(trace) && j < |trace|
    ensures ByHook(trace[j]) ==> !Waiting(trace[..j])
    ensures trace[j].KernelUnshare? && trace[j].flags & CLONE_NEWNS != 0 ==> trace[j].via != Hook
    decreases |trace|
  {
    if j < |trace| - 1 {
      GuardedAt(trace[..|trace| - 1], j);
      assert trace[..|trace| - 1][..j] == trace[..j];
    }
  }

  /** Once the callback has been set, no hooked call reaches the original before the
      callback has completed. */
  lemma {:induction false} CallbackBeforeHookedCalls(actions: seq<Action>, i: nat, j: nat) returns (m: nat)
    requires var t := After(actions).trace;
             i < j < |t| && t[i] == Armed && ByHook(t[j])
    ensures i < m < j && After(actions).trace[m] == BodyEnd
  {
    var t := After(actions).trace;
    RunKeepsBooks(actions);
    GuardedAt(t, j);
    m := NotWaiting(t[..j], i);
  }

  /** No hook passes the flag for a new mount namespace on. */
  lemma {:induction false} HookNeverPassesNewns(actions: seq<Action>, j: nat)
    requires j < |After(actions).trace|
    ensures var e := After(actions).trace[j];
            e.KernelUnshare? && e.flags & CLONE_NEWNS != 0 ==> e.via != Hook
  {
    RunKeepsBooks(actions);
    GuardedAt(After(actions).trace, j);
  }

  predicate MakesNamespace(e: Event) {
    e.KernelUnshare? && e.flags & CLONE_NEWNS != 0
  }

  /** How often libc has been asked for a new mount namespace, by whomever. */
  function NewNamespaces(trace: seq<Event>): nat {
    if trace == [] then 0
    else NewNamespaces(trace[..|trace| - 1]) + if MakesNamespace(trace[|trace| - 1]) then 1 else 0
  }

  predicate OnlyByCallback(trace: seq<Event>) {
    forall k :: 0 <= k < |trace| && MakesNamespace(trace[k]) ==> trace[k] == KernelUnshare(Callback, CLONE_NEWNS)
  }

  lemma {:induction false} OnlyCallbackMakesNamespaces(a: seq<Event>, b: seq<Event>)
    requires OnlyByCallback(b)
    ensures NewNamespaces(a + b) - NewNamespaces(a) ==
            Count(a + b, KernelUnshare(Callback, CLONE_NEWNS)) - Count(a, KernelUnshare(Callback, CLONE_NEWNS))
    decreases |b|
  {
    assert MakesNamespace(KernelUnshare(Callback, CLONE_NEWNS));
    hide MakesNamespace;
    if b == [] {
      assert a + b == a;
    } else {
      var n := |b| - 1;
      assert (a + b)[..|a + b| - 1] == a + b[..n];
      OnlyCallbackMakesNamespaces(a, b[..n]);
    }
  }

  /** What an action adds to the trace while `unshare` is hooked. */
  lemma {:induction false} AddedWhileHooked(s: App, a: Action) returns (added: seq<Event>)
    requires s.unshareHooked
    ensures Next(s, a).trace == s.trace + added && OnlyByCallback(added)
  {
    hide RunCallback, Masked, OnlyByCallback;
    assert s.trace + [] == s.trace;
    NoNamespaces([]);
    match a
    case Pre(_, _, _, _, _, _) =>
      PreparationShape(s, a);
      added := if Next(s, a).trace == s.trace then [] else [Armed];
      NoNamespaces([Armed]);
    case Unshare(flags, env) =>
      var body := AddedByCallback(s, env);
      var rest := Masked(flags);
      added := if rest == 0 then body else body + [KernelUnshare(Hook, rest)];
      NoNamespaces([KernelUnshare(Hook, rest)]);
      OnlyByCallbackAppend(body, [KernelUnshare(Hook, rest)]);
    case Setresuid(env) =>
      var body := [];
      if s.setresuidHooked {
        body := AddedByCallback(s, env);
      }
      var last := [KernelSetresuid(if s.setresuidHooked then Hook else Runtime)];
      added := body + last;
      NoNamespaces(last);
      OnlyByCallbackAppend(body, last);
      assert [] + last == last;
    case Post(_, _) =>
      added := [];
  }

  lemma {:induction false} AddedByCallback(s: App, env: BodyEnv) returns (added: seq<Event>)
    ensures RunCallback(s, env).trace == s.trace + added && OnlyByCallback(added)
  {
    hide Inner, Namespace, SnapshotOf;
    match s.callback
    case Empty =>
      added := [];
    case Body(fd) =>
      added := BodyTrace(fd, env);
      InnerEvents(fd, env);
  }

  lemma {:induction false} NoNamespaces(t: seq<Event>)
    requires forall k :: 0 <= k < |t| && t[k].KernelUnshare? ==> t[k].flags & CLONE_NEWNS == 0
    ensures OnlyByCallback(t)
  {
  }

  lemma {:induction false} OnlyByCallbackAppend(a: seq<Event>, b: seq<Event>)
    requires OnlyByCallback(a) && OnlyByCallback(b)
    ensures OnlyByCallback(a + b)
  {
  }

  /** While `unshare` is hooked, libc is asked for a new mount namespace at most once for
      each preparation, whatever the runtime asks for, and only by the callback. */
  lemma {:induction false} NamespacesWhileHooked(actions: seq<Action>, n: nat)
    requires n <= |actions|
    requires forall k :: n <= k < |actions| ==> After(actions[..k]).unshareHooked
    ensures var before, t := After(actions[..n]).trace, After(actions).trace;
            && NewNamespaces(t) - NewNamespaces(before) ==
               Count(t, KernelUnshare(Callback, CLONE_NEWNS)) - Count(before, KernelUnshare(Callback, CLONE_NEWNS))
            && NewNamespaces(t) - NewNamespaces(before) <= Preparations(actions)
    decreases |actions|
  {
    hide Next, Count, NewNamespaces;
    CallbackRunsAtMostOnce(actions, 0);
    if n == |actions| {
      assert actions[..n] == actions;
    } else {
      var m := |actions| - 1;
      var front := actions[..m];
      forall k | n <= k < m
        ensures After(front[..k]).unshareHooked
      {
        assert front[..k] == actions[..k];
      }
      assert front[..n] == actions[..n];
      NamespacesWhileHooked(front, n);
      assert After(actions[..m]).unshareHooked;
      var added := AddedWhileHooked(After(front), actions[m]);
      OnlyCallbackMakesNamespaces(After(front).trace, added);
    }
  }

  lemma {:induction false} WaitingMeansHooked(actions: seq<Action>)
    requires forall k :: 0 <= k < |actions| ==> !actions[k].Post?
    ensures var s := After(actions); s.callback.Body? ==> s.unshareHooked && s.setresuidHooked
    decreases |actions|
  {
    hide BodyTrace, Masked;
    if actions != [] {
      WaitingMeansHooked(actions[..|actions| - 1]);
    }
  }

  /** A callback that has been set is not bypassed: until specialization is over, the next
      call of either function starts with it, and what the hook then passes on is the call
      without the flag for a new mount namespace, if anything is left of it. */
  lemma {:induction false} NextCallRunsCallback(actions: seq<Action>, call: Action)
    requires forall k :: 0 <= k < |actions| ==> !actions[k].Post?
    requires Waiting(After(actions).trace) && (call.Unshare? || call.Setresuid?)
    ensures var s := After(actions);
            && s.callback.Body?
            && Next(s, call).callback.Empty?
            && Next(s, call).trace == s.trace + BodyTrace(s.callback.fd, call.env) + PassedOn(call)
  {
    hide BodyTrace, Masked, Waiting, Balanced, Guarded;
    RunKeepsBooks(actions);
    WaitingMeansHooked(actions);
    var s := After(actions);
    assert s.callback.Body? by { BooksWaiting(s, Preparations(actions)); }
    var t := s.trace + BodyTrace(s.callback.fd, call.env);
    assert t + [] == t;
  }

  lemma {:induction false} BooksWaiting(s: App, n: nat)
    requires InOrder(s, n)
    ensures s.callback.Body? <==> Waiting(s.trace)
  {
  }

  /** What reaches the original function when the hook is in place. */
  function PassedOn(call: Action): seq<Event>
    requires call.Unshare? || call.Setresuid?
  {
    if call.Setresuid? then [KernelSetresuid(Hook)]
    else if Masked(call.flags) == 0 then []
    else [KernelUnshare(Hook, Masked(call.flags))]
  }

  lemma {:induction false} MaskedIsZero(flags: bv32)
    ensures Masked(flags) == 0 <==> OnlyNewns(flags)
  {
    if Masked(flags) == 0 {
      assert flags | CLONE_NEWNS == (flags & !CLONE_NEWNS) | CLONE_NEWNS;
    }
  }

  /** The call of `unshare` is skipped exactly if it asks for nothing but a new mount
      namespace; otherwise it keeps all its other flags. */
  lemma {:induction false} OtherFlagsPassedOn(call: Action)
    requires call.Unshare?
    ensures PassedOn(call) == [] <==> OnlyNewns(call.flags)
    ensures forall e :: e in PassedOn(call) ==> e.KernelUnshare? && WithoutNewns(e.flags, call.flags)
  {
    MaskedIsZero(call.flags);
    hide Masked, OnlyNewns, WithoutNewns;
  }

  // ---------------------------------------------------------------------------
  // Who is treated, and what is left behind
  // ---------------------------------------------------------------------------

  /** The callback is set exactly for a user app on the denylist that has not been granted
      root, once both hooks are in place; it gets the socket of the companion. */
  lemma {:induction false} ArmedIff(s: App, a: Action)
    requires a.Pre?
    ensures var s' := Next(s, a);
            && (s'.trace == s.trace + [Armed] <==>
                !a.isRoot && a.isOnDenylist && a.isUserApp && a.unshareHook.Installed? && a.setresuidHook.Installed?)
            && (s'.trace == s.trace + [Armed] ==> s'.callback == Body(a.companionFd))
            && (s'.trace != s.trace + [Armed] ==> s'.trace == s.trace && s'.callback == s.callback)
  {
    assert s.trace + [Armed] != s.trace;
  }

  /** Every other process is left entirely alone, and of the two hooks the second is only
      attempted after the first has been reported in place. */
  lemma {:induction false} HookedByPreparation(s: App, a: Action)
    requires a.Pre?
    ensures a.isRoot || !a.isOnDenylist || !a.isUserApp ==> Next(s, a) == s
    ensures !a.isRoot && a.isOnDenylist && a.isUserApp ==>
              && (Next(s, a).unshareHooked <==> s.unshareHooked || !a.unshareHook.NotInstalled?)
              && (Next(s, a).setresuidHooked <==>
                  s.setresuidHooked || (a.unshareHook.Installed? && !a.setresuidHook.NotInstalled?))
  {
  }

  ghost predicate OriginalsSaved(s: App) {
    (s.unshareHooked ==> s.oldUnshare) && (s.setresuidHooked ==> s.oldSetresuid)
  }

  lemma {:induction false} RunSavesOriginals(actions: seq<Action>)
    ensures OriginalsSaved(After(actions))
    decreases |actions|
  {
    hide BodyTrace, Masked;
    if actions != [] {
      RunSavesOriginals(actions[..|actions| - 1]);
    }
  }

  /** After specialization, in every run, a function stays hooked only if it was and could
      not be unhooked; when both could, the runtime's calls reach libc as they are. */
  lemma {:induction false} NothingStaysHooked(actions: seq<Action>, a: Action, flags: bv32, env: BodyEnv)
    requires a.Post?
    ensures var s, s' := After(actions), Next(After(actions), a);
            && (s'.unshareHooked <==> s.unshareHooked && a.unshareUnhook.NotInstalled?)
            && (s'.setresuidHooked <==> s.setresuidHooked && a.setresuidUnhook.NotInstalled?)
            && s'.trace == s.trace && s'.callback == s.callback
            && (!a.unshareUnhook.NotInstalled? ==>
                  Next(s', Unshare(flags, env)).trace == s.trace + [KernelUnshare(Runtime, flags)])
            && (!a.setresuidUnhook.NotInstalled? ==>
                  Next(s', Setresuid(env)).trace == s.trace + [KernelSetresuid(Runtime)])
  {
    hide BodyTrace, Masked, After;
    RunSavesOriginals(actions);
  }
}
