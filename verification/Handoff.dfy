/**
 The hand-off of blocking system calls between the main thread and the syscall
 thread. One mutex and three condition variables (idle, enqueued, dequeued) guard
 `syscalls->state`; the main thread also advances `state->event`.

 The protocol is a transition system. Each thread has a program counter, and every
 step is one access to shared state, one lock, one unlock, one wait or one signal.
 A wait releases the mutex and parks the thread at a `...Wait` counter; a signal (or
 a spurious wakeup, or a timeout) moves it to the matching `...Relock` counter, where
 it competes for the mutex again. Kernel calls, sleeps and sniffing are arbitrary
 delays, `die` is the terminal flag `dead`, and a failed assertion in the syscall
 thread is terminal too and leaves the thread at `SAbort`.
 */
module Handoff {

  datatype Option<T> = None | Some(value: T)

  /** Owner of `state->mutex`. */
  datatype Mutex = Free | HeldByMain | HeldBySyscall

  /** `enum syscall_state_t`. */
  datatype Phase = Idle | Enqueued | Running | Done | Exiting

  /** How an event of the script makes the main thread use the mutex. */
  datatype Kind =
    | Blocking(bracketed: bool)   // system call handed to the syscall thread; its handler
                                  // calls begin_syscall and end_syscall, or returns without
    | Timed      // inbound packet, command, code, non-blocking call: wait_for_event
    | Sniffed    // outbound packet: runs with the mutex held throughout

  /** Who asked the main thread to wait for the idle state. */
  datatype Purpose = ToEnqueue | ToTearDown(dying: bool)

  datatype MainPc =
    | MNext                           // top of the interpreter loop
    | MSniff                          // do_outbound_script_packet
    | MTimedUnlock                    // wait_for_event: run_unlock
    | MTimedSleep                     // wait_for_event: sleeping, then run_lock
    | MTimedRun                       // check_event_time and the event's action
    | MAwaitIdle(why: Purpose)        // await_idle_thread: loop test
    | MIdleWait(why: Purpose)         // parked on `idle`
    | MIdleRelock(why: Purpose, expired: bool)
    | MIdleExpired(why: Purpose)      // ETIMEDOUT was returned
    | MEnqueue                        // about to store SYSCALL_ENQUEUED
    | MSignalEnqueued
    | MAwaitDequeued                  // loop test on SYSCALL_ENQUEUED
    | MDequeuedWait                   // parked on `dequeued`
    | MDequeuedRelock
    | MYieldUnlock                    // "unlock and yield" loop
    | MYield
    | MYieldLock(sleeping: bool)
    | MYieldTest(sleeping: bool)
    | MExitStore(dying: bool)         // about to store SYSCALL_EXITING
    | MExitSignal(dying: bool)
    | MExitUnlock(dying: bool)
    | MJoin(dying: bool)              // pthread_join
    | MJoinLock(dying: bool)
    | MFinished                       // syscalls_free has returned

  datatype SyscallPc =
    | SStart                          // before the first run_lock
    | SDispatch                       // the switch on syscalls->state
    | SEnqueuedWait                   // parked on `enqueued`
    | SEnqueuedRelock
    | SSleepUnlock                    // invoke_system_call: wait_for_event
    | SSleep
    | STimed                          // check_event_time, argument evaluation
    | SBegin                          // begin_syscall: store SYSCALL_RUNNING
    | SBeginUnlock
    | SSignalDequeued                 // begin_syscall: signal after unlocking
    | SCall                           // inside the kernel, then end_syscall's run_lock
    | SEnd(endTime: nat)              // end_syscall: store SYSCALL_DONE
    | SVerify                         // result checks and verify_time
    | SStoreIdle
    | SSignalIdle
    | SExitUnlock
    | SExited
    | SAbort                          // a failed assert()

  /** The event cursor, what the syscall thread knows of its call, and three histories. */
  datatype Book = Book(
    cursor: int,                // state->event: -1 before the first event, |script| after the last
    callEvent: Option<int>,     // syscalls->event
    liveEnd: int,               // syscalls->live_end_usecs
    sysEvent: int,              // the local `event` of system_call_thread
    enqueued: seq<int>,         // history: events handed over
    started: seq<int>,          // history: events whose kernel call was started
    completed: seq<int>)        // history: events whose kernel call was checked and retired

  datatype State = State(
    script: seq<Kind>,
    mutex: Mutex,
    phase: Phase,               // syscalls->state
    main: MainPc,
    sys: SyscallPc,
    book: Book,
    dead: bool)

  /** Outcome of the nondeterminism inside one thread step: the happy path (was the
      syscall thread seen sleeping? what does the clock say?) or an error path, which
      either calls `die` directly or frees the state first. */
  datatype Choice = Go(sleeping: bool, now: nat) | Err(direct: bool)

  datatype Action =
    | Main(choice: Choice)
    | Sys(choice: Choice)
    | WakeMain(expired: bool)   // spurious wakeup, or ETIMEDOUT of the timed wait
    | WakeSys                   // spurious wakeup

  // ---------------------------------------------------------------- steps

  /** pthread_cond_signal on each condition variable: unparks the waiter, if any. */
  function SignalEnqueued(s: State): State {
    if s.sys.SEnqueuedWait? then s.(sys := SEnqueuedRelock) else s
  }

  function SignalDequeued(s: State): State {
    if s.main.MDequeuedWait? then s.(main := MDequeuedRelock) else s
  }

  function SignalIdle(s: State): State {
    if s.main.MIdleWait? then s.(main := MIdleRelock(s.main.why, false)) else s
  }

  function LockMain(s: State, pc: MainPc): Option<State> {
    if s.mutex.Free? then Some(s.(mutex := HeldByMain, main := pc)) else None
  }

  function LockSys(s: State, pc: SyscallPc): Option<State> {
    if s.mutex.Free? then Some(s.(mutex := HeldBySyscall, sys := pc)) else None
  }

  function Die(s: State): State { s.(dead := true) }

  /** A failed assert() in the syscall thread. */
  function Abort(s: State): State { s.(sys := SAbort, dead := true) }

  /** The event is a blocking call whose handler brackets the kernel call. */
  predicate Bracketed(script: seq<Kind>, e: int) {
    0 <= e < |script| && script[e] == Blocking(true)
  }

  function NextEvent(s: State, c: Choice): State {
    var e := if s.book.cursor < |s.script| then s.book.cursor + 1 else s.book.cursor;
    s.(book := s.book.(cursor := e), main := AfterNext(s.script, e, c))
  }

  function AfterNext(script: seq<Kind>, e: int, c: Choice): MainPc {
    if c.Err? then MAwaitIdle(ToTearDown(true))
    else if 0 <= e < |script| then
      match script[e]
      case Blocking(_) => MAwaitIdle(ToEnqueue)
      case Timed => MTimedUnlock
      case Sniffed => MSniff
    else MAwaitIdle(ToTearDown(false))
  }

  function AfterIdle(why: Purpose): MainPc {
    match why
    case ToEnqueue => MEnqueue
    case ToTearDown(dying) => MExitStore(dying)
  }

  /** await_idle_thread gave up: a blocked enqueue frees the state and dies, a tear-down
      dies at once or cancels the thread, which is terminal here. On its way to die a normal
      tear-down reads syscalls->event, which may be null by then; that is terminal too. */
  function AfterExpiry(s: State): State
    requires s.main.MIdleExpired?
  {
    if s.main.why.ToEnqueue? then s.(main := MAwaitIdle(ToTearDown(true))) else Die(s)
  }

  function MainStep(s: State, c: Choice): Option<State> {
    match s.main
    case MNext => Some(NextEvent(s, c))
    case MSniff | MTimedRun =>
      if c.Go? then Some(s.(main := MNext))
      else if c.direct then Some(Die(s)) else Some(s.(main := MAwaitIdle(ToTearDown(true))))
    case MTimedUnlock => Some(s.(mutex := Free, main := MTimedSleep))
    case MTimedSleep => LockMain(s, MTimedRun)
    case MAwaitIdle(why) =>
      if s.phase.Idle? then Some(s.(main := AfterIdle(why)))
      else Some(s.(mutex := Free, main := MIdleWait(why)))
    case MIdleRelock(why, expired) =>
      LockMain(s, if expired then MIdleExpired(why) else MAwaitIdle(why))
    case MIdleExpired(why) => Some(AfterExpiry(s))
    case MEnqueue =>
      Some(s.(phase := Enqueued, main := MSignalEnqueued,
              book := s.book.(enqueued := s.book.enqueued + [s.book.cursor])))
    case MSignalEnqueued => Some(SignalEnqueued(s).(main := MAwaitDequeued))
    case MAwaitDequeued =>
      if s.phase.Enqueued? then Some(s.(mutex := Free, main := MDequeuedWait))
      else Some(s.(main := MYieldUnlock))
    case MDequeuedRelock => LockMain(s, MAwaitDequeued)
    case MYieldUnlock => Some(s.(mutex := Free, main := MYield))
    case MYield => if c.Go? then Some(s.(main := MYieldLock(c.sleeping))) else Some(Die(s))
    case MYieldLock(sleeping) => LockMain(s, MYieldTest(sleeping))
    case MYieldTest(sleeping) =>
      Some(s.(main := if sleeping || s.phase.Idle? then MNext else MYieldUnlock))
    case MExitStore(dying) => Some(s.(phase := Exiting, main := MExitSignal(dying)))
    case MExitSignal(dying) => Some(SignalEnqueued(s).(main := MExitUnlock(dying)))
    case MExitUnlock(dying) => Some(s.(mutex := Free, main := MJoin(dying)))
    case MJoin(dying) => if s.sys.SExited? then Some(s.(main := MJoinLock(dying))) else None
    case MJoinLock(dying) =>
      if dying then (if s.mutex.Free? then Some(Die(s)) else None) else LockMain(s, MFinished)
    case MIdleWait(_) => None
    case MDequeuedWait => None
    case MFinished => None
  }

  function Dispatch(s: State): State {
    match s.phase
    case Idle => s.(mutex := Free, sys := SEnqueuedWait)
    case Running => Abort(s)
    case Done => Abort(s)
    case Exiting => s.(sys := SExitUnlock)
    case Enqueued =>
      if OnBlocking(s)
      then s.(book := s.book.(sysEvent := s.book.cursor, callEvent := Some(s.book.cursor), liveEnd := -1),
              sys := SSleepUnlock)
      else Abort(s)
  }

  function SysStep(s: State, c: Choice): Option<State> {
    match s.sys
    case SStart => LockSys(s, SDispatch)
    case SDispatch => Some(Dispatch(s))
    case SEnqueuedRelock => LockSys(s, SDispatch)
    case SSleepUnlock => Some(s.(mutex := Free, sys := SSleep))
    case SSleep => LockSys(s, STimed)
    case STimed =>
      if c.Err? then Some(Die(s))
      else Some(s.(sys := if Bracketed(s.script, s.book.sysEvent) then SBegin else SVerify))
    case SBegin =>
      if s.phase.Enqueued?
      then Some(s.(phase := Running, sys := SBeginUnlock,
                   book := s.book.(started := s.book.started + [s.book.sysEvent])))
      else Some(Abort(s))
    case SBeginUnlock => Some(s.(mutex := Free, sys := SSignalDequeued))
    case SSignalDequeued => Some(SignalDequeued(s).(sys := SCall))
    case SCall => if c.Go? then LockSys(s, SEnd(c.now)) else None
    case SEnd(t) =>
      if s.phase.Running? then Some(s.(book := s.book.(liveEnd := t), phase := Done, sys := SVerify))
      else Some(Abort(s.(book := s.book.(liveEnd := t))))
    case SVerify =>
      if s.book.liveEnd < 0 then Some(Abort(s))
      else if c.Go? then Some(s.(sys := SStoreIdle)) else Some(Die(s))
    case SStoreIdle =>
      if s.phase.Done?
      then Some(s.(phase := Idle, sys := SSignalIdle,
                   book := s.book.(callEvent := None, liveEnd := -1,
                                   completed := s.book.completed + [s.book.sysEvent])))
      else Some(Abort(s))
    case SSignalIdle => Some(SignalIdle(s).(sys := SDispatch))
    case SExitUnlock => Some(s.(mutex := Free, sys := SExited))
    case SEnqueuedWait => None
    case SExited => None
    case SAbort => None
  }

  function Do(s: State, a: Action): Option<State> {
    if s.dead then None else
    match a
    case Main(c) => MainStep(s, c)
    case Sys(c) => SysStep(s, c)
    case WakeMain(expired) =>
      if s.main.MIdleWait? then Some(s.(main := MIdleRelock(s.main.why, expired)))
      else if s.main.MDequeuedWait? && !expired then Some(s.(main := MDequeuedRelock))
      else None
    case WakeSys =>
      if s.sys.SEnqueuedWait? then Some(s.(sys := SEnqueuedRelock)) else None
  }

  /** state_new: the main thread holds the mutex and has just created the syscall thread. */
  function Init(script: seq<Kind>): State {
    State(script, HeldByMain, Idle, MNext, SStart, Book(-1, None, 0, -1, [], [], []), false)
  }

  // ---------------------------------------------------------------- runs

  /** The states visited when the given actions are taken in turn; None if one is not enabled. */
  function Run(s: State, actions: seq<Action>): Option<State>
    decreases |actions|
  {
    if actions == [] then Some(s)
    else match Do(s, actions[0])
         case None => None
         case Some(t) => Run(t, actions[1..])
  }

  ghost predicate Reachable(s: State) {
    exists script: seq<Kind>, actions: seq<Action> ::
      script != [] && Run(Init(script), actions) == Some(s)
  }

  // ---------------------------------------------------------------- the invariant

  predicate MainHolds(pc: MainPc) {
    pc.MNext? || pc.MSniff? || pc.MTimedUnlock? || pc.MTimedRun? || pc.MAwaitIdle? ||
    pc.MIdleExpired? || pc.MEnqueue? || pc.MSignalEnqueued? || pc.MAwaitDequeued? ||
    pc.MYieldUnlock? || pc.MYieldTest? || pc.MExitStore? || pc.MExitSignal? ||
    pc.MExitUnlock? || pc.MFinished?
  }

  predicate SysHolds(pc: SyscallPc) {
    pc.SDispatch? || pc.SSleepUnlock? || pc.STimed? || pc.SBegin? || pc.SBeginUnlock? ||
    pc.SEnd? || pc.SVerify? || pc.SStoreIdle? || pc.SSignalIdle? || pc.SExitUnlock? || pc.SAbort?
  }

  predicate MutexMatchesCounters(s: State) {
    && (s.mutex.HeldByMain? <==> MainHolds(s.main))
    && (s.mutex.HeldBySyscall? <==> SysHolds(s.sys))
  }

  /** Where the syscall thread may be in each phase. */
  predicate SysMatchesPhase(s: State) {
    match s.phase
    case Idle => s.sys.SStart? || s.sys.SDispatch? || s.sys.SEnqueuedWait? ||
                 s.sys.SEnqueuedRelock? || s.sys.SSignalIdle?
    case Enqueued => s.sys.SStart? || s.sys.SDispatch? || s.sys.SEnqueuedRelock? ||
                     s.sys.SSleepUnlock? || s.sys.SSleep? || s.sys.STimed? || s.sys.SBegin? ||
                     s.sys.SVerify? || s.sys.SAbort? ||
                     (s.sys.SEnqueuedWait? && s.main.MSignalEnqueued?)
    case Running => s.sys.SBeginUnlock? || s.sys.SSignalDequeued? || s.sys.SCall? || s.sys.SEnd?
    case Done => s.sys.SVerify? || s.sys.SStoreIdle?
    case Exiting => s.sys.SStart? || s.sys.SDispatch? || s.sys.SEnqueuedRelock? ||
                    s.sys.SExitUnlock? || s.sys.SExited? ||
                    (s.sys.SEnqueuedWait? && s.main.MExitSignal?)
  }

  predicate InEnqueue(pc: MainPc) {
    pc.MSignalEnqueued? || pc.MAwaitDequeued? || pc.MDequeuedWait? || pc.MDequeuedRelock?
  }

  predicate InExit(pc: MainPc) {
    pc.MExitSignal? || pc.MExitUnlock? || pc.MJoin? || pc.MJoinLock? || pc.MFinished?
  }

  /** Where the main thread may be in each phase. */
  predicate MainMatchesPhase(s: State) {
    && (s.phase.Enqueued? ==> InEnqueue(s.main))
    && (s.phase.Exiting? <==> InExit(s.main))
    && (s.main.MEnqueue? || s.main.MExitStore? ==> s.phase.Idle?)
    && (s.main.MSignalEnqueued? ==> s.phase.Enqueued? && (s.sys.SStart? || s.sys.SEnqueuedWait? || s.sys.SEnqueuedRelock?))
    && (s.main.MJoinLock? || s.main.MFinished? ==> s.sys.SExited?)
    && (s.main.MFinished? ==> s.mutex.HeldByMain?)
  }

  /** A parked main thread still has its signal to come. */
  predicate MainWillBeSignalled(s: State) {
    && (s.main.MDequeuedWait? ==> s.phase.Enqueued? || s.sys.SBeginUnlock? || s.sys.SSignalDequeued?)
    && (s.main.MIdleWait? ==> s.phase.Running? || s.phase.Done? || s.sys.SSignalIdle?)
  }

  /** The syscall thread has picked its event up and has not retired it yet. */
  predicate HasEvent(pc: SyscallPc) {
    pc.SSleepUnlock? || pc.SSleep? || pc.STimed? || pc.SBegin? || pc.SBeginUnlock? ||
    pc.SSignalDequeued? || pc.SCall? || pc.SEnd? || pc.SVerify? || pc.SStoreIdle? || pc.SAbort?
  }

  predicate InFlight(p: Phase) { p.Enqueued? || p.Running? || p.Done? }

  /** The current event is a blocking call. */
  predicate OnBlocking(s: State) {
    0 <= s.book.cursor < |s.script| && s.script[s.book.cursor].Blocking?
  }

  predicate InAwait(pc: MainPc) {
    pc.MAwaitIdle? || pc.MIdleWait? || pc.MIdleRelock? || pc.MIdleExpired?
  }

  /** The current event is a blocking call that has not been handed over yet. */
  predicate Waiting(pc: MainPc) {
    pc.MEnqueue? || (InAwait(pc) && pc.why.ToEnqueue?)
  }

  /** Freeing the state on the way to `die`. */
  predicate Dying(pc: MainPc) {
    || (InAwait(pc) && pc.why == ToTearDown(true))
    || ((pc.MExitStore? || pc.MExitSignal? || pc.MExitUnlock? || pc.MJoin? || pc.MJoinLock?) && pc.dying)
  }

  predicate InTearDown(pc: MainPc) {
    (InAwait(pc) && pc.why.ToTearDown?) || pc.MExitStore? || InExit(pc)
  }

  /** The histories against the phase: at most one call is in flight, and it is the last one
      handed over; the syscall thread works on that call and no other. */
  predicate EventsMatch(s: State) {
    var b := s.book;
    && -1 <= b.cursor <= |s.script|
    && (Waiting(s.main) ==> OnBlocking(s))
    && (if InFlight(s.phase) then b.enqueued != [] && b.enqueued == b.completed + [b.enqueued[|b.enqueued| - 1]]
        else b.enqueued == b.completed)
    && (if s.phase.Enqueued? then b.started == b.completed else b.started == b.enqueued)
    && (s.phase.Enqueued? ==> OnBlocking(s) && b.cursor == b.enqueued[|b.enqueued| - 1])
    && (HasEvent(s.sys) ==> InFlight(s.phase) && b.sysEvent == b.enqueued[|b.enqueued| - 1])
    && (HasEvent(s.sys) ==> b.callEvent == Some(b.sysEvent))
    && (HasEvent(s.sys) ==> CallMatches(s))
  }

  /** The end time is recorded by end_syscall and by nothing else; a handler that does not
      bracket its call comes to the check of the end time without having left ENQUEUED. */
  predicate CallMatches(s: State) {
    && (s.phase.Enqueued? ==> s.book.liveEnd < 0)
    && (s.phase.Done? ==> s.book.liveEnd >= 0)
    && (s.phase.Enqueued? && (s.sys.SVerify? || s.sys.SAbort?) ==> !Bracketed(s.script, s.book.sysEvent))
    && (s.sys.SBegin? || s.phase.Running? || s.phase.Done? ==> Bracketed(s.script, s.book.sysEvent))
    && (s.sys.SAbort? ==> s.dead)
  }

  /** The blocking events among the first n of the script, in script order. */
  function Calls(script: seq<Kind>, n: nat): seq<int>
    requires n <= |script|
  {
    if n == 0 then []
    else Calls(script, n - 1) + (if script[n - 1].Blocking? then [n - 1] else [])
  }

  /** How many events of the script have been dealt with as far as handing calls over goes. */
  function Covered(s: State): nat
    requires 0 <= s.book.cursor + 1 && s.book.cursor <= |s.script|
    requires Waiting(s.main) ==> 0 <= s.book.cursor
  {
    if Waiting(s.main) || s.book.cursor == |s.script| then s.book.cursor else s.book.cursor + 1
  }

  /** The hand-over history is exactly the script's blocking calls so far; on the way to
      `die` it is at least a prefix of the script's blocking calls. */
  predicate LogExact(s: State) {
    && -1 <= s.book.cursor <= |s.script|
    && (Waiting(s.main) ==> 0 <= s.book.cursor)
    && (s.book.cursor == |s.script| ==> InTearDown(s.main))
    && (InTearDown(s.main) && !Dying(s.main) ==> s.book.cursor == |s.script|)
    && (if Dying(s.main) then s.book.enqueued <= Calls(s.script, |s.script|)
        else s.book.enqueued == Calls(s.script, Covered(s)))
  }

  predicate Inv(s: State) {
    && Control(s)
    && EventsMatch(s)
    && LogExact(s)
  }

  /** Mutex, counters and phase: everything but the events. */
  predicate Control(s: State) {
    MutexMatchesCounters(s) && SysMatchesPhase(s) && MainMatchesPhase(s) && MainWillBeSignalled(s)
  }

  /** The counters of the main thread up to the hand-over, and those of the other events. */
  predicate BeforeCall(pc: MainPc) {
    pc.MNext? || pc.MSniff? || pc.MTimedUnlock? || pc.MTimedSleep? || pc.MTimedRun? ||
    pc.MAwaitIdle? || pc.MIdleWait? || pc.MIdleRelock? || pc.MIdleExpired? || pc.MEnqueue?
  }

  lemma MainKeepsMutexBeforeCall(s: State, c: Choice)
    requires Control(s) && MainStep(s, c).Some? && BeforeCall(s.main)
    ensures MutexMatchesCounters(MainStep(s, c).value)
  {
  }

  lemma MainKeepsMutexAfterCall(s: State, c: Choice)
    requires Control(s) && MainStep(s, c).Some? && !BeforeCall(s.main)
    ensures MutexMatchesCounters(MainStep(s, c).value)
  {
  }

  lemma MainKeepsMutex(s: State, c: Choice)
    requires Control(s) && MainStep(s, c).Some?
    ensures MutexMatchesCounters(MainStep(s, c).value)
  {
    hide *;
    if BeforeCall(s.main) { MainKeepsMutexBeforeCall(s, c); } else { MainKeepsMutexAfterCall(s, c); }
  }

  lemma MainKeepsSysPhaseBeforeCall(s: State, c: Choice)
    requires Control(s) && MainStep(s, c).Some? && BeforeCall(s.main)
    ensures SysMatchesPhase(MainStep(s, c).value)
  {
  }

  lemma MainKeepsSysPhaseAfterCall(s: State, c: Choice)
    requires Control(s) && MainStep(s, c).Some? && !BeforeCall(s.main)
    ensures SysMatchesPhase(MainStep(s, c).value)
  {
  }

  lemma MainKeepsSysPhase(s: State, c: Choice)
    requires Control(s) && MainStep(s, c).Some?
    ensures SysMatchesPhase(MainStep(s, c).value)
  {
    hide *;
    if BeforeCall(s.main) { MainKeepsSysPhaseBeforeCall(s, c); } else { MainKeepsSysPhaseAfterCall(s, c); }
  }

  lemma MainKeepsMainPhaseBeforeCall(s: State, c: Choice)
    requires Control(s) && MainStep(s, c).Some? && BeforeCall(s.main)
    ensures MainMatchesPhase(MainStep(s, c).value)
  {
  }

  lemma MainKeepsMainPhaseAfterCall(s: State, c: Choice)
    requires Control(s) && MainStep(s, c).Some? && !BeforeCall(s.main)
    ensures MainMatchesPhase(MainStep(s, c).value)
  {
  }

  lemma MainKeepsMainPhase(s: State, c: Choice)
    requires Control(s) && MainStep(s, c).Some?
    ensures MainMatchesPhase(MainStep(s, c).value)
  {
    hide *;
    if BeforeCall(s.main) { MainKeepsMainPhaseBeforeCall(s, c); } else { MainKeepsMainPhaseAfterCall(s, c); }
  }

  lemma MainKeepsSignals(s: State, c: Choice)
    requires Control(s) && MainStep(s, c).Some?
    ensures MainWillBeSignalled(MainStep(s, c).value)
  {
  }

  /** The only assertion that fails is the one on the end time of a call still enqueued. */
  predicate AbortsOnlyAtEnd(s: State, c: Choice)
    requires SysStep(s, c).Some?
  {
    SysStep(s, c).value.sys.SAbort? <==> s.sys.SVerify? && s.phase.Enqueued?
  }

  lemma SysKeepsMutex(s: State, c: Choice)
    requires Control(s) && SysStep(s, c).Some? && AbortsOnlyAtEnd(s, c)
    ensures MutexMatchesCounters(SysStep(s, c).value)
  {
  }

  lemma SysKeepsSysPhase(s: State, c: Choice)
    requires Control(s) && SysStep(s, c).Some? && AbortsOnlyAtEnd(s, c)
    ensures SysMatchesPhase(SysStep(s, c).value)
  {
  }

  lemma SysKeepsMainPhase(s: State, c: Choice)
    requires Control(s) && SysStep(s, c).Some? && AbortsOnlyAtEnd(s, c)
    ensures MainMatchesPhase(SysStep(s, c).value)
  {
  }

  lemma SysKeepsSignals(s: State, c: Choice)
    requires Control(s) && SysStep(s, c).Some? && AbortsOnlyAtEnd(s, c)
    ensures MainWillBeSignalled(SysStep(s, c).value)
  {
  }

  lemma SysKeepsControl(s: State, c: Choice)
    requires Control(s) && SysStep(s, c).Some? && AbortsOnlyAtEnd(s, c)
    ensures Control(SysStep(s, c).value)
  {
    hide SysStep, MutexMatchesCounters, SysMatchesPhase, MainMatchesPhase, MainWillBeSignalled;
    SysKeepsMutex(s, c);
    SysKeepsSysPhase(s, c);
    SysKeepsMainPhase(s, c);
    SysKeepsSignals(s, c);
  }

  lemma {:induction false} CallsPrefix(script: seq<Kind>, m: nat, n: nat)
    requires m <= n <= |script|
    ensures Calls(script, m) <= Calls(script, n)
    decreases n
  {
    if m < n { CallsPrefix(script, m, n - 1); }
  }

  /** A step of the main thread that neither advances the cursor nor hands a call over
      leaves the books alone. */
  lemma MainLeavesHistory(s: State, c: Choice)
    requires Control(s) && MainStep(s, c).Some? && !s.main.MNext? && !s.main.MEnqueue?
    ensures var t := MainStep(s, c).value;
      && t.book == s.book && t.script == s.script
      && (t.phase == s.phase || (s.phase.Idle? && t.phase.Exiting?))
  {
  }

  lemma MainLeavesCall(s: State, c: Choice)
    requires MainStep(s, c).Some?
    ensures var t := MainStep(s, c).value; (HasEvent(t.sys) ==> t.sys == s.sys) && (s.dead ==> t.dead)
  {
  }

  lemma MainLeavesBook(s: State, c: Choice)
    requires Control(s) && MainStep(s, c).Some? && !s.main.MNext? && !s.main.MEnqueue?
    ensures SameBook(s, MainStep(s, c).value)
  {
    hide MainStep, Control, SameStage, HasEvent;
    MainLeavesHistory(s, c);
    MainLeavesCall(s, c);
    MainKeepsStage(s, c);
  }

  lemma MainKeepsStageBeforeCall(s: State, c: Choice)
    requires MainStep(s, c).Some? && !s.main.MNext? && !s.main.MEnqueue? && BeforeCall(s.main)
    ensures SameStage(s.main, MainStep(s, c).value.main)
  {
  }

  lemma MainKeepsStageAfterCall(s: State, c: Choice)
    requires MainStep(s, c).Some? && !s.main.MNext? && !s.main.MEnqueue? && !BeforeCall(s.main)
    ensures SameStage(s.main, MainStep(s, c).value.main)
  {
  }

  lemma MainKeepsStage(s: State, c: Choice)
    requires MainStep(s, c).Some? && !s.main.MNext? && !s.main.MEnqueue?
    ensures SameStage(s.main, MainStep(s, c).value.main)
  {
    hide *;
    if BeforeCall(s.main) { MainKeepsStageBeforeCall(s, c); } else { MainKeepsStageAfterCall(s, c); }
  }

  /** What a step that moves neither the cursor nor the history may do to the main thread. */
  predicate SameStage(p: MainPc, q: MainPc) {
    && (Waiting(q) ==> Waiting(p))
    && (InTearDown(p) ==> InTearDown(q))
    && (Dying(p) ==> Dying(q))
    && (!Dying(q) ==> (Waiting(q) <==> Waiting(p)) && (InTearDown(q) <==> InTearDown(p)))
  }

  predicate SameBook(s: State, t: State) {
    && t.book == s.book && t.script == s.script
    && (t.phase == s.phase || (s.phase.Idle? && t.phase.Exiting?))
    && (HasEvent(t.sys) ==> t.sys == s.sys)
    && (s.dead ==> t.dead)
    && SameStage(s.main, t.main)
  }

  lemma FrameEvents(s: State, t: State)
    requires EventsMatch(s) && LogExact(s) && SameBook(s, t)
    ensures EventsMatch(t) && LogExact(t)
  {
    CallsPrefix(s.script, Covered(s), |s.script|);
  }

  lemma NextKeepsEvents(s: State, c: Choice)
    requires Inv(s) && s.main.MNext?
    ensures EventsMatch(NextEvent(s, c)) && LogExact(NextEvent(s, c))
  {
    CallsPrefix(s.script, Covered(s), |s.script|);
  }

  lemma EnqueueKeepsEvents(s: State, c: Choice)
    requires Inv(s) && s.main.MEnqueue?
    ensures EventsMatch(MainStep(s, c).value) && LogExact(MainStep(s, c).value)
  {
    assert s.phase.Idle? && !HasEvent(s.sys);
  }

  /** The steps of the syscall thread that write the books. */
  predicate WritesBook(pc: SyscallPc) {
    pc.SDispatch? || pc.SBegin? || pc.SEnd? || pc.SStoreIdle?
  }

  lemma DispatchKeepsEvents(s: State, c: Choice)
    requires Inv(s) && s.sys.SDispatch?
    ensures EventsMatch(SysStep(s, c).value)
  {
    hide LogExact;
  }

  lemma BeginKeepsEvents(s: State, c: Choice)
    requires Inv(s) && s.sys.SBegin?
    ensures EventsMatch(SysStep(s, c).value)
  {
    hide LogExact;
  }

  lemma EndKeepsEvents(s: State, c: Choice)
    requires Inv(s) && (s.sys.SEnd? || s.sys.SStoreIdle?)
    ensures EventsMatch(SysStep(s, c).value)
  {
    hide LogExact;
  }

  lemma SysWritesEvents(s: State, c: Choice)
    requires Inv(s) && SysStep(s, c).Some? && WritesBook(s.sys)
    ensures EventsMatch(SysStep(s, c).value)
  {
    hide SysStep, Inv, EventsMatch;
    if s.sys.SDispatch? { DispatchKeepsEvents(s, c); }
    else if s.sys.SBegin? { BeginKeepsEvents(s, c); }
    else { EndKeepsEvents(s, c); }
  }

  lemma TimedKeepsEvents(s: State, c: Choice)
    requires Inv(s) && SysStep(s, c).Some? && (s.sys.STimed? || s.sys.SVerify?)
    ensures EventsMatch(SysStep(s, c).value)
  {
    hide LogExact;
  }

  lemma SysMovesOn(s: State, c: Choice)
    requires SysStep(s, c).Some? && !WritesBook(s.sys) && !s.sys.STimed? && !s.sys.SVerify?
    ensures var t := SysStep(s, c).value;
      && t.book == s.book && t.script == s.script && t.phase == s.phase && t.dead == s.dead
      && (HasEvent(t.sys) ==> HasEvent(s.sys))
      && !t.sys.SBegin? && !t.sys.SVerify? && !t.sys.SAbort?
      && (Waiting(t.main) ==> Waiting(s.main))
  {
  }

  lemma SysLeavesBook(s: State, c: Choice)
    requires Inv(s) && SysStep(s, c).Some? && !WritesBook(s.sys)
    ensures EventsMatch(SysStep(s, c).value)
  {
    hide SysStep, Control, LogExact, HasEvent, Waiting, InFlight;
    if s.sys.STimed? || s.sys.SVerify? {
      TimedKeepsEvents(s, c);
    } else {
      SysMovesOn(s, c);
    }
  }

  lemma SysKeepsLog(s: State, c: Choice)
    requires Inv(s) && SysStep(s, c).Some?
    ensures LogExact(SysStep(s, c).value)
  {
    hide SysStep, Control, EventsMatch;
    SysFrame(s, c);
  }

  /** What a step of the syscall thread leaves of the main thread and of its books. */
  lemma SysFrame(s: State, c: Choice)
    requires SysStep(s, c).Some?
    ensures var t := SysStep(s, c).value;
      && t.book.enqueued == s.book.enqueued && t.book.cursor == s.book.cursor && t.script == s.script
      && (t.main == s.main || (s.main.MIdleWait? && t.main == MIdleRelock(s.main.why, false))
          || (s.main.MDequeuedWait? && t.main.MDequeuedRelock?))
  {
  }

  lemma MainKeepsInv(s: State, c: Choice)
    requires Inv(s) && MainStep(s, c).Some?
    ensures Inv(MainStep(s, c).value)
  {
    MainKeepsMutex(s, c);
    MainKeepsSysPhase(s, c);
    MainKeepsMainPhase(s, c);
    MainKeepsSignals(s, c);
    hide MutexMatchesCounters, SysMatchesPhase, MainMatchesPhase, MainWillBeSignalled, EventsMatch, LogExact;
    if s.main.MNext? {
      NextKeepsEvents(s, c);
    } else if s.main.MEnqueue? {
      EnqueueKeepsEvents(s, c);
    } else {
      MainLeavesBook(s, c);
      FrameEvents(s, MainStep(s, c).value);
    }
  }

  /** Of the assertions of the syscall thread only the one on the end time can fail, and it
      fails exactly when the handler has returned without leaving ENQUEUED. */
  lemma SysAbortsIff(s: State, c: Choice)
    requires Inv(s) && SysStep(s, c).Some?
    ensures SysStep(s, c).value.sys.SAbort? <==> s.sys.SVerify? && s.phase.Enqueued?
  {
    hide LogExact;
  }

  lemma StepKeepsInv(s: State, a: Action)
    requires Inv(s) && Do(s, a).Some?
    ensures Inv(Do(s, a).value)
  {
    hide MainStep, SysStep, Control, EventsMatch, LogExact;
    match a
    case Main(c) => MainKeepsInv(s, c);
    case Sys(c) => SysKeepsInv(s, c);
    case WakeMain(_) => WakeKeepsInv(s, a);
    case WakeSys => WakeKeepsInv(s, a);
  }

  lemma SysKeepsInv(s: State, c: Choice)
    requires Inv(s) && SysStep(s, c).Some?
    ensures Inv(SysStep(s, c).value)
  {
    hide SysStep, Control, EventsMatch, LogExact;
    SysAbortsIff(s, c);
    SysKeepsControl(s, c);
    if WritesBook(s.sys) { SysWritesEvents(s, c); } else { SysLeavesBook(s, c); }
    SysKeepsLog(s, c);
  }

  lemma WakeKeepsInv(s: State, a: Action)
    requires Inv(s) && Do(s, a).Some? && (a.WakeMain? || a.WakeSys?)
    ensures Inv(Do(s, a).value)
  {
    hide MainStep, SysStep, EventsMatch, LogExact;
    FrameEvents(s, Do(s, a).value);
  }

  lemma {:induction false} RunKeepsInv(s: State, actions: seq<Action>)
    requires Inv(s) && Run(s, actions).Some?
    ensures Inv(Run(s, actions).value)
    decreases |actions|
  {
    if actions != [] {
      StepKeepsInv(s, actions[0]);
      RunKeepsInv(Do(s, actions[0]).value, actions[1..]);
    }
  }
}
