/**
 What the hand-off protocol guarantees over every run: which phase changes happen and
 under which lock, that no assertion fails and no wakeup is lost, that every blocking
 call of the script is executed exactly once and in order, and that a run can always
 be continued to its end without help from spurious wakeups or timeouts.
 */
module HandoffTheorems {
  import opened Handoff

  lemma InitInv(script: seq<Kind>)
    requires script != []
    ensures Inv(Init(script))
  {
    assert Calls(script, 0) == [];
  }

  lemma ReachableInv(s: State)
    requires Reachable(s)
    ensures Inv(s)
  {
    var script: seq<Kind>, actions: seq<Action> :| script != [] && Run(Init(script), actions) == Some(s);
    InitInv(script);
    RunKeepsInv(Init(script), actions);
  }

  // ---------------------------------------------------------------- phase changes

  /** IDLE -> ENQUEUED -> RUNNING -> DONE -> IDLE, or IDLE -> EXITING. */
  predicate Edge(p: Phase, q: Phase) {
    || (p.Idle? && (q.Enqueued? || q.Exiting?))
    || (p.Enqueued? && q.Running?)
    || (p.Running? && q.Done?)
    || (p.Done? && q.Idle?)
  }

  /** Which thread makes each phase change. */
  function Owner(p: Phase): Mutex {
    if p.Idle? then HeldByMain else HeldBySyscall
  }

  /** In every interleaving the phase moves only along the edges above, only by the thread
      that owns that edge, and that thread holds the mutex before and after the step. */
  lemma PhaseChangesUnderLock(s: State, a: Action)
    requires Reachable(s) && Do(s, a).Some?
    ensures var t := Do(s, a).value; t.phase != s.phase ==>
      && Edge(s.phase, t.phase)
      && s.mutex == t.mutex == Owner(s.phase)
      && (a.Main? <==> Owner(s.phase) == HeldByMain)
  {
    ReachableInv(s);
    hide MainStep, SysStep, EventsMatch, LogExact, Control;
    if a.Main? { MainPhaseChange(s, a.choice); }
    if a.Sys? { SysPhaseChange(s, a.choice); }
  }

  lemma MainPhaseChange(s: State, c: Choice)
    requires Control(s) && MainStep(s, c).Some?
    ensures var t := MainStep(s, c).value; t.phase != s.phase ==>
      Edge(s.phase, t.phase) && s.mutex == t.mutex == Owner(s.phase) == HeldByMain
  {
  }

  lemma SysPhaseChange(s: State, c: Choice)
    requires Control(s) && SysStep(s, c).Some?
    ensures var t := SysStep(s, c).value; t.phase != s.phase ==>
      Edge(s.phase, t.phase) && s.mutex == t.mutex == Owner(s.phase) == HeldBySyscall
  {
  }

  // ---------------------------------------------------------------- assertions and locks

  /** Every blocking call of the script has a handler that brackets the kernel call. */
  predicate AllBracketed(script: seq<Kind>) {
    forall e :: 0 <= e < |script| && script[e].Blocking? ==> script[e].bracketed
  }

  /** The dispatch loop never sees RUNNING or DONE, and the main thread never holds the mutex
      while the state is DONE. An assertion of the syscall thread fails only for a call whose
      handler returns without begin_syscall and end_syscall, while it is still enqueued. */
  lemma AssertionsHold(s: State)
    requires Reachable(s)
    ensures s.sys.SDispatch? ==> !s.phase.Running? && !s.phase.Done?
    ensures s.sys.SDispatch? && s.phase.Enqueued? ==> OnBlocking(s)
    ensures s.phase.Done? ==> s.mutex.HeldBySyscall?
    ensures s.sys.SAbort? ==> OnBlocking(s) && !s.script[s.book.cursor].bracketed && s.phase.Enqueued?
    ensures AllBracketed(s.script) ==> !s.sys.SAbort?
  {
    ReachableInv(s);
    hide LogExact;
  }

  // ---------------------------------------------------------------- wakeups

  predicate MainParked(s: State) { s.main.MIdleWait? || s.main.MDequeuedWait? }

  /** No wakeup is lost. The two threads are never both parked. A syscall thread parked in
      spite of work to do is about to be signalled by the main thread, which holds the
      mutex; a main thread parked in spite of its condition being met is about to be
      signalled by the syscall thread. */
  lemma NoLostWakeup(s: State)
    requires Reachable(s)
    ensures !(MainParked(s) && s.sys.SEnqueuedWait?)
    ensures s.sys.SEnqueuedWait? && !s.phase.Idle? ==>
      s.mutex.HeldByMain? && (s.main.MSignalEnqueued? || s.main.MExitSignal?)
    ensures s.main.MDequeuedWait? && !s.phase.Enqueued? ==> s.sys.SBeginUnlock? || s.sys.SSignalDequeued?
    ensures s.main.MIdleWait? && s.phase.Idle? ==> s.sys.SSignalIdle?
    ensures s.main.MIdleWait? ==> !s.phase.Enqueued? && !s.phase.Exiting?
  {
    ReachableInv(s);
  }

  // ---------------------------------------------------------------- events

  /** The syscall thread works on the event that was handed over last. Until begin_syscall
      that is also `state->event`, so the start time is checked against the right event. */
  lemma RightEvent(s: State)
    requires Reachable(s)
    ensures HasEvent(s.sys) ==>
      && s.book.enqueued != []
      && s.book.sysEvent == s.book.enqueued[|s.book.enqueued| - 1]
      && s.book.callEvent == Some(s.book.sysEvent)
    ensures s.sys.SSleepUnlock? || s.sys.SSleep? || s.sys.STimed? || s.sys.SBegin? ==>
      s.book.cursor == s.book.sysEvent
    ensures s.phase.Enqueued? ==> OnBlocking(s)
  {
    ReachableInv(s);
  }

  /** The phase is ENQUEUED in every state of the run. */
  predicate StaysEnqueued(s: State, actions: seq<Action>)
    decreases |actions|
  {
    && s.phase.Enqueued?
    && (actions != [] ==> Do(s, actions[0]).Some? && StaysEnqueued(Do(s, actions[0]).value, actions[1..]))
  }

  /** However the threads are scheduled, `state->event` does not move while a call is queued,
      although the syscall thread drops the mutex in between. */
  lemma {:induction false} EventFrozenWhileEnqueued(s: State, actions: seq<Action>)
    requires Inv(s) && StaysEnqueued(s, actions)
    ensures Run(s, actions).Some?
    ensures Run(s, actions).value.book.cursor == s.book.cursor
    ensures Run(s, actions).value.book.enqueued == s.book.enqueued
    decreases |actions|
  {
    if actions != [] {
      var a := actions[0];
      StepKeepsInv(s, a);
      CursorKept(s, a);
      hide Do, Inv;
      EventFrozenWhileEnqueued(Do(s, a).value, actions[1..]);
    }
  }

  lemma CursorKept(s: State, a: Action)
    requires Control(s) && s.phase.Enqueued? && Do(s, a).Some?
    ensures Do(s, a).value.book.cursor == s.book.cursor
    ensures Do(s, a).value.book.enqueued == s.book.enqueued
  {
  }

  // ---------------------------------------------------------------- leaving a call

  /** The main thread hands over a call, or frees the state. */
  predicate HandsOverOrEnds(pc: MainPc) {
    || InTearDown(pc) || InAwait(pc) || pc.MEnqueue? || InEnqueue(pc)
    || pc.MYieldUnlock? || pc.MYield? || pc.MYieldLock? || pc.MYieldTest?
  }

  /** At some state of the run the main thread, at event e, has seen the syscall thread sleep or sees
      the phase IDLE. */
  predicate SeenAtRest(s: State, actions: seq<Action>, e: int)
    decreases |actions|
  {
    || (s.book.cursor == e && s.main.MYieldTest? && (s.main.sleeping || s.phase.Idle?))
    || (actions != [] && Do(s, actions[0]).Some? && SeenAtRest(Do(s, actions[0]).value, actions[1..], e))
  }

  lemma CursorStays(s: State, a: Action)
    requires !s.main.MNext? && Do(s, a).Some?
    ensures Do(s, a).value.book.cursor == s.book.cursor && Do(s, a).value.script == s.script
  {
  }

  lemma TearDownGoesOn(s: State, a: Action)
    requires InTearDown(s.main) && Do(s, a).Some?
    ensures InTearDown(Do(s, a).value.main)
  {
  }

  lemma AwaitGoesOn(s: State, a: Action)
    requires InAwait(s.main) && Do(s, a).Some?
    ensures HandsOverOrEnds(Do(s, a).value.main)
  {
  }

  lemma EnqueueGoesOn(s: State, a: Action)
    requires (s.main.MEnqueue? || InEnqueue(s.main)) && Do(s, a).Some?
    ensures HandsOverOrEnds(Do(s, a).value.main)
  {
  }

  lemma YieldGoesOn(s: State, a: Action)
    requires (s.main.MYieldUnlock? || s.main.MYield? || s.main.MYieldLock? || s.main.MYieldTest?) && Do(s, a).Some?
    ensures HandsOverOrEnds(Do(s, a).value.main) || (s.main.MYieldTest? && (s.main.sleeping || s.phase.Idle?))
  {
  }

  lemma CallLeft(s: State, a: Action)
    requires HandsOverOrEnds(s.main) && Do(s, a).Some?
    ensures var t := Do(s, a).value;
            && t.book.cursor == s.book.cursor && t.script == s.script
            && (HandsOverOrEnds(t.main) || (s.main.MYieldTest? && (s.main.sleeping || s.phase.Idle?)))
  {
    hide Do, InAwait, InEnqueue, InTearDown;
    assert !s.main.MNext? by { NotNext(s.main); }
    CursorStays(s, a);
    if InTearDown(s.main) { TearDownGoesOn(s, a); }
    else if InAwait(s.main) { AwaitGoesOn(s, a); }
    else if s.main.MEnqueue? || InEnqueue(s.main) { EnqueueGoesOn(s, a); }
    else { YieldGoesOn(s, a); }
  }

  lemma NotNext(pc: MainPc)
    requires HandsOverOrEnds(pc)
    ensures !pc.MNext? && !pc.MSniff? && !pc.MTimedUnlock? && !pc.MTimedSleep? && !pc.MTimedRun?
  {
  }

  lemma {:induction false} LeftOnlyAtRest(s: State, actions: seq<Action>)
    requires HandsOverOrEnds(s.main) && Run(s, actions).Some? && Run(s, actions).value.book.cursor != s.book.cursor
    ensures SeenAtRest(s, actions, s.book.cursor)
    decreases |actions|
  {
    hide Do, HandsOverOrEnds;
    if actions != [] {
      CallLeft(s, actions[0]);
      var t := Do(s, actions[0]).value;
      if HandsOverOrEnds(t.main) { LeftOnlyAtRest(t, actions[1..]); }
    }
  }

  /** What the main thread does with an event, by its kind. */
  predicate Plays(s: State) {
    var e := s.book.cursor;
    || s.main.MNext? || InTearDown(s.main)
    || (0 <= e < |s.script| &&
        match s.script[e]
        case Blocking(_) => HandsOverOrEnds(s.main)
        case Timed => s.main.MTimedUnlock? || s.main.MTimedSleep? || s.main.MTimedRun?
        case Sniffed => s.main.MSniff?)
  }

  lemma NextPlays(s: State, c: Choice)
    ensures Plays(NextEvent(s, c))
  {
  }

  lemma TimedPlays(s: State, a: Action)
    requires (s.main.MTimedUnlock? || s.main.MTimedSleep? || s.main.MTimedRun? || s.main.MSniff?) && Do(s, a).Some?
    ensures var m := Do(s, a).value.main;
            || m.MNext? || InTearDown(m) || m == s.main
            || (!s.main.MSniff? && (m.MTimedUnlock? || m.MTimedSleep? || m.MTimedRun?))
  {
  }

  lemma NextDone(s: State, a: Action)
    requires s.main.MNext? && Do(s, a).Some?
    ensures Do(s, a).value.main.MNext? || exists c :: Do(s, a).value == NextEvent(s, c)
  {
    hide NextEvent;
  }

  lemma PlaysOn(s: State, a: Action)
    requires Plays(s) && Do(s, a).Some?
    ensures Plays(Do(s, a).value)
  {
    hide Do, HandsOverOrEnds, InTearDown, NextEvent;
    if s.main.MNext? {
      NextDone(s, a);
      forall c ensures Plays(NextEvent(s, c)) { NextPlays(s, c); }
    } else {
      CursorStays(s, a);
      if InTearDown(s.main) { TearDownGoesOn(s, a); }
      else if s.script[s.book.cursor].Blocking? { CallLeft(s, a); if s.main.MYieldTest? { NextAfterYield(s, a); } }
      else { TimedPlays(s, a); }
    }
  }

  lemma NextAfterYield(s: State, a: Action)
    requires s.main.MYieldTest? && Do(s, a).Some?
    ensures Do(s, a).value.main.MNext? || HandsOverOrEnds(Do(s, a).value.main)
  {
  }

  lemma {:induction false} RunPlays(s: State, actions: seq<Action>)
    requires Plays(s) && Run(s, actions).Some?
    ensures Plays(Run(s, actions).value)
    decreases |actions|
  {
    hide Do, Plays;
    if actions != [] {
      PlaysOn(s, actions[0]);
      RunPlays(Do(s, actions[0]).value, actions[1..]);
    }
  }

  /** An outbound packet is waited for and checked with the mutex held throughout; every timed event
      runs its action with the mutex held again. */
  lemma EventsUnderLock(s: State)
    requires Reachable(s) && 0 <= s.book.cursor < |s.script| && !InTearDown(s.main)
    ensures s.script[s.book.cursor].Sniffed? ==> s.mutex.HeldByMain?
    ensures s.script[s.book.cursor].Timed? && !s.main.MTimedSleep? ==> s.mutex.HeldByMain?
  {
    ReachableInv(s);
    var script: seq<Kind>, actions: seq<Action> :| script != [] && Run(Init(script), actions) == Some(s);
    hide Run;
    RunPlays(Init(script), actions);
  }

  /** The cursor moves one event at a time, and onto a blocking call only to hand it over. */
  lemma CursorMoves(s: State, a: Action)
    requires Do(s, a).Some?
    ensures var t := Do(s, a).value;
            && t.script == s.script && s.book.cursor <= t.book.cursor <= s.book.cursor + 1
            && (t.book.cursor != s.book.cursor && OnBlocking(t) ==> HandsOverOrEnds(t.main))
  {
  }

  /** In every run the script goes on behind a blocking call only after is_thread_sleeping was true
      or the phase was IDLE at that call. */
  lemma {:induction false} CallLeftOnlyAtRest(s: State, actions: seq<Action>, e: int)
    requires s.book.cursor < e < |s.script| && 0 <= e && s.script[e].Blocking?
    requires Run(s, actions).Some? && Run(s, actions).value.book.cursor > e
    ensures SeenAtRest(s, actions, e)
    decreases |actions|
  {
    hide Do, HandsOverOrEnds;
    if actions != [] {
      CursorMoves(s, actions[0]);
      var t := Do(s, actions[0]).value;
      if t.book.cursor == e { LeftOnlyAtRest(t, actions[1..]); } else { CallLeftOnlyAtRest(t, actions[1..], e); }
    }
  }

  lemma {:induction false} CallsOrdered(script: seq<Kind>, n: nat)
    requires n <= |script|
    ensures var c := Calls(script, n);
      && (forall i :: 0 <= i < |c| ==> 0 <= c[i] < n && script[c[i]].Blocking?)
      && (forall i, j :: 0 <= i < j < |c| ==> c[i] < c[j])
      && (forall e :: 0 <= e < n && script[e].Blocking? ==> e in c)
  {
    if n > 0 {
      CallsOrdered(script, n - 1);
      var c, d := Calls(script, n), Calls(script, n - 1);
      assert c == d + if script[n - 1].Blocking? then [n - 1] else [];
      hide Calls;
      forall e | 0 <= e < n && script[e].Blocking?
        ensures e in c
      {
        if e < n - 1 { assert e in d; } else { assert c[|d|] == e; }
      }
    }
  }

  /** At most one blocking call is in flight, and calls are completed in the order in which
      the script lists them: the completed history is a prefix of the script's blocking
      calls, the started history is that or one longer, and so is the enqueued history. */
  lemma CallsCompleteInOrder(s: State)
    requires Reachable(s)
    ensures s.book.completed <= s.book.started <= s.book.enqueued <= Calls(s.script, |s.script|)
    ensures |s.book.enqueued| - |s.book.completed| == (if InFlight(s.phase) then 1 else 0)
    ensures |s.book.enqueued| - |s.book.started| == (if s.phase.Enqueued? then 1 else 0)
  {
    ReachableInv(s);
    CallsPrefix(s.script, Covered(s), |s.script|);
  }

  /** A run that ends normally has executed every blocking call of its script exactly once. */
  lemma EveryCallExecutedOnce(s: State)
    requires Reachable(s) && s.main.MFinished?
    ensures s.book.completed == s.book.started == Calls(s.script, |s.script|)
  {
    ReachableInv(s);
  }

  // ---------------------------------------------------------------- progress

  /** Steps on the happy path, and spurious wakeups: no error and no timeout. */
  predicate Harmless(a: Action) {
    match a
    case Main(c) => c.Go?
    case Sys(c) => c.Go?
    case WakeMain(expired) => !expired
    case WakeSys => true
  }

  /** What may hold a run up: a spurious wakeup, or an answer of is_thread_sleeping that sends
      the main thread round its yield loop once more. */
  predicate Disturbs(s: State, a: Action) {
    a.WakeMain? || a.WakeSys? || (a.Main? && s.main.MYield? && a.choice.Go? && !a.choice.sleeping)
  }

  /** A timed wait has already expired, or the state is being freed on the way to `die`. */
  predicate Doomed(pc: MainPc) {
    Dying(pc) || pc.MIdleExpired? || (pc.MIdleRelock? && pc.expired)
  }

  /** How far the main thread is from the end of its current event. */
  function MainStage(pc: MainPc): nat {
    match pc
    case MAwaitIdle(why) => if why.ToEnqueue? then 7 else 3
    case MIdleWait(why) => if why.ToEnqueue? then 7 else 3
    case MIdleRelock(why, _) => if why.ToEnqueue? then 7 else 3
    case MIdleExpired(why) => if why.ToEnqueue? then 6 else 2
    case MEnqueue => 5
    case MSignalEnqueued => 4
    case MAwaitDequeued | MDequeuedWait | MDequeuedRelock => 2
    case MExitStore(_) => 2
    case MNext | MFinished => 0
    case _ => 1
  }

  /** How far the main thread is from the end of its current stage. */
  function MainSubstage(pc: MainPc): nat {
    match pc
    case MTimedUnlock => 3
    case MTimedSleep => 2
    case MIdleRelock(_, _) => 2
    case MAwaitIdle(_) => 1
    case MDequeuedRelock => 2
    case MAwaitDequeued => 1
    case MYieldLock(sleeping) => if sleeping then 2 else 6
    case MYieldTest(sleeping) => if sleeping then 1 else 5
    case MYieldUnlock => 4
    case MYield => 3
    case MExitSignal(_) => 4
    case MExitUnlock(_) => 3
    case MJoin(_) => 2
    case MJoinLock(_) => 1
    case _ => 0
  }

  /** How far the syscall thread is from parking itself or exiting. */
  function SysRank(s: State): nat {
    var queued := if s.phase.Enqueued? then 15 else if s.phase.Exiting? then 3 else 0;
    match s.sys
    case SStart | SEnqueuedRelock => queued + 2
    case SEnqueuedWait => queued + (if s.phase.Idle? then 0 else 2)
    case SDispatch => queued + 1
    case SSleepUnlock => 15
    case SSleep => 14
    case STimed => 13
    case SBegin => 12
    case SBeginUnlock => 11
    case SSignalDequeued => 10
    case SCall => 9
    case SEnd(_) => 8
    case SVerify => 7
    case SStoreIdle => 6
    case SSignalIdle => 5
    case SExitUnlock => 1
    case SExited => 0
    case SAbort => 0
  }

  /** What is left of the current event, and of the syscall thread's work. */
  function Local(s: State): nat {
    200 * MainStage(s.main) + MainSubstage(s.main) + 4 * SysRank(s)
  }

  function Remaining(s: State): nat
    requires Inv(s)
  {
    1600 * (|s.script| - s.book.cursor) + Local(s)
  }

  predicate Ended(s: State) { s.dead || s.main.MFinished? }

  lemma SysRankDropsInCall(s: State, c: Choice)
    requires Control(s) && c.Go? && SysStep(s, c).Some? && HasEvent(s.sys) && !SysStep(s, c).value.dead
    ensures Local(SysStep(s, c).value) < Local(s)
  {
  }

  lemma SysRankDropsOutside(s: State, c: Choice)
    requires Control(s) && c.Go? && SysStep(s, c).Some? && !HasEvent(s.sys) && !SysStep(s, c).value.dead
    ensures Local(SysStep(s, c).value) < Local(s)
  {
  }

  lemma SysRankDrops(s: State, c: Choice)
    requires Control(s) && c.Go? && SysStep(s, c).Some? && !SysStep(s, c).value.dead
    ensures Local(SysStep(s, c).value) < Local(s)
  {
    hide *;
    if HasEvent(s.sys) { SysRankDropsInCall(s, c); } else { SysRankDropsOutside(s, c); }
  }

  lemma SysKeepsFate(s: State, c: Choice)
    requires c.Go? && SysStep(s, c).Some?
    ensures var t := SysStep(s, c).value;
      && t.book.cursor == s.book.cursor && t.script == s.script && t.dead == (s.dead || t.sys.SAbort?)
      && (Doomed(t.main) <==> Doomed(s.main))
  {
  }

  /** The bonus that pays for one more round of the yield loop. */
  function Bonus(s: State, c: Choice): nat {
    if s.main.MYield? && c.Go? && !c.sleeping then 12 else 0
  }

  lemma MainRankDropsBeforeCall(s: State, c: Choice)
    requires Control(s) && !Ended(s) && c.Go? && MainStep(s, c).Some?
    requires !s.main.MNext? && BeforeCall(s.main) && !MainStep(s, c).value.dead
    ensures Local(MainStep(s, c).value) < Local(s) + Bonus(s, c)
  {
  }

  lemma MainRankDropsInEnqueue(s: State, c: Choice)
    requires Control(s) && !Ended(s) && c.Go? && MainStep(s, c).Some?
    requires !BeforeCall(s.main) && !s.main.MExitStore? && !InExit(s.main) && !MainStep(s, c).value.dead
    ensures Local(MainStep(s, c).value) < Local(s) + Bonus(s, c)
  {
  }

  lemma MainRankDropsInExit(s: State, c: Choice)
    requires Control(s) && !Ended(s) && c.Go? && MainStep(s, c).Some?
    requires (s.main.MExitStore? || InExit(s.main)) && !MainStep(s, c).value.dead
    ensures Local(MainStep(s, c).value) < Local(s) + Bonus(s, c)
  {
  }

  lemma MainRankDrops(s: State, c: Choice)
    requires Control(s) && !Ended(s) && c.Go? && MainStep(s, c).Some?
    requires !s.main.MNext? && !MainStep(s, c).value.dead
    ensures Local(MainStep(s, c).value) < Local(s) + Bonus(s, c)
  {
    hide *;
    if BeforeCall(s.main) { MainRankDropsBeforeCall(s, c); }
    else if s.main.MExitStore? || InExit(s.main) { MainRankDropsInExit(s, c); }
    else { MainRankDropsInEnqueue(s, c); }
  }

  lemma MainKeepsFateBeforeCall(s: State, c: Choice)
    requires !s.dead && c.Go? && MainStep(s, c).Some? && !s.main.MNext? && BeforeCall(s.main)
    ensures var t := MainStep(s, c).value;
      && t.book.cursor == s.book.cursor && t.script == s.script && t.sys.SAbort? == s.sys.SAbort?
      && (if t.dead then Doomed(s.main) else Doomed(t.main) == Doomed(s.main))
  {
  }

  lemma MainKeepsFateAfterCall(s: State, c: Choice)
    requires !s.dead && c.Go? && MainStep(s, c).Some? && !s.main.MNext? && !BeforeCall(s.main)
    ensures var t := MainStep(s, c).value;
      && t.book.cursor == s.book.cursor && t.script == s.script && t.sys.SAbort? == s.sys.SAbort?
      && (if t.dead then Doomed(s.main) else Doomed(t.main) == Doomed(s.main))
  {
  }

  lemma MainKeepsFate(s: State, c: Choice)
    requires !s.dead && c.Go? && MainStep(s, c).Some? && !s.main.MNext?
    ensures var t := MainStep(s, c).value;
      && t.book.cursor == s.book.cursor && t.script == s.script && t.sys.SAbort? == s.sys.SAbort?
      && (if t.dead then Doomed(s.main) else Doomed(t.main) == Doomed(s.main))
  {
    hide *;
    if BeforeCall(s.main) { MainKeepsFateBeforeCall(s, c); } else { MainKeepsFateAfterCall(s, c); }
  }

  lemma NextRankDrops(s: State, c: Choice)
    requires Inv(s) && !s.dead && s.main.MNext? && c.Go?
    ensures var t := MainStep(s, c).value;
      && t.book.cursor == s.book.cursor + 1 && t.script == s.script && !t.dead && SysRank(t) == SysRank(s)
      && !Doomed(t.main) && MainStage(t.main) <= 7 && MainSubstage(t.main) <= 6
  {
  }

  lemma WakeRank(s: State, a: Action)
    requires Inv(s) && Do(s, a).Some? && (a.WakeMain? || a.WakeSys?) && Harmless(a)
    ensures var t := Do(s, a).value;
      && t.book.cursor == s.book.cursor && t.script == s.script && !t.dead
      && Local(t) < Local(s) + 12 && (Doomed(t.main) <==> Doomed(s.main))
  {
    hide Inv;
  }

  /** Whichever thread runs, a step brings the end nearer, except that a disturbance may put it
      off by a fixed amount. Only a doomed main thread or a failed assertion kills the run. */
  lemma StepAdvances(s: State, a: Action)
    requires Inv(s) && Harmless(a) && !s.main.MFinished? && Do(s, a).Some?
    ensures var t := Do(s, a).value;
      && Inv(t) && t.script == s.script
      && (t.dead ==> Doomed(s.main) || t.sys.SAbort?)
      && (!t.dead ==> Remaining(t) < Remaining(s) + (if Disturbs(s, a) then 12 else 0)
                      && (Doomed(t.main) <==> Doomed(s.main)))
  {
    StepKeepsInv(s, a);
    hide MainStep, SysStep, EventsMatch, LogExact, Local, Doomed;
    match a
    case Sys(c) =>
      SysKeepsFate(s, c);
      if !SysStep(s, c).value.dead { SysRankDrops(s, c); }
    case Main(c) =>
      if s.main.MNext? {
        NextRankDrops(s, c);
        NextAdvances(s, c);
      } else {
        MainKeepsFate(s, c);
        if !MainStep(s, c).value.dead { MainRankDrops(s, c); }
      }
    case _ =>
      WakeRank(s, a);
  }

  lemma NextAdvances(s: State, c: Choice)
    requires Inv(s) && !s.dead && s.main.MNext? && c.Go? && Inv(MainStep(s, c).value)
    ensures Remaining(MainStep(s, c).value) < Remaining(s) && !Doomed(s.main)
  {
    hide EventsMatch, LogExact, Control;
    NextRankDrops(s, c);
  }

  // ---------------------------------------------------------------- every run ends

  /** The run takes harmless steps only. */
  predicate HarmlessRun(actions: seq<Action>) {
    forall i :: 0 <= i < |actions| ==> Harmless(actions[i])
  }

  /** How often the run is disturbed. */
  function Disturbances(s: State, actions: seq<Action>): nat
    decreases |actions|
  {
    if actions == [] || Do(s, actions[0]).None? then 0
    else (if Disturbs(s, actions[0]) then 1 else 0) + Disturbances(Do(s, actions[0]).value, actions[1..])
  }

  /** However the threads are scheduled, fairly or not, a run without errors and timeouts is
      bounded: it has at most Remaining(s) steps, and twelve more for each spurious wakeup and
      for each time that is_thread_sleeping sends the main thread round its loop again. What
      it ends in is decided by where it started: it dies only if the main thread had given up
      or an assertion failed. */
  lemma {:induction false} RunsAreBounded(s: State, actions: seq<Action>)
    requires Inv(s) && !s.dead && HarmlessRun(actions) && Run(s, actions).Some?
    ensures |actions| <= Remaining(s) + 12 * Disturbances(s, actions) + 1
    ensures var t := Run(s, actions).value;
      && Inv(t) && t.script == s.script
      && (t.dead ==> Doomed(s.main) || t.sys.SAbort?)
      && (!t.dead ==> (Doomed(t.main) <==> Doomed(s.main)))
    decreases |actions|
  {
    hide Do, Inv, Remaining, Doomed;
    if actions != [] {
      var a, rest := actions[0], actions[1..];
      NotFinished(s, a);
      StepAdvances(s, a);
      var t := Do(s, a).value;
      if t.dead {
        DeadStops(t, rest);
      } else {
        RunsAreBounded(t, rest);
      }
    }
  }

  /** Nothing harmless happens after the end. */
  lemma NotFinished(s: State, a: Action)
    requires Inv(s) && Harmless(a) && Do(s, a).Some?
    ensures !s.main.MFinished?
  {
    hide EventsMatch, LogExact;
  }

  lemma DeadStops(s: State, actions: seq<Action>)
    requires s.dead && Run(s, actions).Some?
    ensures actions == []
  {
  }

  /** Some harmless step is enabled in every state that is not an end, and not a disturbance. */
  lemma SomeStepEnabled(s: State) returns (a: Action)
    requires Inv(s) && !Ended(s)
    ensures Harmless(a) && !Disturbs(s, a) && Do(s, a).Some?
  {
    hide LogExact;
    var go := Go(true, 0);
    if SysHolds(s.sys) || s.main.MIdleWait? || s.main.MDequeuedWait? || (s.main.MJoin? && !s.sys.SExited?) {
      a := Sys(go);
    } else {
      a := Main(go);
    }
  }

  /** No harmless step can be taken. */
  ghost predicate Stuck(s: State) {
    forall a :: Harmless(a) ==> Do(s, a).None?
  }

  /** No deadlock and no livelock: every run from a reachable state without errors and timeouts
      that goes on until it is stuck is at an end. If every call of the script is bracketed and
      the main thread had not given up, that end is the normal one, and every blocking call
      has been executed exactly once. */
  lemma StuckIsEnded(s: State, actions: seq<Action>)
    requires Reachable(s) && !s.dead && HarmlessRun(actions) && Run(s, actions).Some? && Stuck(Run(s, actions).value)
    ensures var t := Run(s, actions).value;
      && Ended(t)
      && (AllBracketed(s.script) && !Doomed(s.main) ==>
            t.main.MFinished? && !t.dead && t.book.completed == t.book.started == Calls(s.script, |s.script|))
  {
    ReachableInv(s);
    RunsAreBounded(s, actions);
    var t := Run(s, actions).value;
    hide Run, Do, Doomed, Remaining;
    if !Ended(t) {
      var a := SomeStepEnabled(t);
    }
    if AllBracketed(s.script) { NoAbort(t); }
    if !t.dead { FinishedHasAll(t); }
  }

  lemma NoAbort(t: State)
    requires Inv(t) && AllBracketed(t.script)
    ensures !t.sys.SAbort?
  {
    hide LogExact;
  }

  lemma FinishedHasAll(t: State)
    requires Inv(t)
    ensures t.main.MFinished? ==> t.book.completed == t.book.started == Calls(t.script, |t.script|)
  {
  }

  /** A continuation to the end, without disturbances. */
  lemma {:induction false} FinishFrom(s: State) returns (actions: seq<Action>)
    requires Inv(s) && !s.dead
    ensures HarmlessRun(actions) && Run(s, actions).Some? && Ended(Run(s, actions).value)
    decreases Remaining(s)
  {
    hide Do, Inv, Remaining, Doomed, EventsMatch, LogExact;
    if Ended(s) {
      actions := [];
    } else {
      var a := SomeStepEnabled(s);
      StepAdvances(s, a);
      var t := Do(s, a).value;
      var rest := [];
      if !t.dead { rest := FinishFrom(t); }
      actions := [a] + rest;
      assert actions[1..] == rest;
    }
  }

  /** From every reachable state the end can be reached without errors and timeouts. Unless the
      main thread had already given up, or some call is not bracketed, that end is the normal
      one and every blocking call has been executed. */
  lemma CanAlwaysFinish(s: State)
    requires Reachable(s) && !s.dead
    ensures exists actions: seq<Action> ::
      && HarmlessRun(actions) && Run(s, actions).Some? && Ended(Run(s, actions).value)
      && (AllBracketed(s.script) && !Doomed(s.main) ==>
            !Run(s, actions).value.dead && Run(s, actions).value.book.completed == Calls(s.script, |s.script|))
  {
    ReachableInv(s);
    var actions := FinishFrom(s);
    RunsAreBounded(s, actions);
    var t := Run(s, actions).value;
    hide Run, Do, Doomed, Remaining;
    if AllBracketed(s.script) { NoAbort(t); }
    if !t.dead { FinishedHasAll(t); }
    assert HarmlessRun(actions) && Run(s, actions).Some?;
  }

  // ---------------------------------------------------------------- calls without brackets

  /** Every kernel call that was started is that of a bracketed call. */
  predicate StartedBracketed(s: State) {
    forall k :: 0 <= k < |s.book.started| ==> Bracketed(s.script, s.book.started[k])
  }

  lemma MainStartsNothing(s: State, c: Choice)
    requires MainStep(s, c).Some?
    ensures MainStep(s, c).value.script == s.script && MainStep(s, c).value.book.started == s.book.started
  {
  }

  lemma SysStartsOne(s: State, c: Choice)
    requires SysStep(s, c).Some?
    ensures var t := SysStep(s, c).value;
      && t.script == s.script
      && (t.book.started == s.book.started || (s.sys.SBegin? && t.book.started == s.book.started + [s.book.sysEvent]))
  {
  }

  lemma StepKeepsStarted(s: State, a: Action)
    requires Inv(s) && StartedBracketed(s) && Do(s, a).Some?
    ensures StartedBracketed(Do(s, a).value)
  {
    hide LogExact, Control, MainStep, SysStep, Bracketed;
    if a.Main? { MainStartsNothing(s, a.choice); }
    if a.Sys? { SysStartsOne(s, a.choice); }
  }

  lemma {:induction false} RunKeepsStarted(s: State, actions: seq<Action>)
    requires Inv(s) && StartedBracketed(s) && Run(s, actions).Some?
    ensures StartedBracketed(Run(s, actions).value)
    decreases |actions|
  {
    hide Do, Inv, StartedBracketed;
    if actions != [] {
      StepKeepsInv(s, actions[0]);
      StepKeepsStarted(s, actions[0]);
      RunKeepsStarted(Do(s, actions[0]).value, actions[1..]);
    }
  }

  ghost predicate Aborts(script: seq<Kind>) {
    exists actions: seq<Action> :: Run(Init(script), actions).Some? && Run(Init(script), actions).value.sys.SAbort?
  }

  /** A failed assertion of the syscall thread is reachable for a script if and only if the
      script holds a blocking call whose handler does not bracket the kernel call. */
  lemma AbortsIff(script: seq<Kind>)
    requires script != []
    ensures Aborts(script) <==> !AllBracketed(script)
  {
    var s := Init(script);
    InitInv(script);
    if AllBracketed(script) {
      forall actions: seq<Action> | Run(s, actions).Some?
        ensures !Run(s, actions).value.sys.SAbort?
      {
        RunKeepsInv(s, actions);
        RunKeepsScript(s, actions);
        NoAbort(Run(s, actions).value);
      }
    } else {
      var actions := FinishFrom(s);
      RunsAreBounded(s, actions);
      RunKeepsStarted(s, actions);
      var t := Run(s, actions).value;
      var e :| 0 <= e < |script| && script[e] == Blocking(false);
      CallsOrdered(script, |script|);
      FinishedHasAll(t);
      hide Run, Inv;
      assert t.main.MFinished? ==> e in t.book.started;
      assert t.sys.SAbort?;
    }
  }

  lemma {:induction false} RunKeepsScript(s: State, actions: seq<Action>)
    requires Run(s, actions).Some?
    ensures Run(s, actions).value.script == s.script
    decreases |actions|
  {
    if actions != [] {
      assert Do(s, actions[0]).value.script == s.script;
      RunKeepsScript(Do(s, actions[0]).value, actions[1..]);
    }
  }

  /** The shortest such script: one blocking call of sctp_freepaddrs or sctp_freeladdrs. */
  lemma UnbracketedCallAborts()
    ensures Aborts([Blocking(false)])
  {
    var script := [Blocking(false)];
    assert script[0].Blocking? && !script[0].bracketed;
    AbortsIff(script);
  }

  // ---------------------------------------------------------------- the event of a late call

  /** No call is recorded while the syscall thread is idle, nor the end of the last one. */
  predicate IdleHasNoCall(s: State) {
    s.phase.Idle? ==> s.book.callEvent.None? && (s.book.completed != [] ==> s.book.liveEnd == -1)
  }

  lemma MainKeepsNoCall(s: State, c: Choice)
    requires IdleHasNoCall(s) && Control(s) && MainStep(s, c).Some?
    ensures IdleHasNoCall(MainStep(s, c).value)
  {
  }

  lemma SysKeepsNoCall(s: State, c: Choice)
    requires IdleHasNoCall(s) && Control(s) && SysStep(s, c).Some?
    ensures IdleHasNoCall(SysStep(s, c).value)
  {
  }

  lemma {:induction false} RunKeepsNoCall(s: State, actions: seq<Action>)
    requires Inv(s) && IdleHasNoCall(s) && Run(s, actions).Some?
    ensures IdleHasNoCall(Run(s, actions).value)
    decreases |actions|
  {
    hide MainStep, SysStep, EventsMatch, LogExact, Control;
    if actions != [] {
      var a := actions[0];
      StepKeepsInv(s, a);
      if a.Main? { MainKeepsNoCall(s, a.choice); }
      if a.Sys? { SysKeepsNoCall(s, a.choice); }
      RunKeepsNoCall(Do(s, a).value, actions[1..]);
    }
  }

  /** In every reachable state. */
  lemma IdleIsClean(s: State)
    requires Reachable(s)
    ensures IdleHasNoCall(s)
  {
    var script: seq<Kind>, actions: seq<Action> :| script != [] && Run(Init(script), actions) == Some(s);
    InitInv(script);
    hide Run;
    RunKeepsNoCall(Init(script), actions);
  }

  /** Where the main thread dies: of an error that it reports at once, of a tear-down that ran into
      its timeout, or when the state has been freed and the syscall thread has been joined. A call
      that cannot be handed over in time is not among them: the state is freed first. */
  lemma WhereMainDies(s: State, c: Choice)
    requires Reachable(s) && !s.dead && MainStep(s, c).Some? && MainStep(s, c).value.dead
    ensures (c.Err? && (s.main.MSniff? || s.main.MTimedRun? || s.main.MYield?))
            || (s.main.MIdleExpired? && s.main.why.ToTearDown?)
            || (s.main == MJoinLock(true) && s.sys.SExited?)
  {
    ReachableInv(s);
    hide EventsMatch, LogExact;
  }

  /** The counter at which syscalls_free reports that a blocking call is in progress, with the
      line number of syscalls->event. */
  predicate ReportsCall(s: State) {
    s.main == MIdleExpired(ToTearDown(false)) && !s.dead
  }

  /** When the timeout of a normal tear-down is reported, there is no call to report, and the
      program reads the line number through a null pointer, if and only if the syscall thread
      has become idle in the meantime. */
  lemma ReportedCallIff(s: State)
    requires Reachable(s) && ReportsCall(s)
    ensures s.book.callEvent.None? <==> s.phase.Idle?
  {
    ReachableInv(s);
    var script: seq<Kind>, actions: seq<Action> :| script != [] && Run(Init(script), actions) == Some(s);
    InitInv(script);
    RunKeepsNoCall(Init(script), actions);
    hide Run, LogExact;
  }

  /** t is reached from s. */
  ghost predicate Reaches(s: State, t: State) {
    exists actions: seq<Action> :: Run(s, actions) == Some(t)
  }

  lemma {:induction false} RunConcat(s: State, x: seq<Action>, y: seq<Action>)
    requires Run(s, x).Some?
    ensures Run(s, x + y) == Run(Run(s, x).value, y)
    decreases |x|
  {
    hide Do;
    if x == [] {
      assert x + y == y;
    } else {
      assert (x + y)[1..] == x[1..] + y;
      RunConcat(Do(s, x[0]).value, x[1..], y);
    }
  }

  /** One more step. */
  lemma Onward(s: State, t: State, a: Action) returns (u: State)
    requires Reaches(s, t) && Do(t, a).Some?
    ensures u == Do(t, a).value && Reaches(s, u)
  {
    hide Do;
    u := Do(t, a).value;
    var x: seq<Action> :| Run(s, x) == Some(t);
    RunConcat(s, x, [a]);
    assert [a][1..] == [];
    assert Run(s, x + [a]) == Some(u);
  }

  const ONE_CALL: seq<Kind> := [Blocking(true)]

  /** The script of one blocking call. The main thread hands the call over. */
  lemma HandsOver() returns (t: State)
    ensures Reaches(Init(ONE_CALL), t)
    ensures t == State(ONE_CALL, Free, Enqueued, MDequeuedWait, SStart, Book(0, None, 0, -1, [0], [], []), false)
  {
    var s, go := Init(ONE_CALL), Main(Go(true, 0));
    assert Run(s, []) == Some(s);
    hide Run, Reaches;
    t := Onward(s, s, go);
    t := Onward(s, t, go);
    t := Onward(s, t, go);
    t := Onward(s, t, go);
    t := Onward(s, t, go);
    assert [] + [0] == [0];
  }

  /** The syscall thread picks it up. */
  lemma PicksUp(s: State, r: State) returns (t: State)
    requires Reaches(s, r) && r == State(ONE_CALL, Free, Enqueued, MDequeuedWait, SStart, Book(0, None, 0, -1, [0], [], []), false)
    ensures Reaches(s, t) && t == State(ONE_CALL, HeldBySyscall, Enqueued, MDequeuedWait, STimed, Book(0, Some(0), -1, 0, [0], [], []), false)
  {
    var go := Sys(Go(true, 0));
    hide Run, Reaches;
    t := Onward(s, r, go);
    t := Onward(s, t, go);
    t := Onward(s, t, go);
    t := Onward(s, t, go);
    assert [] + [0] == [0];
  }

  /** And starts it. */
  lemma StartsCall(s: State, r: State) returns (t: State)
    requires Reaches(s, r) && r == State(ONE_CALL, HeldBySyscall, Enqueued, MDequeuedWait, STimed, Book(0, Some(0), -1, 0, [0], [], []), false)
    ensures Reaches(s, t) && t == State(ONE_CALL, Free, Running, MDequeuedRelock, SCall, Book(0, Some(0), -1, 0, [0], [0], []), false)
  {
    var go := Sys(Go(true, 0));
    hide Run, Reaches;
    t := Onward(s, r, go);
    t := Onward(s, t, go);
    t := Onward(s, t, go);
    t := Onward(s, t, go);
    assert [] + [0] == [0];
  }

  /** The main thread sees that the call has started. */
  lemma SeesItStart(s: State, r: State) returns (t: State)
    requires Reaches(s, r) && r == State(ONE_CALL, Free, Running, MDequeuedRelock, SCall, Book(0, Some(0), -1, 0, [0], [0], []), false)
    ensures Reaches(s, t) && t == State(ONE_CALL, HeldByMain, Running, MYieldUnlock, SCall, Book(0, Some(0), -1, 0, [0], [0], []), false)
  {
    var go := Main(Go(true, 0));
    hide Run, Reaches;
    t := Onward(s, r, go);
    t := Onward(s, t, go);
  }

  /** And that the syscall thread sleeps. */
  lemma SeesItSleep(s: State, r: State) returns (t: State)
    requires Reaches(s, r) && r == State(ONE_CALL, HeldByMain, Running, MYieldUnlock, SCall, Book(0, Some(0), -1, 0, [0], [0], []), false)
    ensures Reaches(s, t) && t == State(ONE_CALL, Free, Running, MYieldLock(true), SCall, Book(0, Some(0), -1, 0, [0], [0], []), false)
  {
    var go := Main(Go(true, 0));
    hide Run, Reaches;
    t := Onward(s, r, go);
    t := Onward(s, t, go);
  }

  /** Comes to the end of the script. */
  lemma Awaits(s: State, r: State) returns (t: State)
    requires Reaches(s, r) && r == State(ONE_CALL, Free, Running, MYieldLock(true), SCall, Book(0, Some(0), -1, 0, [0], [0], []), false)
    ensures Reaches(s, t) && t == State(ONE_CALL, HeldByMain, Running, MAwaitIdle(ToTearDown(false)), SCall, Book(1, Some(0), -1, 0, [0], [0], []), false)
  {
    var go := Main(Go(true, 0));
    hide Run, Reaches;
    t := Onward(s, r, go);
    t := Onward(s, t, go);
    t := Onward(s, t, go);
    assert [] + [0] == [0];
  }

  /** And waits until its time is up. */
  lemma TimesOut(s: State, r: State) returns (t: State)
    requires Reaches(s, r) && r == State(ONE_CALL, HeldByMain, Running, MAwaitIdle(ToTearDown(false)), SCall, Book(1, Some(0), -1, 0, [0], [0], []), false)
    ensures Reaches(s, t) && t == State(ONE_CALL, Free, Running, MIdleRelock(ToTearDown(false), true), SCall, Book(1, Some(0), -1, 0, [0], [0], []), false)
  {
    var go := Main(Go(true, 0));
    hide Run, Reaches;
    t := Onward(s, r, go);
    t := Onward(s, t, WakeMain(true));
    assert [] + [0] == [0];
  }

  /** The call returns before the main thread has the mutex again. */
  lemma Returns(s: State, r: State) returns (t: State)
    requires Reaches(s, r) && r == State(ONE_CALL, Free, Running, MIdleRelock(ToTearDown(false), true), SCall, Book(1, Some(0), -1, 0, [0], [0], []), false)
    ensures Reaches(s, t) && t == State(ONE_CALL, HeldBySyscall, Done, MIdleRelock(ToTearDown(false), true), SStoreIdle, Book(1, Some(0), 0, 0, [0], [0], []), false)
  {
    var go := Sys(Go(true, 0));
    hide Run, Reaches;
    t := Onward(s, r, go);
    t := Onward(s, t, go);
    t := Onward(s, t, go);
    assert [] + [0] == [0];
  }

  /** The syscall thread becomes idle, and the main thread finds its time expired. */
  lemma ReturnsLate(s: State, r: State) returns (t: State)
    requires Reaches(s, r) && r == State(ONE_CALL, HeldBySyscall, Done, MIdleRelock(ToTearDown(false), true), SStoreIdle, Book(1, Some(0), 0, 0, [0], [0], []), false)
    ensures Reaches(s, t) && ReportsCall(t) && t.phase.Idle?
  {
    var go := Sys(Go(true, 0));
    hide Run, Reaches;
    t := Onward(s, r, go);
    t := Onward(s, t, go);
    t := Onward(s, t, go);
    t := Onward(s, t, Main(Go(true, 0)));
  }

  lemma ReachesIsReachable(script: seq<Kind>, s: State)
    requires script != [] && Reaches(Init(script), s)
    ensures Reachable(s)
  {
    hide Run;
  }

  /** A state in which the null pointer is read: one blocking call whose return and whose
      timeout cross. */
  lemma LateCallHasNoEvent() returns (s: State)
    ensures Reachable(s) && ReportsCall(s) && s.book.callEvent.None?
  {
    hide Run, Do, ReportsCall, Reaches;
    var init := Init(ONE_CALL);
    var r := HandsOver();
    r := PicksUp(init, r);
    r := StartsCall(init, r);
    r := SeesItStart(init, r);
    r := SeesItSleep(init, r);
    r := Awaits(init, r);
    r := TimesOut(init, r);
    r := Returns(init, r);
    s := ReturnsLate(init, r);
    ReachesIsReachable(ONE_CALL, s);
    ReportedCallIff(s);
  }
}
