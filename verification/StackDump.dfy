/** The handshake of base/debug_util.cc between DumpThreadStack and the signal handler of the dumped thread.

Any number of threads call DumpThreadStack, for any thread ids; signals are delivered at any later moment, and a
handler runs step by step between the steps of everybody else. A run is any sequence of such events.

A caller asks for an int64_t, but the shared structure and the kernel hold a pid_t: `Narrow` is what is left of it.
*/
module StackDump {

  /** A collected stack, known by who collected it and during which dump. */
  datatype Stack = Stack(collector: int, dump: nat)

  /** Who holds the bare lock of the shared structure. */
  datatype Owner = Free | ByDumper(d: nat) | ByHandler(h: nat)

  /** Where a caller of DumpThreadStack is. */
  datatype Pc =
    | Idle
    | Queued(tid: int)             // waiting for the dumper lock
    | Install(tid: int)            // make sure that the handler is installed
    | LockToSet(tid: int)
    | SetTarget(tid: int)          // critical section: CHECK target is 0, set it
    | Kill(tid: int)               // tgkill
    | LockToGiveUp(tid: int)
    | GiveUp(tid: int)             // critical section of the failure exit
    | Wait(tid: int, i: nat)       // poll result_ready, at most 100 sleeps
    | LockToTake(tid: int)
    | Take(tid: int)               // critical section: CHECK target, take the stack, reset
    | CheckFailed(tid: int)        // a CHECK failed

  datatype HandlerPc = Locking | Checking | Collecting | Flagging | Unlocking | Finished

  datatype Handler = Handler(tid: int, pc: HandlerPc)

  datatype Answer = Unavailable | Undeliverable | NoResponse | Trace(stack: Stack)

  /** What a dump returned; startedReady and collected record whether result_ready was already set when the dump
      published its target, and whether a handler has set it since. */
  datatype Report = Report(tid: int, dump: nat, answer: Answer, startedReady: bool, collected: bool)

  datatype State = State(
    target: int, ready: bool, lock: Owner, stack: Stack,     // the shared structure
    holder: int,                                             // who holds the dumper lock, -1 if nobody
    dumpers: seq<Pc>, handlers: seq<Handler>, pending: multiset<int>,
    dump: nat, startedReady: bool, collected: bool,          // history of the current dump
    staleExits: nat,                                         // failure exits taken with result_ready set
    reports: seq<Report>, aborted: bool)                     // aborted: a CHECK has ended the process

  datatype Event =
    | Request(d: nat, tid: int)      // thread d calls DumpThreadStack(tid)
    | Advance(d: nat, ok: bool)      // thread d takes a step; ok is what the system call of that step says
    | Deliver(tid: int)              // a pending signal reaches its thread
    | Handle(h: nat)                 // a handler takes a step

  function Start(n: nat): State {
    State(0, false, Free, Stack(0, 0), -1, seq(n, _ => Idle), [], multiset{}, 0, false, false, 0, [], false)
  }

  /** The conversion of an int64_t to a pid_t of 32 bits. */
  function Narrow(tid: int): int {
    var low := tid % 0x1_0000_0000;
    if low < 0x8000_0000 then low else low - 0x1_0000_0000
  }

  lemma NarrowKeeps(tid: int)
    requires -0x8000_0000 <= tid < 0x8000_0000
    ensures Narrow(tid) == tid
  {
  }

  /** A thread id that is changed by the conversion, into one that can exist. */
  predicate Trapped(tid: int) { Narrow(tid) != tid && Narrow(tid) > 0 }

  // ----- steps of a dumper

  function Goto(s: State, d: nat, pc: Pc): State
    requires d < |s.dumpers|
  {
    s.(dumpers := s.dumpers[d := pc])
  }

  /** Where a dumper goes. Leaving DumpThreadStack makes it idle. */
  function NextPc(s: State, d: nat, ok: bool): Pc
    requires d < |s.dumpers|
  {
    match s.dumpers[d]
    case Idle => Idle
    case Queued(tid) => if s.holder == -1 then Install(tid) else Queued(tid)
    case Install(tid) => if ok then LockToSet(tid) else Idle
    case LockToSet(tid) => if s.lock == Free then SetTarget(tid) else LockToSet(tid)
    case SetTarget(tid) => if s.target != 0 then CheckFailed(tid) else Kill(tid)
    case Kill(tid) => if ok && Narrow(tid) > 0 then Wait(tid, 0) else LockToGiveUp(tid)
    case LockToGiveUp(tid) => if s.lock == Free then GiveUp(tid) else LockToGiveUp(tid)
    case GiveUp(tid) => Idle
    case Wait(tid, i) => if !s.ready && i < 100 then Wait(tid, i + 1) else LockToTake(tid)
    case LockToTake(tid) => if s.lock == Free then Take(tid) else LockToTake(tid)
    case Take(tid) => if s.target != tid then CheckFailed(tid) else Idle
    case CheckFailed(tid) => CheckFailed(tid)
  }

  /** What it does on the way to the locks, the shared structure and the signals. */
  function Effect(s: State, d: nat, ok: bool): State
    requires d < |s.dumpers|
  {
    match s.dumpers[d]
    case Queued(tid) => if s.holder == -1 then s.(holder := d) else s
    case Install(tid) => if ok then s else s.(holder := -1)
    case LockToSet(tid) => if s.lock == Free then s.(lock := ByDumper(d)) else s
    case SetTarget(tid) =>
      if s.target != 0 then s.(aborted := true)
      else s.(target := Narrow(tid), lock := Free, dump := s.dump + 1, startedReady := s.ready, collected := false)
    case Kill(tid) =>
      if ok && Narrow(tid) > 0 then s.(pending := s.pending + multiset{Narrow(tid)}) else s
    case LockToGiveUp(tid) => if s.lock == Free then s.(lock := ByDumper(d)) else s
    case GiveUp(tid) =>
      s.(holder := -1, target := 0, lock := Free, staleExits := s.staleExits + (if s.ready then 1 else 0))
    case LockToTake(tid) => if s.lock == Free then s.(lock := ByDumper(d)) else s
    case Take(tid) =>
      if s.target != tid then s.(aborted := true) else s.(holder := -1, target := 0, ready := false, lock := Free)
    case _ => s
  }

  /** What a step of a dumper returns to its caller, if it leaves. */
  function Answered(s: State, d: nat, ok: bool): seq<Report>
    requires d < |s.dumpers|
  {
    match s.dumpers[d]
    case Install(tid) => if ok then [] else [Report(tid, s.dump, Unavailable, s.startedReady, s.collected)]
    case GiveUp(tid) => [Report(tid, s.dump, Undeliverable, s.startedReady, s.collected)]
    case Take(tid) =>
      if s.target != tid then []
      else [Report(tid, s.dump, if s.ready then Trace(s.stack) else NoResponse, s.startedReady, s.collected)]
    case _ => []
  }

  function DumperMove(s: State, d: nat, ok: bool): State
    requires d < |s.dumpers|
  {
    Effect(s, d, ok).(dumpers := s.dumpers[d := NextPc(s, d, ok)])
  }

  function DumperStep(s: State, d: nat, ok: bool): State
    requires d < |s.dumpers|
  {
    DumperMove(s, d, ok).(reports := s.reports + Answered(s, d, ok))
  }

  // ----- steps of a handler

  /** What one step of a handler does: where it goes, the lock and the stack afterwards, and whether it answers. */
  datatype HandlerMove = HandlerMove(pc: HandlerPc, lock: Owner, stack: Stack, answers: bool)

  function NextMove(s: State, h: nat): HandlerMove
    requires h < |s.handlers|
  {
    var tid := s.handlers[h].tid;
    match s.handlers[h].pc
    case Locking =>
      if s.lock == Free then HandlerMove(Checking, ByHandler(h), s.stack, false)
      else HandlerMove(Locking, s.lock, s.stack, false)
    case Checking => HandlerMove(if s.target == tid then Collecting else Unlocking, s.lock, s.stack, false)
    case Collecting => HandlerMove(Flagging, s.lock, Stack(tid, s.dump), false)
    case Flagging => HandlerMove(Unlocking, s.lock, s.stack, true)
    case Unlocking => HandlerMove(Finished, Free, s.stack, false)
    case Finished => HandlerMove(Finished, s.lock, s.stack, false)
  }

  function HandlerStep(s: State, h: nat): State
    requires h < |s.handlers|
  {
    var m := NextMove(s, h);
    s.(handlers := s.handlers[h := s.handlers[h].(pc := m.pc)], lock := m.lock, stack := m.stack,
       ready := s.ready || m.answers, collected := s.collected || m.answers)
  }

  /** Events that are not possible in a state leave it unchanged; after a failed CHECK there are none. */
  function Step(s: State, e: Event): State { if s.aborted then s else StepAlive(s, e) }

  function StepAlive(s: State, e: Event): State {
    match e
    case Request(d, tid) => if d < |s.dumpers| && s.dumpers[d].Idle? then Goto(s, d, Queued(tid)) else s
    case Advance(d, ok) => if d < |s.dumpers| then DumperStep(s, d, ok) else s
    case Deliver(tid) =>
      if tid in s.pending then s.(pending := s.pending - multiset{tid}, handlers := s.handlers + [Handler(tid, Locking)])
      else s
    case Handle(h) => if h < |s.handlers| then HandlerStep(s, h) else s
  }

  function Run(s: State, events: seq<Event>): State {
    if events == [] then s else Step(Run(s, events[..|events| - 1]), events[|events| - 1])
  }

  // ----- the invariant

  /** Inside the region that the dumper lock protects. */
  predicate Inside(pc: Pc) { !pc.Idle? && !pc.Queued? }

  /** Inside a critical section of the shared structure. */
  predicate DumperLocked(pc: Pc) { pc.SetTarget? || pc.GiveUp? || pc.Take? }

  predicate HandlerLocked(pc: HandlerPc) { pc.Checking? || pc.Collecting? || pc.Flagging? || pc.Unlocking? }

  /** Between publishing the target and withdrawing it. */
  predicate Published(pc: Pc) {
    pc.Kill? || pc.LockToGiveUp? || pc.GiveUp? || pc.Wait? || pc.LockToTake? || pc.Take?
  }

  predicate Active(s: State) { 0 <= s.holder < |s.dumpers| && Published(s.dumpers[s.holder]) }

  /** Mutual exclusion by the two locks. */
  ghost predicate Exclusion(s: State) {
    && -1 <= s.holder < |s.dumpers|
    && (forall d :: 0 <= d < |s.dumpers| ==> (Inside(s.dumpers[d]) <==> d == s.holder))
    && (forall d :: 0 <= d < |s.dumpers| ==> (DumperLocked(s.dumpers[d]) <==> s.lock == ByDumper(d)))
    && (forall h :: 0 <= h < |s.handlers| ==> (HandlerLocked(s.handlers[h].pc) <==> s.lock == ByHandler(h)))
    && (s.lock.ByDumper? ==> s.lock.d < |s.dumpers|)
    && (s.lock.ByHandler? ==> s.lock.h < |s.handlers|)
  }

  /** The target is what the active dump published. */
  ghost predicate TargetOk(s: State) {
    && s.target == (if Active(s) then Narrow(s.dumpers[s.holder].tid) else 0)
    && (forall d :: 0 <= d < |s.dumpers| ==> !s.dumpers[d].CheckFailed?)
    && (Active(s) && (s.dumpers[s.holder].Wait? || s.dumpers[s.holder].LockToTake? || s.dumpers[s.holder].Take?)
        ==> s.target > 0)
  }

  predicate HandlerOk(s: State, h: Handler) {
    && h.tid > 0
    && (h.pc.Collecting? || h.pc.Flagging? ==> s.target == h.tid)
    && (h.pc.Flagging? ==> s.stack == Stack(h.tid, s.dump))
  }

  ghost predicate HandlersOk(s: State) {
    && (forall h :: 0 <= h < |s.handlers| ==> HandlerOk(s, s.handlers[h]))
    && (forall tid :: tid in s.pending ==> tid > 0)
  }

  predicate AboutToFlag(s: State) { s.lock.ByHandler? && s.lock.h < |s.handlers| && s.handlers[s.lock.h].pc.Flagging? }

  /** Where result_ready and the stored stack come from. */
  ghost predicate Fresh(s: State) {
    && (s.stack.dump <= s.dump)
    && (Active(s) ==>
          && (s.ready <==> s.startedReady || s.collected)
          && (s.startedReady ==> s.staleExits > 0)
          && (s.collected ==> s.stack == Stack(s.target, s.dump))
          && (s.stack.dump == s.dump ==> s.collected || AboutToFlag(s)))
    && (!Active(s) && s.ready ==> s.staleExits > 0)
  }

  /** A report is honest when the stack it holds was collected by the dumped thread during that very dump. */
  predicate Genuine(r: Report) { r.answer.Trace? ==> r.answer.stack == Stack(r.tid, r.dump) }

  predicate ReportOk(s: State, r: Report) {
    r.dump <= s.dump
    && (r.answer.Trace? ==>
      && (Genuine(r) <==> r.collected)
      && (!r.startedReady ==> r.collected)
      && (r.startedReady ==> s.staleExits > 0))
  }

  ghost predicate ReportsOk(s: State) { forall i :: 0 <= i < |s.reports| ==> ReportOk(s, s.reports[i]) }

  /** The part of the invariant that concerns the present dump. */
  ghost predicate Present(s: State) { Exclusion(s) && TargetOk(s) && HandlersOk(s) && Fresh(s) }

  /** The only way for a CHECK to fail. */
  ghost predicate FailuresTrapped(s: State) {
    forall d :: 0 <= d < |s.dumpers| && s.dumpers[d].CheckFailed? ==> Trapped(s.dumpers[d].tid)
  }

  ghost predicate Inv(s: State) { ReportsOk(s) && (if s.aborted then FailuresTrapped(s) else Present(s)) }

  // ----- every event keeps it

  /** What a handler leaves alone. */
  lemma HandlerFrame(s: State, h: nat)
    requires h < |s.handlers|
    ensures
      var s' := HandlerStep(s, h);
      && s'.dumpers == s.dumpers && s'.holder == s.holder && s'.target == s.target && s'.dump == s.dump
      && s'.pending == s.pending && s'.reports == s.reports && s'.staleExits == s.staleExits
      && s'.startedReady == s.startedReady && s'.aborted == s.aborted
  {
    hide NextMove;
  }

  lemma OtherHandlers(s: State, h: nat)
    requires h < |s.handlers|
    ensures
      var s' := HandlerStep(s, h);
      && |s'.handlers| == |s.handlers| && s'.handlers == s.handlers[h := s'.handlers[h]]
      && s'.handlers[h].tid == s.handlers[h].tid
  {
    hide NextMove;
  }

  lemma HandlerLock(s: State, h: nat)
    requires h < |s.handlers| && (HandlerLocked(s.handlers[h].pc) <==> s.lock == ByHandler(h))
    ensures
      var s' := HandlerStep(s, h);
      && h < |s'.handlers| && (HandlerLocked(s'.handlers[h].pc) <==> s'.lock == ByHandler(h))
      && (s'.lock == s.lock || (s.lock == Free && s'.lock == ByHandler(h)) || (s.lock == ByHandler(h) && s'.lock == Free))
  {
  }

  lemma HandlerExclusion(s: State, h: nat)
    requires Exclusion(s) && h < |s.handlers|
    ensures Exclusion(HandlerStep(s, h))
  {
    HandlerFrame(s, h);
    OtherHandlers(s, h);
    HandlerLock(s, h);
    hide HandlerStep, Inside, DumperLocked, HandlerLocked;
  }

  lemma HandlerTargetOk(s: State, h: nat)
    requires Exclusion(s) && TargetOk(s) && h < |s.handlers|
    ensures TargetOk(HandlerStep(s, h))
  {
    HandlerFrame(s, h);
    hide HandlerStep, Exclusion;
  }

  lemma HandlerHandlersOk(s: State, h: nat)
    requires Exclusion(s) && TargetOk(s) && HandlersOk(s) && h < |s.handlers|
    ensures HandlersOk(HandlerStep(s, h))
  {
  }

  lemma HandlerFresh(s: State, h: nat)
    requires Present(s) && h < |s.handlers|
    ensures Fresh(HandlerStep(s, h))
  {
  }

  /** Entering and leaving the region of the dumper lock. */
  lemma QueuedExcludes(s: State, d: nat, ok: bool)
    requires Present(s) && d < |s.dumpers|
    requires s.dumpers[d].Idle? || s.dumpers[d].Queued? || s.dumpers[d].Install?
    ensures Exclusion(DumperMove(s, d, ok))
  {
    hide TargetOk, HandlersOk, Fresh, Narrow;
  }

  /** Entering and leaving the region of the dumper lock. */
  lemma QueuedConsistent(s: State, d: nat, ok: bool)
    requires Present(s) && d < |s.dumpers|
    requires s.dumpers[d].Idle? || s.dumpers[d].Queued? || s.dumpers[d].Install?
    ensures TargetOk(DumperMove(s, d, ok)) && HandlersOk(DumperMove(s, d, ok)) && Fresh(DumperMove(s, d, ok))
  {
    hide Narrow;
  }

  /** Spinning on the bare lock. */
  lemma AcquireExcludes(s: State, d: nat, ok: bool)
    requires Present(s) && d < |s.dumpers|
    requires s.dumpers[d].LockToSet? || s.dumpers[d].LockToGiveUp? || s.dumpers[d].LockToTake?
    ensures Exclusion(DumperMove(s, d, ok))
  {
    hide TargetOk, HandlersOk, Fresh, Narrow;
  }

  /** Spinning on the bare lock. */
  lemma AcquireConsistent(s: State, d: nat, ok: bool)
    requires Present(s) && d < |s.dumpers|
    requires s.dumpers[d].LockToSet? || s.dumpers[d].LockToGiveUp? || s.dumpers[d].LockToTake?
    ensures TargetOk(DumperMove(s, d, ok)) && HandlersOk(DumperMove(s, d, ok)) && Fresh(DumperMove(s, d, ok))
  {
    hide Narrow;
  }

  /** The three critical sections. */
  lemma LockedExcludes(s: State, d: nat, ok: bool)
    requires Present(s) && d < |s.dumpers|
    requires DumperLocked(s.dumpers[d]) && !DumperMove(s, d, ok).aborted
    ensures Exclusion(DumperMove(s, d, ok))
  {
    hide TargetOk, HandlersOk, Fresh, Narrow;
  }

  /** The three critical sections. */
  lemma LockedConsistent(s: State, d: nat, ok: bool)
    requires Present(s) && d < |s.dumpers|
    requires DumperLocked(s.dumpers[d]) && !DumperMove(s, d, ok).aborted
    ensures TargetOk(DumperMove(s, d, ok)) && HandlersOk(DumperMove(s, d, ok)) && Fresh(DumperMove(s, d, ok))
  {
  }

  /** Steps outside the bare lock while the target is published. */
  lemma PlainExcludes(s: State, d: nat, ok: bool)
    requires Present(s) && d < |s.dumpers|
    requires s.dumpers[d].Kill? || s.dumpers[d].Wait? || s.dumpers[d].CheckFailed?
    ensures Exclusion(DumperMove(s, d, ok))
  {
    hide TargetOk, HandlersOk, Fresh, Narrow;
  }

  /** Steps outside the bare lock while the target is published. */
  lemma PlainConsistent(s: State, d: nat, ok: bool)
    requires Present(s) && d < |s.dumpers|
    requires s.dumpers[d].Kill? || s.dumpers[d].Wait? || s.dumpers[d].CheckFailed?
    ensures TargetOk(DumperMove(s, d, ok)) && HandlersOk(DumperMove(s, d, ok)) && Fresh(DumperMove(s, d, ok))
  {
    hide Narrow;
  }

  /** The second CHECK fails for a trapped thread id, and the first never does. */
  lemma AbortTrapped(s: State, d: nat, ok: bool)
    requires Present(s) && !s.aborted && d < |s.dumpers| && DumperMove(s, d, ok).aborted
    ensures FailuresTrapped(DumperMove(s, d, ok))
  {
    assert DumperLocked(s.dumpers[d]) && d == s.holder;
    hide HandlersOk, Fresh, Narrow;
  }

  lemma StaleExitsGrow(s: State, d: nat, ok: bool)
    requires d < |s.dumpers|
    ensures Effect(s, d, ok).staleExits >= s.staleExits && Effect(s, d, ok).dump >= s.dump
  {
    hide Narrow;
  }

  /** The report of a dump that ends is in order. */
  lemma NewReportOk(s: State, d: nat, ok: bool, r: Report)
    requires Present(s) && d < |s.dumpers| && r in Answered(s, d, ok)
    ensures ReportOk(s, r)
  {
    hide HandlersOk, DumperMove;
    assert s.dumpers[d].Take? ==> d == s.holder;
  }

  lemma DumperReportsOk(s: State, d: nat, ok: bool)
    requires Present(s) && ReportsOk(s) && d < |s.dumpers|
    ensures ReportsOk(DumperStep(s, d, ok))
  {
    StaleExitsGrow(s, d, ok);
    hide Present, Effect, NextPc, Answered;
    forall r | r in Answered(s, d, ok) ensures ReportOk(s, r) {
      NewReportOk(s, d, ok, r);
    }
  }

  lemma DumperKeepsPresent(s: State, d: nat, ok: bool)
    requires Present(s) && !s.aborted && d < |s.dumpers| && !DumperMove(s, d, ok).aborted
    ensures Present(DumperStep(s, d, ok))
  {
    MoveKeepsPresent(s, d, ok);
    hide Exclusion, TargetOk, HandlersOk, Fresh, DumperMove, Answered;
    PresentWithReports(DumperMove(s, d, ok), DumperStep(s, d, ok).reports);
  }

  lemma PresentWithReports(s: State, reports: seq<Report>)
    requires Present(s)
    ensures Present(s.(reports := reports))
  {
  }

  lemma MoveKeepsPresent(s: State, d: nat, ok: bool)
    requires Present(s) && !s.aborted && d < |s.dumpers| && !DumperMove(s, d, ok).aborted
    ensures Present(DumperMove(s, d, ok))
  {
    hide Exclusion, TargetOk, HandlersOk, Fresh, DumperMove;
    match s.dumpers[d]
    case Idle => QueuedExcludes(s, d, ok); QueuedConsistent(s, d, ok);
    case Queued(_) => QueuedExcludes(s, d, ok); QueuedConsistent(s, d, ok);
    case Install(_) => QueuedExcludes(s, d, ok); QueuedConsistent(s, d, ok);
    case LockToSet(_) => AcquireExcludes(s, d, ok); AcquireConsistent(s, d, ok);
    case LockToGiveUp(_) => AcquireExcludes(s, d, ok); AcquireConsistent(s, d, ok);
    case LockToTake(_) => AcquireExcludes(s, d, ok); AcquireConsistent(s, d, ok);
    case Kill(_) => PlainExcludes(s, d, ok); PlainConsistent(s, d, ok);
    case Wait(_, _) => PlainExcludes(s, d, ok); PlainConsistent(s, d, ok);
    case CheckFailed(_) => PlainExcludes(s, d, ok); PlainConsistent(s, d, ok);
    case _ => LockedExcludes(s, d, ok); LockedConsistent(s, d, ok);
  }

  lemma DumperKeepsInv(s: State, d: nat, ok: bool)
    requires Inv(s) && !s.aborted && d < |s.dumpers|
    ensures Inv(DumperStep(s, d, ok))
  {
    hide Present, DumperMove, Answered, ReportsOk;
    assert DumperStep(s, d, ok).aborted == DumperMove(s, d, ok).aborted;
    assert DumperStep(s, d, ok).dumpers == DumperMove(s, d, ok).dumpers;
    if DumperMove(s, d, ok).aborted {
      AbortTrapped(s, d, ok);
    } else {
      DumperKeepsPresent(s, d, ok);
    }
    DumperReportsOk(s, d, ok);
  }

  lemma HandlerKeepsInv(s: State, h: nat)
    requires Inv(s) && !s.aborted && h < |s.handlers|
    ensures Inv(HandlerStep(s, h))
  {
    hide Exclusion, TargetOk, HandlersOk, Fresh, HandlerStep;
    HandlerFrame(s, h);
    HandlerExclusion(s, h);
    HandlerTargetOk(s, h);
    HandlerHandlersOk(s, h);
    HandlerFresh(s, h);
  }

  lemma RequestKeepsInv(s: State, d: nat, tid: int)
    requires Inv(s) && !s.aborted
    ensures Inv(StepAlive(s, Request(d, tid)))
  {
    hide DumperStep, HandlerStep;
  }

  lemma DeliverKeepsInv(s: State, tid: int)
    requires Inv(s) && !s.aborted
    ensures Inv(StepAlive(s, Deliver(tid)))
  {
    hide DumperStep, HandlerStep;
  }

  lemma StepKeepsInv(s: State, e: Event)
    requires Inv(s)
    ensures Inv(Step(s, e))
  {
    if !s.aborted {
      hide Inv, DumperStep, HandlerStep;
      match e
      case Request(d, tid) => RequestKeepsInv(s, d, tid);
      case Advance(d, ok) => if d < |s.dumpers| { DumperKeepsInv(s, d, ok); }
      case Deliver(tid) => DeliverKeepsInv(s, tid);
      case Handle(h) => if h < |s.handlers| { HandlerKeepsInv(s, h); }
    }
  }

  lemma {:induction false} RunKeepsInv(n: nat, events: seq<Event>)
    ensures Inv(Run(Start(n), events))
  {
    if events != [] {
      var before, e := events[..|events| - 1], events[|events| - 1];
      RunKeepsInv(n, before);
      hide Inv, Step;
      StepKeepsInv(Run(Start(n), before), e);
    }
  }

  // ----- the promises

  /** A stack that a dump returns was collected by the dumped thread during that dump, unless the flag was left
      set by an earlier failure exit and no handler has answered since. */
  lemma TraceGenuineIff(n: nat, events: seq<Event>, r: Report)
    requires r in Run(Start(n), events).reports && r.answer.Trace?
    ensures Genuine(r) <==> r.collected
    ensures !r.startedReady ==> Genuine(r)
    ensures r.startedReady ==> Run(Start(n), events).staleExits > 0
  {
    RunKeepsInv(n, events);
    var s := Run(Start(n), events);
    var i :| 0 <= i < |s.reports| && s.reports[i] == r;
    assert ReportOk(s, s.reports[i]);
  }

  /** Event e takes the failure exit while the flag is set. */
  predicate ExitsStale(s: State, e: Event) {
    e.Advance? && !s.aborted && e.d < |s.dumpers| && s.dumpers[e.d].GiveUp? && s.ready
  }

  function StaleExits(n: nat, events: seq<Event>): nat {
    if events == [] then 0
    else
      var before := events[..|events| - 1];
      StaleExits(n, before) + if ExitsStale(Run(Start(n), before), events[|events| - 1]) then 1 else 0
  }

  lemma StepCountsExits(s: State, e: Event)
    ensures Step(s, e).staleExits == s.staleExits + if ExitsStale(s, e) then 1 else 0
  {
    hide Narrow, NextPc, NextMove;
  }

  /** The history counts exactly these exits. */
  lemma {:induction false} StaleExitsAreCounted(n: nat, events: seq<Event>)
    ensures Run(Start(n), events).staleExits == StaleExits(n, events)
  {
    if events != [] {
      var before, e := events[..|events| - 1], events[|events| - 1];
      StaleExitsAreCounted(n, before);
      hide Step, ExitsStale;
      StepCountsExits(Run(Start(n), before), e);
    }
  }

  /** A run in which no failure exit was taken with the flag set returns genuine stacks only. */
  lemma TracesGenuineWithoutStaleExit(n: nat, events: seq<Event>)
    requires StaleExits(n, events) == 0
    ensures forall r :: r in Run(Start(n), events).reports ==> Genuine(r)
  {
    StaleExitsAreCounted(n, events);
    forall r | r in Run(Start(n), events).reports ensures Genuine(r) {
      if r.answer.Trace? {
        TraceGenuineIff(n, events, r);
      }
    }
  }

  // ----- when the CHECKs fail

  /** Every thread id asked for is one of these. */
  predicate Asked(events: seq<Event>, tids: iset<int>) {
    forall i :: 0 <= i < |events| && events[i].Request? ==> events[i].tid in tids
  }

  predicate AllFrom(dumpers: seq<Pc>, tids: iset<int>) {
    forall d :: 0 <= d < |dumpers| && !dumpers[d].Idle? ==> dumpers[d].tid in tids
  }

  lemma TidStays(s: State, d: nat, ok: bool)
    requires d < |s.dumpers|
    ensures var pc := NextPc(s, d, ok); pc.Idle? || (!s.dumpers[d].Idle? && pc.tid == s.dumpers[d].tid)
  {
    hide Narrow;
  }

  lemma StepAllFrom(s: State, e: Event, tids: iset<int>)
    requires AllFrom(s.dumpers, tids) && (e.Request? ==> e.tid in tids)
    ensures AllFrom(Step(s, e).dumpers, tids)
  {
    match e
    case Advance(d, ok) =>
      if d < |s.dumpers| {
        TidStays(s, d, ok);
        hide NextPc, Effect, Answered, NextMove;
      }
    case _ =>
      hide DumperMove, Answered, NextMove;
  }

  lemma {:induction false} RunAllFrom(n: nat, events: seq<Event>, tids: iset<int>)
    requires Asked(events, tids)
    ensures AllFrom(Run(Start(n), events).dumpers, tids)
  {
    if events != [] {
      RunAllFrom(n, events[..|events| - 1], tids);
      hide Step;
      StepAllFrom(Run(Start(n), events[..|events| - 1]), events[|events| - 1], tids);
    }
  }

  predicate SomeCheckFailed(s: State) { exists d :: 0 <= d < |s.dumpers| && s.dumpers[d].CheckFailed? }

  /** As long as nobody asks for a thread id that is trapped by the conversion, no CHECK fails, however late signals
      arrive. */
  lemma ChecksNeverFail(n: nat, events: seq<Event>)
    requires Asked(events, iset tid | !Trapped(tid))
    ensures !SomeCheckFailed(Run(Start(n), events))
  {
    var s := Run(Start(n), events);
    RunKeepsInv(n, events);
    RunAllFrom(n, events, iset tid | !Trapped(tid));
    hide Trapped, ReportsOk;
  }

  // ----- runs that are made

  /** events lead to s; they continue base, and ask for no thread but tid on the way. */
  ghost predicate Reached(n: nat, base: seq<Event>, tid: int, events: seq<Event>, s: State) {
    && |base| <= |events| && events[..|base|] == base
    && (forall i :: |base| <= i < |events| && events[i].Request? ==> events[i].tid == tid)
    && Run(Start(n), events) == s
  }

  lemma Begin(n: nat, base: seq<Event>, tid: int)
    ensures Reached(n, base, tid, base, Run(Start(n), base))
  {
    hide Run;
  }

  /** Append one event to a run. */
  lemma Extend(n: nat, base: seq<Event>, tid: int, events: seq<Event>, s: State, e: Event)
    returns (longer: seq<Event>, s': State)
    requires Reached(n, base, tid, events, s) && (e.Request? ==> e.tid == tid)
    ensures s' == Step(s, e) && Reached(n, base, tid, longer, s')
  {
    longer, s' := events + [e], Step(s, e);
    assert longer[..|longer| - 1] == events;
    hide Step;
  }

  /** Dumper d is idle and nobody else is dumping. */
  ghost predicate Quiet(s: State, d: nat) {
    !s.aborted && d < |s.dumpers| && s.dumpers[d] == Idle && s.holder == -1 && s.lock == Free && s.target == 0
  }

  lemma SetAgain(pcs: seq<Pc>, d: nat, x: Pc, y: Pc)
    requires d < |pcs|
    ensures pcs[d := x][d := y] == pcs[d := y]
  {
  }

  /** The next step of dumper d, by what it does to the state. */
  lemma Next(n: nat, base: seq<Event>, tid: int, events: seq<Event>, s: State, d: nat, ok: bool)
    returns (longer: seq<Event>, s': State)
    requires Reached(n, base, tid, events, s) && !s.aborted && d < |s.dumpers|
    ensures s' == DumperStep(s, d, ok) && Reached(n, base, tid, longer, s')
  {
    hide DumperStep;
    longer, s' := Extend(n, base, tid, events, s, Advance(d, ok));
  }

  /** From the call up to the publication of the target. */
  lemma BeginDump(n: nat, base: seq<Event>, tid: int, events: seq<Event>, s: State, d: nat)
    returns (longer: seq<Event>, s': State)
    requires Reached(n, base, tid, events, s) && Quiet(s, d)
    ensures Reached(n, base, tid, longer, s')
    ensures s' == s.(dumpers := s.dumpers[d := Kill(tid)], holder := d, target := Narrow(tid), dump := s.dump + 1,
                     startedReady := s.ready, collected := false)
  {
    hide Reached, Narrow;
    longer, s' := Extend(n, base, tid, events, s, Request(d, tid));
    longer, s' := Next(n, base, tid, longer, s', d, true);
    longer, s' := Next(n, base, tid, longer, s', d, true);
    SetAgain(s.dumpers, d, Queued(tid), Install(tid));
    SetAgain(s.dumpers, d, Install(tid), LockToSet(tid));
    assert s' == s.(dumpers := s.dumpers[d := LockToSet(tid)], holder := d);
    longer, s' := Publish(n, base, tid, longer, s', d);
    SetAgain(s.dumpers, d, LockToSet(tid), Kill(tid));
  }

  lemma Publish(n: nat, base: seq<Event>, tid: int, events: seq<Event>, s: State, d: nat)
    returns (longer: seq<Event>, s': State)
    requires Reached(n, base, tid, events, s) && !s.aborted && d < |s.dumpers| && s.dumpers[d] == LockToSet(tid)
    requires s.lock == Free && s.target == 0
    ensures Reached(n, base, tid, longer, s')
    ensures s' == s.(dumpers := s.dumpers[d := Kill(tid)], target := Narrow(tid), dump := s.dump + 1,
                     startedReady := s.ready, collected := false)
  {
    hide Reached, Narrow;
    longer, s' := Next(n, base, tid, events, s, d, true);
    longer, s' := Next(n, base, tid, longer, s', d, true);
    SetAgain(s.dumpers, d, SetTarget(tid), Kill(tid));
  }

  lemma SendSignal(n: nat, base: seq<Event>, tid: int, events: seq<Event>, s: State, d: nat)
    returns (longer: seq<Event>, s': State)
    requires Reached(n, base, tid, events, s) && !s.aborted && d < |s.dumpers| && s.dumpers[d] == Kill(tid)
    requires Narrow(tid) > 0
    ensures Reached(n, base, tid, longer, s')
    ensures s' == s.(dumpers := s.dumpers[d := Wait(tid, 0)], pending := s.pending + multiset{Narrow(tid)})
  {
    hide Reached, Narrow;
    longer, s' := Next(n, base, tid, events, s, d, true);
  }

  /** Nobody answers: the dumper polls 100 times and goes on; or the flag is set, and it goes on at once. */
  lemma Poll(n: nat, base: seq<Event>, tid: int, events: seq<Event>, s: State, d: nat, i: nat)
    returns (longer: seq<Event>, s': State)
    requires Reached(n, base, tid, events, s) && !s.aborted && d < |s.dumpers| && s.dumpers[d] == Wait(tid, i) && i <= 100
    ensures Reached(n, base, tid, longer, s')
    ensures s' == s.(dumpers := s.dumpers[d := LockToTake(tid)])
    decreases 100 - i
  {
    hide Reached;
    longer, s' := Next(n, base, tid, events, s, d, true);
    if !s.ready && i < 100 {
      longer, s' := Poll(n, base, tid, longer, s', d, i + 1);
      SetAgain(s.dumpers, d, Wait(tid, i + 1), LockToTake(tid));
    }
  }

  /** The end of a dump: the last critical section. */
  lemma EndDump(n: nat, base: seq<Event>, tid: int, events: seq<Event>, s: State, d: nat)
    returns (longer: seq<Event>, s': State)
    requires Reached(n, base, tid, events, s) && !s.aborted && d < |s.dumpers| && s.dumpers[d] == LockToTake(tid)
    requires s.lock == Free && s.target == tid
    ensures Reached(n, base, tid, longer, s') && Quiet(s', d) && !s'.ready && s'.dumpers == s.dumpers[d := Idle]
    ensures s'.pending == s.pending && s'.handlers == s.handlers && s'.dump == s.dump
    ensures s'.reports == s.reports +
      [Report(tid, s.dump, if s.ready then Trace(s.stack) else NoResponse, s.startedReady, s.collected)]
  {
    hide Reached, Narrow;
    longer, s' := Next(n, base, tid, events, s, d, true);
    longer, s' := Next(n, base, tid, longer, s', d, true);
  }

  /** The second CHECK. */
  lemma EndAborts(n: nat, base: seq<Event>, tid: int, events: seq<Event>, s: State, d: nat)
    returns (longer: seq<Event>, s': State)
    requires Reached(n, base, tid, events, s) && !s.aborted && d < |s.dumpers| && s.dumpers[d] == LockToTake(tid)
    requires s.lock == Free && s.target != tid
    ensures Reached(n, base, tid, longer, s') && SomeCheckFailed(s')
  {
    hide Reached, Narrow;
    longer, s' := Next(n, base, tid, events, s, d, true);
    longer, s' := Next(n, base, tid, longer, s', d, true);
    assert s'.dumpers[d].CheckFailed?;
  }

  /** A dump up to its last critical section, with nobody answering. */
  lemma DumpUnanswered(n: nat, base: seq<Event>, tid: int, events: seq<Event>, s: State, d: nat)
    returns (longer: seq<Event>, s': State)
    requires Reached(n, base, tid, events, s) && Quiet(s, d) && Narrow(tid) > 0
    ensures Reached(n, base, tid, longer, s')
    ensures s' == s.(dumpers := s.dumpers[d := LockToTake(tid)], holder := d, target := Narrow(tid), dump := s.dump + 1,
                     startedReady := s.ready, collected := false, pending := s.pending + multiset{Narrow(tid)})
  {
    hide *;
    longer, s' := DumpUpToSignal(n, base, tid, events, s, d);
    SetAt(s.dumpers, d, Wait(tid, 0));
    longer, s' := Poll(n, base, tid, longer, s', d, 0);
    SetAgain(s.dumpers, d, Wait(tid, 0), LockToTake(tid));
  }

  lemma DumpUpToSignal(n: nat, base: seq<Event>, tid: int, events: seq<Event>, s: State, d: nat)
    returns (longer: seq<Event>, s': State)
    requires Reached(n, base, tid, events, s) && Quiet(s, d) && Narrow(tid) > 0
    ensures Reached(n, base, tid, longer, s') && d < |s.dumpers| && !s.aborted
    ensures s' == s.(dumpers := s.dumpers[d := Wait(tid, 0)], holder := d, target := Narrow(tid), dump := s.dump + 1,
                     startedReady := s.ready, collected := false, pending := s.pending + multiset{Narrow(tid)})
  {
    hide Reached, Narrow;
    longer, s' := BeginDump(n, base, tid, events, s, d);
    SetAt(s.dumpers, d, Kill(tid));
    longer, s' := SendSignal(n, base, tid, longer, s', d);
    SetAgain(s.dumpers, d, Kill(tid), Wait(tid, 0));
  }

  lemma SetAt(pcs: seq<Pc>, d: nat, x: Pc)
    requires d < |pcs|
    ensures |pcs[d := x]| == |pcs| && pcs[d := x][d] == x
  {
  }

  /** In every reachable state in which dumper d could start, asking for a trapped thread id can end the process. */
  lemma TrappedAborts(n: nat, base: seq<Event>, tid: int, d: nat) returns (longer: seq<Event>, s': State)
    requires Quiet(Run(Start(n), base), d) && Trapped(tid)
    ensures Reached(n, base, tid, longer, s') && SomeCheckFailed(s')
  {
    hide Run, Reached, SomeCheckFailed, Narrow;
    Begin(n, base, tid);
    longer, s' := DumpUnanswered(n, base, tid, base, Run(Start(n), base), d);
    longer, s' := EndAborts(n, base, tid, longer, s', d);
  }

  /** Callers that ask for these thread ids can see a CHECK fail exactly if one of them is trapped. */
  lemma ChecksFailIff(n: nat, tids: iset<int>)
    requires n > 0
    ensures (exists events :: Asked(events, tids) && SomeCheckFailed(Run(Start(n), events)))
            <==> exists tid :: tid in tids && Trapped(tid)
  {
    if tid :| tid in tids && Trapped(tid) {
      var events, s := TrappedAborts(n, [], tid, 0);
      assert Asked(events, tids) && SomeCheckFailed(Run(Start(n), events));
    } else {
      forall events | Asked(events, tids) ensures !SomeCheckFailed(Run(Start(n), events)) {
        ChecksNeverFail(n, events);
      }
    }
  }

  // ----- the next dump

  /** Every stack returned by dump number k is genuine. */
  ghost predicate DumpGenuine(s: State, k: nat) {
    forall i :: 0 <= i < |s.reports| && s.reports[i].dump == k ==> Genuine(s.reports[i])
  }

  /** What later states keep of a state s0 in which nobody is dumping: until the next dump publishes its target
      nothing touches the flag, and that dump finds it as it was. */
  ghost predicate Follows(s0: State, s: State) {
    && s0.dump <= s.dump
    && (s.dump == s0.dump ==> s.ready == s0.ready && !Active(s))
    && (s.dump == s0.dump + 1 && Active(s) ==> s.startedReady == s0.ready)
  }

  predicate StartedLike(r: Report, s0: State) { r.dump == s0.dump + 1 && r.answer.Trace? ==> r.startedReady == s0.ready }

  ghost predicate ReportsFollow(s0: State, s: State) {
    forall i :: 0 <= i < |s.reports| ==> StartedLike(s.reports[i], s0)
  }

  lemma LockedFollows(s0: State, s: State, d: nat, ok: bool)
    requires Present(s) && Follows(s0, s) && d < |s.dumpers| && DumperLocked(s.dumpers[d])
    ensures Follows(s0, DumperMove(s, d, ok))
  {
    hide HandlersOk, Fresh, Narrow;
  }

  lemma PlainFrame(s: State, d: nat, ok: bool)
    requires d < |s.dumpers| && !DumperLocked(s.dumpers[d])
    ensures
      var s' := Effect(s, d, ok);
      s'.dump == s.dump && s'.ready == s.ready && s'.startedReady == s.startedReady
      && (s'.holder == s.holder || (s.dumpers[d].Install? && s'.holder == -1) || (s.dumpers[d].Queued? && s'.holder == d))
  {
    hide Narrow;
  }

  lemma PlainPc(s: State, d: nat, ok: bool)
    requires d < |s.dumpers| && !DumperLocked(s.dumpers[d])
    ensures Published(NextPc(s, d, ok)) <==> Published(s.dumpers[d])
  {
    hide Narrow;
  }

  lemma PlainFollows(s0: State, s: State, d: nat, ok: bool)
    requires Present(s) && Follows(s0, s) && d < |s.dumpers| && !DumperLocked(s.dumpers[d])
    ensures Follows(s0, DumperMove(s, d, ok))
  {
    PlainFrame(s, d, ok);
    PlainPc(s, d, ok);
    hide HandlersOk, Fresh, TargetOk, Effect, NextPc, DumperLocked;
  }

  lemma AnswerFollows(s0: State, s: State, d: nat, ok: bool, r: Report)
    requires Present(s) && Follows(s0, s) && d < |s.dumpers| && r in Answered(s, d, ok)
    ensures StartedLike(r, s0)
  {
    hide HandlersOk, Fresh, Narrow;
    assert s.dumpers[d].Take? ==> d == s.holder;
  }

  lemma HandlerFollows(s0: State, s: State, h: nat)
    requires Present(s) && Follows(s0, s) && h < |s.handlers|
    ensures Follows(s0, HandlerStep(s, h))
  {
    hide Exclusion, Fresh, Narrow;
  }

  lemma DumperFollows(s0: State, s: State, d: nat, ok: bool)
    requires Present(s) && Follows(s0, s) && ReportsFollow(s0, s) && d < |s.dumpers|
    ensures Follows(s0, DumperStep(s, d, ok)) && ReportsFollow(s0, DumperStep(s, d, ok))
  {
    hide Present, Effect, NextPc, Answered;
    if DumperLocked(s.dumpers[d]) {
      LockedFollows(s0, s, d, ok);
    } else {
      PlainFollows(s0, s, d, ok);
    }
    forall r | r in Answered(s, d, ok) ensures StartedLike(r, s0) {
      AnswerFollows(s0, s, d, ok, r);
    }
  }

  lemma StepFollows(s0: State, s: State, e: Event)
    requires Inv(s) && Follows(s0, s) && ReportsFollow(s0, s)
    ensures Follows(s0, Step(s, e)) && ReportsFollow(s0, Step(s, e))
  {
    hide Present, ReportsOk, DumperStep, NextMove;
    if !s.aborted {
      match e
      case Advance(d, ok) => if d < |s.dumpers| { DumperFollows(s0, s, d, ok); }
      case Handle(h) => if h < |s.handlers| { HandlerFollows(s0, s, h); }
      case Request(d, tid) => RequestFollows(s0, s, d, tid);
      case Deliver(tid) =>
    }
  }

  lemma RequestFollows(s0: State, s: State, d: nat, tid: int)
    requires Follows(s0, s) && !s.aborted
    ensures Follows(s0, StepAlive(s, Request(d, tid)))
  {
    hide DumperStep, NextMove;
  }

  lemma FollowsItself(s: State)
    requires !s.aborted && s.holder == -1 && Inv(s)
    ensures Follows(s, s) && ReportsFollow(s, s)
  {
    ReportsAreEarlier(s);
    hide Present, ReportsOk, ReportsFollow;
  }

  lemma {:induction false} RunFollows(n: nat, events: seq<Event>, more: seq<Event>)
    requires var s0 := Run(Start(n), events); !s0.aborted && s0.holder == -1
    ensures Follows(Run(Start(n), events), Run(Start(n), events + more))
    ensures ReportsFollow(Run(Start(n), events), Run(Start(n), events + more))
  {
    hide Inv, Step, Follows, ReportsFollow, Start;
    if more == [] {
      RunKeepsInv(n, events);
      assert events + more == events;
      FollowsItself(Run(Start(n), events));
    } else {
      var before := events + more[..|more| - 1];
      RunFollows(n, events, more[..|more| - 1]);
      assert (events + more)[..|events + more| - 1] == before;
      RunKeepsInv(n, before);
      StepFollows(Run(Start(n), events), Run(Start(n), before), more[|more| - 1]);
    }
  }

  lemma ReportsAreEarlier(s: State)
    requires ReportsOk(s)
    ensures ReportsFollow(s, s)
  {
    forall i | 0 <= i < |s.reports| ensures StartedLike(s.reports[i], s) {
      assert ReportOk(s, s.reports[i]);
    }
  }

  /** If the flag is clear while nobody is dumping, the next dump is genuine, whatever happens. */
  lemma ClearFlagIsSafe(n: nat, events: seq<Event>, more: seq<Event>)
    requires var s0 := Run(Start(n), events); !s0.aborted && s0.holder == -1 && !s0.ready
    ensures DumpGenuine(Run(Start(n), events + more), Run(Start(n), events).dump + 1)
  {
    var s := Run(Start(n), events + more);
    RunFollows(n, events, more);
    RunKeepsInv(n, events + more);
    forall i | 0 <= i < |s.reports| && s.reports[i].dump == Run(Start(n), events).dump + 1 ensures Genuine(s.reports[i]) {
      assert ReportOk(s, s.reports[i]) && StartedLike(s.reports[i], Run(Start(n), events));
    }
  }

  /** A handler that holds the lock while nobody is dumping soon gives it back. */
  lemma FreeTheLock(n: nat, base: seq<Event>, tid: int, events: seq<Event>, s: State, d: nat)
    returns (longer: seq<Event>, s': State)
    requires Reached(n, base, tid, events, s) && Present(s) && !s.aborted && s.holder == -1
    requires d < |s.dumpers| && s.dumpers[d] == Idle
    ensures Reached(n, base, tid, longer, s') && Quiet(s', d)
    ensures s' == s.(lock := s'.lock, handlers := s'.handlers)
  {
    longer, s' := events, s;
    hide Reached, Narrow, Fresh;
    if s.lock.ByHandler? {
      var h := s.lock.h;
      assert HandlerLocked(s.handlers[h].pc) && HandlerOk(s, s.handlers[h]);
      if s.handlers[h].pc.Checking? {
        longer, s' := Extend(n, base, tid, longer, s', Handle(h));
      }
      longer, s' := Extend(n, base, tid, longer, s', Handle(h));
    }
  }

  lemma StaleDumpFrom(n: nat, base: seq<Event>, tid: int, events: seq<Event>, s: State, d: nat)
    returns (longer: seq<Event>, s': State)
    requires Reached(n, base, tid, events, s) && Quiet(s, d) && s.ready && tid > 0 && Narrow(tid) == tid
    ensures Reached(n, base, tid, longer, s')
    ensures s'.reports == s.reports + [Report(tid, s.dump + 1, Trace(s.stack), true, false)]
  {
    longer, s' := DumpUnanswered(n, base, tid, events, s, d);
    SetAt(s.dumpers, d, LockToTake(tid));
    hide Reached, Narrow;
    longer, s' := EndDump(n, base, tid, longer, s', d);
  }

  lemma StaleIsNotGenuine(s: State, reports: seq<Report>, r: Report)
    requires s.reports == reports + [r] && !Genuine(r)
    ensures !DumpGenuine(s, r.dump)
  {
    assert s.reports[|reports|] == r;
  }

  lemma StackIsEarlier(s: State)
    requires Present(s)
    ensures s.stack.dump <= s.dump
  {
  }

  /** If the flag is set, the next dump of any thread can return the stack that was left behind. */
  lemma StaleDump(n: nat, events: seq<Event>, d: nat, tid: int) returns (longer: seq<Event>, s': State)
    requires var s := Run(Start(n), events); !s.aborted && s.holder == -1 && s.ready && d < |s.dumpers| && s.dumpers[d] == Idle
    requires tid > 0 && Narrow(tid) == tid
    ensures Reached(n, events, tid, longer, s')
    ensures
      var s := Run(Start(n), events);
      var r := Report(tid, s.dump + 1, Trace(s.stack), true, false);
      s'.reports == s.reports + [r] && !Genuine(r)
    ensures !DumpGenuine(s', Run(Start(n), events).dump + 1)
  {
    var s := Run(Start(n), events);
    RunKeepsInv(n, events);
    hide Run, Reached, Narrow, Present, ReportsOk, Quiet;
    StackIsEarlier(s);
    Begin(n, events, tid);
    longer, s' := FreeTheLock(n, events, tid, events, s, d);
    longer, s' := StaleDumpFrom(n, events, tid, longer, s', d);
    hide DumpGenuine;
    StaleIsNotGenuine(s', s.reports, Report(tid, s.dump + 1, Trace(s.stack), true, false));
  }

  lemma ContinuationOf(n: nat, base: seq<Event>, tid: int, events: seq<Event>, s: State) returns (more: seq<Event>)
    requires Reached(n, base, tid, events, s)
    ensures Run(Start(n), base + more) == s
  {
    more := events[|base|..];
    assert events == base + more;
    hide Run;
  }

  lemma SetFlagIsUnsafe(n: nat, events: seq<Event>, d: nat) returns (more: seq<Event>)
    requires var s := Run(Start(n), events); !s.aborted && s.holder == -1 && d < |s.dumpers| && s.dumpers[d] == Idle && s.ready
    ensures !DumpGenuine(Run(Start(n), events + more), Run(Start(n), events).dump + 1)
  {
    hide *;
    NarrowKeeps(1);
    var longer, s' := StaleDump(n, events, d, 1);
    more := ContinuationOf(n, events, 1, longer, s');
  }

  /** While nobody is dumping and somebody could: every continuation's next dump is genuine exactly if the flag is
      clear. */
  lemma NextDumpGenuineIff(n: nat, events: seq<Event>, d: nat)
    requires var s := Run(Start(n), events); !s.aborted && s.holder == -1 && d < |s.dumpers| && s.dumpers[d] == Idle
    ensures (forall more: seq<Event> :: DumpGenuine(Run(Start(n), events + more), Run(Start(n), events).dump + 1))
            <==> !Run(Start(n), events).ready
  {
    hide Run, DumpGenuine;
    if Run(Start(n), events).ready {
      var more := SetFlagIsUnsafe(n, events, d);
      assert !DumpGenuine(Run(Start(n), events + more), Run(Start(n), events).dump + 1);
    } else {
      forall more: seq<Event> ensures DumpGenuine(Run(Start(n), events + more), Run(Start(n), events).dump + 1) {
        ClearFlagIsSafe(n, events, more);
      }
    }
  }

  // ----- the failure exit really leaks

  /** A pending signal reaches its thread, which is the present target... */
  lemma LateSignal(events: seq<Event>, s: State, tid: int) returns (longer: seq<Event>, s': State)
    requires Reached(1, [], tid, events, s) && !s.aborted && s.handlers == [] && tid in s.pending && s.lock == Free && s.target == tid
    ensures Reached(1, [], tid, longer, s')
    ensures s' == s.(pending := s.pending - multiset{tid}, handlers := [Handler(tid, Collecting)], lock := ByHandler(0))
  {
    hide Reached, DumperStep;
    longer, s' := Extend(1, [], tid, events, s, Deliver(tid));
    longer, s' := Extend(1, [], tid, longer, s', Handle(0));
    longer, s' := Extend(1, [], tid, longer, s', Handle(0));
  }

  /** ...and the handler runs to its end. */
  lemma LateAnswer(events: seq<Event>, s: State, tid: int) returns (longer: seq<Event>, s': State)
    requires Reached(1, [], tid, events, s) && !s.aborted && s.handlers == [Handler(tid, Collecting)]
    ensures Reached(1, [], tid, longer, s') && s'.ready && s'.stack == Stack(tid, s.dump) && !s'.aborted
    ensures s'.dumpers == s.dumpers && s'.lock == Free && s'.holder == s.holder && s'.dump == s.dump && s'.target == s.target
  {
    hide Reached, DumperStep;
    longer, s' := Extend(1, [], tid, events, s, Handle(0));
    longer, s' := Extend(1, [], tid, longer, s', Handle(0));
    longer, s' := Extend(1, [], tid, longer, s', Handle(0));
  }

  lemma GiveUpDump(events: seq<Event>, s: State, tid: int) returns (longer: seq<Event>, s': State)
    requires Reached(1, [], tid, events, s) && !s.aborted && s.dumpers == [Kill(tid)] && s.lock == Free
    ensures Reached(1, [], tid, longer, s') && Quiet(s', 0)
    ensures s'.ready == s.ready && s'.stack == s.stack && s'.dump == s.dump
  {
    hide Reached;
    longer, s' := Next(1, [], tid, events, s, 0, false);
    longer, s' := Next(1, [], tid, longer, s', 0, false);
    longer, s' := Next(1, [], tid, longer, s', 0, false);
  }

  lemma FirstDumpTimesOut() returns (events: seq<Event>, s: State)
    ensures Reached(1, [], 7, events, s) && Quiet(s, 0) && !s.ready && s.handlers == [] && 7 in s.pending
    ensures s.dump == 1 && s.dumpers == [Idle]
  {
    s := Start(1);
    NarrowKeeps(7);
    Begin(1, [], 7);
    assert Run(Start(1), []) == s;
    hide Reached, Run, Narrow;
    events, s := DumpUnanswered(1, [], 7, [], s, 0);
    events, s := EndDump(1, [], 7, events, s, 0);
  }

  /** Thread 7 does not answer its first dump in time; its second dump meets the late answer and then cannot
      deliver a signal, which leaves the flag set. */
  lemma FlagLeftSet() returns (events: seq<Event>, s: State)
    ensures Run(Start(1), events) == s && Quiet(s, 0) && s.ready && s.stack == Stack(7, 2) && s.dump == 2
  {
    events, s := FirstDumpTimesOut();
    NarrowKeeps(7);
    hide Run, Step, Narrow;
    events, s := BeginDump(1, [], 7, events, s, 0);
    events, s := LateSignal(events, s, 7);
    events, s := LateAnswer(events, s, 7);
    events, s := GiveUpDump(events, s, 7);
  }

  /** After it, the dump of thread 8 returns a stack of thread 7. */
  lemma StaleTrace() returns (events: seq<Event>, r: Report)
    ensures r in Run(Start(1), events).reports && r.tid == 8 && r.answer == Trace(Stack(7, 2)) && !Genuine(r)
  {
    var s: State;
    events, s := FlagLeftSet();
    hide Run;
    NarrowKeeps(8);
    events, s := StaleDump(1, events, 0, 8);
    r := s.reports[|s.reports| - 1];
  }
}
