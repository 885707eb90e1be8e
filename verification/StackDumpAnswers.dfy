/** Which answer DumpThreadStack of base/debug_util.cc gives: decided by what happens during the dump, whatever the schedule.
A dump that says that the thread did not respond has looked at the flag 101 times and slept 100 times in between.
*/
module StackDumpAnswers {

  import opened StackDump

  /** What happens to the present dump of one dumper, taken from the events. */
  datatype History = History(
    installed: bool,      // the handler was installed
    delivered: bool,      // tgkill accepted the signal
    leftSet: bool,        // result_ready was set when the target was published
    answered: bool,       // a handler has set it since
    clearPolls: nat)      // polls of the flag that found it clear

  function Noted(h: History, s: State, e: Event, d: nat): History {
    if s.aborted || d >= |s.dumpers| then h
    else
      match e
      case Advance(u, ok) => if u == d then NotedStep(h, s, s.dumpers[d], ok) else h
      case Handle(k) => if k < |s.handlers| && s.handlers[k].pc.Flagging? then h.(answered := true) else h
      case _ => h
  }

  function NotedStep(h: History, s: State, pc: Pc, ok: bool): History {
    match pc
    case Install(_) => History(ok, false, false, false, 0)
    case SetTarget(_) => h.(leftSet := s.ready, answered := false)
    case Kill(tid) => h.(delivered := ok && Narrow(tid) > 0)
    case Wait(_, _) => if s.ready then h else h.(clearPolls := h.clearPolls + 1)
    case _ => h
  }

  function Watch(n: nat, events: seq<Event>, d: nat): History {
    if events == [] then History(false, false, false, false, 0)
    else
      var before, e := events[..|events| - 1], events[|events| - 1];
      Noted(Watch(n, before, d), Run(Start(n), before), e, d)
  }

  /** The flag is set exactly if it was left set or a handler has answered. */
  predicate FlagExplained(ready: bool, collected: bool, h: History) {
    (ready <==> h.leftSet || h.answered) && (h.answered ==> collected)
  }

  /** Where a dumper is, in terms of what has happened. */
  predicate Explained(pc: Pc, ready: bool, collected: bool, h: History) {
    match pc
    case LockToSet(_) => h.installed && h.clearPolls == 0
    case SetTarget(_) => h.installed && h.clearPolls == 0
    case Kill(_) => h.installed && h.clearPolls == 0 && FlagExplained(ready, collected, h)
    case LockToGiveUp(_) => h.installed && !h.delivered
    case GiveUp(_) => h.installed && !h.delivered
    case Wait(_, i) => h.installed && h.delivered && FlagExplained(ready, collected, h) && h.clearPolls == i <= 100
    case LockToTake(_) => h.installed && h.delivered && FlagExplained(ready, collected, h) && (ready || h.clearPolls == 101)
    case Take(_) => h.installed && h.delivered && FlagExplained(ready, collected, h) && (ready || h.clearPolls == 101)
    case _ => true
  }

  lemma OwnStep(s: State, d: nat, ok: bool, h: History)
    requires !s.aborted && d < |s.dumpers| && Explained(s.dumpers[d], s.ready, s.collected, h)
    ensures Explained(NextPc(s, d, ok), Effect(s, d, ok).ready, Effect(s, d, ok).collected, NotedStep(h, s, s.dumpers[d], ok))
  {
    hide Explained, NextPc, Effect, NotedStep;
    if DumperLocked(s.dumpers[d]) {
      LockedStep(s, d, ok, h);
    } else {
      FreeStep(s, d, ok, h);
    }
  }

  lemma LockedStep(s: State, d: nat, ok: bool, h: History)
    requires !s.aborted && d < |s.dumpers| && DumperLocked(s.dumpers[d]) && Explained(s.dumpers[d], s.ready, s.collected, h)
    ensures Explained(NextPc(s, d, ok), Effect(s, d, ok).ready, Effect(s, d, ok).collected, NotedStep(h, s, s.dumpers[d], ok))
  {
    hide Narrow;
  }

  lemma FreeStep(s: State, d: nat, ok: bool, h: History)
    requires !s.aborted && d < |s.dumpers| && !DumperLocked(s.dumpers[d]) && Explained(s.dumpers[d], s.ready, s.collected, h)
    ensures Explained(NextPc(s, d, ok), Effect(s, d, ok).ready, Effect(s, d, ok).collected, NotedStep(h, s, s.dumpers[d], ok))
  {
    assert Effect(s, d, ok).ready == s.ready && Effect(s, d, ok).collected == s.collected by {
      hide Narrow;
    }
    hide Narrow, Effect, FlagExplained;
  }

  /** Somebody else's steps do not touch the flag while this dump is at work. */
  lemma OtherDumper(s: State, u: nat, ok: bool, d: nat)
    requires Present(s) && u < |s.dumpers| && d < |s.dumpers| && u != d && Inside(s.dumpers[d])
    ensures Effect(s, u, ok).ready == s.ready && Effect(s, u, ok).collected == s.collected
  {
    assert d == s.holder;
    assert !Inside(s.dumpers[u]);
    hide Narrow, Fresh, TargetOk, HandlersOk;
  }

  lemma ExplainedOutside(pc: Pc, ready: bool, collected: bool, h: History)
    requires !Inside(pc)
    ensures Explained(pc, ready, collected, h)
  {
  }

  lemma DumperExplained(s: State, u: nat, ok: bool, d: nat, h: History)
    requires Present(s) && !s.aborted && u < |s.dumpers| && d < |s.dumpers| && Explained(s.dumpers[d], s.ready, s.collected, h)
    ensures var s' := DumperStep(s, u, ok);
      |s'.dumpers| == |s.dumpers| && Explained(s'.dumpers[d], s'.ready, s'.collected, Noted(h, s, Advance(u, ok), d))
  {
    hide NextPc, Effect, Answered, Present, Explained;
    if u == d {
      OwnStep(s, d, ok, h);
    } else if Inside(s.dumpers[d]) {
      OtherDumper(s, u, ok, d);
    } else {
      ExplainedOutside(s.dumpers[d], DumperStep(s, u, ok).ready, DumperStep(s, u, ok).collected, h);
    }
  }

  lemma HandlerExplained(s: State, k: nat, d: nat, h: History)
    requires !s.aborted && k < |s.handlers| && d < |s.dumpers| && Explained(s.dumpers[d], s.ready, s.collected, h)
    ensures var s' := HandlerStep(s, k);
      |s'.dumpers| == |s.dumpers| && Explained(s'.dumpers[d], s'.ready, s'.collected, Noted(h, s, Handle(k), d))
  {
  }

  lemma StepExplained(s: State, e: Event, d: nat, h: History)
    requires Inv(s) && d < |s.dumpers| && Explained(s.dumpers[d], s.ready, s.collected, h)
    ensures |Step(s, e).dumpers| == |s.dumpers| && Explained(Step(s, e).dumpers[d], Step(s, e).ready, Step(s, e).collected, Noted(h, s, e, d))
  {
    hide Present, ReportsOk, DumperStep, HandlerStep;
    if !s.aborted {
      match e
      case Advance(u, ok) => if u < |s.dumpers| { hide Explained, Noted; DumperExplained(s, u, ok, d, h); }
      case Handle(k) => if k < |s.handlers| { hide Explained, Noted; HandlerExplained(s, k, d, h); }
      case _ =>
    }
  }

  lemma {:induction false} RunExplained(n: nat, events: seq<Event>, d: nat)
    requires d < n
    ensures var s := Run(Start(n), events); |s.dumpers| == n && Explained(s.dumpers[d], s.ready, s.collected, Watch(n, events, d))
  {
    if events != [] {
      var before, e := events[..|events| - 1], events[|events| - 1];
      RunExplained(n, before, d);
      RunKeepsInv(n, before);
      hide Step, Inv, Explained, Noted;
      StepExplained(Run(Start(n), before), e, d, Watch(n, before, d));
    }
  }

  /** After these events the next step of dumper d returns r. */
  ghost predicate Returns(n: nat, events: seq<Event>, d: nat, ok: bool, r: Report) {
    var s := Run(Start(n), events);
    d < n && !s.aborted && Step(s, Advance(d, ok)).reports == s.reports + [r]
  }

  /** The answer, as the caller's conditions decide it. */
  predicate Fits(answer: Answer, h: History) {
    if !h.installed then answer == Unavailable
    else if !h.delivered then answer == Undeliverable
    else if h.leftSet || h.answered then answer.Trace?
    else answer == NoResponse && h.clearPolls == 101
  }

  lemma AnswerFits(s: State, d: nat, ok: bool, h: History, r: Report)
    requires d < |s.dumpers| && Explained(s.dumpers[d], s.ready, s.collected, h) && Answered(s, d, ok) == [r]
    ensures Fits(r.answer, NotedStep(h, s, s.dumpers[d], ok))
    ensures r.answer.Trace? && NotedStep(h, s, s.dumpers[d], ok).answered ==> r.collected
  {
    hide Narrow;
  }

  /** In every run: a dump answers Unavailable exactly if the handler could not be installed, Undeliverable exactly if it
      could and tgkill failed, with a stack exactly if the signal was sent and the flag was left set or a handler set it
      for this dump before its end, and NoResponse otherwise, after 101 polls that found the flag clear. */
  lemma AnswersDecided(n: nat, events: seq<Event>, d: nat, ok: bool, r: Report)
    requires Returns(n, events, d, ok, r)
    ensures Fits(r.answer, Watch(n, events + [Advance(d, ok)], d))
    ensures r.answer.Trace? && Watch(n, events + [Advance(d, ok)], d).answered ==> r.collected
  {
    var s, longer := Run(Start(n), events), events + [Advance(d, ok)];
    assert longer[..|longer| - 1] == events;
    RunExplained(n, events, d);
    hide Run, Answered, NextPc, Effect, Explained, Fits, NotedStep;
    assert Answered(s, d, ok) == [r] by {
      assert (s.reports + Answered(s, d, ok))[|s.reports|..] == Answered(s, d, ok);
      assert (s.reports + [r])[|s.reports|..] == [r];
    }
    AnswerFits(s, d, ok, Watch(n, events, d), r);
  }

  /** A thread whose handler answers a dump at any moment before its end gets the stack it collected for that dump
      returned. */
  lemma RespondersAreHeard(n: nat, events: seq<Event>, d: nat, ok: bool, r: Report)
    requires Returns(n, events, d, ok, r)
    requires var h := Watch(n, events + [Advance(d, ok)], d); h.installed && h.delivered && h.answered
    ensures r.answer == Trace(Stack(r.tid, r.dump))
  {
    var longer := events + [Advance(d, ok)];
    assert longer[..|longer| - 1] == events;
    AnswersDecided(n, events, d, ok, r);
    assert Run(Start(n), longer) == Step(Run(Start(n), events), Advance(d, ok));
    hide Run, Step, Watch;
    assert (Run(Start(n), events).reports + [r])[|Run(Start(n), events).reports|] == r;
    TraceGenuineIff(n, longer, r);
  }

  // ----- every dump is answered, once

  /** The thread id that dumper d was last asked for. */
  function LastAsked(n: nat, events: seq<Event>, d: nat): int {
    if events == [] then 0
    else
      var before, e := events[..|events| - 1], events[|events| - 1];
      var s := Run(Start(n), before);
      if e.Request? && e.d == d && !s.aborted && d < |s.dumpers| && s.dumpers[d].Idle? then e.tid else LastAsked(n, before, d)
  }

  predicate WorksFor(pc: Pc, tid: int) { !pc.Idle? ==> pc.tid == tid }

  lemma StepWorksFor(s: State, e: Event, d: nat, tid: int)
    requires d < |s.dumpers| && WorksFor(s.dumpers[d], tid)
    ensures |Step(s, e).dumpers| == |s.dumpers|
    ensures WorksFor(Step(s, e).dumpers[d], if e.Request? && e.d == d && !s.aborted && s.dumpers[d].Idle? then e.tid else tid)
  {
    if e.Advance? && e.d == d {
      TidStays(s, d, e.ok);
    }
    hide Narrow, NextMove, NextPc, Effect;
  }

  lemma {:induction false} RunWorksFor(n: nat, events: seq<Event>, d: nat)
    requires d < n
    ensures var s := Run(Start(n), events); |s.dumpers| == n && WorksFor(s.dumpers[d], LastAsked(n, events, d))
  {
    if events != [] {
      var before, e := events[..|events| - 1], events[|events| - 1];
      RunWorksFor(n, before, d);
      hide Step, WorksFor;
      StepWorksFor(Run(Start(n), before), e, d, LastAsked(n, before, d));
    }
  }

  lemma LeavingAnswers(s: State, d: nat, ok: bool)
    requires d < |s.dumpers|
    ensures if NextPc(s, d, ok).Idle? && !s.dumpers[d].Idle? then
              |Answered(s, d, ok)| == 1 && Answered(s, d, ok)[0].tid == s.dumpers[d].tid && Answered(s, d, ok)[0].dump == s.dump
            else Answered(s, d, ok) == []
  {
    hide Narrow;
  }

  /** In every run: a call of DumpThreadStack gives one answer, for the thread it was asked about, at the step with which
      it returns, and no other step gives one. */
  lemma EachDumpAnswersOnce(n: nat, events: seq<Event>, d: nat, ok: bool)
    requires d < n
    ensures
      var s, s' := Run(Start(n), events), Step(Run(Start(n), events), Advance(d, ok));
      |s.dumpers| == n == |s'.dumpers|
      && if s'.dumpers[d].Idle? && !s.dumpers[d].Idle? then
           exists r :: Returns(n, events, d, ok, r) && r.tid == LastAsked(n, events, d) && r.dump == s.dump
         else s'.reports == s.reports
  {
    RunWorksFor(n, events, d);
    var s := Run(Start(n), events);
    StepWorksFor(s, Advance(d, ok), d, LastAsked(n, events, d));
    if !s.aborted {
      LeavingAnswers(s, d, ok);
      hide Run, Answered, NextPc, Effect, LastAsked;
      if NextPc(s, d, ok).Idle? && !s.dumpers[d].Idle? {
        assert Answered(s, d, ok) == [Answered(s, d, ok)[0]];
        assert Returns(n, events, d, ok, Answered(s, d, ok)[0]);
      }
    }
  }
}
