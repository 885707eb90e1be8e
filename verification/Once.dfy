/** One-time initialisation (gbase/once.h, gbase/once.cc) on top of SpinLockWait (gbase/spinlock_internal.cc),
as a system of threads that share one control word.

Every step of a thread is one load, store or compare-and-swap of the word, or the start or the end of the
caller's function. A run is any schedule of those steps among any number of threads.
*/
module Once {

  const INIT: int := 0
  const RUNNING: int := 0x65C2937B
  const WAITER: int := 0x05A308D2
  const DONE: int := 0x3F2D8AB0

  /** A row of the table that SpinLockWait walks. */
  datatype Transition = Transition(from: int, to: int, done: bool)

  const TABLE: seq<Transition> := [
    Transition(INIT, RUNNING, true),
    Transition(RUNNING, WAITER, false),
    Transition(DONE, DONE, true)
  ]

  /** The first row whose `from` is v, or |rows|. */
  function FindRow(rows: seq<Transition>, v: int): (i: nat)
    ensures i <= |rows|
    ensures i < |rows| ==> rows[i].from == v
    ensures forall j :: 0 <= j < i ==> rows[j].from != v
  {
    if rows == [] || rows[0].from == v then 0 else 1 + FindRow(rows[1..], v)
  }

  /** Where a caller is. */
  datatype Pc =
    | FastLoad                // GoogleOnceInit: load, return if DONE
    | DebugLoad               // the sanity check of debug builds
    | Cas                     // short cut: INIT -> RUNNING
    | SpinLoad                // SpinLockWait: load
    | SpinAct(seen: int)      // SpinLockWait: look the value up and act on it
    | Call                    // about to call the function
    | InFunc                  // the function is running
    | LoadOld                 // function finished; load the old word
    | StoreDone(seen: int)    // about to store DONE
    | Wake                    // wake the sleepers
    | Returned
    | Fatal                   // the sanity check failed

  datatype State = State(control: int, invocations: nat, finished: bool, threads: seq<Pc>)

  function Start(n: nat): State { State(INIT, 0, false, seq(n, _ => FastLoad)) }

  predicate KnownWord(v: int) { v == INIT || v == RUNNING || v == WAITER || v == DONE }

  /** The return of SpinLockWait in GoogleOnceInternalInit: the caller that saw INIT runs the function. */
  function AfterWait(v: int): Pc { if v == INIT then Call else Returned }

  function SpinStep(s: State, t: nat, v: int): State
    requires t < |s.threads|
  {
    var i := FindRow(TABLE, v);
    if i == |TABLE| then
      s.(threads := s.threads[t := SpinLoad])                      // no matching row: delay and load again
    else if TABLE[i].to == v || s.control == v then
      s.(control := if TABLE[i].to == v then s.control else TABLE[i].to,
         threads := s.threads[t := if TABLE[i].done then AfterWait(v) else SpinLoad])
    else
      s.(threads := s.threads[t := SpinLoad])                      // the compare-and-swap failed
  }

  /** One step of thread t. */
  function Step(s: State, t: nat): State {
    if t >= |s.threads| then s
    else
      match s.threads[t]
      case FastLoad => s.(threads := s.threads[t := if s.control == DONE then Returned else DebugLoad])
      case DebugLoad => s.(threads := s.threads[t := if KnownWord(s.control) then Cas else Fatal])
      case Cas =>
        if s.control == INIT then s.(control := RUNNING, threads := s.threads[t := Call])
        else s.(threads := s.threads[t := SpinLoad])
      case SpinLoad => s.(threads := s.threads[t := SpinAct(s.control)])
      case SpinAct(v) => SpinStep(s, t, v)
      case Call => s.(invocations := s.invocations + 1, threads := s.threads[t := InFunc])
      case InFunc => s.(finished := true, threads := s.threads[t := LoadOld])
      case LoadOld => s.(threads := s.threads[t := StoreDone(s.control)])
      case StoreDone(seen) => s.(control := DONE, threads := s.threads[t := if seen == WAITER then Wake else Returned])
      case Wake => s.(threads := s.threads[t := Returned])
      case Returned => s
      case Fatal => s
  }

  /** The state after a schedule of steps, last step last. */
  function Run(s: State, schedule: seq<nat>): State {
    if schedule == [] then s else Step(Run(s, schedule[..|schedule| - 1]), schedule[|schedule| - 1])
  }

  // ----- the invariant

  /** The caller that won the right to run the function and has not yet published DONE. */
  predicate Winner(pc: Pc) { pc.Call? || pc.InFunc? || pc.LoadOld? || pc.StoreDone? }

  predicate ThreadOk(s: State, pc: Pc) {
    match pc
    case Call => s.invocations == 0 && !s.finished
    case InFunc => s.invocations == 1 && !s.finished
    case LoadOld => s.invocations == 1 && s.finished
    case StoreDone(_) => s.invocations == 1 && s.finished
    case SpinAct(v) => KnownWord(v) && (v == DONE ==> s.control == DONE)
    case Wake => s.control == DONE
    case Returned => s.control == DONE
    case Fatal => false
    case _ => true
  }

  ghost predicate Inv(s: State) {
    && KnownWord(s.control)
    && (s.control == INIT ==> s.invocations == 0 && !s.finished)
    && (s.control == DONE ==> s.invocations == 1 && s.finished)
    && (forall t :: 0 <= t < |s.threads| ==> ThreadOk(s, s.threads[t]))
    && (forall t :: 0 <= t < |s.threads| && Winner(s.threads[t]) ==> s.control == RUNNING || s.control == WAITER)
    && (forall t, u :: 0 <= t < |s.threads| && 0 <= u < |s.threads| && Winner(s.threads[t]) && Winner(s.threads[u]) ==> t == u)
    && (s.control == RUNNING || s.control == WAITER ==> exists t :: 0 <= t < |s.threads| && Winner(s.threads[t]))
  }

  /** What the table does with each word. */
  lemma TableRows()
    ensures FindRow(TABLE, INIT) == 0 && FindRow(TABLE, RUNNING) == 1
    ensures FindRow(TABLE, WAITER) == 3 && FindRow(TABLE, DONE) == 2
  {
    assert TABLE[0].from == INIT && TABLE[1].from == RUNNING && TABLE[2].from == DONE && |TABLE| == 3;
  }

  lemma SpinKeepsInv(s: State, t: nat)
    requires Inv(s) && t < |s.threads| && s.threads[t].SpinAct?
    ensures Inv(Step(s, t))
  {
    var v, s' := s.threads[t].seen, Step(s, t);
    TableRows();
    if s.control == RUNNING || s.control == WAITER {
      var w :| 0 <= w < |s.threads| && Winner(s.threads[w]);
      assert s'.threads[w] == s.threads[w];
    }
    if v == INIT && s.control == INIT {
      assert Winner(s'.threads[t]);
    }
  }

  /** The winner calls the function, finishes it and loads the old word. */
  lemma WinnerStepKeepsInv(s: State, t: nat)
    requires Inv(s) && t < |s.threads| && (s.threads[t].Call? || s.threads[t].InFunc? || s.threads[t].LoadOld?)
    ensures Inv(Step(s, t))
  {
    assert Winner(Step(s, t).threads[t]);
  }

  /** A thread that is not the winner moves and leaves the shared state alone. */
  lemma BystanderStepKeepsInv(s: State, t: nat, pc: Pc)
    requires Inv(s) && t < |s.threads| && !Winner(s.threads[t]) && !Winner(pc) && ThreadOk(s, pc)
    ensures Inv(s.(threads := s.threads[t := pc]))
  {
    var s' := s.(threads := s.threads[t := pc]);
    if s.control == RUNNING || s.control == WAITER {
      var w :| 0 <= w < |s.threads| && Winner(s.threads[w]);
      assert Winner(s'.threads[w]);
    }
  }

  /** The short cut takes the word from INIT to RUNNING, and the winner publishes DONE. */
  lemma ControlStepKeepsInv(s: State, t: nat)
    requires Inv(s) && t < |s.threads| && (s.threads[t].Cas? || s.threads[t].StoreDone?)
    requires Step(s, t).control != s.control
    ensures Inv(Step(s, t))
  {
    assert s.threads[t].Cas? ==> Winner(Step(s, t).threads[t]);
  }

  lemma StepKeepsInv(s: State, t: nat)
    requires Inv(s)
    ensures Inv(Step(s, t))
  {
    if t < |s.threads| {
      if s.threads[t].SpinAct? {
        SpinKeepsInv(s, t);
      } else if s.threads[t].Call? || s.threads[t].InFunc? || s.threads[t].LoadOld? {
        WinnerStepKeepsInv(s, t);
      } else if Step(s, t).control == s.control {
        BystanderStepKeepsInv(s, t, Step(s, t).threads[t]);
      } else {
        ControlStepKeepsInv(s, t);
      }
    }
  }

  lemma {:induction false} RunKeepsInv(n: nat, schedule: seq<nat>)
    ensures Inv(Run(Start(n), schedule))
  {
    if schedule != [] {
      RunKeepsInv(n, schedule[..|schedule| - 1]);
      StepKeepsInv(Run(Start(n), schedule[..|schedule| - 1]), schedule[|schedule| - 1]);
    }
  }

  // ----- the promises

  /** In every run: the function is called at most once, nobody returns before it has finished, and the
      sanity check never fires. */
  lemma CalledOnceBeforeAnyReturn(n: nat, schedule: seq<nat>)
    ensures
      var s := Run(Start(n), schedule);
      && s.invocations <= 1
      && (Returned in s.threads ==> s.invocations == 1 && s.finished)
      && (s.finished ==> s.invocations == 1)
      && Fatal !in s.threads
  {
    var s := Run(Start(n), schedule);
    RunKeepsInv(n, schedule);
    if s.control == RUNNING || s.control == WAITER {
      var w :| 0 <= w < |s.threads| && Winner(s.threads[w]);
      assert ThreadOk(s, s.threads[w]);
    }
  }

  lemma RunAppends(s: State, first: seq<nat>, rest: seq<nat>)
    ensures Run(s, first + rest) == Run(Run(s, first), rest)
  {
    if rest == [] {
      assert first + rest == first;
    } else {
      var r := rest[..|rest| - 1];
      RunAppends(s, first, r);
      assert (first + rest)[..|first + rest| - 1] == first + r;
    }
  }

  /** DONE is final: whatever is scheduled later, the word stays DONE and the function is not called again. */
  lemma {:induction false} DoneIsFinal(n: nat, schedule: seq<nat>, later: seq<nat>)
    requires Run(Start(n), schedule).control == DONE
    ensures Run(Start(n), schedule + later).control == DONE
    ensures Run(Start(n), schedule + later).invocations == 1
  {
    if later == [] {
      assert schedule + later == schedule;
      RunKeepsInv(n, schedule);
    } else {
      var l := later[..|later| - 1];
      DoneIsFinal(n, schedule, l);
      RunKeepsInv(n, schedule + l);
      assert (schedule + later)[..|schedule + later| - 1] == schedule + l;
      TableRows();
      RunKeepsInv(n, schedule + later);
    }
  }

  /** Steps the winner still needs to publish DONE. */
  function Remaining(pc: Pc): nat {
    match pc case Call => 4 case InFunc => 3 case LoadOld => 2 case StoreDone(_) => 1 case _ => 0
  }

  /** The word cannot stay at RUNNING or WAITER because of other threads: some thread can bring it to DONE within
      four of its own steps, with no help from the others. */
  lemma WinnerCanFinish(n: nat, schedule: seq<nat>) returns (t: nat, k: nat)
    requires var c := Run(Start(n), schedule).control; c == RUNNING || c == WAITER
    ensures k <= 4 && Run(Start(n), schedule + seq(k, _ => t)).control == DONE
  {
    var s := Run(Start(n), schedule);
    RunKeepsInv(n, schedule);
    t :| 0 <= t < |s.threads| && Winner(s.threads[t]);
    k := Remaining(s.threads[t]);
    SoloRun(s, t, k);
    RunAppends(Start(n), schedule, seq(k, _ => t));
  }

  lemma {:induction false} SoloRun(s: State, t: nat, k: nat)
    requires t < |s.threads| && Winner(s.threads[t]) && k == Remaining(s.threads[t])
    ensures Run(s, seq(k, _ => t)).control == DONE
    decreases k
  {
    OneStepRun(s, t);
    if k == 1 {
      assert seq(1, _ => t) == [t];
    } else {
      SoloRun(Step(s, t), t, k - 1);
      RunAppends(s, [t], seq(k - 1, _ => t));
      assert seq(k, _ => t) == [t] + seq(k - 1, _ => t);
    }
  }

  lemma OneStepRun(s: State, t: nat)
    ensures Run(s, [t]) == Step(s, t)
  {
    assert Run(s, []) == s;
  }

  // ----- returning

  /** Once the word is DONE, the most steps a caller still needs. */
  function StepsLeft(pc: Pc): nat {
    match pc
    case FastLoad => 1
    case DebugLoad => 4
    case Cas => 3
    case SpinLoad => 2
    case SpinAct(v) => if v == DONE then 1 else 3
    case Wake => 1
    case _ => 0
  }

  function Turns(schedule: seq<nat>, t: nat): nat {
    if schedule == [] then 0
    else Turns(schedule[..|schedule| - 1], t) + if schedule[|schedule| - 1] == t then 1 else 0
  }

  lemma DoneStep(s: State, t: nat, u: nat)
    requires Inv(s) && s.control == DONE && t < |s.threads|
    ensures |Step(s, u).threads| == |s.threads|
    ensures u != t ==> Step(s, u).threads[t] == s.threads[t]
    ensures u == t && StepsLeft(s.threads[t]) > 0 ==> StepsLeft(Step(s, t).threads[t]) < StepsLeft(s.threads[t])
    ensures StepsLeft(s.threads[t]) == 0 ==> s.threads[t] == Returned && Step(s, u).threads[t] == Returned
  {
    assert ThreadOk(s, s.threads[t]) && !Winner(s.threads[t]);
    TableRows();
    hide FindRow, Inv;
  }

  lemma {:induction false} FewerLeft(n: nat, schedule: seq<nat>, later: seq<nat>, t: nat)
    requires Run(Start(n), schedule).control == DONE && t < n
    ensures
      var s := Run(Start(n), schedule + later);
      |s.threads| == n && (s.threads[t] == Returned || StepsLeft(s.threads[t]) + Turns(later, t) <= 4)
  {
    DoneIsFinal(n, schedule, later);
    RunKeepsInv(n, schedule + later);
    if later == [] {
      assert schedule + later == schedule;
      SameThreads(n, schedule);
      DoneStep(Run(Start(n), schedule), t, t);
    } else {
      var l, u := later[..|later| - 1], later[|later| - 1];
      FewerLeft(n, schedule, l, t);
      DoneIsFinal(n, schedule, l);
      RunKeepsInv(n, schedule + l);
      assert (schedule + later)[..|schedule + later| - 1] == schedule + l;
      DoneStep(Run(Start(n), schedule + l), t, u);
      hide Step, Inv, StepsLeft;
    }
  }

  lemma {:induction false} SameThreads(n: nat, schedule: seq<nat>)
    ensures |Run(Start(n), schedule).threads| == n
  {
    if schedule != [] {
      SameThreads(n, schedule[..|schedule| - 1]);
    }
  }

  /** Once the word is DONE, every caller has returned after at most four more steps of its own, whatever the others do
      in between. */
  lemma EverybodyReturns(n: nat, schedule: seq<nat>, later: seq<nat>, t: nat)
    requires Run(Start(n), schedule).control == DONE && t < n && Turns(later, t) >= 4
    ensures |Run(Start(n), schedule + later).threads| == n && Run(Start(n), schedule + later).threads[t] == Returned
  {
    FewerLeft(n, schedule, later, t);
    DoneIsFinal(n, schedule, later);
    RunKeepsInv(n, schedule + later);
    var s := Run(Start(n), schedule + later);
    hide Run, Turns;
    DoneStep(s, t, t);
  }

  // ----- waking

  lemma {:induction false} OthersLeave(s: State, schedule: seq<nat>, t: nat)
    requires t < |s.threads| && Turns(schedule, t) == 0
    ensures |Run(s, schedule).threads| == |s.threads| && Run(s, schedule).threads[t] == s.threads[t]
  {
    if schedule != [] {
      OthersLeave(s, schedule[..|schedule| - 1], t);
    }
  }

  /** Whatever the others do in between: when the caller that ran the function has published DONE, it wakes the waiters
      before it returns exactly if the word it had loaded said that there were some. */
  lemma WakesWhomItSaw(n: nat, schedule: seq<nat>, between: seq<nat>, t: nat)
    requires var s := Run(Start(n), schedule); t < |s.threads| && s.threads[t] == LoadOld
    requires Turns(between, t) == 0
    ensures
      var s := Run(Start(n), schedule);
      var s' := Run(Start(n), schedule + [t] + between + [t]);
      s'.control == DONE && t < |s'.threads| && s'.threads[t] == if s.control == WAITER then Wake else Returned
  {
    var s := Run(Start(n), schedule);
    RunAppends(Start(n), schedule, [t]);
    OneStepRun(s, t);
    RunAppends(Start(n), schedule + [t], between);
    OthersLeave(Step(s, t), between, t);
    RunAppends(Start(n), schedule + [t] + between, [t]);
    OneStepRun(Run(Start(n), schedule + [t] + between), t);
    hide Run, Turns;
  }
}
