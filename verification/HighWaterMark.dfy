/** The lock-free counter of base/high_water_mark.h, with the compare-and-set loops of base/sync/atomic.h.

Threads share the current value and the maximum. Every step is one atomic load, store, addition or compare-and-swap;
a run is any schedule of the steps of any number of threads. `held` is every value the counter ever had.
*/
module HighWaterMark {

  datatype Op = TryIncrementBy(delta: int, limit: int) | IncrementBy(amount: int) | SetValue(v: int)

  datatype Pc =
    | Idle
    | TryLoad(delta: int, limit: int)
    | TryCas(delta: int, limit: int, seen: int)
    | Add(amount: int)
    | Put(v: int)
    | MaxLoad(value: int)                  // StoreMax: first load
    | MaxCas(value: int, seen: int)        // StoreMax: compare-and-swap with the larger of the two

  datatype State = State(current: int, max: int, threads: seq<Pc>, held: set<int>)

  datatype Event = Request(t: nat, op: Op) | Advance(t: nat)

  function Start(n: nat, initial: int): State { State(initial, initial, seq(n, _ => Idle), {initial}) }

  function Begin(op: Op): Pc {
    match op
    case TryIncrementBy(delta, limit) => TryLoad(delta, limit)
    case IncrementBy(amount) => Add(amount)
    case SetValue(v) => Put(v)
  }

  function Larger(x: int, y: int): int { if x < y then y else x }

  /** The current value changes; the thread goes on to raise the maximum. */
  function Change(s: State, t: nat, v: int): State
    requires t < |s.threads|
  {
    s.(current := v, held := s.held + {v}, threads := s.threads[t := MaxLoad(v)])
  }

  function Goto(s: State, t: nat, pc: Pc): State
    requires t < |s.threads|
  {
    s.(threads := s.threads[t := pc])
  }

  function StepThread(s: State, t: nat): State
    requires t < |s.threads|
  {
    match s.threads[t]
    case Idle => s
    case TryLoad(delta, limit) =>
      if s.current + delta > limit then Goto(s, t, Idle) else Goto(s, t, TryCas(delta, limit, s.current))
    case TryCas(delta, limit, seen) =>
      if s.current == seen then Change(s, t, seen + delta) else Goto(s, t, TryLoad(delta, limit))
    case Add(amount) => Change(s, t, s.current + amount)
    case Put(v) => Change(s, t, v)
    case MaxLoad(value) => Goto(s, t, MaxCas(value, s.max))
    case MaxCas(value, seen) =>
      if s.max == seen then Goto(s, t, Idle).(max := Larger(seen, value))
      else Goto(s, t, MaxCas(value, s.max))
  }

  function Step(s: State, e: Event): State {
    match e
    case Request(t, op) => if t < |s.threads| && s.threads[t].Idle? then Goto(s, t, Begin(op)) else s
    case Advance(t) => if t < |s.threads| then StepThread(s, t) else s
  }

  function Run(s: State, events: seq<Event>): State {
    if events == [] then s else Step(Run(s, events[..|events| - 1]), events[|events| - 1])
  }

  /** A thread that still owes the maximum the value v. */
  predicate Owes(pc: Pc, v: int) { (pc.MaxLoad? || pc.MaxCas?) && pc.value == v }

  ghost predicate Covered(s: State, v: int) {
    v <= s.max || exists t :: 0 <= t < |s.threads| && Owes(s.threads[t], v)
  }

  ghost predicate Inv(s: State) {
    && s.current in s.held && s.max in s.held
    && (forall v :: v in s.held ==> Covered(s, v))
    && (forall t :: 0 <= t < |s.threads| && (s.threads[t].MaxLoad? || s.threads[t].MaxCas?) ==> s.threads[t].value in s.held)
    && (forall t :: 0 <= t < |s.threads| && s.threads[t].MaxCas? ==> s.threads[t].seen <= s.max)
  }

  /** A debt stays covered when another thread moves, and when the maximum does not fall. */
  lemma StillCovered(s: State, s': State, t: nat, v: int)
    requires Covered(s, v) && t < |s.threads| == |s'.threads| && s'.max >= s.max
    requires forall u :: 0 <= u < |s.threads| && u != t ==> s'.threads[u] == s.threads[u]
    requires Owes(s.threads[t], v) ==> Owes(s'.threads[t], v) || v <= s'.max
    ensures Covered(s', v)
  {
    if v > s'.max {
      var u :| 0 <= u < |s.threads| && Owes(s.threads[u], v);
      assert Owes(s'.threads[u], v);
    }
  }

  lemma ThreadKeepsInv(s: State, t: nat)
    requires Inv(s) && t < |s.threads|
    ensures Inv(StepThread(s, t)) && StepThread(s, t).max >= s.max
  {
    var s' := StepThread(s, t);
    assert s'.max >= s.max;
    forall v | v in s'.held ensures Covered(s', v) {
      if v in s.held {
        StillCovered(s, s', t, v);
      } else {
        assert Owes(s'.threads[t], v);
      }
    }
  }

  lemma StepKeepsInv(s: State, e: Event)
    requires Inv(s)
    ensures Inv(Step(s, e)) && Step(s, e).max >= s.max
  {
    match e
    case Advance(t) => if t < |s.threads| { ThreadKeepsInv(s, t); }
    case Request(t, op) =>
      if t < |s.threads| && s.threads[t].Idle? {
        forall v | v in s.held ensures Covered(Step(s, e), v) {
          StillCovered(s, Step(s, e), t, v);
        }
      }
  }

  lemma {:induction false} RunKeepsInv(n: nat, initial: int, events: seq<Event>)
    ensures Inv(Run(Start(n, initial), events))
  {
    if events != [] {
      var before := events[..|events| - 1];
      RunKeepsInv(n, initial, before);
      StepKeepsInv(Run(Start(n, initial), before), events[|events| - 1]);
    }
  }

  /** Whenever nobody is between changing the counter and raising the maximum (in particular when no operation
      is in flight), the maximum is the largest value the counter ever held. */
  lemma MaxIsHighWaterMark(n: nat, initial: int, events: seq<Event>)
    requires forall pc :: pc in Run(Start(n, initial), events).threads ==> !pc.MaxLoad? && !pc.MaxCas?
    ensures
      var s := Run(Start(n, initial), events);
      s.max in s.held && forall v :: v in s.held ==> v <= s.max
  {
    RunKeepsInv(n, initial, events);
    var s := Run(Start(n, initial), events);
    forall v | v in s.held ensures v <= s.max {
      assert Covered(s, v);
    }
  }

  /** In any state of any run the maximum is a value the counter really held, and never falls. */
  lemma MaxIsAttainedAndMonotone(n: nat, initial: int, events: seq<Event>, e: Event)
    ensures
      var s := Run(Start(n, initial), events);
      s.max in s.held && Step(s, e).max >= s.max
  {
    RunKeepsInv(n, initial, events);
    StepKeepsInv(Run(Start(n, initial), events), e);
  }

  /** Between the change of the counter and the end of StoreMax the counter can lie above the maximum. */
  lemma MaxLagsBehind()
    ensures
      var s := Run(Start(1, 0), [Request(0, IncrementBy(5)), Advance(0)]);
      s.current == 5 && s.max == 0
  {
    var e0, e1 := Request(0, IncrementBy(5)), Advance(0);
    assert [e0, e1][..1] == [e0] && [e0][..0] == [];
    assert Run(Start(1, 0), [e0]) == Step(Start(1, 0), e0);
  }

  // ----- what an operation does to the counter

  /** The operation that thread t was last asked for. */
  function LastOp(n: nat, initial: int, events: seq<Event>, t: nat): Op {
    if events == [] then SetValue(initial)
    else
      var before, e := events[..|events| - 1], events[|events| - 1];
      var s := Run(Start(n, initial), before);
      if e.Request? && e.t == t && t < |s.threads| && s.threads[t].Idle? then e.op else LastOp(n, initial, before, t)
  }

  /** Where a thread is fits its operation; a compare-and-swap is only tried for a sum within the limit. */
  predicate Serves(pc: Pc, op: Op) {
    match pc
    case TryLoad(delta, limit) => op == TryIncrementBy(delta, limit)
    case TryCas(delta, limit, seen) => op == TryIncrementBy(delta, limit) && seen + delta <= limit
    case Add(amount) => op == IncrementBy(amount)
    case Put(v) => op == SetValue(v)
    case _ => true
  }

  lemma {:induction false} WorksOnItsOp(n: nat, initial: int, events: seq<Event>, t: nat)
    requires t < n
    ensures
      var s := Run(Start(n, initial), events);
      |s.threads| == n && Serves(s.threads[t], LastOp(n, initial, events, t))
  {
    if events != [] {
      WorksOnItsOp(n, initial, events[..|events| - 1], t);
    }
  }

  /** The next step of thread t takes its operation from before the change of the counter to after it. */
  predicate TakesEffect(s: State, t: nat) {
    t < |s.threads| && !s.threads[t].MaxLoad? && !s.threads[t].MaxCas? && |StepThread(s, t).threads| == |s.threads|
    && StepThread(s, t).threads[t].MaxLoad?
  }

  function NewValue(op: Op, current: int): int {
    match op
    case TryIncrementBy(delta, limit) => current + delta
    case IncrementBy(amount) => current + amount
    case SetValue(v) => v
  }

  /** In every run: the counter changes only where an operation takes effect, and then as it was asked. TryIncrementBy
      takes effect only if the sum is within its limit at that very moment, and is refused exactly if it is not. */
  lemma ChangesAsAsked(n: nat, initial: int, events: seq<Event>, t: nat)
    requires t < n
    ensures
      var s, op := Run(Start(n, initial), events), LastOp(n, initial, events, t);
      && |s.threads| == n == |StepThread(s, t).threads|
      && StepThread(s, t).current == (if TakesEffect(s, t) then NewValue(op, s.current) else s.current)
      && (TakesEffect(s, t) && op.TryIncrementBy? ==> s.current + op.delta <= op.limit)
      && (s.threads[t].TryLoad? ==>
            op.TryIncrementBy? && (StepThread(s, t).threads[t].Idle? <==> s.current + op.delta > op.limit))
      && (s.threads[t].TryCas? ==> !StepThread(s, t).threads[t].Idle? && (TakesEffect(s, t) <==> s.current == s.threads[t].seen))
  {
    WorksOnItsOp(n, initial, events, t);
    hide Run, LastOp;
  }
}
