/** What the operations of base/mem_tracker.cc do with what they are asked, under any number of threads: the bytes settled
at a tracker are those of the requests of the run, an operation that nobody disturbs adds its bytes along the path of the
tracker it was asked at, and an attempt is refused only at a limit, after one collection there.
*/
module TrackerRequests {

  import opened TrackerRuns

  // ----- requests and answers

  /** Thread t is free and asks for something with e. */
  predicate Asks(s: State, e: Event, t: nat) {
    (e.Consume? || e.Release? || e.TryConsume?) && e.t == t && CanRequest(s, t, e.x)
  }

  /** The last request of thread t in a run. */
  function LastRequest(n: nat, rootLimit: int, events: seq<Event>, t: nat): Event {
    if events == [] then Consume(t, 0, 0)
    else
      var before, e := events[..|events| - 1], events[|events| - 1];
      if Asks(Run(Start(n, rootLimit), before), e, t) then e else LastRequest(n, rootLimit, before, t)
  }

  /** The next step of thread t answers yes to a TryConsume. */
  predicate Grants(s: State, t: nat, more: bool)
    requires Shape(s)
  {
    t < |s.threads| && s.threads[t].Trying? && t < |AdvanceThread(s, t, more).threads| && AdvanceThread(s, t, more).threads[t].Idle?
  }

  /** The bytes that e asks for at x, or that it grants at x to the request its thread has made. */
  function Entry(s: State, e: Event, request: Event, x: nat): int
    requires Shape(s)
  {
    match e
    case Consume(t, y, b) => Amount(CanRequest(s, t, y) && y == x, b)
    case Release(t, y, b) => Amount(CanRequest(s, t, y) && y == x, -b)
    case Advance(t, more) => if request.TryConsume? && Grants(s, t, more) then Amount(request.x == x, request.b) else 0
    case _ => 0
  }

  function Thread(e: Event): nat { if e.Create? then 0 else e.t }

  /** All bytes of accepted Consume calls at x, less those of Release calls, plus those of TryConsume calls that were
      granted. */
  function Requested(n: nat, rootLimit: int, events: seq<Event>, x: nat): int {
    if events == [] then 0
    else
      var before, e := events[..|events| - 1], events[|events| - 1];
      Requested(n, rootLimit, before, x)
      + Entry(Run(Start(n, rootLimit), before), e, LastRequest(n, rootLimit, before, Thread(e)), x)
  }

  /** A thread in the middle of an operation works on this request. */
  predicate Serves(pc: Pc, request: Event, t: nat) {
    match pc
    case Idle => true
    case Adding(x, b, _) => request == Consume(t, x, b) || request == Release(t, x, -b)
    case _ => request == TryConsume(t, pc.x, pc.b)
  }

  lemma AdvanceServes(s: State, t: nat, more: bool, request: Event)
    requires Shape(s) && t < |s.threads| && Serves(s.threads[t], request, t)
    ensures t < |AdvanceThread(s, t, more).threads| && Serves(AdvanceThread(s, t, more).threads[t], request, t)
  {
    assert ValidPc(s.parent, s.threads[t]);
    hide Path;
  }

  lemma StepServes(s: State, e: Event, t: nat, request: Event)
    requires Shape(s) && t < |s.threads| && Serves(s.threads[t], request, t)
    ensures t < |Step(s, e).threads| && Serves(Step(s, e).threads[t], if Asks(s, e, t) then e else request, t)
  {
    if e.Advance? && e.t < |s.threads| {
      AdvanceFrame(s, e.t, e.more);
      if e.t == t {
        AdvanceServes(s, t, e.more, request);
      }
      hide AdvanceThread;
    } else {
      hide Path;
    }
  }

  lemma {:induction false} ThreadsStay(n: nat, rootLimit: int, events: seq<Event>)
    ensures |Run(Start(n, rootLimit), events).threads| == n
  {
    if events != [] {
      var before, e := events[..|events| - 1], events[|events| - 1];
      ThreadsStay(n, rootLimit, before);
      var s := Run(Start(n, rootLimit), before);
      if e.Advance? && e.t < |s.threads| {
        AdvanceFrame(s, e.t, e.more);
      }
      hide AdvanceThread, Path;
    }
  }

  /** In every run each thread works on its last request: the same tracker and the same amount. */
  lemma {:induction false} WorksOnItsRequest(n: nat, rootLimit: int, events: seq<Event>, t: nat)
    requires t < n
    ensures
      var s := Run(Start(n, rootLimit), events);
      |s.threads| == n && Serves(s.threads[t], LastRequest(n, rootLimit, events, t), t)
  {
    ThreadsStay(n, rootLimit, events);
    if events != [] {
      var before, e := events[..|events| - 1], events[|events| - 1];
      WorksOnItsRequest(n, rootLimit, before, t);
      StepServes(Run(Start(n, rootLimit), before), e, t, LastRequest(n, rootLimit, before, t));
      hide Step, Serves, Asks;
    }
  }

  // ----- settled bytes

  /** The bytes of the Consume and Release calls at x that are still being added. */
  function AddingAt(threads: seq<Pc>, x: nat): int {
    if threads == [] then 0
    else
      var last := threads[|threads| - 1];
      AddingAt(threads[..|threads| - 1], x) + (if last.Adding? then Amount(last.x == x, last.b) else 0)
  }

  function AddingOf(pc: Pc, x: nat): int { if pc.Adding? then Amount(pc.x == x, pc.b) else 0 }

  lemma {:induction false} AddingUpdate(threads: seq<Pc>, t: nat, pc: Pc, x: nat)
    requires t < |threads|
    ensures AddingAt(threads[t := pc], x) == AddingAt(threads, x) - AddingOf(threads[t], x) + AddingOf(pc, x)
  {
    var last := |threads| - 1;
    if t < last {
      AddingUpdate(threads[..last], t, pc, x);
      assert threads[t := pc][..last] == threads[..last][t := pc];
    } else {
      assert threads[t := pc][..last] == threads[..last];
    }
  }

  lemma {:induction false} NobodyAdds(threads: seq<Pc>, x: nat)
    requires forall t :: 0 <= t < |threads| ==> !threads[t].Adding?
    ensures AddingAt(threads, x) == 0
  {
    if threads != [] {
      NobodyAdds(threads[..|threads| - 1], x);
    }
  }

  function SettledAt(s: State, x: nat): int { if x < |s.settled| then s.settled[x] else 0 }

  /** What a step settles at x is what it grants, or what its thread has finished to add. */
  ghost predicate SettlesEntry(s: State, t: nat, more: bool, request: Event, x: nat)
    requires Shape(s) && t < |s.threads|
  {
    var s' := AdvanceThread(s, t, more);
    t < |s'.threads|
    && SettledAt(s', x) + AddingOf(s'.threads[t], x)
       == SettledAt(s, x) + AddingOf(s.threads[t], x) + Entry(s, Advance(t, more), request, x)
  }

  lemma AddingEntry(s: State, t: nat, more: bool, request: Event, x: nat)
    requires Shape(s) && t < |s.threads| && s.threads[t].Adding? && Serves(s.threads[t], request, t)
    ensures SettlesEntry(s, t, more, request, x)
  {
    assert ValidPc(s.parent, s.threads[t]);
    hide Path, TryStep;
  }

  lemma TryingEntry(s: State, t: nat, more: bool, request: Event, x: nat)
    requires Shape(s) && t < |s.threads| && s.threads[t].Trying? && Serves(s.threads[t], request, t)
    ensures SettlesEntry(s, t, more, request, x)
  {
    assert ValidPc(s.parent, s.threads[t]);
    hide Path;
  }

  lemma OtherEntry(s: State, t: nat, more: bool, request: Event, x: nat)
    requires Shape(s) && t < |s.threads| && !s.threads[t].Adding? && !s.threads[t].Trying?
    ensures SettlesEntry(s, t, more, request, x)
  {
    assert ValidPc(s.parent, s.threads[t]);
    hide Path, TryStep;
  }

  lemma AdvanceEntry(s: State, t: nat, more: bool, request: Event, x: nat)
    requires Shape(s) && t < |s.threads| && Serves(s.threads[t], request, t)
    ensures SettlesEntry(s, t, more, request, x)
  {
    hide SettlesEntry, Shape, Serves;
    match s.threads[t]
    case Adding(_, _, _) => AddingEntry(s, t, more, request, x);
    case Trying(_, _, _, _) => TryingEntry(s, t, more, request, x);
    case _ => OtherEntry(s, t, more, request, x);
  }

  lemma StepEntry(s: State, e: Event, request: Event, x: nat)
    requires Shape(s) && (e.Advance? && e.t < |s.threads| ==> Serves(s.threads[e.t], request, e.t))
    ensures SettledAt(Step(s, e), x) + AddingAt(Step(s, e).threads, x)
            == SettledAt(s, x) + AddingAt(s.threads, x) + Entry(s, e, request, x)
  {
    match e
    case Advance(t, more) =>
      if t < |s.threads| {
        AdvanceEntry(s, t, more, request, x);
        AdvanceFrame(s, t, more);
        AddingUpdate(s.threads, t, AdvanceThread(s, t, more).threads[t], x);
        hide AdvanceThread, AddingAt, Entry;
      }
    case Consume(t, y, b) => if CanRequest(s, t, y) { AddingUpdate(s.threads, t, Adding(y, b, 0), x); }
    case Release(t, y, b) => if CanRequest(s, t, y) { AddingUpdate(s.threads, t, Adding(y, -b, 0), x); }
    case TryConsume(t, y, b) =>
      if CanRequest(s, t, y) { AddingUpdate(s.threads, t, Trying(y, b, |Path(s.parent, y)|, false), x); }
    case _ =>
  }

  /** In every run, whatever the interleaving: the bytes settled at x, with those that Consume and Release are adding for
      x at the moment, are what was asked at x and granted. */
  lemma {:induction false} SettledIsRequested(n: nat, rootLimit: int, events: seq<Event>, x: nat)
    ensures
      var s := Run(Start(n, rootLimit), events);
      SettledAt(s, x) + AddingAt(s.threads, x) == Requested(n, rootLimit, events, x)
  {
    if events == [] {
      NobodyAdds(Start(n, rootLimit).threads, x);
    } else {
      var before, e := events[..|events| - 1], events[|events| - 1];
      SettledIsRequested(n, rootLimit, before, x);
      var s := Run(Start(n, rootLimit), before);
      ThreadsStay(n, rootLimit, before);
      if e.Advance? && e.t < n {
        WorksOnItsRequest(n, rootLimit, before, e.t);
      }
      StepEntry(s, e, LastRequest(n, rootLimit, before, Thread(e)), x);
      hide Step, Serves, Entry, LastRequest, AddingAt;
    }
  }

  /** When no operation is in flight, the consumption of a tracker is what was asked and granted at it and at its
      descendants. */
  lemma QuiescentIsRequested(n: nat, rootLimit: int, events: seq<Event>, c: nat)
    requires
      var s := Run(Start(n, rootLimit), events);
      c < |s.current| && forall t :: 0 <= t < |s.threads| ==> s.threads[t].Idle?
    ensures
      var s := Run(Start(n, rootLimit), events);
      s.current[c] == Under(s.parent, seq(|s.parent|, x requires 0 <= x => Requested(n, rootLimit, events, x)), |s.parent|, c)
  {
    var s := Run(Start(n, rootLimit), events);
    QuiescentBooks(n, rootLimit, events, c);
    hide Run, Requested, Under;
    forall x: nat | x < |s.parent| ensures s.settled[x] == Requested(n, rootLimit, events, x) {
      SettledIsRequested(n, rootLimit, events, x);
      NobodyAdds(s.threads, x);
    }
    assert s.settled == seq(|s.parent|, x requires 0 <= x => Requested(n, rootLimit, events, x));
  }

  // ----- one operation alone

  /** m steps of thread t, in which nobody else moves and no callback has anything to give. */
  function Alone(s: State, t: nat, m: nat): (r: State)
    requires Shape(s)
    ensures Shape(r)
    decreases m
  {
    if m == 0 then s
    else
      StepKeepsShape(s, Advance(t, false));
      Alone(Step(s, Advance(t, false)), t, m - 1)
  }

  /** d bytes more at the trackers of the path that are at a position from lo to hi, and dx bytes settled at x. */
  ghost predicate Gained(s: State, s': State, x: nat, lo: nat, hi: nat, d: int, dx: int)
    requires Shape(s) && x < |s.parent|
  {
    && s'.parent == s.parent && s'.limit == s.limit && |s'.current| == |s.current| && |s'.threads| == |s.threads|
    && s'.settled == s.settled[x := s.settled[x] + dx]
    && forall c: nat :: c < |s.current| ==> s'.current[c] == s.current[c] + Amount(Covers(Path(s.parent, x), lo, hi, c), d)
  }

  /** A piece of the path and the rest of it. */
  lemma GainedOnTop(s: State, s1: State, s': State, x: nat, k: nat, hi: nat, d: int, dx: int)
    requires Shape(s) && Shape(s1) && x < |s.parent| && k < hi <= |Path(s.parent, x)|
    requires Gained(s, s1, x, k, k + 1, d, 0) && x < |s1.parent| && Gained(s1, s', x, k + 1, hi, d, dx)
    ensures Gained(s, s', x, k, hi, d, dx)
  {
    var path := Path(s.parent, x);
    hide Path, Covers, Shape;
    forall c: nat | c < |s.current| ensures s'.current[c] == s.current[c] + Amount(Covers(path, k, hi, c), d) {
      CoversUp(path, k, k, c);
      CoversDown(path, k + 1, hi, c);
      NoneBetween(path, k, c);
    }
  }

  lemma NoneBetween(path: seq<nat>, k: nat, c: nat)
    ensures !Covers(path, k, k, c)
  {
  }

  /** One position of the path. */
  lemma MoveGains(s: State, t: nat, pc: Pc, x: nat, k: nat, d: int)
    requires Shape(s) && t < |s.threads| && x < |s.parent| && k < |Path(s.parent, x)|
    ensures Path(s.parent, x)[k] < |s.current| && Gained(s, Move(s, t, pc, Path(s.parent, x)[k], d), x, k, k + 1, d, 0)
  {
    var path := Path(s.parent, x);
    hide Path;
    var s' := Move(s, t, pc, path[k], d);
    forall c: nat | c < |s.current| ensures s'.current[c] == s.current[c] + Amount(Covers(path, k, k + 1, c), d) {
      CoversUp(path, k, k, c);
      NoneBetween(path, k, c);
    }
  }

  lemma FinishGains(s: State, t: nat, x: nat, k: nat, d: int, dx: int)
    requires Shape(s) && t < |s.threads| && x < |s.parent|
    ensures Gained(s, Finish(s, t, x, dx), x, k, k, d, dx)
  {
    hide Path;
  }

  /** The first of m + 1 steps. */
  lemma AloneFirst(s: State, t: nat, m: nat)
    requires Shape(s)
    ensures Shape(Step(s, Advance(t, false))) && Alone(s, t, m + 1) == Alone(Step(s, Advance(t, false)), t, m)
  {
    StepKeepsShape(s, Advance(t, false));
    hide Step, Shape;
  }

  lemma AddStep(s: State, t: nat, x: nat, v: int, k: nat)
    requires Shape(s) && t < |s.threads| && s.threads[t] == Adding(x, v, k) && x < |s.parent| && k <= |Path(s.parent, x)|
    ensures
      Step(s, Advance(t, false)) ==
      if k < |Path(s.parent, x)| then Move(s, t, Adding(x, v, k + 1), Path(s.parent, x)[k], v) else Finish(s, t, x, v)
  {
    hide Path;
  }

  lemma AddedAlone(s: State, t: nat, x: nat, v: int, k: nat)
    requires Shape(s) && t < |s.threads| && s.threads[t] == Adding(x, v, k) && x < |s.parent| && k == |Path(s.parent, x)|
    ensures Gained(s, Alone(s, t, 1), x, k, k, v, v) && Alone(s, t, 1).threads == s.threads[t := Idle]
  {
    AloneFirst(s, t, 0);
    AddStep(s, t, x, v, k);
    FinishGains(s, t, x, k, v, v);
    hide Path, Gained;
  }

  /** Thread t adds v bytes from position k of the path on, and returns: m + 1 steps. */
  lemma {:induction false} AddAlone(s: State, t: nat, x: nat, v: int, k: nat, m: nat)
    requires Shape(s) && t < |s.threads| && s.threads[t] == Adding(x, v, k) && x < |s.parent| && k + m == |Path(s.parent, x)|
    ensures Gained(s, Alone(s, t, m + 1), x, k, k + m, v, v) && Alone(s, t, m + 1).threads == s.threads[t := Idle]
    decreases m
  {
    hide Path, Step, Alone, Covers, Shape, Gained;
    if m == 0 {
      AddedAlone(s, t, x, v, k);
    } else {
      var s1 := Step(s, Advance(t, false));
      AddStep(s, t, x, v, k);
      AloneFirst(s, t, m);
      MoveGains(s, t, Adding(x, v, k + 1), x, k, v);
      AddAlone(s1, t, x, v, k + 1, m - 1);
      GainedOnTop(s, s1, Alone(s1, t, m), x, k, k + m, v, v);
      assert s1.threads[t := Idle] == s.threads[t := Idle];
    }
  }

  lemma {:induction false} AloneAdd(s: State, t: nat, m: nat, m': nat)
    requires Shape(s)
    ensures Alone(s, t, m + m') == Alone(Alone(s, t, m), t, m')
    decreases m
  {
    hide Step, Shape;
    if m > 0 {
      AloneFirst(s, t, m - 1);
      AloneFirst(s, t, m - 1 + m');
      AloneAdd(Step(s, Advance(t, false)), t, m - 1, m');
    }
  }

  /** A position of the path, and then those below it. */
  lemma GainedBelow(s: State, s1: State, s': State, x: nat, lo: nat, k: nat, d: int, dx: int)
    requires Shape(s) && Shape(s1) && x < |s.parent| && lo <= k < |Path(s.parent, x)|
    requires Gained(s, s1, x, k, k + 1, d, 0) && x < |s1.parent| && Gained(s1, s', x, lo, k, d, dx)
    ensures Gained(s, s', x, lo, k + 1, d, dx)
  {
    var path := Path(s.parent, x);
    hide Path, Covers, Shape;
    forall c: nat | c < |s.current| ensures s'.current[c] == s.current[c] + Amount(Covers(path, lo, k + 1, c), d) {
      CoversUp(path, lo, k, c);
      CoversUp(path, k, k, c);
      NoneBetween(path, k, c);
    }
  }

  /** A position is taken and then given back with those above it. */
  lemma GainedAndLost(s: State, s1: State, s': State, x: nat, k: nat, d: int)
    requires Shape(s) && Shape(s1) && x < |s.parent| && k < |Path(s.parent, x)|
    requires Gained(s, s1, x, k, k + 1, d, 0) && x < |s1.parent| && Gained(s1, s', x, k, |Path(s.parent, x)|, -d, 0)
    ensures Gained(s, s', x, k + 1, |Path(s.parent, x)|, -d, 0)
  {
    var path := Path(s.parent, x);
    hide Path, Covers, Shape;
    forall c: nat | c < |s.current|
      ensures s'.current[c] == s.current[c] + Amount(Covers(path, k + 1, |path|, c), -d)
    {
      CoversDown(path, k + 1, |path|, c);
      CoversUp(path, k, k, c);
      NoneBetween(path, k, c);
    }
  }

  /** Where the bytes fit, thread t takes them: one step without a limit, two with. */
  lemma TakeAlone(s: State, t: nat, x: nat, b: int, k: nat) returns (m: nat)
    requires Shape(s) && t < |s.threads| && s.threads[t] == Trying(x, b, k, false)
    requires x < |s.parent| && 0 < k <= |Path(s.parent, x)| && Fits(s, Path(s.parent, x), k - 1, b)
    ensures Alone(s, t, m) == Move(s, t, Trying(x, b, k - 1, false), Path(s.parent, x)[k - 1], b)
  {
    var c := Path(s.parent, x)[k - 1];
    var s1 := Step(s, Advance(t, false));
    AloneFirst(s, t, 0);
    if s.limit[c] < 0 {
      m := 1;
    } else {
      AloneFirst(s, t, 1);
      AloneFirst(s1, t, 0);
      m := 2;
      hide Path, Alone;
      assert s1 == Goto(s, t, TryCas(x, b, k, false, s.current[c]));
      assert s1.threads[t := Trying(x, b, k - 1, false)] == s.threads[t := Trying(x, b, k - 1, false)];
    }
  }

  /** Where they do not fit it gives up, after a collection that finds nothing or without one. */
  lemma GiveUpAlone(s: State, t: nat, x: nat, b: int, k: nat) returns (m: nat)
    requires Shape(s) && t < |s.threads| && s.threads[t] == Trying(x, b, k, false)
    requires x < |s.parent| && 0 < k <= |Path(s.parent, x)| && !Fits(s, Path(s.parent, x), k - 1, b)
    ensures Alone(s, t, m) == Goto(s, t, Undoing(x, b, k, |Path(s.parent, x)|))
  {
    var path := Path(s.parent, x);
    var c := path[k - 1];
    var s1 := Step(s, Advance(t, false));
    AloneFirst(s, t, 0);
    if s.limit[c] - b < 0 {
      m := 1;
    } else {
      AloneFirst(s, t, 1);
      AloneFirst(s1, t, 0);
      m := 2;
      hide Path, Alone;
      assert s1 == Goto(s, t, Collecting(x, b, k));
      assert s1.threads[t := Undoing(x, b, k, |path|)] == s.threads[t := Undoing(x, b, k, |path|)];
    }
  }

  lemma UndoStep(s: State, t: nat, x: nat, b: int, k: nat, j: nat)
    requires Shape(s) && t < |s.threads| && s.threads[t] == Undoing(x, b, k, j) && x < |s.parent| && k <= j <= |Path(s.parent, x)|
    ensures
      Step(s, Advance(t, false)) ==
      if j > k then Move(s, t, Undoing(x, b, k, j - 1), Path(s.parent, x)[j - 1], -b) else Goto(s, t, Idle)
  {
    hide Path;
  }

  lemma UndoneAlone(s: State, t: nat, x: nat, b: int, k: nat)
    requires Shape(s) && t < |s.threads| && s.threads[t] == Undoing(x, b, k, k) && x < |s.parent| && k <= |Path(s.parent, x)|
    ensures Gained(s, Alone(s, t, 1), x, k, k, -b, 0) && Alone(s, t, 1).threads == s.threads[t := Idle]
  {
    AloneFirst(s, t, 0);
    UndoStep(s, t, x, b, k, k);
    GotoGains(s, t, Idle, x, k, -b);
    hide Path, Gained;
  }

  /** Thread t takes back what it holds at the positions from k to j, and returns: m = j - k + 1 steps. */
  lemma {:induction false} UndoAlone(s: State, t: nat, x: nat, b: int, k: nat, j: nat, m: nat)
    requires Shape(s) && t < |s.threads| && s.threads[t] == Undoing(x, b, k, j) && x < |s.parent|
    requires k <= j <= |Path(s.parent, x)| && m == j - k + 1
    ensures Gained(s, Alone(s, t, m), x, k, j, -b, 0) && Alone(s, t, m).threads == s.threads[t := Idle]
    decreases m
  {
    hide Path, Step, Alone, Covers, Shape, Gained;
    if k == j {
      UndoneAlone(s, t, x, b, k);
    } else {
      var s1, i := Step(s, Advance(t, false)), j - 1;
      UndoStep(s, t, x, b, k, j);
      AloneFirst(s, t, m - 1);
      MoveGains(s, t, Undoing(x, b, k, i), x, i, -b);
      UndoAlone(s1, t, x, b, k, i, m - 1);
      GainedBelow(s, s1, Alone(s1, t, m - 1), x, k, i, -b, 0);
      assert s1.threads[t := Idle] == s.threads[t := Idle];
    }
  }

  lemma GotoGains(s: State, t: nat, pc: Pc, x: nat, k: nat, d: int)
    requires Shape(s) && t < |s.threads| && x < |s.parent|
    ensures Gained(s, Goto(s, t, pc), x, k, k, d, 0)
  {
    hide Path;
  }

  /** The bytes fit at all positions below k. */
  ghost predicate FitsBelow(s: State, x: nat, k: nat, b: int)
    requires Shape(s) && x < |s.parent| && k <= |Path(s.parent, x)|
  {
    forall i :: 0 <= i < k ==> Fits(s, Path(s.parent, x), i, b)
  }

  lemma FitsBelowMoves(s: State, s1: State, x: nat, k: nat, b: int)
    requires Shape(s) && Shape(s1) && x < |s.parent| && 0 < k <= |Path(s.parent, x)|
    requires Fits(s, Path(s.parent, x), k - 1, b)
    requires Gained(s, s1, x, k - 1, k, b, 0)
    ensures FitsBelow(s1, x, k - 1, b) <==> FitsBelow(s, x, k, b)
  {
    var path := Path(s.parent, x);
    hide Path;
    forall i | 0 <= i < k - 1 ensures Fits(s1, path, i, b) <==> Fits(s, path, i, b) {
      assert !Covers(path, k - 1, k, path[i]);
    }
  }

  lemma GainedAfterGoto(s: State, t: nat, pc: Pc, s': State, x: nat, lo: nat, hi: nat, d: int, dx: int)
    requires Shape(s) && t < |s.threads| && Shape(Goto(s, t, pc)) && x < |s.parent|
    requires Gained(Goto(s, t, pc), s', x, lo, hi, d, dx)
    ensures Gained(s, s', x, lo, hi, d, dx)
  {
    hide Path, Shape, Covers;
  }

  lemma GotoIs(s: State, t: nat, pc: Pc)
    requires t < |s.threads|
    ensures
      var s' := Goto(s, t, pc);
      && s'.parent == s.parent && |s'.threads| == |s.threads| && s'.threads[t] == pc
      && s'.threads[t := Idle] == s.threads[t := Idle]
  {
  }

  /** Thread t has returned, and the b bytes it held at position k and above are gone. */
  ghost predicate Refunded(s: State, s': State, t: nat, x: nat, b: int, k: nat)
    requires Shape(s) && t < |s.threads| && x < |s.parent|
  {
    s'.threads == s.threads[t := Idle] && Gained(s, s', x, k, |Path(s.parent, x)|, -b, 0)
  }

  lemma AloneThen(s: State, t: nat, m1: nat, s1: State, m2: nat, s2: State) returns (m: nat)
    requires Shape(s) && Shape(s1) && s1 == Alone(s, t, m1) && s2 == Alone(s1, t, m2)
    ensures Alone(s, t, m) == s2
  {
    AloneAdd(s, t, m1, m2);
    m := m1 + m2;
  }

  lemma GiveBack(s: State, s1: State, t: nat, x: nat, b: int, k: nat, j: nat, m: nat)
    requires Shape(s) && t < |s.threads| && x < |s.parent| && k <= j == |Path(s.parent, x)| && m == j - k + 1
    requires Shape(s1) && s1 == Goto(s, t, Undoing(x, b, k, j))
    ensures Refunded(s, Alone(s1, t, m), t, x, b, k)
  {
    GotoIs(s, t, Undoing(x, b, k, j));
    hide *;
    UndoAlone(s1, t, x, b, k, j, m);
    var s' := Alone(s1, t, m);
    GainedAfterGoto(s, t, Undoing(x, b, k, j), s', x, k, j, -b, 0);
    RefundedIs(s, s', t, x, b, k, j);
  }

  lemma RefundedIs(s: State, s': State, t: nat, x: nat, b: int, k: nat, j: nat)
    requires Shape(s) && t < |s.threads| && x < |s.parent| && j == |Path(s.parent, x)|
    ensures Refunded(s, s', t, x, b, k) <==> s'.threads == s.threads[t := Idle] && Gained(s, s', x, k, j, -b, 0)
  {
  }

  /** Thread t is refused at position k - 1 and gives back what it holds above. */
  lemma RefusedAlone(s: State, t: nat, x: nat, b: int, k: nat) returns (m: nat)
    requires Shape(s) && t < |s.threads| && s.threads[t] == Trying(x, b, k, false)
    requires x < |s.parent| && 0 < k <= |Path(s.parent, x)| && !Fits(s, Path(s.parent, x), k - 1, b)
    ensures Refunded(s, Alone(s, t, m), t, x, b, k)
  {
    var j := |Path(s.parent, x)|;
    var m2 := j - k + 1;
    hide *;
    var m1 := GiveUpAlone(s, t, x, b, k);
    var s1 := Alone(s, t, m1);
    GiveBack(s, s1, t, x, b, k, j, m2);
    m := AloneThen(s, t, m1, s1, m2, Alone(s1, t, m2));
  }

  /** What the attempt leaves behind when it comes down to position k: all bytes below, or none above. */
  ghost predicate Outcome(s: State, s': State, t: nat, x: nat, b: int, k: nat)
    requires Shape(s) && t < |s.threads| && x < |s.parent| && k <= |Path(s.parent, x)|
  {
    && s'.threads == s.threads[t := Idle]
    && if FitsBelow(s, x, k, b) then Gained(s, s', x, 0, k, b, b) else Gained(s, s', x, k, |Path(s.parent, x)|, -b, 0)
  }

  lemma OutcomeOneUp(s: State, s1: State, s': State, t: nat, x: nat, b: int, k: nat)
    requires Shape(s) && Shape(s1) && t < |s.threads| && x < |s.parent| && 0 < k <= |Path(s.parent, x)|
    requires Gained(s, s1, x, k - 1, k, b, 0) && Fits(s, Path(s.parent, x), k - 1, b)
    requires s1.threads[t := Idle] == s.threads[t := Idle] && Outcome(s1, s', t, x, b, k - 1)
    ensures Outcome(s, s', t, x, b, k)
  {
    FitsBelowMoves(s, s1, x, k, b);
    hide Path, Covers, FitsBelow, Fits, Shape;
    if FitsBelow(s, x, k, b) {
      GainedBelow(s, s1, s', x, 0, k - 1, b, b);
    } else {
      GainedAndLost(s, s1, s', x, k - 1, b);
    }
  }

  lemma DoneAlone(s: State, t: nat, x: nat, b: int)
    requires Shape(s) && t < |s.threads| && s.threads[t] == Trying(x, b, 0, false) && x < |s.parent|
    ensures Outcome(s, Alone(s, t, 1), t, x, b, 0)
  {
    AloneFirst(s, t, 0);
    FinishGains(s, t, x, 0, b, b);
    hide Path;
  }

  lemma TakeThenGo(s: State, t: nat, x: nat, b: int, k: nat, m1: nat, m2: nat)
    requires Shape(s) && t < |s.threads| && x < |s.parent| && 0 < k <= |Path(s.parent, x)|
    requires Fits(s, Path(s.parent, x), k - 1, b)
    requires Alone(s, t, m1) == Move(s, t, Trying(x, b, k - 1, false), Path(s.parent, x)[k - 1], b)
    requires Outcome(Alone(s, t, m1), Alone(Alone(s, t, m1), t, m2), t, x, b, k - 1)
    ensures Outcome(s, Alone(s, t, m1 + m2), t, x, b, k)
  {
    var s1 := Alone(s, t, m1);
    MoveGains(s, t, Trying(x, b, k - 1, false), x, k - 1, b);
    AloneAdd(s, t, m1, m2);
    hide Path, Alone, FitsBelow, Fits, Shape, Gained, Outcome;
    assert s1.threads[t := Idle] == s.threads[t := Idle];
    OutcomeOneUp(s, s1, Alone(s, t, m1 + m2), t, x, b, k);
  }

  /** Thread t goes down from position k: the bytes that it gets at all positions stay, or everything is given back. */
  lemma {:induction false} TryAlone(s: State, t: nat, x: nat, b: int, k: nat) returns (m: nat)
    requires Shape(s) && t < |s.threads| && s.threads[t] == Trying(x, b, k, false)
    requires x < |s.parent| && k <= |Path(s.parent, x)|
    ensures Outcome(s, Alone(s, t, m), t, x, b, k)
    decreases k
  {
    hide Path, Alone, Fits, Gained;
    if k == 0 {
      DoneAlone(s, t, x, b);
      m := 1;
    } else if Fits(s, Path(s.parent, x), k - 1, b) {
      hide Outcome, Refunded;
      var m1 := TakeAlone(s, t, x, b, k);
      var m2 := TryAlone(Alone(s, t, m1), t, x, b, k - 1);
      TakeThenGo(s, t, x, b, k, m1, m2);
      m := m1 + m2;
    } else {
      m := RefusedAlone(s, t, x, b, k);
    }
  }

  /** s' is s but for d bytes more at x and its ancestors, settled at x. */
  ghost predicate Holds(s: State, s': State, x: nat, d: int)
    requires Shape(s) && x < |s.parent|
  {
    && s'.parent == s.parent && s'.limit == s.limit && s'.threads == s.threads && |s'.current| == |s.current|
    && s'.settled == s.settled[x := s.settled[x] + d]
    && forall c: nat :: c < |s.current| ==> s'.current[c] == s.current[c] + Amount(c in Path(s.parent, x), d)
  }

  lemma HoldsWhole(s: State, s': State, x: nat, d: int)
    requires Shape(s) && x < |s.parent| && s'.threads == s.threads && Gained(s, s', x, 0, |Path(s.parent, x)|, d, d)
    ensures Holds(s, s', x, d)
  {
    var path := Path(s.parent, x);
    hide Path, Shape;
    forall c: nat | c < |s.current| ensures s'.current[c] == s.current[c] + Amount(c in path, d) {
      CoversAll(path, c);
    }
  }

  lemma HoldsNothing(s: State, s': State, x: nat, d: int)
    requires Shape(s) && x < |s.parent| && s'.threads == s.threads
    requires Gained(s, s', x, |Path(s.parent, x)|, |Path(s.parent, x)|, d, 0)
    ensures Holds(s, s', x, 0)
  {
    var path := Path(s.parent, x);
    hide Path, Shape;
    forall c: nat | c < |s.current| ensures s'.current[c] == s.current[c] + Amount(c in path, 0) {
      NoneBetween(path, |path|, c);
    }
  }

  /** Consume(b) at x, alone: after one step more than x has ancestors and itself, b bytes more at x and each of its
      ancestors and nowhere else. */
  lemma ConsumeAlone(s: State, t: nat, x: nat, b: int)
    requires Shape(s) && CanRequest(s, t, x)
    ensures Shape(Step(s, Consume(t, x, b)))
    ensures Holds(s, Alone(Step(s, Consume(t, x, b)), t, |Path(s.parent, x)| + 1), x, b)
  {
    StepKeepsShape(s, Consume(t, x, b));
    hide Path;
    RequestAlone(s, t, x, b);
  }

  /** Release(b) takes them away again. */
  lemma ReleaseAlone(s: State, t: nat, x: nat, b: int)
    requires Shape(s) && CanRequest(s, t, x)
    ensures Shape(Step(s, Release(t, x, b)))
    ensures Holds(s, Alone(Step(s, Release(t, x, b)), t, |Path(s.parent, x)| + 1), x, -b)
  {
    StepKeepsShape(s, Release(t, x, b));
    hide Path;
    RequestAlone(s, t, x, -b);
  }

  lemma {:induction false} IdleAlone(s: State, t: nat, m: nat)
    requires Shape(s) && t < |s.threads| && s.threads[t].Idle?
    ensures Alone(s, t, m) == s
    decreases m
  {
    if m > 0 {
      IdleAlone(s, t, m - 1);
    }
  }

  lemma RequestAlone(s: State, t: nat, x: nat, v: int)
    requires Shape(s) && CanRequest(s, t, x)
    ensures Shape(if v != 0 then Goto(s, t, Adding(x, v, 0)) else s)
    ensures Holds(s, Alone(if v != 0 then Goto(s, t, Adding(x, v, 0)) else s, t, |Path(s.parent, x)| + 1), x, v)
  {
    assert ValidPc(s.parent, Adding(x, v, 0));
    if v != 0 {
      AddRequestAlone(s, t, x, v);
    } else {
      IdleAlone(s, t, |Path(s.parent, x)| + 1);
    }
    hide Path, Alone, Covers;
  }

  lemma AddRequestAlone(s: State, t: nat, x: nat, v: int)
    requires Shape(s) && CanRequest(s, t, x) && Shape(Goto(s, t, Adding(x, v, 0)))
    ensures Holds(s, Alone(Goto(s, t, Adding(x, v, 0)), t, |Path(s.parent, x)| + 1), x, v)
  {
    var s1, m := Goto(s, t, Adding(x, v, 0)), |Path(s.parent, x)|;
    hide Path, Alone, Covers, Shape, Gained, Holds;
    AddAlone(s1, t, x, v, 0, m);
    var s' := Alone(s1, t, m + 1);
    assert s'.threads == s.threads;
    GainedAfterGoto(s, t, Adding(x, v, 0), s', x, 0, m, v, v);
    HoldsWhole(s, s', x, v);
  }

  /** TryConsume(b) at x, alone: the bytes at x and all its ancestors exactly if they fit at each of them, and no trace
      otherwise. */
  lemma TryConsumeAlone(s: State, t: nat, x: nat, b: int) returns (m: nat)
    requires Shape(s) && CanRequest(s, t, x)
    ensures Shape(Step(s, TryConsume(t, x, b)))
    ensures Holds(s, Alone(Step(s, TryConsume(t, x, b)), t, m), x,
                  if b > 0 && FitsBelow(s, x, |Path(s.parent, x)|, b) then b else 0)
  {
    StepKeepsShape(s, TryConsume(t, x, b));
    var s1 := Step(s, TryConsume(t, x, b));
    var path := Path(s.parent, x);
    hide Path, Alone, Covers;
    if b > 0 {
      m := TryAlone(s1, t, x, b, |path|);
      OutcomeHolds(s, t, x, b, Alone(s1, t, m));
    } else {
      m := 0;
    }
  }

  lemma OutcomeHolds(s: State, t: nat, x: nat, b: int, s': State)
    requires Shape(s) && CanRequest(s, t, x)
    requires
      var s1 := Goto(s, t, Trying(x, b, |Path(s.parent, x)|, false));
      Shape(s1) && Outcome(s1, s', t, x, b, |Path(s.parent, x)|)
    ensures Holds(s, s', x, if FitsBelow(s, x, |Path(s.parent, x)|, b) then b else 0)
  {
    var path := Path(s.parent, x);
    var pc := Trying(x, b, |path|, false);
    var s1 := Goto(s, t, pc);
    assert FitsBelow(s1, x, |path|, b) <==> FitsBelow(s, x, |path|, b) by {
      hide Path;
      assert forall i :: 0 <= i < |path| ==> (Fits(s1, path, i, b) <==> Fits(s, path, i, b));
    }
    assert s'.threads == s.threads;
    hide Path, Covers, FitsBelow, Shape, Gained, Holds;
    if FitsBelow(s, x, |path|, b) {
      GainedAfterGoto(s, t, pc, s', x, 0, |path|, b, b);
      HoldsWhole(s, s', x, b);
    } else {
      GainedAfterGoto(s, t, pc, s', x, |path|, |path|, -b, 0);
      HoldsNothing(s, s', x, -b);
    }
  }

  // ----- refusals

  /** The limit of the tracker where the attempt stands is not below the amount it asks for. */
  predicate CollectingHelps(parent: seq<int>, limit: seq<int>, x: nat, b: int, k: nat)
    requires Tree(parent) && |limit| == |parent| && x < |parent| && 0 < k <= |Path(parent, x)|
  {
    limit[Path(parent, x)[k - 1]] - b >= 0
  }

  predicate SamePlace(pc: Pc, pc': Pc) {
    !pc.Idle? && !pc.Adding? && !pc'.Idle? && !pc'.Adding? && pc.k == pc'.k
  }

  /** How often thread t has started to collect at the tracker where its attempt stands. */
  function Collections(n: nat, rootLimit: int, events: seq<Event>, t: nat): nat {
    if events == [] then 0
    else
      var before, e := events[..|events| - 1], events[|events| - 1];
      var s, s' := Run(Start(n, rootLimit), before), Run(Start(n, rootLimit), events);
      Counted(s, s', t, Collections(n, rootLimit, before, t))
  }

  function Counted(s: State, s': State, t: nat, m: nat): nat {
    if t >= |s.threads| || t >= |s'.threads| || !SamePlace(s.threads[t], s'.threads[t]) then 0
    else if !s.threads[t].Collecting? && s'.threads[t].Collecting? then m + 1
    else m
  }

  /** An attempt has collected at its tracker m times: once if it tries again or gave up where collecting could help. */
  predicate CollectedOnce(parent: seq<int>, limit: seq<int>, pc: Pc, m: nat)
    requires Tree(parent) && |limit| == |parent| && ValidPc(parent, pc)
  {
    match pc
    case Trying(x, b, k, retried) => (retried ==> k > 0 && CollectingHelps(parent, limit, x, b, k)) && m == if retried then 1 else 0
    case TryCas(x, b, k, retried, _) => (retried ==> CollectingHelps(parent, limit, x, b, k)) && m == if retried then 1 else 0
    case Collecting(x, b, k) => CollectingHelps(parent, limit, x, b, k) && m == 1
    case Undoing(x, b, k, _) => k > 0 && m == if CollectingHelps(parent, limit, x, b, k) then 1 else 0
    case _ => true
  }

  lemma AdvanceCollects(s: State, t: nat, more: bool, m: nat)
    requires Shape(s) && t < |s.threads| && CollectedOnce(s.parent, s.limit, s.threads[t], m)
    ensures t < |AdvanceThread(s, t, more).threads| && ValidPc(s.parent, AdvanceThread(s, t, more).threads[t])
    ensures CollectedOnce(s.parent, s.limit, AdvanceThread(s, t, more).threads[t], Counted(s, AdvanceThread(s, t, more), t, m))
  {
    AdvanceFrame(s, t, more);
    assert ValidPc(s.parent, s.threads[t]);
    hide Path;
  }

  lemma OthersCollect(s: State, e: Event, t: nat, m: nat)
    requires Shape(s) && t < |s.threads| && CollectedOnce(s.parent, s.limit, s.threads[t], m) && !(e.Advance? && e.t == t)
    ensures Shape(Step(s, e)) && t < |Step(s, e).threads|
    ensures CollectedOnce(Step(s, e).parent, Step(s, e).limit, Step(s, e).threads[t], Counted(s, Step(s, e), t, m))
  {
    StepKeepsShape(s, e);
    var pc := s.threads[t];
    assert ValidPc(s.parent, pc);
    match e
    case Create(p, limit) =>
      if p < |s.parent| && !pc.Idle? {
        PathOfLonger(s.parent, p, pc.x);
      }
      hide Path;
    case Advance(u, more) =>
      if u < |s.threads| {
        AdvanceFrame(s, u, more);
      }
      hide AdvanceThread, Path;
    case _ => hide Path;
  }

  /** In every run: an attempt collects at most once at each tracker; it has done so when it tries again there, and when
      it has given up there, exactly if the limit is not below the amount it asks for. */
  lemma {:induction false} OneCollection(n: nat, rootLimit: int, events: seq<Event>, t: nat)
    requires t < n
    ensures
      var s := Run(Start(n, rootLimit), events);
      |s.threads| == n && ValidPc(s.parent, s.threads[t])
      && CollectedOnce(s.parent, s.limit, s.threads[t], Collections(n, rootLimit, events, t))
  {
    ThreadsStay(n, rootLimit, events);
    if events != [] {
      var before, e := events[..|events| - 1], events[|events| - 1];
      OneCollection(n, rootLimit, before, t);
      var s := Run(Start(n, rootLimit), before);
      hide Step, CollectedOnce, Counted;
      if e.Advance? && e.t == t {
        StepOfThread(s, t, e.more, Collections(n, rootLimit, before, t));
      } else {
        OthersCollect(s, e, t, Collections(n, rootLimit, before, t));
      }
    }
  }

  lemma StepOfThread(s: State, t: nat, more: bool, m: nat)
    requires Shape(s) && t < |s.threads| && CollectedOnce(s.parent, s.limit, s.threads[t], m)
    ensures var s' := Step(s, Advance(t, more));
      Shape(s') && t < |s'.threads| && CollectedOnce(s'.parent, s'.limit, s'.threads[t], Counted(s, s', t, m))
  {
    StepKeepsShape(s, Advance(t, more));
    AdvanceFrame(s, t, more);
    AdvanceCollects(s, t, more, m);
    hide AdvanceThread, CollectedOnce, Counted, Path;
  }

  /** In every run: an attempt gives up only at a tracker with a limit that the bytes would exceed, and after the one
      collection there if that could make room. */
  lemma RefusedAtLimit(n: nat, rootLimit: int, events: seq<Event>, t: nat, more: bool)
    requires
      var s := Run(Start(n, rootLimit), events);
      t < n && t < |s.threads| && !s.threads[t].Undoing? && t < |AdvanceThread(s, t, more).threads|
      && AdvanceThread(s, t, more).threads[t].Undoing?
    ensures
      var s := Run(Start(n, rootLimit), events);
      && (s.threads[t].Trying? || s.threads[t].Collecting?) && ValidPc(s.parent, s.threads[t]) && s.threads[t].k > 0
      && var pc := s.threads[t];
         var c := Path(s.parent, pc.x)[pc.k - 1];
         && s.limit[c] >= 0 && s.current[c] + pc.b > s.limit[c]
         && Collections(n, rootLimit, events, t) == if s.limit[c] - pc.b >= 0 then 1 else 0
  {
    var s := Run(Start(n, rootLimit), events);
    OneCollection(n, rootLimit, events, t);
    assert ValidPc(s.parent, s.threads[t]);
    hide Run, Path, Collections;
  }

  /** A collection ends in another try exactly if the bytes fit by then, and in the rollback exactly if they do not and
      no callback is left; until then the attempt stays. */
  lemma CollectionGoal(s: State, t: nat, more: bool)
    requires Shape(s) && t < |s.threads| && s.threads[t].Collecting? && ValidPc(s.parent, s.threads[t])
    requires s.limit[Path(s.parent, s.threads[t].x)[s.threads[t].k - 1]] >= 0
    ensures
      var pc, s' := s.threads[t], AdvanceThread(s, t, more);
      var fits := Fits(s, Path(s.parent, pc.x), pc.k - 1, pc.b);
      && s'.current == s.current && t < |s'.threads|
      && (s'.threads[t].Trying? <==> fits) && (s'.threads[t].Undoing? <==> !fits && !more)
      && (s'.threads[t] == pc <==> !fits && more)
  {
    hide Path;
  }
}
