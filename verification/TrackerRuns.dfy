/** The tracker hierarchy of base/mem_tracker.cc under any number of threads.

Trackers are numbered in the order of their creation, so that a parent has a smaller number than its children. Each
step of a thread is one atomic operation on the counter of one tracker: an addition, a load, or a compare-and-swap.
GC callbacks are code of the user; what they do to trackers is done by the requests of other threads.
*/
module TrackerRuns {

  /** Where a thread is in an operation on tracker x for b bytes; path positions count from x (0) up to the root. */
  datatype Pc =
    | Idle
    | Adding(x: nat, b: int, k: nat)                 // Consume / Release: positions below k are done
    | Trying(x: nat, b: int, k: nat, retried: bool)  // TryConsume: positions at or above k are done, next is k - 1
    | TryCas(x: nat, b: int, k: nat, retried: bool, seen: int)
    | Collecting(x: nat, b: int, k: nat)             // GcMemory of the tracker at position k - 1
    | Undoing(x: nat, b: int, k: nat, j: nat)        // rollback: positions k..j are still to be taken back

  datatype State = State(parent: seq<int>, limit: seq<int>, current: seq<int>, settled: seq<int>, threads: seq<Pc>)

  datatype Event =
    | Create(p: nat, limit: int)                     // CreateTracker under p
    | Consume(t: nat, x: nat, b: int)
    | Release(t: nat, x: nat, b: int)
    | TryConsume(t: nat, x: nat, b: int)
    | Advance(t: nat, more: bool)                    // one atomic step; more: another callback is tried

  /** The root tracker alone, n idle threads. */
  function Start(n: nat, rootLimit: int): State { State([-1], [rootLimit], [0], [0], seq(n, _ => Idle)) }

  predicate Tree(parent: seq<int>) {
    |parent| > 0 && parent[0] == -1 && forall i :: 0 < i < |parent| ==> 0 <= parent[i] < i
  }

  /** all_trackers_: the tracker and its ancestors, up to the root. */
  function Path(parent: seq<int>, x: nat): (path: seq<nat>)
    requires Tree(parent) && x < |parent|
    ensures |path| > 0 && path[0] == x
    ensures forall i :: 0 <= i < |path| ==> path[i] <= x
    ensures forall i, j :: 0 <= i < j < |path| ==> path[i] != path[j]
    decreases x
  {
    if x == 0 then [0] else [x] + Path(parent, parent[x])
  }

  // ----- steps

  predicate ValidPc(parent: seq<int>, pc: Pc)
    requires Tree(parent)
  {
    match pc
    case Idle => true
    case Adding(x, b, k) => x < |parent| && k <= |Path(parent, x)|
    case Trying(x, b, k, _) => x < |parent| && b > 0 && k <= |Path(parent, x)|
    case TryCas(x, b, k, _, _) => x < |parent| && b > 0 && 0 < k <= |Path(parent, x)|
    case Collecting(x, b, k) => x < |parent| && b > 0 && 0 < k <= |Path(parent, x)|
    case Undoing(x, b, k, j) => x < |parent| && b > 0 && k <= j <= |Path(parent, x)|
  }

  ghost predicate Shape(s: State) {
    && Tree(s.parent)
    && |s.limit| == |s.current| == |s.settled| == |s.parent|
    && forall t :: 0 <= t < |s.threads| ==> ValidPc(s.parent, s.threads[t])
  }

  /** Thread t goes on at pc after changing the counter of tracker c by d. */
  function Move(s: State, t: nat, pc: Pc, c: nat, d: int): State
    requires t < |s.threads| && c < |s.current|
  {
    s.(threads := s.threads[t := pc], current := s.current[c := s.current[c] + d])
  }

  function Goto(s: State, t: nat, pc: Pc): State
    requires t < |s.threads|
  {
    s.(threads := s.threads[t := pc])
  }

  /** Thread t returns; d bytes stay accounted to tracker x. */
  function Finish(s: State, t: nat, x: nat, d: int): State
    requires t < |s.threads| && x < |s.settled|
  {
    s.(threads := s.threads[t := Idle], settled := s.settled[x := s.settled[x] + d])
  }

  function TryStep(s: State, t: nat, x: nat, b: int, k: nat, retried: bool): State
    requires Shape(s) && t < |s.threads| && x < |s.parent| && k <= |Path(s.parent, x)|
  {
    var path := Path(s.parent, x);
    if k == 0 then Finish(s, t, x, b)
    else
      var c := path[k - 1];
      if s.limit[c] < 0 then Move(s, t, Trying(x, b, k - 1, false), c, b)
      else if s.current[c] + b <= s.limit[c] then Goto(s, t, TryCas(x, b, k, retried, s.current[c]))
      else if retried || s.limit[c] - b < 0 then Goto(s, t, Undoing(x, b, k, |path|))
      else Goto(s, t, Collecting(x, b, k))
  }

  function AdvanceThread(s: State, t: nat, more: bool): State
    requires Shape(s) && t < |s.threads|
  {
    match s.threads[t]
    case Idle => s
    case Adding(x, b, k) =>
      var path := Path(s.parent, x);
      if k < |path| then Move(s, t, Adding(x, b, k + 1), path[k], b) else Finish(s, t, x, b)
    case Trying(x, b, k, retried) => TryStep(s, t, x, b, k, retried)
    case TryCas(x, b, k, retried, seen) =>
      var c := Path(s.parent, x)[k - 1];
      if s.current[c] == seen then Move(s, t, Trying(x, b, k - 1, false), c, b)
      else Goto(s, t, Trying(x, b, k, retried))
    case Collecting(x, b, k) =>
      var c := Path(s.parent, x)[k - 1];
      if s.current[c] <= s.limit[c] - b then Goto(s, t, Trying(x, b, k, true))
      else if more then s
      else Goto(s, t, Undoing(x, b, k, |Path(s.parent, x)|))
    case Undoing(x, b, k, j) =>
      if j > k then Move(s, t, Undoing(x, b, k, j - 1), Path(s.parent, x)[j - 1], -b) else Goto(s, t, Idle)
  }

  predicate CanRequest(s: State, t: nat, x: nat) { t < |s.threads| && s.threads[t].Idle? && x < |s.parent| }

  /** Events that are not possible in a state leave it unchanged. */
  function Step(s: State, e: Event): State
    requires Shape(s)
  {
    match e
    case Create(p, limit) =>
      if p < |s.parent| then
        s.(parent := s.parent + [p], limit := s.limit + [limit], current := s.current + [0], settled := s.settled + [0])
      else s
    case Consume(t, x, b) => if CanRequest(s, t, x) && b != 0 then Goto(s, t, Adding(x, b, 0)) else s
    case Release(t, x, b) => if CanRequest(s, t, x) && b != 0 then Goto(s, t, Adding(x, -b, 0)) else s
    case TryConsume(t, x, b) =>
      if CanRequest(s, t, x) && b > 0 then Goto(s, t, Trying(x, b, |Path(s.parent, x)|, false)) else s
    case Advance(t, more) => if t < |s.threads| then AdvanceThread(s, t, more) else s
  }

  // ----- the shape is kept

  lemma {:induction false} PathOfLonger(parent: seq<int>, p: int, x: nat)
    requires Tree(parent) && Tree(parent + [p]) && x < |parent|
    ensures Path(parent + [p], x) == Path(parent, x)
    decreases x
  {
    if x > 0 {
      PathOfLonger(parent, p, parent[x]);
    }
  }

  lemma CreateKeepsShape(s: State, p: nat, limit: int)
    requires Shape(s)
    ensures Shape(Step(s, Create(p, limit)))
  {
    if p < |s.parent| {
      var longer := s.parent + [p];
      forall t | 0 <= t < |s.threads| ensures ValidPc(longer, s.threads[t]) {
        assert ValidPc(s.parent, s.threads[t]);
        if !s.threads[t].Idle? {
          PathOfLonger(s.parent, p, s.threads[t].x);
        }
      }
    }
  }

  /** A step of thread t moves that thread only, to a position that makes sense. */
  lemma AdvanceFrame(s: State, t: nat, more: bool)
    requires Shape(s) && t < |s.threads|
    ensures AdvanceThread(s, t, more).parent == s.parent && AdvanceThread(s, t, more).limit == s.limit
    ensures |AdvanceThread(s, t, more).current| == |s.current| && |AdvanceThread(s, t, more).settled| == |s.settled|
    ensures |AdvanceThread(s, t, more).threads| == |s.threads|
    ensures AdvanceThread(s, t, more).threads == s.threads[t := AdvanceThread(s, t, more).threads[t]]
    ensures ValidPc(s.parent, AdvanceThread(s, t, more).threads[t])
  {
    assert ValidPc(s.parent, s.threads[t]);
    hide Path;
    match s.threads[t]
    case Trying(_, _, _, _) =>
    case _ =>
  }

  lemma AdvanceKeepsShape(s: State, t: nat, more: bool)
    requires Shape(s) && t < |s.threads|
    ensures Shape(AdvanceThread(s, t, more))
  {
    AdvanceFrame(s, t, more);
    hide AdvanceThread, Path;
  }

  lemma StepKeepsShape(s: State, e: Event)
    requires Shape(s)
    ensures Shape(Step(s, e))
  {
    hide AdvanceThread, Path;
    match e
    case Create(p, limit) => CreateKeepsShape(s, p, limit);
    case Advance(t, more) => if t < |s.threads| { AdvanceKeepsShape(s, t, more); }
    case _ =>
  }

  function Run(s: State, events: seq<Event>): (r: State)
    requires Shape(s)
    ensures Shape(r)
  {
    if events == [] then s
    else
      var before := Run(s, events[..|events| - 1]);
      StepKeepsShape(before, events[|events| - 1]);
      Step(before, events[|events| - 1])
  }

  // ----- the books

  /** c is on the path at a position in lo..hi. */
  ghost predicate Covers(path: seq<nat>, lo: nat, hi: nat, c: nat) {
    exists i :: lo <= i < hi && i < |path| && path[i] == c
  }

  function Amount(yes: bool, b: int): int { if yes then b else 0 }

  /** What the unfinished operation of a thread has added to tracker c so far. */
  ghost function Share(parent: seq<int>, pc: Pc, c: nat): int
    requires Tree(parent) && ValidPc(parent, pc)
  {
    match pc
    case Idle => 0
    case Adding(x, b, k) => Amount(Covers(Path(parent, x), 0, k, c), b)
    case Trying(x, b, k, _) => Amount(Covers(Path(parent, x), k, |Path(parent, x)|, c), b)
    case TryCas(x, b, k, _, _) => Amount(Covers(Path(parent, x), k, |Path(parent, x)|, c), b)
    case Collecting(x, b, k) => Amount(Covers(Path(parent, x), k, |Path(parent, x)|, c), b)
    case Undoing(x, b, k, j) => Amount(Covers(Path(parent, x), k, j, c), b)
  }

  ghost predicate Threads(parent: seq<int>, threads: seq<Pc>) {
    Tree(parent) && forall t :: 0 <= t < |threads| ==> ValidPc(parent, threads[t])
  }

  /** The sum of the shares of all threads. */
  ghost function InFlight(parent: seq<int>, threads: seq<Pc>, c: nat): int
    requires Threads(parent, threads)
  {
    if threads == [] then 0
    else
      var last := |threads| - 1;
      InFlight(parent, threads[..last], c) + Share(parent, threads[last], c)
  }

  /** The bytes settled at the trackers below number n that have c on their path: c and its descendants. */
  ghost function Under(parent: seq<int>, settled: seq<int>, n: nat, c: nat): int
    requires Tree(parent) && n <= |parent| && |settled| == |parent|
  {
    if n == 0 then 0 else Under(parent, settled, n - 1, c) + Amount(c in Path(parent, n - 1), settled[n - 1])
  }

  ghost predicate Booked(s: State, c: nat)
    requires Shape(s) && c < |s.current|
  {
    s.current[c] == Under(s.parent, s.settled, |s.parent|, c) + InFlight(s.parent, s.threads, c)
  }

  ghost predicate Balanced(s: State) {
    Shape(s) && forall c :: 0 <= c < |s.current| ==> Booked(s, c)
  }

  // ----- sums

  lemma {:induction false} InFlightUpdate(parent: seq<int>, threads: seq<Pc>, t: nat, pc: Pc, c: nat)
    requires Threads(parent, threads) && t < |threads| && ValidPc(parent, pc)
    ensures Threads(parent, threads[t := pc])
    ensures InFlight(parent, threads[t := pc], c) ==
            InFlight(parent, threads, c) - Share(parent, threads[t], c) + Share(parent, pc, c)
  {
    var last := |threads| - 1;
    if t < last {
      InFlightUpdate(parent, threads[..last], t, pc, c);
      assert threads[t := pc][..last] == threads[..last][t := pc];
    } else {
      assert threads[t := pc][..last] == threads[..last];
    }
  }

  lemma {:induction false} UnderUpdate(parent: seq<int>, settled: seq<int>, n: nat, x: nat, d: int, c: nat)
    requires Tree(parent) && n <= |parent| && |settled| == |parent| && x < |parent|
    ensures Under(parent, settled[x := settled[x] + d], n, c) ==
            Under(parent, settled, n, c) + (if x < n then Amount(c in Path(parent, x), d) else 0)
  {
    if n > 0 {
      hide Path;
      UnderUpdate(parent, settled, n - 1, x, d, c);
    }
  }

  /** The books stay balanced when the counters change by what the shares and the settled bytes change by. */
  lemma BooksMove(s: State, s': State, t: nat, x: nat, d: int)
    requires Balanced(s) && Shape(s') && s'.parent == s.parent && t < |s.threads| && x < |s.parent|
    requires |s'.threads| == |s.threads| && s'.threads == s.threads[t := s'.threads[t]] && s'.settled == s.settled[x := s.settled[x] + d]
    requires forall c :: 0 <= c < |s.current| ==>
      s'.current[c] - s.current[c] == Share(s.parent, s'.threads[t], c) - Share(s.parent, s.threads[t], c)
                                      + Amount(c in Path(s.parent, x), d)
    ensures Balanced(s')
  {
    forall c | 0 <= c < |s'.current| ensures Booked(s', c) {
      assert Booked(s, c);
      InFlightUpdate(s.parent, s.threads, t, s'.threads[t], c);
      UnderUpdate(s.parent, s.settled, |s.parent|, x, d, c);
    }
  }

  // ----- one more position of a path

  lemma CoversUp(path: seq<nat>, lo: nat, hi: nat, c: nat)
    requires lo <= hi < |path| && forall i, j :: 0 <= i < j < |path| ==> path[i] != path[j]
    ensures Covers(path, lo, hi + 1, c) <==> Covers(path, lo, hi, c) || path[hi] == c
    ensures path[hi] == c ==> !Covers(path, lo, hi, c)
  {
    if path[hi] == c {
      assert Covers(path, lo, hi + 1, c);
    }
  }

  lemma CoversDown(path: seq<nat>, lo: nat, hi: nat, c: nat)
    requires 0 < lo <= hi <= |path| && forall i, j :: 0 <= i < j < |path| ==> path[i] != path[j]
    ensures Covers(path, lo - 1, hi, c) <==> Covers(path, lo, hi, c) || path[lo - 1] == c
    ensures path[lo - 1] == c ==> !Covers(path, lo, hi, c)
  {
    if path[lo - 1] == c {
      assert Covers(path, lo - 1, hi, c);
    }
  }

  lemma CoversAll(path: seq<nat>, c: nat)
    ensures Covers(path, 0, |path|, c) <==> c in path
    ensures !Covers(path, 0, 0, c) && !Covers(path, |path|, |path|, c)
  {
  }

  // ----- every event keeps the books balanced

  lemma AddingBalanced(s: State, t: nat, more: bool)
    requires Balanced(s) && t < |s.threads| && s.threads[t].Adding?
    ensures Balanced(AdvanceThread(s, t, more))
  {
    var s' := AdvanceThread(s, t, more);
    AdvanceKeepsShape(s, t, more);
    assert ValidPc(s.parent, s.threads[t]);
    var x, b, k := s.threads[t].x, s.threads[t].b, s.threads[t].k;
    var path := Path(s.parent, x);
    hide Path, Covers, InFlight, Under;
    forall c: nat | c < |s.current|
      ensures s'.current[c] - s.current[c] == Share(s.parent, s'.threads[t], c) - Share(s.parent, s.threads[t], c)
                                              + Amount(c in path, if k < |path| then 0 else b)
    {
      if k < |path| {
        CoversUp(path, 0, k, c);
      } else {
        CoversAll(path, c);
      }
    }
    BooksMove(s, s', t, x, if k < |path| then 0 else b);
  }

  lemma TryingBalanced(s: State, t: nat, more: bool)
    requires Balanced(s) && t < |s.threads| && s.threads[t].Trying?
    ensures Balanced(AdvanceThread(s, t, more))
  {
    var x, b, k := s.threads[t].x, s.threads[t].b, s.threads[t].k;
    assert ValidPc(s.parent, s.threads[t]);
    var path := Path(s.parent, x);
    forall c: nat | c < |s.current|
      ensures AdvanceThread(s, t, more).current[c] - s.current[c]
              == Share(s.parent, AdvanceThread(s, t, more).threads[t], c) - Share(s.parent, s.threads[t], c)
                 + Amount(c in path, if k > 0 then 0 else b)
    {
      TryingShare(s, t, more, c);
    }
    AdvanceKeepsShape(s, t, more);
    AdvanceFrame(s, t, more);
    assert AdvanceThread(s, t, more).settled == s.settled[x := s.settled[x] + if k > 0 then 0 else b];
    hide AdvanceThread, Path, Share, InFlight, Under;
    BooksMove(s, AdvanceThread(s, t, more), t, x, if k > 0 then 0 else b);
  }

  lemma TryingShare(s: State, t: nat, more: bool, c: nat)
    requires Shape(s) && t < |s.threads| && s.threads[t].Trying? && c < |s.current|
    ensures
      var s' := AdvanceThread(s, t, more);
      var k := s.threads[t].k;
      && c < |s'.current| && ValidPc(s.parent, s.threads[t]) && t < |s'.threads| && ValidPc(s.parent, s'.threads[t])
      && s'.current[c] - s.current[c]
         == Share(s.parent, s'.threads[t], c) - Share(s.parent, s.threads[t], c)
            + Amount(c in Path(s.parent, s.threads[t].x), if k > 0 then 0 else s.threads[t].b)
  {
    AdvanceFrame(s, t, more);
    assert ValidPc(s.parent, s.threads[t]);
    var k, path := s.threads[t].k, Path(s.parent, s.threads[t].x);
    hide Path, Covers;
    if k > 0 {
      CoversDown(path, k, |path|, c);
    } else {
      CoversAll(path, c);
    }
  }

  lemma TryCasBalanced(s: State, t: nat, more: bool)
    requires Balanced(s) && t < |s.threads| && s.threads[t].TryCas?
    ensures Balanced(AdvanceThread(s, t, more))
  {
    var s' := AdvanceThread(s, t, more);
    AdvanceKeepsShape(s, t, more);
    assert ValidPc(s.parent, s.threads[t]);
    var x, b, k := s.threads[t].x, s.threads[t].b, s.threads[t].k;
    var path := Path(s.parent, x);
    hide Path, Covers, InFlight, Under;
    forall c: nat | c < |s.current|
      ensures s'.current[c] - s.current[c] == Share(s.parent, s'.threads[t], c) - Share(s.parent, s.threads[t], c)
    {
      CoversDown(path, k, |path|, c);
    }
    BooksMove(s, s', t, x, 0);
  }

  lemma UndoingBalanced(s: State, t: nat, more: bool)
    requires Balanced(s) && t < |s.threads| && (s.threads[t].Undoing? || s.threads[t].Collecting?)
    ensures Balanced(AdvanceThread(s, t, more))
  {
    var s' := AdvanceThread(s, t, more);
    AdvanceKeepsShape(s, t, more);
    assert ValidPc(s.parent, s.threads[t]);
    var x, b, k := s.threads[t].x, s.threads[t].b, s.threads[t].k;
    var path := Path(s.parent, x);
    hide Path, InFlight, Under;
    forall c: nat | c < |s.current|
      ensures s'.current[c] - s.current[c] == Share(s.parent, s'.threads[t], c) - Share(s.parent, s.threads[t], c)
    {
      if s.threads[t].Undoing? && s.threads[t].j > k {
        CoversUp(path, k, s.threads[t].j - 1, c);
      }
    }
    BooksMove(s, s', t, x, 0);
  }

  lemma RequestBalanced(s: State, t: nat, pc: Pc)
    requires Balanced(s) && t < |s.threads| && s.threads[t].Idle? && ValidPc(s.parent, pc)
    requires pc.Adding? ==> pc.k == 0
    requires pc.Trying? ==> pc.k == |Path(s.parent, pc.x)|
    requires pc.Adding? || pc.Trying?
    ensures Balanced(Goto(s, t, pc))
  {
    var s' := Goto(s, t, pc);
    BooksMove(s, s', t, 0, 0);
  }

  lemma {:induction false} InFlightOfLonger(parent: seq<int>, p: nat, threads: seq<Pc>, c: nat)
    requires Threads(parent, threads) && Threads(parent + [p], threads) && Tree(parent + [p])
    ensures InFlight(parent + [p], threads, c) == InFlight(parent, threads, c)
    ensures c == |parent| ==> InFlight(parent, threads, c) == 0
  {
    if threads != [] {
      var last := |threads| - 1;
      InFlightOfLonger(parent, p, threads[..last], c);
      assert ValidPc(parent, threads[last]);
      if !threads[last].Idle? {
        PathOfLonger(parent, p, threads[last].x);
      }
    }
  }

  lemma {:induction false} UnderOfLonger(parent: seq<int>, p: nat, settled: seq<int>, n: nat, c: nat)
    requires Tree(parent) && Tree(parent + [p]) && n <= |parent| == |settled|
    ensures Under(parent + [p], settled + [0], n, c) == Under(parent, settled, n, c)
    ensures c == |parent| ==> Under(parent, settled, n, c) == 0
  {
    if n > 0 {
      UnderOfLonger(parent, p, settled, n - 1, c);
      PathOfLonger(parent, p, n - 1);
    }
  }

  lemma CreateBalanced(s: State, p: nat, limit: int)
    requires Balanced(s)
    ensures Balanced(Step(s, Create(p, limit)))
  {
    var s' := Step(s, Create(p, limit));
    CreateKeepsShape(s, p, limit);
    if p < |s.parent| {
      forall c | 0 <= c < |s'.current| ensures Booked(s', c) {
        InFlightOfLonger(s.parent, p, s.threads, c);
        UnderOfLonger(s.parent, p, s.settled, |s.parent|, c);
        if c < |s.current| {
          assert Booked(s, c);
        }
      }
    }
  }

  lemma StepBalanced(s: State, e: Event)
    requires Balanced(s)
    ensures Balanced(Step(s, e))
  {
    hide AdvanceThread;
    match e
    case Create(p, limit) => CreateBalanced(s, p, limit);
    case Consume(t, x, b) => if CanRequest(s, t, x) && b != 0 { RequestBalanced(s, t, Adding(x, b, 0)); }
    case Release(t, x, b) => if CanRequest(s, t, x) && b != 0 { RequestBalanced(s, t, Adding(x, -b, 0)); }
    case TryConsume(t, x, b) =>
      if CanRequest(s, t, x) && b > 0 { RequestBalanced(s, t, Trying(x, b, |Path(s.parent, x)|, false)); }
    case Advance(t, more) => if t < |s.threads| { AdvanceBalanced(s, t, more); }
  }

  lemma AdvanceBalanced(s: State, t: nat, more: bool)
    requires Balanced(s) && t < |s.threads|
    ensures Balanced(AdvanceThread(s, t, more))
  {
    match s.threads[t]
    case Idle =>
    case Adding(_, _, _) => AddingBalanced(s, t, more);
    case Trying(_, _, _, _) => TryingBalanced(s, t, more);
    case TryCas(_, _, _, _, _) => TryCasBalanced(s, t, more);
    case _ => UndoingBalanced(s, t, more);
  }

  lemma StartBalanced(n: nat, rootLimit: int)
    ensures Balanced(Start(n, rootLimit))
  {
    var s := Start(n, rootLimit);
    forall c | 0 <= c < 1 ensures Booked(s, c) {
      IdleShares(s.parent, s.threads, c);
    }
  }

  lemma {:induction false} IdleShares(parent: seq<int>, threads: seq<Pc>, c: nat)
    requires Threads(parent, threads) && forall t :: 0 <= t < |threads| ==> threads[t].Idle?
    ensures InFlight(parent, threads, c) == 0
  {
    if threads != [] {
      IdleShares(parent, threads[..|threads| - 1], c);
    }
  }

  /** In every run, whatever the interleaving and whatever callbacks do: the consumption of each tracker is what is
      settled at it and its descendants, plus the steps of unfinished operations that have passed it. */
  lemma {:induction false} RunBalanced(n: nat, rootLimit: int, events: seq<Event>)
    ensures Balanced(Run(Start(n, rootLimit), events))
  {
    if events == [] {
      StartBalanced(n, rootLimit);
    } else {
      var before := events[..|events| - 1];
      RunBalanced(n, rootLimit, before);
      StepBalanced(Run(Start(n, rootLimit), before), events[|events| - 1]);
    }
  }

  /** When no operation is in flight nothing is left over: failed attempts have been taken back everywhere. */
  lemma QuiescentBooks(n: nat, rootLimit: int, events: seq<Event>, c: nat)
    requires
      var s := Run(Start(n, rootLimit), events);
      c < |s.current| && forall t :: 0 <= t < |s.threads| ==> s.threads[t].Idle?
    ensures
      var s := Run(Start(n, rootLimit), events);
      s.current[c] == Under(s.parent, s.settled, |s.parent|, c)
  {
    RunBalanced(n, rootLimit, events);
    var s := Run(Start(n, rootLimit), events);
    assert Booked(s, c);
    IdleShares(s.parent, s.threads, c);
  }

  // ----- limits

  /** Nobody asks for memory other than by TryConsume, and nobody releases a negative amount. */
  predicate Polite(e: Event) {
    match e
    case Create(_, _) => true
    case Consume(_, _, b) => b <= 0
    case Release(_, _, b) => b >= 0
    case TryConsume(_, _, _) => true
    case Advance(_, _) => true
  }

  predicate PolitePc(parent: seq<int>, limit: seq<int>, pc: Pc)
    requires Tree(parent) && |limit| == |parent| && ValidPc(parent, pc)
  {
    match pc
    case Adding(_, b, _) => b < 0
    case TryCas(x, b, k, _, seen) =>
      var c := Path(parent, x)[k - 1];
      limit[c] >= 0 ==> seen + b <= limit[c]
    case _ => true
  }

  ghost predicate WithinLimits(s: State) {
    && Shape(s)
    && (forall c :: 0 <= c < |s.current| && s.limit[c] >= 0 ==> s.current[c] <= s.limit[c])
    && (forall t :: 0 <= t < |s.threads| ==> PolitePc(s.parent, s.limit, s.threads[t]))
  }

  /** A step only ever raises a counter with a limit by a compare-and-swap that respects it. */
  lemma AdvanceWithinLimits(s: State, t: nat, more: bool)
    requires WithinLimits(s) && t < |s.threads|
    ensures WithinLimits(AdvanceThread(s, t, more))
  {
    AdvanceKeepsShape(s, t, more);
    AdvanceFrame(s, t, more);
    PoliteStep(s, t, more);
    CountersStep(s, t, more);
    hide Path, AdvanceThread;
  }

  lemma PoliteStep(s: State, t: nat, more: bool)
    requires WithinLimits(s) && t < |s.threads|
    ensures ValidPc(s.parent, AdvanceThread(s, t, more).threads[t])
    ensures PolitePc(s.parent, s.limit, AdvanceThread(s, t, more).threads[t])
  {
    AdvanceFrame(s, t, more);
    assert ValidPc(s.parent, s.threads[t]) && PolitePc(s.parent, s.limit, s.threads[t]);
    hide Path;
  }

  lemma CountersStep(s: State, t: nat, more: bool)
    requires WithinLimits(s) && t < |s.threads|
    ensures |AdvanceThread(s, t, more).current| == |s.current|
    ensures forall c :: 0 <= c < |s.current| && s.limit[c] >= 0 ==> AdvanceThread(s, t, more).current[c] <= s.limit[c]
  {
    assert ValidPc(s.parent, s.threads[t]) && PolitePc(s.parent, s.limit, s.threads[t]);
    hide Path;
  }

  lemma CreateWithinLimits(s: State, p: nat, limit: int)
    requires WithinLimits(s)
    ensures WithinLimits(Step(s, Create(p, limit)))
  {
    var s' := Step(s, Create(p, limit));
    CreateKeepsShape(s, p, limit);
    if p < |s.parent| {
      forall t | 0 <= t < |s'.threads| ensures PolitePc(s'.parent, s'.limit, s'.threads[t]) {
        assert ValidPc(s.parent, s.threads[t]) && PolitePc(s.parent, s.limit, s.threads[t]);
        if s.threads[t].TryCas? {
          PathOfLonger(s.parent, p, s.threads[t].x);
        }
      }
    }
  }

  lemma StepWithinLimits(s: State, e: Event)
    requires WithinLimits(s) && Polite(e)
    ensures WithinLimits(Step(s, e))
  {
    StepKeepsShape(s, e);
    hide AdvanceThread;
    match e
    case Create(p, limit) => CreateWithinLimits(s, p, limit);
    case Advance(t, more) => if t < |s.threads| { AdvanceWithinLimits(s, t, more); }
    case _ =>
  }

  /** If memory is only ever asked for by TryConsume, no tracker with a limit exceeds it at any moment of any run,
      not even in the middle of an operation. */
  lemma {:induction false} LimitsNeverExceeded(n: nat, rootLimit: int, events: seq<Event>)
    requires forall i :: 0 <= i < |events| ==> Polite(events[i])
    ensures
      var s := Run(Start(n, rootLimit), events);
      WithinLimits(s) && forall c :: 0 <= c < |s.current| && s.limit[c] >= 0 ==> s.current[c] <= s.limit[c]
  {
    if events != [] {
      var before := events[..|events| - 1];
      LimitsNeverExceeded(n, rootLimit, before);
      StepWithinLimits(Run(Start(n, rootLimit), before), events[|events| - 1]);
    }
  }

  /** The bytes fit at position i, or there is no limit. */
  predicate Fits(s: State, path: seq<nat>, i: nat, b: int)
    requires i < |path| && path[i] < |s.limit| && |s.current| == |s.limit|
  {
    s.limit[path[i]] < 0 || s.current[path[i]] + b <= s.limit[path[i]]
  }

  /** Append one event to a run. */
  lemma Extend(n: nat, rootLimit: int, events: seq<Event>, s: State, e: Event) returns (longer: seq<Event>, s': State)
    requires Shape(s) && Run(Start(n, rootLimit), events) == s
    ensures s' == Step(s, e) && Shape(s') && Run(Start(n, rootLimit), longer) == s' && longer == events + [e]
  {
    longer := events + [e];
    assert longer[..|longer| - 1] == events;
    StepKeepsShape(s, e);
    s' := Step(s, e);
  }
}
