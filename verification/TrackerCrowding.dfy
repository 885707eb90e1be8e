/** When unfinished attempts of TryConsume get in each other's way: an attempt takes its bytes from the root down, so one
that a lower limit refuses in the end has held them at the upper limits for a while.
*/
module TrackerCrowding {

  import opened TrackerRuns

  /** Some tracker with a limit has a proper ancestor with a limit. */
  ghost predicate Nested(parent: seq<int>, limit: seq<int>)
    requires Tree(parent) && |limit| == |parent|
  {
    exists x: nat, i: nat :: NestedAt(parent, limit, x, i)
  }

  predicate NestedAt(parent: seq<int>, limit: seq<int>, x: nat, i: nat)
    requires Tree(parent) && |limit| == |parent|
  {
    x < |parent| && 0 < i < |Path(parent, x)| && limit[x] >= 0 && limit[Path(parent, x)[i]] >= 0
  }

  /** The bytes that attempts being rolled back still hold at tracker c. */
  ghost function Doomed(parent: seq<int>, threads: seq<Pc>, c: nat): int
    requires Threads(parent, threads)
  {
    if threads == [] then 0
    else
      var last := |threads| - 1;
      Doomed(parent, threads[..last], c) + (if threads[last].Undoing? then Share(parent, threads[last], c) else 0)
  }

  /** The next step of thread t gives its attempt up, although at the tracker that refuses it the bytes would fit but
      for attempts that have failed already. */
  ghost predicate CrowdedOut(s: State, t: nat, more: bool)
    requires Shape(s)
  {
    && t < |s.threads| && (s.threads[t].Trying? || s.threads[t].Collecting?)
    && AdvanceThread(s, t, more).threads[t].Undoing?
    && ValidPc(s.parent, s.threads[t]) && s.threads[t].k > 0
    && var c := Path(s.parent, s.threads[t].x)[s.threads[t].k - 1];
       s.current[c] - Doomed(s.parent, s.threads, c) + s.threads[t].b <= s.limit[c]
  }

  // ----- without nested limits

  lemma {:induction false} PathSuffix(parent: seq<int>, x: nat, m: nat)
    requires Tree(parent) && x < |parent| && m < |Path(parent, x)|
    ensures Path(parent, x)[m] < |parent| && Path(parent, Path(parent, x)[m]) == Path(parent, x)[m..]
    decreases m
  {
    if m > 0 {
      PathSuffix(parent, parent[x], m - 1);
    }
  }

  /** Above a tracker with a limit there is none. */
  lemma NoneAbove(parent: seq<int>, limit: seq<int>, x: nat, m: nat, i: nat)
    requires Tree(parent) && |limit| == |parent| && !Nested(parent, limit)
    requires x < |parent| && m < i < |Path(parent, x)| && limit[Path(parent, x)[m]] >= 0
    ensures limit[Path(parent, x)[i]] < 0
  {
    PathSuffix(parent, x, m);
    hide Path;
    assert Path(parent, x)[m..][i - m] == Path(parent, x)[i];
    assert !NestedAt(parent, limit, Path(parent, x)[m], i - m);
  }

  lemma NothingAbove(parent: seq<int>, limit: seq<int>, x: nat, k: nat)
    requires Tree(parent) && |limit| == |parent| && !Nested(parent, limit)
    requires x < |parent| && 0 < k <= |Path(parent, x)| && limit[Path(parent, x)[k - 1]] >= 0
    ensures forall i :: k <= i < |Path(parent, x)| ==> limit[Path(parent, x)[i]] < 0
  {
    var path := Path(parent, x);
    forall i | k <= i < |path| ensures limit[path[i]] < 0 {
      NoneAbove(parent, limit, x, k - 1, i);
    }
  }

  /** An attempt that is rolled back holds bytes at trackers without a limit only; one that is being refused stands
      at a limit. */
  ghost predicate PcSafe(parent: seq<int>, limit: seq<int>, pc: Pc)
    requires Tree(parent) && |limit| == |parent| && ValidPc(parent, pc)
  {
    match pc
    case Undoing(x, b, k, j) => forall i :: k <= i < |Path(parent, x)| ==> limit[Path(parent, x)[i]] < 0
    case TryCas(x, b, k, _, _) => limit[Path(parent, x)[k - 1]] >= 0
    case Collecting(x, b, k) => limit[Path(parent, x)[k - 1]] >= 0
    case _ => true
  }

  ghost predicate Safe(s: State) {
    Shape(s) && forall t :: 0 <= t < |s.threads| ==> PcSafe(s.parent, s.limit, s.threads[t])
  }

  lemma AdvancePcSafe(s: State, t: nat, more: bool)
    requires Safe(s) && !Nested(s.parent, s.limit) && t < |s.threads|
    ensures ValidPc(s.parent, AdvanceThread(s, t, more).threads[t])
    ensures PcSafe(s.parent, s.limit, AdvanceThread(s, t, more).threads[t])
  {
    AdvanceFrame(s, t, more);
    var pc := s.threads[t];
    assert ValidPc(s.parent, pc) && PcSafe(s.parent, s.limit, pc);
    hide Path, Nested;
    if (pc.Trying? || pc.Collecting?) && pc.k > 0 && s.limit[Path(s.parent, pc.x)[pc.k - 1]] >= 0 {
      NothingAbove(s.parent, s.limit, pc.x, pc.k);
    }
  }

  lemma AdvanceSafe(s: State, t: nat, more: bool)
    requires Safe(s) && !Nested(s.parent, s.limit) && t < |s.threads|
    ensures Safe(AdvanceThread(s, t, more))
  {
    AdvanceKeepsShape(s, t, more);
    AdvanceFrame(s, t, more);
    AdvancePcSafe(s, t, more);
    hide Path, AdvanceThread, PcSafe, Nested;
  }

  lemma CreateSafe(s: State, p: nat, limit: int)
    requires Safe(s)
    ensures Shape(Step(s, Create(p, limit))) && Safe(Step(s, Create(p, limit)))
  {
    var s' := Step(s, Create(p, limit));
    CreateKeepsShape(s, p, limit);
    if p < |s.parent| {
      forall t | 0 <= t < |s'.threads| ensures PcSafe(s'.parent, s'.limit, s'.threads[t]) {
        assert ValidPc(s.parent, s.threads[t]) && PcSafe(s.parent, s.limit, s.threads[t]);
        if !s.threads[t].Idle? {
          PathOfLonger(s.parent, p, s.threads[t].x);
        }
      }
    }
  }

  lemma NestedStays(s: State, e: Event)
    requires Shape(s) && Nested(s.parent, s.limit)
    ensures Shape(Step(s, e)) && Nested(Step(s, e).parent, Step(s, e).limit)
  {
    StepKeepsShape(s, e);
    var s' := Step(s, e);
    var x: nat, i: nat :| NestedAt(s.parent, s.limit, x, i);
    match e
    case Create(p, limit) =>
      if p < |s.parent| {
        PathOfLonger(s.parent, p, x);
        assert NestedAt(s'.parent, s'.limit, x, i);
      }
    case Advance(t, more) =>
      if t < |s.threads| {
        AdvanceFrame(s, t, more);
      }
    case _ =>
  }

  lemma StepSafe(s: State, e: Event)
    requires Safe(s) && !Nested(s.parent, s.limit)
    ensures Shape(Step(s, e)) && Safe(Step(s, e))
  {
    StepKeepsShape(s, e);
    hide AdvanceThread, Nested;
    match e
    case Create(p, limit) => CreateSafe(s, p, limit);
    case Advance(t, more) => if t < |s.threads| { AdvanceSafe(s, t, more); }
    case _ =>
  }

  lemma {:induction false} RunSafe(n: nat, rootLimit: int, events: seq<Event>)
    requires var s := Run(Start(n, rootLimit), events); !Nested(s.parent, s.limit)
    ensures Safe(Run(Start(n, rootLimit), events))
  {
    if events != [] {
      var before, e := events[..|events| - 1], events[|events| - 1];
      var s := Run(Start(n, rootLimit), before);
      hide Nested, Step, Safe;
      if Nested(s.parent, s.limit) {
        NestedStays(s, e);
      }
      RunSafe(n, rootLimit, before);
      StepSafe(s, e);
    }
  }

  lemma {:induction false} NothingDoomed(parent: seq<int>, limit: seq<int>, threads: seq<Pc>, c: nat)
    requires Threads(parent, threads) && |limit| == |parent| && c < |parent| && limit[c] >= 0
    requires forall t :: 0 <= t < |threads| ==> PcSafe(parent, limit, threads[t])
    ensures Doomed(parent, threads, c) == 0
  {
    if threads != [] {
      var last := |threads| - 1;
      NothingDoomed(parent, limit, threads[..last], c);
      assert ValidPc(parent, threads[last]) && PcSafe(parent, limit, threads[last]);
    }
  }

  /** Without nested limits, whatever the interleaving: an attempt is refused only for bytes that stay. */
  lemma NobodyCrowdedOut(n: nat, rootLimit: int, events: seq<Event>, t: nat, more: bool)
    requires var s := Run(Start(n, rootLimit), events); !Nested(s.parent, s.limit)
    ensures !CrowdedOut(Run(Start(n, rootLimit), events), t, more)
  {
    var s := Run(Start(n, rootLimit), events);
    RunSafe(n, rootLimit, events);
    if CrowdedOut(s, t, more) {
      var pc := s.threads[t];
      assert PcSafe(s.parent, s.limit, pc);
      var c := Path(s.parent, pc.x)[pc.k - 1];
      hide Path, Run, Doomed;
      NothingDoomed(s.parent, s.limit, s.threads, c);
    }
  }

  /** More than that: an attempt that holds bytes at a limit has passed the only one on its path, and nothing can
      refuse it any more. */
  lemma HoldersSucceed(s: State, t: nat, more: bool, i: nat)
    requires Shape(s) && !Nested(s.parent, s.limit) && t < |s.threads| && s.threads[t].Trying?
    requires ValidPc(s.parent, s.threads[t]) && s.threads[t].k <= i < |Path(s.parent, s.threads[t].x)|
    requires s.limit[Path(s.parent, s.threads[t].x)[i]] >= 0
    ensures
      var pc, s' := s.threads[t], AdvanceThread(s, t, more);
      s' == if pc.k > 0 then Move(s, t, Trying(pc.x, pc.b, pc.k - 1, false), Path(s.parent, pc.x)[pc.k - 1], pc.b)
            else Finish(s, t, pc.x, pc.b)
  {
    var pc := s.threads[t];
    if pc.k > 0 && s.limit[Path(s.parent, pc.x)[pc.k - 1]] >= 0 {
      hide Path;
      NoneAbove(s.parent, s.limit, pc.x, pc.k - 1, i);
    }
  }

  // ----- with nested limits

  /** The tree with nothing consumed and n idle threads. */
  function Empty(n: nat, parent: seq<int>, limit: seq<int>): State {
    State(parent, limit, seq(|parent|, _ => 0), seq(|parent|, _ => 0), seq(n, _ => Idle))
  }

  ghost predicate Leads(n: nat, rootLimit: int, events: seq<Event>, s: State) {
    Shape(s) && Run(Start(n, rootLimit), events) == s
  }

  lemma EmptyGrows(n: nat, parent: seq<int>, limit: seq<int>, m: nat)
    requires Tree(parent) && |limit| == |parent| && 1 < m <= |parent| && Shape(Empty(n, parent[..m - 1], limit[..m - 1]))
    ensures parent[m - 1] >= 0
    ensures Step(Empty(n, parent[..m - 1], limit[..m - 1]), Create(parent[m - 1], limit[m - 1])) == Empty(n, parent[..m], limit[..m])
  {
    hide AdvanceThread, Path;
  }

  /** Any tree can be made. */
  lemma {:induction false} BuildTree(n: nat, parent: seq<int>, limit: seq<int>, m: nat) returns (events: seq<Event>)
    requires Tree(parent) && |limit| == |parent| && 0 < m <= |parent|
    ensures Leads(n, limit[0], events, Empty(n, parent[..m], limit[..m]))
  {
    if m == 1 {
      events := [];
      assert Empty(n, parent[..1], limit[..1]) == Start(n, limit[0]);
    } else {
      events := BuildTree(n, parent, limit, m - 1);
      hide Run, Step, Empty, Start;
      EmptyGrows(n, parent, limit, m);
      var s': State;
      events, s' := Extend(n, limit[0], events, Empty(n, parent[..m - 1], limit[..m - 1]), Create(parent[m - 1], limit[m - 1]));
    }
  }

  /** Thread t goes up the path from position k on and finishes. */
  lemma {:induction false} AddWalk(n: nat, r: int, events: seq<Event>, s: State, t: nat, x: nat, v: int, k: nat)
    returns (longer: seq<Event>, s': State)
    requires Leads(n, r, events, s) && t < |s.threads| && s.threads[t] == Adding(x, v, k)
    requires x < |s.parent| && k <= |Path(s.parent, x)|
    ensures Leads(n, r, longer, s') && s'.parent == s.parent && s'.limit == s.limit && s'.threads == s.threads[t := Idle]
    ensures |s'.current| == |s.current|
    ensures forall c: nat :: c < |s.current| ==>
      s'.current[c] == s.current[c] + Amount(Covers(Path(s.parent, x), k, |Path(s.parent, x)|, c), v)
    decreases |Path(s.parent, x)| - k
  {
    var path := Path(s.parent, x);
    hide Run, Path, Covers;
    longer, s' := Extend(n, r, events, s, Advance(t, false));
    if k < |path| {
      var s1 := s';
      longer, s' := AddWalk(n, r, longer, s1, t, x, v, k + 1);
      forall c: nat | c < |s.current| ensures s'.current[c] == s.current[c] + Amount(Covers(path, k, |path|, c), v) {
        CoversDown(path, k + 1, |path|, c);
      }
      assert s'.threads == s.threads[t := Idle];
    } else {
      forall c: nat | c < |s.current| ensures !Covers(path, k, |path|, c) {
        CoversAll(path, c);
      }
    }
  }

  /** One position of the walk: one step without a limit, two with. */
  lemma TakeOne(n: nat, r: int, events: seq<Event>, s: State, t: nat, x: nat, b: int, k: nat)
    returns (longer: seq<Event>, s': State)
    requires Leads(n, r, events, s) && t < |s.threads| && s.threads[t] == Trying(x, b, k, false)
    requires x < |s.parent| && b > 0 && 0 < k <= |Path(s.parent, x)| && Fits(s, Path(s.parent, x), k - 1, b)
    ensures Leads(n, r, longer, s')
    ensures s' == Move(s, t, Trying(x, b, k - 1, false), Path(s.parent, x)[k - 1], b)
  {
    hide Run, Path;
    var c := Path(s.parent, x)[k - 1];
    longer, s' := Extend(n, r, events, s, Advance(t, false));
    if s.limit[c] >= 0 {
      assert s' == Goto(s, t, TryCas(x, b, k, false, s.current[c]));
      var s1 := s';
      longer, s' := Extend(n, r, longer, s1, Advance(t, false));
      assert s1.threads[t := Trying(x, b, k - 1, false)] == s.threads[t := Trying(x, b, k - 1, false)];
    }
  }

  lemma MoveIs(s: State, t: nat, pc: Pc, c: nat, d: int)
    requires t < |s.threads| && c < |s.current|
    ensures
      var s' := Move(s, t, pc, c, d);
      && s'.parent == s.parent && s'.limit == s.limit && s'.threads == s.threads[t := pc] && |s'.current| == |s.current|
      && forall i :: 0 <= i < |s.current| ==> s'.current[i] == s.current[i] + if i == c then d else 0
  {
  }

  /** Thread t takes its bytes from position k down to position lo. */
  lemma {:induction false} TryWalk(n: nat, r: int, events: seq<Event>, s: State, t: nat, x: nat, b: int, k: nat, lo: nat)
    returns (longer: seq<Event>, s': State)
    requires Leads(n, r, events, s) && t < |s.threads| && s.threads[t] == Trying(x, b, k, false)
    requires x < |s.parent| && b > 0 && lo <= k <= |Path(s.parent, x)|
    requires forall i :: lo <= i < k ==> Fits(s, Path(s.parent, x), i, b)
    ensures Leads(n, r, longer, s') && s'.parent == s.parent && s'.limit == s.limit
    ensures s'.threads == s.threads[t := Trying(x, b, lo, false)] && |s'.current| == |s.current|
    ensures forall c: nat :: c < |s.current| ==>
      s'.current[c] == s.current[c] + Amount(Covers(Path(s.parent, x), lo, k, c), b)
    decreases k - lo
  {
    var path := Path(s.parent, x);
    hide Run, Path;
    if k == lo {
      longer, s' := events, s;
    } else {
      var s1: State;
      longer, s1 := TakeOne(n, r, events, s, t, x, b, k);
      MoveIs(s, t, Trying(x, b, k - 1, false), path[k - 1], b);
      hide Covers, Move;
      forall i | lo <= i < k - 1 ensures Fits(s1, path, i, b) {
        assert Fits(s, path, i, b);
      }
      longer, s' := TryWalk(n, r, longer, s1, t, x, b, k - 1, lo);
      forall c: nat | c < |s.current| ensures s'.current[c] == s.current[c] + Amount(Covers(path, lo, k, c), b) {
        CoversUp(path, lo, k - 1, c);
      }
    }
  }

  lemma {:induction false} TopLimit(parent: seq<int>, limit: seq<int>, x: nat, i: nat) returns (m: nat)
    requires Tree(parent) && |limit| == |parent| && x < |parent|
    requires i < |Path(parent, x)| && limit[Path(parent, x)[i]] >= 0
    ensures i <= m < |Path(parent, x)| && limit[Path(parent, x)[m]] >= 0
    ensures forall j :: m < j < |Path(parent, x)| ==> limit[Path(parent, x)[j]] < 0
    decreases |Path(parent, x)| - i
  {
    var path := Path(parent, x);
    hide Path;
    m := i;
    for j := i + 1 to |path|
      invariant i <= m < j && limit[path[m]] >= 0
      invariant forall l :: m < l < j ==> limit[path[l]] < 0
    {
      if limit[path[j]] >= 0 {
        m := j;
      }
    }
  }

  lemma WholeTree(n: nat, parent: seq<int>, limit: seq<int>) returns (events: seq<Event>)
    requires Tree(parent) && |limit| == |parent|
    ensures Leads(n, limit[0], events, Empty(n, parent, limit))
  {
    assert parent[..|parent|] == parent && limit[..|limit|] == limit;
    hide Run, Leads;
    events := BuildTree(n, parent, limit, |parent|);
  }

  /** The ancestors of x, and nobody else, are d bytes below zero. */
  lemma Drained(n: nat, parent: seq<int>, limit: seq<int>, x: nat, d: int) returns (events: seq<Event>, s: State)
    requires n >= 2 && Tree(parent) && |limit| == |parent| && 0 < x < |parent| && d > 0
    ensures Leads(n, limit[0], events, s) && s.parent == parent && s.limit == limit && s.threads == seq(n, _ => Idle)
    ensures |s.current| == |parent|
    ensures forall c: nat :: c < |parent| ==> s.current[c] == Amount(c in Path(parent, parent[x]), -d)
  {
    events := WholeTree(n, parent, limit);
    var empty := Empty(n, parent, limit);
    hide Run, Path, Covers, AdvanceThread;
    events, s := Extend(n, limit[0], events, empty, Release(0, parent[x], d));
    var s1 := s;
    assert s1 == Goto(empty, 0, Adding(parent[x], -d, 0));
    events, s := AddWalk(n, limit[0], events, s1, 0, parent[x], -d, 0);
    forall c: nat | c < |parent| ensures s.current[c] == Amount(c in Path(parent, parent[x]), -d) {
      CoversAll(Path(parent, parent[x]), c);
    }
  }

  lemma AncestorsOf(parent: seq<int>, x: nat, c: nat)
    requires Tree(parent) && 0 < x < |parent|
    ensures Covers(Path(parent, x), 1, |Path(parent, x)|, c) <==> c in Path(parent, parent[x])
    ensures x !in Path(parent, parent[x])
  {
    var path, up := Path(parent, x), Path(parent, parent[x]);
    assert path == [x] + up;
    hide Path;
    if c in up {
      var i :| 0 <= i < |up| && up[i] == c;
      assert path[i + 1] == c;
    }
  }

  /** Thread 0 asks at x for one byte more than the limit of x: all ancestors have granted it, x refuses, and it is all
      to be taken back. */
  lemma Doom(n: nat, parent: seq<int>, limit: seq<int>, x: nat) returns (events: seq<Event>, s: State)
    requires n >= 2 && Tree(parent) && |limit| == |parent| && 0 < x < |parent| && limit[x] >= 0
    ensures Leads(n, limit[0], events, s) && s.parent == parent && s.limit == limit
    ensures s.threads == seq(n, _ => Idle)[0 := Undoing(x, limit[x] + 1, 1, |Path(parent, x)|)]
    ensures forall c: nat :: c < |parent| ==> s.current[c] == 0
  {
    var b := limit[x] + 1;
    var path := Path(parent, x);
    events, s := Drained(n, parent, limit, x, b);
    hide Run, Path;
    var s1 := s;
    events, s := Extend(n, limit[0], events, s1, TryConsume(0, x, b));
    assert s == Goto(s1, 0, Trying(x, b, |path|, false));
    hide Covers;
    forall i | 1 <= i < |path| ensures Fits(s, path, i, b) {
      FitsBelowZero(parent, x, i);
    }
    var s2 := s;
    events, s := TryWalk(n, limit[0], events, s2, 0, x, b, |path|, 1);
    forall c: nat | c < |parent| ensures s.current[c] == 0 {
      AncestorsOf(parent, x, c);
    }
    var s3 := s;
    events, s := Extend(n, limit[0], events, s3, Advance(0, false));
    assert s == Goto(s3, 0, Undoing(x, b, 1, |path|));
    assert s.threads == seq(n, _ => Idle)[0 := Undoing(x, b, 1, |path|)];
  }

  lemma FitsBelowZero(parent: seq<int>, x: nat, i: nat)
    requires Tree(parent) && 0 < x < |parent| && 1 <= i < |Path(parent, x)|
    ensures Path(parent, x)[i] in Path(parent, parent[x])
  {
    assert Path(parent, x)[i] == Path(parent, parent[x])[i - 1];
  }

  /** Thread 1 asks at a, the topmost ancestor with a limit, and comes to the point where a refuses. */
  lemma Bystander(n: nat, r: int, before: seq<Event>, s: State, a: nat) returns (events: seq<Event>, s': State)
    requires Leads(n, r, before, s) && |s.threads| > 1 && s.threads[1] == Idle && a < |s.parent| && s.limit[a] >= 0
    requires forall j :: 0 < j < |Path(s.parent, a)| ==> s.limit[Path(s.parent, a)[j]] < 0
    requires s.current[a] == 0
    ensures Leads(n, r, events, s') && s'.parent == s.parent && s'.limit == s.limit && |s'.current| == |s.current|
    ensures s'.threads == s.threads[1 := Trying(a, s.limit[a] + 1, 1, false)] && s'.current[a] == 0
  {
    var b := s.limit[a] + 1;
    var path := Path(s.parent, a);
    hide Run, Path;
    events, s' := Extend(n, r, before, s, TryConsume(1, a, b));
    var s1 := s';
    assert s1 == Goto(s, 1, Trying(a, b, |path|, false));
    forall i | 1 <= i < |path| ensures Fits(s1, path, i, b) {
    }
    events, s' := TryWalk(n, r, events, s1, 1, a, b, |path|, 1);
    assert !Covers(path, 1, |path|, a);
    assert s'.threads == s.threads[1 := Trying(a, b, 1, false)];
  }

  lemma {:induction false} OneDoomed(parent: seq<int>, threads: seq<Pc>, c: nat)
    requires Threads(parent, threads) && |threads| > 0 && threads[0].Undoing?
    requires forall t :: 0 < t < |threads| ==> !threads[t].Undoing?
    ensures ValidPc(parent, threads[0]) && Doomed(parent, threads, c) == Share(parent, threads[0], c)
  {
    if |threads| > 1 {
      OneDoomed(parent, threads[..|threads| - 1], c);
    } else {
      assert Doomed(parent, threads[..0], c) == 0;
    }
  }

  lemma RefusedFor(s: State, x: nat, a: nat, m: nat)
    requires Shape(s) && |s.threads| > 1 && x < |s.parent| && 0 < m < |Path(s.parent, x)| && a == Path(s.parent, x)[m]
    requires a < |s.parent| && s.limit[x] >= 0 && s.limit[a] >= 0 && s.current[a] == 0
    requires s.threads[0] == Undoing(x, s.limit[x] + 1, 1, |Path(s.parent, x)|)
    requires s.threads[1] == Trying(a, s.limit[a] + 1, 1, false)
    requires forall t :: 0 < t < |s.threads| ==> !s.threads[t].Undoing?
    ensures CrowdedOut(s, 1, false)
  {
    assert ValidPc(s.parent, s.threads[1]) && Path(s.parent, a)[0] == a;
    OneDoomed(s.parent, s.threads, a);
    hide Path, Doomed;
    assert Covers(Path(s.parent, x), 1, |Path(s.parent, x)|, a);
  }

  /** A nested limit admits a run in which one attempt crowds out another. */
  lemma NestingCrowds(n: nat, parent: seq<int>, limit: seq<int>, x: nat, i: nat) returns (events: seq<Event>, s: State)
    requires n >= 2 && Tree(parent) && |limit| == |parent| && NestedAt(parent, limit, x, i)
    ensures Leads(n, limit[0], events, s) && s.parent == parent && s.limit == limit && CrowdedOut(s, 1, false)
  {
    var m := TopLimit(parent, limit, x, i);
    var path := Path(parent, x);
    PathSuffix(parent, x, m);
    assert x > 0;
    hide Path, Run, CrowdedOut;
    var a := path[m];
    events, s := Doom(n, parent, limit, x);
    var s1 := s;
    forall j | 0 < j < |Path(parent, a)| ensures limit[Path(parent, a)[j]] < 0 {
      assert path[m..][j] == path[m + j];
    }
    events, s := Bystander(n, limit[0], events, s1, a);
    RefusedFor(s, x, a, m);
  }

  ghost predicate CrowdingRun(n: nat, parent: seq<int>, limit: seq<int>, events: seq<Event>)
    requires |limit| > 0
  {
    var s := Run(Start(n, limit[0]), events);
    s.parent == parent && s.limit == limit && exists t: nat, more: bool :: CrowdedOut(s, t, more)
  }

  /** For two threads or more and any tree: some run of it has an attempt crowded out exactly if limits are nested. */
  lemma CrowdingIffNested(n: nat, parent: seq<int>, limit: seq<int>)
    requires n >= 2 && Tree(parent) && |limit| == |parent|
    ensures (exists events :: CrowdingRun(n, parent, limit, events)) <==> Nested(parent, limit)
  {
    if Nested(parent, limit) {
      var x: nat, i: nat :| NestedAt(parent, limit, x, i);
      var events, s := NestingCrowds(n, parent, limit, x, i);
      hide CrowdedOut, Run;
      assert CrowdingRun(n, parent, limit, events);
    } else {
      forall events ensures !CrowdingRun(n, parent, limit, events) {
        var s := Run(Start(n, limit[0]), events);
        if CrowdingRun(n, parent, limit, events) {
          var t: nat, more: bool :| CrowdedOut(s, t, more);
          hide CrowdedOut, Nested, Run;
          NobodyCrowdedOut(n, limit[0], events, t, more);
        }
      }
    }
  }

  // ----- both orders, for one family

  /** The root with limit 10, a child 1 with limit 0 and a child 2 without limit; two threads. */
  function Family(root: int, two: int, settled: int, t0: Pc, t1: Pc): State {
    State([-1, 0, 0], [10, 0, -1], [root, 0, two], [0, 0, settled], [t0, t1])
  }

  lemma MakeFamily() returns (events: seq<Event>, s: State)
    ensures Shape(s) && s == Family(0, 0, 0, Idle, Idle) && Run(Start(2, 10), events) == s
    ensures events == [Create(0, 0), Create(0, -1)]
  {
    s := Start(2, 10);
    events := [];
    events, s := Extend(2, 10, events, s, Create(0, 0));
    events, s := Extend(2, 10, events, s, Create(0, -1));
  }

  lemma FamilyPaths(parent: seq<int>)
    requires Tree(parent) && parent == [-1, 0, 0]
    ensures Path(parent, 0) == [0] && Path(parent, 1) == [1, 0] && Path(parent, 2) == [2, 0]
  {
  }

  /** Append one event to a run of the family. */
  lemma Next(events: seq<Event>, s: State, e: Event, expected: State) returns (longer: seq<Event>, s': State)
    requires Shape(s) && Run(Start(2, 10), events) == s && Step(s, e) == expected
    ensures Shape(s') && Run(Start(2, 10), longer) == s' && s' == expected
    ensures longer == events + [e]
  {
    longer, s' := Extend(2, 10, events, s, e);
  }

  /** Thread 0 asks for 6 bytes at child 1: the root grants them, the child refuses, and the rollback is due. */
  lemma HalfAttempt(events: seq<Event>, s: State) returns (longer: seq<Event>, s': State)
    requires Shape(s) && s == Family(0, 0, 0, Idle, Idle) && Run(Start(2, 10), events) == s
    ensures Shape(s') && Run(Start(2, 10), longer) == s' && s' == Family(6, 0, 0, Undoing(1, 6, 1, 2), Idle)
    ensures longer == events + [TryConsume(0, 1, 6), Advance(0, false), Advance(0, false), Advance(0, false)]
  {
    FamilyPaths(s.parent);
    hide Run, Path;
    longer, s' := Next(events, s, TryConsume(0, 1, 6), Family(0, 0, 0, Trying(1, 6, 2, false), Idle));
    longer, s' := Next(longer, s', Advance(0, false), Family(0, 0, 0, TryCas(1, 6, 2, false, 0), Idle));
    longer, s' := Next(longer, s', Advance(0, false), Family(6, 0, 0, Trying(1, 6, 1, false), Idle));
    longer, s' := Next(longer, s', Advance(0, false), Family(6, 0, 0, Undoing(1, 6, 1, 2), Idle));
  }

  /** ...and its rollback. */
  lemma Rollback(events: seq<Event>, s: State) returns (longer: seq<Event>, s': State)
    requires Shape(s) && s == Family(6, 0, 0, Undoing(1, 6, 1, 2), Idle) && Run(Start(2, 10), events) == s
    ensures Shape(s') && Run(Start(2, 10), longer) == s' && s' == Family(0, 0, 0, Idle, Idle)
    ensures longer == events + [Advance(0, false), Advance(0, false)]
  {
    FamilyPaths(s.parent);
    hide Run, Path;
    longer, s' := Next(events, s, Advance(0, false), Family(0, 0, 0, Undoing(1, 6, 1, 1), Idle));
    longer, s' := Next(longer, s', Advance(0, false), Family(0, 0, 0, Idle, Idle));
  }

  /** Thread 1 asks for 5 bytes at child 2 while the root holds 6 bytes that are about to be taken back. */
  lemma Refused(events: seq<Event>, s: State) returns (longer: seq<Event>, s': State)
    requires Shape(s) && s == Family(6, 0, 0, Undoing(1, 6, 1, 2), Idle) && Run(Start(2, 10), events) == s
    ensures Shape(s') && Run(Start(2, 10), longer) == s' && s' == s
    ensures longer == events + [TryConsume(1, 2, 5), Advance(1, false), Advance(1, false), Advance(1, false)]
  {
    FamilyPaths(s.parent);
    hide Run, Path;
    var pc := Undoing(1, 6, 1, 2);
    longer, s' := Next(events, s, TryConsume(1, 2, 5), Family(6, 0, 0, pc, Trying(2, 5, 2, false)));
    longer, s' := Next(longer, s', Advance(1, false), Family(6, 0, 0, pc, Collecting(2, 5, 2)));
    longer, s' := Next(longer, s', Advance(1, false), Family(6, 0, 0, pc, Undoing(2, 5, 2, 2)));
    longer, s' := Next(longer, s', Advance(1, false), Family(6, 0, 0, pc, Idle));
  }

  /** The same attempt when the root is empty. */
  lemma Granted(events: seq<Event>, s: State) returns (longer: seq<Event>, s': State)
    requires Shape(s) && s == Family(0, 0, 0, Idle, Idle) && Run(Start(2, 10), events) == s
    ensures Shape(s') && Run(Start(2, 10), longer) == s' && s' == Family(5, 5, 5, Idle, Idle)
    ensures longer == events + [TryConsume(1, 2, 5), Advance(1, false), Advance(1, false), Advance(1, false), Advance(1, false)]
  {
    FamilyPaths(s.parent);
    hide Run, Path;
    longer, s' := Next(events, s, TryConsume(1, 2, 5), Family(0, 0, 0, Idle, Trying(2, 5, 2, false)));
    longer, s' := Next(longer, s', Advance(1, false), Family(0, 0, 0, Idle, TryCas(2, 5, 2, false, 0)));
    longer, s' := Next(longer, s', Advance(1, false), Family(5, 0, 0, Idle, Trying(2, 5, 1, false)));
    longer, s' := Next(longer, s', Advance(1, false), Family(5, 5, 0, Idle, Trying(2, 5, 0, false)));
    longer, s' := Next(longer, s', Advance(1, false), Family(5, 5, 5, Idle, Idle));
  }

  /** The attempt of thread 0 when the root already holds 5 bytes. */
  lemma Outbid(events: seq<Event>, s: State) returns (longer: seq<Event>, s': State)
    requires Shape(s) && s == Family(5, 5, 5, Idle, Idle) && Run(Start(2, 10), events) == s
    ensures Shape(s') && Run(Start(2, 10), longer) == s' && s' == s
    ensures longer == events + [TryConsume(0, 1, 6), Advance(0, false), Advance(0, false), Advance(0, false)]
  {
    FamilyPaths(s.parent);
    hide Run, Path;
    longer, s' := Next(events, s, TryConsume(0, 1, 6), Family(5, 5, 5, Trying(1, 6, 2, false), Idle));
    longer, s' := Next(longer, s', Advance(0, false), Family(5, 5, 5, Collecting(1, 6, 2), Idle));
    longer, s' := Next(longer, s', Advance(0, false), Family(5, 5, 5, Undoing(1, 6, 2, 2), Idle));
    longer, s' := Next(longer, s', Advance(0, false), Family(5, 5, 5, Idle, Idle));
  }

  /** Two children of the root; then thread 0 asks for 6 bytes at child 1, thread 1 for 5 bytes at child 2. */
  function Overlapping(): seq<Event> {
    [Create(0, 0), Create(0, -1)]
    + [TryConsume(0, 1, 6), Advance(0, false), Advance(0, false), Advance(0, false)]
    + [TryConsume(1, 2, 5), Advance(1, false), Advance(1, false), Advance(1, false)]
    + [Advance(0, false), Advance(0, false)]
  }

  function FirstThenSecond(): seq<Event> {
    [Create(0, 0), Create(0, -1)]
    + [TryConsume(0, 1, 6), Advance(0, false), Advance(0, false), Advance(0, false)] + [Advance(0, false), Advance(0, false)]
    + [TryConsume(1, 2, 5), Advance(1, false), Advance(1, false), Advance(1, false), Advance(1, false)]
  }

  function SecondThenFirst(): seq<Event> {
    [Create(0, 0), Create(0, -1)]
    + [TryConsume(1, 2, 5), Advance(1, false), Advance(1, false), Advance(1, false), Advance(1, false)]
    + [TryConsume(0, 1, 6), Advance(0, false), Advance(0, false), Advance(0, false)]
  }

  /** Two attempts that overlap can both fail where either order of running them one after the other grants one:
      the bytes of a doomed attempt, taken at the root before its child refuses, crowd out another. */
  lemma AttemptsAreNotAtomic()
    ensures Run(Start(2, 10), Overlapping()) == Family(0, 0, 0, Idle, Idle)
    ensures Run(Start(2, 10), FirstThenSecond()) == Family(5, 5, 5, Idle, Idle)
    ensures Run(Start(2, 10), SecondThenFirst()) == Family(5, 5, 5, Idle, Idle)
  {
    hide Run;
    var events, s := MakeFamily();
    var overlapping, s' := HalfAttempt(events, s);
    overlapping, s' := Refused(overlapping, s');
    overlapping, s' := Rollback(overlapping, s');
    assert overlapping == Overlapping();
    var first, s1 := HalfAttempt(events, s);
    first, s1 := Rollback(first, s1);
    first, s1 := Granted(first, s1);
    assert first == FirstThenSecond();
    var second, s2 := Granted(events, s);
    second, s2 := Outbid(second, s2);
    assert second == SecondThenFirst();
  }
}
