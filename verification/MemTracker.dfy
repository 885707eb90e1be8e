/** The tracker tree of base/mem_tracker.cc for one thread: objects that are updated in place, with GC callbacks that
may call back into any tracker of the tree.

The build is the one without tcmalloc, so no tracker has a consumption function. `own` is the history of a tracker:
the bytes consumed less the bytes released by calls on that tracker itself.
*/
module MemTracking {

  const INT64_MAX: int := 0x7fff_ffff_ffff_ffff
  const TWO_TO_64: int := 0x1_0000_0000_0000_0000

  /** Bytes consumed (or released, when negative) by a call on one tracker. */
  datatype Posting = Posting(tracker: MemTracker, bytes: int)

  /** A callback is user code; what a call of it does is not known in advance. */
  datatype GcFunction = GcFunction(id: nat)

  /** A call of a callback, and the consumption of all trackers after it. */
  datatype GcCall = GcCall(f: GcFunction, current: map<MemTracker, int>)

  class MemTracker {
    const limit: int
    const parent: MemTracker?
    ghost const depth: nat
    const tree: TrackerTree

    var current: int                        // the HighWaterMark: current value...
    var peak: int                           // ...and maximum
    var allTrackers: seq<MemTracker>
    var limitTrackers: seq<MemTracker>
    var children: seq<MemTracker>
    var gcFunctions: seq<GcFunction>
    ghost var own: int

    constructor (tree: TrackerTree, limit: int, parent: MemTracker?)
      ensures this.tree == tree && this.limit == limit && this.parent == parent
      ensures depth == (if parent == null then 0 else parent.depth + 1)
      ensures current == 0 && peak == 0 && own == 0 && children == [] && gcFunctions == []
      ensures allTrackers == [] && limitTrackers == []
    {
      this.tree, this.limit, this.parent := tree, limit, parent;
      depth := if parent == null then 0 else parent.depth + 1;
      current, peak, own := 0, 0, 0;
      allTrackers, limitTrackers, children, gcFunctions := [], [], [], [];
    }

    /** Fills all_trackers_ and limit_trackers_ by following the parent pointers. */
    method Init()
      requires allTrackers == [] && limitTrackers == []
      requires parent != null ==> tree.PathOk(parent) && tree.root.parent == null && parent != this
      modifies `allTrackers, `limitTrackers
      ensures allTrackers == [this] + (if parent == null then [] else parent.allTrackers)
      ensures tree.LimitsOk(this)
    {
      var tracker: MemTracker? := this;
      ghost var above := if parent == null then [] else parent.allTrackers;
      while tracker != null
        invariant parent != null ==> parent.allTrackers == above
        invariant |allTrackers| <= |above| + 1
        invariant allTrackers == ([this] + above)[..|allTrackers|]
        invariant tracker == if |allTrackers| <= |above| then ([this] + above)[|allTrackers|] else null
        invariant tree.LimitsOk(this)
        decreases |above| + 1 - |allTrackers|
      {
        allTrackers := allTrackers + [tracker];
        if tracker.limit >= 0 {
          limitTrackers := limitTrackers + [tracker];
        }
        tracker := tracker.parent;
      }
      assert ([this] + above)[..|above| + 1] == [this] + above;
    }

    method AddGcFunction(f: GcFunction)
      modifies `gcFunctions
      ensures gcFunctions == old(gcFunctions) + [f]
    {
      gcFunctions := gcFunctions + [f];
    }

    /** HighWaterMark::IncrementBy. */
    method IncrementBy(amount: int)
      modifies `current, `peak
      ensures current == old(current) + amount
      ensures peak == (if old(peak) < current then current else old(peak))
      ensures this in tree.live ==> MovedBy(old(tree.Figures()), tree.Figures(), this, amount)
    {
      ghost var b := tree.Figures();
      FiguresAre(tree);
      current := current + amount;
      if peak < current {
        peak := current;
      }
      if this in tree.live {
        FiguresMoved(tree, b, this, amount);
      }
    }

    /** HighWaterMark::TryIncrementBy. */
    method TryIncrementBy(delta: int, max: int) returns (ok: bool)
      modifies `current, `peak
      ensures ok <==> old(current) + delta <= max
      ensures current == old(current) + (if ok then delta else 0)
      ensures peak == (if ok && old(peak) < current then current else old(peak))
      ensures this in tree.live ==> MovedBy(old(tree.Figures()), tree.Figures(), this, if ok then delta else 0)
    {
      FiguresAre(tree);
      hide TrackerTree.Figures;
      if current + delta > max {
        return false;
      }
      IncrementBy(delta);
      return true;
    }

    /** The loop of Consume and Release: the tracker and all its ancestors move by the same amount. */
    method AddAlongPath(amount: int)
      requires tree.Shape() && this in tree.live
      modifies tree.live`current, tree.live`peak
      ensures forall t :: t in tree.live ==> t.current == old(t.current) + Hit(OnPath(t, this), amount)
      ensures Partial(old(tree.Figures()), tree.Figures(), [], allTrackers, amount)
    {
      ghost var b0 := tree.Figures();
      FiguresAre(tree);
      PartialStart(tree);
      hide *;
      assert allTrackers[0..0] == [];
      for i := 0 to |allTrackers|
        invariant Partial(b0, tree.Figures(), [], allTrackers[0..i], amount)
      {
        LastOfSlice(tree, this, 0, i);
        allTrackers[i].MoveNext(amount, b0, allTrackers[0..i]);
      }
      assert allTrackers[0..|allTrackers|] == allTrackers;
      PathMoved(tree, this, b0, amount);
    }

    /** One round of that loop. */
    method MoveNext(amount: int, ghost b0: Books, ghost moved: seq<MemTracker>)
      requires this in tree.live && this !in moved && Partial(b0, tree.Figures(), [], moved, amount)
      modifies `current, `peak
      ensures Partial(b0, tree.Figures(), [], moved + [this], amount)
    {
      hide Partial;
      ghost var b := tree.Figures();
      IncrementBy(amount);
      PartialMove(b0, b, [], moved, this, amount);
    }

    method ConsumeBytes(bytes: int)
      requires tree.Shape() && this in tree.live && bytes >= 0
      modifies tree.live`current, tree.live`peak, tree.live`own
      ensures Posted(old(tree.Figures()), tree.Figures(), [Posting(this, bytes)])
      ensures old(tree.Valid()) ==> tree.Valid()
    {
      hide *;
      ghost var b := tree.Figures();
      ValidIsBalanced(tree);
      if bytes != 0 {
        AddAlongPath(bytes);
      } else {
        PartialOfNothing(tree, allTrackers);
      }
      Settle(bytes, b, []);
      assert [] + [Posting(this, bytes)] == [Posting(this, bytes)];
    }

    method ReleaseBytes(bytes: int)
      requires tree.Shape() && this in tree.live && bytes >= 0
      modifies tree.live`current, tree.live`peak, tree.live`own
      ensures Posted(old(tree.Figures()), tree.Figures(), [Posting(this, -bytes)])
      ensures old(tree.Valid()) ==> tree.Valid()
    {
      hide *;
      ghost var b := tree.Figures();
      ValidIsBalanced(tree);
      if bytes != 0 {
        AddAlongPath(-bytes);
      } else {
        PartialOfNothing(tree, allTrackers);
      }
      Settle(-bytes, b, []);
      assert [] + [Posting(this, -bytes)] == [Posting(this, -bytes)];
    }

    /** Counts for the tracker and all its ancestors; a negative amount is a release. */
    method Consume(bytes: int)
      requires tree.Shape() && this in tree.live
      modifies tree.live`current, tree.live`peak, tree.live`own
      ensures Posted(old(tree.Figures()), tree.Figures(), [Posting(this, bytes)])
      ensures old(tree.Valid()) ==> tree.Valid()
    {
      hide *;
      if bytes < 0 {
        ReleaseBytes(-bytes);
      } else {
        ConsumeBytes(bytes);
      }
    }

    method Release(bytes: int)
      requires tree.Shape() && this in tree.live
      modifies tree.live`current, tree.live`peak, tree.live`own
      ensures Posted(old(tree.Figures()), tree.Figures(), [Posting(this, -bytes)])
      ensures old(tree.Valid()) ==> tree.Valid()
    {
      hide *;
      if bytes < 0 {
        ConsumeBytes(-bytes);
      } else {
        ReleaseBytes(bytes);
      }
    }

    /** GcMemory: true if the tracker still holds more than maxConsumption. The comparison before the callbacks is
        made on the consumption read as an unsigned number. */
    method GcMemory(maxConsumption: int) returns (exceeded: bool, ghost log: seq<Posting>)
      requires tree.Shape() && this in tree.live
      modifies tree.live`current, tree.live`peak, tree.live`own, tree`gcCalls
      ensures Posted(old(tree.Figures()), tree.Figures(), log)
      ensures exceeded <==> maxConsumption < 0 || current > maxConsumption
      ensures gcFunctions == [] || NothingToCollect(old(current), maxConsumption) ==> log == [] && current == old(current)
      ensures if NothingToCollect(old(current), maxConsumption) then tree.gcCalls == old(tree.gcCalls)
              else Collected(this, old(tree.gcCalls), tree.gcCalls, maxConsumption)
      ensures exceeded && maxConsumption >= 0 ==> |tree.gcCalls| == |old(tree.gcCalls)| + |gcFunctions|
    {
      hide TrackerTree.Shape, TrackerTree.Figures, Posted, NotEnough, UpToGoal, Collected;
      log := [];
      FiguresAre(tree);
      PostedNothing(tree.Figures());
      if maxConsumption < 0 {
        return true, log;
      }
      if Unsigned(current) < maxConsumption {
        return false, log;
      }
      ghost var b0, calls, ran := tree.Figures(), tree.gcCalls, [];
      NothingRan(this, gcFunctions, maxConsumption);
      for i := 0 to |gcFunctions|
        invariant Posted(b0, tree.Figures(), log)
        invariant i == 0 ==> log == [] && current == old(current)
        invariant tree.gcCalls == calls + ran && |ran| == i && NotEnough(this, gcFunctions, ran, maxConsumption)
        invariant i == |gcFunctions| ==> UpToGoal(this, gcFunctions, ran, maxConsumption)
      {
        ghost var b, soFar := tree.Figures(), ran;
        ghost var more := tree.CallGcFunction(gcFunctions[i]);
        ran := ran + [GcCall(gcFunctions[i], tree.Figures().current)];
        PostedThenPosted(b0, b, tree.Figures(), log, more);
        log := log + more;
        assert tree.gcCalls == calls + ran;
        OneMoreCall(tree, this, gcFunctions, soFar, maxConsumption);
        if current <= maxConsumption {
          break;
        }
      }
      CollectedSo(this, calls, ran, maxConsumption);
      exceeded := current > maxConsumption;
    }

    /** True exactly if the tracker has a limit and is above it once the callbacks have had their turn. */
    method LimitExceeded() returns (exceeded: bool, ghost log: seq<Posting>)
      requires tree.Shape() && this in tree.live
      modifies tree.live`current, tree.live`peak, tree.live`own, tree`gcCalls
      ensures exceeded <==> 0 <= limit < current
      ensures Posted(old(tree.Figures()), tree.Figures(), log)
      ensures if old(current) <= limit || limit < 0 then log == [] && tree.gcCalls == old(tree.gcCalls)
              else Collected(this, old(tree.gcCalls), tree.gcCalls, limit)
    {
      hide TrackerTree.Shape, Posted;
      if limit >= 0 && limit < current {
        exceeded, log := GcMemory(limit);
      } else {
        exceeded, log := false, [];
        PostedNothing(tree.Figures());
      }
    }

    /** The least room left at the trackers with a limit. */
    method SpareCapacity() returns (result: int)
      requires tree.Shape() && this in tree.live
      ensures result == MinSpare(limitTrackers, tree.Figures().current)
    {
      hide *;
      ghost var m := tree.Figures().current;
      LimitedAreLive(tree, this);
      result := INT64_MAX;
      NoMinSpare(limitTrackers, m);
      for i := 0 to |limitTrackers|
        invariant result == MinSpare(limitTrackers[..i], m)
      {
        var left := limitTrackers[i].limit - limitTrackers[i].current;
        MinSpareStep(limitTrackers, i, m);
        result := if left < result then left else result;
      }
      assert limitTrackers[..|limitTrackers|] == limitTrackers;
    }

    /** Limits cannot be expanded yet. */
    method ExpandLimit(bytes: int) returns (ok: bool)
      ensures !ok
    {
      ok := false;
    }

    /** One round of the walk in TryConsume: reserve bytes at one tracker, calling its callbacks if they do not fit.
        `mid` are the books after the callbacks. */
    method Reserve(bytes: int) returns (ok: bool, ghost log: seq<Posting>, ghost mid: Books)
      requires tree.Shape() && this in tree.live
      modifies tree.live`current, tree.live`peak, tree.live`own, tree`gcCalls
      ensures Posted(old(tree.Figures()), mid, log)
      ensures if limit < 0 || old(current) + bytes <= limit || bytes > limit then tree.gcCalls == old(tree.gcCalls)
              else Collected(this, old(tree.gcCalls), tree.gcCalls, limit - bytes)
      ensures this in mid.current
      ensures MovedBy(mid, tree.Figures(), this, if ok then bytes else 0)
      ensures ok <==> limit < 0 || mid.current[this] + bytes <= limit
      ensures gcFunctions == [] || limit < 0 || old(current) + bytes <= limit ==>
                log == [] && (ok <==> limit < 0 || old(current) + bytes <= limit)
      ensures Called(this, old(tree.gcCalls), tree.gcCalls, bytes, gcFunctions == [] || limit < 0 || old(current) + bytes <= limit, ok)
    {
      hide *;
      log, mid := [], tree.Figures();
      FiguresAre(tree);
      PostedNothing(mid);
      NothingCalled(this, tree.gcCalls, bytes);
      if limit < 0 {
        IncrementBy(bytes);
        return true, log, mid;
      }
      ok := TryIncrementBy(bytes, limit);
      if !ok {
        MovedByNothing(mid, this);
        ok, log, mid := CollectAndRetry(bytes);
      }
    }

    /** The bytes did not fit: collect, and try once more. */
    method CollectAndRetry(bytes: int) returns (ok: bool, ghost log: seq<Posting>, ghost mid: Books)
      requires tree.Shape() && this in tree.live && limit >= 0 && current + bytes > limit
      modifies tree.live`current, tree.live`peak, tree.live`own, tree`gcCalls
      ensures Posted(old(tree.Figures()), mid, log)
      ensures if bytes > limit then tree.gcCalls == old(tree.gcCalls)
              else Collected(this, old(tree.gcCalls), tree.gcCalls, limit - bytes)
      ensures this in mid.current
      ensures MovedBy(mid, tree.Figures(), this, if ok then bytes else 0)
      ensures ok <==> mid.current[this] + bytes <= limit
      ensures gcFunctions == [] ==> log == [] && !ok
      ensures Called(this, old(tree.gcCalls), tree.gcCalls, bytes, gcFunctions == [], ok)
    {
      hide *;
      ghost var calls := tree.gcCalls;
      CollectsAtLimit(current, limit, bytes);
      var exceeded, more := GcMemory(limit - bytes);
      log, mid := more, tree.Figures();
      FiguresAre(tree);
      MovedByNothing(mid, this);
      var expanded := ExpandLimit(bytes);
      ok := false;
      if !exceeded || expanded {
        ok := TryIncrementBy(bytes, limit);
      }
      CalledByGc(this, calls, tree.gcCalls, bytes, ok);
    }

    /** One round of the walk, in terms of the books at the start of TryConsume. */
    method ReserveNext(bytes: int, ghost b0: Books, ghost log: seq<Posting>, ghost reserved: seq<MemTracker>, ghost quiet: bool)
      returns (ok: bool, ghost longer: seq<Posting>)
      requires tree.Shape() && this in tree.live && this !in reserved
      requires quiet ==> gcFunctions == [] || FitsAll(b0, [this], bytes)
      requires Walking(b0, tree.Figures(), log, reserved, bytes, quiet)
      modifies tree.live`current, tree.live`peak, tree.live`own, tree`gcCalls
      ensures ok ==> Walking(b0, tree.Figures(), longer, [this] + reserved, bytes, quiet)
      ensures !ok ==> Refused(b0, tree.Figures(), longer, reserved, this, bytes, quiet)
      ensures Called(this, old(tree.gcCalls), tree.gcCalls, bytes, quiet, ok)
    {
      hide TrackerTree.Shape, Posted;
      ghost var b := tree.Figures();
      PartialElsewhere(b0, b, log, reserved, this, bytes);
      FitsSplit(b0, this, reserved, bytes);
      hide Partial, OnPath;
      ghost var more, mid;
      ok, more, mid := Reserve(bytes);
      PartialReserve(b0, b, mid, log, more, reserved, this, bytes);
      WithinReserve(b, mid, log, more, reserved, this, if ok then bytes else 0);
      MovedByNothing(mid, this);
      longer := log + more;
    }

    /** One round of the rollback. */
    method UndoNext(bytes: int, ghost b0: Books, ghost log: seq<Posting>, ghost reserved: seq<MemTracker>)
      requires this in tree.live && this !in reserved
      requires Partial(b0, tree.Figures(), log, reserved + [this], bytes)
      modifies `current, `peak
      ensures Partial(b0, tree.Figures(), log, reserved, bytes)
    {
      hide Partial;
      ghost var b := tree.Figures();
      IncrementBy(-bytes);
      PartialUndo(b0, b, log, reserved, this, bytes);
    }

    /** The rollback loop of TryConsume: positions above i are taken back, from the root down. */
    method Rollback(i: nat, bytes: int, ghost b0: Books, ghost log: seq<Posting>)
      requires tree.Shape() && this in tree.live && i < |allTrackers|
      requires Partial(b0, tree.Figures(), log, allTrackers[i + 1..], bytes)
      modifies tree.live`current, tree.live`peak
      ensures Posted(b0, tree.Figures(), log)
    {
      hide *;
      var j := |allTrackers| - 1;
      assert allTrackers[i + 1..j + 1] == allTrackers[i + 1..];
      while j > i
        invariant i <= j < |allTrackers|
        invariant Partial(b0, tree.Figures(), log, allTrackers[i + 1..j + 1], bytes)
      {
        LastOfSlice(tree, this, i + 1, j);
        allTrackers[j].UndoNext(bytes, b0, log, allTrackers[i + 1..j]);
        j := j - 1;
      }
      assert allTrackers[i + 1..j + 1] == [];
      PartialNone(b0, tree.Figures(), log, bytes);
    }

    /** The round of the walk at position i of all_trackers_. */
    method WalkRound(i: nat, bytes: int, ghost b0: Books, ghost log: seq<Posting>, ghost reserved: seq<MemTracker>, ghost quiet: bool)
      returns (ok: bool, ghost log': seq<Posting>, ghost reserved': seq<MemTracker>)
      requires tree.Shape() && this in tree.live && (quiet ==> NoCallbacks(allTrackers) || FitsAll(b0, allTrackers, bytes))
      requires AtPosition(b0, tree.Figures(), allTrackers, i, log, reserved, bytes, quiet)
      modifies tree.live`current, tree.live`peak, tree.live`own, tree`gcCalls
      ensures ok ==> AtPosition(b0, tree.Figures(), allTrackers, i - 1, log', reserved', bytes, quiet)
      ensures !ok ==> Ended(b0, tree.Figures(), allTrackers, i, log', reserved', bytes, quiet)
      ensures i < |allTrackers| && Called(allTrackers[i], old(tree.gcCalls), tree.gcCalls, bytes, quiet, ok)
    {
      NextOfWalk(tree, this, i, b0, log, reserved, bytes, quiet);
      hide *;
      var tracker := allTrackers[i];
      ok, log' := tracker.ReserveNext(bytes, b0, log, reserved, quiet);
      reserved' := if ok then [tracker] + reserved else reserved;
      if ok {
        WalkGoesOn(b0, tree.Figures(), allTrackers, i - 1, log', reserved', bytes, quiet);
      } else {
        WalkRefused(b0, tree.Figures(), allTrackers, i, log', reserved', bytes, quiet);
      }
    }

    /** The walk of TryConsume, from the root down to the first refusal: i is -1 if nobody refused. */
    method Walk(bytes: int, ghost b0: Books, ghost quiet: bool) returns (i: int, ghost log: seq<Posting>, ghost reserved: seq<MemTracker>)
      requires tree.Shape() && this in tree.live && b0 == tree.Figures()
      requires quiet ==> NoCallbacks(allTrackers) || FitsAll(b0, allTrackers, bytes)
      modifies tree.live`current, tree.live`peak, tree.live`own, tree`gcCalls
      ensures Ended(b0, tree.Figures(), allTrackers, i, log, reserved, bytes, quiet)
      ensures -1 <= i < |allTrackers|
      ensures Called(if i == -1 then this else allTrackers[i], old(tree.gcCalls), tree.gcCalls, bytes, quiet, i == -1)
    {
      reserved, log := [], [];
      i := |allTrackers| - 1;
      WalkStarts(tree, b0, this, bytes, quiet);
      ghost var calls := tree.gcCalls;
      NothingCalled(this, calls, bytes);
      hide *;
      while i >= 0
        invariant -1 <= i < |allTrackers|
        invariant AtPosition(b0, tree.Figures(), allTrackers, i, log, reserved, bytes, quiet)
        invariant Called(this, calls, tree.gcCalls, bytes, quiet, true)
      {
        var ok;
        ghost var mid := tree.gcCalls;
        ok, log, reserved := WalkRound(i, bytes, b0, log, reserved, quiet);
        CalledThenCalled(this, allTrackers[i], calls, mid, tree.gcCalls, bytes, quiet, ok);
        if !ok {
          return;
        }
        NobodyRefused(allTrackers[i], this, calls, tree.gcCalls, bytes, quiet);
        i := i - 1;
      }
      WalkDone(b0, tree.Figures(), allTrackers, i, log, reserved, bytes, quiet);
    }

    /** Reserve bytes at the tracker and all its ancestors, or at none: what is left behind is what the callbacks
        did (`log`) and, on success, one posting of bytes at this tracker. */
    method TryConsume(bytes: int) returns (ok: bool, ghost log: seq<Posting>)
      requires tree.Shape() && this in tree.live && bytes <= INT64_MAX
      modifies tree.live`current, tree.live`peak, tree.live`own, tree`gcCalls
      ensures Posted(old(tree.Figures()), tree.Figures(), log + if ok && bytes > 0 then [Posting(this, bytes)] else [])
      ensures old(tree.Valid()) ==> tree.Valid()
      ensures old(NoCallbacks(allTrackers)) || bytes <= 0 || bytes <= MinSpare(limitTrackers, old(tree.Figures()).current) ==>
                log == [] && tree.gcCalls == old(tree.gcCalls)
                && (ok <==> bytes <= 0 || bytes <= MinSpare(limitTrackers, old(tree.Figures()).current))
      ensures !ok ==> exists x :: x in allTrackers && !FitsAll(tree.Figures(), [x], bytes)
                                  && Called(x, old(tree.gcCalls), tree.gcCalls, bytes, false, false)
      ensures ok && bytes > 0 ==> Within(tree.Figures(), log, allTrackers)
    {
      hide *;
      ghost var b0 := tree.Figures();
      ghost var quiet := NoCallbacks(allTrackers) || FitsAll(b0, allTrackers, bytes);
      ValidIsBalanced(tree);
      SpareMeansFit(tree, this, b0, bytes);
      if bytes <= 0 {
        log := [];
        NothingLeft(tree, b0, log);
        return true, log;
      }
      ok, log := Attempt(bytes, b0, quiet);
    }

    /** The rest of TryConsume, for a positive amount. */
    method Attempt(bytes: int, ghost b0: Books, ghost quiet: bool) returns (ok: bool, ghost log: seq<Posting>)
      requires tree.Shape() && this in tree.live && b0 == tree.Figures()
      requires quiet ==> NoCallbacks(allTrackers) || FitsAll(b0, allTrackers, bytes)
      modifies tree.live`current, tree.live`peak, tree.live`own, tree`gcCalls
      ensures Posted(b0, tree.Figures(), log + if ok then [Posting(this, bytes)] else [])
      ensures Balanced(b0) ==> tree.Valid()
      ensures quiet ==> log == [] && (ok <==> FitsAll(b0, allTrackers, bytes))
      ensures quiet ==> tree.gcCalls == old(tree.gcCalls)
      ensures if ok then Within(tree.Figures(), log, allTrackers)
              else exists x :: x in allTrackers && !FitsAll(tree.Figures(), [x], bytes)
                               && Called(x, old(tree.gcCalls), tree.gcCalls, bytes, false, false)
    {
      hide *;
      var i;
      ghost var reserved;
      ghost var calls := tree.gcCalls;
      i, log, reserved := Walk(bytes, b0, quiet);
      CalledQuietly(if i == -1 then this else allTrackers[i], calls, tree.gcCalls, bytes, quiet, i == -1);
      EndedCases(b0, tree.Figures(), allTrackers, i, log, reserved, bytes, quiet);
      ok := i == -1;
      ghost var b := tree.Figures();
      if ok {
        Settle(bytes, b0, log);
        WithinCounts(b, tree.Figures(), log, allTrackers);
      } else {
        Rollback(i, bytes, b0, log);
        StillNoRoom(b0, b, tree.Figures(), log, allTrackers, i, bytes);
        UndoneAttempt(tree, b0, log);
      }
    }

    /** All trackers of the path have moved: it counts as one posting. */
    ghost method Settle(bytes: int, b0: Books, log: seq<Posting>)
      requires tree.Shape() && this in tree.live && Partial(b0, tree.Figures(), log, allTrackers, bytes)
      modifies `own
      ensures tree.Figures().current == old(tree.Figures()).current
      ensures Posted(b0, tree.Figures(), log + [Posting(this, bytes)])
      ensures Balanced(b0) ==> tree.Valid()
    {
      FiguresAre(tree);
      hide *;
      SettleAttempt(tree, this, b0, tree.Figures(), log, bytes);
      ghost var b := tree.Figures();
      RecordOwn(bytes);
      OwnedKeepsCurrent(b, this, bytes);
      PostedIsValid(tree, b0, log + [Posting(this, bytes)]);
    }

    /** The bytes are this tracker's own. */
    ghost method RecordOwn(bytes: int)
      requires this in tree.live
      modifies `own
      ensures tree.Figures() == OwnedAt(old(tree.Figures()), this, bytes)
    {
      ghost var b := tree.Figures();
      own := own + bytes;
      FiguresOwned(tree, b, this, bytes);
    }
  }

  /** Consumption that ends with the object. `start` are books from which it is one of the postings; `others` are
      the rest. */
  class ScopedTrackedConsumption {
    const tracker: MemTracker
    var consumption: int

    constructor (tracker: MemTracker, toConsume: int, ghost start: Books)
      requires tracker.tree.Shape() && tracker in tracker.tree.live && start == tracker.tree.Figures()
      modifies tracker.tree.live`current, tracker.tree.live`peak, tracker.tree.live`own
      ensures this.tracker == tracker && consumption == toConsume
      ensures Posted(start, tracker.tree.Figures(), [Posting(tracker, toConsume)])
    {
      hide *;
      this.tracker, consumption := tracker, toConsume;
      tracker.Consume(toConsume);
    }

    method Reset(newConsumption: int, ghost start: Books, ghost others: seq<Posting>)
      requires tracker.tree.Shape() && tracker in tracker.tree.live
      requires Posted(start, tracker.tree.Figures(), [Posting(tracker, consumption)] + others)
      modifies this, tracker.tree.live`current, tracker.tree.live`peak, tracker.tree.live`own
      ensures consumption == newConsumption
      ensures Posted(start, tracker.tree.Figures(), [Posting(tracker, consumption)] + others)
    {
      hide *;
      ghost var b := tracker.tree.Figures();
      tracker.Consume(newConsumption - consumption);
      Repost(start, b, tracker.tree.Figures(), tracker, consumption, newConsumption, others);
      consumption := newConsumption;
    }

    /** The destructor: nothing of this object is left. */
    method Destroy(ghost start: Books, ghost others: seq<Posting>)
      requires tracker.tree.Shape() && tracker in tracker.tree.live
      requires Posted(start, tracker.tree.Figures(), [Posting(tracker, consumption)] + others)
      modifies tracker.tree.live`current, tracker.tree.live`peak, tracker.tree.live`own
      ensures Posted(start, tracker.tree.Figures(), others)
    {
      hide *;
      ghost var b := tracker.tree.Figures();
      tracker.Release(consumption);
      Unpost(start, b, tracker.tree.Figures(), tracker, consumption, others);
    }
  }

  /** The static part of the class: the root and the trackers that exist. */
  class TrackerTree {
    var root: MemTracker?
    var live: set<MemTracker>
    ghost var gcCalls: seq<GcCall>        // all calls of callbacks so far

    /** CreateRootTracker: a tree with nothing but its root. */
    constructor (limit: int)
      ensures Valid() && root != null && live == {root} && fresh(root) && root.limit == limit && gcCalls == []
    {
      root, live, gcCalls := null, {}, [];
      new;
      var tracker := new MemTracker(this, limit, null);
      tracker.Init();
      root, live := tracker, {tracker};
    }

    /** A new leaf, without consumption. */
    method CreateTracker(byteLimit: int, parent: MemTracker?) returns (tracker: MemTracker)
      requires Valid() && (parent == null || parent in live)
      modifies this`live, live`children
      ensures Valid() && fresh(tracker) && live == old(live) + {tracker} && root == old(root)
      ensures tracker.parent == (if parent == null then root else parent) && tracker.limit == byteLimit
      ensures tracker.current == tracker.own == 0 && tracker.children == [] && tracker.gcFunctions == []
      ensures tracker.parent.children == old((if parent == null then root else parent).children) + [tracker]
      ensures forall t :: t in old(live) && t != tracker.parent ==> t.children == old(t.children)
    {
      hide *;
      ghost var b := Figures();
      RootFacts(this);
      var realParent := if parent == null then root else parent;
      ParentFacts(this, realParent);
      tracker := NewLeaf(byteLimit, realParent, b);
      GrownIsValid(this, b, realParent, tracker);
      NewLeafIs(this, b, realParent, tracker);
    }

    /** The steps of CreateTracker. */
    method NewLeaf(byteLimit: int, parent: MemTracker, ghost b: Books) returns (tracker: MemTracker)
      requires parent in live && b == Figures()
      requires parent.tree == this && PathOk(parent) && root != null && root.parent == null
      modifies this`live, parent`children
      ensures GrewBy(this, b, parent, tracker) && fresh(tracker) && live == old(live) + {tracker}
      ensures tracker.limit == byteLimit && tracker.gcFunctions == []
      ensures parent.children == old(parent.children) + [tracker]
    {
      hide *;
      tracker := new MemTracker(this, byteLimit, parent);
      tracker.Init();
      AddChildTracker(parent, tracker, b);
    }

    /** AddChildTracker; from now on the tracker exists. (In the source it comes before Init, which one thread cannot
        tell.) */
    method AddChildTracker(parent: MemTracker, tracker: MemTracker, ghost b: Books)
      requires parent in live && tracker !in live && b == Figures() && tracker.tree == this && tracker.parent == parent
      requires tracker.depth == parent.depth + 1 && tracker.current == tracker.own == 0 && tracker.children == []
      requires tracker.allTrackers == [tracker] + parent.allTrackers && LimitsOk(tracker)
      modifies this`live, parent`children
      ensures GrewBy(this, b, parent, tracker) && live == old(live) + {tracker}
      ensures parent.children == old(parent.children) + [tracker]
    {
      FiguresAre(this);
      hide Figures;
      parent.children := parent.children + [tracker];
      live := live + {tracker};
    }

    /** The destructor of a leaf (children keep their parent alive): what it still holds is released at the parent,
        and its ancestors lose exactly that. The bytes given back are the leaf's, so nobody's own bytes change. */
    method DestroyTracker(tracker: MemTracker)
      requires Valid() && tracker in live && tracker.parent != null && tracker.children == []
      modifies this`live, live`current, live`peak, live`own, live`children
      ensures Valid() && live == old(live) - {tracker} && root == old(root)
      ensures forall t :: t in live ==> t.own == old(t.own)
      ensures forall t :: t in live ==> t.current == old(t.current) - Hit(OnPath(t, tracker), old(tracker.current))
      ensures forall t :: t in live ==> t.children == Without(old(t.children), tracker)
    {
      ghost var b := Figures();
      LeafFacts(this, tracker);
      FiguresAre(this);
      hide *;
      var bytes := tracker.current;
      tracker.parent.Release(bytes);
      ghost var b' := Figures();
      LeafAfterRelease(this, b, tracker, bytes);
      Detach(tracker.parent, tracker, bytes, b, b');
    }

    /** The end of the destructor, after the release; b are the books before it. */
    method Detach(parent: MemTracker, tracker: MemTracker, ghost bytes: int, ghost b: Books, ghost b': Books)
      requires parent in live && tracker in live && tracker != parent && b' == Figures() && tracker != root
      requires tracker.parent == parent && parent.depth < tracker.depth && Posted(b, b', [Posting(parent, -bytes)])
      requires AllWereOk(this, b') && Balanced(b') && LeafOf(b', parent, tracker)
      requires tracker in b'.current && bytes == b'.current[tracker]
      modifies this`live, parent`children, parent`own
      ensures Valid() && live == old(live) - {tracker}
      ensures forall t :: t in live ==> t in b.current && t in b.own && t in b.children
      ensures forall t :: t in live ==> t.own == b.own[t] && t.current == b.current[t] - Hit(OnPath(t, tracker), bytes)
      ensures forall t :: t in live ==> t.children == Without(b.children[t], tracker)
    {
      hide *;
      EraseChild(parent, tracker, bytes, b');
      ShrunkIsValid(this, b', parent, tracker, bytes);
      LeafIsGone(this, b, b', parent, tracker, bytes);
    }

    /** The tracker leaves its parent's list, and the bytes given back do not count as the parent's. */
    method EraseChild(parent: MemTracker, tracker: MemTracker, ghost bytes: int, ghost b: Books)
      requires parent in live && tracker in live && tracker != parent && b == Figures()
      modifies this`live, parent`children, parent`own
      ensures ShrankBy(this, b, parent, tracker, bytes) && live == old(live) - {tracker}
    {
      FiguresAre(this);
      hide Figures;
      parent.own := parent.own + bytes;
      parent.children := Without(parent.children, tracker);
      live := live - {tracker};
    }

    /** A call of a callback is kept in the history. */
    method CallGcFunction(f: GcFunction) returns (ghost log: seq<Posting>)
      requires Shape()
      modifies live`current, live`peak, live`own, `gcCalls
      ensures Posted(old(Figures()), Figures(), log)
      ensures gcCalls == old(gcCalls) + [GcCall(f, Figures().current)]
    {
      hide *;
      log := RunCallback();
      ghost var after := Figures();
      gcCalls := gcCalls + [GcCall(f, after.current)];
    }

    /** What it does: it may release (or consume) any amounts at any trackers, any number of times. */
    method RunCallback() returns (ghost log: seq<Posting>)
      requires Shape()
      modifies live`current, live`peak, live`own
      ensures Posted(old(Figures()), Figures(), log)
    {
      var script: seq<Posting> := *;
      log := [];
      hide Posted;
      PostedNothing(Figures());
      for i := 0 to |script|
        invariant Posted(old(Figures()), Figures(), log)
      {
        var t, bytes := script[i].tracker, script[i].bytes;
        if t in live {
          assert TrackerOk(t);
          ghost var b := Figures();
          t.Release(bytes);
          PostedThenPosted(old(Figures()), b, Figures(), log, [Posting(t, -bytes)]);
          log := log + [Posting(t, -bytes)];
        }
      }
    }

    /** The lists of one tracker say what the parent pointers say. */
    ghost predicate TrackerOk(t: MemTracker)
      reads `root, `live, t`allTrackers, t`limitTrackers, t`children, live`children
    {
      && t in live && t.tree == this
      && (t.parent == null ==> t == root)
      && (t.parent != null ==> t.parent in live && t.depth == t.parent.depth + 1 && t in t.parent.children)
      && Siblings(t.children, t)
      && (forall c :: c in t.children ==> c in live)
      && PathOk(t)
      && LimitsOk(t)
    }

    /** all_trackers_ is the tracker and its ancestors, in this order. */
    ghost predicate PathOk(t: MemTracker)
      reads `root, `live, t`allTrackers
    {
      PathIn(live, root, t, t.allTrackers)
    }

    /** limit_trackers_ are those of them that have a limit. */
    ghost predicate LimitsOk(t: MemTracker)
      reads t`allTrackers, t`limitTrackers
    {
      && (forall a :: a in t.limitTrackers ==> a in t.allTrackers && a.limit >= 0)
      && (forall a :: a in t.allTrackers && a.limit >= 0 ==> a in t.limitTrackers)
    }

    /** The tree as such, without the counters. */
    ghost predicate Shape()
      reads `root, `live, live`allTrackers, live`limitTrackers, live`children
    {
      && root != null && root in live && root.parent == null && root.depth == 0
      && (forall t :: t in live ==> TrackerOk(t))
    }

    /** The figures of all live trackers. */
    ghost function Figures(): Books
      reads `live, live`current, live`own, live`children
    {
      Books(map t | t in live :: t.current, map t | t in live :: t.own, map t | t in live :: t.children)
    }

    ghost predicate Valid()
      reads `root, `live, live
    {
      Shape() && Balanced(Figures())
    }
  }

  ghost predicate PathIn(live: set<MemTracker>, root: MemTracker?, t: MemTracker, all: seq<MemTracker>) {
    && |all| == t.depth + 1 && all[0] == t && all[t.depth] == root
    && (forall i :: 0 <= i < |all| ==> all[i] in live && all[i].depth == t.depth - i)
    && (forall i :: 0 <= i < |all| - 1 ==> all[i].parent == all[i + 1])
  }

  lemma LimitedAreLive(tree: TrackerTree, x: MemTracker)
    requires tree.Shape() && x in tree.live
    ensures forall t :: t in x.limitTrackers ==> t in tree.Figures().current && tree.Figures().current[t] == t.current
  {
    assert tree.TrackerOk(x);
    PathFacts(tree, x);
    FiguresAre(tree);
    hide TrackerTree.Shape, TrackerTree.Figures;
  }

  /** A number of type int64_t, read as one of type uint64_t. */
  function Unsigned(n: int): int { if n < 0 then n + TWO_TO_64 else n }

  /** The goal is met, or out of reach. */
  predicate NothingToCollect(current: int, goal: int) { goal < 0 || Unsigned(current) < goal }

  /** For numbers of type int64_t: a consumption below zero, read as a large number, never meets the goal. */
  lemma NothingToCollectIff(current: int, goal: int)
    requires -INT64_MAX - 1 <= current <= INT64_MAX && goal <= INT64_MAX
    ensures NothingToCollect(current, goal) <==> goal < 0 || 0 <= current < goal
    ensures Unsigned(current) % TWO_TO_64 == current % TWO_TO_64 && 0 <= Unsigned(current) < TWO_TO_64
  {
    if current < 0 {
      assert current % TWO_TO_64 == current + TWO_TO_64;
    }
  }

  /** These calls are the first of the callbacks fs, in order, and none of them brought x down to the goal. */
  ghost predicate NotEnough(x: MemTracker, fs: seq<GcFunction>, ran: seq<GcCall>, goal: int) {
    |ran| <= |fs| && forall i :: 0 <= i < |ran| ==> ran[i].f == fs[i] && x in ran[i].current && ran[i].current[x] > goal
  }

  /** These calls are the callbacks fs, in order, up to the first one that brought x down to the goal. */
  ghost predicate UpToGoal(x: MemTracker, fs: seq<GcFunction>, ran: seq<GcCall>, goal: int) {
    if ran == [] then fs == []
    else
      var last := |ran| - 1;
      && NotEnough(x, fs, ran[..last], goal) && last < |fs| && ran[last].f == fs[last] && x in ran[last].current
      && (ran[last].current[x] <= goal || |ran| == |fs|)
  }

  /** Between two histories the callbacks of x were called in this way, and none else. */
  ghost predicate Collected(x: MemTracker, before: seq<GcCall>, after: seq<GcCall>, goal: int)
    reads x`gcFunctions
  {
    before <= after && UpToGoal(x, x.gcFunctions, after[|before|..], goal)
  }

  /** From one history to the other every callback of x was called, in order, and none after that. */
  ghost predicate Exhausted(x: MemTracker, before: seq<GcCall>, after: seq<GcCall>)
    reads x`gcFunctions
  {
    && before <= after && |before| + |x.gcFunctions| <= |after|
    && forall i :: 0 <= i < |x.gcFunctions| ==> after[|after| - |x.gcFunctions| + i].f == x.gcFunctions[i]
  }

  /** What an attempt for bytes does to the history: nothing if it is quiet, and all it can do at the tracker x that
      refuses in the end. */
  ghost predicate Called(x: MemTracker, before: seq<GcCall>, after: seq<GcCall>, bytes: int, quiet: bool, ok: bool)
    reads x`gcFunctions
  {
    before <= after && (quiet ==> after == before) && (!ok && bytes <= x.limit ==> Exhausted(x, before, after))
  }

  lemma CollectedAll(x: MemTracker, before: seq<GcCall>, after: seq<GcCall>, goal: int)
    requires Collected(x, before, after, goal)
    ensures |after| == |before| + |x.gcFunctions| ==> Exhausted(x, before, after)
    ensures x.gcFunctions == [] ==> after == before
  {
    var ran := after[|before|..];
    assert after == before + ran;
    if |ran| == |x.gcFunctions| {
      forall i | 0 <= i < |ran| ensures after[|after| - |ran| + i].f == x.gcFunctions[i] {
        assert ran[i] == after[|before| + i];
        if i < |ran| - 1 {
          assert ran[..|ran| - 1][i] == ran[i];
        }
      }
    }
  }

  lemma CalledThenCalled(x: MemTracker, y: MemTracker, before: seq<GcCall>, mid: seq<GcCall>, after: seq<GcCall>, bytes: int,
                         quiet: bool, ok: bool)
    requires Called(x, before, mid, bytes, quiet, true) && Called(y, mid, after, bytes, quiet, ok)
    ensures Called(y, before, after, bytes, quiet, ok)
  {
  }

  lemma NothingCalled(x: MemTracker, calls: seq<GcCall>, bytes: int)
    ensures forall quiet :: Called(x, calls, calls, bytes, quiet, true)
  {
  }

  lemma CollectsAtLimit(current: int, limit: int, bytes: int)
    ensures current + bytes > limit ==> (NothingToCollect(current, limit - bytes) <==> bytes > limit)
  {
  }

  lemma CalledByGc(x: MemTracker, before: seq<GcCall>, after: seq<GcCall>, bytes: int, ok: bool)
    requires if bytes > x.limit then after == before else Collected(x, before, after, x.limit - bytes)
    requires !ok && bytes <= x.limit ==> |after| == |before| + |x.gcFunctions|
    ensures Called(x, before, after, bytes, x.gcFunctions == [], ok)
  {
    if bytes <= x.limit {
      CollectedAll(x, before, after, x.limit - bytes);
    }
    hide Collected, Exhausted;
  }

  lemma CalledQuietly(x: MemTracker, before: seq<GcCall>, after: seq<GcCall>, bytes: int, quiet: bool, ok: bool)
    requires Called(x, before, after, bytes, quiet, ok)
    ensures quiet ==> after == before
    ensures Called(x, before, after, bytes, false, ok)
  {
  }

  lemma NobodyRefused(x: MemTracker, y: MemTracker, before: seq<GcCall>, after: seq<GcCall>, bytes: int, quiet: bool)
    requires Called(x, before, after, bytes, quiet, true)
    ensures Called(y, before, after, bytes, quiet, true)
  {
  }

  lemma NothingRan(x: MemTracker, fs: seq<GcFunction>, goal: int)
    ensures NotEnough(x, fs, [], goal) && (fs == [] ==> UpToGoal(x, fs, [], goal))
  {
  }

  lemma CollectedSo(x: MemTracker, before: seq<GcCall>, ran: seq<GcCall>, goal: int)
    requires UpToGoal(x, x.gcFunctions, ran, goal)
    ensures Collected(x, before, before + ran, goal)
  {
    assert (before + ran)[|before|..] == ran;
  }

  lemma OneMoreCall(tree: TrackerTree, x: MemTracker, fs: seq<GcFunction>, ran: seq<GcCall>, goal: int)
    requires x in tree.live && |ran| < |fs| && NotEnough(x, fs, ran, goal)
    ensures var longer := ran + [GcCall(fs[|ran|], tree.Figures().current)];
      && (x.current > goal ==> NotEnough(x, fs, longer, goal))
      && (x.current <= goal || |longer| == |fs| ==> UpToGoal(x, fs, longer, goal))
  {
    FiguresAre(tree);
    hide TrackerTree.Figures;
    assert (ran + [GcCall(fs[|ran|], tree.Figures().current)])[..|ran|] == ran;
  }

  /** Consumption, net own bytes and children of every live tracker. */
  datatype Books = Books(current: map<MemTracker, int>, own: map<MemTracker, int>, children: map<MemTracker, seq<MemTracker>>)

  ghost function SumOf(cs: seq<MemTracker>, m: map<MemTracker, int>): int {
    if cs == [] then 0
    else SumOf(cs[..|cs| - 1], m) + if cs[|cs| - 1] in m then m[cs[|cs| - 1]] else 0
  }

  /** Conservation: each tracker holds its own net bytes and what its live children hold. */
  ghost predicate Balanced(b: Books) {
    b.current.Keys == b.own.Keys == b.children.Keys
    && forall t :: t in b.current ==> b.current[t] == b.own[t] + SumOf(b.children[t], b.current)
  }

  /** The books after a series of postings: nothing but their effects. */
  ghost predicate Posted(b: Books, b': Books, log: seq<Posting>) {
    && b'.current.Keys == b'.own.Keys == b'.children.Keys == b.current.Keys == b.own.Keys == b.children.Keys
    && b'.children == b.children
    && (forall p :: p in log ==> p.tracker in b.current)
    && forall t :: t in b.current ==>
         b'.current[t] == b.current[t] + Effect(log, t) && b'.own[t] == b.own[t] + OwnEffect(log, t)
  }

  // ----- ancestors

  /** a is x or an ancestor of x. */
  ghost predicate OnPath(a: MemTracker, x: MemTracker)
    decreases x.depth
  {
    a == x || (x.parent != null && x.parent.depth < x.depth && OnPath(a, x.parent))
  }

  lemma {:induction false} OnPathDepth(a: MemTracker, x: MemTracker)
    requires OnPath(a, x)
    ensures a.depth <= x.depth && (a.depth == x.depth ==> a == x)
    decreases x.depth
  {
    if a != x {
      OnPathDepth(a, x.parent);
    }
  }

  /** Ancestors of one tracker at the same depth are the same. */
  lemma {:induction false} OnPathUnique(a: MemTracker, b: MemTracker, x: MemTracker)
    requires OnPath(a, x) && OnPath(b, x) && a.depth == b.depth
    ensures a == b
    decreases x.depth
  {
    OnPathDepth(a, x);
    OnPathDepth(b, x);
    if a != x && b != x {
      OnPathUnique(a, b, x.parent);
    }
  }

  // ----- what postings do to counters

  function Hit(yes: bool, b: int): int { if yes then b else 0 }

  /** What a series of postings adds to the consumption of t: they count for the tracker and all its ancestors. */
  ghost function Effect(log: seq<Posting>, t: MemTracker): int {
    if log == [] then 0
    else Effect(log[..|log| - 1], t) + Hit(OnPath(t, log[|log| - 1].tracker), log[|log| - 1].bytes)
  }

  /** What it adds to the tracker's own bytes. */
  ghost function OwnEffect(log: seq<Posting>, t: MemTracker): int {
    if log == [] then 0
    else OwnEffect(log[..|log| - 1], t) + Hit(t == log[|log| - 1].tracker, log[|log| - 1].bytes)
  }

  ghost function SumEffect(cs: seq<MemTracker>, log: seq<Posting>): int {
    if cs == [] then 0 else SumEffect(cs[..|cs| - 1], log) + Effect(log, cs[|cs| - 1])
  }

  lemma {:induction false} EffectAppends(first: seq<Posting>, second: seq<Posting>, t: MemTracker)
    ensures Effect(first + second, t) == Effect(first, t) + Effect(second, t)
    ensures OwnEffect(first + second, t) == OwnEffect(first, t) + OwnEffect(second, t)
  {
    if second == [] {
      assert first + second == first;
    } else {
      var s := second[..|second| - 1];
      EffectAppends(first, s, t);
      assert (first + second)[..|first + second| - 1] == first + s;
    }
  }

  lemma EffectOfOne(p: Posting, t: MemTracker)
    ensures Effect([p], t) == Hit(OnPath(t, p.tracker), p.bytes)
    ensures OwnEffect([p], t) == Hit(t == p.tracker, p.bytes)
  {
    assert [p][..0] == [];
  }

  ghost predicate NoDuplicates(cs: seq<MemTracker>) { forall i, j :: 0 <= i < j < |cs| ==> cs[i] != cs[j] }

  /** cs are the children of t that matter for postings at x. */
  ghost predicate Siblings(cs: seq<MemTracker>, t: MemTracker) {
    NoDuplicates(cs) && forall i :: 0 <= i < |cs| ==> cs[i].parent == t && cs[i].depth == t.depth + 1
  }

  /** One posting reaches exactly one child on its way to t, and none when it is made at t or elsewhere. */
  lemma {:induction false} OneChildCarries(cs: seq<MemTracker>, t: MemTracker, p: Posting, carrier: bool)
    requires Siblings(cs, t)
    requires carrier <==> exists c :: c in cs && OnPath(c, p.tracker)
    ensures SumEffect(cs, [p]) == Hit(carrier, p.bytes)
  {
    if cs != [] {
      var last, rest := cs[|cs| - 1], cs[..|cs| - 1];
      EffectOfOne(p, last);
      if OnPath(last, p.tracker) {
        forall c | c in rest ensures !OnPath(c, p.tracker) {
          if OnPath(c, p.tracker) {
            OnPathUnique(c, last, p.tracker);
          }
        }
        OneChildCarries(rest, t, p, false);
      } else {
        assert forall c :: c in cs <==> c in rest || c == last;
        OneChildCarries(rest, t, p, carrier);
      }
    }
  }

  lemma {:induction false} SumEffectAppends(cs: seq<MemTracker>, first: seq<Posting>, second: seq<Posting>)
    ensures SumEffect(cs, first + second) == SumEffect(cs, first) + SumEffect(cs, second)
  {
    if cs != [] {
      SumEffectAppends(cs[..|cs| - 1], first, second);
      EffectAppends(first, second, cs[|cs| - 1]);
    }
  }

  /** Every posting of the log that reaches t from below passes a child of t. */
  ghost predicate Complete(cs: seq<MemTracker>, t: MemTracker, log: seq<Posting>) {
    forall p :: p in log ==>
      ((OnPath(t, p.tracker) && t != p.tracker) <==> exists c :: c in cs && OnPath(c, p.tracker))
  }

  /** What reaches t is what is posted at t and what reaches its children. */
  lemma {:induction false} ChildrenCarry(cs: seq<MemTracker>, t: MemTracker, log: seq<Posting>)
    requires Siblings(cs, t) && Complete(cs, t, log)
    ensures Effect(log, t) == OwnEffect(log, t) + SumEffect(cs, log)
  {
    if log == [] {
      NoEffect(cs);
    } else {
      var p, before := log[|log| - 1], log[..|log| - 1];
      ChildrenCarry(cs, t, before);
      assert before + [p] == log;
      SumEffectAppends(cs, before, [p]);
      OneChildCarries(cs, t, p, OnPath(t, p.tracker) && t != p.tracker);
    }
  }

  lemma {:induction false} NoEffect(cs: seq<MemTracker>)
    ensures SumEffect(cs, []) == 0
  {
    if cs != [] {
      NoEffect(cs[..|cs| - 1]);
    }
  }

  // ----- the tree

  /** all_trackers_ holds exactly the trackers on the path. */
  lemma {:induction false} PathIsOnPath(tree: TrackerTree, x: MemTracker, i: nat, a: MemTracker)
    requires tree.PathOk(x) && i <= x.depth
    ensures OnPath(a, x.allTrackers[i]) <==> a in x.allTrackers[i..]
    decreases x.depth - i
  {
    if i < x.depth {
      PathIsOnPath(tree, x, i + 1, a);
      assert x.allTrackers[i..] == [x.allTrackers[i]] + x.allTrackers[i + 1..];
    } else {
      assert x.allTrackers[i..] == [x.allTrackers[i]];
    }
  }

  /** all_trackers_ lists live trackers, each once, and they are the path. */
  lemma PathFacts(tree: TrackerTree, x: MemTracker)
    requires tree.Shape() && x in tree.live
    ensures |x.allTrackers| > 0 && x.allTrackers[0] == x
    ensures forall i :: 0 <= i < |x.allTrackers| ==> x.allTrackers[i] in tree.live && x.allTrackers[i].tree == tree
    ensures NoDuplicates(x.allTrackers)
    ensures forall t :: t in tree.live ==> (OnPath(t, x) <==> t in x.allTrackers)
  {
    assert tree.TrackerOk(x);
    assert x.allTrackers == x.allTrackers[0..];
    forall t | t in tree.live ensures OnPath(t, x) <==> t in x.allTrackers {
      PathIsOnPath(tree, x, 0, t);
    }
  }

  lemma SliceFacts(ts: seq<MemTracker>, i: nat, j: nat)
    requires NoDuplicates(ts) && i <= j < |ts|
    ensures ts[j] !in ts[i..j] && ts[i..j + 1] == ts[i..j] + [ts[j]]
    ensures ts[j] !in ts[j + 1..] && ts[j..] == [ts[j]] + ts[j + 1..]
  {
  }

  lemma LastOfSlice(tree: TrackerTree, x: MemTracker, i: nat, j: nat)
    requires tree.Shape() && x in tree.live && i <= j < |x.allTrackers|
    ensures x.allTrackers[j] in tree.live && x.allTrackers[j].tree == tree
    ensures x.allTrackers[j] !in x.allTrackers[i..j]
    ensures x.allTrackers[i..j + 1] == x.allTrackers[i..j] + [x.allTrackers[j]]
  {
    hide *;
    PathFacts(tree, x);
    SliceFacts(x.allTrackers, i, j);
  }

  lemma FirstOfSlice(tree: TrackerTree, x: MemTracker, i: nat)
    requires tree.Shape() && x in tree.live && i < |x.allTrackers|
    ensures x.allTrackers[i] in tree.live && x.allTrackers[i].tree == tree
    ensures x.allTrackers[i] !in x.allTrackers[i + 1..]
    ensures x.allTrackers[i..] == [x.allTrackers[i]] + x.allTrackers[i + 1..]
  {
    hide *;
    PathFacts(tree, x);
    SliceFacts(x.allTrackers, i, i);
  }

  /** Below t, the path of x passes a child of t that the tree knows. */
  lemma {:induction false} ChildOnPath(tree: TrackerTree, t: MemTracker, x: MemTracker) returns (c: MemTracker)
    requires tree.Shape() && t in tree.live && x in tree.live && OnPath(t, x) && t != x
    ensures c in t.children && OnPath(c, x)
    decreases x.depth
  {
    assert tree.TrackerOk(x);
    if x.parent == t {
      c := x;
    } else {
      c := ChildOnPath(tree, t, x.parent);
    }
  }

  lemma {:induction false} ParentOnPath(c: MemTracker, t: MemTracker, x: MemTracker)
    requires OnPath(c, x) && c.parent == t && t.depth < c.depth
    ensures OnPath(t, x) && t != x
    decreases x.depth
  {
    OnPathDepth(c, x);
    if c != x {
      ParentOnPath(c, t, x.parent);
    }
  }

  lemma LogIsComplete(tree: TrackerTree, t: MemTracker, log: seq<Posting>)
    requires tree.Shape() && t in tree.live
    requires forall p :: p in log ==> p.tracker in tree.live
    ensures Siblings(t.children, t) && Complete(t.children, t, log)
  {
    assert tree.TrackerOk(t);
    forall p | p in log
      ensures (OnPath(t, p.tracker) && t != p.tracker) <==> exists c :: c in t.children && OnPath(c, p.tracker)
    {
      if OnPath(t, p.tracker) && t != p.tracker {
        var c := ChildOnPath(tree, t, p.tracker);
      }
      if exists c :: c in t.children && OnPath(c, p.tracker) {
        var c :| c in t.children && OnPath(c, p.tracker);
        ParentOnPath(c, t, p.tracker);
      }
    }
  }

  lemma {:induction false} SumMoves(cs: seq<MemTracker>, m: map<MemTracker, int>, m': map<MemTracker, int>, log: seq<Posting>)
    requires forall c :: c in cs ==> c in m && c in m' && m'[c] == m[c] + Effect(log, c)
    ensures SumOf(cs, m') == SumOf(cs, m) + SumEffect(cs, log)
  {
    if cs != [] {
      SumMoves(cs[..|cs| - 1], m, m', log);
    }
  }

  lemma PostingsKeepOneBalance(tree: TrackerTree, b: Books, b': Books, log: seq<Posting>, t: MemTracker)
    requires tree.Shape() && t in tree.live && Posted(b, b', log)
    requires b.current.Keys == tree.live && b.children[t] == t.children
    requires b.current[t] == b.own[t] + SumOf(b.children[t], b.current)
    ensures b'.current[t] == b'.own[t] + SumOf(b'.children[t], b'.current)
  {
    LogIsComplete(tree, t, log);
    assert forall c :: c in t.children ==> c in tree.live by {
      assert tree.TrackerOk(t);
    }
    hide TrackerTree.Shape, Siblings, Complete;
    ChildrenCarry(t.children, t, log);
    SumMoves(t.children, b.current, b'.current, log);
  }

  /** Conservation survives every change of the books that is the effect of postings. */
  lemma PostingsKeepBalance(tree: TrackerTree, b: Books, b': Books, log: seq<Posting>)
    requires tree.Shape() && b.current.Keys == tree.live && b.children == tree.Figures().children
    requires Balanced(b) && Posted(b, b', log)
    ensures Balanced(b')
  {
    FiguresAre(tree);
    hide TrackerTree.Shape, TrackerTree.Figures;
    forall t | t in b'.current ensures b'.current[t] == b'.own[t] + SumOf(b'.children[t], b'.current) {
      PostingsKeepOneBalance(tree, b, b', log, t);
    }
  }

  /** In the middle of TryConsume: the effects of the log, and bytes more at the trackers already reserved. */
  ghost predicate Partial(b: Books, b': Books, log: seq<Posting>, reserved: seq<MemTracker>, bytes: int) {
    && b'.current.Keys == b'.own.Keys == b'.children.Keys == b.current.Keys == b.own.Keys == b.children.Keys
    && b'.children == b.children
    && (forall p :: p in log ==> p.tracker in b.current)
    && forall t :: t in b.current ==>
         b'.current[t] == b.current[t] + Effect(log, t) + Hit(t in reserved, bytes)
         && b'.own[t] == b.own[t] + OwnEffect(log, t)
  }

  /** bytes more fit at each of the trackers. */
  ghost predicate FitsAll(b: Books, ts: seq<MemTracker>, bytes: int) {
    forall t :: t in ts ==> t in b.current && (t.limit >= 0 ==> b.current[t] + bytes <= t.limit)
  }

  /** The callbacks only released. */
  ghost predicate OnlyReleases(log: seq<Posting>) { forall p :: p in log ==> p.bytes <= 0 }

  /** If the callbacks only released, the trackers are within their limits. */
  ghost predicate Within(b: Books, log: seq<Posting>, ts: seq<MemTracker>) {
    OnlyReleases(log) ==> forall t :: t in ts ==> t in b.current && (t.limit >= 0 ==> b.current[t] <= t.limit)
  }

  lemma {:induction false} ReleasesLower(log: seq<Posting>, t: MemTracker)
    requires OnlyReleases(log)
    ensures Effect(log, t) <= 0
  {
    if log != [] {
      ReleasesLower(log[..|log| - 1], t);
      assert log[|log| - 1] in log;
    }
  }

  lemma WithinReserve(b: Books, mid: Books, log: seq<Posting>, more: seq<Posting>, reserved: seq<MemTracker>, x: MemTracker, bytes: int)
    requires Within(b, log, reserved) && Posted(b, mid, more) && x in mid.current && x !in reserved
    ensures Within(mid, log + more, reserved)
    ensures x.limit < 0 || mid.current[x] + bytes <= x.limit ==> Within(MovedAt(mid, x, bytes), log + more, [x] + reserved)
  {
    if OnlyReleases(log + more) {
      assert OnlyReleases(log) by {
        assert forall p :: p in log ==> p in log + more;
      }
      assert OnlyReleases(more) by {
        assert forall p :: p in more ==> p in log + more;
      }
      forall t | t in reserved ensures t in mid.current && (t.limit >= 0 ==> mid.current[t] <= t.limit) {
        ReleasesLower(more, t);
      }
    }
  }

  lemma WithinCounts(b: Books, b': Books, log: seq<Posting>, ts: seq<MemTracker>)
    requires Within(b, log, ts) && b'.current == b.current
    ensures Within(b', log, ts)
  {
  }

  /** After the rollback there is still no room where the walk was refused. */
  lemma StillNoRoom(b0: Books, b: Books, b': Books, log: seq<Posting>, ts: seq<MemTracker>, i: nat, bytes: int)
    requires i < |ts| && Partial(b0, b, log, ts[i + 1..], bytes) && ts[i] !in ts[i + 1..] && !FitsAll(b, [ts[i]], bytes)
    requires Posted(b0, b', log)
    ensures ts[i] in ts && !FitsAll(b', [ts[i]], bytes)
  {
    var x := ts[i];
    assert x in [x];
    if x in b0.current {
      PartialElsewhere(b0, b, log, ts[i + 1..], x, bytes);
    }
  }

  lemma OwnedKeepsCurrent(b: Books, x: MemTracker, amount: int)
    requires x in b.own
    ensures OwnedAt(b, x, amount).current == b.current
  {
  }

  /** The state of a walk: what is reserved so far did fit, if there are no callbacks. */
  ghost predicate Walking(b: Books, b': Books, log: seq<Posting>, reserved: seq<MemTracker>, bytes: int, quiet: bool) {
    Partial(b, b', log, reserved, bytes) && Within(b', log, reserved) && (quiet ==> log == [] && FitsAll(b, reserved, bytes))
  }

  /** A walk at position i of all_trackers_: everything above is reserved. */
  ghost predicate AtPosition(b: Books, b': Books, ts: seq<MemTracker>, i: int, log: seq<Posting>, reserved: seq<MemTracker>,
                             bytes: int, quiet: bool) {
    -1 <= i < |ts| && reserved == ts[i + 1..] && Walking(b, b', log, reserved, bytes, quiet)
  }

  lemma WalkStarts(tree: TrackerTree, b: Books, x: MemTracker, bytes: int, quiet: bool)
    requires tree.Shape() && x in tree.live && b == tree.Figures()
    ensures AtPosition(b, b, x.allTrackers, |x.allTrackers| - 1, [], [], bytes, quiet)
  {
    PathFacts(tree, x);
    hide TrackerTree.Shape, Posted, Partial, OnPath;
    PostedNothing(b);
    PartialNone(b, b, [], bytes);
  }

  lemma NextOfWalk(tree: TrackerTree, x: MemTracker, i: nat, b: Books, log: seq<Posting>, reserved: seq<MemTracker>,
                   bytes: int, quiet: bool)
    requires tree.Shape() && x in tree.live && (quiet ==> NoCallbacks(x.allTrackers) || FitsAll(b, x.allTrackers, bytes))
    requires AtPosition(b, tree.Figures(), x.allTrackers, i, log, reserved, bytes, quiet)
    ensures i < |x.allTrackers| && x.allTrackers[i] in tree.live && x.allTrackers[i].tree == tree
    ensures x.allTrackers[i] !in reserved
    ensures quiet ==> x.allTrackers[i].gcFunctions == [] || FitsAll(b, [x.allTrackers[i]], bytes)
    ensures Walking(b, tree.Figures(), log, reserved, bytes, quiet)
  {
    hide TrackerTree.Shape, Walking, TrackerTree.Figures;
    FirstOfSlice(tree, x, i);
  }

  /** A walk that met a refusal at x. */
  ghost predicate Refused(b: Books, b': Books, log: seq<Posting>, reserved: seq<MemTracker>, x: MemTracker, bytes: int, quiet: bool) {
    Partial(b, b', log, reserved, bytes) && x !in reserved && !FitsAll(b', [x], bytes)
    && (quiet ==> log == [] && !FitsAll(b, [x], bytes))
  }

  /** A walk that is over: everything above position i is reserved; without callbacks i is -1 exactly when bytes
      fit everywhere. */
  ghost predicate Ended(b: Books, b': Books, ts: seq<MemTracker>, i: int, log: seq<Posting>, reserved: seq<MemTracker>,
                        bytes: int, quiet: bool) {
    -1 <= i < |ts| && reserved == ts[i + 1..] && Partial(b, b', log, reserved, bytes)
    && (if i == -1 then Within(b', log, ts) else ts[i] !in reserved && !FitsAll(b', [ts[i]], bytes))
    && (quiet ==> log == [] && (i == -1 <==> FitsAll(b, ts, bytes)))
  }

  lemma WalkRefused(b: Books, b': Books, ts: seq<MemTracker>, i: nat, log: seq<Posting>, reserved: seq<MemTracker>, bytes: int, quiet: bool)
    requires i < |ts| && reserved == ts[i + 1..] && Refused(b, b', log, reserved, ts[i], bytes, quiet)
    ensures Ended(b, b', ts, i, log, reserved, bytes, quiet)
  {
    if !FitsAll(b, [ts[i]], bytes) {
      FitsSuffix(b, ts, i, bytes);
    }
  }

  lemma WalkGoesOn(b: Books, b': Books, ts: seq<MemTracker>, i: int, log: seq<Posting>, reserved: seq<MemTracker>, bytes: int, quiet: bool)
    requires -1 <= i < |ts| - 1 && reserved == [ts[i + 1]] + ts[i + 2..] && Walking(b, b', log, reserved, bytes, quiet)
    ensures AtPosition(b, b', ts, i, log, reserved, bytes, quiet)
  {
  }

  lemma WalkDone(b: Books, b': Books, ts: seq<MemTracker>, i: int, log: seq<Posting>, reserved: seq<MemTracker>, bytes: int, quiet: bool)
    requires AtPosition(b, b', ts, i, log, reserved, bytes, quiet) && i < 0
    ensures Ended(b, b', ts, i, log, reserved, bytes, quiet)
  {
    assert ts[0..] == ts;
  }

  /** SpareCapacity as a function of the counters. */
  ghost function MinSpare(ts: seq<MemTracker>, m: map<MemTracker, int>): int {
    if ts == [] then INT64_MAX
    else
      var before := MinSpare(ts[..|ts| - 1], m);
      var t := ts[|ts| - 1];
      if t in m && t.limit - m[t] < before then t.limit - m[t] else before
  }

  lemma NoMinSpare(ts: seq<MemTracker>, m: map<MemTracker, int>)
    ensures MinSpare(ts[..0], m) == INT64_MAX
  {
  }

  lemma MinSpareStep(ts: seq<MemTracker>, i: nat, m: map<MemTracker, int>)
    requires i < |ts| && ts[i] in m
    ensures MinSpare(ts[..i + 1], m) ==
            if ts[i].limit - m[ts[i]] < MinSpare(ts[..i], m) then ts[i].limit - m[ts[i]] else MinSpare(ts[..i], m)
  {
    assert ts[..i + 1][..i] == ts[..i];
  }

  lemma {:induction false} MinSpareIsBound(ts: seq<MemTracker>, m: map<MemTracker, int>, bytes: int)
    requires bytes <= INT64_MAX
    ensures bytes <= MinSpare(ts, m) <==> forall t :: t in ts && t in m ==> m[t] + bytes <= t.limit
  {
    if ts != [] {
      var rest, last := ts[..|ts| - 1], ts[|ts| - 1];
      MinSpareIsBound(rest, m, bytes);
      assert forall t :: t in ts <==> t in rest || t == last;
    }
  }

  lemma FitsSplit(b: Books, x: MemTracker, rest: seq<MemTracker>, bytes: int)
    ensures FitsAll(b, [x] + rest, bytes) <==> FitsAll(b, [x], bytes) && FitsAll(b, rest, bytes)
  {
    assert x in [x] + rest;
    if FitsAll(b, [x] + rest, bytes) {
      assert forall t :: t in rest ==> t in [x] + rest;
    }
  }

  lemma FitsSuffix(b: Books, ts: seq<MemTracker>, i: nat, bytes: int)
    requires i < |ts| && !FitsAll(b, [ts[i]], bytes)
    ensures !FitsAll(b, ts, bytes)
  {
    assert ts[i] in ts;
  }

  ghost predicate NoCallbacks(ts: seq<MemTracker>)
    reads ts`gcFunctions
  {
    forall t :: t in ts ==> t.gcFunctions == []
  }

  lemma PartialNone(b: Books, b': Books, log: seq<Posting>, bytes: int)
    ensures Partial(b, b', log, [], bytes) <==> Posted(b, b', log)
  {
  }

  lemma PartialElsewhere(b: Books, b': Books, log: seq<Posting>, reserved: seq<MemTracker>, x: MemTracker, bytes: int)
    requires Partial(b, b', log, reserved, bytes) && x in b.current && x !in reserved
    ensures x in b'.current && b'.current[x] == b.current[x] + Effect(log, x)
  {
  }

  lemma PartialReserve(b0: Books, b: Books, mid: Books, log: seq<Posting>, more: seq<Posting>,
                       reserved: seq<MemTracker>, x: MemTracker, bytes: int)
    requires Partial(b0, b, log, reserved, bytes) && Posted(b, mid, more) && x in mid.current && x !in reserved
    ensures Partial(b0, mid, log + more, reserved, bytes)
    ensures Partial(b0, MovedAt(mid, x, bytes), log + more, [x] + reserved, bytes)
  {
    forall t | t in b0.current
      ensures Effect(log + more, t) == Effect(log, t) + Effect(more, t)
      ensures OwnEffect(log + more, t) == OwnEffect(log, t) + OwnEffect(more, t)
    {
      EffectAppends(log, more, t);
    }
    hide Effect, OwnEffect;
  }

  lemma PartialMove(b0: Books, b: Books, log: seq<Posting>, reserved: seq<MemTracker>, x: MemTracker, bytes: int)
    requires Partial(b0, b, log, reserved, bytes) && x in b.current && x !in reserved
    ensures Partial(b0, MovedAt(b, x, bytes), log, reserved + [x], bytes)
  {
    hide Effect, OwnEffect;
  }

  lemma PartialStart(tree: TrackerTree)
    ensures forall bytes :: Partial(tree.Figures(), tree.Figures(), [], [], bytes)
  {
  }

  lemma PartialOfNothing(tree: TrackerTree, ts: seq<MemTracker>)
    ensures Partial(tree.Figures(), tree.Figures(), [], ts, 0)
  {
  }

  /** When all trackers of all_trackers_ have moved, the path has. */
  lemma PathMoved(tree: TrackerTree, x: MemTracker, b0: Books, amount: int)
    requires tree.Shape() && x in tree.live && Partial(b0, tree.Figures(), [], x.allTrackers, amount)
    ensures forall t :: t in tree.live ==> t in b0.current && t.current == b0.current[t] + Hit(OnPath(t, x), amount)
  {
    PathFacts(tree, x);
    FiguresAre(tree);
    assert forall t: MemTracker :: Effect([], t) == 0;
    hide TrackerTree.Shape, TrackerTree.Figures, OnPath, NoDuplicates, Effect, OwnEffect;
  }

  lemma PartialUndo(b0: Books, b: Books, log: seq<Posting>, reserved: seq<MemTracker>, x: MemTracker, bytes: int)
    requires Partial(b0, b, log, reserved + [x], bytes) && x in b.current && x !in reserved
    ensures Partial(b0, MovedAt(b, x, -bytes), log, reserved, bytes)
  {
    hide Effect, OwnEffect;
  }

  /** b with the counter of x moved. */
  ghost function MovedAt(b: Books, x: MemTracker, amount: int): Books
    requires x in b.current
  {
    b.(current := b.current[x := b.current[x] + amount])
  }

  ghost predicate MovedBy(b: Books, b': Books, x: MemTracker, amount: int) {
    x in b.current && b' == MovedAt(b, x, amount)
  }

  lemma FiguresMoved(tree: TrackerTree, b: Books, x: MemTracker, amount: int)
    requires b.current.Keys == b.own.Keys == b.children.Keys == tree.live && x in tree.live
    requires x.current == b.current[x] + amount
    requires forall t :: t in tree.live ==> (t != x ==> t.current == b.current[t]) && t.own == b.own[t] && t.children == b.children[t]
    ensures tree.Figures() == MovedAt(b, x, amount)
  {
    assert (map t | t in tree.live :: t.own) == b.own;
    assert (map t | t in tree.live :: t.children) == b.children;
    assert (map t | t in tree.live :: t.current) == b.current[x := b.current[x] + amount];
  }

  lemma MovedByNothing(b: Books, x: MemTracker)
    requires x in b.current
    ensures MovedBy(b, b, x, 0)
  {
  }

  lemma PostedNothing(b: Books)
    requires b.current.Keys == b.own.Keys == b.children.Keys
    ensures Posted(b, b, [])
  {
  }

  lemma PostedThenPosted(b: Books, b': Books, b'': Books, log: seq<Posting>, more: seq<Posting>)
    requires Posted(b, b', log) && Posted(b', b'', more)
    ensures Posted(b, b'', log + more)
  {
    forall t | t in b.current
      ensures b''.current[t] == b.current[t] + Effect(log + more, t) && b''.own[t] == b.own[t] + OwnEffect(log + more, t)
    {
      EffectAppends(log, more, t);
    }
  }

  lemma EffectOfChange(x: MemTracker, c: int, d: int, log: seq<Posting>, t: MemTracker)
    ensures Effect([Posting(x, d)] + log, t) == Effect([Posting(x, c)] + log, t) + Effect([Posting(x, d - c)], t)
    ensures OwnEffect([Posting(x, d)] + log, t) == OwnEffect([Posting(x, c)] + log, t) + OwnEffect([Posting(x, d - c)], t)
  {
    EffectAppends([Posting(x, d)], log, t);
    EffectAppends([Posting(x, c)], log, t);
    EffectOfOne(Posting(x, d), t);
    EffectOfOne(Posting(x, c), t);
    EffectOfOne(Posting(x, d - c), t);
  }

  lemma Repost(b: Books, b': Books, b'': Books, x: MemTracker, c: int, d: int, log: seq<Posting>)
    requires Posted(b, b', [Posting(x, c)] + log) && Posted(b', b'', [Posting(x, d - c)])
    ensures Posted(b, b'', [Posting(x, d)] + log)
  {
    assert ([Posting(x, c)] + log)[0].tracker == x;
    forall p | p in [Posting(x, d)] + log ensures p.tracker in b.current {
      assert p == Posting(x, d) || p in [Posting(x, c)] + log;
      assert Posting(x, c) in [Posting(x, c)] + log;
    }
    hide Effect, OwnEffect;
    forall t | t in b.current
      ensures b''.current[t] == b.current[t] + Effect([Posting(x, d)] + log, t)
      ensures b''.own[t] == b.own[t] + OwnEffect([Posting(x, d)] + log, t)
    {
      EffectChanges(b, b', b'', x, c, d, log, t);
    }
  }

  lemma EffectChanges(b: Books, b': Books, b'': Books, x: MemTracker, c: int, d: int, log: seq<Posting>, t: MemTracker)
    requires Posted(b, b', [Posting(x, c)] + log) && Posted(b', b'', [Posting(x, d - c)]) && t in b.current
    ensures b''.current[t] == b.current[t] + Effect([Posting(x, d)] + log, t)
    ensures b''.own[t] == b.own[t] + OwnEffect([Posting(x, d)] + log, t)
  {
    hide Effect, OwnEffect;
    EffectOfChange(x, c, d, log, t);
  }

  lemma EffectOfNothing(x: MemTracker, log: seq<Posting>, t: MemTracker)
    ensures Effect([Posting(x, 0)] + log, t) == Effect(log, t)
    ensures OwnEffect([Posting(x, 0)] + log, t) == OwnEffect(log, t)
  {
    EffectAppends([Posting(x, 0)], log, t);
    EffectOfOne(Posting(x, 0), t);
  }

  lemma WithoutNothing(b: Books, b': Books, x: MemTracker, log: seq<Posting>)
    requires Posted(b, b', [Posting(x, 0)] + log)
    ensures Posted(b, b', log)
  {
    hide Effect, OwnEffect;
    forall t | t in b.current
      ensures b'.current[t] == b.current[t] + Effect(log, t) && b'.own[t] == b.own[t] + OwnEffect(log, t)
    {
      EffectOfNothing(x, log, t);
    }
    forall p | p in log ensures p.tracker in b.current {
      assert p in [Posting(x, 0)] + log;
    }
  }

  /** A posting that is taken back leaves the others. */
  lemma Unpost(b: Books, b': Books, b'': Books, x: MemTracker, c: int, log: seq<Posting>)
    requires Posted(b, b', [Posting(x, c)] + log) && Posted(b', b'', [Posting(x, -c)])
    ensures Posted(b, b'', log)
  {
    hide *;
    Repost(b, b', b'', x, c, 0, log);
    WithoutNothing(b, b'', x, log);
  }

  /** Room everywhere on the path is the same as room within the spare capacity. */
  lemma SpareMeansFit(tree: TrackerTree, x: MemTracker, b: Books, bytes: int)
    requires tree.Shape() && x in tree.live && b == tree.Figures() && bytes <= INT64_MAX
    ensures FitsAll(b, x.allTrackers, bytes) <==> bytes <= MinSpare(x.limitTrackers, b.current)
  {
    PathFacts(tree, x);
    assert tree.TrackerOk(x);
    MinSpareIsBound(x.limitTrackers, b.current, bytes);
    hide MinSpare;
  }

  lemma EndedCases(b: Books, b': Books, ts: seq<MemTracker>, i: int, log: seq<Posting>, reserved: seq<MemTracker>, bytes: int, quiet: bool)
    requires Ended(b, b', ts, i, log, reserved, bytes, quiet)
    ensures -1 <= i < |ts| && Partial(b, b', log, ts[i + 1..], bytes)
    ensures i == -1 ==> Partial(b, b', log, ts, bytes) && Within(b', log, ts)
    ensures i >= 0 ==> ts[i] !in ts[i + 1..] && !FitsAll(b', [ts[i]], bytes)
    ensures quiet ==> log == [] && (i == -1 <==> FitsAll(b, ts, bytes))
  {
    assert ts[0..] == ts;
    hide Partial, FitsAll;
  }

  lemma FiguresAre(tree: TrackerTree)
    ensures tree.Figures().current.Keys == tree.Figures().own.Keys == tree.Figures().children.Keys == tree.live
    ensures forall t :: t in tree.live ==>
      tree.Figures().current[t] == t.current && tree.Figures().own[t] == t.own && tree.Figures().children[t] == t.children
  {
  }

  /** Books that are only postings away from balanced books are balanced. */
  lemma PostedIsValid(tree: TrackerTree, b0: Books, log: seq<Posting>)
    requires tree.Shape() && Posted(b0, tree.Figures(), log)
    ensures Balanced(b0) ==> tree.Valid()
  {
    if Balanced(b0) {
      PostingsKeepBalance(tree, b0, tree.Figures(), log);
    }
  }

  /** b with the own bytes of x moved. */
  ghost function OwnedAt(b: Books, x: MemTracker, amount: int): Books
    requires x in b.own
  {
    b.(own := b.own[x := b.own[x] + amount])
  }

  lemma FiguresOwned(tree: TrackerTree, b: Books, x: MemTracker, amount: int)
    requires b.current.Keys == b.own.Keys == b.children.Keys == tree.live && x in tree.live
    requires x.own == b.own[x] + amount
    requires forall t :: t in tree.live ==> t.current == b.current[t] && (t != x ==> t.own == b.own[t]) && t.children == b.children[t]
    ensures tree.Figures() == OwnedAt(b, x, amount)
  {
    assert (map t | t in tree.live :: t.current) == b.current;
    assert (map t | t in tree.live :: t.children) == b.children;
    assert (map t | t in tree.live :: t.own) == b.own[x := b.own[x] + amount];
  }

  /** A walk that reserved the whole path has made one posting. */
  lemma SettleAttempt(tree: TrackerTree, x: MemTracker, b0: Books, b: Books, log: seq<Posting>, bytes: int)
    requires tree.Shape() && x in tree.live && b.current.Keys == tree.live
    requires Partial(b0, b, log, x.allTrackers, bytes)
    ensures x in b.own && Posted(b0, OwnedAt(b, x, bytes), log + [Posting(x, bytes)])
  {
    hide Effect, OwnEffect, TrackerTree.Shape, Posted, OwnedAt;
    var p := Posting(x, bytes);
    AttemptEffects(tree, x, log, bytes);
    SettlePosting(b0, b, log, x.allTrackers, p);
  }

  lemma SettlePosting(b0: Books, b: Books, log: seq<Posting>, path: seq<MemTracker>, p: Posting)
    requires Partial(b0, b, log, path, p.bytes) && p.tracker in b0.current
    requires forall t :: t in b0.current ==>
      Effect(log + [p], t) == Effect(log, t) + Hit(t in path, p.bytes)
      && OwnEffect(log + [p], t) == OwnEffect(log, t) + Hit(t == p.tracker, p.bytes)
    ensures p.tracker in b.own && Posted(b0, OwnedAt(b, p.tracker, p.bytes), log + [p])
  {
    hide Effect, OwnEffect;
  }

  lemma AttemptEffects(tree: TrackerTree, x: MemTracker, log: seq<Posting>, bytes: int)
    requires tree.Shape() && x in tree.live
    ensures forall t :: t in tree.live ==>
      Effect(log + [Posting(x, bytes)], t) == Effect(log, t) + Hit(t in x.allTrackers, bytes)
      && OwnEffect(log + [Posting(x, bytes)], t) == OwnEffect(log, t) + Hit(t == x, bytes)
  {
    PathFacts(tree, x);
    hide TrackerTree.Shape, OnPath;
    var p := Posting(x, bytes);
    forall t | t in tree.live
      ensures Effect(log + [p], t) == Effect(log, t) + Hit(t in x.allTrackers, bytes)
      ensures OwnEffect(log + [p], t) == OwnEffect(log, t) + Hit(t == x, bytes)
    {
      EffectAppends(log, [p], t);
      EffectOfOne(p, t);
    }
  }

  /** An attempt that is taken back has only done what the callbacks did. */
  lemma UndoneAttempt(tree: TrackerTree, b0: Books, log: seq<Posting>)
    requires tree.Shape() && Posted(b0, tree.Figures(), log)
    ensures Posted(b0, tree.Figures(), log + [])
    ensures Balanced(b0) ==> tree.Valid()
  {
    assert log + [] == log;
    PostedIsValid(tree, b0, log);
  }

  lemma NothingLeft(tree: TrackerTree, b0: Books, log: seq<Posting>)
    requires tree.Shape() && b0 == tree.Figures() && log == []
    ensures Posted(b0, tree.Figures(), log + [])
    ensures Balanced(b0) ==> tree.Valid()
  {
    FiguresAre(tree);
    hide TrackerTree.Figures, TrackerTree.Shape;
    PostedNothing(b0);
    assert log + [] == log;
  }

  // ----- trackers that come and go

  /** b with a new leaf t below p. */
  ghost function Grown(b: Books, p: MemTracker, t: MemTracker): Books
    requires p in b.children
  {
    Books(b.current[t := 0], b.own[t := 0], b.children[p := b.children[p] + [t]][t := []])
  }

  /** The tree is the one of b with a new leaf n below p. */
  ghost predicate GrewBy(tree: TrackerTree, b: Books, p: MemTracker, n: MemTracker)
    reads tree, tree.live, b.current.Keys, n
  {
    && b.current.Keys == b.own.Keys == b.children.Keys && tree.live == b.current.Keys + {n}
    && p in b.current && n !in b.current && n.tree == tree
    && n.parent == p && n.depth == p.depth + 1 && n.current == n.own == 0 && n.children == []
    && n.allTrackers == [n] + p.allTrackers && tree.LimitsOk(n)
    && (forall x :: x in b.current ==> x.current == b.current[x] && x.own == b.own[x])
    && (forall x :: x in b.current ==> x.children == if x == p then b.children[x] + [n] else b.children[x])
  }

  lemma RootFacts(tree: TrackerTree)
    requires tree.Valid()
    ensures tree.root != null && tree.root in tree.live && tree.root.parent == null
  {
  }

  lemma ParentFacts(tree: TrackerTree, p: MemTracker)
    requires tree.Valid() && p in tree.live
    ensures p.tree == tree && tree.PathOk(p)
    ensures Balanced(tree.Figures()) && AllWereOk(tree, tree.Figures()) && tree.Figures().current.Keys == tree.live
  {
    assert tree.TrackerOk(p);
    ShapeWas(tree);
    FiguresAre(tree);
    hide Balanced, AllWereOk, TrackerTree.Shape;
  }

  lemma ValidIsBalanced(tree: TrackerTree)
    ensures tree.Valid() ==> Balanced(tree.Figures())
  {
  }

  lemma NewLeafIs(tree: TrackerTree, b: Books, p: MemTracker, n: MemTracker)
    requires GrewBy(tree, b, p, n)
    ensures n.parent == p && n.current == n.own == 0 && n.children == []
  {
  }

  lemma FiguresGrown(tree: TrackerTree, b: Books, p: MemTracker, n: MemTracker)
    requires GrewBy(tree, b, p, n)
    ensures tree.Figures() == Grown(b, p, n)
  {
    assert (map x | x in tree.live :: x.current) == b.current[n := 0];
    assert (map x | x in tree.live :: x.own) == b.own[n := 0];
    assert (map x | x in tree.live :: x.children) == b.children[p := b.children[p] + [n]][n := []];
  }

  lemma {:induction false} SumAgrees(cs: seq<MemTracker>, m: map<MemTracker, int>, m': map<MemTracker, int>)
    requires forall c :: c in cs ==> c in m && c in m' && m[c] == m'[c]
    ensures SumOf(cs, m) == SumOf(cs, m')
  {
    if cs != [] {
      SumAgrees(cs[..|cs| - 1], m, m');
    }
  }

  /** What Shape says of t, for a tree that had the trackers and the children of b. */
  ghost predicate WasOk(tree: TrackerTree, b: Books, t: MemTracker)
    reads tree`root, t`allTrackers, t`limitTrackers
  {
    && t in b.current && t in b.children && t.tree == tree
    && (t.parent == null ==> t == tree.root)
    && (t.parent != null ==> t.parent in b.children && t.depth == t.parent.depth + 1 && t in b.children[t.parent])
    && Siblings(b.children[t], t)
    && (forall c :: c in b.children[t] ==> c in b.current)
    && PathIn(b.current.Keys, tree.root, t, t.allTrackers)
    && tree.LimitsOk(t)
  }

  ghost predicate AllWereOk(tree: TrackerTree, b: Books)
    reads tree`root, b.current.Keys`allTrackers, b.current.Keys`limitTrackers
  {
    && b.current.Keys == b.own.Keys == b.children.Keys
    && tree.root != null && tree.root in b.current && tree.root.parent == null && tree.root.depth == 0
    && forall t :: t in b.current ==> WasOk(tree, b, t)
  }

  lemma ShapeWas(tree: TrackerTree)
    requires tree.Shape()
    ensures AllWereOk(tree, tree.Figures())
  {
    var b := tree.Figures();
    FiguresAre(tree);
    hide TrackerTree.Figures, PathIn;
    forall t | t in tree.live ensures WasOk(tree, b, t) {
      assert tree.TrackerOk(t);
    }
  }

  lemma GrownStaysOk(tree: TrackerTree, b: Books, p: MemTracker, n: MemTracker, t: MemTracker)
    requires b.current.Keys == b.children.Keys && WasOk(tree, b, t) && tree.live == b.current.Keys + {n}
    requires n !in b.current && n.parent == p && n.depth == p.depth + 1
    requires forall x :: x in b.current ==> x.children == if x == p then b.children[x] + [n] else b.children[x]
    ensures tree.TrackerOk(t)
  {
  }

  lemma NewIsOk(tree: TrackerTree, b: Books, p: MemTracker, n: MemTracker)
    requires p in b.current && WasOk(tree, b, p) && tree.live == b.current.Keys + {n}
    requires n.tree == tree && n.parent == p && n.depth == p.depth + 1 && n.children == [] && n in p.children
    requires n.allTrackers == [n] + p.allTrackers && tree.LimitsOk(n)
    ensures tree.TrackerOk(n)
  {
  }

  lemma ShapeGrown(tree: TrackerTree, b: Books, p: MemTracker, n: MemTracker)
    requires AllWereOk(tree, b) && GrewBy(tree, b, p, n)
    ensures tree.Shape() && ChildrenLive(b)
  {
    hide TrackerTree.TrackerOk, TrackerTree.LimitsOk, PathIn, Siblings;
    forall t | t in tree.live ensures tree.TrackerOk(t) {
      if t == n {
        NewIsOk(tree, b, p, n);
      } else {
        hide WasOk;
        GrownStaysOk(tree, b, p, n, t);
      }
    }
  }

  lemma GrownIsValid(tree: TrackerTree, b: Books, p: MemTracker, n: MemTracker)
    requires AllWereOk(tree, b) && GrewBy(tree, b, p, n) && Balanced(b)
    ensures tree.Valid()
  {
    ShapeGrown(tree, b, p, n);
    FiguresGrown(tree, b, p, n);
    assert p in b.current && n !in b.current;
    hide TrackerTree.Shape, Balanced, Grown, AllWereOk, GrewBy, ChildrenLive;
    GrownIsBalanced(b, p, n);
  }

  ghost predicate ChildrenLive(b: Books) {
    b.current.Keys == b.own.Keys == b.children.Keys
    && forall t, c :: t in b.children && c in b.children[t] ==> c in b.current
  }

  lemma GrownIsBalanced(b: Books, p: MemTracker, t: MemTracker)
    requires Balanced(b) && ChildrenLive(b) && p in b.current && t !in b.current
    ensures Balanced(Grown(b, p, t))
  {
    var b' := Grown(b, p, t);
    forall x | x in b.current ensures b'.current[x] == b'.own[x] + SumOf(b'.children[x], b'.current) {
      SumAgrees(b.children[x], b.current, b'.current);
      assert (b.children[x] + [t])[..|b.children[x]|] == b.children[x];
    }
  }

  // ----- and that go

  function Without(cs: seq<MemTracker>, x: MemTracker): (r: seq<MemTracker>)
    ensures forall c :: c in r ==> c in cs
  {
    if cs == [] then []
    else if cs[|cs| - 1] == x then cs[..|cs| - 1]
    else Without(cs[..|cs| - 1], x) + [cs[|cs| - 1]]
  }

  lemma {:induction false} WithoutFacts(cs: seq<MemTracker>, x: MemTracker)
    requires NoDuplicates(cs)
    ensures NoDuplicates(Without(cs, x)) && forall c :: c in Without(cs, x) <==> c in cs && c != x
    ensures x !in cs ==> Without(cs, x) == cs
  {
    if cs != [] {
      var rest, last := cs[..|cs| - 1], cs[|cs| - 1];
      WithoutFacts(rest, x);
      assert last !in rest;
      assert cs == rest + [last];
      if last != x {
        NoDuplicatesPlus(Without(rest, x), last);
      }
    }
  }

  lemma NoDuplicatesPlus(cs: seq<MemTracker>, c: MemTracker)
    requires NoDuplicates(cs) && c !in cs
    ensures NoDuplicates(cs + [c])
  {
  }

  lemma SiblingsWithout(cs: seq<MemTracker>, x: MemTracker, t: MemTracker)
    requires Siblings(cs, t)
    ensures Siblings(Without(cs, x), t) && forall c :: c in Without(cs, x) <==> c in cs && c != x
  {
    WithoutFacts(cs, x);
    var r := Without(cs, x);
    forall i | 0 <= i < |r| ensures r[i].parent == t && r[i].depth == t.depth + 1 {
      assert r[i] in cs;
    }
  }

  lemma {:induction false} SumWithout(cs: seq<MemTracker>, m: map<MemTracker, int>, x: MemTracker)
    requires NoDuplicates(cs) && x in cs && x in m
    ensures SumOf(Without(cs, x), m) == SumOf(cs, m) - m[x]
  {
    var rest, last := cs[..|cs| - 1], cs[|cs| - 1];
    if last != x {
      SumWithout(rest, m, x);
      assert (Without(rest, x) + [last])[..|Without(rest, x)|] == Without(rest, x);
    }
  }

  /** The tree is the one of b without the leaf n below p, whose bytes p has given back. */
  ghost predicate ShrankBy(tree: TrackerTree, b: Books, p: MemTracker, n: MemTracker, bytes: int)
    reads tree, tree.live, b.current.Keys
  {
    && b.current.Keys == b.own.Keys == b.children.Keys && tree.live == b.current.Keys - {n}
    && p in b.current && n in b.current && p != n
    && (forall x :: x in tree.live ==> x.current == b.current[x] && x.own == b.own[x] + Hit(x == p, bytes))
    && (forall x :: x in tree.live ==> x.children == if x == p then Without(b.children[x], n) else b.children[x])
  }

  ghost function Shrunk(b: Books, p: MemTracker, n: MemTracker, bytes: int): Books
    requires p in b.children && p in b.own
  {
    Books(b.current - {n}, b.own[p := b.own[p] + bytes] - {n}, b.children[p := Without(b.children[p], n)] - {n})
  }

  lemma CurrentShrunk(tree: TrackerTree, b: Books, p: MemTracker, n: MemTracker, bytes: int)
    requires ShrankBy(tree, b, p, n, bytes)
    ensures (map x | x in tree.live :: x.current) == b.current - {n}
  {
    hide Without;
  }

  lemma OwnShrunk(tree: TrackerTree, b: Books, p: MemTracker, n: MemTracker, bytes: int)
    requires ShrankBy(tree, b, p, n, bytes)
    ensures (map x | x in tree.live :: x.own) == b.own[p := b.own[p] + bytes] - {n}
  {
    hide Without;
  }

  lemma ChildrenShrunk(tree: TrackerTree, b: Books, p: MemTracker, n: MemTracker, bytes: int)
    requires ShrankBy(tree, b, p, n, bytes)
    ensures (map x | x in tree.live :: x.children) == b.children[p := Without(b.children[p], n)] - {n}
  {
    hide Without;
  }

  lemma FiguresShrunk(tree: TrackerTree, b: Books, p: MemTracker, n: MemTracker, bytes: int)
    requires ShrankBy(tree, b, p, n, bytes)
    ensures tree.Figures() == Shrunk(b, p, n, bytes)
  {
    CurrentShrunk(tree, b, p, n, bytes);
    OwnShrunk(tree, b, p, n, bytes);
    ChildrenShrunk(tree, b, p, n, bytes);
    assert p in b.own && p in b.children;
    hide ShrankBy, Without;
  }

  /** n is a leaf, and only p has it as a child. */
  ghost predicate LeafOf(b: Books, p: MemTracker, n: MemTracker) {
    && n in b.children && b.children[n] == [] && p in b.children && n in b.children[p] && p != n
    && (forall t :: t in b.children ==> NoDuplicates(b.children[t]))
    && (forall t :: t in b.children && t != p ==> n !in b.children[t])
  }

  lemma ShrunkBalances(b: Books, p: MemTracker, n: MemTracker, x: MemTracker)
    requires Balanced(b) && ChildrenLive(b) && LeafOf(b, p, n) && x in b.current && x != n
    ensures b.current[x] == b.own[x] + Hit(x == p, b.current[n]) + SumOf(Without(b.children[x], n), b.current - {n})
    ensures x != p ==> Without(b.children[x], n) == b.children[x]
  {
    WithoutFacts(b.children[x], n);
    hide Without;
    SumAgrees(Without(b.children[x], n), b.current, b.current - {n});
    if x == p {
      SumWithout(b.children[p], b.current, n);
    }
    hide SumOf;
  }

  lemma ShrunkKeys(b: Books, p: MemTracker, n: MemTracker, bytes: int)
    requires b.current.Keys == b.own.Keys == b.children.Keys && p in b.current
    ensures var b' := Shrunk(b, p, n, bytes);
            b'.current.Keys == b'.own.Keys == b'.children.Keys == b.current.Keys - {n}
  {
    hide Without;
  }

  lemma ShrunkAt(b: Books, p: MemTracker, n: MemTracker, x: MemTracker)
    requires Balanced(b) && ChildrenLive(b) && LeafOf(b, p, n) && x in b.current && x != n
    ensures var b' := Shrunk(b, p, n, b.current[n]);
            x in b'.current && x in b'.own && x in b'.children
            && b'.current[x] == b'.own[x] + SumOf(b'.children[x], b'.current)
  {
    ShrunkBalances(b, p, n, x);
    hide SumOf, Without, NoDuplicates, ChildrenLive;
  }

  lemma ShrunkIsBalanced(b: Books, p: MemTracker, n: MemTracker)
    requires Balanced(b) && ChildrenLive(b) && LeafOf(b, p, n)
    ensures Balanced(Shrunk(b, p, n, b.current[n]))
  {
    var b' := Shrunk(b, p, n, b.current[n]);
    ShrunkKeys(b, p, n, b.current[n]);
    hide LeafOf, ChildrenLive, Shrunk, SumOf;
    forall x | x in b'.current ensures b'.current[x] == b'.own[x] + SumOf(b'.children[x], b'.current) {
      ShrunkAt(b, p, n, x);
    }
  }

  /** No path but its own passes through a leaf. */
  lemma LeafOffPath(tree: TrackerTree, b: Books, p: MemTracker, n: MemTracker, t: MemTracker)
    requires AllWereOk(tree, b) && LeafOf(b, p, n) && t in b.current && t != n
    ensures PathIn(b.current.Keys - {n}, tree.root, t, t.allTrackers)
  {
    assert WasOk(tree, b, t);
    var all := t.allTrackers;
    forall i | 0 <= i < |all| ensures all[i] != n {
      if i > 0 {
        assert all[i - 1].parent == all[i];
        assert WasOk(tree, b, all[i - 1]);
      }
    }
  }

  function Kids(b: Books, p: MemTracker, n: MemTracker, t: MemTracker): seq<MemTracker>
    requires t in b.children
  {
    if t == p then Without(b.children[t], n) else b.children[t]
  }

  lemma KidsShrunk(b: Books, p: MemTracker, n: MemTracker, t: MemTracker)
    requires LeafOf(b, p, n) && t in b.children && Siblings(b.children[t], t)
    ensures Siblings(Kids(b, p, n, t), t)
    ensures forall c :: c in Kids(b, p, n, t) <==> c in b.children[t] && c != n
  {
    SiblingsWithout(b.children[t], n, t);
    hide Siblings, Without;
  }

  lemma ParentStays(tree: TrackerTree, b: Books, p: MemTracker, n: MemTracker, t: MemTracker)
    requires AllWereOk(tree, b) && LeafOf(b, p, n) && t in b.current && t != n && t.parent != null
    ensures t.parent in b.current && t.parent != n && t.depth == t.parent.depth + 1 && t in Kids(b, p, n, t.parent)
  {
    assert WasOk(tree, b, t);
    assert WasOk(tree, b, t.parent);
    hide AllWereOk, PathIn, TrackerTree.LimitsOk;
    KidsShrunk(b, p, n, t.parent);
  }

  lemma KidsStay(tree: TrackerTree, b: Books, p: MemTracker, n: MemTracker, t: MemTracker)
    requires AllWereOk(tree, b) && LeafOf(b, p, n) && t in b.current && t != n
    ensures t.tree == tree && (t.parent == null ==> t == tree.root) && tree.LimitsOk(t)
    ensures Siblings(Kids(b, p, n, t), t) && forall c :: c in Kids(b, p, n, t) ==> c in b.current && c != n
  {
    assert WasOk(tree, b, t);
    hide AllWereOk, PathIn, TrackerTree.LimitsOk;
    KidsShrunk(b, p, n, t);
  }

  lemma ShrunkStaysOk(tree: TrackerTree, b: Books, p: MemTracker, n: MemTracker, bytes: int, t: MemTracker)
    requires AllWereOk(tree, b) && ShrankBy(tree, b, p, n, bytes) && t in tree.live
    requires LeafOf(b, p, n)
    ensures tree.TrackerOk(t)
  {
    hide AllWereOk, PathIn, TrackerTree.LimitsOk, Siblings, LeafOf, Kids, ShrankBy;
    ShrunkLists(tree, b, p, n, bytes);
    LeafOffPath(tree, b, p, n, t);
    KidsStay(tree, b, p, n, t);
    if t.parent != null {
      ParentStays(tree, b, p, n, t);
    }
  }

  lemma ShrunkLists(tree: TrackerTree, b: Books, p: MemTracker, n: MemTracker, bytes: int)
    requires ShrankBy(tree, b, p, n, bytes)
    ensures b.current.Keys == b.children.Keys && tree.live == b.current.Keys - {n}
    ensures forall t :: t in tree.live ==> t.children == Kids(b, p, n, t)
  {
  }

  lemma ShapeShrunk(tree: TrackerTree, b: Books, p: MemTracker, n: MemTracker, bytes: int)
    requires AllWereOk(tree, b) && ShrankBy(tree, b, p, n, bytes) && LeafOf(b, p, n) && n != tree.root
    ensures tree.Shape() && ChildrenLive(b)
  {
    hide TrackerTree.TrackerOk;
    forall t | t in tree.live ensures tree.TrackerOk(t) {
      ShrunkStaysOk(tree, b, p, n, bytes, t);
    }
    hide TrackerTree.LimitsOk, PathIn, Siblings, LeafOf;
  }

  lemma ShrunkIsValid(tree: TrackerTree, b: Books, p: MemTracker, n: MemTracker, bytes: int)
    requires AllWereOk(tree, b) && ShrankBy(tree, b, p, n, bytes) && Balanced(b)
    requires LeafOf(b, p, n) && n != tree.root && n in b.current && bytes == b.current[n]
    ensures tree.Valid()
  {
    ShapeShrunk(tree, b, p, n, bytes);
    FiguresShrunk(tree, b, p, n, bytes);
    hide TrackerTree.Shape, Balanced, Shrunk, AllWereOk, ShrankBy, ChildrenLive;
    ShrunkIsBalanced(b, p, n);
  }

  lemma LeafFacts(tree: TrackerTree, n: MemTracker)
    requires tree.Valid() && n in tree.live && n.parent != null && n.children == []
    ensures tree.Shape() && n.parent in tree.live && n.parent.tree == tree && n.parent != n && n.parent.depth < n.depth
    ensures n != tree.root && LeafOf(tree.Figures(), n.parent, n)
  {
    FiguresAre(tree);
    assert tree.TrackerOk(n);
    forall t | t in tree.live
      ensures NoDuplicates(t.children) && (t != n.parent ==> n !in t.children)
    {
      assert tree.TrackerOk(t);
    }
    assert tree.TrackerOk(n.parent);
    hide TrackerTree.Figures;
  }

  lemma LeafAfterRelease(tree: TrackerTree, b: Books, n: MemTracker, bytes: int)
    requires tree.Valid() && n in tree.live && n.parent != null && n.parent.depth < n.depth && n in b.current && bytes == b.current[n]
    requires Posted(b, tree.Figures(), [Posting(n.parent, -bytes)]) && LeafOf(b, n.parent, n)
    ensures Balanced(tree.Figures()) && AllWereOk(tree, tree.Figures()) && LeafOf(tree.Figures(), n.parent, n)
    ensures n in tree.Figures().current && tree.Figures().current[n] == bytes
  {
    ShapeWas(tree);
    EffectOfOne(Posting(n.parent, -bytes), n);
    if OnPath(n, n.parent) {
      OnPathDepth(n, n.parent);
    }
    hide TrackerTree.Shape, Balanced, AllWereOk, LeafOf;
  }

  lemma GoneAt(b: Books, b': Books, p: MemTracker, n: MemTracker, bytes: int, t: MemTracker)
    requires Posted(b, b', [Posting(p, -bytes)]) && n.parent == p && p.depth < n.depth && t in b'.current && t != n
    ensures t in b.current && t in b.own && t in b.children && b'.children == b.children
    ensures b'.current[t] == b.current[t] - Hit(OnPath(t, n), bytes) && b'.own[t] == b.own[t] - Hit(t == p, bytes)
  {
    EffectOfOne(Posting(p, -bytes), t);
    hide Effect, OwnEffect;
  }

  /** After the destructor, in terms of the books before it. */
  lemma LeafIsGone(tree: TrackerTree, b: Books, b': Books, p: MemTracker, n: MemTracker, bytes: int)
    requires Posted(b, b', [Posting(p, -bytes)]) && ShrankBy(tree, b', p, n, bytes) && LeafOf(b', p, n)
    requires n.parent == p && p.depth < n.depth
    ensures forall t :: t in tree.live ==> t in b.current && t in b.own && t in b.children
    ensures forall t :: t in tree.live ==> t.own == b.own[t] && t.current == b.current[t] - Hit(OnPath(t, n), bytes)
    ensures forall t :: t in tree.live ==> t.children == Without(b.children[t], n)
  {
    forall t | t in tree.live
      ensures t in b.current && t in b.own && t in b.children
      ensures t.own == b.own[t] && t.current == b.current[t] - Hit(OnPath(t, n), bytes) && t.children == Without(b.children[t], n)
    {
      hide Effect, OwnEffect, OnPath, Posted, NoDuplicates;
      GoneAt(b, b', p, n, bytes, t);
      WithoutFacts(b'.children[t], n);
    }
  }
}
