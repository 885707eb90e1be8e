/** base/object_pool.h: a pool of objects that keeps every node it ever allocated on one intrusive list and the nodes
without an object on another.

The counters of a node are its history: how often an object was constructed in it and destroyed, and how often the
node itself was deleted. What T's constructor computes plays no role.
*/
module ObjectPools {

  class ListNode {
    var nextOnFreeList: ListNode?
    var nextOnAllocList: ListNode?
    var isOnFreeList: bool
    ghost var constructed: nat
    ghost var destroyed: nat
    ghost var deleted: nat

    constructor (nextOnAllocList: ListNode?)
      ensures this.nextOnAllocList == nextOnAllocList && nextOnFreeList == null && !isOnFreeList
      ensures constructed == destroyed == deleted == 0
    {
      nextOnFreeList, this.nextOnAllocList, isOnFreeList := null, nextOnAllocList, false;
      constructed, destroyed, deleted := 0, 0, 0;
    }

    /** Memory that can be used, with no object in it. */
    ghost predicate Vacant()
      reads this
    {
      deleted == 0 && constructed == destroyed
    }

    /** Memory with an object in it. */
    ghost predicate Live()
      reads this
    {
      deleted == 0 && constructed == destroyed + 1
    }

    /** ManualConstructor::Init. */
    method Init()
      requires Vacant()
      modifies `constructed
      ensures Live() && constructed == old(constructed) + 1
    {
      constructed := constructed + 1;
    }

    /** ManualConstructor::Destroy. */
    method Destroy()
      requires Live()
      modifies `destroyed
      ensures Vacant() && destroyed == old(destroyed) + 1
    {
      destroyed := destroyed + 1;
    }

    /** A node may be read until it is deleted. */
    method Next() returns (next: ListNode?)
      requires deleted == 0
      ensures next == nextOnAllocList
    {
      next := nextOnAllocList;
    }

    method Delete()
      requires Vacant()
      modifies `deleted
      ensures deleted == 1
    {
      deleted := deleted + 1;
    }

    ghost predicate Disposable()
      reads this
    {
      if isOnFreeList then Vacant() else Live()
    }

    /** One round of the pool's destructor: the object, if there is one, and then the node. */
    method Dispose()
      requires Disposable()
      modifies `destroyed, `deleted
      ensures deleted == 1 && destroyed == constructed
      ensures destroyed == old(destroyed) + (if isOnFreeList then 0 else 1)
    {
      if !isOnFreeList {
        Destroy();
      }
      Delete();
    }
  }

  ghost predicate NoDuplicates(nodes: seq<ListNode>) {
    forall i, j :: 0 <= i < j < |nodes| ==> nodes[i] != nodes[j]
  }

  ghost function Elements(nodes: seq<ListNode>): set<ListNode> { set n | n in nodes }

  lemma {:induction false} ElementsCount(nodes: seq<ListNode>)
    requires NoDuplicates(nodes)
    ensures |Elements(nodes)| == |nodes|
  {
    if nodes != [] {
      ElementsCount(nodes[1..]);
      assert nodes[0] !in nodes[1..];
      assert Elements(nodes) == Elements(nodes[1..]) + {nodes[0]};
    } else {
      assert Elements(nodes) == {};
    }
  }

  /** A list that misses a node of another list and has no others is shorter. */
  lemma OneMoreFits(few: seq<ListNode>, many: seq<ListNode>, extra: ListNode)
    requires NoDuplicates(few) && NoDuplicates(many) && extra in many && extra !in few
    requires forall n :: n in few ==> n in many
    ensures |few| < |many|
  {
    ElementsCount(few);
    ElementsCount(many);
    assert extra !in Elements(few) && Elements(few) + {extra} <= Elements(many);
    SubsetCount(Elements(few) + {extra}, Elements(many));
  }

  lemma SubsetCount(a: set<ListNode>, b: set<ListNode>)
    requires a <= b
    ensures |a| <= |b|
  {
    assert b == a + (b - a);
  }

  /** The node at position i, or the end of the list. */
  ghost function At(nodes: seq<ListNode>, i: nat): ListNode? {
    if i < |nodes| then nodes[i] else null
  }

  ghost predicate AllocLinked(nodes: seq<ListNode>)
    reads nodes`nextOnAllocList
  {
    forall i :: 0 <= i < |nodes| ==> nodes[i].nextOnAllocList == At(nodes, i + 1)
  }

  ghost predicate FreeLinked(nodes: seq<ListNode>)
    reads nodes`nextOnFreeList
  {
    forall i :: 0 <= i < |nodes| ==> nodes[i].nextOnFreeList == At(nodes, i + 1)
  }

  class ObjectPool {
    var freeListHead: ListNode?
    var allocListHead: ListNode?
    ghost var all: seq<ListNode>      // the nodes ever allocated, latest first
    ghost var free: seq<ListNode>     // those without an object, in the order of their reuse
    ghost var peakLive: nat           // the most objects that were ever alive together

    /** Both lists are finite and without repetition; the free list holds exactly the flagged nodes, a node holds
        an object exactly if it is not flagged, and there are no more nodes than objects ever were alive together. */
    ghost predicate Valid()
      reads this, all, free
    {
      && allocListHead == At(all, 0) && AllocLinked(all) && NoDuplicates(all)
      && freeListHead == At(free, 0) && FreeLinked(free) && NoDuplicates(free)
      && (forall n :: n in free ==> n in all)
      && (forall n :: n in all ==> n.Disposable() && (n.isOnFreeList <==> n in free))
      && |free| <= |all| == peakLive
    }

    constructor ()
      ensures Valid() && all == [] && peakLive == 0
    {
      freeListHead, allocListHead, all, free, peakLive := null, null, [], [], 0;
    }

    /** GetObject and Init: the node freed last is used again; only without one is there a new node. */
    method Construct() returns (node: ListNode)
      requires Valid()
      modifies this, if freeListHead == null then {} else {freeListHead}
      ensures Valid() && node in all && node.Live() && !node.isOnFreeList
      ensures old(free) != [] ==> node == old(free)[0] && free == old(free)[1..] && all == old(all)
      ensures old(free) == [] ==> fresh(node) && free == [] && all == [node] + old(all)
      ensures old(free) != [] ==> node.constructed == old(freeListHead.constructed) + 1
      ensures node.destroyed == if old(free) == [] then 0 else old(freeListHead.destroyed)
      ensures peakLive == if |all| - |free| > old(peakLive) then |all| - |free| else old(peakLive)
    {
      node := GetObject();
      node.Init();
      if |all| - |free| > peakLive {
        peakLive := |all| - |free|;
      }
    }

    /** Valid, but for the object that is missing in the node to be handed out. */
    ghost predicate ValidBut(node: ListNode)
      reads this, all, free
    {
      && allocListHead == At(all, 0) && AllocLinked(all) && NoDuplicates(all)
      && freeListHead == At(free, 0) && FreeLinked(free) && NoDuplicates(free)
      && (forall n :: n in free ==> n in all)
      && node in all && node !in free && !node.isOnFreeList
      && (forall n :: n in all && n != node ==> n.Disposable() && (n.isOnFreeList <==> n in free))
    }

    method GetObject() returns (node: ListNode)
      requires Valid()
      modifies this, if freeListHead == null then {} else {freeListHead}
      ensures ValidBut(node) && node.Vacant() && peakLive == old(peakLive)
      ensures old(free) != [] ==> node == old(free)[0] && free == old(free)[1..] && all == old(all)
      ensures old(free) == [] ==> fresh(node) && free == [] && all == [node] + old(all)
      ensures node.constructed == if old(free) == [] then 0 else old(freeListHead.constructed)
      ensures node.destroyed == if old(free) == [] then 0 else old(freeListHead.destroyed)
    {
      if freeListHead != null {
        node := TakeFree();
      } else {
        node := NewNode();
      }
    }

    method TakeFree() returns (node: ListNode)
      requires Valid() && freeListHead != null
      modifies this`freeListHead, this`free, freeListHead`nextOnFreeList, freeListHead`isOnFreeList
      ensures ValidBut(node) && node.Vacant()
      ensures old(free) != [] && node == old(freeListHead) == old(free)[0] && free == old(free)[1..]
    {
      node := freeListHead;
      freeListHead := node.nextOnFreeList;
      node.nextOnFreeList := null;
      node.isOnFreeList := false;
      free := free[1..];
    }

    method NewNode() returns (node: ListNode)
      requires Valid() && freeListHead == null
      modifies this`allocListHead, this`all
      ensures ValidBut(node) && node.Vacant() && fresh(node)
      ensures free == [] && all == [node] + old(all) && node.constructed == node.destroyed == 0
    {
      node := new ListNode(allocListHead);
      allocListHead := node;
      all := [node] + all;
    }

    /** The object of a node ends, and the node is the next to be used again. */
    method Destroy(node: ListNode)
      requires Valid() && node in all && node.Live()
      modifies this`free, this`freeListHead, node
      ensures Valid() && free == [node] + old(free) && all == old(all) && peakLive == old(peakLive)
      ensures node.Vacant() && node.destroyed == old(node.destroyed) + 1 && node.constructed == old(node.constructed)
    {
      OneMoreFits(free, all, node);
      node.Destroy();
      PutBack(node);
    }

    method PutBack(node: ListNode)
      requires ValidBut(node) && node.Vacant() && |free| < |all| == peakLive
      modifies this`free, this`freeListHead, node`isOnFreeList, node`nextOnFreeList
      ensures Valid() && free == [node] + old(free)
    {
      node.isOnFreeList := true;
      node.nextOnFreeList := freeListHead;
      freeListHead := node;
      free := [node] + free;
    }

    /** The destructor: one delete for every node, and one destructor call for every object, those that nobody
        returned included. */
    method DeleteAll()
      requires Valid()
      modifies all`destroyed, all`deleted
      ensures forall n :: n in all ==> n.deleted == 1 && n.destroyed == n.constructed
      ensures forall n :: n in all ==> n.destroyed == old(n.destroyed) + (if n.isOnFreeList then 0 else 1)
    {
      ghost var before := map n | n in all :: n.destroyed;
      assert DeletedUpTo(all, 0, before) && AllocLinked(all) && NoDuplicates(all);
      var node := allocListHead;
      ghost var i := 0;
      assert node == At(all, i);
      hide Valid, AllocLinked, NoDuplicates, DeletedUpTo;
      while node != null
        invariant i <= |all| && node == At(all, i) && AllocLinked(all)
        invariant DeletedUpTo(all, i, before)
        decreases |all| - i
      {
        node := DeleteNode(node, i, before);
        i := i + 1;
      }
      AllDeleted(all, before);
    }

    /** One round: the link is read before the node is gone. */
    method DeleteNode(tmp: ListNode, ghost i: nat, ghost before: map<ListNode, nat>) returns (next: ListNode?)
      requires i < |all| && tmp == all[i] && AllocLinked(all) && NoDuplicates(all) && DeletedUpTo(all, i, before)
      modifies tmp`destroyed, tmp`deleted
      ensures next == At(all, i + 1) && DeletedUpTo(all, i + 1, before) && AllocLinked(all)
    {
      next := tmp.Next();
      tmp.Dispose();
    }
  }

  /** The first i nodes are deleted and the others are as they were; `before` is how often their objects had been
      destroyed. */
  ghost predicate DeletedUpTo(nodes: seq<ListNode>, i: nat, before: map<ListNode, nat>)
    reads nodes
  {
    && (forall j :: 0 <= j < |nodes| ==> nodes[j] in before)
    && (forall j :: 0 <= j < i && j < |nodes| ==> nodes[j].deleted == 1 && nodes[j].destroyed == nodes[j].constructed)
    && (forall j :: 0 <= j < i && j < |nodes| ==>
          nodes[j].destroyed == before[nodes[j]] + (if nodes[j].isOnFreeList then 0 else 1))
    && (forall j :: i <= j < |nodes| ==> nodes[j].Disposable() && nodes[j].destroyed == before[nodes[j]])
  }

  lemma AllDeleted(nodes: seq<ListNode>, before: map<ListNode, nat>)
    requires DeletedUpTo(nodes, |nodes|, before)
    ensures forall n :: n in nodes ==> n in before && n.deleted == 1 && n.destroyed == n.constructed
    ensures forall n :: n in nodes ==> n.destroyed == before[n] + (if n.isOnFreeList then 0 else 1)
  {
  }

  /** The free list has as many nodes as carry the flag, so the rest of the nodes, and only they, hold an object. */
  lemma FreeAndLive(pool: ObjectPool)
    requires pool.Valid()
    ensures |set n | n in pool.all && n.isOnFreeList| == |pool.free|
    ensures |set n | n in pool.all && n.Live()| == |pool.all| - |pool.free| <= pool.peakLive
  {
    var flagged, live := set n | n in pool.all && n.isOnFreeList, set n | n in pool.all && n.Live();
    ElementsCount(pool.free);
    ElementsCount(pool.all);
    assert flagged == Elements(pool.free);
    assert Elements(pool.all) == flagged + live && flagged !! live;
  }

  /** The node reached from the head in k steps. */
  ghost function Follow(pool: ObjectPool, k: nat): ListNode?
    requires pool.Valid()
    reads pool, pool.all, pool.free
  {
    if k == 0 then pool.freeListHead
    else
      var before := Follow(pool, k - 1);
      if before in pool.free then before.nextOnFreeList else null
  }

  /** Following the free list never comes back to a node, and ends after as many steps as there are free nodes. */
  lemma {:induction false} FreeListIsAcyclic(pool: ObjectPool, k: nat)
    requires pool.Valid()
    ensures Follow(pool, k) == At(pool.free, k)
    ensures Follow(pool, k) == null <==> k >= |pool.free|
    ensures forall j: nat :: j < k < |pool.free| ==> At(pool.free, j) != Follow(pool, k)
  {
    if k > 0 {
      FreeListIsAcyclic(pool, k - 1);
    }
  }
}
