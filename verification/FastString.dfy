/** base/faststring.h and faststring.cc: a byte string that starts in a buffer inside the object and moves to the heap
when it grows.

`copied` counts the bytes that GrowArray ever moved, `deleted` holds the buffers that were given back.
*/
module FastStrings {

  const INITIAL_CAPACITY: nat := 32

  type uint8 = x: int | 0 <= x < 256

  /** Length, capacity and the bytes moved so far. */
  datatype Shape = Shape(len: nat, capacity: nat, copied: nat)

  const EMPTY := Shape(0, 32, 0)

  /** The capacity that GrowByAtLeast asks for. */
  function Reserved(len: nat, count: nat): nat {
    if len + count < len * 3 / 2 then len * 3 / 2 else len + count
  }

  /** What an append of count bytes does to the shape. */
  function AfterAppend(s: Shape, count: nat): Shape {
    if s.len + count <= s.capacity then Shape(s.len + count, s.capacity, s.copied)
    else Shape(s.len + count, Reserved(s.len, count), s.copied + s.len)
  }

  /** What resize does: it asks for no more than it needs. */
  function AfterResize(s: Shape, size: nat): Shape {
    if size <= s.capacity then Shape(size, s.capacity, s.copied)
    else Shape(size, size, s.copied + s.len)
  }

  class FastString {
    var data: array<uint8>
    const initialData: array<uint8>
    var len: nat
    var capacity: nat
    ghost var copied: nat
    ghost var deleted: set<array<uint8>>

    ghost predicate Valid()
      reads this
    {
      && initialData.Length == INITIAL_CAPACITY && data.Length == capacity && len <= capacity
      && INITIAL_CAPACITY <= capacity && (data == initialData <==> capacity == INITIAL_CAPACITY)
      && data !in deleted && initialData !in deleted
    }

    ghost function Contents(): (s: seq<uint8>)
      requires Valid()
      reads this, data
    {
      data[..len]
    }

    ghost function ShapeOf(): Shape
      reads this
    {
      Shape(len, capacity, copied)
    }

    constructor ()
      ensures Valid() && Contents() == [] && ShapeOf() == EMPTY && Paid(ShapeOf()) && fresh(data)
    {
      initialData := new uint8[INITIAL_CAPACITY];
      data, len, capacity, copied, deleted := initialData, 0, INITIAL_CAPACITY, 0, {};
    }

    constructor WithCapacity(wanted: nat)
      ensures Valid() && Contents() == [] && fresh(data) && fresh(initialData)
      ensures ShapeOf() == Shape(0, if wanted > INITIAL_CAPACITY then wanted else INITIAL_CAPACITY, 0)
    {
      initialData := new uint8[INITIAL_CAPACITY];
      data, len, capacity, copied, deleted := initialData, 0, INITIAL_CAPACITY, 0, {};
      if wanted > INITIAL_CAPACITY {
        data := new uint8[wanted];
        capacity := wanted;
      }
    }

    /** A larger buffer with the same contents; the old one is deleted unless it is the inner one. */
    method GrowArray(newCapacity: nat)
      requires Valid() && newCapacity > capacity
      modifies this
      ensures Valid() && Contents() == old(Contents()) && fresh(data)
      ensures ShapeOf() == Shape(old(len), newCapacity, old(copied) + old(len))
      ensures deleted == old(deleted) + (if old(data) == initialData then {} else {old(data)})
    {
      var newData := new uint8[newCapacity];
      CopyBytes(newData, 0, data, 0, len);
      copied := copied + len;
      capacity := newCapacity;
      if data != initialData {
        deleted := deleted + {data};
      }
      data := newData;
    }

    method GrowByAtLeast(count: nat)
      requires Valid() && len + count > capacity
      modifies this
      ensures Valid() && Contents() == old(Contents()) && fresh(data)
      ensures ShapeOf() == Shape(old(len), Reserved(old(len), count), old(copied) + old(len))
      ensures deleted == old(deleted) + (if old(data) == initialData then {} else {old(data)})
    {
      var toReserve := len + count;
      if len + count < len * 3 / 2 {
        toReserve := len * 3 / 2;
      }
      GrowArray(toReserve);
    }

    /** A buffer that an append of count bytes leaves alone. */
    predicate Survives(src: array<uint8>, count: nat)
      reads this
    {
      src != data || len + count <= capacity || data == initialData
    }

    /** A buffer that was not deleted before is deleted exactly if it does not survive. */
    method EnsureRoomForAppend(count: nat)
      requires Valid()
      modifies this
      ensures Valid() && Contents() == old(Contents()) && len + count <= capacity && len == old(len)
      ensures Shape(len + count, capacity, copied) == AfterAppend(old(ShapeOf()), count)
      ensures if old(len) + count <= old(capacity) then data == old(data) else fresh(data)
      ensures deleted == old(deleted) + (if data == old(data) || old(data) == initialData then {} else {old(data)})
      ensures forall src: array<uint8> | allocated(src) && old(allocated(src)) && src !in old(deleted) ::
                src in deleted <==> !old(Survives(src, count))
    {
      if len + count <= capacity {
        return;
      }
      GrowByAtLeast(count);
    }

    /** Appends count bytes of src, which may be this string itself as long as its buffer survives. */
    method Append(src: array<uint8>, start: nat, count: nat)
      requires Valid() && start + count <= src.Length
      requires Survives(src, count) && (src == data ==> start + count <= len)
      modifies this, data
      ensures Valid() && Contents() == old(Contents()) + old(src[start..start + count])
      ensures ShapeOf() == AfterAppend(old(ShapeOf()), count)
      ensures old(Paid(ShapeOf())) ==> Paid(ShapeOf()) && copied <= 5 * len
      ensures data == old(data) || fresh(data)
      ensures deleted == old(deleted) + (if data == old(data) || old(data) == initialData then {} else {old(data)})
    {
      ghost var before := Contents();
      AppendStaysPaid(ShapeOf(), count);
      hide AfterAppend, Paid;
      EnsureRoomForAppend(count);
      assert data[..len] == before;
      StoreBytes(data, len, src, start, count);
      len := len + count;
    }

    method PushBack(byte: uint8)
      requires Valid()
      modifies this, data
      ensures Valid() && Contents() == old(Contents()) + [byte]
      ensures ShapeOf() == AfterAppend(old(ShapeOf()), 1)
      ensures old(Paid(ShapeOf())) ==> Paid(ShapeOf()) && copied <= 5 * len
      ensures data == old(data) || fresh(data)
      ensures deleted == old(deleted) + (if data == old(data) || old(data) == initialData then {} else {old(data)})
    {
      ghost var before := Contents();
      AppendStaysPaid(ShapeOf(), 1);
      EnsureRoomForAppend(1);
      assert data[..len] == before;
      data[len] := byte;
      len := len + 1;
      assert data[..len] == before + [byte];
    }

    method Reserve(newCapacity: nat)
      requires Valid()
      modifies this
      ensures Valid() && Contents() == old(Contents())
      ensures if newCapacity <= old(capacity) then ShapeOf() == old(ShapeOf())
              else ShapeOf() == Shape(old(len), newCapacity, old(copied) + old(len))
      ensures if newCapacity <= old(capacity) then data == old(data) else fresh(data)
      ensures deleted == old(deleted) + (if data == old(data) || old(data) == initialData then {} else {old(data)})
    {
      if newCapacity <= capacity {
        return;
      }
      GrowArray(newCapacity);
    }

    /** Keeps what fits of the contents; the bytes beyond are whatever the buffer holds. */
    method Resize(newSize: nat)
      requires Valid()
      modifies this
      ensures Valid() && len == newSize && ShapeOf() == AfterResize(old(ShapeOf()), newSize)
      ensures forall i :: 0 <= i < old(len) && i < newSize ==> data[i] == old(data[i])
      ensures if newSize <= old(capacity) then data == old(data) else fresh(data)
      ensures deleted == old(deleted) + (if data == old(data) || old(data) == initialData then {} else {old(data)})
    {
      ghost var before := Contents();
      if newSize > capacity {
        Reserve(newSize);
        assert data[..len] == before;
        assert forall i :: 0 <= i < old(len) ==> data[i] == before[i];
      }
      len := newSize;
    }

    method Clear()
      requires Valid()
      modifies this
      ensures Valid() && Contents() == [] && data == old(data) && ShapeOf() == old(ShapeOf()).(len := 0)
      ensures deleted == old(deleted)
    {
      Resize(0);
    }

    method AssignCopy(src: array<uint8>, count: nat)
      requires Valid() && count <= src.Length && src != data
      modifies this, data
      ensures Valid() && Contents() == old(src[..count])
      ensures copied == old(copied) && capacity == if count > old(capacity) then count else old(capacity)
      ensures if count <= old(capacity) then data == old(data) else fresh(data)
      ensures deleted == old(deleted) + (if data == old(data) || old(data) == initialData then {} else {old(data)})
    {
      len := 0;
      Resize(count);
      CopyBytes(data, 0, src, 0, count);
      assert data[0..count] == data[..count];
    }

    /** The destructor: no buffer is deleted twice. */
    method Destroy()
      requires Valid()
      modifies `deleted
      ensures deleted == old(deleted) + (if data == initialData then {} else {data})
      ensures data != initialData ==> data !in old(deleted)
    {
      if data != initialData {
        deleted := deleted + {data};
      }
    }

    /** Hands the contents to the caller in a buffer that this string neither uses nor deletes. */
    method Release() returns (r: array<uint8>)
      requires Valid()
      modifies this
      ensures Valid() && Contents() == [] && data == initialData && copied == old(copied) && deleted == old(deleted)
      ensures r.Length >= old(len) && r[..old(len)] == old(Contents()) && r != data && r !in old(deleted)
      ensures if old(data) == initialData then fresh(r) else r == old(data)
    {
      r := data;
      if r == initialData {
        r := new uint8[len];
        CopyBytes(r, 0, data, 0, len);
        assert r[0..len] == r[..len];
      }
      len, capacity, data := 0, INITIAL_CAPACITY, initialData;
    }
  }

  /** The two ways in which append stores the bytes. */
  method StoreBytes(dst: array<uint8>, at: nat, src: array<uint8>, start: nat, count: nat)
    requires at + count <= dst.Length && start + count <= src.Length
    requires dst == src ==> start + count <= at
    modifies dst
    ensures dst[..at + count] == old(dst[..at]) + old(src[start..start + count])
  {
    if count <= 4 {
      CopyFew(dst, at, src, start, count);
    } else {
      CopyBytes(dst, at, src, start, count);
    }
    assert dst[..at + count] == dst[..at] + dst[at..at + count];
  }

  /** The loop of append for at most four bytes. */
  method CopyFew(dst: array<uint8>, at: nat, src: array<uint8>, start: nat, count: nat)
    requires count <= 4 && at + count <= dst.Length && start + count <= src.Length
    requires dst == src ==> start + count <= at
    modifies dst
    ensures dst[at..at + count] == old(src[start..start + count])
    ensures dst[..at] == old(dst[..at]) && dst[at + count..] == old(dst[at + count..])
  {
    var p, from := at, start;
    for i := 0 to count
      invariant p == at + i && from == start + i
      invariant dst[at..p] == old(src[start..from])
      invariant dst[..at] == old(dst[..at]) && dst[at + count..] == old(dst[at + count..])
      invariant src[start..start + count] == old(src[start..start + count])
    {
      dst[p] := src[from];
      p, from := p + 1, from + 1;
    }
  }

  /** memcpy between regions that do not overlap. */
  method CopyBytes(dst: array<uint8>, at: nat, src: array<uint8>, start: nat, count: nat)
    requires at + count <= dst.Length && start + count <= src.Length
    requires dst == src ==> start + count <= at
    modifies dst
    ensures dst[at..at + count] == old(src[start..start + count])
    ensures dst[..at] == old(dst[..at]) && dst[at + count..] == old(dst[at + count..])
  {
    for i := 0 to count
      invariant dst[at..at + i] == old(src[start..start + i])
      invariant dst[..at] == old(dst[..at]) && dst[at + count..] == old(dst[at + count..])
      invariant src[start..start + count] == old(src[start..start + count])
    {
      dst[at + i] := src[start + i];
    }
  }

  // ----- the cost of growing

  function AppendAll(s: Shape, counts: seq<nat>): Shape {
    if counts == [] then s else AfterAppend(AppendAll(s, counts[..|counts| - 1]), counts[|counts| - 1])
  }

  function Total(counts: seq<nat>): nat {
    if counts == [] then 0 else Total(counts[..|counts| - 1]) + counts[|counts| - 1]
  }

  /** The bytes moved so far are paid for by the length and the capacity gained. */
  predicate Paid(s: Shape) {
    && s.len <= s.capacity && 32 <= s.capacity
    && s.copied <= 2 * s.len + 2 * (s.capacity - 32)
    && (s.capacity == 32 || 2 * s.capacity <= 3 * s.len)
    && (s.capacity == 32 ==> s.copied == 0)
  }

  lemma AppendStaysPaid(s: Shape, count: nat)
    ensures Paid(s) ==> Paid(AfterAppend(s, count)) && AfterAppend(s, count).copied <= 5 * AfterAppend(s, count).len
  {
  }

  /** Appends alone, of any sizes and in any number, move at most five bytes for each byte appended. */
  lemma {:induction false} AppendsAreAmortized(counts: seq<nat>)
    ensures Paid(AppendAll(EMPTY, counts))
    ensures AppendAll(EMPTY, counts).len == Total(counts)
    ensures AppendAll(EMPTY, counts).copied <= 5 * Total(counts)
  {
    if counts != [] {
      AppendsAreAmortized(counts[..|counts| - 1]);
      AppendStaysPaid(AppendAll(EMPTY, counts[..|counts| - 1]), counts[|counts| - 1]);
    }
  }

  function ResizeUp(k: nat): Shape {
    if k == 0 then Shape(32, 32, 0) else AfterResize(ResizeUp(k - 1), 32 + k)
  }

  /** Growing by resize has no such bound: k steps of one byte each move a number of bytes that is quadratic in k. */
  lemma {:induction false} ResizesAreNot(k: nat)
    ensures ResizeUp(k).len == ResizeUp(k).capacity == 32 + k
    ensures 2 * ResizeUp(k).copied == 64 * k + k * (k - 1)
  {
    if k > 0 {
      ResizesAreNot(k - 1);
    }
  }
}
