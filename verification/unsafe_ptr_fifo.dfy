/** The ring buffer of base.c: first as a value, with the two operations as functions, then as the
    class whose fields the C code updates in place, proved against those functions. */
module UnsafeFifo {

  const UINT32_MAX: nat := 0xFFFF_FFFF

  /** A non-null pointer is modelled by its address; 0 is NULL. */
  type Ptr = nat

  datatype Ring = Ring(ptrs: seq<Ptr>, cap: nat, len: nat, readIdx: nat, writeIdx: nat)

  /** The index reached from `readIdx` after `i` single steps round the buffer. */
  function Slot(cap: nat, readIdx: nat, i: nat): nat {
    if readIdx + i < cap then readIdx + i else readIdx + i - cap
  }

  ghost predicate Consistent(r: Ring) {
    && 0 < r.cap < UINT32_MAX
    && |r.ptrs| == r.cap
    && r.len <= r.cap
    && r.readIdx < r.cap
    && r.writeIdx == (if r.readIdx + r.len < r.cap then r.readIdx + r.len else r.readIdx + r.len - r.cap)
  }

  /** The pointers held by the ring, oldest first. */
  ghost function Contents(r: Ring): seq<Ptr>
    requires Consistent(r)
  {
    seq(r.len, i requires 0 <= i < r.len => r.ptrs[Slot(r.cap, r.readIdx, i)])
  }

  function Empty(cap: nat): Ring {
    Ring(seq(cap, _ => 0), cap, 0, 0, 0)
  }

  function RingPush(r: Ring, ptr: Ptr): Ring
    requires r.writeIdx < |r.ptrs| && 0 < r.cap
  {
    r.(ptrs := r.ptrs[r.writeIdx := ptr], writeIdx := (r.writeIdx + 1) % r.cap, len := r.len + 1)
  }

  function RingPop(r: Ring): (Ring, Ptr)
    requires r.readIdx < |r.ptrs| && 0 < r.cap && 0 < r.len
  {
    (r.(readIdx := (r.readIdx + 1) % r.cap, len := r.len - 1), r.ptrs[r.readIdx])
  }

  lemma {:induction false} NextIndex(i: nat, cap: nat)
    requires i < cap
    ensures (i + 1) % cap == if i + 1 < cap then i + 1 else 0
  {
    if i + 1 < cap {
    } else {
      assert (i + 1) % cap == cap % cap == 0;
    }
  }

  /** Pushing on a ring that is not full appends to its contents. */
  lemma {:induction false} PushAppends(r: Ring, ptr: Ptr)
    requires Consistent(r) && r.len < r.cap
    ensures Consistent(RingPush(r, ptr))
    ensures Contents(RingPush(r, ptr)) == Contents(r) + [ptr]
  {
    NextIndex(r.writeIdx, r.cap);
    var r' := RingPush(r, ptr);
    assert Consistent(r');
    assert |Contents(r')| == r.len + 1;
    forall i | 0 <= i < r'.len
      ensures Contents(r')[i] == (Contents(r) + [ptr])[i]
    {
      assert Contents(r')[i] == r'.ptrs[Slot(r.cap, r.readIdx, i)];
    }
  }

  /** Popping from a ring that is not empty takes the oldest pointer. */
  lemma {:induction false} PopTakesOldest(r: Ring)
    requires Consistent(r) && 0 < r.len
    ensures Consistent(RingPop(r).0)
    ensures Contents(r) == [RingPop(r).1] + Contents(RingPop(r).0)
  {
    NextIndex(r.readIdx, r.cap);
    var r' := RingPop(r).0;
    assert Consistent(r');
    forall i | 0 <= i < r.len
      ensures Contents(r)[i] == ([RingPop(r).1] + Contents(r'))[i]
    {
      if i > 0 {
        assert Slot(r.cap, r.readIdx, i) == Slot(r.cap, r'.readIdx, i - 1);
      }
    }
  }

  lemma {:induction false} EmptyIsEmpty(cap: nat)
    requires 0 < cap < UINT32_MAX
    ensures Consistent(Empty(cap)) && Contents(Empty(cap)) == []
  {
  }

  class UnsafePtrFifo {
    var ptrs: array?<Ptr>  // null until the first operation
    var cap: nat
    var len: nat
    var readIdx: nat
    var writeIdx: nat

    ghost function View(): Ring
      reads this, ptrs
    {
      if ptrs == null then Empty(cap) else Ring(ptrs[..], cap, len, readIdx, writeIdx)
    }

    ghost predicate Valid()
      reads this, ptrs
    {
      Consistent(View())
    }

    /** A structure that is zero but for its capacity. */
    constructor (cap: nat)
      requires 0 < cap < UINT32_MAX
      ensures Valid() && Contents(View()) == [] && View().cap == cap
    {
      this.ptrs := null;
      this.cap := cap;
      len, readIdx, writeIdx := 0, 0, 0;
      new;
      EmptyIsEmpty(cap);
    }

    /** `panicked` stands for the process being stopped because no capacity was ever given. */
    method Init(capacity: nat) returns (panicked: bool)
      requires capacity < UINT32_MAX && cap < UINT32_MAX
      modifies this
      ensures panicked <==> capacity == 0 && old(cap) == 0
      ensures panicked ==> unchanged(this)
      ensures !panicked ==> ptrs != null && fresh(ptrs) && Valid()
      ensures !panicked ==> View() == Empty(if capacity == 0 then old(cap) else capacity)
    {
      if capacity == 0 && cap == 0 {
        return true;
      }
      var c := if capacity == 0 then cap else capacity;
      ptrs := new Ptr[c](_ => 0);
      cap := c;
      len, readIdx, writeIdx := 0, 0, 0;
      assert ptrs[..] == seq(c, _ => 0);
      EmptyIsEmpty(c);
      panicked := false;
    }

    method Push(ptr: Ptr) returns (panicked: bool)
      requires Valid()
      modifies this, ptrs
      ensures Valid() && View().cap == old(View().cap)
      ensures panicked <==> |old(Contents(View()))| == old(View().cap)
      ensures panicked ==> View() == old(View())
      ensures !panicked ==> View() == RingPush(old(View()), ptr)
      ensures !panicked ==> Contents(View()) == old(Contents(View())) + [ptr]
    {
      ghost var r := View();
      if ptrs == null {
        var _ := Init(0);
      }
      if len >= cap {
        return true;
      }
      PushAppends(r, ptr);
      ptrs[writeIdx] := ptr;
      writeIdx := (writeIdx + 1) % cap;
      len := len + 1;
      panicked := false;
    }

    method Pop() returns (panicked: bool, ptr: Ptr)
      requires Valid()
      modifies this
      ensures Valid() && View().cap == old(View().cap)
      ensures panicked <==> old(Contents(View())) == []
      ensures panicked ==> View() == old(View())
      ensures !panicked ==> (View(), ptr) == RingPop(old(View()))
      ensures !panicked ==> old(Contents(View())) == [ptr] + Contents(View())
    {
      ghost var r := View();
      if ptrs == null {
        var _ := Init(0);
      }
      if len == 0 {
        return true, 0;
      }
      PopTakesOldest(r);
      var oldIdx := readIdx;
      readIdx := (readIdx + 1) % cap;
      len := len - 1;
      ptr := ptrs[oldIdx];
      panicked := false;
    }
  }
}
