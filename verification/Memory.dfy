/**
 * The fixed-size object pool, whose free list lives inside the free slots, and the bump-pointer arena with
 * its mask form of alignment in 64-bit arithmetic.
 */
module Memory {
  import opened Wrappers
  import Bits

  // ---------------------------------------------------------------- pool, as seen from outside

  /** The free list in order, and the slots handed out. */
  datatype PoolState = PoolState(free: seq<nat>, live: set<nat>)

  datatype PoolOp = Allocate | Deallocate(slot: nat)

  ghost predicate Partition(s: PoolState, n: nat) {
    && (forall i | 0 <= i < |s.free| :: s.free[i] < n && s.free[i] !in s.live)
    && (forall i, j | 0 <= i < j < |s.free| :: s.free[i] != s.free[j])
    && (forall p | p in s.live :: p < n)
    && |s.free| + |s.live| == n
  }

  function AfterAllocate(s: PoolState): PoolState {
    if s.free == [] then s else PoolState(s.free[1..], s.live + {s.free[0]})
  }

  function AfterDeallocate(s: PoolState, p: nat): PoolState {
    PoolState([p] + s.free, s.live - {p})
  }

  /** Callers free only what they hold. */
  predicate Allowed(s: PoolState, op: PoolOp) {
    op.Deallocate? ==> op.slot in s.live
  }

  function AfterOp(s: PoolState, op: PoolOp): PoolState {
    match op case Allocate => AfterAllocate(s) case Deallocate(p) => AfterDeallocate(s, p)
  }

  lemma OpKeepsPartition(s: PoolState, op: PoolOp, n: nat)
    requires Partition(s, n) && Allowed(s, op)
    ensures Partition(AfterOp(s, op), n)
  {}

  ghost predicate AllowedRun(s: PoolState, ops: seq<PoolOp>)
    decreases |ops|
  {
    ops == [] || (Allowed(s, ops[0]) && AllowedRun(AfterOp(s, ops[0]), ops[1..]))
  }

  function AfterRun(s: PoolState, ops: seq<PoolOp>): PoolState
    decreases |ops|
  {
    if ops == [] then s else AfterRun(AfterOp(s, ops[0]), ops[1..])
  }

  /** Over every run the free list has no repetition and, with the live slots, covers all n exactly once. */
  lemma {:induction false} RunKeepsPartition(s: PoolState, ops: seq<PoolOp>, n: nat)
    requires Partition(s, n) && AllowedRun(s, ops)
    ensures Partition(AfterRun(s, ops), n)
    decreases |ops|
  {
    if ops != [] {
      OpKeepsPartition(s, ops[0], n);
      RunKeepsPartition(AfterOp(s, ops[0]), ops[1..], n);
    }
  }

  /** The slots of a free list, as a set. */
  function SlotSet(free: seq<nat>): (s: set<nat>)
    ensures forall p: nat :: p in s <==> p in free
  {
    if free == [] then {} else
      assert free == [free[0]] + free[1..];
      {free[0]} + SlotSet(free[1..])
  }

  lemma {:induction false} DistinctCount(free: seq<nat>)
    requires forall i, j | 0 <= i < j < |free| :: free[i] != free[j]
    ensures |SlotSet(free)| == |free|
  {
    if free != [] {
      DistinctCount(free[1..]);
      assert free[0] !in free[1..];
    }
  }

  function AllSlots(n: nat): (s: set<nat>)
    ensures |s| == n && forall p: nat :: p in s <==> p < n
  {
    if n == 0 then {} else AllSlots(n - 1) + {n - 1}
  }

  lemma {:induction false} UnionCount<T>(a: set<T>, b: set<T>)
    requires a !! b
    ensures |a + b| == |a| + |b|
  {
    if a == {} {
      assert a + b == b;
    } else {
      var x :| x in a;
      UnionCount(a - {x}, b);
      assert a + b == (a - {x} + b) + {x};
    }
  }

  lemma {:induction false} SubsetOfSameSize<T>(a: set<T>, b: set<T>)
    requires a <= b && |a| == |b|
    ensures a == b
  {
    if a != {} {
      var x :| x in a;
      SubsetOfSameSize(a - {x}, b - {x});
    }
  }

  lemma SetsCover(a: set<nat>, b: set<nat>, n: nat)
    requires a !! b && |a| + |b| == n && forall p | p in a + b :: p < n
    ensures a + b == AllSlots(n)
  {
    UnionCount(a, b);
    SubsetOfSameSize(a + b, AllSlots(n));
  }

  lemma FreeIsNotLive(s: PoolState, n: nat)
    requires Partition(s, n)
    ensures SlotSet(s.free) !! s.live && forall p | p in SlotSet(s.free) + s.live :: p < n
  {
    forall p | p in SlotSet(s.free) ensures p !in s.live && p < n {
      assert p in s.free;
      var i :| 0 <= i < |s.free| && s.free[i] == p;
    }
  }

  /** Every slot is free or live. */
  lemma PartitionCovers(s: PoolState, n: nat, p: nat)
    requires Partition(s, n) && p < n
    ensures p in s.free <==> p !in s.live
  {
    DistinctCount(s.free);
    FreeIsNotLive(s, n);
    SetsCover(SlotSet(s.free), s.live, n);
    assert p in SlotSet(s.free) + s.live;
  }

  // ---------------------------------------------------------------- pool, in memory

  /** A slot's bytes: a free-list link (None for the null pointer), or whatever the owner stored. */
  datatype Slot = Link(next: Option<nat>) | Object(value: int)

  function Nth(free: seq<nat>, i: nat): Option<nat> {
    if i < |free| then Some(free[i]) else None
  }

  class PoolAllocator {
    const slots: array<Slot>
    var freeHead: Option<nat>
    var available: nat
    ghost var state: PoolState

    ghost predicate Valid()
      reads this, slots
    {
      && Partition(state, slots.Length)
      && available == |state.free|
      && freeHead == Nth(state.free, 0)
      && forall i: nat | i < |state.free| :: LinkOk(i)
    }

    /** Slot i of the free list points to the one after it. */
    ghost predicate LinkOk(i: nat)
      requires i < |state.free| && Partition(state, slots.Length)
      reads this, slots
    {
      slots[state.free[i]] == Link(Nth(state.free, i + 1))
    }

    constructor (n: nat)
      requires n >= 1
      ensures Valid() && slots.Length == n && fresh(slots)
      ensures state.live == {} && |state.free| == n && forall i | 0 <= i < n :: state.free[i] == i
    {
      slots := new Slot[n](i => Object(0));
      available := n;
      freeHead := Some(0);
      state := PoolState(seq(n, i => i), {});
      new;
      for i := 0 to n - 1
        modifies slots
        invariant forall k | 0 <= k < i :: slots[k] == Link(Some(k + 1))
      {
        slots[i] := Link(Some(i + 1));
      }
      slots[n - 1] := Link(None);
    }

    /** The first free slot, if any; no other slot is touched. */
    method Allocate() returns (p: Option<nat>)
      requires Valid()
      modifies this
      ensures Valid() && state == AfterAllocate(old(state))
      ensures p == (if old(state.free) == [] then None else Some(old(state.free)[0]))
      ensures p.Some? ==> p.value !in old(state.live) && available == old(available) - 1
    {
      if freeHead.None? { return None; }
      var slot := freeHead.value;
      ghost var free := state.free;
      assert LinkOk(0) && free[0] !in state.live;
      freeHead := slots[slot].next;
      available := available - 1;
      OpKeepsPartition(state, PoolOp.Allocate, slots.Length);
      state := AfterAllocate(state);
      forall i: nat | i < |state.free| ensures LinkOk(i) { assert old(LinkOk(i + 1)); }
      p := Some(slot);
    }

    /** The owner's writes go to its own slot, so they never reach the free list. */
    method Store(p: nat, value: int)
      requires Valid() && p in state.live
      modifies slots
      ensures Valid() && slots[p] == Object(value)
      ensures forall q | 0 <= q < slots.Length && q != p :: slots[q] == old(slots[q])
    {
      assert forall i | 0 <= i < |state.free| :: state.free[i] != p;
      slots[p] := Object(value);
      forall i: nat | i < |state.free| ensures LinkOk(i) { assert old(LinkOk(i)); }
    }

    method Deallocate(p: nat)
      requires Valid() && p in state.live
      modifies this, slots
      ensures Valid() && state == AfterDeallocate(old(state), p)
      ensures forall q | 0 <= q < slots.Length && q != p :: slots[q] == old(slots[q])
    {
      ghost var free := state.free;
      assert forall i | 0 <= i < |free| :: free[i] != p;
      slots[p] := Link(freeHead);
      freeHead := Some(p);
      available := available + 1;
      OpKeepsPartition(state, PoolOp.Deallocate(p), slots.Length);
      state := AfterDeallocate(state, p);
      forall i: nat | i < |state.free| ensures LinkOk(i) {
        if i > 0 { assert old(LinkOk(i - 1)); }
      }
    }
  }

  // ---------------------------------------------------------------- alignment

  const HALF: nat := 0x8000_0000_0000_0000

  /** Masking with the complement of a - 1, in a word of w values, rounds down to a multiple of a. */
  lemma {:induction false} HighMaskRoundsDown(x: nat, a: nat, w: nat)
    requires Bits.IsPow2(a) && Bits.IsPow2(w) && a <= w && x < w
    ensures Bits.And(x, w - a) == x - x % a
    decreases a
  {
    if a == 1 {
      Bits.MaskIsMod(x, w);
      Bits.ModUnique(x, w, 0, x);
    } else {
      HighMaskRoundsDown(x / 2, a / 2, w / 2);
      AndEven(x, w / 2 - a / 2);
      Bits.ModByHalves(x, a / 2);
    }
  }

  lemma AndEven(x: nat, h: nat)
    ensures Bits.And(x, 2 * h) == 2 * Bits.And(x / 2, h)
  {
    var y := 2 * h;
    assert y % 2 == 0 && y / 2 == h;
  }

  /** `(offset + align - 1) & ~(align - 1)` in 64 bits. */
  function AlignUp(offset: nat, align: nat): nat
    requires 1 <= align <= Bits.WORD
  {
    Bits.And((offset + align - 1) % Bits.WORD, Bits.WORD - align)
  }

  predicate IsAlignment(align: nat) {
    Bits.IsPow2(align) && align <= HALF
  }

  lemma AlignUpValue(offset: nat, align: nat)
    requires IsAlignment(align) && offset <= HALF
    ensures AlignUp(offset, align) == (offset + align - 1) - (offset + align - 1) % align
  {
    Bits.WordIsPow2();
    var y := offset + align - 1;
    assert 0 <= y < Bits.WORD;
    Bits.ModUnique(y, Bits.WORD, 0, y);
    hide Bits.IsPow2;
    hide Bits.And;
    HighMaskRoundsDown(y, align, Bits.WORD);
  }

  /** Rounding y down to a multiple of a: what divides, what bounds. */
  lemma RoundDown(y: nat, a: nat, m: nat)
    requires a >= 1
    ensures (y - y % a) % a == 0
    ensures m % a == 0 && y - a < m ==> y - y % a <= m
  {
    var q, up := y / a, y - y % a;
    assert up == a * q;
    Bits.ModUnique(up, a, q, 0);
    if m % a == 0 && m < up {
      assert m == a * (m / a);
      LessByMultiple(a, m / a, q);
    }
  }

  /** The mask form is the least multiple of the alignment that is not below the offset. */
  lemma AlignUpIsLeastMultiple(offset: nat, align: nat, m: nat)
    requires IsAlignment(align) && offset <= HALF
    ensures offset <= AlignUp(offset, align) < offset + align && AlignUp(offset, align) % align == 0
    ensures m % align == 0 && m >= offset ==> AlignUp(offset, align) <= m
  {
    AlignUpValue(offset, align);
    RoundDown(offset + align - 1, align, m);
  }

  /** Multiples of a that differ, differ by at least a. */
  lemma LessByMultiple(a: nat, p: nat, q: nat)
    requires a >= 1 && a * p < a * q
    ensures a * p + a <= a * q
  {
    if p >= q {
      Bits.AtLeastOneStep(a, q, p);
    } else {
      Bits.AtLeastOneStep(a, p + 1, q);
    }
  }

  // ---------------------------------------------------------------- arena

  datatype Block = Block(start: nat, size: nat)

  /** Blocks in order, each ending before the next begins, the last before `limit`. */
  ghost predicate Packed(blocks: seq<Block>, limit: nat) {
    && (forall i | 0 <= i < |blocks| :: blocks[i].start + blocks[i].size <= limit)
    && forall i, j | 0 <= i < j < |blocks| :: blocks[i].start + blocks[i].size <= blocks[j].start
  }

  /** A block put behind all others keeps them packed exactly when it ends within the limit. */
  lemma PackedAppend(blocks: seq<Block>, end: nat, b: Block, limit: nat)
    requires Packed(blocks, end) && end <= b.start && end <= limit
    ensures Packed(blocks + [b], limit) <==> b.start + b.size <= limit
  {
    assert (blocks + [b])[|blocks|] == b;
    forall i | 0 <= i < |blocks| ensures (blocks + [b])[i] == blocks[i] && blocks[i].start + blocks[i].size <= end {}
  }

  /** The request that the 64-bit bound check takes for a small one. */
  predicate Wraps(offset: nat, capacity: nat, size: nat, align: nat)
    requires 1 <= align <= Bits.WORD
  {
    AlignUp(offset, align) + size >= Bits.WORD && Sum64(AlignUp(offset, align), size) <= capacity
  }

  /** Unsigned 64-bit addition. */
  function Sum64(a: nat, b: nat): nat {
    (a + b) % Bits.WORD
  }

  lemma Sum64Exact(a: nat, b: nat)
    ensures a + b < Bits.WORD ==> Sum64(a, b) == a + b
  {}

  class ArenaAllocator {
    const capacity: nat
    var offset: nat
    ghost var blocks: seq<Block>

    ghost predicate Valid()
      reads this
    {
      offset <= capacity <= HALF && Packed(blocks, offset)
    }

    constructor (capacity: nat)
      requires capacity <= HALF
      ensures Valid() && blocks == [] && offset == 0 && this.capacity == capacity
    {
      this.capacity, offset, blocks := capacity, 0, [];
    }

    /**
     * A returned block is aligned, inside the buffer and behind all earlier ones, exactly when the
     * request does not wrap; a refusal changes nothing.
     */
    method Allocate(size: nat, align: nat) returns (p: Option<nat>)
      requires Valid() && IsAlignment(align) && size < Bits.WORD
      modifies this
      ensures p.None? ==> offset == old(offset) && blocks == old(blocks) && AlignUp(offset, align) + size > capacity
      ensures p.Some? ==>
        && p.value == AlignUp(old(offset), align) && p.value % align == 0
        && blocks == old(blocks) + [Block(p.value, size)]
        && (Packed(blocks, capacity) <==> !Wraps(old(offset), capacity, size, align))
      ensures !Wraps(old(offset), capacity, size, align) ==> Valid()
      ensures p.Some? <==> AlignUp(old(offset), align) + size <= capacity || Wraps(old(offset), capacity, size, align)
    {
      AlignUpIsLeastMultiple(offset, align, 0);
      hide AlignUp;
      hide IsAlignment;
      var aligned := AlignUp(offset, align);
      Sum64Exact(aligned, size);
      hide Sum64;
      if Sum64(aligned, size) > capacity { return None; }
      hide Packed;
      PackedAppend(blocks, offset, Block(aligned, size), capacity);
      if aligned + size < Bits.WORD { PackedAppend(blocks, offset, Block(aligned, size), aligned + size); }
      offset := Sum64(aligned, size);
      blocks := blocks + [Block(aligned, size)];
      p := Some(aligned);
    }

    method Reset()
      requires capacity <= HALF
      modifies this
      ensures Valid() && blocks == [] && offset == 0
    {
      offset, blocks := 0, [];
    }
  }

  /**
   * A request that wraps, at real sizes: with 16 of 4096 bytes used, 2^64 - 16 more at alignment 1 pass the
   * bound check and make a block that reaches far outside the buffer.
   */
  lemma WrappingRequestWitness()
    ensures AlignUp(16, 1) == 16 && Wraps(16, 4096, Bits.WORD - 16, 1)
    ensures Packed([Block(0, 16)], 16) && !Packed([Block(0, 16), Block(16, Bits.WORD - 16)], 4096)
  {
    AlignUpIsLeastMultiple(16, 1, 16);
    var blocks := [Block(0, 16), Block(16, Bits.WORD - 16)];
    assert blocks[1].start + blocks[1].size == Bits.WORD;
  }

  /** The address is aligned exactly when the buffer itself is: the arena aligns offsets. */
  lemma AddressAlignedIff(base: nat, p: nat, align: nat)
    requires align >= 1 && p % align == 0
    ensures (base + p) % align == 0 <==> base % align == 0
  {
    var q, r := base / align, base % align;
    assert base + p == align * (q + p / align) + r by {
      assert base == align * q + r && p == align * (p / align);
    }
    Bits.ModUnique(base + p, align, q + p / align, r);
  }
}
