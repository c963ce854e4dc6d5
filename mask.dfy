/** The 64-bit occupancy mask of the io_uring slot table (`Worker::active_mask` in
    src/main.rs). Bit `i` is set exactly when slot `i` holds a pending `statx`.

    The mask is a `bv64`, as the source's `u64`. Bit positions are `bv8` shift
    amounts; slot indices, as the worker's arrays see them, are natural numbers,
    and `Slots` gives the mask as the set of the indices of its set bits. The
    lemmas below tie the two views together: `|=` adds a slot, `^=` on an
    occupied slot removes it, `count_ones` is the number of slots and
    `trailing_ones` is the lowest free one. */
module Mask {

  /** `IO_URING_ENTRIES`: the number of slots in the table. */
  const Entries: nat := 32

  /** The mask with every slot occupied, `(1 << IO_URING_ENTRIES) - 1`. */
  const FullMask: bv64 := 0xFFFF_FFFF

  /** `1 << i` */
  function Bit(i: bv8): bv64
    requires i < 64
  {
    1 << i
  }

  /** Whether bit `i` of `m` is set. */
  predicate IsSet(m: bv64, i: bv8)
    requires i < 64
  {
    m & Bit(i) != 0
  }

  /** A mask is well formed when it names only slots below `Entries`. */
  predicate InRange(m: bv64) {
    m <= FullMask
  }

  /** The slot index of bit position `i`. */
  function SlotOf(i: bv8): nat {
    i as nat
  }

  /** The bits below `n`. */
  function LowBits(n: bv8): bv64
    requires n <= 64
  {
    if n == 64 then 0xFFFF_FFFF_FFFF_FFFF else Bit(n) - 1
  }

  /** The indices of the set bits below `n`. */
  function SlotsBelow(m: bv64, n: bv8): (s: set<nat>)
    requires n <= 64
    ensures forall i :: i in s ==> i < SlotOf(n)
    decreases n, m
  {
    if n == 0 then {} else SlotsBelow(m, n - 1) + (if IsSet(m, n - 1) then {SlotOf(n - 1)} else {})
  }

  /** The occupied slots, as a set of indices. */
  function Slots(m: bv64): set<nat> {
    SlotsBelow(m, 64)
  }

  /** Every slot of the table is in `s`. */
  predicate AllOccupied(s: set<nat>) {
    forall x: nat :: x < Entries ==> x in s
  }

  /** `count_ones` on the bits below `n`. */
  function CountBelow(m: bv64, n: bv8): (r: nat)
    requires n <= 64
    ensures r <= SlotOf(n)
    decreases n, m
  {
    if n == 0 then 0 else CountBelow(m, n - 1) + (if IsSet(m, n - 1) then 1 else 0)
  }

  /** `count_ones`: the number of pending operations. */
  function CountOnes(m: bv64): (r: nat)
    ensures r <= 64
  {
    CountBelow(m, 64)
  }

  /** `trailing_ones` from bit `i` upwards: the first clear bit at or above `i`, or 64. */
  function TrailingOnesFrom(m: bv64, i: bv8): (r: bv8)
    requires i <= 64
    ensures i <= r <= 64
    ensures r < 64 ==> !IsSet(m, r)
    decreases 64 - i, m
  {
    if i == 64 || !IsSet(m, i) then i else TrailingOnesFrom(m, i + 1)
  }

  /** `trailing_ones`: the index of the lowest clear bit, or 64 when there is none. */
  function TrailingOnes(m: bv64): (r: bv8)
    ensures r <= 64
    ensures r < 64 ==> !IsSet(m, r)
  {
    TrailingOnesFrom(m, 0)
  }

  // ---------------------------------------------------------------------------
  // Bit positions and slot indices

  /** A bit position and its slot index order and compare alike. */
  lemma SlotOfOrder(a: bv8, b: bv8)
    ensures SlotOf(a) == SlotOf(b) <==> a == b
    ensures a < b <==> SlotOf(a) < SlotOf(b)
  {
  }

  /** Every slot index below 64 is a bit position. */
  lemma RoundTrip(x: nat)
    requires x < 64
    ensures x as bv8 < 64 && SlotOf(x as bv8) == x
  {
  }

  // ---------------------------------------------------------------------------
  // Single bits

  /** A mask has either all or none of a single bit. */
  lemma SingleBit(m: bv64, j: bv8)
    requires j < 64
    ensures m & Bit(j) == 0 || m & Bit(j) == Bit(j)
  {
  }

  /** Setting bit `k` (`m |= 1 << k`) sets exactly that bit. */
  lemma SetBit(m: bv64, k: bv8, j: bv8)
    requires k < 64 && j < 64
    ensures IsSet(m | Bit(k), j) <==> j == k || IsSet(m, j)
  {
    if j != k {
      assert (m | Bit(k)) & Bit(j) == m & Bit(j);
    }
  }

  /** Flipping bit `k` (`m ^= 1 << k`) flips exactly that bit. */
  lemma FlipBit(m: bv64, k: bv8, j: bv8)
    requires k < 64 && j < 64
    ensures IsSet(m ^ Bit(k), j) <==> (if j == k then !IsSet(m, j) else IsSet(m, j))
  {
    if j != k {
      assert (m ^ Bit(k)) & Bit(j) == m & Bit(j);
    }
  }

  /** `FullMask` has exactly the bits of the table's slots. */
  lemma FullMaskBit(j: bv8)
    requires j < 64
    ensures IsSet(FullMask, j) <==> j < 32
  {
  }

  /** Clearing a set bit keeps a mask well formed. */
  lemma ClearInRange(m: bv64, k: bv8)
    requires k < 64 && IsSet(m, k) && InRange(m)
    ensures InRange(m ^ Bit(k))
  {
    assert m ^ Bit(k) == m - Bit(k);
  }

  /** A single bit is not zero. */
  lemma BitNonZero(j: bv8)
    requires j < 64
    ensures Bit(j) != 0
  {
  }

  /** Masking distributes over exclusive or. */
  lemma AndOverXor(a: bv64, b: bv64, c: bv64)
    ensures (a ^ b) & c == (a & c) ^ (b & c)
  {
  }

  /** Bit `j` of `a ^ b` is set when exactly one of `a` and `b` has it. */
  lemma XorBit(a: bv64, b: bv64, j: bv8)
    requires j < 64
    ensures IsSet(a ^ b, j) <==> IsSet(a, j) != IsSet(b, j)
  {
    AndOverXor(a, b, Bit(j));
    SingleBit(a, j);
    SingleBit(b, j);
    BitNonZero(j);
  }

  /** A well-formed mask has no bit at or above `Entries`. */
  lemma InRangeBit(m: bv64, j: bv8)
    requires InRange(m) && j < 64 && IsSet(m, j)
    ensures j < 32
  {
  }

  /** Masking distributes over a union of bits. */
  lemma AndOver(m: bv64, a: bv64, b: bv64)
    ensures m & (a | b) == (m & a) | (m & b)
  {
  }

  /** The bits below `n` are those below `n - 1` and bit `n - 1`. */
  lemma LowBitsStep(n: bv8)
    requires 0 < n <= 64
    ensures LowBits(n) == LowBits(n - 1) | Bit(n - 1)
  {
  }

  // ---------------------------------------------------------------------------
  // The set view

  /** Membership in `SlotsBelow` is a set bit below the bound. */
  lemma {:induction false} InSlotsBelow(m: bv64, n: bv8, j: bv8)
    requires n <= 64
    ensures SlotOf(j) in SlotsBelow(m, n) <==> j < n && IsSet(m, j)
    decreases n
  {
    if n > 0 {
      InSlotsBelow(m, n - 1, j);
      SlotOfOrder(j, n - 1);
    }
  }

  /** Membership in `Slots` is a set bit. */
  lemma InSlots(m: bv64, j: bv8)
    ensures SlotOf(j) in Slots(m) <==> j < 64 && IsSet(m, j)
  {
    InSlotsBelow(m, 64, j);
  }

  /** Two sets of slot indices below 64 with the same bit positions are equal. */
  lemma SameSlots(a: set<nat>, b: set<nat>)
    requires forall x :: x in a ==> x < 64
    requires forall x :: x in b ==> x < 64
    requires forall j: bv8 :: j < 64 ==> (SlotOf(j) in a <==> SlotOf(j) in b)
    ensures a == b
  {
    forall x | x in a || x in b ensures x in a && x in b {
      RoundTrip(x);
      var j := x as bv8;
      assert SlotOf(j) in a <==> SlotOf(j) in b;
    }
  }

  /** A well-formed mask names only slots of the table. */
  lemma InRangeSlots(m: bv64)
    requires InRange(m)
    ensures forall x :: x in Slots(m) ==> x < Entries
  {
    forall x | x in Slots(m) ensures x < Entries {
      RoundTrip(x);
      var j := x as bv8;
      InSlots(m, j);
      InRangeBit(m, j);
      SlotOfOrder(j, 32);
    }
  }

  lemma SetSlotAt(m: bv64, k: bv8, j: bv8)
    requires k < 64 && j < 64
    ensures SlotOf(j) in Slots(m | Bit(k)) <==> SlotOf(j) in Slots(m) + {SlotOf(k)}
  {
    InSlots(m | Bit(k), j);
    InSlots(m, j);
    SetBit(m, k, j);
    SlotOfOrder(j, k);
  }

  lemma FlipSlotAt(m: bv64, k: bv8, j: bv8)
    requires k < 64 && j < 64 && IsSet(m, k)
    ensures SlotOf(j) in Slots(m ^ Bit(k)) <==> SlotOf(j) in Slots(m) - {SlotOf(k)}
  {
    InSlots(m ^ Bit(k), j);
    InSlots(m, j);
    FlipBit(m, k, j);
    SlotOfOrder(j, k);
  }

  /** `m |= 1 << k` adds slot `k` and only it; for a slot of the table it keeps
      the mask well formed. */
  lemma SlotsSet(m: bv64, k: bv8)
    requires k < 64
    ensures Slots(m | Bit(k)) == Slots(m) + {SlotOf(k)}
    ensures InRange(m) && k < 32 ==> InRange(m | Bit(k))
  {
    forall j: bv8 | j < 64 ensures SlotOf(j) in Slots(m | Bit(k)) <==> SlotOf(j) in Slots(m) + {SlotOf(k)} {
      SetSlotAt(m, k, j);
    }
    SameSlots(Slots(m | Bit(k)), Slots(m) + {SlotOf(k)});
  }

  /** `m ^= 1 << k` on an occupied slot `k` removes that slot and only it. */
  lemma SlotsFlip(m: bv64, k: bv8)
    requires k < 64 && IsSet(m, k)
    ensures Slots(m ^ Bit(k)) == Slots(m) - {SlotOf(k)}
  {
    forall j: bv8 | j < 64 ensures SlotOf(j) in Slots(m ^ Bit(k)) <==> SlotOf(j) in Slots(m) - {SlotOf(k)} {
      FlipSlotAt(m, k, j);
    }
    SameSlots(Slots(m ^ Bit(k)), Slots(m) - {SlotOf(k)});
  }

  /** `m ^= 1 << k` on an occupied slot `k` removes that slot and only it, and
      keeps the mask well formed. */
  lemma SlotsClear(m: bv64, k: bv8)
    requires k < 64 && SlotOf(k) in Slots(m)
    ensures Slots(m ^ Bit(k)) == Slots(m) - {SlotOf(k)}
    ensures InRange(m) ==> InRange(m ^ Bit(k))
  {
    InSlots(m, k);
    SlotsFlip(m, k);
    if InRange(m) {
      ClearInRange(m, k);
    }
  }

  // ---------------------------------------------------------------------------
  // count_ones

  /** `count_ones` below `n` counts the slots below `n`. */
  lemma {:induction false} CountSlotsBelow(m: bv64, n: bv8)
    requires n <= 64
    ensures CountBelow(m, n) == |SlotsBelow(m, n)|
    decreases n
  {
    if n > 0 {
      CountSlotsBelow(m, n - 1);
      assert SlotOf(n - 1) !in SlotsBelow(m, n - 1);
    }
  }

  /** `count_ones` is the number of occupied slots. */
  lemma CountSlots(m: bv64)
    ensures CountOnes(m) == |Slots(m)|
  {
    CountSlotsBelow(m, 64);
  }

  /** No bit counted below `n` means no bit set below `n`. */
  lemma {:induction false} CountZeroBelow(m: bv64, n: bv8)
    requires n <= 64 && CountBelow(m, n) == 0
    ensures m & LowBits(n) == 0
    decreases n
  {
    if n > 0 {
      CountZeroBelow(m, n - 1);
      LowBitsStep(n);
      SingleBit(m, n - 1);
      AndOver(m, LowBits(n - 1), Bit(n - 1));
    }
  }

  /** `count_ones` is zero exactly for the zero mask, whose slot set is empty. */
  lemma CountZero(m: bv64)
    ensures CountOnes(m) == 0 <==> m == 0
    ensures m == 0 <==> Slots(m) == {}
  {
    CountSlots(m);
    if CountOnes(m) == 0 {
      CountZeroBelow(m, 64);
    }
    if m == 0 {
      forall x | x in Slots(m) ensures false {
        RoundTrip(x);
        InSlots(m, x as bv8);
      }
    }
  }

  /** Two masks with the same slots are the same mask. */
  lemma Extensional(a: bv64, b: bv64)
    requires Slots(a) == Slots(b)
    ensures a == b
  {
    var c := a ^ b;
    forall x | x in Slots(c) ensures false {
      RoundTrip(x);
      var j := x as bv8;
      InSlots(c, j);
      InSlots(a, j);
      InSlots(b, j);
      XorBit(a, b, j);
    }
    CountZero(c);
  }

  /** Flipping an occupied slot's bit lowers `count_ones` by one. */
  lemma CountClear(m: bv64, k: bv8)
    requires k < 64 && SlotOf(k) in Slots(m)
    ensures CountOnes(m ^ Bit(k)) + 1 == CountOnes(m)
  {
    SlotsClear(m, k);
    CountSlots(m);
    CountSlots(m ^ Bit(k));
  }

  /** Setting a free slot's bit raises `count_ones` by one. */
  lemma CountSet(m: bv64, k: bv8)
    requires k < 64 && SlotOf(k) !in Slots(m)
    ensures CountOnes(m | Bit(k)) == CountOnes(m) + 1
  {
    SlotsSet(m, k);
    CountSlots(m);
    CountSlots(m | Bit(k));
  }

  // ---------------------------------------------------------------------------
  // trailing_ones

  /** Every bit from `i` up to `TrailingOnesFrom(m, i)` is set. */
  lemma {:induction false} TrailingOnesFromBelow(m: bv64, i: bv8, j: bv8)
    requires i <= 64 && i <= j < TrailingOnesFrom(m, i)
    ensures IsSet(m, j)
    decreases 64 - i
  {
    if j != i {
      TrailingOnesFromBelow(m, i + 1, j);
    }
  }

  /** Every slot below `TrailingOnes(m)` is occupied. */
  lemma TrailingOnesBelow(m: bv64, x: nat)
    requires x < SlotOf(TrailingOnes(m))
    ensures x in Slots(m)
  {
    RoundTrip(x);
    var j := x as bv8;
    SlotOfOrder(j, TrailingOnes(m));
    TrailingOnesFromBelow(m, 0, j);
    InSlots(m, j);
  }

  /** When `trailing_ones` reaches `Entries`, every slot of the table is occupied. */
  lemma NoFreeSlot(m: bv64)
    requires TrailingOnes(m) >= 32
    ensures AllOccupied(Slots(m))
  {
    SlotOfOrder(TrailingOnes(m), 32);
    forall x: nat | x < Entries ensures x in Slots(m) {
      TrailingOnesBelow(m, x);
    }
  }

  /** `submit`'s `assert!(buf_idx < IO_URING_ENTRIES)`: on a well-formed mask,
      `trailing_ones` is a slot of the table exactly when the mask is not full,
      and then it is the lowest free slot. */
  lemma LowestFree(m: bv64)
    requires InRange(m)
    ensures SlotOf(TrailingOnes(m)) < Entries <==> m != FullMask
    ensures SlotOf(TrailingOnes(m)) < Entries ==> SlotOf(TrailingOnes(m)) !in Slots(m)
    ensures forall x: nat :: x < SlotOf(TrailingOnes(m)) ==> x in Slots(m)
  {
    var r := TrailingOnes(m);
    SlotOfOrder(r, 32);
    if r < 32 {
      InSlots(m, r);
      FullMaskBit(r);
    } else {
      NoFreeSlot(m);
      FullIff(m);
    }
    forall x: nat | x < SlotOf(r) ensures x in Slots(m) {
      TrailingOnesBelow(m, x);
    }
  }

  /** A well-formed mask is full (`active_mask == (1 << IO_URING_ENTRIES) - 1`)
      exactly when every slot of the table is occupied. */
  lemma FullIff(m: bv64)
    requires InRange(m)
    ensures AllOccupied(Slots(m)) <==> m == FullMask
  {
    if AllOccupied(Slots(m)) {
      forall j: bv8 | j < 64 ensures SlotOf(j) in Slots(m) <==> SlotOf(j) in Slots(FullMask) {
        InSlots(m, j);
        InSlots(FullMask, j);
        FullMaskBit(j);
        SlotOfOrder(j, 32);
        if IsSet(m, j) {
          InRangeBit(m, j);
        }
      }
      SameSlots(Slots(m), Slots(FullMask));
      Extensional(m, FullMask);
    } else if m == FullMask {
      forall x: nat | x < Entries ensures x in Slots(m) {
        RoundTrip(x);
        InSlots(m, x as bv8);
        FullMaskBit(x as bv8);
      }
    }
  }

  // ---------------------------------------------------------------------------
  // The two updates the worker makes

  /** `mask |= 1 << k`: slot `k` becomes occupied. The result's slot set
      determines it (`Extensional`). */
  method SetSlot(m: bv64, k: nat) returns (r: bv64)
    requires k < Entries && k !in Slots(m)
    ensures Slots(r) == Slots(m) + {k}
    ensures CountOnes(r) == CountOnes(m) + 1
    ensures InRange(m) ==> InRange(r)
  {
    RoundTrip(k);
    var i := k as bv8;
    SlotOfOrder(i, 32);
    SlotsSet(m, i);
    CountSet(m, i);
    r := m | Bit(i);
  }

  /** `mask ^= 1 << k` on an occupied slot `k`: the slot becomes free. */
  method ClearSlot(m: bv64, k: nat) returns (r: bv64)
    requires k in Slots(m)
    ensures Slots(r) == Slots(m) - {k}
    ensures CountOnes(r) + 1 == CountOnes(m)
    ensures InRange(m) ==> InRange(r)
  {
    RoundTrip(k);
    var i := k as bv8;
    SlotsClear(m, i);
    CountClear(m, i);
    r := m ^ Bit(i);
  }
}
