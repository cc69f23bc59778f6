/** The validator's compact form of a set of locals: four 64-bit words with one bit for each of the 256 slots. */
module LocalWords {
  import opened Bytecode

  const WORD_COUNT: nat := 4

  type Words = w: seq<bv64> | |w| == WORD_COUNT witness [0, 0, 0, 0]

  /** The bit of a slot in its word. */
  function Bit(k: nat): bv64
    requires k < 64
  {
    (1 as bv64) << (k as bv6)
  }

  function Or(w: bv64, x: bv64): bv64 {
    w | x
  }

  function AndNot(w: bv64, x: bv64): bv64 {
    w & !x
  }

  function And(w: bv64, x: bv64): bv64 {
    w & x
  }

  function Mark(w: Words, slot: nat): Words
    requires slot < MAX_LOCALS_PER_FUNCTION
  {
    w[slot / 64 := Or(w[slot / 64], Bit(slot % 64))]
  }

  function Clear(w: Words, slot: nat): Words
    requires slot < MAX_LOCALS_PER_FUNCTION
  {
    w[slot / 64 := AndNot(w[slot / 64], Bit(slot % 64))]
  }

  predicate Contains(w: Words, slot: nat)
    requires slot < MAX_LOCALS_PER_FUNCTION
  {
    And(w[slot / 64], Bit(slot % 64)) != 0
  }

  function Intersection(a: Words, b: Words): Words {
    [And(a[0], b[0]), And(a[1], b[1]), And(a[2], b[2]), And(a[3], b[3])]
  }

  /** The slots the words stand for. */
  ghost function Slots(w: Words): set<nat> {
    set slot: nat | slot < MAX_LOCALS_PER_FUNCTION && Contains(w, slot)
  }

  // ----- single words -----

  lemma RoundTrip(k: nat)
    requires k < 64
    ensures (k as bv6) as nat == k
  {
  }

  lemma ShiftsApart(i: nat, j: nat)
    requires i < 64 && j < 64 && i != j
    ensures (i as bv6) != (j as bv6)
  {
    RoundTrip(i);
    RoundTrip(j);
  }

  lemma OneBits(a: bv6, b: bv6)
    ensures (1 as bv64) << a != 0
    ensures a != b ==> And((1 as bv64) << a, (1 as bv64) << b) == 0 && (1 as bv64) << a != (1 as bv64) << b
  {
  }

  lemma BitsApart(i: nat, j: nat)
    requires i < 64 && j < 64
    ensures Bit(i) != 0 && (i != j ==> And(Bit(i), Bit(j)) == 0 && Bit(i) != Bit(j))
  {
    hide And;
    OneBits(i as bv6, j as bv6);
    if i != j { ShiftsApart(i, j); }
  }

  lemma DisjointOr(w: bv64, x: bv64, y: bv64)
    requires x & y == 0
    ensures (w | x) & y == w & y
  {
  }

  lemma DisjointAndNot(w: bv64, x: bv64, y: bv64)
    requires x & y == 0
    ensures (w & !x) & y == w & y
  {
  }

  lemma OtherBitSet(w: bv64, x: bv64, y: bv64)
    requires And(x, y) == 0
    ensures And(Or(w, x), y) == And(w, y)
  {
    DisjointOr(w, x, y);
  }

  lemma OtherBitCleared(w: bv64, x: bv64, y: bv64)
    requires And(x, y) == 0
    ensures And(AndNot(w, x), y) == And(w, y)
  {
    DisjointAndNot(w, x, y);
  }

  lemma SameBit(w: bv64, x: bv64)
    ensures And(Or(w, x), x) == x
    ensures And(AndNot(w, x), x) == 0
  {
  }

  /** Testing a bit after another or the same bit was set or cleared. */
  lemma TestAfter(w: bv64, x: bv64, y: bv64)
    requires y != 0 && (x == y || And(x, y) == 0)
    ensures And(Or(w, x), y) != 0 <==> x == y || And(w, y) != 0
    ensures x != y ==> And(AndNot(w, x), y) == And(w, y)
    ensures x == y ==> And(AndNot(w, x), y) == 0
  {
    hide And, Or, AndNot;
    if x == y {
      SameBit(w, x);
    } else {
      OtherBitSet(w, x, y);
      OtherBitCleared(w, x, y);
    }
  }

  lemma BitOrNone(v: bv64, a: bv6)
    ensures var x := (1 as bv64) << a; And(v, x) == 0 || And(v, x) == x
  {
  }

  lemma BitOrNoneAt(v: bv64, k: nat)
    requires k < 64
    ensures And(v, Bit(k)) == 0 || And(v, Bit(k)) == Bit(k)
  {
    hide And;
    BitOrNone(v, k as bv6);
  }

  lemma MeetBits(v: bv64, w: bv64, x: bv64)
    ensures And(And(v, w), x) == And(And(v, x), And(w, x))
  {
  }

  lemma AndSimple(x: bv64)
    ensures And(x, x) == x
    ensures And(x, 0) == 0
    ensures And(0, x) == 0
  {
  }

  lemma TestMeet(v: bv64, w: bv64, x: bv64)
    requires x != 0 && (And(v, x) == 0 || And(v, x) == x) && (And(w, x) == 0 || And(w, x) == x)
    ensures And(And(v, w), x) != 0 <==> And(v, x) != 0 && And(w, x) != 0
  {
    hide And;
    MeetBits(v, w, x);
    AndSimple(x);
    AndSimple(0);
  }

  // ----- the set the words stand for -----

  lemma SamePlace(slot: nat, other: nat)
    requires slot / 64 == other / 64 && slot % 64 == other % 64
    ensures slot == other
  {
    assert slot == 64 * (slot / 64) + slot % 64 && other == 64 * (other / 64) + other % 64;
  }

  /** Marking adds one slot, clearing removes one. */
  lemma MarkAndClear(w: Words, slot: nat)
    requires slot < MAX_LOCALS_PER_FUNCTION
    ensures Slots(Mark(w, slot)) == Slots(w) + {slot} && Slots(Clear(w, slot)) == Slots(w) - {slot}
  {
    hide Contains;
    forall other: nat | other < MAX_LOCALS_PER_FUNCTION
      ensures Contains(Mark(w, slot), other) == (other == slot || Contains(w, other))
      ensures Contains(Clear(w, slot), other) == (other != slot && Contains(w, other))
    {
      OneSlot(w, slot, other);
    }
  }

  lemma OneSlot(w: Words, slot: nat, other: nat)
    requires slot < MAX_LOCALS_PER_FUNCTION && other < MAX_LOCALS_PER_FUNCTION
    ensures Contains(Mark(w, slot), other) == (other == slot || Contains(w, other))
    ensures Contains(Clear(w, slot), other) == (other != slot && Contains(w, other))
  {
    hide And, Or, AndNot, Bit;
    BitsApart(slot % 64, other % 64);
    BitsApart(other % 64, slot % 64);
    TestAfter(w[slot / 64], Bit(slot % 64), Bit(other % 64));
    if slot / 64 == other / 64 && slot % 64 == other % 64 { SamePlace(slot, other); }
  }

  /** Intersecting words intersects the sets. */
  lemma IntersectionMeets(a: Words, b: Words)
    ensures Slots(Intersection(a, b)) == Slots(a) * Slots(b)
  {
    hide And, Bit;
    forall slot: nat | slot < MAX_LOCALS_PER_FUNCTION
      ensures Contains(Intersection(a, b), slot) == (Contains(a, slot) && Contains(b, slot))
    {
      var k := slot % 64;
      BitsApart(k, k);
      BitOrNoneAt(a[slot / 64], k);
      BitOrNoneAt(b[slot / 64], k);
      TestMeet(a[slot / 64], b[slot / 64], Bit(k));
    }
  }

  // ----- equal words, equal sets -----

  lemma NextShift(k: nat)
    requires k < 63
    ensures ((k + 1) as bv6) == (k as bv6) + 1 && (k as bv6) != 63
  {
    RoundTrip(k);
    RoundTrip(k + 1);
  }

  /** The lowest `k` bits. */
  function LowBits(k: nat): bv64
    requires k <= 64
  {
    if k == 0 then 0 else Or(LowBits(k - 1), Bit(k - 1))
  }

  lemma LowStep(a: bv6)
    ensures Or(((1 as bv64) << a) - 1, (1 as bv64) << a) ==
      if a == 63 then 0xFFFF_FFFF_FFFF_FFFF else ((1 as bv64) << (a + 1)) - 1
  {
  }

  lemma {:induction false} LowBitsAre(k: nat)
    requires k < 64
    ensures LowBits(k) == Bit(k) - 1
  {
    hide Or;
    if k > 0 {
      LowBitsAre(k - 1);
      NextShift(k - 1);
      LowStep((k - 1) as bv6);
    } else {
      assert Bit(0) == 1;
    }
  }

  lemma AllBits()
    ensures LowBits(64) == 0xFFFF_FFFF_FFFF_FFFF
  {
    hide Or;
    LowBitsAre(63);
    RoundTrip(63);
    LowStep(63 as bv6);
  }

  /** Words that agree on a mask and on one more bit agree on the mask with that bit. */
  lemma OneMoreBit(v: bv64, w: bv64, mask: bv64, bit: bv64)
    requires And(v, mask) == And(w, mask) && And(v, bit) == And(w, bit)
    ensures And(v, Or(mask, bit)) == And(w, Or(mask, bit))
  {
  }

  lemma {:induction false} AgreeOnLow(v: bv64, w: bv64, k: nat)
    requires k <= 64 && forall i :: 0 <= i < k ==> And(v, Bit(i)) == And(w, Bit(i))
    ensures And(v, LowBits(k)) == And(w, LowBits(k))
  {
    if k == 0 {
      NoBits(v);
      NoBits(w);
    } else {
      hide And, Or, Bit;
      AgreeOnLow(v, w, k - 1);
      OneMoreBit(v, w, LowBits(k - 1), Bit(k - 1));
    }
  }

  lemma NoBits(v: bv64)
    ensures And(v, 0) == 0
  {
  }

  lemma EveryBit(v: bv64)
    ensures And(v, 0xFFFF_FFFF_FFFF_FFFF) == v
  {
  }

  lemma SameWord(v: bv64, w: bv64)
    requires forall k :: 0 <= k < 64 ==> (And(v, Bit(k)) != 0 <==> And(w, Bit(k)) != 0)
    ensures v == w
  {
    hide And, Or, Bit;
    forall k | 0 <= k < 64 ensures And(v, Bit(k)) == And(w, Bit(k)) {
      BitOrNoneAt(v, k);
      BitOrNoneAt(w, k);
    }
    AgreeOnLow(v, w, 64);
    AllBits();
    EveryBit(v);
    EveryBit(w);
  }

  /** The comparison of words at a join is a comparison of sets. */
  lemma EqualWordsEqualSets(a: Words, b: Words)
    ensures a == b <==> Slots(a) == Slots(b)
  {
    hide And, Bit;
    if Slots(a) == Slots(b) {
      forall i | 0 <= i < WORD_COUNT ensures a[i] == b[i] {
        forall k | 0 <= k < 64 ensures And(a[i], Bit(k)) != 0 <==> And(b[i], Bit(k)) != 0 {
          SlotAt(i, k);
          assert Contains(a, 64 * i + k) <==> 64 * i + k in Slots(a);
          assert Contains(b, 64 * i + k) <==> 64 * i + k in Slots(b);
        }
        SameWord(a[i], b[i]);
      }
    }
  }

  lemma SlotAt(i: nat, k: nat)
    requires i < WORD_COUNT && k < 64
    ensures (64 * i + k) / 64 == i && (64 * i + k) % 64 == k && 64 * i + k < MAX_LOCALS_PER_FUNCTION
  {
  }

  // ----- the parameters -----

  /** `Initialized::parameters`. */
  method FirstSlots(arity: nat) returns (w: Words)
    requires arity <= MAX_LOCALS_PER_FUNCTION
    ensures Slots(w) == Parameters(arity)
  {
    w := [0, 0, 0, 0];
    NothingMarked(w);
    for slot := 0 to arity
      invariant Slots(w) == Parameters(slot)
    {
      MarkAndClear(w, slot);
      w := Mark(w, slot);
    }
  }

  lemma NothingMarked(w: Words)
    requires w == [0, 0, 0, 0]
    ensures Slots(w) == {}
  {
    forall slot: nat | slot < MAX_LOCALS_PER_FUNCTION ensures !Contains(w, slot) {
      assert w[slot / 64] == 0;
      NoBits(Bit(slot % 64));
      ZeroHasNone(Bit(slot % 64));
    }
  }

  lemma ZeroHasNone(x: bv64)
    ensures And(0, x) == 0
  {
  }
}
