/** The player's four-slot weapon inventory, as values.
    A slot holds either nothing (the null reference of the game) or one weapon,
    identified by an opaque id; the inventory is the slot list together with the
    equipped weapon and the index of its slot (-1 when none is selected).
    Each operation of the controller is a function here; the controller class
    in module WeaponController is proved against these functions. */
module WeaponInventory {

  /** Number of weapon slots created when the controller wakes up. */
  const SlotCount: nat := 4

  type WeaponId = nat

  /** A possibly-null weapon reference. */
  datatype Slot = Empty | Holds(weapon: WeaponId)

  datatype Inventory = Inventory(slots: seq<Slot>, current: Slot, index: int)

  /** Non-empty slots hold pairwise-distinct weapons. */
  predicate Distinct(s: seq<Slot>)
  {
    forall i, j :: 0 <= i < j < |s| && s[i] != Empty ==> s[i] != s[j]
  }

  /** The controller's invariant: four slots, no weapon twice, an index that is
      -1 or a slot, and an equipped weapon that sits in the selected slot. */
  predicate Consistent(inv: Inventory)
  {
    && |inv.slots| == SlotCount
    && Distinct(inv.slots)
    && -1 <= inv.index < SlotCount
    && (inv.current != Empty ==> 0 <= inv.index && inv.slots[inv.index] == inv.current)
  }

  /** Position of the first occurrence of `x` in `s`, or -1 (the list's IndexOf). */
  function IndexOf(s: seq<Slot>, x: Slot): (k: int)
    ensures -1 <= k < |s|
    ensures k == -1 <==> x !in s
    ensures 0 <= k ==> s[k] == x && forall j :: 0 <= j < k ==> s[j] != x
  {
    if |s| == 0 then -1
    else if s[0] == x then 0
    else
      var k := IndexOf(s[1..], x);
      assert s == [s[0]] + s[1..];
      if k == -1 then -1 else k + 1
  }

  /** Number of slots that hold a weapon. */
  function Occupied(s: seq<Slot>): nat
  {
    if |s| == 0 then 0
    else (if s[0] == Empty then 0 else 1) + Occupied(s[1..])
  }

  /** State right after waking up: four empty slots, nothing equipped. */
  function Initial(): (r: Inventory)
    ensures Consistent(r)
    ensures |r.slots| == 4 && Occupied(r.slots) == 0
    ensures r.current == Empty && r.index == -1
  {
    var slots := seq(SlotCount, _ => Empty);
    OccupiedBounded(slots);
    Inventory(slots, Empty, -1)
  }

  /** Selecting slot `i`: out of range is ignored; selecting the slot whose
      content equals the equipped weapon unequips; anything else equips the
      slot's content (possibly nothing) and remembers `i`. */
  function Select(inv: Inventory, i: int): (r: Inventory)
    ensures r.slots == inv.slots
    ensures Consistent(inv) ==> Consistent(r)
    ensures 0 <= i < |inv.slots| && r.current != Empty ==> r.index == i && r.current == inv.slots[i]
  {
    if i < 0 || i >= |inv.slots| then inv
    else if inv.current == inv.slots[i] then inv.(current := Empty, index := -1)
    else inv.(current := inv.slots[i], index := i)
  }

  /** Picking up `w` into the first free slot; the flag says whether it was taken. */
  function PickUp(inv: Inventory, w: Slot): (r: (Inventory, bool))
    ensures Consistent(inv) ==> Consistent(r.0)
    ensures r.1 <==> w != Empty && w !in inv.slots && Empty in inv.slots
    ensures r.1 ==> w in r.0.slots && |r.0.slots| == |inv.slots|
    ensures !r.1 ==> r.0 == inv
    ensures r.0.current == inv.current && r.0.index == inv.index
  {
    if w == Empty then (inv, false)
    else if w in inv.slots then (inv, false)
    else
      var k := IndexOf(inv.slots, Empty);
      if k == -1 then (inv, false)
      else
        assert inv.slots[k := w][k] == w;
        (inv.(slots := inv.slots[k := w]), true)
  }

  /** Dropping the equipped weapon: its slot is emptied and nothing stays equipped.
      The slot index is read straight from the list, so it must be in range. */
  function Drop(inv: Inventory): (r: Inventory)
    requires inv.index < |inv.slots|
    ensures |r.slots| == |inv.slots|
    ensures Consistent(inv) ==> Consistent(r) && r.current == Empty
  {
    if inv.current == Empty || inv.index < 0 then inv
    else Inventory(inv.slots[inv.index := Empty], Empty, -1)
  }

  /** Removing a depleted throwable `t` from wherever it sits, unequipping it
      if it is the equipped weapon. */
  function Remove(inv: Inventory, t: WeaponId): (r: Inventory)
    ensures |r.slots| == |inv.slots|
    ensures Consistent(inv) ==> Consistent(r) && r.current != Holds(t)
  {
    var k := IndexOf(inv.slots, Holds(t));
    if k == -1 then inv
    else if inv.current == Holds(t) then Inventory(inv.slots[k := Empty], Empty, -1)
    else inv.(slots := inv.slots[k := Empty])
  }

  // ---------------------------------------------------------------------------
  // Counting weapons

  lemma {:induction false} OccupiedBounded(s: seq<Slot>)
    ensures Occupied(s) <= |s|
    ensures Occupied(s) == 0 <==> forall i :: 0 <= i < |s| ==> s[i] == Empty
  {
    if |s| > 0 {
      OccupiedBounded(s[1..]);
      assert forall i :: 1 <= i < |s| ==> s[i] == s[1..][i - 1];
    }
  }

  /** Overwriting one slot changes the weapon count by what left and what came in. */
  lemma {:induction false} OccupiedUpdate(s: seq<Slot>, k: int, v: Slot)
    requires 0 <= k < |s|
    ensures Occupied(s[k := v]) + (if s[k] == Empty then 0 else 1)
         == Occupied(s) + (if v == Empty then 0 else 1)
  {
    if k > 0 {
      OccupiedUpdate(s[1..], k - 1, v);
      assert s[k := v][1..] == s[1..][k - 1 := v];
    } else {
      assert s[k := v][1..] == s[1..];
    }
  }

  /** A full inventory has no empty slot, and conversely. */
  lemma {:induction false} FullMeansNoEmptySlot(s: seq<Slot>)
    ensures Occupied(s) == |s| <==> Empty !in s
  {
    if |s| > 0 {
      FullMeansNoEmptySlot(s[1..]);
      OccupiedBounded(s[1..]);
      assert s == [s[0]] + s[1..];
    }
  }

  // ---------------------------------------------------------------------------
  // Selecting a slot

  /** Out-of-range indices change nothing; in range, equal contents unequip and
      different contents equip slot `i`; the slot list is never touched. */
  lemma SelectBehaviour(inv: Inventory, i: int)
    ensures Select(inv, i).slots == inv.slots
    ensures (i < 0 || i >= |inv.slots|) ==> Select(inv, i) == inv
    ensures 0 <= i < |inv.slots| && inv.slots[i] == inv.current ==>
              Select(inv, i).current == Empty && Select(inv, i).index == -1
    ensures 0 <= i < |inv.slots| && inv.slots[i] != inv.current ==>
              Select(inv, i).current == inv.slots[i] && Select(inv, i).index == i
  {
  }

  /** Pressing the same slot key twice, starting from a slot that is not the
      equipped one, ends with nothing equipped. */
  lemma SelectTwiceUnequips(inv: Inventory, i: int)
    requires 0 <= i < |inv.slots| && inv.slots[i] != inv.current
    ensures Select(Select(inv, i), i) == inv.(current := Empty, index := -1)
  {
  }

  /** Pressing the key of the equipped slot twice puts the weapon away and
      takes it out again: the inventory is as before. */
  lemma SelectTwiceRestoresEquipped(inv: Inventory)
    requires Consistent(inv) && inv.current != Empty
    ensures Select(Select(inv, inv.index), inv.index) == inv
  {
  }

  // ---------------------------------------------------------------------------
  // Picking up

  /** A pick-up is refused exactly when the weapon is null, already carried, or
      every slot is taken; a refused pick-up changes nothing. */
  lemma PickUpRefusal(inv: Inventory, w: Slot)
    requires |inv.slots| == SlotCount
    ensures !PickUp(inv, w).1 <==>
              (w == Empty || w in inv.slots || Occupied(inv.slots) == SlotCount)
    ensures !PickUp(inv, w).1 ==> PickUp(inv, w).0 == inv
  {
    FullMeansNoEmptySlot(inv.slots);
  }

  /** A successful pick-up writes `w` into the lowest-index empty slot `k` and
      changes nothing else. */
  lemma PickUpFillsFirstFreeSlot(inv: Inventory, w: Slot, k: int)
    requires w != Empty && w !in inv.slots
    requires 0 <= k < |inv.slots| && inv.slots[k] == Empty
    requires forall j :: 0 <= j < k ==> inv.slots[j] != Empty
    ensures PickUp(inv, w) == (Inventory(inv.slots[k := w], inv.current, inv.index), true)
  {
  }

  /** A successful pick-up adds exactly one weapon. */
  lemma PickUpAddsOne(inv: Inventory, w: Slot)
    requires PickUp(inv, w).1
    ensures Occupied(PickUp(inv, w).0.slots) == Occupied(inv.slots) + 1
  {
    OccupiedUpdate(inv.slots, IndexOf(inv.slots, Empty), w);
  }

  /** Picking up the same weapon a second time is refused and changes nothing. */
  lemma PickUpTwiceRefused(inv: Inventory, w: Slot)
    ensures PickUp(PickUp(inv, w).0, w) == (PickUp(inv, w).0, false)
  {
    if PickUp(inv, w).1 {
      var k := IndexOf(inv.slots, Empty);
      assert PickUp(inv, w).0.slots[k] == w;
    }
  }

  // ---------------------------------------------------------------------------
  // Dropping

  /** With nothing equipped, dropping is a no-op; otherwise exactly the selected
      slot is emptied and nothing stays equipped. */
  lemma DropBehaviour(inv: Inventory)
    requires Consistent(inv)
    ensures inv.current == Empty ==> Drop(inv) == inv
    ensures inv.current != Empty ==>
              && Drop(inv).current == Empty && Drop(inv).index == -1
              && |Drop(inv).slots| == |inv.slots|
              && Drop(inv).slots[inv.index] == Empty
              && forall j :: 0 <= j < |inv.slots| && j != inv.index ==> Drop(inv).slots[j] == inv.slots[j]
  {
  }

  /** The dropped weapon is no longer carried anywhere, and the count falls by one. */
  lemma DropRemovesWeapon(inv: Inventory)
    requires Consistent(inv) && inv.current != Empty
    ensures inv.current !in Drop(inv).slots
    ensures Occupied(Drop(inv).slots) + 1 == Occupied(inv.slots)
  {
    var s := Drop(inv).slots;
    forall j | 0 <= j < |s| ensures s[j] != inv.current {
      if j < inv.index {
        assert inv.slots[j] != inv.slots[inv.index];
      } else if j > inv.index {
        assert inv.slots[inv.index] != inv.slots[j];
      }
    }
    OccupiedUpdate(inv.slots, inv.index, Empty);
  }

  /** Dropping twice is the same as dropping once. */
  lemma DropIdempotent(inv: Inventory)
    requires Consistent(inv)
    ensures Drop(Drop(inv)) == Drop(inv)
  {
  }

  // ---------------------------------------------------------------------------
  // Removing a depleted throwable

  /** A throwable in no slot changes nothing; otherwise exactly its slot is
      emptied, and it is unequipped only if it was the equipped weapon. */
  lemma RemoveBehaviour(inv: Inventory, t: WeaponId)
    ensures Holds(t) !in inv.slots ==> Remove(inv, t) == inv
    ensures Holds(t) in inv.slots && inv.current == Holds(t) ==>
              Remove(inv, t).current == Empty && Remove(inv, t).index == -1
    ensures inv.current != Holds(t) ==>
              Remove(inv, t).current == inv.current && Remove(inv, t).index == inv.index
    ensures Consistent(inv) ==>
              forall j :: 0 <= j < |inv.slots| ==>
                Remove(inv, t).slots[j] == (if inv.slots[j] == Holds(t) then Empty else inv.slots[j])
  {
  }

  /** After removal the throwable is carried nowhere, and the count falls by one
      exactly when it was carried. */
  lemma RemoveClearsThrowable(inv: Inventory, t: WeaponId)
    requires Consistent(inv)
    ensures Holds(t) !in Remove(inv, t).slots
    ensures Occupied(Remove(inv, t).slots) + (if Holds(t) in inv.slots then 1 else 0)
         == Occupied(inv.slots)
  {
    var k := IndexOf(inv.slots, Holds(t));
    if k != -1 {
      var s := Remove(inv, t).slots;
      forall j | 0 <= j < |s| ensures s[j] != Holds(t) {
        if j > k {
          assert inv.slots[k] != inv.slots[j];
        }
      }
      OccupiedUpdate(inv.slots, k, Empty);
    }
  }

  /** Removing a throwable right after picking it up gives back the inventory
      as it was before the pick-up. */
  lemma PickUpThenRemove(inv: Inventory, t: WeaponId)
    requires Consistent(inv)
    requires PickUp(inv, Holds(t)).1
    ensures Remove(PickUp(inv, Holds(t)).0, t) == inv
  {
    var k := IndexOf(inv.slots, Empty);
    assert k != -1 && Holds(t) !in inv.slots;
    var s := inv.slots[k := Holds(t)];
    assert s[k] == Holds(t);
    forall j | 0 <= j < k ensures s[j] != Holds(t) {
      assert s[j] == inv.slots[j];
    }
    assert IndexOf(s, Holds(t)) == k;
    assert inv.current != Holds(t);
    assert s[k := Empty] == inv.slots;
  }
}
