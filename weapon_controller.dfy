/** The player's weapon controller as an object: the slot list is an array
    overwritten in place, the equipped weapon and its slot index are fields that
    every operation reassigns, and the highlight of each UI slot is a boolean
    array. Every method is proved to move the inventory exactly as the matching
    function of module WeaponInventory does. */
module WeaponController {
  import opened WeaponInventory

  class PlayerWeaponController {
    /** The weapon slots; the list object itself is never replaced. */
    const weaponSlots: array<Slot>
    var currentWeapon: Slot
    var currentSlotIndex: int
    /** Whether the highlight of each assigned UI slot is shown. */
    const uiSelected: array<bool>

    /** The inventory these fields stand for. */
    ghost function Model(): Inventory
      reads this, weaponSlots
    {
      Inventory(weaponSlots[..], currentWeapon, currentSlotIndex)
    }

    ghost predicate Valid()
      reads this, weaponSlots
    {
      Consistent(Model())
    }

    /** The UI marks exactly the slot at currentSlotIndex. */
    ghost predicate Highlighted()
      reads this, uiSelected
    {
      forall i :: 0 <= i < uiSelected.Length ==> uiSelected[i] == (i == currentSlotIndex)
    }

    /** Field initialisers and Awake: four empty slots, nothing equipped.
        The UI slots start with no highlight shown. */
    constructor (uiSlotCount: nat)
      ensures Valid() && Model() == Initial()
      ensures uiSelected.Length == uiSlotCount && Highlighted()
      ensures fresh(weaponSlots) && fresh(uiSelected)
    {
      weaponSlots := new Slot[SlotCount](_ => Empty);
      currentWeapon := Empty;
      currentSlotIndex := -1;
      uiSelected := new bool[uiSlotCount](_ => false);
      new;
      assert weaponSlots[..] == Initial().slots;
    }

    /** The list's IndexOf (and, compared with -1, its Contains): the first slot
        equal to `x`, or -1. */
    method SlotIndexOf(x: Slot) returns (k: int)
      ensures k == IndexOf(weaponSlots[..], x)
    {
      k := 0;
      while k < weaponSlots.Length
        invariant 0 <= k <= weaponSlots.Length
        invariant forall j :: 0 <= j < k ==> weaponSlots[j] != x
      {
        if weaponSlots[k] == x {
          return;
        }
        k := k + 1;
      }
      k := -1;
    }

    method SelectSlot(slotIndex: int)
      requires Valid()
      modifies this, uiSelected
      ensures Valid()
      ensures Model() == Select(old(Model()), slotIndex)
      ensures 0 <= slotIndex < SlotCount ==> Highlighted()
      ensures !(0 <= slotIndex < SlotCount) ==> uiSelected[..] == old(uiSelected[..])
    {
      if slotIndex < 0 || slotIndex >= weaponSlots.Length {
        return;
      }
      var selected := weaponSlots[slotIndex];
      if currentWeapon == selected {
        currentWeapon := Empty;
        currentSlotIndex := -1;
      } else {
        currentWeapon := selected;
        currentSlotIndex := slotIndex;
      }
      UpdateUISlots();
    }

    method UpdateUISlots()
      modifies uiSelected
      ensures Highlighted()
    {
      for i := 0 to uiSelected.Length
        invariant forall j :: 0 <= j < i ==> uiSelected[j] == (j == currentSlotIndex)
      {
        uiSelected[i] := i == currentSlotIndex;
      }
    }

    /** Drops the equipped weapon; `spawned` is the weapon handed on to be
        spawned as a pick-up in the world, Empty when nothing was dropped. */
    method DropCurrentWeapon() returns (spawned: Slot)
      requires Valid()
      modifies this, weaponSlots, uiSelected
      ensures Valid()
      ensures Model() == Drop(old(Model()))
      ensures spawned == old(currentWeapon)
      ensures var i := old(currentSlotIndex);
              uiSelected[..] == if spawned != Empty && i < uiSelected.Length
                                then old(uiSelected[..])[i := false]
                                else old(uiSelected[..])
      ensures old(Highlighted()) ==> Highlighted()
    {
      if currentWeapon == Empty || currentSlotIndex < 0 {
        return Empty;
      }
      var weaponToDrop := currentWeapon;
      var slotIndex := currentSlotIndex;
      currentWeapon := Empty;
      currentSlotIndex := -1;
      weaponSlots[slotIndex] := Empty;
      if uiSelected.Length > slotIndex {
        uiSelected[slotIndex] := false;
      }
      spawned := weaponToDrop;
    }

    method PickUpWeapon(weapon: Slot) returns (pickedUp: bool)
      requires Valid()
      modifies weaponSlots
      ensures Valid()
      ensures (Model(), pickedUp) == PickUp(old(Model()), weapon)
    {
      if weapon == Empty {
        return false;
      }
      var at := SlotIndexOf(weapon);
      if at != -1 {
        return false;
      }
      for i := 0 to weaponSlots.Length
        invariant forall j :: 0 <= j < i ==> weaponSlots[j] != Empty
        invariant weaponSlots[..] == old(weaponSlots[..])
      {
        if weaponSlots[i] == Empty {
          weaponSlots[i] := weapon;
          return true;
        }
      }
      return false;
    }

    /** Called when a carried throwable runs out. */
    method RemoveThrowable(throwable: WeaponId)
      requires Valid()
      modifies this, weaponSlots, uiSelected
      ensures Valid()
      ensures Model() == Remove(old(Model()), throwable)
      ensures var k := IndexOf(old(weaponSlots[..]), Holds(throwable));
              uiSelected[..] == if 0 <= k < uiSelected.Length
                                then old(uiSelected[..])[k := false]
                                else old(uiSelected[..])
      ensures var k := IndexOf(old(weaponSlots[..]), Holds(throwable));
              old(Highlighted()) && (k == -1 || old(currentWeapon) == Holds(throwable) || old(currentSlotIndex) != k)
              ==> Highlighted()
    {
      var index := SlotIndexOf(Holds(throwable));
      if index == -1 {
        return;
      }
      if currentWeapon == Holds(throwable) {
        currentWeapon := Empty;
        currentSlotIndex := -1;
      }
      weaponSlots[index] := Empty;
      if uiSelected.Length > index {
        uiSelected[index] := false;
      }
    }

    // Input handlers: each acts only when its key is pressed.

    method OnSlot1(pressed: bool)
      requires Valid()
      modifies this, uiSelected
      ensures Valid()
      ensures Model() == if pressed then Select(old(Model()), 0) else old(Model())
      ensures pressed ==> Highlighted()
      ensures !pressed ==> uiSelected[..] == old(uiSelected[..])
    {
      if pressed {
        SelectSlot(0);
      }
    }

    method OnSlot2(pressed: bool)
      requires Valid()
      modifies this, uiSelected
      ensures Valid()
      ensures Model() == if pressed then Select(old(Model()), 1) else old(Model())
      ensures pressed ==> Highlighted()
      ensures !pressed ==> uiSelected[..] == old(uiSelected[..])
    {
      if pressed {
        SelectSlot(1);
      }
    }

    method OnSlot3(pressed: bool)
      requires Valid()
      modifies this, uiSelected
      ensures Valid()
      ensures Model() == if pressed then Select(old(Model()), 2) else old(Model())
      ensures pressed ==> Highlighted()
      ensures !pressed ==> uiSelected[..] == old(uiSelected[..])
    {
      if pressed {
        SelectSlot(2);
      }
    }

    method OnSlot4(pressed: bool)
      requires Valid()
      modifies this, uiSelected
      ensures Valid()
      ensures Model() == if pressed then Select(old(Model()), 3) else old(Model())
      ensures pressed ==> Highlighted()
      ensures !pressed ==> uiSelected[..] == old(uiSelected[..])
    {
      if pressed {
        SelectSlot(3);
      }
    }

    method OnDropWeapon(pressed: bool) returns (spawned: Slot)
      requires Valid()
      modifies this, weaponSlots, uiSelected
      ensures Valid()
      ensures Model() == if pressed then Drop(old(Model())) else old(Model())
      ensures spawned == if pressed then old(currentWeapon) else Empty
      ensures var i := old(currentSlotIndex);
              uiSelected[..] == if spawned != Empty && i < uiSelected.Length
                                then old(uiSelected[..])[i := false]
                                else old(uiSelected[..])
      ensures old(Highlighted()) ==> Highlighted()
    {
      if !pressed {
        return Empty;
      }
      spawned := DropCurrentWeapon();
    }
  }
}
