# Player weapon inventory

A Dafny model of the player's four-slot weapon inventory from
`Assets/Scripts/Player/PlayerWeaponController.cs`: selecting (and toggling) a
slot with the number keys, picking a weapon up into the first free slot,
dropping the equipped weapon, and removing a depleted throwable from wherever it
sits, together with the highlight that the UI shows on the selected slot.

Two modules:

- `WeaponInventory` (`weapon_inventory.dfy`) describes the inventory as a value:
  a `Slot` is a possibly-null weapon reference (`Empty` or `Holds(id)`, weapons
  being opaque identities compared by equality), and an `Inventory` is the slot
  list, the equipped weapon and the selected index (-1 for none). Each operation
  is a function (`Select`, `PickUp`, `Drop`, `Remove`) and `Consistent` is the
  invariant every operation keeps: exactly four slots, no weapon in two slots,
  an index in -1..3, and an equipped weapon that sits in the selected slot.
  The lemmas state what each operation promises and relate the operations to
  each other (pressing a key twice, picking up twice, removing what was just
  picked up, dropping twice, weapon counts).
- `WeaponController` (`weapon_controller.dfy`) is the controller as a class:
  the slots are an `array<Slot>` overwritten in place, `currentWeapon` and
  `currentSlotIndex` are fields, and `uiSelected` holds the highlight of each
  assigned UI slot. Each method is proved to change the inventory exactly as
  the matching function does and to keep `Consistent`; the pick-up loop and the
  list look-ups (`IndexOf`, `Contains`) are loops with invariants.

Selecting an empty slot while armed leaves nothing equipped but the index on
that slot, as the code does; a later pick-up may then fill that very slot
without equipping it. The UI highlight (`Highlighted`: exactly the slot at
`currentSlotIndex` is marked) is therefore not an object invariant: selecting a
slot establishes it, dropping and picking up keep it, and removing a throwable
keeps it except when the throwable sits, unequipped, in the selected slot (the
code clears that slot's UI, highlight included).

## Model

| member | source | states |
|---|---|---|
| `WeaponInventory.IndexOf` | Assets/Scripts/Player/PlayerWeaponController.cs:250-251 | the list's IndexOf: -1 exactly when the element is absent, otherwise an index holding it with no earlier occurrence |
| `WeaponInventory.Initial` | Assets/Scripts/Player/PlayerWeaponController.cs:26-34 | after waking up there are exactly four slots, none holding a weapon, nothing is equipped, the index is -1, and the invariant holds |
| `WeaponInventory.Select` | Assets/Scripts/Player/PlayerWeaponController.cs:52-74 | selecting never touches the slots and keeps the invariant (four slots, no weapon twice, index in -1..3, equipped weapon in the selected slot); after selecting an in-range slot any equipped weapon is that slot's content at that index |
| `WeaponInventory.SelectBehaviour` | Assets/Scripts/Player/PlayerWeaponController.cs:52-74 | an out-of-range index changes nothing; a slot equal to the equipped weapon unequips (null, -1), including an empty slot while unarmed; any other slot becomes equipped with its index; slots never change |
| `WeaponInventory.SelectTwiceUnequips` | Assets/Scripts/Player/PlayerWeaponController.cs:58-70 | pressing the same slot key twice, from a slot other than the equipped one, ends with nothing equipped and index -1, slots untouched |
| `WeaponInventory.SelectTwiceRestoresEquipped` | Assets/Scripts/Player/PlayerWeaponController.cs:58-70 | pressing the key of the equipped slot twice puts the weapon away and takes it out again, restoring the inventory exactly |
| `WeaponInventory.PickUp` | Assets/Scripts/Player/PlayerWeaponController.cs:194-224 | a pick-up succeeds exactly when the weapon is non-null, not already carried and some slot is empty; on success the weapon is carried, on failure nothing changes; the selection is never touched and the invariant is kept (the Contains guard keeps weapons distinct) |
| `WeaponInventory.PickUpRefusal` | Assets/Scripts/Player/PlayerWeaponController.cs:194-223 | a pick-up fails exactly when the weapon is null, already in a slot, or all four slots are taken, and a failed pick-up changes nothing |
| `WeaponInventory.PickUpFillsFirstFreeSlot` | Assets/Scripts/Player/PlayerWeaponController.cs:202-218 | a successful pick-up returns true, writes the weapon into the lowest-index empty slot and leaves every other slot, the equipped weapon and the index unchanged |
| `WeaponInventory.PickUpAddsOne` | Assets/Scripts/Player/PlayerWeaponController.cs:202-207 | a successful pick-up raises the number of carried weapons by exactly one |
| `WeaponInventory.PickUpTwiceRefused` | Assets/Scripts/Player/PlayerWeaponController.cs:199-200 | picking the same weapon up again is refused and changes nothing |
| `WeaponInventory.Drop` | Assets/Scripts/Player/PlayerWeaponController.cs:114-129 | dropping keeps four slots and the invariant and leaves nothing equipped |
| `WeaponInventory.DropBehaviour` | Assets/Scripts/Player/PlayerWeaponController.cs:114-129 | with nothing equipped dropping does nothing; otherwise exactly the selected slot is emptied, other slots are kept, and the weapon and index reset to null and -1 |
| `WeaponInventory.DropRemovesWeapon` | Assets/Scripts/Player/PlayerWeaponController.cs:119-129 | the dropped weapon is in no slot afterwards and the weapon count falls by one |
| `WeaponInventory.DropIdempotent` | Assets/Scripts/Player/PlayerWeaponController.cs:116-117 | a second drop right after a drop changes nothing |
| `WeaponInventory.Remove` | Assets/Scripts/Player/PlayerWeaponController.cs:248-263 | removing keeps four slots and the invariant, and the throwable is never left equipped |
| `WeaponInventory.RemoveBehaviour` | Assets/Scripts/Player/PlayerWeaponController.cs:248-263 | a throwable in no slot changes nothing; a carried one has exactly its slot emptied and every other slot kept; an equipped throwable is unequipped (null, -1); otherwise the selection is left alone |
| `WeaponInventory.RemoveClearsThrowable` | Assets/Scripts/Player/PlayerWeaponController.cs:250-263 | afterwards the throwable is in no slot, and the weapon count falls by one exactly when it was carried |
| `WeaponInventory.PickUpThenRemove` | Assets/Scripts/Player/PlayerWeaponController.cs:194-263 | removing a throwable right after it was picked up restores the inventory exactly |
| `WeaponController.PlayerWeaponController.constructor` | Assets/Scripts/Player/PlayerWeaponController.cs:26-34 | a new controller holds the initial inventory (four empty slots, nothing equipped, index -1) with no UI slot highlighted |
| `WeaponController.PlayerWeaponController.SlotIndexOf` | Assets/Scripts/Player/PlayerWeaponController.cs:199-200 | the linear scan returns exactly `IndexOf` of the slots, used both as Contains (result not -1) and as IndexOf |
| `WeaponController.PlayerWeaponController.SelectSlot` | Assets/Scripts/Player/PlayerWeaponController.cs:52-74 | the new inventory is `Select` of the old one and the invariant holds; in range the UI marks exactly the selected slot, out of range the UI is untouched |
| `WeaponController.PlayerWeaponController.UpdateUISlots` | Assets/Scripts/Player/PlayerWeaponController.cs:83-89 | every UI slot is highlighted exactly when its index is the current slot index |
| `WeaponController.PlayerWeaponController.DropCurrentWeapon` | Assets/Scripts/Player/PlayerWeaponController.cs:114-139 | the new inventory is `Drop` of the old one; the dropped weapon is handed on for spawning; only the dropped slot's UI highlight is cleared, so a correct highlight stays correct |
| `WeaponController.PlayerWeaponController.PickUpWeapon` | Assets/Scripts/Player/PlayerWeaponController.cs:194-224 | the first-free-slot loop yields exactly `PickUp` of the old inventory, result flag included, and keeps the invariant |
| `WeaponController.PlayerWeaponController.RemoveThrowable` | Assets/Scripts/Player/PlayerWeaponController.cs:248-273 | the new inventory is `Remove` of the old one; only the emptied slot's UI is cleared, and the highlight stays correct unless the throwable sat unequipped in the selected slot |
| `WeaponController.PlayerWeaponController.OnSlot1` | Assets/Scripts/Player/PlayerWeaponController.cs:143-146 | a press selects slot 0 (the new inventory is `Select` of the old one) and the UI then marks exactly the current slot; no press changes neither the inventory nor the UI |
| `WeaponController.PlayerWeaponController.OnSlot2` | Assets/Scripts/Player/PlayerWeaponController.cs:148-151 | a press selects slot 1 (the new inventory is `Select` of the old one) and the UI then marks exactly the current slot; no press changes neither the inventory nor the UI |
| `WeaponController.PlayerWeaponController.OnSlot3` | Assets/Scripts/Player/PlayerWeaponController.cs:153-156 | a press selects slot 2 (the new inventory is `Select` of the old one) and the UI then marks exactly the current slot; no press changes neither the inventory nor the UI |
| `WeaponController.PlayerWeaponController.OnSlot4` | Assets/Scripts/Player/PlayerWeaponController.cs:158-161 | a press selects slot 3 (the new inventory is `Select` of the old one) and the UI then marks exactly the current slot; no press changes neither the inventory nor the UI |
| `WeaponController.PlayerWeaponController.OnDropWeapon` | Assets/Scripts/Player/PlayerWeaponController.cs:106-112 | a press drops the equipped weapon as `DropCurrentWeapon` does, clearing only the dropped slot's UI highlight so a correct highlight stays correct; no press changes neither the inventory nor the UI and spawns nothing |

## Left out

- `SetWeaponActive` (lines 76-81) and the other `SetActive` calls: activating game objects and animator layer weights are engine side effects and are not modelled.
- Slot icons (`SetIcon` at lines 210-216 and the icon half of `WeaponSlotUI.Clear`): only the highlight of each UI slot is modelled; icons come from weapon classes that are not part of this model.
- `SpawnPickup` (lines 163-190): prefab instantiation and impulse forces are engine physics; the model only returns the weapon that would be spawned.
- `RegisterWeapon` (lines 227-246), Awake's gun and grenade set-up (lines 36-48) and the `OnDepleted` subscription: calls into the `Weapon` and `Grenade` classes; `RemoveThrowable` is modelled as an operation that any caller may invoke with a weapon id.
- `OnShoot` and `OnReload` (lines 91-104): they only forward to the weapon classes and change no inventory state.
- `Debug.Log` calls: logging only.
- Weapon kinds: guns, grenades and other components are not distinguished; a weapon is an identity, and `RemoveThrowable` accepts any carried weapon.
- Unity's destroyed-object equality (a destroyed weapon comparing equal to null) is not modelled: `Empty` is the only null.
- The number of UI slots is a constructor parameter and their highlights are assumed off at start; the serialized scene state is not modelled.
- `Drop` requires the selected index to be within the slot list, as the list indexer would otherwise throw; the controller's invariant always provides it.
- The player movement, camera, pick-up trigger, UI widget, spawner and enemy scripts are not part of this model.
