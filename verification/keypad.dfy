/**
 The sixteen key flags of `src/keypad.rs`. The interpreter only reads them;
 the source has no setter, so the key array is input state here.
 */
module KeyState {
  import opened Bits

  const KEYS_NUM: nat := 16

  type KeyArray = s: seq<bool> | |s| == KEYS_NUM witness seq(KEYS_NUM, _ => false)

  datatype Keypad = Keypad(keys: KeyArray)

  /** `Keypad::new`: no key pressed. */
  function New(): (kp: Keypad)
    ensures forall k :: 0 <= k < KEYS_NUM ==> !kp.keys[k]
  {
    Keypad(seq(KEYS_NUM, _ => false))
  }

  /** `is_pressed`; a key number past 15 panics. */
  function IsPressed(kp: Keypad, key: Byte): (b: bool)
    requires key < KEYS_NUM
    ensures b ==> GetPressed(kp).Some? && GetPressed(kp).value <= key
    ensures b <==> FindPressedFrom(kp.keys, key) == Some(key as nat)
  {
    kp.keys[key]
  }

  /**
   The search behind `get_pressed` (`iter().enumerate().find(..)`), from
   position `i` on: the first pressed key at or after `i`, if any.
   */
  function FindPressedFrom(keys: seq<bool>, i: nat): (r: Option<nat>)
    requires i <= |keys|
    ensures r.None? <==> forall k :: i <= k < |keys| ==> !keys[k]
    ensures r.Some? ==> i <= r.value < |keys| && keys[r.value]
    ensures r.Some? ==> forall j :: i <= j < r.value ==> !keys[j]
    decreases |keys| - i
  {
    if i == |keys| then None
    else if keys[i] then Some(i)
    else FindPressedFrom(keys, i + 1)
  }

  /** `get_pressed`: the lowest-numbered pressed key, or none when no key is pressed. */
  function GetPressed(kp: Keypad): (r: Option<nat>)
    ensures r.None? <==> forall k :: 0 <= k < KEYS_NUM ==> !kp.keys[k]
    ensures r.Some? ==> r.value < KEYS_NUM && kp.keys[r.value]
    ensures r.Some? ==> forall j :: 0 <= j < r.value ==> !kp.keys[j]
  {
    FindPressedFrom(kp.keys, 0)
  }
}
