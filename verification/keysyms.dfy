/** The xkbcommon keysym values the router and the engine wrappers name. */
module Keysyms {

  type Keysym = nat

  const Space: Keysym := 0x0020
  const Minus: Keysym := 0x002d
  const Key1: Keysym := 0x0031
  const Key9: Keysym := 0x0039
  const Equal: Keysym := 0x003d

  const BackSpace: Keysym := 0xff08
  const Left: Keysym := 0xff51
  const Up: Keysym := 0xff52
  const Right: Keysym := 0xff53
  const Down: Keysym := 0xff54
  const PageUp: Keysym := 0xff55
  const PageDown: Keysym := 0xff56

  const KpLeft: Keysym := 0xff96
  const KpUp: Keysym := 0xff97
  const KpRight: Keysym := 0xff98
  const KpDown: Keysym := 0xff99
  const KpPageUp: Keysym := 0xff9a
  const KpPageDown: Keysym := 0xff9b
  const KpAdd: Keysym := 0xffab
  const KpSubtract: Keysym := 0xffad
  const Kp1: Keysym := 0xffb1
  const Kp9: Keysym := 0xffb9

  const Delete: Keysym := 0xffff

  /** The keysym xkb reports for a key that has no single symbol. */
  const NoSymbol: Keysym := 0

  /** The switch in im_handle_key also names XKB_KEY_UP and XKB_KEY_DOWN. In xkbcommon
      these are not keysyms but the two values of enum xkb_key_direction, 0 and 1; im.c:75
      passes them as the direction argument of xkb_state_update_key. As switch labels they
      therefore match the keysyms 0 (NoSymbol) and 1, not the Up and Down arrows. */
  const UP: Keysym := 0
  const DOWN: Keysym := 1
}
