/**
 * Unsigned machine integers of the simulator, as bounded natural numbers.
 * `Wn` is an n-bit word; `Un` is the value of an n-bit bitfield.
 */
module Machine {

  const TWO_16: nat := 0x1_0000
  const TWO_20: nat := 0x10_0000
  const TWO_31: nat := 0x8000_0000
  const TWO_32: nat := 0x1_0000_0000
  const TWO_64: nat := 0x1_0000_0000_0000_0000

  type W64 = x: int | 0 <= x < 0x1_0000_0000_0000_0000
  type W32 = x: int | 0 <= x < 0x1_0000_0000
  /** `W64s`, a signed 64-bit integer. */
  type I64 = x: int | -0x8000_0000_0000_0000 <= x < 0x8000_0000_0000_0000
  /** `int`, a signed 32-bit integer. */
  type I32 = x: int | -0x8000_0000 <= x < 0x8000_0000
  type W16 = x: int | 0 <= x < 0x1_0000
  type U2 = x: int | 0 <= x < 4
  type U3 = x: int | 0 <= x < 8
  type U4 = x: int | 0 <= x < 16
  type U6 = x: int | 0 <= x < 64
  type U7 = x: int | 0 <= x < 128
  type U8 = x: int | 0 <= x < 256
  type U28 = x: int | 0 <= x < 0x1000_0000
  type U51 = x: int | 0 <= x < 0x8_0000_0000_0000
}
