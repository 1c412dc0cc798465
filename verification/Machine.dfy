/** The fixed-width unsigned integers of the firmware, and their wrap-around. */
module Machine {
  type u4 = x: int | 0 <= x < 16
  type u8 = x: int | 0 <= x < 0x100
  type u16 = x: int | 0 <= x < 0x1_0000
  type u32 = x: int | 0 <= x < 0x1_0000_0000

  function Wrap8(x: int): u8 { x % 0x100 }

  function Wrap16(x: int): u16 { x % 0x1_0000 }

  function Wrap32(x: int): u32 { x % 0x1_0000_0000 }

  function Pow256(n: nat): (w: nat)
    ensures w > 0
  {
    if n == 0 then 1 else 256 * Pow256(n - 1)
  }

  /** The value of a 32-bit pattern read as two's complement. */
  function Signed32(x: u32): int {
    if x < 0x8000_0000 then x else x - 0x1_0000_0000
  }
}
