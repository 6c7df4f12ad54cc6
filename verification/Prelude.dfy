/** Types and arithmetic helpers shared by every component. */
module Prelude {
  datatype Option<+T> = None | Some(value: T)

  /** One octet on the wire or in a frame buffer. */
  type byte = n: int | 0 <= n < 256

  /** An unsigned 16-bit quantity (screen coordinates, wire timestamps). */
  type u16 = n: int | 0 <= n < 0x1_0000

  function Min(a: int, b: int): int { if a < b then a else b }

  function Max(a: int, b: int): int { if a > b then a else b }

  /** Unsigned division rounded up (`div_ceil`). */
  function CeilDiv(n: nat, d: nat): nat
    requires d > 0
  {
    (n + d - 1) / d
  }

  /** `saturating_sub` on unsigned integers. */
  function SatSub(a: nat, b: nat): nat { if a < b then 0 else a - b }

  /** Saturation to `lo..=hi` (`clamp`). */
  function Clamp(v: int, lo: int, hi: int): int
    requires lo <= hi
  {
    if v < lo then lo else if v > hi then hi else v
  }
}
