/** Option, connectives and fixed-width integers shared by the models. */
module Common {
  datatype Option<+T> = None | Some(value: T)

  /** Precedence levels of AND and OR chains. */
  datatype Level = Conjunction | Disjunction

  const TWO32: nat := 0x1_0000_0000
  const TWO63: nat := 0x8000_0000_0000_0000
  const TWO64: nat := 0x1_0000_0000_0000_0000

  type byte = x: nat | x < 256
  type uint16 = x: nat | x < 0x1_0000
  type uint32 = x: nat | x < 0x1_0000_0000
  type uint64 = x: nat | x < 0x1_0000_0000_0000_0000

  /** Conversion of a uint64 to a signed 64-bit integer. */
  function AsInt64(u: uint64): int { if u < TWO63 then u else u - TWO64 }
}
