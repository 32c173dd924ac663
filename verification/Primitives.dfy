/** The value types shared by every component: machine words, addresses and byte strings. */
module Primitives {

  datatype Option<+T> = None | Some(value: T)

  /** The value of a key, if it has one. */
  function Get<K, V>(m: map<K, V>, k: K): Option<V> {
    if k in m then Some(m[k]) else None
  }

  type Byte = x: int | 0 <= x < 256

  type Bytes = seq<Byte>

  /** A 160-bit address, read as a big-endian number. */
  type Address = nat

  /** A 256-bit storage key or value. */
  type Word = nat

  type Hash = nat

  const TWO_64: nat := 0x1_0000_0000_0000_0000
  const TWO_128: nat := 0x1_00000000_00000000_00000000_00000000
  const TWO_256: nat := 0x1_00000000_00000000_00000000_00000000_00000000_00000000_00000000_00000000

  /** `U256::max_value()`. */
  const MAX_U256: nat := TWO_256 - 1

  type U256 = x: int | 0 <= x <= MAX_U256

  /** Sender of transactions that carry no signature. */
  const UNSIGNED_SENDER: Address := 0xffffffff_ffffffff_ffffffff_ffffffff_ffffffff

  /** The account that stands for the private side of a mixed transaction. */
  const PRIVATE_EXECUTIVE_ADDRESS: Address := 0xffffffff_ffffffff_ffffffff_ffffffff_fffffffd

  function Min(x: nat, y: nat): nat {
    if x <= y then x else y
  }

  function Max(x: nat, y: nat): nat {
    if x <= y then y else x
  }

  /** `U256::saturating_add`. */
  function SaturatingAdd(x: nat, y: nat): U256 {
    Min(x + y, MAX_U256)
  }
}
