/** Layout sizes, discriminants and slot sentinels of the program. */
module Constants {
  import opened Types

  const MARKET_FIXED_SIZE: nat := 256
  const GLOBAL_FIXED_SIZE: nat := 96

  const GLOBAL_BLOCK_SIZE: nat := 64
  const MARKET_BLOCK_SIZE: nat := 80

  /** A resting order whose last valid slot is this never expires. */
  const NO_EXPIRATION_LAST_VALID_SLOT: u32 := 0

  const MARKET_FIXED_DISCRIMINANT: u64 := 4859840929024028656
  const GLOBAL_FIXED_DISCRIMINANT: u64 := 10787423733276977665
}
