/** Globally unique identifiers: 128-bit values. */
module Guids {

  newtype Guid = x: int | 0 <= x < 0x1_0000_0000_0000_0000_0000_0000_0000_0000

  /** `Guid.Empty`. */
  const EmptyGuid: Guid := 0
}
