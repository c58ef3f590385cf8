/** Machine types of the state synchroniser: the C integer widths it uses
    and an optional value for a pointer that may be NULL. */
module Types {

  /** `uint8_t`: the width of an icon code in an inbound tuple. */
  newtype uint8 = x: int | 0 <= x < 0x100

  /** `uint32_t`: the width of an AppSync dictionary key. */
  newtype uint32 = x: int | 0 <= x < 0x1_0000_0000

  /** A pointer that may be NULL: `None` is NULL. */
  datatype Option<+T> = None | Some(value: T)
}
