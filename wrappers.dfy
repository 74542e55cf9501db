/** Failure-carrying results and the octet type shared by the modules of
    this model. */
module Wrappers {
  datatype Option<+T> = None | Some(value: T)
  datatype Result<+T, +E> = Ok(value: T) | Err(error: E)

  /** An `unsigned char`/`uint8_t`. Shifts and masks of nibbles are written
      as the arithmetic they compute: b >> 4 is b / 16, b & 0x0f is b % 16,
      and (hi << 4) | lo is 16 * hi + lo for nibbles hi and lo. */
  type byte = x: int | 0 <= x < 256
}
