/** Small shared definitions: octets and the optional value. */
module Prelude {

  /** An octet, as held by a Uint8Array or a Node Buffer. */
  type byte = x: int | 0 <= x < 256

  datatype Option<+T> = None | Some(value: T)
}
