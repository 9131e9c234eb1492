/**
 * Shared value types: optional values, fallible results carrying the
 * human-readable message every command of the engine returns, and the
 * messages that several operations share.
 */
module Common {

  datatype Option<+T> = None | Some(value: T) {
    /** Rust's `unwrap_or`. */
    function GetOr(default: T): T {
      match this
      case Some(v) => v
      case None => default
    }
  }

  /** A command's outcome: a value, or the one message shown to the user. */
  datatype Result<+T> = Ok(value: T) | Err(error: string)

  /** Raw bytes of a file, as the transport delivers them. */
  type Byte = bv8

  /** Returned by every remote operation on a host that has no live connection. */
  const NotConnected: string := "Not connected to this device"

  function Min(a: nat, b: nat): nat {
    if a <= b then a else b
  }
}
