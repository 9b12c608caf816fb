/** Small shared vocabulary: optional values, results for the error paths the
    Python code signals by raising, and bytes. */
module Base {

  datatype Option<+T> = None | Some(value: T) {
    /** The value, or `default` when absent (a Python keyword argument left out). */
    function GetOr(default: T): T {
      match this
      case Some(v) => v
      case None => default
    }
  }

  /** Outcome of an operation that returns a value or raises. */
  datatype Result<+T, +E> = Ok(value: T) | Err(error: E)

  /** Outcome of an operation that returns nothing useful or raises. */
  datatype Outcome<+E> = Pass | Fail(error: E)

  newtype byte = b: int | 0 <= b < 256

  type Bytes16 = s: seq<byte> | |s| == 16 witness seq(16, _ => 0 as byte)
  type Bytes32 = s: seq<byte> | |s| == 32 witness seq(32, _ => 0 as byte)
  type Bytes64 = s: seq<byte> | |s| == 64 witness seq(64, _ => 0 as byte)

  /** The exceptions the identity and client code raise; paths are text.
      `AircError` (an HTTP failure) is produced only by a `Transport`. */
  datatype Error =
    | ValueError(message: string)
    | AttributeError
    | FileNotFound(path: string)
    | InvalidKeyFile(path: string)
    | AircError(message: string)
}
