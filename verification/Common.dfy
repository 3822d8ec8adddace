/** Small shared vocabulary. */
module Common {

  datatype Option<+T> = None | Some(value: T) {
    function GetOr(default: T): T {
      match this
      case Some(v) => v
      case None => default
    }
  }

  newtype Byte = b: int | 0 <= b < 256

  function Min(a: int, b: int): int {
    if a <= b then a else b
  }

  /** The first n elements, or all of them when there are fewer. */
  function Take<T>(s: seq<T>, n: nat): seq<T> {
    s[..Min(|s|, n)]
  }
}
