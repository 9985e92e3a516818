/** A value that may be absent, and the bytes of files and images. */
module Options {
  type byte = x: int | 0 <= x < 256

  datatype Option<+T> = None | Some(value: T) {
    function GetOr(default: T): T {
      match this
      case None => default
      case Some(v) => v
    }
  }
}
