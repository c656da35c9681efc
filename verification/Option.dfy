/** Column values: present or absent (SQL NULL, `std::optional`), and how large an integer may be. */
module Option {
  /** The largest integer a database column holds. */
  const MAX_INT64: nat := 0x7FFF_FFFF_FFFF_FFFF

  datatype Option<+T> = None | Some(value: T) {

    function GetOr(default: T): T {
      match this
      case Some(v) => v
      case None => default
    }
  }
}
