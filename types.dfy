/** The records the account store and the QR screen share. */
module Types {

  datatype Option<+T> = None | Some(value: T) {
    /** The wrapped value, or `default` when there is none (the `x || default` of the source). */
    function GetOr(default: T): T {
      match this
      case Some(v) => v
      case None => default
    }
  }

  /**
   * One generated code. `kind` is the source's `type` field ("text", "image", "video");
   * `date` is the creation day as a day number: the source stores fixed-width
   * `YYYY-MM-DD` strings, which order exactly like day numbers.
   */
  datatype QR = QR(id: string, kind: string, date: int, qr: string)

  /** An account; its list of codes is optional, as in the source's `qrData?`. */
  datatype User = User(userName: string, password: string, qrData: Option<seq<QR>>)

  /** The working list a user brings into a session: `qrData || []`. */
  function QrsOf(u: User): seq<QR> {
    u.qrData.GetOr([])
  }
}
