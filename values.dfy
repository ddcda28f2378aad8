/**
 * The values the server records for a session. The clock (`datetime.now()`)
 * and the peer address returned by `accept()` are outside the model: the
 * caller supplies their text as the status report's f-string prints it.
 */
module Values {
  import opened Text

  datatype Option<T> = None | Some(value: T)

  /**
   * The text of a `datetime` as `str()` gives it (`2024-05-01 10:00:00.123456`):
   * one line that ends in a digit.
   */
  predicate IsTimestampText(t: string) {
    |t| >= 1 && IsDigit(t[|t| - 1]) && NoNewline(t)
  }

  type Timestamp = t: string | IsTimestampText(t) witness "0"

  /** The text of the `(host, port)` pair of an IPv4 peer (`('127.0.0.1', 50312)`): one line. */
  type Address = a: string | NoNewline(a) witness ""
}
