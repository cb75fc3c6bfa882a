/**
 * Request fields as the API handlers see them after decoding the request
 * (JSON body or query string): a field is absent (`None`) or present. The
 * handlers test presence with PHP's truthiness (`!$x`), under which an
 * absent field, the empty string, the string "0" and the number 0 all count
 * as missing.
 */
module Request {
  import opened Wrappers

  /** A text field PHP treats as missing. */
  predicate MissingText(x: Option<string>) {
    x.None? || x.value == "" || x.value == "0"
  }

  /** A numeric field PHP treats as missing. */
  predicate MissingNumber(x: Option<int>) {
    x.None? || x.value == 0
  }

  /** A failed request: the HTTP status and the `message` of the response. */
  datatype Refusal = Refusal(status: int, message: string)
}
