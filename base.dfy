/**
 * Shared value types of the door-protocol model: optional values, results and
 * outcomes, and the errors the controller raises.  Every error stands for an
 * exception of the controller; none of them is retried or absorbed.
 */
module Base {

  datatype Option<+T> = None | Some(value: T)

  /** A value, or the error that was raised instead of producing one. */
  datatype Result<+T> = Success(value: T) | Failure(error: Error)

  /** The result of an operation that returns nothing but may raise. */
  datatype Outcome = Pass | Fail(error: Error)

  datatype Error =
    /** readline came back empty: "Timeout waiting for response". */
    | Timeout
    /** The 4-digit trailer of a line did not match the checksum of its body. */
    | CrcMismatch(received: string, computed: string)
    /** A character outside the 64-symbol alphabet was decoded. */
    | BadBase64(c: char)
    /** A line whose checksum was valid but whose body is empty (no first character to inspect). */
    | EmptyBody
    /** A keypad line whose body has no third character. */
    | ShortKeypad(body: string)
    /** A reply that was not the one the exchange required; names the exchange. */
    | Refused(step: Refusal)

  /** The exchanges that raise on an unexpected reply, one per message of the controller. */
  datatype Refusal =
    /** S0 not answered by S1: "Device not accepting address". */
    | AddressRefused
    /** P0 not answered by P1 and the same time: "Machine does not go ping". */
    | PingRefused
    /** R0 not answered by A0: "Device key reset failed". */
    | ResetRefused
    /** N0 not answered by A0: "Device not accepting keys". */
    | KeyRefused
    /** K0 after the upload not answered by the hash: "Key upload corrupt". */
    | UploadCorrupt
    /** G0 answered by something that does not start with V0: "Failed to get log event". */
    | LogFetchFailed
    /** C0 not answered by A0: "Error clearing event log". */
    | LogClearFailed

  /** The string held by an optional buffer, the empty string when there is none. */
  function OrEmpty(o: Option<string>): string
  {
    match o
    case None => ""
    case Some(s) => s
  }
}
