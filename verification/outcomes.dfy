/**
 * Outcome values shared by the whole model: an optional value, the
 * exceptions the download engine can raise to its caller, and a result that
 * carries either a value or one of those exceptions.
 */
module Outcomes {

  datatype Option<+T> = None | Some(value: T)

  /**
   * What `Tind.download` can raise.  The first three are the exception
   * classes of `martian.exceptions`; the others are Python built-in
   * exceptions that the code raises by accident on unexpected input.
   */
  datatype Failure =
    | ServiceFailure(details: string)
    | RequestError(details: string)
    | InternalError(details: string)
      /** `match.group(1)` on `None`: a search URL with no usable `p=` parameter. */
    | AttributeError
      /** `tds[1]` when the results page has a single count marker. */
    | IndexError
      /** `details` read before assignment when the count is not found on a page with three markers. */
    | UnboundLocalError
      /** `int('')` when the captured digits are nothing but commas. */
    | ValueError

  datatype Result<+T> = Ok(value: T) | Err(error: Failure)
}
