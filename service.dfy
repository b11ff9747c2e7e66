/**
 * The remote estimation service as the two components see it: an awaited
 * call either settles with the response body or rejects, and a rejection may
 * carry the server's `error` text in its response body. How the call is made
 * (axios, base URL, headers, logging) is not part of this model.
 */
module Service {
  import opened Wrappers

  datatype Reply<T> = Resolved(data: T) | Rejected(serverError: Option<string>)

  /** `err.response?.data?.error || fallback`: the server's text when it is
      present and non-empty, the fixed message otherwise. */
  function ErrorText(serverError: Option<string>, fallback: string): (r: string)
    ensures r == fallback || serverError == Some(r)
    ensures serverError.Some? && serverError.value != "" ==> r == serverError.value
    ensures fallback != "" ==> r != ""
  {
    match serverError
    case Some(text) => if text != "" then text else fallback
    case None => fallback
  }
}
