/** Vocabulary shared by all modules: results, errors and outcomes of one download. */
module Types {
  const U64 := 0x1_0000_0000_0000_0000

  datatype Option<+T> = None | Some(value: T)

  datatype Result<+T, +E> = Ok(value: T) | Err(error: E)

  function LowerAscii(c: char): char {
    if 'A' <= c <= 'Z' then c - 'A' + 'a' else c
  }

  /** The failure modes of a download; durations are whole milliseconds. */
  datatype DownloadError =
    | HttpStatus(code: nat, message: string, retryAfter: Option<nat>)
    | Timeout
    | ConnectionFailed(reason: string)
    | TlsError(reason: string)
    | WriteError(reason: string)
    | ValidationFailed(reason: string)
    | DnsResolutionFailed(reason: string)
    | TooManyRedirects(reason: string)

  datatype DownloadOutcome =
    | Success(path: string, sizeBytes: nat, elapsed: nat)
    | Failure(error: DownloadError, elapsed: nat, retriesAttempted: nat)

  datatype DownloadResult = DownloadResult(url: string, outcome: DownloadOutcome)
}
