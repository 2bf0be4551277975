/** The standard texts of the status codes. */
module HttpStatus {

  import opened HttpText

  /** The text printed for a code; a code outside the table is unknown. */
  function StatusText(status: int): string {
    if status < 300 then Success(status)
    else if status < 400 then Redirection(status)
    else if status < 413 then ClientError(status)
    else if status < 500 then MoreClientError(status)
    else ServerError(status)
  }

  const UNKNOWN: string := "<unknown>"

  function Success(status: int): string {
    match status
    case 100 => "Continue"
    case 101 => "Switching Protocols"
    case 102 => "Processing"
    case 200 => "OK"
    case 201 => "Created"
    case 202 => "Accepted"
    case 203 => "Non-Authoritative Information"
    case 204 => "No Content"
    case 205 => "Reset Content"
    case 206 => "Partial Content"
    case 207 => "Multi-Status"
    case 208 => "Already Reported"
    case 226 => "IM Used"
    case _ => UNKNOWN
  }

  function Redirection(status: int): string {
    match status
    case 300 => "Multiple Choices"
    case 301 => "Moved Permanently"
    case 302 => "Found"
    case 303 => "See Other"
    case 304 => "Not Modified"
    case 305 => "Use Proxy"
    case 307 => "Temporary Redirect"
    case 308 => "Permanent Redirect"
    case _ => UNKNOWN
  }

  function ClientError(status: int): string {
    match status
    case 400 => "Bad Request"
    case 401 => "Unauthorized"
    case 402 => "Payment Required"
    case 403 => "Forbidden"
    case 404 => "Not Found"
    case 405 => "Method Not Allowed"
    case 406 => "Not Acceptable"
    case 407 => "Proxy Authentication Required"
    case 408 => "Request Timeout"
    case 409 => "Conflict"
    case 410 => "Gone"
    case 411 => "Length Required"
    case 412 => "Precondition Failed"
    case _ => UNKNOWN
  }

  function MoreClientError(status: int): string {
    match status
    case 413 => "Payload Too Large"
    case 414 => "URI Too Long"
    case 415 => "Unsupported Media Type"
    case 416 => "Range Not Satisfiable"
    case 417 => "Expectation Failed"
    case 421 => "Misdirected Request"
    case 422 => "Unprocessable Entity"
    case 423 => "Locked"
    case 424 => "Failed Dependency"
    case 426 => "Upgrade Required"
    case 428 => "Precondition Required"
    case 429 => "Too Many Requests"
    case 431 => "Request Header Fields Too Large"
    case 451 => "Unavailable For Legal Reasons"
    case _ => UNKNOWN
  }

  function ServerError(status: int): string {
    match status
    case 500 => "Internal Server Error"
    case 501 => "Not Implemented"
    case 502 => "Bad Gateway"
    case 503 => "Service Unavailable"
    case 504 => "Gateway Timeout"
    case 505 => "HTTP Version Not Supported"
    case 506 => "Variant Also Negotiates"
    case 507 => "Insufficient Storage"
    case 508 => "Loop Detected"
    case 510 => "Not Extended"
    case 511 => "Network Authentication Required"
    case _ => UNKNOWN
  }

  /** A text that fits on the status line. */
  predicate Printed(text: string) {
    text != "" && OneLine(text)
  }

  lemma SuccessTexts()
    ensures Printed("Continue")
    ensures Printed("Switching Protocols")
    ensures Printed("Processing")
    ensures Printed("OK")
    ensures Printed("Created")
    ensures Printed("Accepted")
    ensures Printed("Non-Authoritative Information")
    ensures Printed("No Content")
    ensures Printed("Reset Content")
    ensures Printed("Partial Content")
    ensures Printed("Multi-Status")
    ensures Printed("Already Reported")
    ensures Printed("IM Used")
    ensures Printed(UNKNOWN)
  {
  }

  lemma RedirectionTexts()
    ensures Printed("Multiple Choices")
    ensures Printed("Moved Permanently")
    ensures Printed("Found")
    ensures Printed("See Other")
    ensures Printed("Not Modified")
    ensures Printed("Use Proxy")
    ensures Printed("Temporary Redirect")
    ensures Printed("Permanent Redirect")
    ensures Printed(UNKNOWN)
  {
  }

  lemma ClientErrorTexts()
    ensures Printed("Bad Request")
    ensures Printed("Unauthorized")
    ensures Printed("Payment Required")
    ensures Printed("Forbidden")
    ensures Printed("Not Found")
    ensures Printed("Method Not Allowed")
    ensures Printed("Not Acceptable")
    ensures Printed("Proxy Authentication Required")
    ensures Printed("Request Timeout")
    ensures Printed("Conflict")
    ensures Printed("Gone")
    ensures Printed("Length Required")
    ensures Printed("Precondition Failed")
    ensures Printed(UNKNOWN)
  {
  }

  lemma MoreClientErrorTexts()
    ensures Printed("Payload Too Large")
    ensures Printed("URI Too Long")
    ensures Printed("Unsupported Media Type")
    ensures Printed("Range Not Satisfiable")
    ensures Printed("Expectation Failed")
    ensures Printed("Misdirected Request")
    ensures Printed("Unprocessable Entity")
    ensures Printed("Locked")
    ensures Printed("Failed Dependency")
    ensures Printed("Upgrade Required")
    ensures Printed("Precondition Required")
    ensures Printed("Too Many Requests")
    ensures Printed("Request Header Fields Too Large")
    ensures Printed("Unavailable For Legal Reasons")
    ensures Printed(UNKNOWN)
  {
  }

  lemma ServerErrorTexts()
    ensures Printed("Internal Server Error")
    ensures Printed("Not Implemented")
    ensures Printed("Bad Gateway")
    ensures Printed("Service Unavailable")
    ensures Printed("Gateway Timeout")
    ensures Printed("HTTP Version Not Supported")
    ensures Printed("Variant Also Negotiates")
    ensures Printed("Insufficient Storage")
    ensures Printed("Loop Detected")
    ensures Printed("Not Extended")
    ensures Printed("Network Authentication Required")
    ensures Printed(UNKNOWN)
  {
  }

  /** Every standard text fits on the status line. */
  lemma StatusPrinted(status: int)
    ensures Printed(StatusText(status))
  {
    SuccessTexts();
    RedirectionTexts();
    ClientErrorTexts();
    MoreClientErrorTexts();
    ServerErrorTexts();
    hide Printed;
  }
}
