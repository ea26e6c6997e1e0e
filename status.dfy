/** Classifying the HTTP status a site answered with (`From<StatusCode> for
    CheckStatus`). */
module Status {

  /** hyper's `StatusCode`: a three-digit code, 100 to 999. */
  type StatusCode = c: int | 100 <= c <= 999 witness 200

  /** Rust's `u16`, the type `as_u16` returns. */
  type U16 = x: int | 0 <= x < 0x1_0000

  const OK: StatusCode := 200
  const NOT_FOUND: StatusCode := 404

  /** The verdict for one site: the account exists, it does not, or the site
      answered with some other code, which is kept. */
  datatype CheckStatus = Available | NotFound | Other(code: U16)

  /** `CheckStatus::from`: 200 is `Available`, 404 is `NotFound`, every other
      code is `Other` with that code (`as_u16` keeps the value, since every
      status code fits in 16 bits). */
  function FromStatusCode(value: StatusCode): (s: CheckStatus)
    ensures s == Available <==> value == OK
    ensures s == NotFound <==> value == NOT_FOUND
    ensures s.Other? <==> value != OK && value != NOT_FOUND
    ensures s.Other? ==> s.code == value
  {
    if value == OK then Available
    else if value == NOT_FOUND then NotFound
    else Other(value)
  }

  /** The code a verdict stands for. */
  function Code(s: CheckStatus): (code: int) {
    match s
    case Available => OK
    case NotFound => NOT_FOUND
    case Other(c) => c
  }

  /** Classification loses nothing: the code can be read back from the verdict. */
  lemma CodeOfClassification(value: StatusCode)
    ensures Code(FromStatusCode(value)) == value
  {
  }

  /** Different codes get different verdicts. */
  lemma ClassificationInjective(a: StatusCode, b: StatusCode)
    requires FromStatusCode(a) == FromStatusCode(b)
    ensures a == b
  {
    CodeOfClassification(a);
    CodeOfClassification(b);
  }
}
