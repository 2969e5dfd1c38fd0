/** Shared vocabulary of the model: identifiers, time, optional values and
    the tagged results that stand for the services' BusinessException. */
module Common {

  /** Database identifiers (the source's `Long` ids, always positive once saved). */
  type Id = nat

  /** Instants, counted in whole minutes on one clock. */
  type Time = int

  datatype Option<+T> = None | Some(value: T) {
    function GetOr(default: T): T {
      match this
      case Some(v) => v
      case None => default
    }
  }

  /** The error codes the services throw. Several of them (chat, thread and
      feedback codes) are thrown by the services although the ErrorCode enum
      of the repository does not list them. */
  datatype ErrorCode =
    | DuplicateEmail
    | UserNotFound
    | InvalidCredentials
    | ChatNotFound
    | ThreadNotFound
    | ThreadAccessDenied
    | FeedbackAccessDenied
    | FeedbackAlreadyExists
    | FeedbackNotFound

  /** A value, or the error code a service would throw instead. */
  datatype Result<+T> = Success(value: T) | Failure(error: ErrorCode)

  /** Decimal digit of 0 <= d < 10. */
  function DigitChar(d: nat): (c: char)
    requires d < 10
    ensures '0' <= c <= '9'
  {
    ['0', '1', '2', '3', '4', '5', '6', '7', '8', '9'][d]
  }

  /** Value of a decimal digit character. */
  function DigitValue(c: char): (d: nat)
    requires '0' <= c <= '9'
    ensures d < 10
  {
    (c as int - '0' as int) as nat
  }

  predicate IsDigits(s: string) {
    forall i :: 0 <= i < |s| ==> '0' <= s[i] <= '9'
  }

  /** Value of a string of decimal digits (most significant first). */
  function DigitsValue(s: string): nat
    requires IsDigits(s)
  {
    if s == [] then 0 else 10 * DigitsValue(s[..|s| - 1]) + DigitValue(s[|s| - 1])
  }

  /** Kotlin's `Long.toString()` for a non-negative value: the shortest
      decimal spelling, most significant digit first. */
  function NatToString(n: nat): (s: string)
    ensures |s| > 0 && IsDigits(s)
    ensures DigitsValue(s) == n
    ensures |s| > 1 ==> s[0] != '0'
  {
    if n < 10 then [DigitChar(n)]
    else
      var prefix := NatToString(n / 10);
      var s := prefix + [DigitChar(n % 10)];
      assert s[..|s| - 1] == prefix;
      s
  }
}
