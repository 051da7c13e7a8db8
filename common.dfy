/** Shared vocabulary of the contacts backend: optional values, the errors a
    handler can end with, and the clock units the model uses. */
module Common {

  datatype Option<+T> = None | Some(value: T)

  /** A point in time, in whole seconds (UTC). The clock is a parameter everywhere. */
  type Instant = int

  /** A calendar date as a day ordinal (one more than the day before). */
  type Day = int

  const Minute: int := 60
  const Hour: int := 60 * Minute
  const DaySeconds: int := 24 * Hour

  /** How a handler can fail.
      Http: an HTTPException with that status and detail.
      BearerChallenge: a 401 HTTPException that also sends `WWW-Authenticate: Bearer`.
      Uncaught: any other exception; the framework answers it with status 500. */
  datatype Error =
    | Http(status: int, detail: string)
    | BearerChallenge(detail: string)
    | Uncaught(message: string)
  {
    function Status(): (s: int)
      ensures Uncaught? ==> s == 500
      ensures BearerChallenge? ==> s == 401
    {
      match this
      case Http(s, _) => s
      case BearerChallenge(_) => 401
      case Uncaught(_) => 500
    }
  }

  datatype Result<+T> = Ok(value: T) | Err(error: Error)

  /** str(KeyError(key)): a missing dictionary key, which nothing catches. */
  function KeyError(key: string): (e: Error)
    ensures e.Status() == 500
  {
    Uncaught("'" + key + "'")
  }

  /** The small JSON objects handlers return: {"message": ...} or {"detail": ...}. */
  datatype Reply = Message(text: string) | Detail(text: string)

  /** The detail every failed uniqueness constraint surfaces with. */
  const IntegrityError: Error := Uncaught("IntegrityError: UNIQUE constraint failed")

  /** The value of a string of decimal digits, most significant first. */
  function DecimalValue(s: string): nat
    requires forall i :: 0 <= i < |s| ==> '0' <= s[i] <= '9'
  {
    if s == [] then 0 else DecimalValue(s[..|s| - 1]) * 10 + (s[|s| - 1] as int - '0' as int)
  }

  /** Decimal digits of a natural number, as Python's str() prints it: no
      leading zero, and reading the digits back gives the number. */
  function NatToString(n: nat): (s: string)
    ensures |s| >= 1
    ensures forall i :: 0 <= i < |s| ==> '0' <= s[i] <= '9'
    ensures |s| > 1 ==> s[0] != '0'
    ensures DecimalValue(s) == n
  {
    if n < 10 then [Digit(n)]
    else
      var init := NatToString(n / 10);
      var s := init + [Digit(n % 10)];
      assert s[..|s| - 1] == init;
      s
  }

  function Digit(d: nat): (c: char)
    requires d < 10
    ensures '0' <= c <= '9' && c as int - '0' as int == d
  {
    ('0' as int + d) as char
  }

  /** str(e) of a caught exception: Starlette prints an HTTPException as
      "<status>: <detail>"; other exceptions print their message. */
  function Describe(e: Error): string
  {
    match e
    case Http(s, d) => (if s >= 0 then NatToString(s) else "-" + NatToString(-s)) + ": " + d
    case BearerChallenge(d) => "401: " + d
    case Uncaught(m) => m
  }

  /** The text of an HTTPException begins with its status in decimal, which
      reads back as that status, and ends with ": " and the detail. */
  lemma {:induction false} DescribeReadsBack(status: nat, detail: string)
    ensures exists n :: && 0 < n <= |Describe(Http(status, detail))|
                        && (forall i :: 0 <= i < n ==> '0' <= Describe(Http(status, detail))[i] <= '9')
                        && DecimalValue(Describe(Http(status, detail))[..n]) == status
                        && Describe(Http(status, detail))[n..] == ": " + detail
  {
    var digits := NatToString(status);
    var r := Describe(Http(status, detail));
    assert r == digits + ": " + detail;
    assert r[..|digits|] == digits;
    assert r[|digits|..] == ": " + detail;
  }

  /** The two statuses the handlers print: "404: ..." and "400: ...". */
  lemma DescribeNotFound(detail: string)
    ensures Describe(Http(404, detail)) == "404: " + detail
    ensures Describe(Http(400, detail)) == "400: " + detail
  {
    assert Digit(0) == '0' && Digit(4) == '4';
    assert NatToString(4) == "4";
    assert NatToString(40) == NatToString(4) + [Digit(0)] == "40";
    assert NatToString(404) == NatToString(40) + [Digit(4)] == "404";
    assert NatToString(400) == NatToString(40) + [Digit(0)] == "400";
  }
}
