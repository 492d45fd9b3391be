/** Vocabulary shared by every service: optional values, the exceptions the
    services throw (which NestJS maps to HTTP statuses), the request status,
    JavaScript truthiness of optional DTO fields, and the string helpers the
    services use (ASCII lower-casing, substring search, number rendering). */
module Common {

  newtype byte = x: int | 0 <= x < 256

  datatype Option<T> = None | Some(value: T) {
    /** The destructuring default `{ page = 1 } = dto`. */
    function GetOr(default: T): T {
      if Some? then value else default
    }
  }

  /** The exceptions of the services. `ServerError` stands for a plain
      `throw new Error(...)`, which Nest answers with status 500. */
  datatype Error =
    | NotFound(message: string)
    | BadRequest(message: string)
    | Conflict(message: string)
    | Unauthorized(message: string)
    | ServerError(message: string)

  datatype Result<T> = Ok(value: T) | Err(error: Error)

  /** The status column of events, demandes and authorizations. */
  datatype Status = Pending | Accepted | Rejected

  function StatusName(s: Status): string {
    match s
    case Pending => "PENDING"
    case Accepted => "ACCEPTED"
    case Rejected => "REJECTED"
  }

  /** The two statuses after which a request can no longer be deleted. */
  predicate IsTerminal(s: Status) {
    s == Accepted || s == Rejected
  }

  /** `if (dto.name)`: a string field counts only when present and non-empty. */
  predicate HasText(o: Option<string>) {
    o.Some? && o.value != ""
  }

  /** `if (dto.eventId)`: a numeric field counts only when present and non-zero. */
  predicate HasNumber(o: Option<int>) {
    o.Some? && o.value != 0
  }

  /** JavaScript `a || b` on strings. */
  function OrElse(a: string, b: string): string {
    if a != "" then a else b
  }

  predicate StartsWith(s: string, prefix: string) {
    |prefix| <= |s| && s[..|prefix|] == prefix
  }

  predicate EndsWith(s: string, suffix: string) {
    |suffix| <= |s| && s[|s| - |suffix|..] == suffix
  }

  lemma PrefixAndSuffix(a: string, b: string)
    ensures StartsWith(a + b, a) && EndsWith(a + b, b)
  {
    assert (a + b)[..|a|] == a;
    assert (a + b)[|a|..] == b;
  }

  /** SQL `LIKE '%sub%'` read as plain substring search. */
  predicate Contains(s: string, sub: string) {
    exists i :: 0 <= i <= |s| - |sub| && OccursAt(s, sub, i)
  }

  predicate OccursAt(s: string, sub: string, i: int)
    requires 0 <= i <= |s| - |sub|
  {
    s[i..i + |sub|] == sub
  }

  /** ASCII `toLowerCase`. */
  function LowerChar(c: char): char {
    if 'A' <= c <= 'Z' then (c as int + 32) as char else c
  }

  function Lower(s: string): (r: string)
    ensures |r| == |s|
    ensures forall i :: 0 <= i < |s| ==> r[i] == LowerChar(s[i])
  {
    if s == [] then [] else [LowerChar(s[0])] + Lower(s[1..])
  }

  lemma LowerAppend(a: string, b: string)
    ensures Lower(a + b) == Lower(a) + Lower(b)
  {
    var l := Lower(a + b);
    assert forall i :: 0 <= i < |a + b| ==> l[i] == (Lower(a) + Lower(b))[i];
  }

  predicate IsDigit(c: char) {
    '0' <= c <= '9'
  }

  function DigitChar(d: nat): char
    requires d < 10
  {
    ('0' as int + d) as char
  }

  function DigitValue(c: char): nat
    requires IsDigit(c)
  {
    c as int - '0' as int
  }

  /** JavaScript `${n}` for a non-negative integer. */
  function NatToString(n: nat): (r: string)
    ensures |r| >= 1
    ensures forall i :: 0 <= i < |r| ==> IsDigit(r[i])
    decreases n
  {
    if n < 10 then [DigitChar(n)] else NatToString(n / 10) + [DigitChar(n % 10)]
  }

  /** JavaScript `${n}` for an integer. */
  function IntToString(n: int): string {
    if n < 0 then "-" + NatToString(-n) else NatToString(n)
  }

  /** The value of a string of decimal digits: the reference reading of NatToString. */
  function DecimalValue(s: string): nat
    requires forall i :: 0 <= i < |s| ==> IsDigit(s[i])
  {
    if s == [] then 0
    else DecimalValue(s[..|s| - 1]) * 10 + DigitValue(s[|s| - 1])
  }

  /** The number of decimal digits that start `s`. */
  function LeadingDigits(s: string): (n: nat)
    ensures n <= |s|
    ensures forall i :: 0 <= i < n ==> IsDigit(s[i])
    ensures n == |s| || !IsDigit(s[n])
  {
    if s != [] && IsDigit(s[0]) then 1 + LeadingDigits(s[1..]) else 0
  }

  /** MySQL's reading of a string compared with an integer column: the
      number its leading decimal digits spell, 0 when there are none. */
  function SqlNumber(s: string): nat {
    DecimalValue(s[..LeadingDigits(s)])
  }

  /** The decimal text of a number reads back as that number. */
  lemma SqlNumberOfDecimal(n: nat)
    ensures SqlNumber(NatToString(n)) == n
  {
    var t := NatToString(n);
    assert LeadingDigits(t) == |t|;
    assert t[..|t|] == t;
    NatToStringRoundTrip(n);
  }

  /** Rendering a number and reading it back gives the number, and the
      rendering has no leading zero. */
  lemma {:induction false} NatToStringRoundTrip(n: nat)
    ensures DecimalValue(NatToString(n)) == n
    ensures NatToString(n)[0] != '0' || n == 0
    decreases n
  {
    if n >= 10 {
      var s := NatToString(n);
      NatToStringRoundTrip(n / 10);
      assert s[..|s| - 1] == NatToString(n / 10);
    }
  }

  lemma NatToStringInjective(m: nat, n: nat)
    requires NatToString(m) == NatToString(n)
    ensures m == n
  {
    NatToStringRoundTrip(m);
    NatToStringRoundTrip(n);
  }
}
