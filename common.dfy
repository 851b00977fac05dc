/** Option and Result, the explicit outcomes that replace the source's
    event-emitter "finish"/"error" signalling. */
module Wrappers {

  datatype Option<+T> = None | Some(value: T)

  /** The error kinds the transfer core raises. */
  datatype Error =
    | NotFound(message: string)
    | NotAuthorized(message: string)
    | Forbidden(message: string)
    | StorageFailure          // a read or write stream reported an error
    | ThumbnailNotSet         // setThumbnail found no file to link

  datatype Result<+T> = Ok(value: T) | Err(error: Error)
}

/** Decimal rendering and parsing of numbers: JavaScript's `String(n)` on
    integers and the integer part of `Number(s)`. */
module Decimal {

  predicate IsDigit(c: char) { '0' <= c <= '9' }

  predicate AllDigits(s: string) { forall i :: 0 <= i < |s| ==> IsDigit(s[i]) }

  function DigitChar(d: nat): (c: char)
    requires d < 10
    ensures IsDigit(c) && c as int - '0' as int == d
  {
    ['0', '1', '2', '3', '4', '5', '6', '7', '8', '9'][d]
  }

  function DigitValue(c: char): nat
    requires IsDigit(c)
  {
    c as int - '0' as int
  }

  /** `String(n)` for a non-negative integer: decimal digits, no leading zero. */
  function NatToString(n: nat): (s: string)
    ensures |s| >= 1 && AllDigits(s)
    ensures s[0] == '0' <==> n == 0
    decreases n
  {
    if n < 10 then [DigitChar(n)] else NatToString(n / 10) + [DigitChar(n % 10)]
  }

  /** The value of a string of decimal digits (leading zeros allowed). */
  function ParseDecimal(s: string): nat
    requires AllDigits(s)
    decreases |s|
  {
    if s == [] then 0 else ParseDecimal(s[..|s| - 1]) * 10 + DigitValue(s[|s| - 1])
  }

  lemma {:induction false} ParseNatToString(n: nat)
    ensures ParseDecimal(NatToString(n)) == n
    decreases n
  {
    if n >= 10 {
      var s := NatToString(n);
      assert s[..|s| - 1] == NatToString(n / 10);
      ParseNatToString(n / 10);
    }
  }

  lemma NatToStringInjective(a: nat, b: nat)
    requires NatToString(a) == NatToString(b)
    ensures a == b
  {
    ParseNatToString(a);
    ParseNatToString(b);
  }

  /** `String(i)` for any integer. */
  function IntToString(i: int): (s: string)
    ensures |s| >= 1
    ensures i >= 0 ==> AllDigits(s)
    ensures i < 0 ==> s[0] == '-' && AllDigits(s[1..])
  {
    if i >= 0 then NatToString(i) else "-" + NatToString(-i)
  }

  /** A JavaScript number as far as the core uses it: an integer or NaN. */
  datatype Numeric = Num(value: int) | NaN

  /** `Number(s)` (and unary `+s`) on the inputs the model covers: the empty
      string is 0, a run of digits with an optional leading '-' is that
      integer, anything else is NaN. */
  function JsNumber(s: string): (r: Numeric)
    ensures AllDigits(s) ==> r == Num(ParseDecimal(s))
    ensures r.Num? && s != [] && s[0] != '-' ==> AllDigits(s)
  {
    if AllDigits(s) then Num(ParseDecimal(s))
    else if |s| >= 2 && s[0] == '-' && AllDigits(s[1..]) then Num(0 - ParseDecimal(s[1..]) as int)
    else NaN
  }

  /** Rendering an integer and reading it back gives the integer again. */
  lemma IntToStringRoundTrip(i: int)
    ensures JsNumber(IntToString(i)) == Num(i)
  {
    if i >= 0 {
      ParseNatToString(i);
    } else {
      var s := IntToString(i);
      assert s[1..] == NatToString(-i);
      ParseNatToString(-i);
    }
  }
}
