/**
 The vocabulary of src/elo.rs that the rest of the model uses: the `Rating`
 newtype over `u32`, its parse from text, and the `ExpectedOutcome` record
 that the probability model returns. The probability model itself is
 floating-point arithmetic and enters the model as a function parameter.
 */
module Elo {
  import opened Wrappers

  /** One more than the largest value of a Rust `u32`. */
  const U32_LIMIT: int := 0x1_0000_0000

  type U32 = x: int | 0 <= x < U32_LIMIT

  /** `struct Rating(pub u32)`. */
  datatype Rating = Rating(value: U32)

  /** Win, loss and draw probabilities for one pairing (f64 in the source). */
  datatype ExpectedOutcome = ExpectedOutcome(white: real, black: real, draw: real)

  /** The kinds of `ParseIntError` an unsigned decimal parse can report. */
  datatype ParseIntError = Empty | InvalidDigit | PosOverflow

  predicate IsDigit(c: char) {
    '0' <= c <= '9'
  }

  function DigitValue(c: char): (d: nat)
    requires IsDigit(c)
    ensures d < 10
  {
    c as int - '0' as int
  }

  function DigitChar(d: nat): (c: char)
    requires d < 10
    ensures IsDigit(c) && DigitValue(c) == d
  {
    ('0' as int + d) as char
  }

  /**
   The digit loop of an unsigned decimal parse: digits are read left to
   right into `acc`; the first non-digit is an `InvalidDigit`, and the first
   step whose `acc * 10 + d` leaves the `u32` range is a `PosOverflow`.
   */
  function Accumulate(acc: U32, digits: string): Result<U32, ParseIntError>
    decreases |digits|
  {
    if digits == [] then Ok(acc)
    else if !IsDigit(digits[0]) then Err(InvalidDigit)
    else if acc * 10 + DigitValue(digits[0]) >= U32_LIMIT then Err(PosOverflow)
    else Accumulate(acc * 10 + DigitValue(digits[0]), digits[1..])
  }

  /**
   `Rating::from_str`, that is `s.parse::<u32>()` wrapped in `Rating`: the
   empty text is `Empty`, a lone sign is `InvalidDigit`, one leading `+` is
   skipped, and the rest goes through the digit loop (a `-` is just an
   invalid digit for an unsigned type).
   */
  function ParseRating(s: string): (r: Result<Rating, ParseIntError>)
    ensures r.Ok? ==> |s| > 0 && (s[0] == '+' || IsDigit(s[0]))
    ensures |s| > 0 && !IsDigit(s[0]) && s[0] != '+' ==> r == Err(InvalidDigit)
  {
    if |s| == 0 then Err(Empty)
    else if (s[0] == '+' || s[0] == '-') && |s| == 1 then Err(InvalidDigit)
    else
      var digits := if s[0] == '+' then s[1..] else s;
      match Accumulate(0, digits)
      case Ok(n) => Ok(Rating(n))
      case Err(e) => Err(e)
  }

  /** The decimal text of `n`, without sign or leading zeros. */
  function Decimal(n: nat): (s: string)
    ensures |s| > 0 && IsDigit(s[0])
    ensures forall i :: 0 <= i < |s| ==> IsDigit(s[i])
  {
    if n < 10 then [DigitChar(n)] else Decimal(n / 10) + [DigitChar(n % 10)]
  }

  /** Reading one more digit after a successful prefix multiplies by ten and adds it. */
  lemma {:induction false} AccumulateSnoc(acc: U32, s: string, c: char, v: U32)
    requires IsDigit(c)
    requires Accumulate(acc, s) == Ok(v)
    decreases |s|
    ensures Accumulate(acc, s + [c]) ==
      if v * 10 + DigitValue(c) < U32_LIMIT then Ok(v * 10 + DigitValue(c)) else Err(PosOverflow)
  {
    if s == [] {
      assert s + [c] == [c];
    } else {
      assert (s + [c])[1..] == s[1..] + [c];
      AccumulateSnoc(acc * 10 + DigitValue(s[0]), s[1..], c, v);
    }
  }

  /** Every rating's decimal text parses back to that rating. */
  lemma {:induction false} ParseRatingDecimal(r: Rating)
    ensures ParseRating(Decimal(r.value)) == Ok(r)
  {
    DecimalAccumulates(r.value);
  }

  lemma {:induction false} DecimalAccumulates(n: U32)
    ensures Accumulate(0, Decimal(n)) == Ok(n)
  {
    if n >= 10 {
      DecimalAccumulates(n / 10);
      AccumulateSnoc(0, Decimal(n / 10), DigitChar(n % 10), n / 10);
    }
  }
}
