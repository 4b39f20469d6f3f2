/** Python's built-in `round(x, 2)`, over exact real numbers: the nearest
    whole number of hundredths, with an exact tie going to the even
    neighbour. */
module Rounding {

  function Abs(x: real): (a: real) { if x < 0.0 then -x else x }

  /** The integer nearest to `s`; a value exactly halfway between two integers
      goes to the even one. */
  function RoundHalfEven(s: real): (n: int)
    ensures s - 1.0 < n as real < s + 1.0
  {
    var whole := s.Floor;
    var fraction := s - whole as real;
    if fraction < 0.5 then whole
    else if fraction > 0.5 then whole + 1
    else if whole % 2 == 0 then whole
    else whole + 1
  }

  /** `round(x, 2)`: `x` rounded to a whole number of hundredths. */
  function RoundHundredths(x: real): (r: real)
    ensures r * 100.0 == RoundHalfEven(x * 100.0) as real
  {
    RoundHalfEven(x * 100.0) as real / 100.0
  }

  /** No integer is closer to `s` than the one it rounds to, and a tie between
      two equally close integers is broken towards the even one. */
  lemma RoundHalfEvenNearest(s: real, k: int)
    ensures Abs(RoundHalfEven(s) as real - s) <= Abs(k as real - s)
    ensures Abs(RoundHalfEven(s) as real - s) == Abs(k as real - s) && k != RoundHalfEven(s)
      ==> RoundHalfEven(s) % 2 == 0
  {
  }

  /** An integer rounds to itself. */
  lemma RoundHalfEvenOfInteger(n: int)
    ensures RoundHalfEven(n as real) == n
  {
  }

  /** The rounded value is a whole number of hundredths, at most half a
      hundredth away from `x`, and no whole number of hundredths is nearer. */
  lemma RoundHundredthsNearest(x: real, k: int)
    ensures (RoundHundredths(x) * 100.0).Floor as real == RoundHundredths(x) * 100.0
    ensures Abs(RoundHundredths(x) - x) <= 0.005
    ensures Abs(RoundHundredths(x) - x) <= Abs(k as real / 100.0 - x)
  {
    var s := x * 100.0;
    var n := RoundHalfEven(s);
    RoundHalfEvenOfInteger(n);
    RoundHalfEvenNearest(s, k);
    RoundHalfEvenNearest(s, s.Floor);
    RoundHalfEvenNearest(s, s.Floor + 1);
    assert RoundHundredths(x) - x == (n as real - s) / 100.0;
    assert k as real / 100.0 - x == (k as real - s) / 100.0;
  }

  /** Rounding an already rounded value changes nothing. */
  lemma RoundHundredthsIdempotent(x: real)
    ensures RoundHundredths(RoundHundredths(x)) == RoundHundredths(x)
  {
  }
}
