/** Seat-number normalisation: the data frame's seat column is converted to text
    and cut at its first '.', so that a seat stored as the float 3.0 reads "3". */
module Seat {
  import opened Sheet

  /** The text before the first '.' of `s` (all of `s` when it has none): the
      first field of splitting `s` on '.'. */
  function BeforeDot(s: string): (r: string)
    ensures r <= s
    ensures '.' !in r
    ensures '.' in s ==> |r| < |s| && s[|r|] == '.'
    ensures '.' !in s ==> r == s
  {
    if s == [] || s[0] == '.' then [] else [s[0]] + BeforeDot(s[1..])
  }

  /** Cutting at the first '.' twice is cutting once. */
  lemma BeforeDotIdempotent(s: string)
    ensures BeforeDot(BeforeDot(s)) == BeforeDot(s)
  {
  }

  function DigitChar(d: nat): (c: char)
    requires d < 10
    ensures '0' <= c <= '9' && c as int - '0' as int == d
  {
    ('0' as int + d) as char
  }

  predicate IsDigits(s: string)
  {
    forall i :: 0 <= i < |s| ==> '0' <= s[i] <= '9'
  }

  /** The decimal numeral of `n`, without leading zeros. */
  function Digits(n: nat): (r: string)
    ensures |r| >= 1 && IsDigits(r)
    ensures |r| > 1 ==> r[0] != '0'
  {
    if n < 10 then [DigitChar(n)] else Digits(n / 10) + [DigitChar(n % 10)]
  }

  /** The number a numeral denotes. */
  function DigitsValue(s: string): nat
    requires IsDigits(s)
  {
    if s == [] then 0
    else DigitsValue(s[..|s| - 1]) * 10 + (s[|s| - 1] as int - '0' as int)
  }

  /** Reading back the numeral of `n` gives `n`. */
  lemma {:induction false} DigitsRoundTrip(n: nat)
    ensures DigitsValue(Digits(n)) == n
  {
    if n >= 10 {
      var d := Digits(n);
      assert d[..|d| - 1] == Digits(n / 10);
      DigitsRoundTrip(n / 10);
    }
  }

  /** The text of Python's str() of a float, before its '.': the sign, then the
      digits of the integer part of the magnitude (so -0.5 gives "-0"). */
  function IntegerPartText(x: real): (r: string)
    ensures '.' !in r
    ensures x >= 0.0 ==> |r| >= 1 && IsDigits(r) && DigitsValue(r) == x.Floor && (|r| > 1 ==> r[0] != '0')
    ensures x < 0.0 ==> |r| >= 2 && r[0] == '-' && IsDigits(r[1..]) && DigitsValue(r[1..]) == (-x).Floor
    ensures x < 0.0 ==> |r| > 2 ==> r[1] != '0'
  {
    var m := if x < 0.0 then -x else x;
    assert m.Floor >= 0;
    DigitsRoundTrip(m.Floor);
    var d := Digits(m.Floor);
    assert forall i :: 0 <= i < |d| ==> d[i] != '.';
    if x < 0.0 then
      assert ("-" + d)[1..] == d;
      "-" + d
    else d
  }

  /** The normalised seat text of a seat cell: the cell converted to text
      (a missing cell to "nan", a number as Python writes a float) and cut at its
      first '.'. */
  function SeatText(c: Cell): (r: string)
    ensures '.' !in r
    ensures c.Text? ==> r <= c.s && ('.' in c.s ==> c.s[|r|] == '.')
    ensures c.Text? && '.' !in c.s ==> r == c.s
    ensures c.Number? && c.x >= 0.0 ==> |r| >= 1 && IsDigits(r) && DigitsValue(r) == c.x.Floor && (|r| > 1 ==> r[0] != '0')
    ensures c.Number? && c.x < 0.0 ==>
              |r| >= 2 && r[0] == '-' && IsDigits(r[1..]) && DigitsValue(r[1..]) == (-c.x).Floor
              && (|r| > 2 ==> r[1] != '0')
    ensures c.Missing? ==> r == "nan"
  {
    match c
    case Text(s) => BeforeDot(s)
    case Missing => "nan"
    case Number(x) => IntegerPartText(x)
  }

  /** Normalising an already normalised seat changes nothing. */
  lemma SeatTextIdempotent(c: Cell)
    ensures SeatText(Text(SeatText(c))) == SeatText(c)
  {
  }

  /** Seats as they come from the spreadsheet: "3.0" and the float 3.0 read "3",
      "3.0000" reads "3", "12" stays "12". */
  lemma SeatExamples()
    ensures SeatText(Text("3.0")) == "3"
    ensures SeatText(Text("3.0000")) == "3"
    ensures SeatText(Text("12")) == "12"
    ensures SeatText(Number(3.0)) == "3"
    ensures SeatText(Number(12.0)) == "12"
  {
    assert Digits(12) == Digits(1) + [DigitChar(2)] == "12";
  }
}
