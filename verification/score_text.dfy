/** The text a departed player's score is kept as: `did_not_finish N`, and reading N back. */
module ScoreText {
  import opened Options

  const Tag: string := "did_not_finish "

  function DigitChar(d: nat): char
    requires d < 10
  {
    "0123456789"[d]
  }

  predicate IsDigit(c: char) {
    '0' <= c <= '9'
  }

  function DigitValue(c: char): nat
    requires IsDigit(c)
  {
    (c as int) - ('0' as int)
  }

  /** Python's `str` of a non-negative integer: most significant digit first, no leading zeros. */
  function Decimal(n: nat): (s: string)
    ensures |s| >= 1 && forall i :: 0 <= i < |s| ==> IsDigit(s[i])
    ensures |s| > 1 ==> s[0] != '0'
  {
    if n < 10 then [DigitChar(n)] else Decimal(n / 10) + [DigitChar(n % 10)]
  }

  /** `int` of a non-empty run of decimal digits; anything else is rejected. */
  function ParseDecimal(s: string): (r: Option<nat>)
    ensures r.Some? <==> |s| >= 1 && forall i :: 0 <= i < |s| ==> IsDigit(s[i])
  {
    if |s| == 0 || !IsDigit(s[|s| - 1]) then None
    else if |s| == 1 then Some(DigitValue(s[0]))
    else match ParseDecimal(s[..|s| - 1]) {
      case None => None
      case Some(v) => Some(10 * v + DigitValue(s[|s| - 1]))
    }
  }

  /** `remove_player`'s `f'did_not_finish {score}'`. */
  function Format(n: nat): (s: string)
    ensures |s| > |Tag| && s[..|Tag|] == Tag
  {
    Tag + Decimal(n)
  }

  /** `add_player`'s `int(result[player].split()[1])`, for texts of the shape `Format` writes. */
  function Parse(s: string): Option<nat> {
    if |s| > |Tag| && s[..|Tag|] == Tag then ParseDecimal(s[|Tag|..]) else None
  }

  lemma {:induction false} DecimalRoundTrip(n: nat)
    ensures ParseDecimal(Decimal(n)) == Some(n)
  {
    if n >= 10 {
      var s := Decimal(n);
      assert s[..|s| - 1] == Decimal(n / 10);
      DecimalRoundTrip(n / 10);
    }
  }

  /** A score written on leaving is read back unchanged on return. */
  lemma ParseFormat(n: nat)
    ensures Parse(Format(n)) == Some(n)
  {
    assert Format(n)[|Tag|..] == Decimal(n);
    DecimalRoundTrip(n);
  }
}
