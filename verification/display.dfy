/**
 The text-layout arithmetic of `DotHandler` in `piserve.py`: where a message
 starts on a 16-column row when centred or right-aligned, and the pour-count
 line of the idle screen.
 */
module Display {

  /** `DotHandler.max_chars`: the width of one display row. */
  const MaxChars: int := 16

  /** Python's `int(x / 2)`: halves and truncates toward zero, unlike Dafny's `/`. */
  function TruncatedHalf(x: int): int
  {
    if x >= 0 then x / 2 else -((-x) / 2)
  }

  /**
   Starting column of `write_centered`. A message that fits is centred with
   any odd spare column on the right; a longer one starts at or left of column 0,
   overhanging each side by the same amount or the left by one less.
   */
  function CenteredColumn(msg: string): (pos: int)
    ensures |msg| <= MaxChars ==> 0 <= pos && pos + |msg| <= MaxChars
    ensures |msg| <= MaxChars ==> 0 <= (MaxChars - |msg| - pos) - pos <= 1
    ensures |msg| > MaxChars ==> pos <= 0 && 0 <= pos - (MaxChars - |msg| - pos) <= 1
    ensures pos >= 0 <==> |msg| <= MaxChars + 1
  {
    TruncatedHalf(MaxChars - |msg|)
  }

  /**
   Starting column of `write_right`: never negative; a message shorter than the
   row ends one column before the right edge, a longer one starts at column 0.
   */
  function RightColumn(msg: string): (pos: int)
    ensures pos >= 0
    ensures |msg| < MaxChars ==> pos + |msg| == MaxChars - 1
    ensures |msg| >= MaxChars - 1 ==> pos == 0
  {
    var spare := MaxChars - |msg| - 1;
    if spare > 0 then spare else 0
  }

  predicate IsDigit(c: char)
  {
    '0' <= c <= '9'
  }

  function DigitChar(d: nat): (c: char)
    requires d < 10
    ensures IsDigit(c)
  {
    "0123456789"[d]
  }

  function DigitValue(c: char): nat
    requires IsDigit(c)
  {
    (c as int) - ('0' as int)
  }

  /** Python's `str(n)` for a natural number `n`. */
  function Decimal(n: nat): (s: string)
    ensures |s| >= 1
    ensures forall i :: 0 <= i < |s| ==> IsDigit(s[i])
    ensures s[0] == '0' ==> n == 0 && s == "0"
    decreases n
  {
    if n < 10 then [DigitChar(n)] else Decimal(n / 10) + [DigitChar(n % 10)]
  }

  /** The number a string of decimal digits denotes. */
  function ValueOf(s: string): nat
    requires forall i :: 0 <= i < |s| ==> IsDigit(s[i])
    decreases |s|
  {
    if s == [] then 0 else ValueOf(s[..|s| - 1]) * 10 + DigitValue(s[|s| - 1])
  }

  /** Reading the digits `Decimal` writes gives back the number. */
  lemma {:induction false} DecimalRoundTrip(n: nat)
    ensures ValueOf(Decimal(n)) == n
    decreases n
  {
    if n < 10 {
      assert DigitValue(DigitChar(n)) == n;
    } else {
      var s := Decimal(n);
      assert s[..|s| - 1] == Decimal(n / 10);
      assert DigitValue(DigitChar(n % 10)) == n % 10;
      DecimalRoundTrip(n / 10);
    }
  }

  /** The suffix of `pours_message`. */
  const PoursSuffix: string := " serveringar"

  /** `pours_message`: the pour count in decimal, followed by " serveringar". */
  function PoursMessage(pours: nat): (m: string)
    ensures |m| > |PoursSuffix| && m[|m| - |PoursSuffix|..] == PoursSuffix
    ensures var digits := m[..|m| - |PoursSuffix|];
      && (forall i :: 0 <= i < |digits| ==> IsDigit(digits[i]))
      && ValueOf(digits) == pours
      && (digits[0] == '0' ==> digits == "0")
  {
    var digits := Decimal(pours);
    DecimalRoundTrip(pours);
    assert (digits + PoursSuffix)[..|digits|] == digits;
    digits + PoursSuffix
  }
}
