/** JavaScript strings as the scanners see them: sequences of UTF-16 code
    units, read with `charCodeAt` and cut with `slice`. */
module JsText {

  /** One UTF-16 code unit (a lone surrogate included). */
  type CodeUnit = c: int | 0 <= c < 0x1_0000

  type Text = seq<CodeUnit>

  /** The code units of a literal written with characters of the Basic
      Multilingual Plane (every literal of the model is ASCII). */
  function Lit(s: string): Text
  {
    seq(|s|, i requires 0 <= i < |s| => s[i] as int % 0x1_0000)
  }

  function Min(a: int, b: int): int { if a <= b then a else b }

  /** `s.slice(lo, hi)` for non-negative arguments: both ends are clamped to
      the length and the result is empty when `lo >= hi`. */
  function Slice(s: Text, lo: nat, hi: nat): (r: Text)
    ensures |r| == if lo < Min(hi, |s|) then Min(hi, |s|) - lo else 0
    ensures forall k :: 0 <= k < |r| ==> r[k] == s[lo + k]
    ensures lo <= hi <= |s| ==> r == s[lo..hi]
  {
    if lo < Min(hi, |s|) then s[lo..Min(hi, |s|)] else []
  }

  predicate IsAsciiUpper(c: int) { 65 <= c <= 90 }

  predicate IsDigit(c: int) { 48 <= c <= 57 }

  /** `toLowerCase` restricted to ASCII: capitals map to small letters and
      every other code unit is kept. */
  function AsciiLower(c: CodeUnit): (r: CodeUnit)
    ensures !IsAsciiUpper(r)
    ensures IsAsciiUpper(c) ==> r == c + 32
    ensures !IsAsciiUpper(c) ==> r == c
  {
    if IsAsciiUpper(c) then c + 32 else c
  }

  function AsciiLowerText(t: Text): (r: Text)
    ensures |r| == |t|
    ensures forall k :: 0 <= k < |t| ==> r[k] == AsciiLower(t[k])
  {
    seq(|t|, k requires 0 <= k < |t| => AsciiLower(t[k]))
  }

  /** Lowering a text without capitals changes nothing, which is why the
      scanners may skip `toLowerCase` when they saw no capital. */
  lemma AsciiLowerWithoutCapitals(t: Text)
    requires forall k :: 0 <= k < |t| ==> !IsAsciiUpper(t[k])
    ensures AsciiLowerText(t) == t
  {
  }

  predicate AllDigits(t: Text)
  {
    forall k :: 0 <= k < |t| ==> IsDigit(t[k])
  }

  /** The value of a run of decimal digits, read left to right as
      `value = 10 * value + digit`; the empty run is 0. */
  function DigitsValue(t: Text): nat
    requires AllDigits(t)
  {
    if t == [] then 0 else 10 * DigitsValue(t[..|t| - 1]) + (t[|t| - 1] - 48)
  }

  /** `"" + n` for a non-negative integer: its shortest decimal spelling. */
  function DecimalText(n: nat): (r: Text)
    ensures |r| > 0 && AllDigits(r)
    ensures |r| > 1 ==> r[0] != 48
  {
    if n < 10 then [48 + n] else DecimalText(n / 10) + [48 + n % 10]
  }

  /** Reading back the digits printed by `DecimalText` gives the number. */
  lemma {:induction false} DecimalRoundTrip(n: nat)
    ensures DigitsValue(DecimalText(n)) == n
  {
    var r := DecimalText(n);
    if n >= 10 {
      DecimalRoundTrip(n / 10);
      assert r[..|r| - 1] == DecimalText(n / 10);
    }
  }
}
