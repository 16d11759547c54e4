/** `formatTime`: whole seconds shown as minutes and seconds, each written in
    decimal and left-padded with '0' to at least two characters. */
module Clock {

  predicate IsDigit(c: char) {
    '0' <= c <= '9'
  }

  predicate AllDigits(s: string) {
    forall i :: 0 <= i < |s| ==> IsDigit(s[i])
  }

  function DigitChar(d: nat): (c: char)
    requires d < 10
    ensures IsDigit(c) && c as int - '0' as int == d
  {
    ('0' as int + d) as char
  }

  /** The number a string of decimal digits denotes (leading zeros allowed). */
  function Value(s: string): nat
    requires AllDigits(s)
  {
    if s == [] then 0
    else 10 * Value(s[..|s| - 1]) + (s[|s| - 1] as int - '0' as int)
  }

  /** `String(n)` for a natural number: its shortest decimal numeral. */
  function Decimal(n: nat): (r: string)
    ensures AllDigits(r) && Value(r) == n
    ensures 1 <= |r| && (|r| == 1 <==> n < 10)
    ensures n < 100 ==> |r| <= 2
    ensures |r| > 1 ==> r[0] != '0'
  {
    if n < 10 then [DigitChar(n)]
    else
      var r := Decimal(n / 10) + [DigitChar(n % 10)];
      assert r[..|r| - 1] == Decimal(n / 10);
      r
  }

  /** `s.padStart(width, fill)`. */
  function PadStart(s: string, width: nat, fill: char): (r: string)
    ensures |r| == if |s| >= width then |s| else width
    ensures r[|r| - |s|..] == s
    ensures forall i :: 0 <= i < |r| - |s| ==> r[i] == fill
  {
    if |s| >= width then s else seq(width - |s|, _ => fill) + s
  }

  lemma {:induction false} ZerosAreZero(z: string)
    requires forall i :: 0 <= i < |z| ==> z[i] == '0'
    ensures AllDigits(z) && Value(z) == 0
  {
    if z != [] {
      ZerosAreZero(z[..|z| - 1]);
    }
  }

  /** Leading zeros do not change the value of a numeral. */
  lemma {:induction false} LeadingZeros(z: string, s: string)
    requires forall i :: 0 <= i < |z| ==> z[i] == '0'
    requires AllDigits(s)
    ensures AllDigits(z + s) && Value(z + s) == Value(s)
    decreases |s|
  {
    ZerosAreZero(z);
    if s == [] {
      assert z + s == z;
    } else {
      LeadingZeros(z, s[..|s| - 1]);
      assert (z + s)[..|z + s| - 1] == z + s[..|s| - 1];
    }
  }

  /** `String(n).padStart(2, '0')`: the decimal numeral of `n`, with one
      '0' in front when it is a single digit. */
  function Field(n: nat): (r: string)
    ensures |r| >= 2 && AllDigits(r) && Value(r) == n
    ensures n < 100 ==> |r| == 2
    ensures |r| > 2 ==> r[0] != '0'
  {
    var d := Decimal(n);
    if |d| >= 2 then d
    else
      LeadingZeros("0", d);
      "0" + d
  }

  lemma FieldIsPadStart(n: nat)
    ensures Field(n) == PadStart(Decimal(n), 2, '0')
  {
  }

  /** `minutes:seconds` from two fields, the second exactly two wide. */
  function Join(minutes: string, secs: string): (r: string)
    requires |secs| == 2
    ensures |r| == |minutes| + 3 && r[|minutes|] == ':'
    ensures r[..|r| - 3] == minutes && r[|r| - 2..] == secs
  {
    minutes + ":" + secs
  }

  /** The shape of a clock string: minutes (at least two digits), `:`, then
      exactly two digits of seconds. */
  predicate IsClockText(r: string) {
    |r| >= 5 && r[|r| - 3] == ':' && AllDigits(r[..|r| - 3]) && AllDigits(r[|r| - 2..])
  }

  /** Reads a clock string back as seconds: the digits before the last three
      characters are minutes, the last two are seconds. */
  function ClockValue(r: string): nat
    requires IsClockText(r)
  {
    60 * Value(r[..|r| - 3]) + Value(r[|r| - 2..])
  }

  lemma JoinReadsBack(minutes: string, secs: string)
    requires AllDigits(minutes) && |minutes| >= 2 && AllDigits(secs) && |secs| == 2
    ensures IsClockText(Join(minutes, secs))
    ensures ClockValue(Join(minutes, secs)) == 60 * Value(minutes) + Value(secs)
  {
  }

  /** `formatTime(seconds)`: reading the result back gives the minutes, the
      seconds (two digits, 00 to 59) and so the original number of seconds. */
  function FormatTime(seconds: nat): (r: string)
    ensures IsClockText(r)
    ensures Value(r[..|r| - 3]) == seconds / 60
    ensures Value(r[|r| - 2..]) == seconds % 60 < 60
    ensures ClockValue(r) == seconds
    ensures seconds < 6000 ==> |r| == 5
    ensures |r| > 5 ==> r[0] != '0'
  {
    var minutes, secs := Field(seconds / 60), Field(seconds % 60);
    JoinReadsBack(minutes, secs);
    Join(minutes, secs)
  }
}
