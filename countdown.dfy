/**
 * The election countdown: the millisecond difference to the target becomes a
 * clamped whole number of seconds, split into days, hours, minutes and
 * seconds; each unit is padded to two digits and written in Devanagari digits.
 * The current time is a parameter (`diff`), not read from a clock.
 */
module Countdown {
  import opened JsString

  // ---------------------------------------------------------------------------
  // toNepaliNum
  // ---------------------------------------------------------------------------

  /** `nepaliDigits`: ASCII digit to Devanagari digit. */
  const NepaliDigits: map<char, char> := map[
    '0' := '०', '1' := '१', '2' := '२', '3' := '३', '4' := '४',
    '5' := '५', '6' := '६', '7' := '७', '8' := '८', '9' := '९'
  ]

  /** The Devanagari digit zero, U+0966; the other nine follow it in order. */
  const NepaliZero: char := '०'

  /** A Devanagari digit `०`..`९`. */
  predicate IsNepaliDigit(c: char) {
    NepaliZero <= c <= '९'
  }

  /** The table maps the digit `d` to the code point U+0966 + d. */
  lemma NepaliDigitsAreConsecutive(d: nat)
    requires d < 10
    ensures DigitChar(d) in NepaliDigits
    ensures NepaliDigits[DigitChar(d)] as int == NepaliZero as int + d
  {
  }

  /** `nepaliDigits[d] || d` for one character (every table value is non-empty). */
  function NepaliDigit(c: char): (r: char)
    ensures IsDigit(c) ==> r as int == NepaliZero as int + DigitValue(c)
    ensures !IsDigit(c) ==> r == c
  {
    if c in NepaliDigits then NepaliDigits[c] else c
  }

  /** `String(num).split("").map(d => nepaliDigits[d] || d).join("")`. */
  function ToNepaliNum(s: string): (r: string)
    ensures |r| == |s|
    ensures forall i :: 0 <= i < |s| ==> r[i] == NepaliDigit(s[i])
  {
    seq(|s|, i requires 0 <= i < |s| => NepaliDigit(s[i]))
  }

  /** Every character of the result is a digit exactly when it came from one. */
  lemma ToNepaliNumDigits(s: string)
    ensures forall i :: 0 <= i < |s| ==> (IsNepaliDigit(ToNepaliNum(s)[i]) <==> IsDigit(s[i]) || IsNepaliDigit(s[i]))
  {
  }

  /** Transliterating twice is transliterating once: Devanagari digits are not table keys. */
  lemma ToNepaliNumIdempotent(s: string)
    ensures ToNepaliNum(ToNepaliNum(s)) == ToNepaliNum(s)
  {
    var t := ToNepaliNum(s);
    forall i | 0 <= i < |t| ensures NepaliDigit(t[i]) == t[i] {
      if IsDigit(s[i]) {
        assert IsNepaliDigit(t[i]);
      }
    }
  }

  /** The reverse reading: a Devanagari digit back to its ASCII digit. */
  function AsciiDigit(c: char): (r: char)
    ensures IsNepaliDigit(c) ==> IsDigit(r) && NepaliDigit(r) == c
    ensures !IsNepaliDigit(c) ==> r == c
  {
    if IsNepaliDigit(c) then DigitChar(c as int - NepaliZero as int) else c
  }

  /** Reads a Devanagari-digit string back as ASCII digits. */
  function FromNepali(s: string): (r: string)
    ensures |r| == |s|
    ensures forall i :: 0 <= i < |s| ==> r[i] == AsciiDigit(s[i])
  {
    seq(|s|, i requires 0 <= i < |s| => AsciiDigit(s[i]))
  }

  /** Nothing is lost: a text without Devanagari digits is recovered from its transliteration. */
  lemma FromNepaliToNepaliNum(s: string)
    requires forall i :: 0 <= i < |s| ==> !IsNepaliDigit(s[i])
    ensures FromNepali(ToNepaliNum(s)) == s
  {
    var r := FromNepali(ToNepaliNum(s));
    forall i | 0 <= i < |s| ensures r[i] == s[i] {
      if IsDigit(s[i]) {
        assert DigitChar(DigitValue(s[i])) == s[i];
      }
    }
  }

  // ---------------------------------------------------------------------------
  // totalSeconds, days, hours, minutes, seconds
  // ---------------------------------------------------------------------------

  const SecondsPerMinute := 60
  const SecondsPerHour := 3600
  const SecondsPerDay := 24 * 3600

  /**
   * `Math.max(0, Math.floor(diff / 1000))` for an integer millisecond
   * difference (`Math.floor` of the quotient is Dafny's `/` for a positive divisor).
   */
  function TotalSeconds(diff: int): (t: nat)
    ensures t == 0 <==> diff < 1000
    ensures 0 <= diff ==> t * 1000 <= diff < t * 1000 + 1000
  {
    if diff / 1000 < 0 then 0 else diff / 1000
  }

  /** The four numbers the countdown shows. */
  datatype TimeLeft = TimeLeft(days: nat, hours: nat, minutes: nat, seconds: nat)

  /** The number of seconds a `TimeLeft` stands for. */
  function Compose(t: TimeLeft): nat {
    t.days * SecondsPerDay + t.hours * SecondsPerHour + t.minutes * SecondsPerMinute + t.seconds
  }

  /** Hours below a day, minutes and seconds below sixty. */
  predicate Normal(t: TimeLeft) {
    t.hours < 24 && t.minutes < 60 && t.seconds < 60
  }

  /**
   * `days = floor(total / 86400)`, `hours = floor((total % 86400) / 3600)`,
   * `minutes = floor((total % 3600) / 60)`, `seconds = total % 60`.
   */
  function Decompose(total: nat): (t: TimeLeft)
    ensures Normal(t)
    ensures Compose(t) == total
  {
    var t := TimeLeft(total / SecondsPerDay, (total % SecondsPerDay) / SecondsPerHour,
                      (total % SecondsPerHour) / SecondsPerMinute, total % SecondsPerMinute);
    DecomposeSums(total);
    t
  }

  /** Euclidean division is unique: `n = k*b + r` with `0 <= r < b` fixes quotient and remainder. */
  lemma DivModUnique(n: int, b: int, k: int, r: int)
    requires 0 < b && 0 <= r < b && n == k * b + r
    ensures n / b == k && n % b == r
  {
    var q := n / b;
    assert n == q * b + n % b;
    assert (k - q) * b == n % b - r;
    if k > q {
      MulAtLeast(k - q, b);
    } else if k < q {
      MulAtLeast(q - k, b);
    }
  }

  /** A positive multiple of `b` is at least `b`. */
  lemma {:induction false} MulAtLeast(x: int, b: int)
    requires 1 <= x && 0 < b
    ensures x * b >= b
  {
    if x > 1 {
      MulAtLeast(x - 1, b);
      assert x * b == (x - 1) * b + b;
    }
  }

  /** The arithmetic behind `Decompose`: the four units add back up to the total. */
  lemma DecomposeSums(total: nat)
    ensures (total / SecondsPerDay) * SecondsPerDay
      + ((total % SecondsPerDay) / SecondsPerHour) * SecondsPerHour
      + ((total % SecondsPerHour) / SecondsPerMinute) * SecondsPerMinute
      + total % SecondsPerMinute == total
  {
    var d, r := total / 86400, total % 86400;
    var h, r2 := r / 3600, r % 3600;
    DivModUnique(total, 3600, d * 24 + h, r2);
    var m, s := r2 / 60, r2 % 60;
    DivModUnique(total, 60, (d * 24 + h) * 60 + m, s);
  }

  /** A normal `TimeLeft` is determined by its total: `Decompose` is the only one. */
  lemma DecomposeUnique(t: TimeLeft)
    requires Normal(t)
    ensures Decompose(Compose(t)) == t
  {
    var total := Compose(t);
    var rest2 := t.minutes * 60 + t.seconds;
    var rest := t.hours * 3600 + rest2;
    DivModUnique(total, 86400, t.days, rest);
    DivModUnique(rest, 3600, t.hours, rest2);
    DivModUnique(total, 3600, t.days * 24 + t.hours, rest2);
    DivModUnique(rest2, 60, t.minutes, t.seconds);
    DivModUnique(total, 60, (t.days * 24 + t.hours) * 60 + t.minutes, t.seconds);
  }

  /** What the countdown shows for a millisecond difference to the target. */
  function TimeLeftFor(diff: int): TimeLeft {
    Decompose(TotalSeconds(diff))
  }

  /** Once less than a second remains, or the target has passed, every unit reads zero. */
  lemma TimeLeftAtTarget(diff: int)
    requires diff < 1000
    ensures TimeLeftFor(diff) == TimeLeft(0, 0, 0, 0)
  {
    DecomposeUnique(TimeLeft(0, 0, 0, 0));
  }

  /** Before the target the units add up to the whole seconds remaining. */
  lemma TimeLeftBeforeTarget(diff: int)
    requires 0 <= diff
    ensures var t := TimeLeftFor(diff);
      Normal(t) && Compose(t) * 1000 <= diff < Compose(t) * 1000 + 1000
  {
  }

  // ---------------------------------------------------------------------------
  // TimeUnit text
  // ---------------------------------------------------------------------------

  /** `toNepaliNum(value.toString().padStart(2, '0'))`. */
  function UnitText(v: nat): string {
    ToNepaliNum(PadStart(NatToString(v), 2, '0'))
  }

  /** The padded decimal text before transliteration is `"0"` + digit for a single digit. */
  lemma PaddedDigits(v: nat)
    ensures var p := PadStart(NatToString(v), 2, '0');
      && IsDigits(p)
      && |p| >= 2
      && (v < 100 ==> |p| == 2)
      && DigitsValue(p) == v
  {
    var s := NatToString(v);
    var p := PadStart(s, 2, '0');
    DigitsValueOfNatToString(v);
    if |s| == 1 {
      assert p == "0" + s by {
        assert p[1..] == s;
      }
      DigitsValueLeadingZero(s);
    } else {
      assert p == s by {
        assert p[|p| - |s|..] == s;
      }
      if v < 100 {
        assert |s| <= 2;
      }
    }
  }

  /** Transliterated decimal text reads back as the same digits. */
  lemma FromNepaliOfDigits(p: string)
    requires IsDigits(p)
    ensures forall i :: 0 <= i < |p| ==> IsNepaliDigit(ToNepaliNum(p)[i])
    ensures FromNepali(ToNepaliNum(p)) == p
  {
    var u := ToNepaliNum(p);
    forall i | 0 <= i < |p| ensures !IsNepaliDigit(p[i]) && IsNepaliDigit(u[i]) {
      assert IsDigit(p[i]);
      assert u[i] as int == NepaliZero as int + DigitValue(p[i]);
    }
    FromNepaliToNepaliNum(p);
  }

  /** Each unit shows at least two characters, exactly two below 100. */
  lemma UnitTextLength(v: nat)
    ensures |UnitText(v)| >= 2
    ensures v < 100 ==> |UnitText(v)| == 2
  {
    PaddedDigits(v);
  }

  /** Each unit is written in Devanagari digits only, and reading them back gives its value. */
  lemma UnitTextReadsBack(v: nat)
    ensures forall i :: 0 <= i < |UnitText(v)| ==> IsNepaliDigit(UnitText(v)[i])
    ensures IsDigits(FromNepali(UnitText(v)))
    ensures DigitsValue(FromNepali(UnitText(v))) == v
  {
    var p := PadStart(NatToString(v), 2, '0');
    PaddedDigits(v);
    FromNepaliOfDigits(p);
    assert FromNepali(UnitText(v)) == p;
  }
}
