/**
 * `time_format`: a count of milliseconds split into hours, minutes,
 * seconds and milliseconds, either as a dictionary (what `pysubs.Time` and
 * `shift` take as keyword arguments) or as the text 'HH:MM:SS.mmm'.
 * The input is an integer here; the `round` the program applies first is
 * the identity on integers.
 */
module TimeFormat {
  import opened Text

  /** The `{'h': h, 'm': m, 's': s, 'ms': ms}` dictionary. */
  datatype Parts = Parts(h: int, m: int, s: int, ms: int)

  /** The duration in milliseconds that a dictionary stands for when passed as `**parts`. */
  function Millis(p: Parts): int {
    p.h * 3600000 + p.m * 60000 + p.s * 1000 + p.ms
  }

  /** Every component is in its clock range and the hours are not negative. */
  predicate Normal(p: Parts) {
    0 <= p.ms < 1000 && 0 <= p.s < 60 && 0 <= p.m < 60 && 0 <= p.h
  }

  function Negate(p: Parts): Parts {
    Parts(-p.h, -p.m, -p.s, -p.ms)
  }

  /** The div/mod cascade on the magnitude of the time. */
  function Split(t: nat): (p: Parts)
    ensures Normal(p) && Millis(p) == t
  {
    var sec := t / 1000;
    var mins := sec / 60;
    Parts(mins / 60, mins % 60, sec % 60, t % 1000)
  }

  /**
   * `time_format(time, dic=True)`: a positive time gives its clock
   * components, any other time gives the components of its magnitude,
   * each negated. Either way the dictionary stands for `time` itself.
   */
  function TimeFormatDict(time: int): (p: Parts)
    ensures Millis(p) == time
    ensures time > 0 ==> Normal(p)
    ensures time <= 0 ==> Normal(Negate(p))
  {
    if time > 0 then Split(time) else Negate(Split(-time))
  }

  /** `'{:0<w>d}'.format(n)` for a non-negative `n` given as its numeral. */
  function Pad(s: string, w: nat): (r: string)
    requires AllDigits(s)
    ensures AllDigits(r) && |r| == if |s| < w then w else |s|
  {
    if |s| < w then Zeros(w - |s|) + s else s
  }

  /** `time_format(time)`: the magnitude of `time` as 'HH:MM:SS.mmm' (the sign is dropped). */
  function TimeFormatString(time: int): string {
    var p := Split(if time > 0 then time else -time);
    Pad(Decimal(p.h), 2) + ":" + Pad(Decimal(p.m), 2) + ":" + Pad(Decimal(p.s), 2) + "." + Pad(Decimal(p.ms), 3)
  }

  /** The numeral of a number below 10^w fits in `w` digits. */
  lemma {:induction false} DecimalWidth(n: nat, w: nat, bound: nat)
    requires 1 <= w && bound == Pow10(w) && n < bound
    ensures |Decimal(n)| <= w
  {
    if n >= 10 {
      DecimalWidth(n / 10, w - 1, Pow10(w - 1));
    }
  }

  function Pow10(w: nat): (r: nat)
    ensures r >= 1
  {
    if w == 0 then 1 else 10 * Pow10(w - 1)
  }

  /** A padded numeral of a number below 10^w is exactly `w` digits and reads back as the number. */
  lemma PadRoundTrip(n: nat, w: nat)
    requires 1 <= w && n < Pow10(w)
    ensures |Pad(Decimal(n), w)| == w
    ensures DigitsValue(Pad(Decimal(n), w)) == n
  {
    DecimalWidth(n, w, Pow10(w));
    DecimalRoundTrip(n);
    if |Decimal(n)| < w {
      LeadingZeros(w - |Decimal(n)|, Decimal(n));
    }
  }

  /**
   * Below 100 hours the text form is exactly 'HH:MM:SS.mmm' and its four
   * fields read back as the magnitude of the time.
   */
  lemma ClockRoundTrip(time: int)
    requires -360000000 < time < 360000000
    ensures var r := TimeFormatString(time);
      && |r| == 12 && r[2] == ':' && r[5] == ':' && r[8] == '.'
      && AllDigits(r[0..2]) && AllDigits(r[3..5]) && AllDigits(r[6..8]) && AllDigits(r[9..12])
      && DigitsValue(r[0..2]) * 3600000 + DigitsValue(r[3..5]) * 60000
         + DigitsValue(r[6..8]) * 1000 + DigitsValue(r[9..12])
         == (if time > 0 then time else -time)
  {
    var p := Split(if time > 0 then time else -time);
    assert Pow10(2) == 100 && Pow10(3) == 1000;
    PadRoundTrip(p.h, 2);
    PadRoundTrip(p.m, 2);
    PadRoundTrip(p.s, 2);
    PadRoundTrip(p.ms, 3);
    var hh, mm, ss, ms := Pad(Decimal(p.h), 2), Pad(Decimal(p.m), 2), Pad(Decimal(p.s), 2), Pad(Decimal(p.ms), 3);
    ClockLayout(hh, mm, ss, ms, TimeFormatString(time));
  }

  /** Where the four fields sit in 'HH:MM:SS.mmm'. */
  lemma ClockLayout(hh: string, mm: string, ss: string, ms: string, r: string)
    requires |hh| == 2 && |mm| == 2 && |ss| == 2 && |ms| == 3
    requires r == hh + ":" + mm + ":" + ss + "." + ms
    ensures |r| == 12 && r[2] == ':' && r[5] == ':' && r[8] == '.'
    ensures r[0..2] == hh && r[3..5] == mm && r[6..8] == ss && r[9..12] == ms
  {
  }
}
