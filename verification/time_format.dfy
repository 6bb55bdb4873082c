/**
 * `formatTime` of YouTubeService (and its copy in PyAnalyzeService): a millisecond
 * offset into a live stream rendered as `HH:MM:SS` with Java's `long` division and
 * remainder (both round toward zero) and `String.format("%02d:%02d:%02d", ...)`.
 *
 * The chat store compares these strings with SQL `BETWEEN`, so the lemmas below
 * relate the order of the strings to the order of the offsets.
 */
module TimeFormat {
  import opened Text

  const MsPerHour: int := 3600000
  const MsPerMinute: int := 60000
  const MsPerSecond: int := 1000

  /** Offsets below this render with a two-digit hour field. */
  const HundredHours: int := 100 * MsPerHour

  /** Java's `/` on `long`: the quotient rounded toward zero. */
  function JavaDiv(a: int, b: int): (q: int)
    requires b > 0
    ensures a >= 0 ==> q == a / b
    ensures a < 0 ==> q == -((-a) / b)
  {
    if a >= 0 then a / b else -((-a) / b)
  }

  /** Java's `%` on `long`: the remainder takes the sign of the dividend. */
  function JavaRem(a: int, b: int): (r: int)
    requires b > 0
    ensures a >= 0 ==> r == a % b
    ensures a == b * JavaDiv(a, b) + r
  {
    a - b * JavaDiv(a, b)
  }

  /**
   * Java's `/` rounds toward zero: for a non-negative dividend the quotient is
   * the largest multiple not above it, for a negative one the smallest
   * multiple not below it.
   */
  lemma JavaDivTruncates(a: int, b: int)
    requires b > 0
    ensures var q := JavaDiv(a, b);
            && (a >= 0 ==> b * q <= a < b * (q + 1))
            && (a < 0 ==> b * (q - 1) < a <= b * q)
  {
    var q := JavaDiv(a, b);
    if a < 0 {
      var n := -a;
      assert b * (n / b) <= n < b * (n / b + 1);
      assert q == -(n / b);
      assert b * q == -(b * (n / b));
      assert b * (q - 1) == -(b * (n / b + 1));
    }
  }

  /**
   * Java's `%` takes the sign of the dividend: it lies in [0, b) for a
   * non-negative dividend and in (-b, 0] for a negative one, and completes the
   * truncated quotient to the dividend.
   */
  lemma JavaRemSign(a: int, b: int)
    requires b > 0
    ensures var r := JavaRem(a, b);
            && (a >= 0 ==> 0 <= r < b)
            && (a < 0 ==> -b < r <= 0)
            && a == b * JavaDiv(a, b) + r
  {
    JavaDivTruncates(a, b);
  }

  /** `String.format("%02d", n)`: zero-padded to two characters, a sign counts toward the width. */
  function Pad2(n: int): string {
    if n < 0 then "-" + Decimal(-n)
    else if n < 10 then "0" + Decimal(n)
    else Decimal(n)
  }

  function Hours(ms: int): int { JavaDiv(ms, MsPerHour) }
  function Minutes(ms: int): int { JavaDiv(JavaRem(ms, MsPerHour), MsPerMinute) }
  function Seconds(ms: int): int { JavaDiv(JavaRem(ms, MsPerMinute), MsPerSecond) }

  /** A format string of `%02d` conversions separated by ':', applied to `fields`. */
  function Clock(fields: seq<int>): string
    decreases |fields|
  {
    if fields == [] then ""
    else if |fields| == 1 then Pad2(fields[0])
    else Pad2(fields[0]) + ":" + Clock(fields[1..])
  }

  /** YouTubeService.formatTime: `%02d:%02d:%02d` of hours, minutes and seconds. */
  function FormatTime(ms: int): string {
    Clock([Hours(ms), Minutes(ms), Seconds(ms)])
  }

  /** The rendering field by field. */
  lemma FormatTimeFields(ms: int)
    ensures FormatTime(ms) == Pad2(Hours(ms)) + ":" + Pad2(Minutes(ms)) + ":" + Pad2(Seconds(ms))
  {
    var h, m, sec := Pad2(Hours(ms)), Pad2(Minutes(ms)), Pad2(Seconds(ms));
    var f := [Hours(ms), Minutes(ms), Seconds(ms)];
    assert f[1..] == [Minutes(ms), Seconds(ms)] && f[1..][1..] == [Seconds(ms)];
    assert Clock(f[1..][1..]) == sec;
    assert Clock(f[1..]) == m + ":" + sec;
    assert Clock(f) == h + ":" + (m + ":" + sec);
    assert h + ":" + (m + ":" + sec) == h + ":" + m + ":" + sec;
  }

  // ---------------------------------------------------------------------------
  // The three fields
  // ---------------------------------------------------------------------------

  /**
   * For a non-negative offset the fields are whole hours, minutes below 60 and
   * seconds below 60, and together they give the offset truncated to the second.
   */
  lemma FieldsDecompose(ms: int)
    requires ms >= 0
    ensures Hours(ms) == ms / MsPerHour
    ensures 0 <= Minutes(ms) < 60 && 0 <= Seconds(ms) < 60
    ensures Hours(ms) * MsPerHour + Minutes(ms) * MsPerMinute + Seconds(ms) * MsPerSecond
            == ms - ms % MsPerSecond
  {
    var h, r := ms / MsPerHour, ms % MsPerHour;
    var m, r2 := r / MsPerMinute, r % MsPerMinute;
    assert ms == (h * 60 + m) * MsPerMinute + r2;
    DivModUnique(ms, h * 60 + m, MsPerMinute, r2);
    var s, r3 := r2 / MsPerSecond, r2 % MsPerSecond;
    assert ms == ((h * 60 + m) * 60 + s) * MsPerSecond + r3;
    DivModUnique(ms, (h * 60 + m) * 60 + s, MsPerSecond, r3);
  }

  /** Quotient and remainder are the only ones with the remainder in range. */
  lemma DivModUnique(a: int, q: int, b: int, r: int)
    requires b > 0 && 0 <= r < b && a == q * b + r
    ensures a / b == q && a % b == r
  {
    var q', r' := a / b, a % b;
    assert (q - q') * b == r' - r;
    MultipleBelow(q - q', b);
  }

  /** The only multiple of `b` strictly between `-b` and `b` is zero. */
  lemma MultipleBelow(k: int, b: int)
    requires b > 0 && -b < k * b < b
    ensures k == 0
  {
    MultipleGrows(k, b);
  }

  /** A nonzero multiple of a positive `b` is at least `b` away from zero. */
  lemma {:induction false} MultipleGrows(k: int, b: int)
    requires b > 0
    ensures k >= 1 ==> k * b >= b
    ensures k <= -1 ==> k * b <= -b
    decreases if k < 0 then -k else k
  {
    if k > 1 {
      MultipleGrows(k - 1, b);
      assert k * b == (k - 1) * b + b;
    } else if k < -1 {
      MultipleGrows(k + 1, b);
      assert k * b == (k + 1) * b - b;
    }
  }

  /** The fields give the offset in whole seconds. */
  lemma WholeSeconds(ms: int)
    requires ms >= 0
    ensures ms / MsPerSecond == Hours(ms) * 3600 + Minutes(ms) * 60 + Seconds(ms)
  {
    FieldsDecompose(ms);
  }

  // ---------------------------------------------------------------------------
  // Shape
  // ---------------------------------------------------------------------------

  /** `DD:DD:DD`. */
  predicate IsClock(s: string) {
    && |s| == 8 && s[2] == ':' && s[5] == ':'
    && IsDigit(s[0]) && IsDigit(s[1]) && IsDigit(s[3])
    && IsDigit(s[4]) && IsDigit(s[6]) && IsDigit(s[7])
  }

  /** Two decimal digits for a number below 100. */
  lemma Pad2Digits(n: int)
    requires 0 <= n < 100
    ensures Pad2(n) == [DigitChar(n / 10), DigitChar(n % 10)]
  {
    if n >= 10 {
      assert Decimal(n / 10) == [DigitChar(n / 10)];
    }
  }

  /** Below 100 hours the output is exactly eight characters `DD:DD:DD`. */
  lemma FormatTimeShape(ms: int)
    requires 0 <= ms < HundredHours
    ensures IsClock(FormatTime(ms))
    ensures FormatTime(ms) == [DigitChar(Hours(ms) / 10), DigitChar(Hours(ms) % 10), ':',
                               DigitChar(Minutes(ms) / 10), DigitChar(Minutes(ms) % 10), ':',
                               DigitChar(Seconds(ms) / 10), DigitChar(Seconds(ms) % 10)]
  {
    FormatTimeFields(ms);
    FieldsDecompose(ms);
    Pad2Digits(Hours(ms));
    Pad2Digits(Minutes(ms));
    Pad2Digits(Seconds(ms));
  }

  // ---------------------------------------------------------------------------
  // Order
  // ---------------------------------------------------------------------------

  lemma Pad2Order(x: int, y: int)
    requires 0 <= x < 100 && 0 <= y < 100
    ensures |Pad2(x)| == 2 && |Pad2(y)| == 2
    ensures Pad2(x) == Pad2(y) <==> x == y
    ensures LexLe(Pad2(x), Pad2(y)) <==> x <= y
  {
    Pad2Digits(x);
    Pad2Digits(y);
    var px, py := Pad2(x), Pad2(y);
    LexLeConcat([px[0]], [py[0]], [px[1]], [py[1]]);
    assert px == [px[0]] + [px[1]] && py == [py[0]] + [py[1]];
    assert x == 10 * (x / 10) + x % 10 && y == 10 * (y / 10) + y % 10;
  }

  /** `Pad2(x) + ":"` against `Pad2(y) + ":"`. */
  lemma FieldOrder(x: int, y: int)
    requires 0 <= x < 100 && 0 <= y < 100
    ensures |Pad2(x) + ":"| == 3 && |Pad2(y) + ":"| == 3
    ensures Pad2(x) + ":" == Pad2(y) + ":" <==> x == y
    ensures LexLe(Pad2(x) + ":", Pad2(y) + ":") <==> x <= y
  {
    Pad2Order(x, y);
    LexLeConcat(Pad2(x), Pad2(y), ":", ":");
    LexLeRefl(":");
    if Pad2(x) + ":" == Pad2(y) + ":" {
      assert Pad2(x) == (Pad2(x) + ":")[..2];
    }
  }

  /** Two rendered clocks sort as the seconds they stand for. */
  lemma ClockOrder(ha: int, ma: int, sa: int, hb: int, mb: int, sb: int)
    requires 0 <= ha < 100 && 0 <= ma < 60 && 0 <= sa < 60
    requires 0 <= hb < 100 && 0 <= mb < 60 && 0 <= sb < 60
    ensures LexLe(Pad2(ha) + ":" + Pad2(ma) + ":" + Pad2(sa), Pad2(hb) + ":" + Pad2(mb) + ":" + Pad2(sb))
            <==> ha * 3600 + ma * 60 + sa <= hb * 3600 + mb * 60 + sb
  {
    var ra, rb := Pad2(ma) + ":" + Pad2(sa), Pad2(mb) + ":" + Pad2(sb);
    assert Pad2(ha) + ":" + Pad2(ma) + ":" + Pad2(sa) == (Pad2(ha) + ":") + ra;
    assert Pad2(hb) + ":" + Pad2(mb) + ":" + Pad2(sb) == (Pad2(hb) + ":") + rb;
    FieldOrder(ha, hb);
    LexLeConcat(Pad2(ha) + ":", Pad2(hb) + ":", ra, rb);
    FieldOrder(ma, mb);
    LexLeConcat(Pad2(ma) + ":", Pad2(mb) + ":", Pad2(sa), Pad2(sb));
    Pad2Order(sa, sb);
  }

  /**
   * Below 100 hours the strings sort exactly as the offsets do, to the second:
   * `formatTime(a) <= formatTime(b)` as text iff `a / 1000 <= b / 1000`.
   */
  lemma FormatTimeOrder(a: int, b: int)
    requires 0 <= a < HundredHours && 0 <= b < HundredHours
    ensures LexLe(FormatTime(a), FormatTime(b)) <==> a / MsPerSecond <= b / MsPerSecond
  {
    FormatTimeFields(a);
    FormatTimeFields(b);
    FieldsDecompose(a);
    FieldsDecompose(b);
    WholeSeconds(a);
    WholeSeconds(b);
    ClockOrder(Hours(a), Minutes(a), Seconds(a), Hours(b), Minutes(b), Seconds(b));
  }

  /** Monotonicity, the direction the chat window relies on. */
  lemma FormatTimeMonotone(a: int, b: int)
    requires 0 <= a <= b < HundredHours
    ensures LexLe(FormatTime(a), FormatTime(b))
  {
    FormatTimeOrder(a, b);
  }

  /** Distinct seconds give distinct strings. */
  lemma FormatTimeInjective(a: int, b: int)
    requires 0 <= a < HundredHours && 0 <= b < HundredHours
    requires FormatTime(a) == FormatTime(b)
    ensures a / MsPerSecond == b / MsPerSecond
  {
    LexLeRefl(FormatTime(a));
    FormatTimeOrder(a, b);
    FormatTimeOrder(b, a);
  }

  /** The fields of an offset up to a minute before the stream start. */
  lemma NegativeMinuteFields(x: int)
    requires -MsPerMinute <= x < 0
    ensures Hours(x) == 0
    ensures Minutes(x) == 0 || Minutes(x) == -1
    ensures Minutes(x) == 0 ==> -60 < Seconds(x) <= 0
  {
    assert JavaRem(x, MsPerHour) == x;
    if x > -MsPerMinute {
      assert Minutes(x) == 0;
      assert JavaRem(x, MsPerMinute) == x;
    }
  }

  lemma ZeroFields()
    ensures FormatTime(0) == Pad2(0) + ":" + Pad2(0) + ":" + Pad2(0)
  {
    FormatTimeFields(0);
    assert Hours(0) == 0;
    assert Minutes(0) == 0;
    assert Seconds(0) == 0;
  }

  lemma ZeroPadded()
    ensures Pad2(0) + ":" + Pad2(0) + ":" + Pad2(0) == "00:00:00"
  {
    assert Pad2(0) == "00";
  }

  /** `00:00:00` as Java renders offset 0. */
  lemma FormatTimeZero()
    ensures FormatTime(0) == "00:00:00"
  {
    ZeroFields();
    ZeroPadded();
  }

  /** 43 minutes 30 seconds into the stream is stamped `00:43:30`. */
  lemma FormatTimeExample()
    ensures FormatTime(2610000) == "00:43:30"
  {
    FormatTimeFields(2610000);
    assert Hours(2610000) == 0;
    assert Minutes(2610000) == 43 by { assert JavaRem(2610000, MsPerHour) == 2610000; }
    assert Seconds(2610000) == 30 by { assert JavaRem(2610000, MsPerMinute) == 30000; }
    assert Pad2(0) == "00";
    assert Pad2(43) == "43";
    assert Pad2(30) == "30";
  }

  /** The two ends of a one-minute window render as distinct, ordered clock strings. */
  lemma OneMinuteWindow(t: int)
    requires 0 <= t && t + MsPerMinute < HundredHours
    ensures LexLe(FormatTime(t), FormatTime(t + MsPerMinute)) && FormatTime(t) != FormatTime(t + MsPerMinute)
  {
    FormatTimeMonotone(t, t + MsPerMinute);
    if FormatTime(t) == FormatTime(t + MsPerMinute) {
      FormatTimeInjective(t, t + MsPerMinute);
    }
  }

  /** The rendering of an offset up to a minute before the stream start. */
  lemma NegativeMinuteShape(x: int)
    requires -MsPerMinute <= x < 0
    ensures FormatTime(x) == "00:" + (Pad2(Minutes(x)) + ":" + Pad2(Seconds(x)))
    ensures Minutes(x) == 0 || Minutes(x) == -1
    ensures Minutes(x) == 0 ==> -60 < Seconds(x) <= 0
  {
    FormatTimeFields(x);
    NegativeMinuteFields(x);
    ZeroHourPrefix(Pad2(Minutes(x)), Pad2(Seconds(x)));
  }

  lemma ZeroHourPrefix(m: string, sec: string)
    ensures Pad2(0) + ":" + m + ":" + sec == "00:" + (m + ":" + sec)
  {
    assert Pad2(0) == "00";
  }

  /** After a common prefix, a minus sign sorts before a digit. */
  lemma DashBeforeDigit(p: string, t: string, u: string)
    requires t != [] && u != [] && t[0] == '-' && IsDigit(u[0])
    ensures LexLe(p + t, p + u)
  {
    LexLeConcat(p, p, t, u);
  }

  /**
   * Up to a minute before the stream start the offset is negative and Java's
   * truncating arithmetic yields strings such as `00:00:-10` or `00:-1:00`; these
   * still sort at or before `00:00:00`.
   */
  lemma NegativeMinuteSortsFirst(x: int)
    requires -MsPerMinute <= x < 0
    ensures LexLe(FormatTime(x), "00:00:00")
  {
    NegativeMinuteShape(x);
    var m, s := Minutes(x), Seconds(x);
    var tail := Pad2(m) + ":" + Pad2(s);
    assert "00:00:00" == "00:" + "00:00";
    if m == -1 {
      DashBeforeDigit("00:", tail, "00:00");
    } else if s < 0 {
      assert FormatTime(x) == "00:00:" + Pad2(s);
      assert "00:00:00" == "00:00:" + "00";
      DashBeforeDigit("00:00:", Pad2(s), "00");
    } else {
      assert FormatTime(x) == "00:00:00";
      LexLeRefl(FormatTime(x));
    }
  }

  /** The lower end of the one-minute window never sorts after the offset itself. */
  lemma WindowStartSortsFirst(p: int)
    requires 0 <= p < HundredHours
    ensures LexLe(FormatTime(p - MsPerMinute), FormatTime(p))
  {
    if p >= MsPerMinute {
      FormatTimeMonotone(p - MsPerMinute, p);
    } else {
      NegativeMinuteSortsFirst(p - MsPerMinute);
      FormatTimeMonotone(0, p);
      FormatTimeZero();
      LexLeTrans(FormatTime(p - MsPerMinute), "00:00:00", FormatTime(p));
    }
  }
}
