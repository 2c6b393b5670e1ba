/**
 * The rotation policy of the panic file writer: the table that maps the
 * upper-cased rotation code to an interval, a strftime suffix and a filter
 * shape, and the arithmetic that places the first rollover deadline.
 */
module Rotation {
  import opened Opt

  // ---------------------------------------------------------------------
  // Upper-casing of the rotation code
  // ---------------------------------------------------------------------

  /** ASCII upper-casing of one character. */
  function UpperChar(c: char): char {
    if 'a' <= c <= 'z' then (c as int - 'a' as int + 'A' as int) as char else c
  }

  function Upper(s: string): (r: string)
    ensures |r| == |s|
    ensures forall i :: 0 <= i < |s| ==> r[i] == UpperChar(s[i])
  {
    if s == [] then [] else [UpperChar(s[0])] + Upper(s[1..])
  }

  lemma {:induction false} UpperIdempotent(s: string)
    ensures Upper(Upper(s)) == Upper(s)
  {
    if s != [] {
      UpperIdempotent(s[1..]);
      assert Upper(s)[1..] == Upper(s[1..]);
    }
  }

  /** The only strings that upper-case to a one-letter code are its two cases. */
  lemma UpperIsCode(w: string, lower: char, upper: char)
    requires 'a' <= lower <= 'z' && upper == UpperChar(lower)
    ensures Upper(w) == [upper] <==> w == [lower] || w == [upper]
  {
    if w == [lower] || w == [upper] {
      assert Upper(w)[0] == upper;
    }
  }

  // ---------------------------------------------------------------------
  // Filter shapes: the three anchored patterns the switch compiles
  // ---------------------------------------------------------------------

  datatype FilterShape = MinuteShape | HourShape | DayShape

  /** One position of an anchored pattern: `\d` or a literal character. */
  datatype CharClass = AnyDigit | Exactly(c: char)

  predicate IsDigit(c: char) {
    '0' <= c <= '9'
  }

  predicate ClassAccepts(k: CharClass, c: char) {
    match k
    case AnyDigit => IsDigit(c)
    case Exactly(l) => c == l
  }

  function Digits(n: nat): (p: seq<CharClass>)
    ensures |p| == n && forall i :: 0 <= i < n ==> p[i] == AnyDigit
  {
    seq(n, _ => AnyDigit)
  }

  /** The position-by-position reading of each pattern text. */
  function Pattern(shape: FilterShape): seq<CharClass> {
    match shape
    case MinuteShape =>
      Digits(4) + [Exactly('-')] + Digits(2) + [Exactly('-')] + Digits(2)
      + [Exactly('_')] + Digits(2) + [Exactly('-')] + Digits(2)
    case HourShape => Digits(10)
    case DayShape => Digits(4) + [Exactly('-')] + Digits(2) + [Exactly('-')] + Digits(2)
  }

  predicate Fits(p: seq<CharClass>, s: string) {
    |p| == |s| && forall i :: 0 <= i < |p| ==> ClassAccepts(p[i], s[i])
  }

  /** Whether the filter of `shape` accepts `name` (both anchors: the whole name). */
  predicate Accepts(shape: FilterShape, name: string) {
    Fits(Pattern(shape), name)
  }

  lemma FitsConcat(p1: seq<CharClass>, s1: string, p2: seq<CharClass>, s2: string)
    requires Fits(p1, s1) && Fits(p2, s2)
    ensures Fits(p1 + p2, s1 + s2)
  {
    forall i | 0 <= i < |p1 + p2|
      ensures ClassAccepts((p1 + p2)[i], (s1 + s2)[i])
    {
      if i >= |p1| {
        assert (p1 + p2)[i] == p2[i - |p1|] && (s1 + s2)[i] == s2[i - |s1|];
      }
    }
  }

  /** The hour filter accepts exactly the ten-digit names. */
  lemma HourFilterIsTenDigits(name: string)
    ensures Accepts(HourShape, name) <==> |name| == 10 && forall i :: 0 <= i < 10 ==> IsDigit(name[i])
  {
  }

  // ---------------------------------------------------------------------
  // The policy table
  // ---------------------------------------------------------------------

  datatype Policy = Policy(interval: int, suffix: string, filter: FilterShape)

  const MinutePolicy := Policy(60, "%Y-%m-%d_%H-%M", MinuteShape)
  const HourPolicy := Policy(60 * 60, "%Y%m%d%H", HourShape)
  const DayPolicy := Policy(60 * 60 * 24, "%Y-%m-%d", DayShape)

  /** The switch on the (already upper-cased) rotation code. */
  function PolicyFor(when: string): (p: Policy)
    ensures p.interval > 0
    ensures p.interval == 60 || p.interval == 3600 || p.interval == 86400
  {
    if when == "M" then MinutePolicy
    else if when == "H" then HourPolicy
    else if when == "D" || when == "MIDNIGHT" then DayPolicy
    else DayPolicy  // every other code, the empty one included, rolls over daily
  }

  /** The policy a writer built with code `when` ends up with: the code is upper-cased first. */
  lemma PolicySelection(when: string)
    ensures PolicyFor(Upper(when)) == MinutePolicy <==> when == "m" || when == "M"
    ensures PolicyFor(Upper(when)) == HourPolicy <==> when == "h" || when == "H"
    ensures PolicyFor(Upper(when)) == DayPolicy <==> !(when in {"m", "M", "h", "H"})
  {
    UpperIsCode(when, 'm', 'M');
    UpperIsCode(when, 'h', 'H');
  }

  // ---------------------------------------------------------------------
  // Suffixes: a reference reading of the strftime directives they use
  // ---------------------------------------------------------------------

  datatype DateTime = DateTime(year: nat, month: nat, day: nat, hour: nat, minute: nat)

  predicate ValidDateTime(dt: DateTime) {
    dt.year <= 9999 && 1 <= dt.month <= 12 && 1 <= dt.day <= 31 && dt.hour < 24 && dt.minute < 60
  }

  function Digit(d: nat): char
    requires d < 10
  {
    ('0' as int + d) as char
  }

  /** The last `width` decimal digits of `n`: for n < 10^width, n zero-padded to `width`. */
  function Pad(n: nat, width: nat): (s: string)
    ensures |s| == width
    ensures forall i :: 0 <= i < width ==> IsDigit(s[i])
  {
    if width == 0 then [] else Pad(n / 10, width - 1) + [Digit(n % 10)]
  }

  function Directive(c: char, dt: DateTime): string {
    match c
    case 'Y' => Pad(dt.year, 4)
    case 'm' => Pad(dt.month, 2)
    case 'd' => Pad(dt.day, 2)
    case 'H' => Pad(dt.hour, 2)
    case 'M' => Pad(dt.minute, 2)
    case _ => ['%', c]
  }

  function Strftime(format: string, dt: DateTime): string
    decreases |format|
  {
    if format == [] then []
    else if format[0] == '%' && |format| >= 2 then Directive(format[1], dt) + Strftime(format[2..], dt)
    else [format[0]] + Strftime(format[1..], dt)
  }

  lemma FitsPad(n: nat, width: nat)
    ensures Fits(Digits(width), Pad(n, width))
  {
  }

  lemma StrftimeDirective(c: char, rest: string, dt: DateTime)
    ensures Strftime(['%', c] + rest, dt) == Directive(c, dt) + Strftime(rest, dt)
  {
    assert (['%', c] + rest)[2..] == rest;
  }

  lemma StrftimeLiteral(c: char, rest: string, dt: DateTime)
    requires c != '%'
    ensures Strftime([c] + rest, dt) == [c] + Strftime(rest, dt)
  {
    assert ([c] + rest)[1..] == rest;
  }

  /** The date part shared by the minute and the day suffix, in front of any rest. */
  lemma DatePrefix(rest: string, dt: DateTime)
    ensures Strftime("%Y-%m-%d" + rest, dt)
         == Pad(dt.year, 4) + "-" + Pad(dt.month, 2) + "-" + Pad(dt.day, 2) + Strftime(rest, dt)
  {
    var y, mo, d := Pad(dt.year, 4), Pad(dt.month, 2), Pad(dt.day, 2);
    calc {
      Strftime("%Y-%m-%d" + rest, dt);
      { assert "%Y-%m-%d" + rest == ['%', 'Y'] + ("-%m" + ("-%d" + rest)); }
      Strftime(['%', 'Y'] + ("-%m" + ("-%d" + rest)), dt);
      { StrftimeDirective('Y', "-%m" + ("-%d" + rest), dt); }
      y + Strftime("-%m" + ("-%d" + rest), dt);
      { DashDirective('m', "-%d" + rest, dt); }
      y + ("-" + mo + Strftime("-%d" + rest, dt));
      { DashDirective('d', rest, dt); }
      y + ("-" + mo + ("-" + d + Strftime(rest, dt)));
      y + "-" + mo + "-" + d + Strftime(rest, dt);
    }
  }

  lemma DashDirective(c: char, rest: string, dt: DateTime)
    ensures Strftime("-%" + [c] + rest, dt) == "-" + Directive(c, dt) + Strftime(rest, dt)
  {
    assert "-%" + [c] + rest == ['-'] + (['%', c] + rest);
    StrftimeLiteral('-', ['%', c] + rest, dt);
    StrftimeDirective(c, rest, dt);
  }

  lemma TimeSuffix(dt: DateTime)
    ensures Strftime("_%H-%M", dt) == "_" + Pad(dt.hour, 2) + "-" + Pad(dt.minute, 2)
  {
    StrftimeDirective('M', "", dt);
    StrftimeLiteral('-', "%M", dt);
    StrftimeDirective('H', "-%M", dt);
    StrftimeLiteral('_', "%H-%M", dt);
  }

  lemma MinuteSuffix(dt: DateTime)
    ensures Strftime("%Y-%m-%d_%H-%M", dt)
         == Pad(dt.year, 4) + "-" + Pad(dt.month, 2) + "-" + Pad(dt.day, 2) + "_"
            + Pad(dt.hour, 2) + "-" + Pad(dt.minute, 2)
  {
    var date := Pad(dt.year, 4) + "-" + Pad(dt.month, 2) + "-" + Pad(dt.day, 2);
    var h, mi := Pad(dt.hour, 2), Pad(dt.minute, 2);
    calc {
      Strftime("%Y-%m-%d_%H-%M", dt);
      { assert "%Y-%m-%d_%H-%M" == "%Y-%m-%d" + "_%H-%M"; }
      Strftime("%Y-%m-%d" + "_%H-%M", dt);
      { DatePrefix("_%H-%M", dt); }
      date + Strftime("_%H-%M", dt);
      { TimeSuffix(dt); }
      date + ("_" + h + "-" + mi);
      date + "_" + h + "-" + mi;
    }
  }

  lemma HourSuffix(dt: DateTime)
    ensures Strftime("%Y%m%d%H", dt) == Pad(dt.year, 4) + Pad(dt.month, 2) + Pad(dt.day, 2) + Pad(dt.hour, 2)
  {
    StrftimeDirective('H', "", dt);
    StrftimeDirective('d', "%H", dt);
    StrftimeDirective('m', "%d%H", dt);
    StrftimeDirective('Y', "%m%d%H", dt);
  }

  lemma DaySuffix(dt: DateTime)
    ensures Strftime("%Y-%m-%d", dt) == Pad(dt.year, 4) + "-" + Pad(dt.month, 2) + "-" + Pad(dt.day, 2)
  {
    assert "%Y-%m-%d" == "%Y-%m-%d" + "";
    DatePrefix("", dt);
  }

  /** A date `y-mo-d` whose fields are all digits fits the day pattern. */
  lemma DayFits(y: string, mo: string, d: string)
    requires Fits(Digits(4), y) && Fits(Digits(2), mo) && Fits(Digits(2), d)
    ensures Fits(Pattern(DayShape), y + "-" + mo + "-" + d)
  {
    var dash := [Exactly('-')];
    assert Fits(dash, "-");
    FitsConcat(Digits(4), y, dash, "-");
    FitsConcat(Digits(4) + dash, y + "-", Digits(2), mo);
    FitsConcat(Digits(4) + dash + Digits(2), y + "-" + mo, dash, "-");
    FitsConcat(Digits(4) + dash + Digits(2) + dash, y + "-" + mo + "-", Digits(2), d);
  }

  lemma MinuteFits(y: string, mo: string, d: string, h: string, mi: string)
    requires Fits(Digits(4), y) && Fits(Digits(2), mo) && Fits(Digits(2), d)
    requires Fits(Digits(2), h) && Fits(Digits(2), mi)
    ensures Fits(Pattern(MinuteShape), y + "-" + mo + "-" + d + "_" + h + "-" + mi)
  {
    var dash, under := [Exactly('-')], [Exactly('_')];
    var date := Pattern(DayShape);
    assert Fits(dash, "-") && Fits(under, "_");
    DayFits(y, mo, d);
    FitsConcat(date, y + "-" + mo + "-" + d, under, "_");
    FitsConcat(date + under, y + "-" + mo + "-" + d + "_", Digits(2), h);
    FitsConcat(date + under + Digits(2), y + "-" + mo + "-" + d + "_" + h, dash, "-");
    FitsConcat(date + under + Digits(2) + dash, y + "-" + mo + "-" + d + "_" + h + "-", Digits(2), mi);
  }

  lemma HourFits(y: string, mo: string, d: string, h: string)
    requires Fits(Digits(4), y) && Fits(Digits(2), mo) && Fits(Digits(2), d) && Fits(Digits(2), h)
    ensures Fits(Pattern(HourShape), y + mo + d + h)
  {
    FitsConcat(Digits(4), y, Digits(2), mo);
    assert Digits(4) + Digits(2) == Digits(6);
    FitsConcat(Digits(6), y + mo, Digits(2), d);
    assert Digits(6) + Digits(2) == Digits(8);
    FitsConcat(Digits(8), y + mo + d, Digits(2), h);
    assert Digits(8) + Digits(2) == Digits(10);
  }

  /**
   * Every policy's suffix, expanded for any valid date and time, is a name its
   * own filter accepts: the suffix and the filter of each row agree.
   */
  lemma SuffixMatchesFilter(when: string, dt: DateTime)
    requires ValidDateTime(dt)
    ensures Accepts(PolicyFor(when).filter, Strftime(PolicyFor(when).suffix, dt))
  {
    FitsPad(dt.year, 4); FitsPad(dt.month, 2); FitsPad(dt.day, 2);
    FitsPad(dt.hour, 2); FitsPad(dt.minute, 2);
    var p := PolicyFor(when);
    if p == MinutePolicy {
      MinuteSuffix(dt);
      MinuteFits(Pad(dt.year, 4), Pad(dt.month, 2), Pad(dt.day, 2), Pad(dt.hour, 2), Pad(dt.minute, 2));
    } else if p == HourPolicy {
      HourSuffix(dt);
      HourFits(Pad(dt.year, 4), Pad(dt.month, 2), Pad(dt.day, 2), Pad(dt.hour, 2));
    } else {
      DaySuffix(dt);
      DayFits(Pad(dt.year, 4), Pad(dt.month, 2), Pad(dt.day, 2));
    }
  }

  // ---------------------------------------------------------------------
  // The first rollover deadline
  // ---------------------------------------------------------------------

  /** Go's integer division, which truncates toward zero. */
  function GoDiv(a: int, b: int): (q: int)
    requires b > 0
  {
    if a >= 0 then a / b else -((-a) / b)
  }

  /**
   * The deadline exactly as the code computes it, with Go's truncating division:
   * an interval boundary after `t`, the next one from the epoch on.
   */
  function GoRolloverAt(t: int, interval: int): (r: int)
    requires interval > 0
    ensures r % interval == 0
    ensures t < r <= t + 2 * interval
    ensures t >= 0 ==> r <= t + interval
  {
    GoDivFloor(t, interval);
    var f := t / interval + 1;
    MultipleMod(GoDiv(t, interval) + 1, interval);
    assert f * interval == FirstRolloverAt(t, interval);
    assert (f + 1) * interval == f * interval + interval;
    (GoDiv(t, interval) + 1) * interval
  }

  /** Division with remainder is unique. */
  lemma DivUnique(x: int, interval: int, k: int, m: int)
    requires interval > 0 && x == k * interval + m && 0 <= m < interval
    ensures x / interval == k && x % interval == m
  {
    var q, r := x / interval, x % interval;
    assert (k - q) * interval == r - m by {
      assert (k - q) * interval == k * interval - q * interval;
    }
    MulCancel(k - q, 1, interval);
    MulCancel(-1, k - q, interval);
  }

  /** Truncation equals rounding down, except for a negative `t` off a boundary, where it is one more. */
  lemma GoDivFloor(t: int, interval: int)
    requires interval > 0
    ensures GoDiv(t, interval) == if t >= 0 || t % interval == 0 then t / interval else t / interval + 1
  {
    if t < 0 {
      var q, r := (-t) / interval, (-t) % interval;
      assert t == (-q) * interval - r;
      if r == 0 {
        DivUnique(t, interval, -q, 0);
      } else {
        assert (-q) * interval - r == (-q - 1) * interval + (interval - r);
        DivUnique(t, interval, -q - 1, interval - r);
      }
    }
  }

  /**
   * The first rollover deadline: the next multiple of `interval` after `t`.
   * (Dafny's division by a positive divisor rounds down.)
   */
  function FirstRolloverAt(t: int, interval: int): (r: int)
    requires interval > 0
    ensures r % interval == 0
    ensures t < r <= t + interval
  {
    MultipleMod(t / interval + 1, interval);
    (t / interval + 1) * interval
  }

  /** A product with `interval` leaves no remainder. */
  lemma MultipleMod(k: int, interval: int)
    requires interval > 0
    ensures (k * interval) % interval == 0
  {
    var m := k * interval;
    var q, r := m / interval, m % interval;
    assert m == q * interval + r && 0 <= r < interval;
    var d := k - q;
    assert d * interval == r;
    MulCancel(d, 1, interval);
    MulCancel(-1, d, interval);
    assert d == 0;
  }

  lemma MulMono(a: int, b: int, interval: int)
    requires a <= b && interval > 0
    ensures a * interval <= b * interval
  {
    assert b * interval - a * interval == (b - a) * interval;
  }

  /** A strict inequality between multiples carries over to the factors. */
  lemma MulCancel(a: int, b: int, interval: int)
    requires interval > 0
    ensures a * interval < b * interval ==> a < b
  {
    if b <= a {
      MulMono(b, a, interval);
    }
  }

  /** No multiple of `interval` lies strictly between `t` and the deadline. */
  lemma FirstRolloverIsSmallest(t: int, interval: int, m: int)
    requires interval > 0
    requires m % interval == 0 && m > t
    ensures FirstRolloverAt(t, interval) <= m
  {
    var k, q := m / interval, t / interval;
    assert m == k * interval;
    assert q * interval <= t;
    MulCancel(q, k, interval);
    MulMono(q + 1, k, interval);
  }

  /**
   * The code's formula gives the next boundary after `t` for every reference
   * time from the epoch on and for every boundary itself; for any other time
   * before the epoch it gives the boundary after that one.
   */
  lemma GoRolloverAgrees(t: int, interval: int)
    requires interval > 0
    ensures GoRolloverAt(t, interval)
         == if t >= 0 || t % interval == 0 then FirstRolloverAt(t, interval) else FirstRolloverAt(t, interval) + interval
  {
    GoDivFloor(t, interval);
    var f := t / interval + 1;
    assert (f + 1) * interval == f * interval + interval;
  }

  /**
   * Before the epoch the truncating division rounds up instead of down: for a
   * modification time 30 seconds before 1970 and the minute policy the code's
   * deadline is 60, more than one interval away, and 0 is an earlier multiple.
   */
  lemma GoRolloverSkipsBoundary()
    ensures GoRolloverAt(-30, 60) == 60 > -30 + 60
    ensures 0 % 60 == 0 && -30 < 0 < GoRolloverAt(-30, 60)
    ensures FirstRolloverAt(-30, 60) == 0
  {
  }

  // ---------------------------------------------------------------------
  // What prepare leaves behind
  // ---------------------------------------------------------------------

  /** The modification time when stat succeeded, the current time otherwise. */
  function ReferenceTime(modTime: Option<int>, now: int): int {
    match modTime
    case Some(t) => t
    case None => now
  }

  datatype RotationState = RotationState(policy: Policy, rolloverAt: int, firstRollover: bool)

  /**
   * Prepare's result: the policy row for `when`, the first-rollover flag, and
   * the deadline the code computes from the reference time.
   */
  function Prepared(when: string, modTime: Option<int>, now: int): (s: RotationState)
    ensures s.policy == PolicyFor(when) && s.firstRollover
    ensures s.rolloverAt % s.policy.interval == 0
    ensures var t := ReferenceTime(modTime, now);
      t < s.rolloverAt <= t + 2 * s.policy.interval
    ensures var t := ReferenceTime(modTime, now);
      t >= 0 ==> s.rolloverAt == FirstRolloverAt(t, s.policy.interval)
  {
    var p := PolicyFor(when);
    var t := ReferenceTime(modTime, now);
    GoRolloverAgrees(t, p.interval);
    RotationState(p, GoRolloverAt(t, p.interval), true)
  }
}
