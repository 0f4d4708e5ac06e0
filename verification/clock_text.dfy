/** Wall-clock times as the schedule record stores them: `HH:MM` strings.

    The store compares `startTime`/`endTime` with `$lt`, `$lte`, `$gt` and
    `$gte`, i.e. lexicographically by character. The rest of the model works
    on minutes since midnight; this module shows that, for zero-padded
    24-hour `HH:MM` strings, the two orders agree, so the minute-level
    conflict test is the string-level one. */
module ClockText {

  const MinutesPerDay: int := 24 * 60

  predicate IsDigit(c: char)
  {
    '0' <= c <= '9'
  }

  function DigitValue(c: char): (v: int)
    requires IsDigit(c)
    ensures 0 <= v <= 9
  {
    c as int - '0' as int
  }

  function DigitChar(v: int): (c: char)
    requires 0 <= v <= 9
    ensures IsDigit(c) && DigitValue(c) == v
  {
    ('0' as int + v) as char
  }

  /** Five characters `HH:MM`, all digits except the colon. */
  predicate IsClockShape(s: string)
  {
    |s| == 5 && IsDigit(s[0]) && IsDigit(s[1]) && s[2] == ':' && IsDigit(s[3]) && IsDigit(s[4])
  }

  function HourPart(s: string): int
    requires IsClockShape(s)
  {
    10 * DigitValue(s[0]) + DigitValue(s[1])
  }

  function MinutePart(s: string): int
    requires IsClockShape(s)
  {
    10 * DigitValue(s[3]) + DigitValue(s[4])
  }

  /** A zero-padded 24-hour time: `00:00` .. `23:59`. */
  predicate IsClock(s: string)
  {
    IsClockShape(s) && HourPart(s) <= 23 && MinutePart(s) <= 59
  }

  /** Minutes since midnight of a clock string. */
  function ToMinutes(s: string): (m: int)
    requires IsClock(s)
    ensures 0 <= m < MinutesPerDay
    ensures m / 60 == HourPart(s) && m % 60 == MinutePart(s)
  {
    HourPart(s) * 60 + MinutePart(s)
  }

  /** The zero-padded clock string of a minute of the day; `ToMinutes` undoes it. */
  function FromMinutes(m: int): (s: string)
    requires 0 <= m < MinutesPerDay
    ensures IsClock(s)
    ensures ToMinutes(s) == m
  {
    var h := m / 60;
    var n := m % 60;
    [DigitChar(h / 10), DigitChar(h % 10), ':', DigitChar(n / 10), DigitChar(n % 10)]
  }

  /** The other round trip: a clock string is the formatting of its minutes. */
  lemma FromToMinutes(s: string)
    requires IsClock(s)
    ensures FromMinutes(ToMinutes(s)) == s
  {
    var t := FromMinutes(ToMinutes(s));
    assert DigitValue(t[0]) == DigitValue(s[0]);
    assert DigitValue(t[1]) == DigitValue(s[1]);
    assert DigitValue(t[3]) == DigitValue(s[3]);
    assert DigitValue(t[4]) == DigitValue(s[4]);
  }

  /** Two clock strings are equal exactly when their minutes are. */
  lemma ClockEqualIffMinutesEqual(a: string, b: string)
    requires IsClock(a) && IsClock(b)
    ensures a == b <==> ToMinutes(a) == ToMinutes(b)
  {
    if ToMinutes(a) == ToMinutes(b) {
      FromToMinutes(a);
      FromToMinutes(b);
    }
  }

  /** Lexicographic string order by character code, as the store compares strings. */
  predicate LexLess(a: string, b: string)
    decreases |a|
  {
    if |a| == 0 then |b| > 0
    else if |b| == 0 then false
    else if a[0] != b[0] then a[0] < b[0]
    else LexLess(a[1..], b[1..])
  }

  predicate LexLessEq(a: string, b: string)
  {
    a == b || LexLess(a, b)
  }

  lemma PairOrder(x1: int, y1: int, x2: int, y2: int, base: int)
    requires 0 <= y1 < base && 0 <= y2 < base
    ensures x1 * base + y1 < x2 * base + y2 <==> x1 < x2 || (x1 == x2 && y1 < y2)
  {
    if x1 < x2 {
      var k := x2 - x1;
      assert x2 * base - x1 * base == k * base;
      assert k * base - base == (k - 1) * base;
    } else if x2 < x1 {
      var k := x1 - x2;
      assert x1 * base - x2 * base == k * base;
      assert k * base - base == (k - 1) * base;
    }
  }

  /** One step of `LexLess` on two non-empty strings. */
  lemma LexLessStep(a: string, b: string)
    requires |a| > 0 && |b| > 0
    ensures LexLess(a, b) <==> a[0] < b[0] || (a[0] == b[0] && LexLess(a[1..], b[1..]))
  {
  }

  /** For clock strings, lexicographic order is time order. */
  lemma LexOrderIsTimeOrder(a: string, b: string)
    requires IsClock(a) && IsClock(b)
    ensures LexLess(a, b) <==> ToMinutes(a) < ToMinutes(b)
  {
    var a0, a1, a3, a4 := DigitValue(a[0]), DigitValue(a[1]), DigitValue(a[3]), DigitValue(a[4]);
    var b0, b1, b3, b4 := DigitValue(b[0]), DigitValue(b[1]), DigitValue(b[3]), DigitValue(b[4]);
    PairOrder(a0, a1, b0, b1, 10);
    PairOrder(a3, a4, b3, b4, 10);
    PairOrder(HourPart(a), MinutePart(a), HourPart(b), MinutePart(b), 60);
    var a5, b5 := a[5..], b[5..];
    assert a5 == [] && b5 == [] && !LexLess(a5, b5);
    LexLessStep(a[4..], b[4..]);
    assert a[4..][1..] == a5 && b[4..][1..] == b5;
    LexLessStep(a[3..], b[3..]);
    assert a[3..][1..] == a[4..] && b[3..][1..] == b[4..];
    LexLessStep(a[2..], b[2..]);
    assert a[2..][1..] == a[3..] && b[2..][1..] == b[3..];
    LexLessStep(a[1..], b[1..]);
    assert a[1..][1..] == a[2..] && b[1..][1..] == b[2..];
    LexLessStep(a, b);
  }

  lemma LexOrderEqIsTimeOrder(a: string, b: string)
    requires IsClock(a) && IsClock(b)
    ensures LexLessEq(a, b) <==> ToMinutes(a) <= ToMinutes(b)
  {
    LexOrderIsTimeOrder(a, b);
    ClockEqualIffMinutesEqual(a, b);
  }
}
