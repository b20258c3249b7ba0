/** Quiet hours (`parseHHMMRange` and `isInQuietHours` in src/extension/notification-router.ts). */
module QuietHours {
  import opened Wrappers

  const DAY: nat := 1440

  /** Minutes of the day. */
  datatype Range = Range(startMin: int, endMin: int)

  predicate IsDigit(c: char) { '0' <= c <= '9' }

  function Value(c: char): int
    requires IsDigit(c)
  {
    c as int - '0' as int
  }

  /** The pattern of two digits, a colon, two digits, a dash and the same again. */
  predicate HasShape(s: string) {
    && |s| == 11 && s[2] == ':' && s[5] == '-' && s[8] == ':'
    && (forall i | i in {0, 1, 3, 4, 6, 7, 9, 10} :: IsDigit(s[i]))
  }

  function Pair(s: string, i: nat): int
    requires i + 1 < |s| && IsDigit(s[i]) && IsDigit(s[i + 1])
  {
    10 * Value(s[i]) + Value(s[i + 1])
  }

  /** `None` where the source throws. */
  function ParseHHMMRange(s: string): Option<Range> {
    if !HasShape(s) then None
    else
      var startHour, startMinute, endHour, endMinute := Pair(s, 0), Pair(s, 3), Pair(s, 6), Pair(s, 9);
      if startHour > 23 || endHour > 23 || startMinute > 59 || endMinute > 59 then None
      else Some(Range(startHour * 60 + startMinute, endHour * 60 + endMinute))
  }

  predicate IsIn(r: Range, current: int) {
    if r.startMin == r.endMin then false
    else if r.startMin <= r.endMin then r.startMin <= current < r.endMin
    else current >= r.startMin || current < r.endMin
  }

  function IsInQuietHours(s: string, current: int): Option<bool> {
    match ParseHHMMRange(s)
    case None => None
    case Some(r) => Some(IsIn(r, current))
  }

  // ---------- what is parsed ----------

  predicate IsMinute(m: int) { 0 <= m < DAY }

  function TwoDigits(n: int): string
    requires 0 <= n < 100
  {
    [('0' as int + n / 10) as char, ('0' as int + n % 10) as char]
  }

  function Clock(m: int): string
    requires IsMinute(m)
  {
    TwoDigits(m / 60) + ":" + TwoDigits(m % 60)
  }

  function Printed(r: Range): string
    requires IsMinute(r.startMin) && IsMinute(r.endMin)
  {
    Clock(r.startMin) + "-" + Clock(r.endMin)
  }

  lemma TwoDigitsOfPair(s: string, i: nat)
    requires i + 1 < |s| && IsDigit(s[i]) && IsDigit(s[i + 1])
    ensures 0 <= Pair(s, i) < 100 && TwoDigits(Pair(s, i)) == s[i..i + 2]
  {
  }

  lemma PairOfTwoDigits(n: int)
    requires 0 <= n < 100
    ensures var s := TwoDigits(n); IsDigit(s[0]) && IsDigit(s[1]) && Pair(s, 0) == n
  {
  }

  lemma ParsePrintedRange(r: Range)
    requires IsMinute(r.startMin) && IsMinute(r.endMin)
    ensures ParseHHMMRange(Printed(r)) == Some(r)
  {
    hide HasShape, Pair, Printed;
    ShapeOfPrinted(r);
  }

  lemma ShapeOfPrinted(r: Range)
    requires IsMinute(r.startMin) && IsMinute(r.endMin)
    ensures var s := Printed(r);
            HasShape(s) && Pair(s, 0) == r.startMin / 60 && Pair(s, 3) == r.startMin % 60
            && Pair(s, 6) == r.endMin / 60 && Pair(s, 9) == r.endMin % 60
  {
    PairOfTwoDigits(r.startMin / 60);
    PairOfTwoDigits(r.startMin % 60);
    PairOfTwoDigits(r.endMin / 60);
    PairOfTwoDigits(r.endMin % 60);
  }

  lemma ClockOfPairs(s: string, i: nat)
    requires i + 5 <= |s| && IsDigit(s[i]) && IsDigit(s[i + 1]) && s[i + 2] == ':'
    requires IsDigit(s[i + 3]) && IsDigit(s[i + 4])
    requires Pair(s, i) <= 23 && Pair(s, i + 3) <= 59
    ensures IsMinute(Pair(s, i) * 60 + Pair(s, i + 3)) && Clock(Pair(s, i) * 60 + Pair(s, i + 3)) == s[i..i + 5]
  {
    TwoDigitsOfPair(s, i);
    TwoDigitsOfPair(s, i + 3);
    var h, m := Pair(s, i), Pair(s, i + 3);
    hide Pair, TwoDigits;
    assert (h * 60 + m) / 60 == h && (h * 60 + m) % 60 == m;
    assert s[i..i + 5] == s[i..i + 2] + ":" + s[i + 3..i + 5];
  }

  lemma PrintedRangeIsText(s: string)
    requires ParseHHMMRange(s).Some?
    ensures var r := ParseHHMMRange(s).value;
            IsMinute(r.startMin) && IsMinute(r.endMin) && Printed(r) == s
  {
    hide Pair, TwoDigits, Clock;
    ClockOfPairs(s, 0);
    ClockOfPairs(s, 6);
    assert s == s[0..5] + "-" + s[6..11];
  }

  /** The text of a range is what is accepted, and nothing else. */
  lemma ParsesExactlyRanges(s: string, r: Range)
    ensures ParseHHMMRange(s) == Some(r) <==> IsMinute(r.startMin) && IsMinute(r.endMin) && s == Printed(r)
  {
    if ParseHHMMRange(s) == Some(r) {
      PrintedRangeIsText(s);
    }
    if IsMinute(r.startMin) && IsMinute(r.endMin) && s == Printed(r) {
      ParsePrintedRange(r);
    }
  }

  /** Quiet hours go around the clock: a minute is in them exactly if it is reached from the start
      before the end is. */
  lemma QuietHoursAreCircular(r: Range, current: int)
    requires IsMinute(r.startMin) && IsMinute(r.endMin) && IsMinute(current)
    ensures IsIn(r, current) <==> (current - r.startMin) % DAY < (r.endMin - r.startMin) % DAY
  {
  }

  /** For example. */
  lemma SevenToHalfPastTen()
    ensures ParseHHMMRange("07:05-22:30") == Some(Range(7 * 60 + 5, 22 * 60 + 30))
  {
    var s := "07:05-22:30";
    assert Pair(s, 0) == 7 && Pair(s, 3) == 5 && Pair(s, 6) == 22 && Pair(s, 9) == 30;
  }
}
