/** The pure calculations of the game screen: the 12-hour clock shown on
    screen, the meal served at a time of day, the wake-up message and the
    final score. Time is counted in in-game minutes ("seconds" in the game's
    own vocabulary), 1440 to a day. */
module GameRules {
  import opened Wrappers
  import opened JavaText
  import opened TextLayout

  const DAY_LENGTH: int := 1440

  // ---------------------------------------------------------------------------
  // formatTime

  /** formatTime: hours by floor division, minutes as two digits, a 12-hour
      clock where hours 0 and 24 read as 12am and hour 12 as 12pm. */
  function FormatTime(seconds: int): (r: string)
    ensures |r| >= 6 && r[|r| - 5] == ':'
    ensures r[|r| - 2..] == "am" || r[|r| - 2..] == "pm"
  {
    // Math.floorDiv by a positive divisor is Dafny's /, and seconds - hour * 60 is seconds % 60.
    var hour := seconds / 60;
    var minutes := TwoDigits(seconds % 60);
    if hour == 24 || hour == 0 then "12:" + minutes + "am"
    else if hour == 12 then "12:" + minutes + "pm"
    else if hour > 12 then IntToString(hour - 12) + ":" + minutes + "pm"
    else IntToString(hour) + ":" + minutes + "am"
  }

  /** Reads a time written as H:MMam or H:MMpm (H from 1 to 12) back into
      minutes since midnight. */
  function ParseClock(t: string): (r: Option<int>)
    ensures r.Some? ==> 0 <= r.value < DAY_LENGTH
  {
    if |t| < 6 || t[|t| - 5] != ':' then None
    else
      var hh, mm, suffix := t[..|t| - 5], t[|t| - 4..|t| - 2], t[|t| - 2..];
      if !AllDigits(hh) || !AllDigits(mm) then None
      else
        var h, m := DigitsValue(hh), DigitsValue(mm);
        if h < 1 || h > 12 || m >= 60 then None
        else if suffix == "am" then Some((h % 12) * 60 + m)
        else if suffix == "pm" then Some((h % 12 + 12) * 60 + m)
        else None
  }

  lemma ClockSlices(h: string, m: string, suffix: string)
    requires |m| == 2 && |suffix| == 2
    ensures var t := h + ":" + m + suffix;
      && |t| == |h| + 5 && t[|t| - 5] == ':'
      && t[..|t| - 5] == h && t[|t| - 4..|t| - 2] == m && t[|t| - 2..] == suffix
  {
  }

  /** How ParseClock reads a clock built from an hour string, two minute digits
      and a suffix. */
  lemma ParseClockParts(h: string, hv: int, mm: string, m: nat, suffix: string)
    requires |h| > 0 && AllDigits(h) && DigitsValue(h) == hv && 1 <= hv <= 12
    requires |mm| == 2 && AllDigits(mm) && DigitsValue(mm) == m && m < 60
    requires suffix == "am" || suffix == "pm"
    ensures ParseClock(h + ":" + mm + suffix)
      == Some((if suffix == "am" then hv % 12 else hv % 12 + 12) * 60 + m)
  {
    var t := h + ":" + mm + suffix;
    ClockSlices(h, mm, suffix);
    var hh, mm', suffix' := t[..|t| - 5], t[|t| - 4..|t| - 2], t[|t| - 2..];
    assert hh == h && mm' == mm && suffix' == suffix;
  }

  lemma PositiveDigits(n: int)
    requires n > 0
    ensures |IntToString(n)| > 0 && AllDigits(IntToString(n)) && DigitsValue(IntToString(n)) == n
  {
    NatDigitsValue(n);
  }

  lemma TwelveString()
    ensures IntToString(12) == "12"
  {
    assert NatDigits(12) == NatDigits(1) + [DigitChar(2)];
  }

  /** The hour shown on a 12-hour clock for an hour of the day (0 to 23). */
  function ShownHour(hour: int): int
  {
    if hour == 0 || hour == 12 then 12 else if hour > 12 then hour - 12 else hour
  }

  /** The clock of a time of day, split into the hour shown, the minutes and
      the suffix. */
  lemma FormatTimeParts(seconds: int)
    requires 0 <= seconds < DAY_LENGTH
    ensures FormatTime(seconds)
      == IntToString(ShownHour(seconds / 60)) + ":" + TwoDigits(seconds % 60)
         + (if seconds / 60 < 12 then "am" else "pm")
  {
    TwelveString();
  }

  /** Reading the shown hour back with its suffix gives the hour of the day. */
  lemma ShownHourReadsBack(hour: int)
    requires 0 <= hour < 24
    ensures 1 <= ShownHour(hour) <= 12
    ensures (if hour < 12 then ShownHour(hour) % 12 else ShownHour(hour) % 12 + 12) == hour
  {
  }

  /** Every time of day is shown as a clock that reads back to that time, so
      two different times of one day never look the same. */
  lemma FormatTimeRoundTrip(seconds: int)
    requires 0 <= seconds < DAY_LENGTH
    ensures ParseClock(FormatTime(seconds)) == Some(seconds)
  {
    var hour, m := seconds / 60, seconds % 60;
    assert 0 <= hour < 24 && 0 <= m < 60 && seconds == hour * 60 + m;
    var shown := ShownHour(hour);
    var suffix := if hour < 12 then "am" else "pm";
    FormatTimeParts(seconds);
    ShownHourReadsBack(hour);
    PositiveDigits(shown);
    ParseClockParts(IntToString(shown), shown, TwoDigits(m), m, suffix);
  }

  lemma FormatTimeInjective(a: int, b: int)
    requires 0 <= a < DAY_LENGTH && 0 <= b < DAY_LENGTH
    ensures FormatTime(a) == FormatTime(b) ==> a == b
  {
    FormatTimeRoundTrip(a);
    FormatTimeRoundTrip(b);
  }

  /** The hour-24 branch: the first hour after midnight of the next day reads
      like the first hour of this one. */
  lemma FormatTimeNextMidnight(seconds: int)
    requires 0 <= seconds < 60
    ensures FormatTime(DAY_LENGTH + seconds) == FormatTime(seconds)
    ensures FormatTime(seconds)[..3] == "12:"
  {
    assert (DAY_LENGTH + seconds) / 60 == 24;
    assert (DAY_LENGTH + seconds) % 60 == seconds;
  }

  // ---------------------------------------------------------------------------
  // getMeal

  /** getMeal: which meal is served at the given time of day. */
  function MealAt(seconds: int): (r: string)
  {
    var hours := seconds / 60;
    if 7 <= hours <= 10 then "breakfast"
    else if 10 < hours <= 16 then "lunch"
    else if 16 < hours <= 21 then "dinner"
    else "food"
  }

  /** The meal windows in minutes: breakfast from 7:00 to 10:59, lunch from
      11:00 to 16:59, dinner from 17:00 to 21:59, and nothing ("food")
      otherwise. */
  lemma MealWindows(seconds: int)
    ensures MealAt(seconds) == "breakfast" <==> 420 <= seconds < 660
    ensures MealAt(seconds) == "lunch" <==> 660 <= seconds < 1020
    ensures MealAt(seconds) == "dinner" <==> 1020 <= seconds < 1320
    ensures MealAt(seconds) == "food" <==> seconds < 420 || 1320 <= seconds
  {
    var hours := seconds / 60;
    assert 60 * hours <= seconds < 60 * hours + 60;
  }

  // ---------------------------------------------------------------------------
  // getWakeUpMessage

  const DAYS_LEFT_TAIL: string :=
    " days left until your exam!\nRemember to eat, study and have fun, but don't overwork yourself!"
  const EXAM_TOMORROW: string :=
    "Your " + "exam is tomorrow! I hope you've been studying! Remember not to overwork yourself and get enough sleep!"

  /** getWakeUpMessage: the number of days left before the exam on day 8. */
  function WakeUpMessage(day: int): (r: string)
  {
    var daysLeft := Wrap32(8 - day);
    if daysLeft != 1 then "You have " + IntToString(daysLeft) + DAYS_LEFT_TAIL
    else EXAM_TOMORROW
  }

  /** The wake-up message always opens a dialogue with at least one page. */
  lemma WakeUpDisplayable(day: int, width: int)
    requires width > 0
    ensures Displayable(WakeUpMessage(day), width)
  {
    var r := WakeUpMessage(day);
    assert r[0] == 'Y';
    StartsDisplayable(r, width);
  }

  lemma CountedMessagesDistinct(x: string, y: string)
    requires "You have " + x + DAYS_LEFT_TAIL == "You have " + y + DAYS_LEFT_TAIL
    ensures x == y
  {
    var p, s := "You have ", DAYS_LEFT_TAIL;
    assert |x| == |y|;
    assert x == (p + x + s)[|p|..|p| + |x|];
    assert y == (p + y + s)[|p|..|p| + |y|];
  }

  lemma CountedMessageNotTomorrow(x: string)
    ensures "You have " + x + DAYS_LEFT_TAIL != EXAM_TOMORROW
  {
    assert ("You have " + x + DAYS_LEFT_TAIL)[3] == ' ';
    assert EXAM_TOMORROW[3] == 'r';
  }

  /** Mornings with a different number of days left greet the player
      differently. */
  lemma WakeUpMessageDistinct(a: int, b: int)
    requires InInt32(8 - a) && InInt32(8 - b) && a != b
    ensures WakeUpMessage(a) != WakeUpMessage(b)
  {
    var x, y := IntToString(8 - a), IntToString(8 - b);
    if 8 - a != 1 && 8 - b != 1 {
      if WakeUpMessage(a) == WakeUpMessage(b) {
        CountedMessagesDistinct(x, y);
        IntToStringInjective(8 - a, 8 - b);
      }
    } else if 8 - a != 1 {
      CountedMessageNotTomorrow(x);
    } else {
      CountedMessageNotTomorrow(y);
    }
  }

  // ---------------------------------------------------------------------------
  // GameOver score

  lemma MultipleSum(x: int, y: int)
    requires x % TWO_32 == 0 && y % TWO_32 == 0
    ensures (x + y) % TWO_32 == 0 && (x - y) % TWO_32 == 0
  {
    var i, j := x / TWO_32, y / TWO_32;
    assert x == TWO_32 * i && y == TWO_32 * j;
    assert x + y == TWO_32 * (i + j);
    assert x - y == TWO_32 * (i - j);
  }

  lemma MultipleScaled(x: int, k: int)
    requires x % TWO_32 == 0
    ensures (x * k) % TWO_32 == 0
  {
    var i := x / TWO_32;
    assert x * k == TWO_32 * (i * k);
  }

  /** GameOver's score: 100 points per hour studied, of recreation and of
      sleep, in Java int arithmetic. */
  function Score(studied: int, recreational: int, slept: int): (r: int)
  {
    Wrap32(Wrap32(Wrap32(studied + recreational) + slept) * 100)
  }

  /** The score is always an int, agrees with the true total modulo 2^32, and
      is the true total whenever that fits. */
  lemma ScoreValue(studied: int, recreational: int, slept: int)
    ensures InInt32(Score(studied, recreational, slept))
    ensures (Score(studied, recreational, slept) - (studied + recreational + slept) * 100) % TWO_32 == 0
    ensures InInt32((studied + recreational + slept) * 100) ==>
      Score(studied, recreational, slept) == (studied + recreational + slept) * 100
  {
    var total := studied + recreational + slept;
    var w1 := Wrap32(studied + recreational);
    var w2 := Wrap32(w1 + slept);
    var r := Wrap32(w2 * 100);
    MultipleSum(studied + recreational - w1, w1 + slept - w2);
    assert (total - w2) % TWO_32 == 0;
    MultipleScaled(total - w2, 100);
    assert total * 100 - w2 * 100 == (total - w2) * 100;
    MultipleSum(w2 * 100 - r, total * 100 - w2 * 100);
    assert (total * 100 - r) % TWO_32 == 0;
    MultipleScaled(total * 100 - r, -1);
    if InInt32(total * 100) {
      assert INT_MIN <= total * 100 <= INT_MAX && INT_MIN <= r <= INT_MAX;
      var q := (total * 100 - r) / TWO_32;
      assert total * 100 - r == TWO_32 * q;
    }
  }
}
