/**
 * formatTime: the value of an `<input type="time">` ("HH:MM", 24-hour) shown in Korean
 * 12-hour form, "오전 9:05" in the morning and "오후 2:30" from noon on.
 */
module TimeFormat {
  import opened Wrappers
  import opened JsString

  /** 오전, before noon. */
  const Morning: string := "\U{C624}\U{C804}"
  /** 오후, from noon on. */
  const Afternoon: string := "\U{C624}\U{D6C4}"

  /** `hour >= 12 ? '오후' : '오전'`; NaN compares false, so it gives 오전. */
  function Meridiem(hour: Option<int>): (r: string)
    ensures r == Morning || r == Afternoon
    ensures r == Afternoon <==> hour.Some? && hour.value >= 12
  {
    if hour.Some? && hour.value >= 12 then Afternoon else Morning
  }

  /** The 12-hour clock value of `h`: for a real hour of the day it lies in 1..12 and agrees with `h` modulo 12. */
  function Hour12(h: int): (d: int)
    ensures 0 <= h < 24 ==> 1 <= d <= 12 && d % 12 == h % 12
    ensures 1 <= h <= 12 ==> d == h
  {
    if h == 0 then 12 else if h > 12 then h - 12 else h
  }

  /** The text interpolated for `displayHour`; NaN prints as "NaN", and a number reads back as its 12-hour value. */
  function DisplayHour(hour: Option<int>): (r: string)
    ensures hour.None? ==> r == "NaN"
    ensures hour.Some? ==> ParseInt(r) == Some(Hour12(hour.value))
  {
    match hour
    case None => "NaN"
    case Some(h) => ParseIntOfIntToString(Hour12(h)); IntToString(Hour12(h))
  }

  /**
   * formatTime(time): "" for the empty string; otherwise the meridiem, a space, the display hour,
   * a colon and the second ':'-separated part passed through ("undefined" when there is none).
   */
  function FormatTime(time: string): (r: string)
    ensures r == "" <==> time == ""
  {
    if time == "" then ""
    else
      var parts := Split(time, ':');
      var minutes := if |parts| >= 2 then parts[1] else "undefined";
      var hour := ParseInt(parts[0]);
      Meridiem(hour) + " " + DisplayHour(hour) + ":" + minutes
  }

  /** The two-digit zero-padded form an `<input type="time">` uses for hours and minutes. */
  function TwoDigits(n: nat): (s: string)
    requires n < 100
    ensures |s| == 2 && IsDecimal(s)
  {
    [DigitChar(n / 10), DigitChar(n % 10)]
  }

  lemma ParseTwoDigits(n: nat)
    requires n < 100
    ensures ParseInt(TwoDigits(n)) == Some(n)
  {
    var s := TwoDigits(n);
    ParseIntOfDecimal(s);
    assert s[..|s| - 1] == [s[0]];
    assert [s[0]][..0] == [];
    assert DigitsValue([s[0]], 10) == n / 10;
    assert DigitsValue(s, 10) == (n / 10) * 10 + n % 10;
  }

  /**
   * For a time "HH:MM" with 0 <= HH <= 23: the meridiem is 오후 exactly when HH >= 12, the hour shown
   * is Hour12(HH) (so in 1..12, see Hour12), and the minutes are passed through unchanged.
   */
  lemma FormatTimeOfClockTime(h: nat, minutes: string)
    requires h < 24 && ':' !in minutes
    ensures FormatTime(TwoDigits(h) + ":" + minutes)
         == (if h >= 12 then Afternoon else Morning) + " " + IntToString(Hour12(h)) + ":" + minutes
  {
    var hh := TwoDigits(h);
    assert ':' !in hh;
    SplitJoin([hh, minutes], ':');
    assert Join([hh, minutes], ':') == hh + ":" + minutes by {
      assert [hh, minutes][1..] == [minutes];
    }
    ParseTwoDigits(h);
  }
}
