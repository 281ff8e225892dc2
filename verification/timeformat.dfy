/**
 * `formatTime`, written identically in the event-management and events-dashboard screens:
 * "HH:mm" or "HH:mm:ss" (24-hour) to "h:mm AM/PM" (12-hour).
 */
module TimeFormat {
  import opened Wrappers
  import opened JsString

  /** `h % 12` with JavaScript's remainder, which truncates toward zero. */
  function JsRem12(h: int): (r: int)
    ensures h >= 0 ==> 0 <= r < 12 && r == h % 12
    ensures h < 0 ==> -12 < r <= 0
  {
    if h >= 0 then h % 12 else -((-h) % 12)
  }

  /** `h % 12 || 12` for the parsed hour `h` (None is NaN, which is falsy like 0). */
  function TwelveHour(h: Option<int>): int {
    if h.None? then 12
    else
      var m := JsRem12(h.value);
      if m == 0 then 12 else m
  }

  /** `h >= 12 ? 'PM' : 'AM'`; NaN compares false. */
  function Meridiem(h: Option<int>): string {
    if h.Some? && h.value >= 12 then "PM" else "AM"
  }

  /** The minutes field: the second piece of the split, or the text `undefined` when there is none. */
  function MinutesField(parts: seq<string>): string {
    if |parts| >= 2 then parts[1] else "undefined"
  }

  /** `formatTime(time)`. A falsy time (missing or empty) formats to the empty string. */
  function FormatTime(time: Option<string>): (r: string)
    ensures r == "" <==> !Truthy(time)
  {
    if !Truthy(time) then "" else FormatFields(Split(time.value, ':'))
  }

  /** The formatted text for the pieces of `time.split(':')`: hour from the first, minutes from the second. */
  function FormatFields(parts: seq<string>): (r: string)
    requires |parts| >= 1
    ensures r != ""
  {
    var h := ParseInt(parts[0]);
    IntToString(TwelveHour(h)) + ":" + MinutesField(parts) + " " + Meridiem(h)
  }

  /** The hour of the 24-hour clock named by a 12-hour hour and a meridiem. */
  function To24(h12: int, pm: bool): int {
    h12 % 12 + (if pm then 12 else 0)
  }

  /**
   * The hour mapping is a bijection between 0..23 and (1..12) x {AM, PM}: the displayed hour is
   * `(h mod 12) or 12`, PM exactly from 12 on, and the 24-hour hour can be recovered from it.
   */
  lemma HourMapping(h: int)
    requires 0 <= h < 24
    ensures 1 <= TwelveHour(Some(h)) <= 12
    ensures TwelveHour(Some(h)) == (if h % 12 == 0 then 12 else h % 12)
    ensures Meridiem(Some(h)) == "PM" <==> h >= 12
    ensures To24(TwelveHour(Some(h)), h >= 12) == h
  {
  }

  /** Conversely every 12-hour reading comes from exactly the 24-hour hour `To24` names. */
  lemma HourMappingOnto(h12: int, pm: bool)
    requires 1 <= h12 <= 12
    ensures 0 <= To24(h12, pm) < 24
    ensures TwelveHour(Some(To24(h12, pm))) == h12
    ensures (Meridiem(Some(To24(h12, pm))) == "PM") == pm
  {
  }

  /**
   * On "HH:mm" or "HH:mm:ss" with a numeric hour field, the result is the 12-hour hour, the
   * minutes field copied verbatim, and the meridiem; anything after the minutes is dropped.
   */
  lemma FormatClock(hh: string, mm: string, tail: string)
    requires |hh| > 0 && AllDigits(hh)
    requires ':' !in mm
    requires tail == "" || tail[0] == ':'
    ensures FormatTime(Some(hh + ":" + mm + tail)) == ClockText(DigitsValue(hh), mm)
  {
    var t := hh + ":" + mm + tail;
    ClockParts(hh, mm, tail);
    ParseDigits(hh);
    FormatTimeFields(t);
    FormatFieldsNumeric(Split(t, ':'), DigitsValue(hh));
  }

  /** A non-empty time is formatted from its ':'-separated fields. */
  lemma FormatTimeFields(t: string)
    requires t != ""
    ensures |Split(t, ':')| >= 1
    ensures FormatTime(Some(t)) == FormatFields(Split(t, ':'))
  {
  }

  /** Fields whose hour parses to a non-negative `v` read as the reference reading of `v`. */
  lemma FormatFieldsNumeric(parts: seq<string>, v: nat)
    requires |parts| >= 1 && ParseInt(parts[0]) == Some(v)
    ensures FormatFields(parts) == ClockText(v, MinutesField(parts))
  {
    var h12 := TwelveHour(Some(v));
    assert h12 == (if v % 12 == 0 then 12 else v % 12);
    assert IntToString(h12) == NatToString(h12);
    assert Meridiem(Some(v)) == (if v >= 12 then "PM" else "AM");
  }

  /** The reference 12-hour reading of hour `h` with minutes `mm`: `(h mod 12) or 12`, then AM before noon and PM from noon. */
  function ClockText(h: nat, mm: string): string {
    NatToString(if h % 12 == 0 then 12 else h % 12) + ":" + mm + " " + (if h >= 12 then "PM" else "AM")
  }

  /** Splitting "HH:mm" or "HH:mm:ss" at ':' yields the hour and minute fields first. */
  lemma ClockParts(hh: string, mm: string, tail: string)
    requires AllDigits(hh)
    requires ':' !in mm
    requires tail == "" || tail[0] == ':'
    ensures var parts := Split(hh + ":" + mm + tail, ':');
      |parts| >= 2 && parts[0] == hh && parts[1] == mm
  {
    var t := hh + ":" + mm + tail;
    assert t == hh + [':'] + (mm + tail);
    NoColonInDigits(hh);
    SplitFirst(hh, ':', mm + tail);
    MinutesPiece(mm, tail);
  }

  lemma NoColonInDigits(hh: string)
    requires AllDigits(hh)
    ensures ':' !in hh
  {
    forall i | 0 <= i < |hh|
      ensures hh[i] != ':'
    {
      assert IsDigit(hh[i]);
    }
  }

  /** The first ':'-separated piece of the text after the hour is the minutes field. */
  lemma MinutesPiece(mm: string, tail: string)
    requires ':' !in mm
    requires tail == "" || tail[0] == ':'
    ensures Split(mm + tail, ':')[0] == mm
  {
    if tail == "" {
      assert mm + tail == mm;
    } else {
      assert mm + tail == mm + [':'] + tail[1..];
      SplitFirst(mm, ':', tail[1..]);
    }
  }

  /** The reference reading at the three hours where the 12-hour clock is easiest to get wrong. */
  lemma ClockTextExamples(mm: string)
    ensures ClockText(0, mm) == "12:" + mm + " AM"
    ensures ClockText(12, mm) == "12:" + mm + " PM"
    ensures ClockText(13, mm) == "1:" + mm + " PM"
  {
    SmallNumerals();
  }

  /** Hour 0 shows as 12 AM, hour 12 as 12 PM, hour 13 as 1 PM, with the minutes copied and any seconds dropped. */
  lemma FormatHourExamples(hh: string, mm: string, tail: string)
    requires |hh| > 0 && AllDigits(hh)
    requires ':' !in mm
    requires tail == "" || tail[0] == ':'
    ensures DigitsValue(hh) == 0 ==> FormatTime(Some(hh + ":" + mm + tail)) == "12:" + mm + " AM"
    ensures DigitsValue(hh) == 12 ==> FormatTime(Some(hh + ":" + mm + tail)) == "12:" + mm + " PM"
    ensures DigitsValue(hh) == 13 ==> FormatTime(Some(hh + ":" + mm + tail)) == "1:" + mm + " PM"
  {
    FormatClock(hh, mm, tail);
    ClockTextExamples(mm);
  }

  /** Fields whose hour does not parse show as 12 AM: NaN % 12 is falsy and NaN >= 12 is false. */
  lemma FormatFieldsNaN(parts: seq<string>)
    requires |parts| >= 2 && ParseInt(parts[0]) == None
    ensures FormatFields(parts) == "12:" + parts[1] + " AM"
  {
    SmallNumerals();
    assert TwelveHour(None) == 12 && Meridiem(None) == "AM" && MinutesField(parts) == parts[1];
    assert FormatFields(parts) == "12" + ":" + parts[1] + " " + "AM";
  }

  /** An hour field with no digits parses to NaN, which shows as 12 AM. */
  lemma FormatNonNumericHour(hh: string, mm: string)
    requires ':' !in hh && ':' !in mm
    requires ParseInt(hh) == None
    ensures FormatTime(Some(hh + ":" + mm)) == "12:" + mm + " AM"
  {
    var t := hh + ":" + mm;
    assert t == hh + [':'] + mm;
    SplitFirst(hh, ':', mm);
    assert Split(mm, ':') == [mm];
    var parts := Split(t, ':');
    assert parts == [hh, mm];
    FormatTimeFields(t);
    FormatFieldsNaN(parts);
  }

  /** Fields with a numeric hour and no second piece print the minutes as `undefined`. */
  lemma FormatFieldsNoMinutes(d: string)
    requires |d| > 0 && AllDigits(d)
    ensures FormatFields([d]) == ClockText(DigitsValue(d), "undefined")
  {
    ParseDigits(d);
    FormatFieldsNumeric([d], DigitsValue(d));
  }

  /** A time without ':' has no minutes field, which the template prints as `undefined`. */
  lemma FormatWithoutColon(t: string)
    requires |t| > 0 && AllDigits(t)
    ensures FormatTime(Some(t)) == ClockText(DigitsValue(t), "undefined")
  {
    assert ':' !in t by {
      forall i | 0 <= i < |t| ensures t[i] != ':' {
        assert IsDigit(t[i]);
      }
    }
    assert Split(t, ':') == [t];
    assert FormatTime(Some(t)) == FormatFields([t]);
    FormatFieldsNoMinutes(t);
  }
}
