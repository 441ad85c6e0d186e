/** The string helpers of client/src/lib/utils.ts: the hour label, the
    weekday name, and the phone-number check and clean-up. Hours come from
    `parseInt(time.split(':')[0])`, where `None` is NaN. */
module ClientUtils {
  import opened Text
  import Schema
  import Weekdays

  /** 'م' (evening) and 'ص' (morning). */
  const Evening: string := "م"
  const Morning: string := "ص"

  /** `parseInt(time.split(':')[0])`. */
  function HourOf(time: string): Option<int>
  {
    ParseInt(FirstSegment(time, ':'))
  }

  /** `hour > 12 ? hour - 12 : hour`; NaN stays NaN. */
  function DisplayHour(hour: Option<int>): (r: Option<int>)
    ensures hour.None? <==> r.None?
    ensures hour.Some? && 0 <= hour.value <= 24 ==> 0 <= r.value <= 12
  {
    match hour
    case None => None
    case Some(h) => Some(if h > 12 then h - 12 else h)
  }

  /** `hour >= 12 ? 'م' : 'ص'`; NaN compares false. */
  function Period(hour: Option<int>): (r: string)
    ensures r == Evening <==> hour.Some? && hour.value >= 12
    ensures r == Evening || r == Morning
  {
    if hour.Some? && hour.value >= 12 then Evening else Morning
  }

  /** `${displayHour}:00 ${period}`. */
  function HourLabel(hour: Option<int>): string
  {
    NumberToString(DisplayHour(hour)) + ":00 " + Period(hour)
  }

  /** `formatArabicTime`: the label ends in 'م' exactly when the parsed
      hour is 12 or more; a time with no leading number reads "NaN:00 ص". */
  function FormatArabicTime(time: string): (r: string)
    ensures |r| > 0 && (r[|r| - 1..] == Evening <==> HourOf(time).Some? && HourOf(time).value >= 12)
    ensures HourOf(time).None? ==> r == "NaN" + ":00 " + Morning
  {
    var r := HourLabel(HourOf(time));
    assert r[|r| - 1..] == Period(HourOf(time));
    r
  }

  /** On an "h:mm" time: hour `h - 12` after noon, `h` otherwise (so midnight
      shows as "0:00"), followed by 'م' exactly from noon on. The minutes are
      not shown. */
  lemma FormatArabicTimeOfHour(h: int, minutes: string)
    ensures FormatArabicTime(IntToString(h) + ":" + minutes)
         == IntToString(if h > 12 then h - 12 else h) + ":00 " + (if h >= 12 then "م" else "ص")
  {
    HourOfTime(h, minutes);
  }

  /** The label of an "h:mm" time is the label of hour h. */
  lemma FormatArabicTimeIsHourLabel(h: int, minutes: string)
    ensures FormatArabicTime(IntToString(h) + ":" + minutes) == HourLabel(Some(h))
  {
    HourOfTime(h, minutes);
  }

  /** `getDayNameArabic`. */
  function GetDayNameArabic(day: string): (r: string)
    ensures day in Weekdays.ClientNames ==> r == Weekdays.ClientNames[day] && r != ""
    ensures day !in Weekdays.ClientNames ==> r == day
  {
    Weekdays.ClientNamesWellFormed();
    Weekdays.Lookup(Weekdays.ClientNames, day)
  }

  /** `/^05[0-9]{8}$/.test(phone)`, written as a shape. */
  function ValidateSaudiPhoneNumber(phone: string): (ok: bool)
    ensures ok <==> Schema.PhonePatternOk(phone)
  {
    Schema.PhonePatternShape(phone);
    |phone| == 10 && phone[..2] == "05" && AllDigits(phone[2..])
  }

  /** `phone.replace(/\D/g, '').substring(0, 10)`. */
  function FormatSaudiPhoneNumber(phone: string): (r: string)
    ensures AllDigits(r) && |r| <= 10
    ensures |r| <= |DigitsOnly(phone)| && r == DigitsOnly(phone)[..|r|]
    ensures |r| == 10 || r == DigitsOnly(phone)
  {
    var d := DigitsOnly(phone);
    if |d| <= 10 then d else d[..10]
  }

  /** Cleaning twice is cleaning once. */
  lemma FormatSaudiPhoneNumberIdempotent(phone: string)
    ensures FormatSaudiPhoneNumber(FormatSaudiPhoneNumber(phone)) == FormatSaudiPhoneNumber(phone)
  {
    DigitsOnlyKeepsDigits(FormatSaudiPhoneNumber(phone));
  }

  /** A valid number is left as it is. */
  lemma FormatSaudiPhoneNumberKeepsValid(phone: string)
    requires ValidateSaudiPhoneNumber(phone)
    ensures FormatSaudiPhoneNumber(phone) == phone
  {
    assert AllDigits(phone);
    DigitsOnlyKeepsDigits(phone);
  }

  /** `isValidBookingTime`: `hour >= 16 && hour <= 22`. */
  function IsValidBookingTime(time: string): (ok: bool)
    ensures ok ==> HourOf(time).Some?
  {
    var hour := HourOf(time);
    hour.Some? && 16 <= hour.value <= 22
  }

  /** On an "h:mm" time, exactly the hours 16 to 22 are accepted. */
  lemma IsValidBookingTimeOfHour(h: int, minutes: string)
    ensures IsValidBookingTime(IntToString(h) + ":" + minutes) <==> 16 <= h <= 22
  {
    HourOfTime(h, minutes);
  }
}
