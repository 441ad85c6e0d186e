/** The logic of client/src/components/booking-form.tsx: the form's own
    validation (looser than the server's on the phone, stricter on the
    name), the phone input filter, the time and day labels, and the request
    body sent on submit. */
module BookingForm {
  import opened Text
  import opened Schema
  import ClientUtils
  import Weekdays

  datatype FormData = FormData(customerName: string, customerPhone: string, notes: string, terms: bool)

  /** The keys `validateForm` may put into `newErrors`. */
  datatype ErrorKey = NameKey | PhoneKey | TermsKey

  const NameMessage: string := "يرجى إدخال الاسم الكامل"
  const PhoneMessage: string := "يرجى إدخال رقم هاتف صحيح (05xxxxxxxx أو +966xxxxxxxxx)"
  const TermsMessage: string := "يرجى الموافقة على شروط وأحكام الاستخدام"

  /** `!name.trim() || name.trim().length < 2`, the length in UTF-16 code
      units. */
  predicate NameFails(name: string) { Utf16Length(Trim(name)) < 2 }

  /** `/^(05[0-9]{8}|(\+966|966)?5[0-9]{8})$/`, alternative by alternative. */
  predicate ClientPhonePattern(s: string)
  {
    || (|s| == 10 && s[..2] == "05" && AllDigits(s[2..]))
    || (|s| == 9 && s[0] == '5' && AllDigits(s[1..]))
    || (|s| == 12 && s[..3] == "966" && s[3] == '5' && AllDigits(s[4..]))
    || (|s| == 13 && s[..4] == "+966" && s[4] == '5' && AllDigits(s[5..]))
  }

  /** `!phone || !phoneRegex.test(phone.replace(/\s+/g, ''))`. */
  predicate PhoneFails(phone: string) { phone == "" || !ClientPhonePattern(RemoveSpaces(phone)) }

  predicate FormValid(f: FormData)
  {
    !NameFails(f.customerName) && !PhoneFails(f.customerPhone) && f.terms
  }

  class BookingForm {
    var formData: FormData
    var errors: map<ErrorKey, string>

    constructor()
      ensures formData == FormData("", "", "", false) && errors == map[]
    {
      formData := FormData("", "", "", false);
      errors := map[];
    }

    /** `validateForm`: one error entry per failing rule, stored with
        `setErrors`; the form is valid when there is none. */
    method ValidateForm() returns (valid: bool)
      modifies this
      ensures formData == old(formData)
      ensures NameKey in errors <==> NameFails(formData.customerName)
      ensures PhoneKey in errors <==> PhoneFails(formData.customerPhone)
      ensures TermsKey in errors <==> !formData.terms
      ensures NameKey in errors ==> errors[NameKey] == NameMessage
      ensures PhoneKey in errors ==> errors[PhoneKey] == PhoneMessage
      ensures TermsKey in errors ==> errors[TermsKey] == TermsMessage
      ensures valid <==> FormValid(formData)
      ensures valid <==> errors == map[]
    {
      var newErrors: map<ErrorKey, string> := map[];
      if NameFails(formData.customerName) {
        newErrors := newErrors[NameKey := NameMessage];
      }
      if formData.customerPhone == "" || !ClientPhonePattern(RemoveSpaces(formData.customerPhone)) {
        newErrors := newErrors[PhoneKey := PhoneMessage];
      }
      if !formData.terms {
        newErrors := newErrors[TermsKey := TermsMessage];
      }
      errors := newErrors;
      valid := |newErrors| == 0;
      if !valid {
        assert newErrors != map[];
      }
    }

    /** `handleSubmit`: nothing is sent unless the form validates; the body
        carries the form's fields as typed, the selected day, time and date,
        and the status "confirmed". */
    method HandleSubmit(selectedDay: string, selectedDate: string, selectedTime: string)
      returns (body: Option<RawBooking>)
      modifies this
      ensures formData == old(formData)
      ensures body.Some? <==> FormValid(formData)
      ensures body.Some? ==> body.value == SubmittedBody(formData, selectedDay, selectedDate, selectedTime)
    {
      var valid := ValidateForm();
      if !valid {
        return None;
      }
      body := Some(SubmittedBody(formData, selectedDay, selectedDate, selectedTime));
    }
  }

  /** The request body `handleSubmit` builds. */
  function SubmittedBody(f: FormData, day: string, date: string, time: string): (r: RawBooking)
    ensures r.customerName == Some(f.customerName) && r.customerPhone == Some(f.customerPhone)
    ensures r.notes == Given(f.notes)
    ensures r.status == Some(DefaultStatus)
    ensures r.day == Some(day) && r.time == Some(time) && r.date == Some(date)
    ensures r.id.None? && r.createdAt.None?
  {
    RawBooking(Some(f.customerName), Some(f.customerPhone), Given(f.notes),
               Some(day), Some(time), Some(date), Some("confirmed"), None, None)
  }

  /** `value.replace(/\D/g, '').substring(0, 10)`, the phone input filter. */
  function FormatPhoneNumber(value: string): (r: string)
    ensures AllDigits(r) && |r| <= 10
    ensures r == ClientUtils.FormatSaudiPhoneNumber(value)
  {
    var d := DigitsOnly(value);
    d[..if |d| <= 10 then |d| else 10]
  }

  /** `getDayName`, the same table as `getDayNameArabic` in utils.ts. */
  function GetDayName(day: string): (r: string)
    ensures r == ClientUtils.GetDayNameArabic(day)
    ensures day !in Weekdays.ClientNames ==> r == day
  {
    Weekdays.Lookup(Weekdays.ClientNames, day)
  }

  /** `hour + 1`, with NaN staying NaN. */
  function NextHour(hour: Option<int>): Option<int>
  {
    match hour
    case None => None
    case Some(h) => Some(h + 1)
  }

  /** `formatTime`: the selected hour and the next one. The first half is
      what `formatArabicTime` shows for the same time; a time with no
      leading number gives NaN on both sides. */
  function FormatTime(time: string): (r: string)
    ensures r == ClientUtils.FormatArabicTime(time) + " - " + ClientUtils.HourLabel(NextHour(ClientUtils.HourOf(time)))
    ensures ClientUtils.HourOf(time).None? ==>
      r == ("NaN" + ":00 " + ClientUtils.Morning) + " - " + ("NaN" + ":00 " + ClientUtils.Morning)
  {
    var hour := ClientUtils.HourOf(time);
    ClientUtils.HourLabel(hour) + " - " + ClientUtils.HourLabel(NextHour(hour))
  }

  /** On "h:mm" the label spans the hours h and h + 1, each shown as
      `formatArabicTime` shows an "h:mm" time (see
      `ClientUtils.FormatArabicTimeIsHourLabel`). */
  lemma FormatTimeOfHour(h: int, minutes: string)
    ensures FormatTime(IntToString(h) + ":" + minutes)
         == ClientUtils.HourLabel(Some(h)) + " - " + ClientUtils.HourLabel(Some(h + 1))
  {
    var t := IntToString(h) + ":" + minutes;
    HourOfTime(h, minutes);
    FormatTimeOfParsedHour(t, h);
  }

  /** Any time whose leading hour parses as h is labelled from h to h + 1. */
  lemma FormatTimeOfParsedHour(time: string, h: int)
    requires ClientUtils.HourOf(time) == Some(h)
    ensures FormatTime(time) == ClientUtils.HourLabel(Some(h)) + " - " + ClientUtils.HourLabel(Some(h + 1))
  {
    assert NextHour(ClientUtils.HourOf(time)) == Some(h + 1);
  }

  /** A filtered phone (digits only, at most ten) passes the form's check
      exactly when it is "05" and eight digits or "5" and eight digits. */
  lemma FilteredPhoneChecks(value: string)
    ensures var p := FormatPhoneNumber(value);
      !PhoneFails(p) <==> PhonePatternOk(p) || (|p| == 9 && p[0] == '5')
  {
    var p := FormatPhoneNumber(value);
    assert NoSpace(p);
    RemoveSpacesKeeps(p);
    PhonePatternShape(p);
    if |p| == 9 && p[0] == '5' {
      assert AllDigits(p[1..]);
    }
  }

  /** The form lets through "5" and eight digits, which the server's schema
      refuses. */
  lemma NineDigitPhoneAcceptedByFormOnly(p: string)
    requires |p| == 9 && p[0] == '5' && AllDigits(p)
    ensures !PhoneFails(p)
    ensures !PhonePatternOk(p)
  {
    assert NoSpace(p);
    RemoveSpacesKeeps(p);
    assert AllDigits(p[1..]);
  }

  /** A name the form accepts also satisfies the schema (trimming only
      shortens it), but the form refuses names the schema accepts. */
  lemma FormNameStricterThanSchema(name: string)
    ensures !NameFails(name) ==> NameOk(Some(name))
    ensures NameOk(Some(" a")) && NameFails(" a")
  {
    var k := |name| - |TrimStart(name)|;
    Utf16LengthSlice(name, k, k + |Trim(name)|);
    TrimOneSpaceBefore('a');
    assert " a" == [' ', 'a'];
    assert Utf16Length("a") == 1 by {
      assert "a"[1..] == [];
    }
  }

  /** A space followed by one other character trims to that character. */
  lemma TrimOneSpaceBefore(c: char)
    requires !IsSpace(c)
    ensures Trim([' ', c]) == [c]
  {
    var s := [' ', c];
    assert s[1..] == [c];
    assert TrimStart([c]) == [c];
    assert TrimStart(s) == [c];
    assert TrimEnd([c]) == [c];
  }

  /** What the server makes of a valid form whose phone went through the
      input filter: accepted exactly when the phone is the ten-digit form,
      given that a day, a time and a date are selected. */
  lemma ValidFormReachesServer(f: FormData, raw: string, day: string, date: string, time: string)
    requires FormValid(f) && f.customerPhone == FormatPhoneNumber(raw)
    requires day != "" && date != "" && time != ""
    ensures ParseInsertBooking(SubmittedBody(f, day, date, time)).Accepted? <==> |f.customerPhone| == 10
  {
    var body := SubmittedBody(f, day, date, time);
    var p := f.customerPhone;
    assert NameOk(body.customerName) by {
      FormNameStricterThanSchema(f.customerName);
    }
    assert PhoneOk(body.customerPhone) <==> |p| == 10 by {
      FilteredPhoneChecks(raw);
    }
    assert Acceptable(body) <==> |p| == 10;
  }
}
