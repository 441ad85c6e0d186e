/** The message text of server/whatsapp-service.ts: the time and weekday
    formatters and `formatBookingMessage`. Sending (`fetch`) is not modelled.

    The file stores its Arabic labels and emoji mis-encoded: each UTF-8 byte
    shown as the Windows-1252 character for that byte. The constants below
    hold those characters exactly, as escapes; nothing proved here depends on
    what they say. */
module WhatsApp {
  import opened Text
  import opened Schema
  import Weekdays

  /** The evening and morning words. */
  const Evening: string := "\U{00d9}\U{2026}\U{00d8}\U{00b3}\U{00d8}\U{00a7}\U{00d8}\U{00a1}\U{00d9}\U{2039}"
  const Morning: string := "\U{00d8}\U{00b5}\U{00d8}\U{00a8}\U{00d8}\U{00a7}\U{00d8}\U{00ad}\U{00d8}\U{00a7}\U{00d9}\U{2039}"

  /** The notifier's weekday table. */
  const DayNames: map<string, string> := map[
    "saturday" := "\U{00d8}\U{00a7}\U{00d9}\U{201e}\U{00d8}\U{00b3}\U{00d8}\U{00a8}\U{00d8}\U{00aa}",
    "sunday" := "\U{00d8}\U{00a7}\U{00d9}\U{201e}\U{00d8}\U{00a3}\U{00d8}\U{00ad}\U{00d8}\U{00af}",
    "monday" := "\U{00d8}\U{00a7}\U{00d9}\U{201e}\U{00d8}\U{00a7}\U{00d8}\U{00ab}\U{00d9}\U{2020}\U{00d9}\U{0160}\U{00d9}\U{2020}",
    "tuesday" := "\U{00d8}\U{00a7}\U{00d9}\U{201e}\U{00d8}\U{00ab}\U{00d9}\U{201e}\U{00d8}\U{00a7}\U{00d8}\U{00ab}\U{00d8}\U{00a7}\U{00d8}\U{00a1}",
    "wednesday" := "\U{00d8}\U{00a7}\U{00d9}\U{201e}\U{00d8}\U{00a3}\U{00d8}\U{00b1}\U{00d8}\U{00a8}\U{00d8}\U{00b9}\U{00d8}\U{00a7}\U{00d8}\U{00a1}",
    "thursday" := "\U{00d8}\U{00a7}\U{00d9}\U{201e}\U{00d8}\U{00ae}\U{00d9}\U{2026}\U{00d9}\U{0160}\U{00d8}\U{00b3}",
    "friday" := "\U{00d8}\U{00a7}\U{00d9}\U{201e}\U{00d8}\U{00ac}\U{00d9}\U{2026}\U{00d8}\U{00b9}\U{00d8}\U{00a9}"]

  /** The fixed text around each field of the message, in order. */
  const Opening: string := "\U{00f0}\U{0178}\U{0178}\U{00ef}\U{00b8} \U{00d8}\U{00ad}\U{00d8}\U{00ac}\U{00d8}\U{00b2} \U{00d8}\U{00ac}\U{00d8}\U{00af}\U{00d9}\U{0160}\U{00d8}\U{00af} \U{00d9}\U{00d9}\U{0160} \U{00d8}\U{00a7}\U{00d9}\U{201e}\U{00d9}\U{2026}\U{00d9}\U{201e}\U{00d8}\U{00b9}\U{00d8}\U{00a8}!\n\n\U{00f0}\U{0178}\U{2018}\U{00a4} \U{00d8}\U{00a7}\U{00d9}\U{201e}\U{00d8}\U{00b9}\U{00d9}\U{2026}\U{00d9}\U{0160}\U{00d9}\U{201e}: "
  const PhoneLabel: string := "\n\U{00f0}\U{0178}\U{201c}\U{00b1} \U{00d8}\U{00a7}\U{00d9}\U{201e}\U{00d9}\U{2021}\U{00d8}\U{00a7}\U{00d8}\U{00aa}\U{00d9}: "
  const DayLabel: string := "\n\U{00f0}\U{0178}\U{201c}\U{2026} \U{00d8}\U{00a7}\U{00d9}\U{201e}\U{00d9}\U{0160}\U{00d9}\U{02c6}\U{00d9}\U{2026}: "
  const DateLabel: string := "\n\U{00f0}\U{0178}\U{2014}\U{201c}\U{00ef}\U{00b8} \U{00d8}\U{00a7}\U{00d9}\U{201e}\U{00d8}\U{00aa}\U{00d8}\U{00a7}\U{00d8}\U{00b1}\U{00d9}\U{0160}\U{00d8}\U{00ae}: "
  const TimeLabel: string := "\n\U{00e2}\U{00b0} \U{00d8}\U{00a7}\U{00d9}\U{201e}\U{00d9}\U{02c6}\U{00d9}\U{201a}\U{00d8}\U{00aa}: "
  const NotesLine: string := "\n"
  const Closing: string := "\n\n\U{00e2}\U{0153}\U{2026} \U{00d8}\U{00ad}\U{00d8}\U{00a7}\U{00d9}\U{201e}\U{00d8}\U{00a9} \U{00d8}\U{00a7}\U{00d9}\U{201e}\U{00d8}\U{00ad}\U{00d8}\U{00ac}\U{00d8}\U{00b2}: \U{00d9}\U{2026}\U{00d8}\U{00a4}\U{00d9}\U{0192}\U{00d8}\U{00af}\n\U{00f0}\U{0178}\U{2019}\U{00b0} \U{00d8}\U{00a7}\U{00d9}\U{201e}\U{00d9}\U{2026}\U{00d8}\U{00a8}\U{00d9}\U{201e}\U{00d8}\U{00ba}: 100 \U{00d8}\U{00b1}\U{00d9}\U{0160}\U{00d8}\U{00a7}\U{00d9}\U{201e}"
  const NotesLabel: string := "\U{00f0}\U{0178}\U{201c} \U{00d9}\U{2026}\U{00d9}\U{201e}\U{00d8}\U{00a7}\U{00d8}\U{00ad}\U{00d8}\U{00b8}\U{00d8}\U{00a7}\U{00d8}\U{00aa}: "

  /** `getDayNameArabic`: the table's name for one of the seven keys,
      anything else unchanged. */
  function GetDayNameArabic(day: string): (r: string)
    ensures day in DayNames ==> r == DayNames[day] && r != ""
    ensures day !in DayNames ==> r == day
  {
    Weekdays.Lookup(DayNames, day)
  }

  /** `hour > 12 ? hour - 12 : hour === 0 ? 12 : hour`; NaN stays NaN. */
  function Hour12(hour: Option<int>): (r: Option<int>)
    ensures hour.None? <==> r.None?
    ensures hour.Some? && 0 <= hour.value <= 24 ==> 1 <= r.value <= 12
  {
    match hour
    case None => None
    case Some(h) => Some(if h > 12 then h - 12 else if h == 0 then 12 else h)
  }

  /** `hour >= 12 ? evening : morning`; NaN compares false. */
  function Period(hour: Option<int>): (r: string)
    ensures r == Evening <==> hour.Some? && hour.value >= 12
  {
    if hour.Some? && hour.value >= 12 then Evening else Morning
  }

  /** `formatTimeArabic`: `const [hours, minutes] = time.split(':')`, then
      `${hour12}:${minutes} ${period}`; a missing minutes part renders as
      "undefined". */
  function FormatTimeArabic(time: string): (r: string)
    ensures var hour := ParseInt(FirstSegment(time, ':'));
      |r| >= |Period(hour)| && r[|r| - |Period(hour)|..] == Period(hour)
    ensures ':' !in time ==>
      r == NumberToString(Hour12(ParseInt(time))) + ":" + "undefined" + " " + Period(ParseInt(time))
  {
    var hour := ParseInt(FirstSegment(time, ':'));
    var minutes := SecondSegment(time, ':');
    var head := NumberToString(Hour12(hour)) + ":" + (if minutes.Some? then minutes.value else "undefined") + " ";
    var period := Period(hour);
    EndsWith(head, period);
    assert ':' !in time ==> FirstSegment(time, ':') == time;
    head + period
  }

  lemma EndsWith(a: string, b: string)
    ensures (a + b)[|a + b| - |b|..] == b
  {
  }

  /** On "h:mm": the 12-hour clock hour (12 for midnight), the minutes copied
      as they are, and the evening word exactly from noon on. */
  lemma FormatTimeArabicOfTime(h: int, minutes: string)
    requires ':' !in minutes
    ensures FormatTimeArabic(IntToString(h) + ":" + minutes)
         == IntToString(if h > 12 then h - 12 else if h == 0 then 12 else h) + ":" + minutes
            + " " + (if h >= 12 then Evening else Morning)
  {
    var time := IntToString(h) + ":" + minutes;
    HourOfTime(h, minutes);
    IntToStringHasNoColon(h);
    assert time == IntToString(h) + [':'] + minutes + "";
    SecondSegmentOf(IntToString(h), ':', minutes, "");
  }

  /** The fixed pieces of the message; `FileTemplate` holds the ones in the
      file. The properties below hold for any pieces. */
  datatype Template = Template(
    opening: string, phoneLabel: string, dayLabel: string, dateLabel: string,
    timeLabel: string, notesLine: string, notesLabel: string, closing: string)

  const FileTemplate: Template :=
    Template(Opening, PhoneLabel, DayLabel, DateLabel, TimeLabel, NotesLine, NotesLabel, Closing)

  /** `${booking.notes ? `<label>${booking.notes}` : ''}`: a line only for a
      non-empty note. */
  function NotesPart(t: Template, notes: Note): (r: string)
    ensures Truthy(notes) ==> r == t.notesLabel + notes.text
    ensures !Truthy(notes) ==> r == ""
  {
    if Truthy(notes) then t.notesLabel + notes.text else ""
  }

  /** The template string filled in with the booking's fields, the day name
      and the formatted time. */
  function Compose(t: Template, b: Booking, dayName: string, time: string): string
  {
    t.opening + b.customerName + AfterName(t, b, dayName, time)
  }

  function AfterName(t: Template, b: Booking, dayName: string, time: string): string
  {
    t.phoneLabel + b.customerPhone + AfterPhone(t, b, dayName, time)
  }

  function AfterPhone(t: Template, b: Booking, dayName: string, time: string): string
  {
    t.dayLabel + dayName + t.dateLabel + b.date + AfterDate(t, b, time)
  }

  function AfterDate(t: Template, b: Booking, time: string): string
  {
    t.timeLabel + time + t.notesLine + NotesPart(t, b.notes) + t.closing
  }

  /** `formatBookingMessage`: the customer's name follows the opening line,
      and the weekday appears by its name in the notifier's table. */
  function FormatBookingMessage(b: Booking): (r: string)
    ensures QuotesNameAndDay(FileTemplate, b, GetDayNameArabic(b.day), r)
  {
    var dayName := GetDayNameArabic(b.day);
    var time := FormatTimeArabic(b.time);
    MessageQuotesNameAndDay(FileTemplate, b, dayName, time);
    Compose(FileTemplate, b, dayName, time)
  }

  /** The name stands right after the opening, and the day name right after
      the phone number and the day label. */
  predicate QuotesNameAndDay(t: Template, b: Booking, dayName: string, msg: string)
  {
    var n := |t.opening|;
    var d := n + |b.customerName| + |t.phoneLabel| + |b.customerPhone| + |t.dayLabel|;
    && |msg| >= d + |dayName|
    && msg[n..n + |b.customerName|] == b.customerName
    && msg[d..d + |dayName|] == dayName
  }

  lemma MessageQuotesNameAndDay(t: Template, b: Booking, dayName: string, time: string)
    ensures QuotesNameAndDay(t, b, dayName, Compose(t, b, dayName, time))
  {
    QuotesName(t, b, dayName, time);
    QuotesDay(t, b, dayName, time);
  }

  lemma {:induction false} Quoted(pre: string, x: string, post: string)
    ensures |pre + x + post| >= |pre| + |x|
    ensures (pre + x + post)[|pre|..|pre| + |x|] == x
  {
    assert (pre + x + post)[..|pre| + |x|] == pre + x;
  }

  /** The name, the phone and the date appear in the message as they are,
      each right after its label. */
  lemma MessageQuotesFields(t: Template, b: Booking, dayName: string, time: string)
    ensures var msg := Compose(t, b, dayName, time);
      var n := |t.opening|;
      var p := n + |b.customerName| + |t.phoneLabel|;
      var d := p + |b.customerPhone| + |t.dayLabel| + |dayName| + |t.dateLabel|;
      && |msg| >= d + |b.date|
      && msg[n..n + |b.customerName|] == b.customerName
      && msg[p..p + |b.customerPhone|] == b.customerPhone
      && msg[d..d + |b.date|] == b.date
  {
    QuotesName(t, b, dayName, time);
    QuotesPhone(t, b, dayName, time);
    QuotesDate(t, b, dayName, time);
  }

  lemma QuotesName(t: Template, b: Booking, dayName: string, time: string)
    ensures var msg := Compose(t, b, dayName, time);
      && |msg| >= |t.opening| + |b.customerName|
      && msg[|t.opening|..|t.opening| + |b.customerName|] == b.customerName
  {
    Quoted(t.opening, b.customerName, AfterName(t, b, dayName, time));
  }

  lemma QuotesPhone(t: Template, b: Booking, dayName: string, time: string)
    ensures var msg := Compose(t, b, dayName, time);
      var p := |t.opening| + |b.customerName| + |t.phoneLabel|;
      && |msg| >= p + |b.customerPhone|
      && msg[p..p + |b.customerPhone|] == b.customerPhone
  {
    var pre := t.opening + b.customerName + t.phoneLabel;
    var post := AfterPhone(t, b, dayName, time);
    assert Compose(t, b, dayName, time) == pre + b.customerPhone + post;
    Quoted(pre, b.customerPhone, post);
  }

  lemma QuotesDate(t: Template, b: Booking, dayName: string, time: string)
    ensures var msg := Compose(t, b, dayName, time);
      var d := |t.opening| + |b.customerName| + |t.phoneLabel| + |b.customerPhone|
        + |t.dayLabel| + |dayName| + |t.dateLabel|;
      && |msg| >= d + |b.date|
      && msg[d..d + |b.date|] == b.date
  {
    var pre := t.opening + b.customerName + t.phoneLabel + b.customerPhone
      + t.dayLabel + dayName + t.dateLabel;
    assert AfterName(t, b, dayName, time)
        == t.phoneLabel + b.customerPhone + (t.dayLabel + dayName + t.dateLabel + b.date + AfterDate(t, b, time));
    assert Compose(t, b, dayName, time) == pre + b.date + AfterDate(t, b, time);
    Quoted(pre, b.date, AfterDate(t, b, time));
  }

  lemma QuotesDay(t: Template, b: Booking, dayName: string, time: string)
    ensures var msg := Compose(t, b, dayName, time);
      var d := |t.opening| + |b.customerName| + |t.phoneLabel| + |b.customerPhone| + |t.dayLabel|;
      && |msg| >= d + |dayName|
      && msg[d..d + |dayName|] == dayName
  {
    var pre := t.opening + b.customerName + t.phoneLabel + b.customerPhone + t.dayLabel;
    var post := t.dateLabel + b.date + AfterDate(t, b, time);
    assert AfterName(t, b, dayName, time) == t.phoneLabel + b.customerPhone + (t.dayLabel + dayName + post);
    assert Compose(t, b, dayName, time) == pre + dayName + post;
    Quoted(pre, dayName, post);
  }

  /** A non-empty note appears after its label, just before the closing text. */
  lemma MessageQuotesNotes(t: Template, b: Booking, dayName: string, time: string)
    requires Truthy(b.notes)
    ensures var msg := Compose(t, b, dayName, time);
      && |msg| >= |t.closing| + |b.notes.text|
      && msg[|msg| - |t.closing| - |b.notes.text|..|msg| - |t.closing|] == b.notes.text
  {
    var msg := Compose(t, b, dayName, time);
    var head := t.opening + b.customerName + t.phoneLabel + b.customerPhone
      + t.dayLabel + dayName + t.dateLabel + b.date
      + t.timeLabel + time + t.notesLine + t.notesLabel;
    assert AfterDate(t, b, time) == t.timeLabel + time + t.notesLine + t.notesLabel + b.notes.text + t.closing;
    assert msg == head + b.notes.text + t.closing;
    Quoted(head, b.notes.text, t.closing);
  }

  /** Bookings that differ only in falsy notes (absent, null or empty) or in
      status give the same message: the status line always reads
      "confirmed". */
  lemma MessageIgnoresFalsyNotesAndStatus(b: Booking, n: Note, status: string)
    requires !Truthy(b.notes) && !Truthy(n)
    ensures FormatBookingMessage(b.(notes := n, status := status)) == FormatBookingMessage(b)
  {
  }
}
