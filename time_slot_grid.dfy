/** The slot grid of client/src/components/time-slot-grid.tsx: the twelve
    one-hour slots of an evening (15:00 to 23:00, then 00:00 to 02:00), each
    marked booked, selected or available from the day's fetched bookings and
    the current selection, and what a click on a slot asks for. */
module TimeSlotGrid {
  import opened Text
  import opened Schema

  datatype SlotStatus = Available | Selected | Booked

  datatype TimeSlot = TimeSlot(time: string, display: string, status: SlotStatus)

  /** 'م' (evening) and 'ص' (morning). */
  const Evening: string := "م"
  const Morning: string := "ص"

  /** The number of slots: nine evening hours and three after midnight. */
  const SlotCount: nat := 12

  /** The slot times, in the order the grid shows them. */
  const SlotTimes: seq<string> := ["15:00", "16:00", "17:00", "18:00", "19:00", "20:00", "21:00",
                                   "22:00", "23:00", "00:00", "01:00", "02:00"]

  /** The slot labels, in the same order. */
  const SlotDisplays: seq<string> := ["3:00 م", "4:00 م", "5:00 م", "6:00 م", "7:00 م", "8:00 م",
                                      "9:00 م", "10:00 م", "11:00 م", "12:00 ص", "1:00 ص", "2:00 ص"]

  /** `new Set(bookings?.map(b => b.time) || [])`: the times of every fetched
      booking, whatever its status; nothing while no data has arrived. */
  function BookedTimes(bookings: Option<seq<Booking>>): (r: set<string>)
    ensures forall b :: bookings.Some? && b in bookings.value ==> b.time in r
    ensures forall t :: t in r ==> bookings.Some? && exists b :: b in bookings.value && b.time == t
  {
    if bookings.None? then {} else set b | b in bookings.value :: b.time
  }

  /** `hour.toString().padStart(2, '0')`. */
  function PadStart2(s: string): (r: string)
    ensures |s| < 2 ==> |r| == 2 && AllZeros(r[..2 - |s|]) && r[2 - |s|..] == s
    ensures |s| >= 2 ==> r == s
  {
    if |s| >= 2 then s else if |s| == 1 then "0" + s else "00"
  }

  predicate AllZeros(s: string) { forall i :: 0 <= i < |s| ==> s[i] == '0' }

  /** The status rule both loops apply: booked first, then selected. */
  function StatusOf(time: string, booked: set<string>, selectedTime: string): SlotStatus
  {
    if time in booked then Booked else if selectedTime == time then Selected else Available
  }

  /** The hour of slot `i`: 15 to 23, then 0 to 2. */
  function SlotHour(i: nat): nat
    requires i < SlotCount
  {
    if i < 9 then 15 + i else i - 9
  }

  /** The time string of slot `i`: `${hour}:00` in the evening loop, the
      two-digit padded hour after midnight. */
  function SlotTime(i: nat): string
    requires i < SlotCount
  {
    if i < 9 then NatToString(SlotHour(i)) + ":00" else PadStart2(NatToString(SlotHour(i))) + ":00"
  }

  /** The label of slot `i`: hour - 12 with 'م' in the evening, 12 for
      midnight and the hour itself after it, with 'ص'. */
  function SlotDisplay(i: nat): string
    requires i < SlotCount
  {
    var hour := SlotHour(i);
    if i < 9 then NatToString(if hour > 12 then hour - 12 else hour) + ":00 " + Evening
    else NatToString(if hour == 0 then 12 else hour) + ":00 " + Morning
  }

  function SlotAt(i: nat, booked: set<string>, selectedTime: string): TimeSlot
    requires i < SlotCount
  {
    TimeSlot(SlotTime(i), SlotDisplay(i), StatusOf(SlotTime(i), booked, selectedTime))
  }

  /** The grid `generateTimeSlots` builds for the fetched bookings and the
      current selection. */
  function Grid(bookings: Option<seq<Booking>>, selectedTime: string): (r: seq<TimeSlot>)
    ensures |r| == SlotCount
  {
    seq(SlotCount, i requires 0 <= i < SlotCount => SlotAt(i, BookedTimes(bookings), selectedTime))
  }

  /** `generateTimeSlots`: the evening loop, then the after-midnight loop,
      each pushing one slot per hour. */
  method GenerateTimeSlots(bookings: Option<seq<Booking>>, selectedTime: string) returns (slots: seq<TimeSlot>)
    ensures slots == Grid(bookings, selectedTime)
  {
    slots := [];
    var bookedTimes := BookedTimes(bookings);
    var hour: nat := 15;
    while hour <= 23
      invariant 15 <= hour <= 24
      invariant |slots| == hour - 15
      invariant SlotsSoFar(slots, bookedTimes, selectedTime)
    {
      var time := NatToString(hour) + ":00";
      var displayHour := if hour > 12 then hour - 12 else hour;
      var display := NatToString(displayHour) + ":00 " + Evening;
      var status := if time in bookedTimes then Booked else if selectedTime == time then Selected else Available;
      assert TimeSlot(time, display, status) == SlotAt(hour - 15, bookedTimes, selectedTime) by {
        EveningSlotAt(hour, bookedTimes, selectedTime);
      }
      AppendSlot(slots, bookedTimes, selectedTime, TimeSlot(time, display, status));
      slots := slots + [TimeSlot(time, display, status)];
      hour := hour + 1;
    }
    hour := 0;
    while hour <= 2
      invariant 0 <= hour <= 3
      invariant |slots| == 9 + hour
      invariant SlotsSoFar(slots, bookedTimes, selectedTime)
    {
      var time := PadStart2(NatToString(hour)) + ":00";
      var displayHour := if hour == 0 then 12 else hour;
      var display := NatToString(displayHour) + ":00 " + Morning;
      var status := Available;
      if time in bookedTimes {
        status := Booked;
      } else if selectedTime == time {
        status := Selected;
      }
      assert TimeSlot(time, display, status) == SlotAt(hour + 9, bookedTimes, selectedTime) by {
        MorningSlotAt(hour, bookedTimes, selectedTime);
      }
      AppendSlot(slots, bookedTimes, selectedTime, TimeSlot(time, display, status));
      slots := slots + [TimeSlot(time, display, status)];
      hour := hour + 1;
    }
    GridOfSlots(slots, bookings, selectedTime);
  }

  /** The slots built so far are the grid's first ones. */
  predicate SlotsSoFar(slots: seq<TimeSlot>, booked: set<string>, selectedTime: string)
  {
    |slots| <= SlotCount && forall i :: 0 <= i < |slots| ==> slots[i] == SlotAt(i, booked, selectedTime)
  }

  lemma AppendSlot(slots: seq<TimeSlot>, booked: set<string>, selectedTime: string, s: TimeSlot)
    requires SlotsSoFar(slots, booked, selectedTime) && |slots| < SlotCount
    requires s == SlotAt(|slots|, booked, selectedTime)
    ensures SlotsSoFar(slots + [s], booked, selectedTime)
  {
  }

  /** Twelve slots, each the one `SlotAt` describes, make up the grid. */
  lemma GridOfSlots(slots: seq<TimeSlot>, bookings: Option<seq<Booking>>, selectedTime: string)
    requires |slots| == SlotCount
    requires SlotsSoFar(slots, BookedTimes(bookings), selectedTime)
    ensures slots == Grid(bookings, selectedTime)
  {
    assert forall i :: 0 <= i < SlotCount ==> slots[i] == Grid(bookings, selectedTime)[i];
  }

  lemma EveningSlotAt(hour: nat, booked: set<string>, selectedTime: string)
    requires 15 <= hour <= 23
    ensures var time := NatToString(hour) + ":00";
      SlotAt(hour - 15, booked, selectedTime)
      == TimeSlot(time, NatToString(hour - 12) + ":00 " + Evening, StatusOf(time, booked, selectedTime))
  {
    assert SlotHour(hour - 15) == hour;
  }

  lemma MorningSlotAt(hour: nat, booked: set<string>, selectedTime: string)
    requires hour <= 2
    ensures var time := PadStart2(NatToString(hour)) + ":00";
      SlotAt(hour + 9, booked, selectedTime)
      == TimeSlot(time, NatToString(if hour == 0 then 12 else hour) + ":00 " + Morning, StatusOf(time, booked, selectedTime))
  {
    assert SlotHour(hour + 9) == hour;
  }

  /** The grid's times and labels are exactly the twelve listed, in order,
      whatever the bookings and the selection. */
  lemma GridSpelledOut(bookings: Option<seq<Booking>>, selectedTime: string)
    ensures forall i :: 0 <= i < SlotCount ==>
      Grid(bookings, selectedTime)[i].time == SlotTimes[i] && Grid(bookings, selectedTime)[i].display == SlotDisplays[i]
  {
    forall i | 0 <= i < SlotCount
      ensures SlotTime(i) == SlotTimes[i] && SlotDisplay(i) == SlotDisplays[i]
    {
      SlotSpelledOut(i);
    }
  }

  lemma SlotSpelledOut(i: nat)
    requires i < SlotCount
    ensures SlotTime(i) == SlotTimes[i] && SlotDisplay(i) == SlotDisplays[i]
  {
    SlotTimeSpelledOut(i);
    SlotDisplaySpelledOut(i);
  }

  lemma SlotTimeSpelledOut(i: nat)
    requires i < SlotCount
    ensures SlotTime(i) == SlotTimes[i]
  {
    if i < 9 {
      EveningTimeSpelledOut(i);
    } else {
      MorningTimeSpelledOut(i);
    }
  }

  lemma EveningTimeSpelledOut(i: nat)
    requires i < 9
    ensures SlotTime(i) == SlotTimes[i]
  {
    var hour := 15 + i;
    assert SlotTime(i) == NatToString(hour) + ":00";
    TwoDigits(hour);
    if i < 5 {
      assert SlotTime(i) == ['1', DigitChar(i + 5), ':', '0', '0'];
    } else {
      assert SlotTime(i) == ['2', DigitChar(i - 5), ':', '0', '0'];
    }
  }

  lemma MorningTimeSpelledOut(i: nat)
    requires 9 <= i < SlotCount
    ensures SlotTime(i) == SlotTimes[i]
  {
    var hour := i - 9;
    OneDigit(hour);
    assert SlotTime(i) == ['0', DigitChar(hour), ':', '0', '0'];
  }

  lemma SlotDisplaySpelledOut(i: nat)
    requires i < SlotCount
    ensures SlotDisplay(i) == SlotDisplays[i]
  {
    if i < 9 {
      EveningDisplaySpelledOut(i);
    } else if i == 9 {
      TwoDigits(12);
    } else {
      OneDigit(SlotHour(i));
    }
  }

  lemma EveningDisplaySpelledOut(i: nat)
    requires i < 9
    ensures SlotDisplay(i) == SlotDisplays[i]
  {
    var shown := i + 3;
    assert SlotDisplay(i) == NatToString(shown) + ":00 " + Evening;
    if i < 7 {
      OneDigit(shown);
      assert SlotDisplay(i) == [DigitChar(shown), ':', '0', '0', ' ', 'م'];
    } else {
      TwoDigits(shown);
      assert SlotDisplay(i) == ['1', DigitChar(i - 7), ':', '0', '0', ' ', 'م'];
    }
  }

  lemma OneDigit(n: nat)
    requires n < 10
    ensures NatToString(n) == [DigitChar(n)]
  {
  }

  lemma TwoDigits(n: nat)
    requires 10 <= n < 100
    ensures NatToString(n) == [DigitChar(n / 10), DigitChar(n % 10)]
  {
    OneDigit(n / 10);
  }

  /** No two slots share a time. */
  lemma GridTimesDistinct(bookings: Option<seq<Booking>>, selectedTime: string)
    ensures forall i, j :: 0 <= i < j < SlotCount ==>
      Grid(bookings, selectedTime)[i].time != Grid(bookings, selectedTime)[j].time
  {
    forall i, j | 0 <= i < j < SlotCount
      ensures SlotTime(i) != SlotTime(j)
    {
      SlotTimeDigits(i);
      SlotTimeDigits(j);
    }
  }

  /** The first two characters of a slot's time are the digits of its hour. */
  lemma SlotTimeDigits(i: nat)
    requires i < SlotCount
    ensures var t := SlotTime(i);
      |t| >= 2 && IsDigit(t[0]) && IsDigit(t[1]) && 10 * DigitValue(t[0]) + DigitValue(t[1]) == SlotHour(i)
  {
    var hour := SlotHour(i);
    if i < 9 {
      TwoDigits(hour);
      DigitValueOfChar(hour / 10);
      DigitValueOfChar(hour % 10);
    } else {
      OneDigit(hour);
      DigitValueOfChar(0);
      DigitValueOfChar(hour);
      assert PadStart2(NatToString(hour)) == [DigitChar(0), DigitChar(hour)];
    }
  }

  /** A slot is booked exactly when some fetched booking, of any status, has
      its time; it is selected exactly when it is not booked and its time is
      the selection; otherwise it is available. */
  lemma GridStatus(bookings: Option<seq<Booking>>, selectedTime: string, i: nat)
    requires i < SlotCount
    ensures var s := Grid(bookings, selectedTime)[i];
      && (s.status == Booked <==> bookings.Some? && exists b :: b in bookings.value && b.time == s.time)
      && (s.status == Selected <==> s.status != Booked && s.time == selectedTime)
  {
  }

  /** At most one slot is selected. */
  lemma AtMostOneSelected(bookings: Option<seq<Booking>>, selectedTime: string)
    ensures forall i, j ::
      (0 <= i < SlotCount && 0 <= j < SlotCount &&
       Grid(bookings, selectedTime)[i].status == Selected && Grid(bookings, selectedTime)[j].status == Selected)
      ==> i == j
  {
    GridTimesDistinct(bookings, selectedTime);
  }

  /** What a click asks of `onTimeSelect`: nothing, or a new selection. */
  datatype Click = NoCall | Select(time: string)

  /** `handleTimeClick`: a booked slot ignores the click; clicking the
      selected time clears the selection; any other time becomes it. */
  function HandleTimeClick(time: string, status: SlotStatus, selectedTime: string): (r: Click)
    ensures r.NoCall? <==> status == Booked
    ensures r.Select? ==> r.time == time || r.time == ""
    ensures r.Select? && time != "" ==> (r.time == time <==> selectedTime != time)
  {
    if status == Booked then NoCall
    else if selectedTime == time then Select("")
    else Select(time)
  }

  /** Clicking slot `i` and regenerating the grid with the new selection:
      a booked slot asks for nothing; an available slot becomes the one
      selected slot; the selected slot is cleared and no slot is left
      selected. Booked slots stay booked throughout. */
  lemma ClickThenRegenerate(bookings: Option<seq<Booking>>, selectedTime: string, i: nat)
    requires i < SlotCount
    ensures var g := Grid(bookings, selectedTime);
      match HandleTimeClick(g[i].time, g[i].status, selectedTime)
      case NoCall => g[i].status == Booked
      case Select(t) =>
        var g' := Grid(bookings, t);
        && (forall j :: 0 <= j < SlotCount ==> (g'[j].status == Booked <==> g[j].status == Booked))
        && (g[i].status == Available ==>
              g'[i].status == Selected && forall j :: 0 <= j < SlotCount && j != i ==> g'[j].status != Selected)
        && (g[i].status == Selected ==> forall j :: 0 <= j < SlotCount ==> g'[j].status != Selected)
  {
    var g := Grid(bookings, selectedTime);
    GridTimesDistinct(bookings, selectedTime);
    match HandleTimeClick(g[i].time, g[i].status, selectedTime)
    case NoCall =>
    case Select(t) =>
      BookedIgnoresSelection(bookings, selectedTime, t);
      var g' := Grid(bookings, t);
      assert forall j :: 0 <= j < SlotCount ==> g'[j].time == g[j].time;
  }

  /** Which slots are booked does not depend on the selection. */
  lemma BookedIgnoresSelection(bookings: Option<seq<Booking>>, s1: string, s2: string)
    ensures forall j :: 0 <= j < SlotCount ==>
      (Grid(bookings, s1)[j].status == Booked <==> Grid(bookings, s2)[j].status == Booked)
  {
  }
}
