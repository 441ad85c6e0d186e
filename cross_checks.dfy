/** Facts that relate the slot grid of client/src/components/time-slot-grid.tsx
    to the server's slot rule in server/routes.ts and to the hour helpers of
    client/src/lib/utils.ts, where the files do not agree. */
module CrossChecks {
  import opened Text
  import opened Schema
  import Routes
  import ClientUtils
  import TimeSlotGrid
  import BookingForm

  /** A slot whose bookings are all cancelled (or otherwise not confirmed) is
      shown as booked and ignores clicks, although the server would accept a
      new booking for it: the grid counts every status, the server only
      confirmed ones. */
  lemma UnconfirmedBookingBlocksOnlyTheGrid(day: seq<Booking>, b: Booking, selectedTime: string, i: nat)
    requires i < TimeSlotGrid.SlotCount
    requires b in day && b.time == TimeSlotGrid.SlotTime(i)
    requires forall c :: c in day && c.time == b.time ==> !Routes.IsConfirmed(c)
    ensures TimeSlotGrid.Grid(Some(day), selectedTime)[i].status == TimeSlotGrid.Booked
    ensures TimeSlotGrid.HandleTimeClick(b.time, TimeSlotGrid.Booked, selectedTime) == TimeSlotGrid.NoCall
    ensures !Routes.SlotTaken(day, b.time)
  {
  }

  /** The hour of every grid slot: 15 to 23, then 0 to 2. */
  lemma SlotHourOf(i: nat)
    requires i < TimeSlotGrid.SlotCount
    ensures ClientUtils.HourOf(TimeSlotGrid.SlotTime(i)) == Some(TimeSlotGrid.SlotHour(i) as int)
  {
    if i < 9 {
      EveningSlotHourOf(i);
    } else {
      MorningSlotHourOf(i);
    }
  }

  lemma EveningSlotHourOf(i: nat)
    requires i < 9
    ensures ClientUtils.HourOf(TimeSlotGrid.SlotTime(i)) == Some(TimeSlotGrid.SlotHour(i) as int)
  {
    var hour := TimeSlotGrid.SlotHour(i);
    var digits := NatToString(hour);
    assert TimeSlotGrid.SlotTime(i) == digits + ":00";
    assert IntToString(hour) == digits;
    HourOfTime(hour, "00");
    assert digits + ":" + "00" == digits + ":00";
  }

  lemma MorningSlotHourOf(i: nat)
    requires 9 <= i < TimeSlotGrid.SlotCount
    ensures ClientUtils.HourOf(TimeSlotGrid.SlotTime(i)) == Some(TimeSlotGrid.SlotHour(i) as int)
  {
    var hour: nat := i - 9;
    var padded := ['0', DigitChar(hour)];
    assert TimeSlotGrid.SlotTime(i) == padded + ":" + "00" by {
      TimeSlotGrid.MorningTimeSpelledOut(i);
      TimeSlotGrid.OneDigit(hour);
    }
    HourOfPaddedTime(hour, "00");
  }

  /** `isValidBookingTime` accepts only the grid's slots 16:00 to 22:00: the
      first slot (15:00) and the last four (23:00 to 02:00) are refused. */
  lemma GridSlotsOutsideBookingHours(i: nat)
    requires i < TimeSlotGrid.SlotCount
    ensures ClientUtils.IsValidBookingTime(TimeSlotGrid.SlotTime(i)) <==> 1 <= i <= 7
  {
    SlotHourOf(i);
  }

  /** `formatArabicTime` labels every slot as the grid does except midnight,
      which the grid shows as "12:00 ص" and `formatArabicTime` (and with it
      the booking form's time label) as "0:00 ص". */
  lemma GridLabelsAgreeExceptMidnight(i: nat)
    requires i < TimeSlotGrid.SlotCount
    ensures ClientUtils.FormatArabicTime(TimeSlotGrid.SlotTime(i)) == TimeSlotGrid.SlotDisplay(i) <==> i != 9
  {
    SlotHourOf(i);
    var hour := TimeSlotGrid.SlotHour(i) as int;
    assert ClientUtils.FormatArabicTime(TimeSlotGrid.SlotTime(i)) == ClientUtils.HourLabel(Some(hour));
    if i < 9 {
      EveningLabel(i);
    } else if i == 9 {
      MidnightLabel();
    } else {
      MorningLabel(i);
    }
  }

  lemma EveningLabel(i: nat)
    requires i < 9
    ensures ClientUtils.HourLabel(Some(TimeSlotGrid.SlotHour(i) as int)) == TimeSlotGrid.SlotDisplay(i)
  {
    var hour := TimeSlotGrid.SlotHour(i);
    assert ClientUtils.DisplayHour(Some(hour as int)) == Some(hour - 12);
    assert IntToString(hour - 12) == NatToString(hour - 12);
  }

  lemma MorningLabel(i: nat)
    requires 10 <= i < TimeSlotGrid.SlotCount
    ensures ClientUtils.HourLabel(Some(TimeSlotGrid.SlotHour(i) as int)) == TimeSlotGrid.SlotDisplay(i)
  {
    var hour := TimeSlotGrid.SlotHour(i);
    assert ClientUtils.DisplayHour(Some(hour as int)) == Some(hour as int);
    assert IntToString(hour) == NatToString(hour);
  }

  lemma MidnightLabel()
    ensures ClientUtils.HourLabel(Some(0)) != TimeSlotGrid.SlotDisplay(9)
  {
    TimeSlotGrid.OneDigit(0);
    TimeSlotGrid.TwoDigits(12);
    assert ClientUtils.HourLabel(Some(0))[0] == '0';
    assert TimeSlotGrid.SlotDisplay(9)[0] == '1';
  }

  /** The booking form's range label for an hour-23 time, such as the
      grid's 23:00 slot (see `SlotHourOf`), ends at "12:00 م": the next
      hour, 24, is not wrapped, so midnight is labelled as evening. */
  lemma LastEveningRangeEndsInEvening(time: string)
    requires ClientUtils.HourOf(time) == Some(23)
    ensures BookingForm.FormatTime(time) == "11:00 م" + " - " + "12:00 م"
  {
    BookingForm.FormatTimeOfParsedHour(time, 23);
    LateHourLabels();
  }

  /** The booking form's range label for an hour-0 time, such as the grid's
      00:00 slot, starts at "0:00 ص", where the grid shows "12:00 ص". */
  lemma MidnightRangeStartsAtZero(time: string)
    requires ClientUtils.HourOf(time) == Some(0)
    ensures BookingForm.FormatTime(time) == "0:00 ص" + " - " + "1:00 ص"
  {
    BookingForm.FormatTimeOfParsedHour(time, 0);
    EarlyHourLabels();
  }

  lemma EarlyHourLabels()
    ensures ClientUtils.HourLabel(Some(0)) == "0:00 ص"
    ensures ClientUtils.HourLabel(Some(1)) == "1:00 ص"
  {
    TimeSlotGrid.OneDigit(0);
    TimeSlotGrid.OneDigit(1);
  }

  lemma LateHourLabels()
    ensures ClientUtils.HourLabel(Some(23)) == "11:00 م"
    ensures ClientUtils.HourLabel(Some(24)) == "12:00 م"
  {
    TimeSlotGrid.TwoDigits(11);
    TimeSlotGrid.TwoDigits(12);
  }
}
