/** `DatabaseStorage` of server/database-storage.ts: the `bookings` table as a
    sequence of rows in insertion order, plus the value the `serial` id column
    hands out next. A failing database call is a `fails` parameter: every
    method catches it, and all but `createBooking` turn it into an ordinary
    answer. */
module DbStore {
  import opened Text
  import opened Schema
  import MemStore

  /** "7000 IQD per booking". */
  const PricePerBooking: nat := 7000

  /** "14 slots per day max". */
  const DailySlots: nat := 14

  predicate IdsAscending(rows: seq<Booking>)
  {
    forall i, j :: 0 <= i < j < |rows| ==> rows[i].id < rows[j].id
  }

  /** The range of the `serial` id column, a PostgreSQL `integer`. */
  const Int4Min: int := -0x8000_0000
  const Int4Max: int := 0x7FFF_FFFF

  /** Whether PostgreSQL accepts the id as an `integer` parameter. The NaN
      that `parseInt` yields for a malformed path segment (`None`) and a
      value outside 32 bits are refused, and the query throws. */
  predicate IdFitsColumn(id: Option<int>)
  {
    id.Some? && Int4Min <= id.value <= Int4Max
  }

  /** `delete(bookings).where(eq(bookings.id, id))` for an id the column
      accepts. */
  function WithoutId(rows: seq<Booking>, id: int): (r: seq<Booking>)
    ensures |r| <= |rows|
    ensures forall b :: b in r <==> b in rows && b.id != id
    ensures IdsAscending(rows) ==> IdsAscending(r)
  {
    if rows == [] then []
    else
      var rest := WithoutId(rows[1..], id);
      assert forall b :: b in rest ==> b in rows[1..];
      AscendingTail(rows);
      if rows[0].id == id then rest else [rows[0]] + rest
  }

  /** In ascending rows, the tail is ascending and every row of it has a
      larger id than the head. */
  lemma AscendingTail(rows: seq<Booking>)
    requires rows != []
    ensures IdsAscending(rows) ==> IdsAscending(rows[1..])
    ensures IdsAscending(rows) ==> forall b :: b in rows[1..] ==> rows[0].id < b.id
  {
    if IdsAscending(rows) {
      forall b | b in rows[1..]
        ensures rows[0].id < b.id
      {
        var k :| 0 <= k < |rows[1..]| && rows[1..][k] == b;
        assert rows[k + 1] == b;
      }
    }
  }

  /** `filter(booking => new Date(booking.date) >= weekAgo).length`, where
      `parseDate` stands for `new Date(...)` and `None` for an invalid date,
      which compares false. */
  function CountDatedSince(rows: seq<Booking>, since: int, parseDate: string -> Option<int>): (n: nat)
    ensures n <= |rows|
    ensures n == 0 <==> forall b :: b in rows ==> !DatedSince(b, since, parseDate)
  {
    if rows == [] then 0
    else
      (if DatedSince(rows[0], since, parseDate) then 1 else 0)
      + CountDatedSince(rows[1..], since, parseDate)
  }

  /** A row dated at or after the bound is counted once more. */
  lemma {:induction false} CountDatedSinceAppend(rows: seq<Booking>, b: Booking, since: int,
                                                 parseDate: string -> Option<int>)
    ensures CountDatedSince(rows + [b], since, parseDate)
         == CountDatedSince(rows, since, parseDate) + (if DatedSince(b, since, parseDate) then 1 else 0)
  {
    if rows != [] {
      assert (rows + [b])[1..] == rows[1..] + [b];
      CountDatedSinceAppend(rows[1..], b, since, parseDate);
    } else {
      assert [b][1..] == [];
    }
  }

  predicate DatedSince(b: Booking, since: int, parseDate: string -> Option<int>)
  {
    parseDate(b.date).Some? && parseDate(b.date).value >= since
  }

  /** The summary `getBookingStats` computes from the rows it managed to read:
      the week is judged by the booking's own date, not by `createdAt`, and
      occupancy is today's count as an unrounded share of 14 daily slots. */
  function DbStats(rows: seq<Booking>, today: string, now: int, parseDate: string -> Option<int>): (s: Stats)
    ensures s.todayBookings == MemStore.CountOnDate(rows, today)
    ensures s.weekBookings == CountDatedSince(rows, now - MemStore.WeekMs, parseDate)
    ensures s.todayBookings <= |rows| && s.weekBookings <= |rows|
    ensures s.revenue == PricePerBooking * s.weekBookings
    ensures 0.0 <= s.occupancy <= 100.0
    ensures s.occupancy == 100.0 <==> s.todayBookings >= DailySlots
    ensures s.occupancy < 100.0 ==> s.occupancy * (DailySlots as real) == (s.todayBookings * 100) as real
    ensures rows == [] ==> s == Stats(0, 0, 0, 0.0)
  {
    var todayBookings := MemStore.CountOnDate(rows, today);
    var weekBookings := CountDatedSince(rows, now - MemStore.WeekMs, parseDate);
    var share := (todayBookings as real / DailySlots as real) * 100.0;
    Stats(todayBookings, weekBookings, weekBookings * PricePerBooking,
          if share <= 100.0 then share else 100.0)
  }

  /** One more row adds one to today's count exactly when it is dated
      today, and one to the week's count (and 7000 to the revenue) exactly
      when its date parses to a time within the week. */
  lemma DbStatsAppend(rows: seq<Booking>, b: Booking, today: string, now: int, parseDate: string -> Option<int>)
    ensures var s := DbStats(rows, today, now, parseDate);
      var t := DbStats(rows + [b], today, now, parseDate);
      var inWeek := DatedSince(b, now - MemStore.WeekMs, parseDate);
      && t.todayBookings == s.todayBookings + (if b.date == today then 1 else 0)
      && t.weekBookings == s.weekBookings + (if inWeek then 1 else 0)
      && t.revenue == s.revenue + (if inWeek then PricePerBooking else 0)
  {
    MemStore.CountOnDateAppend(rows, b, today);
    CountDatedSinceAppend(rows, b, now - MemStore.WeekMs, parseDate);
  }

  class DatabaseStorage {
    var rows: seq<Booking>
    var nextId: nat

    /** Serial ids: ascending in insertion order and below the next one. */
    ghost predicate Valid()
      reads this
    {
      && nextId >= 1
      && (forall i :: 0 <= i < |rows| ==> 1 <= rows[i].id < nextId)
      && IdsAscending(rows)
    }

    constructor()
      ensures Valid()
      ensures rows == [] && nextId == 1
    {
      rows := [];
      nextId := 1;
    }

    /** `select ... where id = ?`; a failure reads as "not found". */
    function GetBooking(id: int, fails: bool): (r: Option<Booking>)
      reads this
      ensures fails ==> r == None
      ensures r.Some? ==> r.value in rows && r.value.id == id
      ensures !fails && (exists b :: b in rows && b.id == id) ==> r.Some?
    {
      if fails then None else FirstWithId(rows, id)
    }

    /** `select().from(bookings)`; a failure reads as an empty table. */
    function GetAllBookings(fails: bool): (r: seq<Booking>)
      reads this
      ensures fails ==> r == []
      ensures !fails ==> multiset(r) == multiset(rows)
    {
      if fails then [] else rows
    }

    /** Rows with this day and date, of any status; a failure reads as none. */
    function GetBookingsByDay(day: string, date: string, fails: bool): (r: seq<Booking>)
      reads this
      ensures fails ==> r == []
      ensures !fails ==> forall b :: b in r <==> b in rows && b.day == day && b.date == date
    {
      if fails then [] else MemStore.OnDay(rows, day, date)
    }

    /** Inserts `insertBooking` with `notes || null`; the table supplies the
        id and `created_at`. A failure is rethrown, modelled as `None`. */
    method CreateBooking(input: InsertBooking, now: int, fails: bool) returns (r: Option<Booking>)
      requires Valid()
      modifies this
      ensures Valid()
      ensures fails ==> r == None && rows == old(rows) && nextId == old(nextId)
      ensures !fails ==> r == Some(Booking(old(nextId), input.customerName, input.customerPhone,
                                           NotesOrNull(input.notes), input.day, input.time,
                                           input.date, input.status, now))
      ensures !fails ==> rows == old(rows) + [r.value] && nextId == old(nextId) + 1
    {
      if fails {
        return None;
      }
      var b := Booking(nextId, input.customerName, input.customerPhone, NotesOrNull(input.notes),
                       input.day, input.time, input.date, input.status, now);
      rows := rows + [b];
      nextId := nextId + 1;
      r := Some(b);
    }

    /** Deletes the rows with this id and answers true, whether or not any
        row matched. A database failure, or an id the column refuses (which
        makes the query throw), answers false and deletes nothing. */
    method DeleteBooking(id: Option<int>, fails: bool) returns (ok: bool)
      requires Valid()
      modifies this
      ensures Valid()
      ensures ok <==> !fails && IdFitsColumn(id)
      ensures !ok ==> rows == old(rows)
      ensures ok ==> rows == WithoutId(old(rows), id.value)
      ensures nextId == old(nextId)
    {
      if fails || !IdFitsColumn(id) {
        return false;
      }
      rows := WithoutId(rows, id.value);
      ok := true;
    }

    /** The statistics; reading through `getAllBookings`, a failure yields
        the all-zero summary. */
    function GetBookingStats(today: string, now: int, parseDate: string -> Option<int>, fails: bool): (s: Stats)
      reads this
      ensures fails ==> s == Stats(0, 0, 0, 0.0)
      ensures !fails ==> s == DbStats(rows, today, now, parseDate)
      ensures !fails ==> s.todayBookings == MemStore.CountOnDate(rows, today)
      ensures !fails ==> s.weekBookings == CountDatedSince(rows, now - MemStore.WeekMs, parseDate)
      ensures s.revenue == PricePerBooking * s.weekBookings
      ensures 0.0 <= s.occupancy <= 100.0
      ensures s.todayBookings <= |rows| && s.weekBookings <= |rows|
    {
      DbStats(GetAllBookings(fails), today, now, parseDate)
    }
  }

  /** The first row with this id. */
  function FirstWithId(rows: seq<Booking>, id: int): (r: Option<Booking>)
    ensures r.Some? ==> r.value in rows && r.value.id == id
    ensures r.None? ==> forall b :: b in rows ==> b.id != id
  {
    if rows == [] then None
    else if rows[0].id == id then Some(rows[0])
    else FirstWithId(rows[1..], id)
  }
}
