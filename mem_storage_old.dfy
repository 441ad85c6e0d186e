/** The earlier `MemStorage` of server/storage-old.ts (lines 158-230). It
    differs from the current one only in `createBooking`, which replaces a
    falsy `notes` by null and a falsy `status` by "confirmed". The queries are
    the shared ones of `MemStore`. */
module MemStoreOld {
  import opened Text
  import opened Schema
  import MemStore

  /** `insertBooking.status || "confirmed"`. */
  function StatusOrDefault(status: string): (r: string)
    ensures r != ""
    ensures status != "" ==> r == status
    ensures status == "" ==> r == DefaultStatus
  {
    if status != "" then status else DefaultStatus
  }

  class MemStorage {
    var bookings: map<nat, Booking>
    var currentId: nat

    ghost predicate Valid()
      reads this
    {
      && currentId >= 1
      && forall k :: k in bookings ==> 1 <= k < currentId && bookings[k].id == k
    }

    /** Every stored booking has a non-empty status and a note that is either
        null or a non-empty string. */
    ghost predicate Normalised()
      reads this
    {
      forall k :: k in bookings ==>
        bookings[k].status != "" && (bookings[k].notes.Null? || Truthy(bookings[k].notes))
    }

    constructor()
      ensures Valid() && Normalised()
      ensures bookings == map[] && currentId == 1
    {
      bookings := map[];
      currentId := 1;
    }

    function Values(): (r: seq<Booking>)
      reads this
      requires Valid()
      ensures forall b :: b in r <==> b in bookings.Values
      ensures forall i, j :: 0 <= i < j < |r| ==> r[i].id < r[j].id
    {
      var r := MemStore.ValuesFrom(bookings, 1, currentId);
      assert forall b :: b in bookings.Values ==> b in r by {
        forall b | b in bookings.Values ensures b in r {
          var k :| k in bookings && bookings[k] == b;
        }
      }
      r
    }

    function GetBooking(id: int): (r: Option<Booking>)
      reads this
      requires Valid()
      ensures r.Some? <==> id in bookings
      ensures r.Some? ==> r.value.id == id && r.value in bookings.Values
    {
      if id >= 0 && id in bookings then Some(bookings[id]) else None
    }

    function GetAllBookings(): (r: seq<Booking>)
      reads this
      requires Valid()
      ensures multiset(r) == multiset(Values())
      ensures MemStore.NewestFirst(r)
    {
      MemStore.SortNewestFirst(Values())
    }

    /** No status filter: cancelled and pending bookings are listed too. */
    function GetBookingsByDay(day: string, date: string): (r: seq<Booking>)
      reads this
      requires Valid()
      ensures forall b :: b in r <==> b in bookings.Values && b.day == day && b.date == date
    {
      MemStore.OnDay(Values(), day, date)
    }

    method CreateBooking(input: InsertBooking, now: int) returns (b: Booking)
      requires Valid()
      modifies this
      ensures Valid()
      ensures Normalised() <== old(Normalised())
      ensures b == Booking(old(currentId), input.customerName, input.customerPhone,
                           NotesOrNull(input.notes), input.day, input.time, input.date,
                           StatusOrDefault(input.status), now)
      ensures forall k :: k in old(bookings) ==> k < b.id
      ensures bookings == old(bookings)[b.id := b]
      ensures currentId == old(currentId) + 1
    {
      var id := currentId;
      currentId := currentId + 1;
      b := Booking(id, input.customerName, input.customerPhone, NotesOrNull(input.notes),
                   input.day, input.time, input.date, StatusOrDefault(input.status), now);
      bookings := bookings[id := b];
    }

    method DeleteBooking(id: int) returns (deleted: bool)
      requires Valid()
      modifies this
      ensures Valid()
      ensures Normalised() <== old(Normalised())
      ensures deleted <==> id in old(bookings)
      ensures id >= 0 ==> bookings == old(bookings) - {id as nat}
      ensures id < 0 ==> bookings == old(bookings)
      ensures currentId == old(currentId)
    {
      deleted := id >= 0 && id in bookings;
      if id >= 0 {
        bookings := bookings - {id as nat};
      }
    }

    /** The same summary as the current store, computed from the stored
        bookings. */
    function GetBookingStats(today: string, now: int): (s: Stats)
      reads this
      requires Valid()
      ensures s == MemStore.MemStats(Values(), today, now)
      ensures s.todayBookings == MemStore.CountOnDate(Values(), today)
      ensures s.weekBookings == MemStore.CountCreatedSince(Values(), now - MemStore.WeekMs)
      ensures s.revenue == MemStore.PricePerBooking * s.weekBookings
      ensures 0.0 <= s.occupancy <= 100.0
      ensures s.todayBookings <= |Values()| && s.weekBookings <= |Values()|
      ensures bookings == map[] ==> s == Stats(0, 0, 0, 0.0)
    {
      MemStore.MemStats(Values(), today, now)
    }
  }
}
