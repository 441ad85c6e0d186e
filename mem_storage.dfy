/** `MemStorage` of server/storage.ts: an id-keyed map of bookings and an id
    counter, together with the queries every storage answers (bookings of one
    day and date, all bookings newest first, the statistics summary).

    A JavaScript `Map` iterates in insertion order. Every key is inserted once,
    with the counter's current value, and the counter only grows, so insertion
    order is ascending key order: `ValuesFrom` lists the map that way. */
module MemStore {
  import opened Text
  import opened Schema

  // ---------------------------------------------------------------------------
  // Queries over a list of bookings, shared by every storage

  /** `filter(b => b.day === day && b.date === date)`. */
  function OnDay(bs: seq<Booking>, day: string, date: string): (r: seq<Booking>)
    ensures |r| <= |bs|
    ensures forall b :: b in r <==> b in bs && b.day == day && b.date == date
  {
    if bs == [] then []
    else
      (if bs[0].day == day && bs[0].date == date then [bs[0]] else [])
      + OnDay(bs[1..], day, date)
  }

  /** `filter(b => b.date === today).length`. */
  function CountOnDate(bs: seq<Booking>, today: string): (n: nat)
    ensures n <= |bs|
    ensures n == 0 <==> forall b :: b in bs ==> b.date != today
  {
    if bs == [] then 0
    else (if bs[0].date == today then 1 else 0) + CountOnDate(bs[1..], today)
  }

  /** `filter(b => new Date(b.createdAt) >= since).length`. */
  function CountCreatedSince(bs: seq<Booking>, since: int): (n: nat)
    ensures n <= |bs|
    ensures n == 0 <==> forall b :: b in bs ==> b.createdAt < since
  {
    if bs == [] then 0
    else (if bs[0].createdAt >= since then 1 else 0) + CountCreatedSince(bs[1..], since)
  }

  predicate NewestFirst(bs: seq<Booking>)
  {
    forall i, j :: 0 <= i < j < |bs| ==> bs[i].createdAt >= bs[j].createdAt
  }

  /** Places `b` before the first element that is not newer than it. */
  function InsertByNewest(b: Booking, bs: seq<Booking>): seq<Booking>
  {
    if bs == [] || bs[0].createdAt <= b.createdAt then [b] + bs
    else [bs[0]] + InsertByNewest(b, bs[1..])
  }

  /** `sort((a, b) => b.createdAt - a.createdAt)`: a stable sort; it keeps
      exactly the given bookings and orders them newest first. */
  function SortNewestFirst(bs: seq<Booking>): (r: seq<Booking>)
    ensures multiset(r) == multiset(bs)
    ensures NewestFirst(r)
  {
    if bs == [] then []
    else
      var rest := SortNewestFirst(bs[1..]);
      InsertByNewestPermutes(bs[0], rest);
      InsertByNewestSorted(bs[0], rest);
      assert bs == [bs[0]] + bs[1..];
      InsertByNewest(bs[0], rest)
  }

  lemma {:induction false} InsertByNewestPermutes(b: Booking, bs: seq<Booking>)
    ensures multiset(InsertByNewest(b, bs)) == multiset(bs) + multiset{b}
  {
    if bs != [] && bs[0].createdAt > b.createdAt {
      InsertByNewestPermutes(b, bs[1..]);
      assert bs == [bs[0]] + bs[1..];
    }
  }

  lemma {:induction false} InsertByNewestSorted(b: Booking, bs: seq<Booking>)
    requires NewestFirst(bs)
    ensures NewestFirst(InsertByNewest(b, bs))
  {
    if bs != [] && bs[0].createdAt > b.createdAt {
      var tail := bs[1..];
      assert NewestFirst(tail);
      InsertByNewestSorted(b, tail);
      InsertByNewestPermutes(b, tail);
      var r := InsertByNewest(b, tail);
      forall x | x in r ensures x.createdAt <= bs[0].createdAt {
        assert x in multiset(r);
        if x != b {
          assert x in multiset(tail);
          assert x in tail;
        }
      }
    }
  }

  // ---------------------------------------------------------------------------
  // Statistics

  /** `7 * 24 * 60 * 60 * 1000`. */
  const WeekMs: int := 7 * 24 * 60 * 60 * 1000

  /** "100 SAR per booking". */
  const PricePerBooking: nat := 100

  /** "7 days * 8 hours = 56 total slots". */
  const WeeklySlots: nat := 56

  /** `Math.round(n / d)` for `n >= 0`: the integer r with
      `r - 1/2 <= n/d < r + 1/2`, so halves round up. */
  function RoundHalfUp(n: nat, d: nat): (r: nat)
    requires d > 0
    ensures 2 * d * r <= 2 * n + d < 2 * d * r + 2 * d
  {
    var q := (2 * n + d) / (2 * d);
    assert 2 * n + d == 2 * d * q + (2 * n + d) % (2 * d);
    q
  }

  function Min(a: int, b: int): int { if a <= b then a else b }

  /** The summary computed by `getBookingStats` from the stored bookings:
      today's count is by date, the week's count by creation time. */
  function MemStats(bs: seq<Booking>, today: string, now: int): (s: Stats)
    ensures s.todayBookings == CountOnDate(bs, today)
    ensures s.weekBookings == CountCreatedSince(bs, now - WeekMs)
    ensures s.todayBookings <= |bs| && s.weekBookings <= |bs|
    ensures s.revenue == PricePerBooking * s.weekBookings
    ensures 0.0 <= s.occupancy <= 100.0
    ensures s.occupancy == 100.0 ==> s.weekBookings * 200 + 56 >= 100 * 112
    ensures bs == [] ==> s == Stats(0, 0, 0, 0.0)
  {
    var todayBookings := CountOnDate(bs, today);
    var weekBookings := CountCreatedSince(bs, now - WeekMs);
    var occupancy := Min(RoundHalfUp(weekBookings * 100, WeeklySlots), 100);
    Stats(todayBookings, weekBookings, weekBookings * PricePerBooking, occupancy as real)
  }

  /** Occupancy is the weekly count as a rounded percentage of 56 slots,
      capped at 100. */
  lemma MemOccupancyIsRoundedPercentage(bs: seq<Booking>, today: string, now: int)
    ensures var s := MemStats(bs, today, now);
      var pct := RoundHalfUp(s.weekBookings * 100, WeeklySlots);
      && 112 * pct <= 200 * s.weekBookings + 56 < 112 * pct + 112
      && s.occupancy == (if pct <= 100 then pct else 100) as real
  {
    var s := MemStats(bs, today, now);
  }

  /** A booking dated today is counted once more. */
  lemma {:induction false} CountOnDateAppend(bs: seq<Booking>, b: Booking, today: string)
    ensures CountOnDate(bs + [b], today) == CountOnDate(bs, today) + (if b.date == today then 1 else 0)
  {
    if bs != [] {
      assert (bs + [b])[1..] == bs[1..] + [b];
      CountOnDateAppend(bs[1..], b, today);
    } else {
      assert [b][1..] == [];
    }
  }

  /** A booking created at or after the bound is counted once more. */
  lemma {:induction false} CountCreatedSinceAppend(bs: seq<Booking>, b: Booking, since: int)
    ensures CountCreatedSince(bs + [b], since)
         == CountCreatedSince(bs, since) + (if b.createdAt >= since then 1 else 0)
  {
    if bs != [] {
      assert (bs + [b])[1..] == bs[1..] + [b];
      CountCreatedSinceAppend(bs[1..], b, since);
    } else {
      assert [b][1..] == [];
    }
  }

  /** One more stored booking adds one to today's count exactly when it is
      dated today, and one to the week's count (and 100 to the revenue)
      exactly when it was created within the week. */
  lemma MemStatsAppend(bs: seq<Booking>, b: Booking, today: string, now: int)
    ensures var s := MemStats(bs, today, now);
      var t := MemStats(bs + [b], today, now);
      && t.todayBookings == s.todayBookings + (if b.date == today then 1 else 0)
      && t.weekBookings == s.weekBookings + (if b.createdAt >= now - WeekMs then 1 else 0)
      && t.revenue == s.revenue + (if b.createdAt >= now - WeekMs then PricePerBooking else 0)
  {
    CountOnDateAppend(bs, b, today);
    CountCreatedSinceAppend(bs, b, now - WeekMs);
  }

  // ---------------------------------------------------------------------------
  // The map, in iteration order

  /** The map's values for keys `lo .. hi - 1`, in ascending key order. */
  function ValuesFrom(m: map<nat, Booking>, lo: nat, hi: nat): (r: seq<Booking>)
    requires forall k :: k in m ==> m[k].id == k
    ensures forall i :: 0 <= i < |r| ==> lo <= r[i].id < hi && r[i].id in m && m[r[i].id] == r[i]
    ensures forall i, j :: 0 <= i < j < |r| ==> r[i].id < r[j].id
    ensures forall k :: lo <= k < hi && k in m ==> m[k] in r
    decreases hi - lo
  {
    if lo >= hi then []
    else
      var rest := ValuesFrom(m, lo + 1, hi);
      var r := if lo in m then [m[lo]] + rest else rest;
      ValuesFromStep(m, lo, hi, rest, r);
      r
  }

  predicate ListsRange(m: map<nat, Booking>, lo: nat, hi: nat, r: seq<Booking>)
  {
    && (forall i :: 0 <= i < |r| ==> lo <= r[i].id < hi && r[i].id in m && m[r[i].id] == r[i])
    && (forall i, j :: 0 <= i < j < |r| ==> r[i].id < r[j].id)
    && (forall k :: lo <= k < hi && k in m ==> m[k] in r)
  }

  /** Putting key `lo`'s booking in front of the listing of `lo + 1 .. hi - 1`
      lists `lo .. hi - 1`. */
  lemma ValuesFromStep(m: map<nat, Booking>, lo: nat, hi: nat, rest: seq<Booking>, r: seq<Booking>)
    requires lo < hi
    requires forall k :: k in m ==> m[k].id == k
    requires ListsRange(m, lo + 1, hi, rest)
    requires r == if lo in m then [m[lo]] + rest else rest
    ensures ListsRange(m, lo, hi, r)
  {
    if lo in m {
      assert r[1..] == rest;
      ConsEntries(m, lo, hi, rest, r);
      ConsAscending(rest, r);
      forall k | lo <= k < hi && k in m
        ensures m[k] in r
      {
        if k > lo { assert m[k] in rest; }
      }
    }
  }

  lemma ConsEntries(m: map<nat, Booking>, lo: nat, hi: nat, rest: seq<Booking>, r: seq<Booking>)
    requires lo < hi && lo in m && m[lo].id == lo
    requires forall i :: 0 <= i < |rest| ==> lo + 1 <= rest[i].id < hi && rest[i].id in m && m[rest[i].id] == rest[i]
    requires r == [m[lo]] + rest
    ensures forall i :: 0 <= i < |r| ==> lo <= r[i].id < hi && r[i].id in m && m[r[i].id] == r[i]
  {
    forall i | 0 <= i < |r|
      ensures lo <= r[i].id < hi && r[i].id in m && m[r[i].id] == r[i]
    {
      if i > 0 { assert r[i] == rest[i - 1]; }
    }
  }

  lemma ConsAscending(rest: seq<Booking>, r: seq<Booking>)
    requires r != [] && r[1..] == rest
    requires forall i :: 0 <= i < |rest| ==> r[0].id < rest[i].id
    requires forall i, j :: 0 <= i < j < |rest| ==> rest[i].id < rest[j].id
    ensures forall i, j :: 0 <= i < j < |r| ==> r[i].id < r[j].id
  {
    forall i, j | 0 <= i < j < |r|
      ensures r[i].id < r[j].id
    {
      assert r[j] == rest[j - 1];
      if i > 0 { assert r[i] == rest[i - 1]; }
    }
  }

  class MemStorage {
    var bookings: map<nat, Booking>
    var currentId: nat

    /** Every key is below the counter and is the id of its booking. */
    ghost predicate Valid()
      reads this
    {
      && currentId >= 1
      && forall k :: k in bookings ==> 1 <= k < currentId && bookings[k].id == k
    }

    constructor()
      ensures Valid()
      ensures bookings == map[] && currentId == 1
    {
      bookings := map[];
      currentId := 1;
    }

    /** `Array.from(this.bookings.values())`. */
    function Values(): (r: seq<Booking>)
      reads this
      requires Valid()
      ensures forall b :: b in r <==> b in bookings.Values
      ensures forall i, j :: 0 <= i < j < |r| ==> r[i].id < r[j].id
    {
      var r := ValuesFrom(bookings, 1, currentId);
      assert forall b :: b in bookings.Values ==> b in r by {
        forall b | b in bookings.Values ensures b in r {
          var k :| k in bookings && bookings[k] == b;
        }
      }
      r
    }

    /** `this.bookings.get(id)`. */
    function GetBooking(id: int): (r: Option<Booking>)
      reads this
      requires Valid()
      ensures r.Some? <==> id in bookings
      ensures r.Some? ==> r.value.id == id && r.value in bookings.Values
    {
      if id >= 0 && id in bookings then Some(bookings[id]) else None
    }

    /** All bookings, newest first. */
    function GetAllBookings(): (r: seq<Booking>)
      reads this
      requires Valid()
      ensures multiset(r) == multiset(Values())
      ensures NewestFirst(r)
    {
      SortNewestFirst(Values())
    }

    /** The stored bookings with this day and date, whatever their status. */
    function GetBookingsByDay(day: string, date: string): (r: seq<Booking>)
      reads this
      requires Valid()
      ensures forall b :: b in r <==> b in bookings.Values && b.day == day && b.date == date
    {
      OnDay(Values(), day, date)
    }

    /** The new booking takes the counter's value as its id; the counter
        moves on, so ids are never reused. */
    method CreateBooking(input: InsertBooking, now: int) returns (b: Booking)
      requires Valid()
      modifies this
      ensures Valid()
      ensures b == Booking(old(currentId), input.customerName, input.customerPhone,
                           input.notes, input.day, input.time, input.date,
                           input.status, now)
      ensures forall k :: k in old(bookings) ==> k < b.id
      ensures bookings == old(bookings)[b.id := b]
      ensures currentId == old(currentId) + 1
      ensures GetBooking(b.id) == Some(b)
      ensures forall k :: k != b.id ==> GetBooking(k) == old(GetBooking(k))
    {
      var id := currentId;
      currentId := currentId + 1;
      b := Booking(id, input.customerName, input.customerPhone, input.notes,
                   input.day, input.time, input.date, input.status, now);
      bookings := bookings[id := b];
    }

    /** `this.bookings.delete(id)`: whether the id was present; it is absent
        afterwards, so a second delete answers false. */
    method DeleteBooking(id: int) returns (deleted: bool)
      requires Valid()
      modifies this
      ensures Valid()
      ensures deleted <==> id in old(bookings)
      ensures id >= 0 ==> bookings == old(bookings) - {id as nat}
      ensures id < 0 ==> bookings == old(bookings)
      ensures GetBooking(id).None?
      ensures currentId == old(currentId)
    {
      deleted := id >= 0 && id in bookings;
      if id >= 0 {
        bookings := bookings - {id as nat};
      }
    }

    /** The statistics for the given date string and time, computed from
        the stored bookings. */
    function GetBookingStats(today: string, now: int): (s: Stats)
      reads this
      requires Valid()
      ensures s == MemStats(Values(), today, now)
      ensures s.todayBookings == CountOnDate(Values(), today)
      ensures s.weekBookings == CountCreatedSince(Values(), now - WeekMs)
      ensures s.revenue == PricePerBooking * s.weekBookings
      ensures 0.0 <= s.occupancy <= 100.0
      ensures s.todayBookings <= |Values()| && s.weekBookings <= |Values()|
      ensures bookings == map[] ==> s == Stats(0, 0, 0, 0.0)
    {
      MemStats(Values(), today, now)
    }
  }
}
