/** The request handlers of server/routes.ts that decide something: creating
    a booking (gate, validation, slot check, insert), deleting one, and the
    administrator login. The store behind them is `DatabaseStorage`, which
    routes.ts imports. Requests are handled one at a time. */
module Routes {
  import opened Text
  import opened Schema
  import SimpleAuth
  import MemStore
  import DbStore

  const Confirmed: string := "confirmed"

  predicate IsConfirmed(b: Booking) { b.status == Confirmed }

  predicate SameSlot(a: Booking, b: Booking) { a.day == b.day && a.date == b.date && a.time == b.time }

  /** `existingBookings.some(b => b.time === time && b.status === "confirmed")`. */
  function SlotTaken(existing: seq<Booking>, time: string): (taken: bool)
    ensures taken <==> exists b :: b in existing && b.time == time && IsConfirmed(b)
  {
    if existing == [] then false
    else (existing[0].time == time && IsConfirmed(existing[0])) || SlotTaken(existing[1..], time)
  }

  /** The booking rule: no two rows are confirmed bookings of one slot. */
  predicate OneConfirmedPerSlot(rows: seq<Booking>)
  {
    forall i, j :: 0 <= i < |rows| && 0 <= j < |rows| && i != j && IsConfirmed(rows[i]) ==>
      !(IsConfirmed(rows[j]) && SameSlot(rows[i], rows[j]))
  }

  /** Appending a booking whose slot holds no confirmed booking keeps the rule. */
  lemma AppendKeepsOneConfirmedPerSlot(rows: seq<Booking>, b: Booking)
    requires OneConfirmedPerSlot(rows)
    requires !SlotTaken(MemStore.OnDay(rows, b.day, b.date), b.time)
    ensures OneConfirmedPerSlot(rows + [b])
  {
    var r := rows + [b];
    forall i, j | 0 <= i < |r| && 0 <= j < |r| && i != j && IsConfirmed(r[i])
      ensures !(IsConfirmed(r[j]) && SameSlot(r[i], r[j]))
    {
      if i < |rows| && j < |rows| {
        assert r[i] == rows[i] && r[j] == rows[j];
      } else if i < |rows| {
        assert r[i] == rows[i] && r[j] == b;
      } else {
        assert r[i] == b && r[j] == rows[j];
      }
    }
  }

  /** Deleting rows keeps the rule. */
  lemma WithoutIdKeepsOneConfirmedPerSlot(rows: seq<Booking>, id: int)
    requires OneConfirmedPerSlot(rows)
    requires DbStore.IdsAscending(rows)
    ensures OneConfirmedPerSlot(DbStore.WithoutId(rows, id))
  {
    var r := DbStore.WithoutId(rows, id);
    forall i, j | 0 <= i < |r| && 0 <= j < |r| && i != j && IsConfirmed(r[i])
      ensures !(IsConfirmed(r[j]) && SameSlot(r[i], r[j]))
    {
      assert r[i] in rows && r[j] in rows;
      var a :| 0 <= a < |rows| && rows[a] == r[i];
      var c :| 0 <= c < |rows| && rows[c] == r[j];
      assert r[i].id != r[j].id;
      assert a != c;
    }
  }

  // ---------------------------------------------------------------------------
  // POST /api/bookings

  datatype PostReply =
    | Created(booking: Booking)
    | Invalid(fields: seq<Field>)
    | SlotAlreadyBooked
    | CreateFailed
    | Unauthorized
    | Forbidden

  function PostStatus(r: PostReply): (code: int)
    ensures code == 201 <==> r.Created?
    ensures code == 400 <==> r.Invalid? || r.SlotAlreadyBooked?
  {
    match r
    case Created(_) => 201
    case Invalid(_) => 400
    case SlotAlreadyBooked => 400
    case CreateFailed => 500
    case Unauthorized => 401
    case Forbidden => 403
  }

  /** The gate passes and the body satisfies the schema. */
  predicate Admits(header: Option<string>, verify: string -> Option<SimpleAuth.Claims>, body: RawBooking)
  {
    SimpleAuth.AuthenticateToken(header, verify).Pass? && ParseInsertBooking(body).Accepted?
  }

  /** The handler as written. A failed read of the day's bookings is
      swallowed by `getBookingsByDay` and looks like an empty day, so the
      slot check passes and the insert goes ahead. */
  method PostBooking(store: DbStore.DatabaseStorage, header: Option<string>,
                     verify: string -> Option<SimpleAuth.Claims>, body: RawBooking, now: int,
                     readFails: bool, writeFails: bool) returns (reply: PostReply)
    requires store.Valid()
    modifies store
    ensures store.Valid()
    ensures !reply.Created? ==> store.rows == old(store.rows) && store.nextId == old(store.nextId)
    ensures reply.Unauthorized? <==> SimpleAuth.AuthenticateToken(header, verify).Unauthorized?
    ensures reply.Forbidden? <==> SimpleAuth.AuthenticateToken(header, verify).Forbidden?
    ensures reply.Invalid? <==>
      SimpleAuth.AuthenticateToken(header, verify).Pass? && ParseInsertBooking(body).Rejected?
    ensures reply.Invalid? ==> reply.fields == ParseInsertBooking(body).fields
    ensures reply.SlotAlreadyBooked? <==>
      && Admits(header, verify, body) && !readFails
      && SlotTaken(MemStore.OnDay(old(store.rows), body.day.value, body.date.value), body.time.value)
    ensures reply.Created? ==>
      var input := ParseInsertBooking(body).booking;
      && Admits(header, verify, body) && !writeFails
      && reply.booking == Booking(old(store.nextId), input.customerName, input.customerPhone,
                                  NotesOrNull(input.notes), input.day, input.time, input.date,
                                  input.status, now)
      && store.rows == old(store.rows) + [reply.booking]
      && store.nextId == old(store.nextId) + 1
    ensures Admits(header, verify, body) && readFails && !writeFails ==> reply.Created?
    ensures Admits(header, verify, body) && !readFails && !writeFails
      && !SlotTaken(MemStore.OnDay(old(store.rows), body.day.value, body.date.value), body.time.value)
      ==> reply.Created?
    ensures reply.CreateFailed? <==>
      && Admits(header, verify, body) && writeFails
      && (readFails || !SlotTaken(MemStore.OnDay(old(store.rows), body.day.value, body.date.value), body.time.value))
    ensures !readFails && OneConfirmedPerSlot(old(store.rows)) ==> OneConfirmedPerSlot(store.rows)
  {
    var gate := SimpleAuth.AuthenticateToken(header, verify);
    if gate.Unauthorized? {
      return Unauthorized;
    } else if gate.Forbidden? {
      return Forbidden;
    }
    var parsed := ParseInsertBooking(body);
    if parsed.Rejected? {
      return Invalid(parsed.fields);
    }
    var input := parsed.booking;
    var existing := store.GetBookingsByDay(input.day, input.date, readFails);
    if SlotTaken(existing, input.time) {
      return SlotAlreadyBooked;
    }
    ghost var before := store.rows;
    var created := store.CreateBooking(input, now, writeFails);
    if created.None? {
      return CreateFailed;
    }
    reply := Created(created.value);
    if !readFails && OneConfirmedPerSlot(before) {
      AppendKeepsOneConfirmedPerSlot(before, created.value);
    }
  }

  /** The failure `PostBooking` lets through: the stored confirmed booking is
      invisible to a failed read, and inserting its twin breaks the rule. */
  lemma SwallowedReadAdmitsDoubleBooking(store: DbStore.DatabaseStorage, b: Booking, twin: Booking)
    requires store.rows == [b] && IsConfirmed(b)
    requires twin == b.(id := b.id + 1)
    ensures store.GetBookingsByDay(b.day, b.date, true) == []
    ensures !SlotTaken(store.GetBookingsByDay(b.day, b.date, true), b.time)
    ensures OneConfirmedPerSlot(store.rows)
    ensures !OneConfirmedPerSlot(store.rows + [twin])
  {
    var r := store.rows + [twin];
    assert r[0] == b && r[1] == twin;
  }

  /** The day's bookings, or `None` when the read fails: a read that does
      not swallow its error. */
  function ReadDay(store: DbStore.DatabaseStorage, day: string, date: string, fails: bool): (r: Option<seq<Booking>>)
    reads store
    ensures r.None? <==> fails
    ensures r.Some? ==> forall b :: b in r.value <==> b in store.rows && b.day == day && b.date == date
  {
    if fails then None else Some(MemStore.OnDay(store.rows, day, date))
  }

  /** The handler with the slot check on a read that reports failure: a
      failed read answers 500 and writes nothing, and the rule holds after
      every request. */
  method PostBookingGuarded(store: DbStore.DatabaseStorage, header: Option<string>,
                            verify: string -> Option<SimpleAuth.Claims>, body: RawBooking, now: int,
                            readFails: bool, writeFails: bool) returns (reply: PostReply)
    requires store.Valid()
    modifies store
    ensures store.Valid()
    ensures !reply.Created? ==> store.rows == old(store.rows) && store.nextId == old(store.nextId)
    ensures reply.Unauthorized? <==> SimpleAuth.AuthenticateToken(header, verify).Unauthorized?
    ensures reply.Forbidden? <==> SimpleAuth.AuthenticateToken(header, verify).Forbidden?
    ensures reply.Invalid? <==>
      SimpleAuth.AuthenticateToken(header, verify).Pass? && ParseInsertBooking(body).Rejected?
    ensures reply.SlotAlreadyBooked? <==>
      && Admits(header, verify, body) && !readFails
      && SlotTaken(MemStore.OnDay(old(store.rows), body.day.value, body.date.value), body.time.value)
    ensures reply.Created? ==>
      var input := ParseInsertBooking(body).booking;
      && Admits(header, verify, body) && !readFails && !writeFails
      && reply.booking == Booking(old(store.nextId), input.customerName, input.customerPhone,
                                  NotesOrNull(input.notes), input.day, input.time, input.date,
                                  input.status, now)
      && store.rows == old(store.rows) + [reply.booking]
      && store.nextId == old(store.nextId) + 1
    ensures Admits(header, verify, body) && !readFails && !writeFails
      && !SlotTaken(MemStore.OnDay(old(store.rows), body.day.value, body.date.value), body.time.value)
      ==> reply.Created?
    ensures reply.CreateFailed? <==>
      && Admits(header, verify, body) && (readFails || writeFails)
      && (readFails || !SlotTaken(MemStore.OnDay(old(store.rows), body.day.value, body.date.value), body.time.value))
    ensures Admits(header, verify, body) && readFails ==> reply.CreateFailed?
    ensures OneConfirmedPerSlot(old(store.rows)) ==> OneConfirmedPerSlot(store.rows)
  {
    var gate := SimpleAuth.AuthenticateToken(header, verify);
    if gate.Unauthorized? {
      return Unauthorized;
    } else if gate.Forbidden? {
      return Forbidden;
    }
    var parsed := ParseInsertBooking(body);
    if parsed.Rejected? {
      return Invalid(parsed.fields);
    }
    var input := parsed.booking;
    var existing := ReadDay(store, input.day, input.date, readFails);
    if existing.None? {
      return CreateFailed;
    }
    assert existing.value == MemStore.OnDay(store.rows, input.day, input.date);
    if SlotTaken(existing.value, input.time) {
      return SlotAlreadyBooked;
    }
    ghost var before := store.rows;
    var created := store.CreateBooking(input, now, writeFails);
    if created.None? {
      return CreateFailed;
    }
    reply := Created(created.value);
    if OneConfirmedPerSlot(before) {
      AppendKeepsOneConfirmedPerSlot(before, created.value);
    }
  }

  // ---------------------------------------------------------------------------
  // DELETE /api/bookings/:id

  /** `DeleteFailed` is the 500 of the handler's `catch`. Neither store
      throws from `deleteBooking` (the database store catches its own
      errors), so no handler below produces it. */
  datatype DeleteReply = Deleted | NotFound | DeleteFailed

  function DeleteStatus(r: DeleteReply): (code: int)
    ensures code == 404 <==> r.NotFound?
  {
    match r
    case Deleted => 200
    case NotFound => 404
    case DeleteFailed => 500
  }

  /** `if (!deleted) 404 else 200`. */
  function DeleteReplyFor(deleted: bool): (r: DeleteReply)
    ensures r.NotFound? <==> !deleted
    ensures r.Deleted? <==> deleted
  {
    if deleted then Deleted else NotFound
  }

  /** The handler over `DatabaseStorage`: the id is `parseInt` of the path
      segment. That storage answers true whenever the query runs, so 404
      means "the database failed or refused the id" (a malformed or
      out-of-range id), never "no such row". */
  method DeleteBooking(store: DbStore.DatabaseStorage, idParam: string, fails: bool) returns (reply: DeleteReply)
    requires store.Valid()
    modifies store
    ensures store.Valid()
    ensures reply.NotFound? <==> fails || !DbStore.IdFitsColumn(ParseInt(idParam))
    ensures reply.Deleted? <==> !fails && DbStore.IdFitsColumn(ParseInt(idParam))
    ensures reply.NotFound? ==> store.rows == old(store.rows)
    ensures reply.Deleted? ==> store.rows == DbStore.WithoutId(old(store.rows), ParseInt(idParam).value)
    ensures store.nextId == old(store.nextId)
    ensures !reply.DeleteFailed?
    ensures OneConfirmedPerSlot(old(store.rows)) ==> OneConfirmedPerSlot(store.rows)
  {
    ghost var before := store.rows;
    var id := ParseInt(idParam);
    var deleted := store.DeleteBooking(id, fails);
    reply := DeleteReplyFor(deleted);
    if deleted && OneConfirmedPerSlot(before) {
      WithoutIdKeepsOneConfirmedPerSlot(before, id.value);
    }
  }

  /** A request for an id that fits the column but is not stored still
      deletes nothing and is answered 200 when the database does not fail. */
  lemma MissingIdStillDeleted(rows: seq<Booking>, n: nat)
    requires n <= DbStore.Int4Max
    requires forall b :: b in rows ==> b.id != n
    ensures DbStore.IdFitsColumn(ParseInt(NatToString(n)))
    ensures DbStore.WithoutId(rows, ParseInt(NatToString(n)).value) == rows
  {
    ParseIntOfNatToString(n, "");
    assert NatToString(n) + "" == NatToString(n);
    WithoutIdOfAbsent(rows, n);
  }

  /** A path segment that starts with neither a digit, a sign nor
      whitespace parses to NaN, which the column refuses, so the handler
      answers 404. */
  lemma MalformedIdRefused(idParam: string)
    requires idParam != [] && !IsDigit(idParam[0]) && !IsSpace(idParam[0])
    requires idParam[0] != '-' && idParam[0] != '+'
    ensures !DbStore.IdFitsColumn(ParseInt(idParam))
  {
    assert TrimStart(idParam) == idParam;
    ParseIntNaN(idParam);
  }

  /** A number beyond 32 bits is refused by the column too. */
  lemma LargeIdRefused(n: nat)
    requires n > DbStore.Int4Max
    ensures !DbStore.IdFitsColumn(ParseInt(NatToString(n)))
  {
    ParseIntOfNatToString(n, "");
    assert NatToString(n) + "" == NatToString(n);
  }

  lemma {:induction false} WithoutIdOfAbsent(rows: seq<Booking>, id: int)
    requires forall b :: b in rows ==> b.id != id
    ensures DbStore.WithoutId(rows, id) == rows
  {
    if rows != [] {
      WithoutIdOfAbsent(rows[1..], id);
      assert rows == [rows[0]] + rows[1..];
    }
  }

  /** The same handler over `MemStorage`, where 404 does mean "no such id"
      (a NaN id is never a key). */
  method DeleteBookingMem(store: MemStore.MemStorage, idParam: string) returns (reply: DeleteReply)
    requires store.Valid()
    modifies store
    ensures store.Valid()
    ensures reply.NotFound? <==> !(ParseInt(idParam).Some? && ParseInt(idParam).value in old(store.bookings))
    ensures reply.Deleted? ==> store.GetBooking(ParseInt(idParam).value).None?
    ensures reply.Deleted? ==> store.bookings == old(store.bookings) - {ParseInt(idParam).value as nat}
    ensures reply.NotFound? ==> store.bookings == old(store.bookings)
    ensures store.currentId == old(store.currentId)
    ensures !reply.DeleteFailed?
  {
    var id := ParseInt(idParam);
    var deleted := false;
    if id.Some? {
      deleted := store.DeleteBooking(id.value);
    }
    reply := DeleteReplyFor(deleted);
  }

  // ---------------------------------------------------------------------------
  // POST /api/auth/login

  datatype LoginReply = LoggedIn(token: string, id: int, username: string, role: string) | BadCredentials

  function LoginStatus(r: LoginReply): (code: int)
    ensures code == 200 <==> r.LoggedIn?
    ensures code == 401 <==> r.BadCredentials?
  {
    if r.LoggedIn? then 200 else 401
  }

  /** 200 with the token and the user's id, name and role when `loginUser`
      succeeds, otherwise one and the same 401 reply. */
  function Login(username: string, password: string, passwordHash: string,
                 compare: (string, string) -> bool, sign: SimpleAuth.Claims -> string): (r: LoginReply)
    ensures r.LoggedIn? <==> SimpleAuth.LoginUser(username, password, passwordHash, compare, sign).Some?
    ensures r.LoggedIn? ==> r == LoggedIn(sign(SimpleAuth.AdminClaims), 1, "admin", "admin")
  {
    match SimpleAuth.LoginUser(username, password, passwordHash, compare, sign)
    case None => BadCredentials
    case Some(res) => LoggedIn(res.token, res.user.id, res.user.username, res.user.role)
  }

  /** A wrong name and a wrong password get the same answer. */
  lemma LoginFailureIsUniform(name: string, goodPassword: string, badPassword: string, passwordHash: string,
                              compare: (string, string) -> bool, sign: SimpleAuth.Claims -> string)
    requires name != "admin" && !compare(badPassword, passwordHash)
    ensures Login(name, goodPassword, passwordHash, compare, sign)
         == Login("admin", badPassword, passwordHash, compare, sign)
         == BadCredentials
  {
  }
}
