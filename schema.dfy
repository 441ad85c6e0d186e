/** The `bookings` record and the server-side acceptance rule for a new
    booking (`insertBookingSchema` in shared/schema.ts). */
module Schema {
  import opened Text

  /** A `notes` value as it reaches or leaves the server: absent (undefined),
      JSON null, or a string. */
  datatype Note = Absent | Null | Given(text: string)

  /** JavaScript truthiness of a `notes` value: only a non-empty string. */
  predicate Truthy(n: Note) { n.Given? && n.text != "" }

  /** `notes || null`: a falsy value becomes null. */
  function NotesOrNull(n: Note): (r: Note)
    ensures r.Null? || r.Given?
    ensures Truthy(n) ==> r == n
    ensures !Truthy(n) ==> r == Null
  {
    if Truthy(n) then n else Null
  }

  /** A stored booking; `createdAt` is a time in milliseconds. */
  datatype Booking = Booking(
    id: nat,
    customerName: string,
    customerPhone: string,
    notes: Note,
    day: string,
    time: string,
    date: string,
    status: string,
    createdAt: int)

  /** The summary every storage's `getBookingStats` returns. */
  datatype Stats = Stats(todayBookings: nat, weekBookings: nat, revenue: int, occupancy: real)

  /** What `insertBookingSchema.parse` hands to a storage: every column but
      `id` and `createdAt`, with `status` already defaulted. */
  datatype InsertBooking = InsertBooking(
    customerName: string,
    customerPhone: string,
    notes: Note,
    day: string,
    time: string,
    date: string,
    status: string)

  /** A request body before validation. `None` in a required field stands for
      a missing key or a value that is not a string. `id` and `createdAt` may
      be sent by a client; the schema omits them. */
  datatype RawBooking = RawBooking(
    customerName: Option<string>,
    customerPhone: Option<string>,
    notes: Note,
    day: Option<string>,
    time: Option<string>,
    date: Option<string>,
    status: Option<string>,
    id: Option<int>,
    createdAt: Option<int>)

  /** The fields whose rule can fail, in the order the schema declares them. */
  datatype Field = CustomerName | CustomerPhone | Day | Time | Date

  const DefaultStatus: string := "confirmed"

  /** `varchar("customer_phone", { length: 15 })`. */
  const PhoneColumnLength: nat := 15

  /** `z.string().min(2)` on the customer name: no trimming, and the length
      is JavaScript's, in UTF-16 code units. */
  predicate NameOk(name: Option<string>) { name.Some? && Utf16Length(name.value) >= 2 }

  /** `/^05[0-9]{8}$/`: the characters '0', '5', then eight ASCII digits. */
  predicate PhonePatternOk(s: string)
  {
    |s| == 10 && s[0] == '0' && s[1] == '5' && forall i :: 2 <= i < 10 ==> IsDigit(s[i])
  }

  predicate PhoneOk(phone: Option<string>) { phone.Some? && PhonePatternOk(phone.value) }

  /** `z.string().min(1)` on day, time and date. */
  predicate NonEmpty(s: Option<string>) { s.Some? && s.value != "" }

  predicate FieldFails(r: RawBooking, f: Field)
  {
    match f
    case CustomerName => !NameOk(r.customerName)
    case CustomerPhone => !PhoneOk(r.customerPhone)
    case Day => !NonEmpty(r.day)
    case Time => !NonEmpty(r.time)
    case Date => !NonEmpty(r.date)
  }

  predicate Acceptable(r: RawBooking)
  {
    NameOk(r.customerName) && PhoneOk(r.customerPhone)
    && NonEmpty(r.day) && NonEmpty(r.time) && NonEmpty(r.date)
  }

  datatype Parsed = Accepted(booking: InsertBooking) | Rejected(fields: seq<Field>)

  function Check(fails: bool, f: Field): seq<Field> { if fails then [f] else [] }

  /** Every failing field, in the schema's order. */
  function Errors(r: RawBooking): (e: seq<Field>)
    ensures forall f :: f in e <==> FieldFails(r, f)
  {
    var e := Check(FieldFails(r, CustomerName), CustomerName)
      + Check(FieldFails(r, CustomerPhone), CustomerPhone)
      + Check(FieldFails(r, Day), Day)
      + Check(FieldFails(r, Time), Time)
      + Check(FieldFails(r, Date), Date);
    CheckMembers(r, e);
    e
  }

  lemma CheckMembers(r: RawBooking, e: seq<Field>)
    requires e == Check(FieldFails(r, CustomerName), CustomerName)
      + Check(FieldFails(r, CustomerPhone), CustomerPhone)
      + Check(FieldFails(r, Day), Day)
      + Check(FieldFails(r, Time), Time)
      + Check(FieldFails(r, Date), Date)
    ensures forall f :: f in e <==> FieldFails(r, f)
  {
    forall f
      ensures f in e <==> FieldFails(r, f)
    {
      assert f == CustomerName || f == CustomerPhone || f == Day || f == Time || f == Date;
    }
  }

  /** `insertBookingSchema.parse(body)`: either the accepted input, or the
      list of every field whose rule failed. */
  function ParseInsertBooking(r: RawBooking): (p: Parsed)
    ensures p.Accepted? <==> Acceptable(r)
    ensures p.Rejected? ==> p.fields != []
    ensures p.Rejected? ==> forall f :: f in p.fields <==> FieldFails(r, f)
    ensures p.Accepted? ==>
      var b := p.booking;
      && b.customerName == r.customerName.value && Utf16Length(b.customerName) >= 2
      && b.customerPhone == r.customerPhone.value && PhonePatternOk(b.customerPhone)
      && b.day == r.day.value && b.time == r.time.value && b.date == r.date.value
      && b.day != "" && b.time != "" && b.date != ""
      && b.notes == r.notes
      && b.status == (if r.status.Some? then r.status.value else DefaultStatus)
  {
    var errors := Errors(r);
    if errors != [] then Rejected(errors)
    else
      Accepted(InsertBooking(
        r.customerName.value, r.customerPhone.value, r.notes,
        r.day.value, r.time.value, r.date.value,
        if r.status.Some? then r.status.value else DefaultStatus))
  }

  /** The phone rule written as a shape: "05" followed by eight digits. */
  lemma PhonePatternShape(s: string)
    ensures PhonePatternOk(s) <==> |s| == 10 && s[..2] == "05" && AllDigits(s[2..])
  {
    if |s| == 10 && s[..2] == "05" && AllDigits(s[2..]) {
      assert s[0] == s[..2][0] && s[1] == s[..2][1];
      forall i | 2 <= i < 10 ensures IsDigit(s[i]) { assert s[i] == s[2..][i - 2]; }
    }
    if PhonePatternOk(s) {
      assert s[..2] == [s[0], s[1]];
    }
  }

  /** An accepted phone always fits the 15-character column. */
  lemma AcceptedPhoneFitsColumn(r: RawBooking)
    requires ParseInsertBooking(r).Accepted?
    ensures |ParseInsertBooking(r).booking.customerPhone| <= PhoneColumnLength
  {
  }

  /** The client-supplied `id` and `createdAt` never influence the outcome. */
  lemma ParseIgnoresIdAndCreatedAt(r: RawBooking, id: Option<int>, createdAt: Option<int>)
    ensures ParseInsertBooking(r.(id := id, createdAt := createdAt)) == ParseInsertBooking(r)
  {
  }

  /** One character outside the Basic Multilingual Plane (an emoji, say)
      is two code units long, so it passes as a name on its own, while one
      ordinary letter does not. */
  lemma AstralCharName(c: char, d: char)
    requires c as int >= 0x1_0000 && d as int < 0x1_0000
    ensures NameOk(Some([c]))
    ensures !NameOk(Some([d]))
  {
    assert [c][1..] == [] && [d][1..] == [];
  }

  /** The name is not trimmed: two spaces and one letter pass. */
  lemma UntrimmedNameAccepted()
    ensures NameOk(Some("  a"))
  {
  }
}
