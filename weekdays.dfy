/** The weekday-name lookup `dayNames[day] || day` that the WhatsApp
    notifier, client/src/lib/utils.ts and the booking form each write out,
    and the Arabic names the client uses. */
module Weekdays {

  /** The seven day keys the client sends. */
  const Keys: seq<string> := ["sunday", "monday", "tuesday", "wednesday", "thursday", "friday", "saturday"]

  /** `dayNames[day] || day`: the table's entry when it is present and not
      empty, otherwise the key itself. */
  function Lookup(names: map<string, string>, day: string): (r: string)
    ensures day in names && names[day] != "" ==> r == names[day]
    ensures day !in names ==> r == day
    ensures day in names && names[day] == "" ==> r == day
  {
    if day in names && names[day] != "" then names[day] else day
  }

  /** The client's table (utils.ts and booking-form.tsx). */
  const ClientNames: map<string, string> := map[
    "sunday" := "الأحد",
    "monday" := "الاثنين",
    "tuesday" := "الثلاثاء",
    "wednesday" := "الأربعاء",
    "thursday" := "الخميس",
    "friday" := "الجمعة",
    "saturday" := "السبت"]

  /** The client's table has exactly the seven keys, and no name is empty. */
  lemma ClientNamesWellFormed()
    ensures ClientNames.Keys == set k | k in Keys
    ensures forall k :: k in ClientNames ==> ClientNames[k] != ""
  {
  }
}
