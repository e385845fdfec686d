/** What a booking is to the scheduling code: a status and a time window. */
module Bookings {

  type BookingId = nat
  type CleanerId = nat

  datatype Status = REQUESTED | CONFIRMED | ASSIGNED | IN_PROGRESS | COMPLETED | CANCELLED

  /** Milliseconds; the end is not part of the window. */
  datatype Window = Window(start: int, end: int)

  /** `scheduledStart < end && scheduledEnd > start`, as every overlap query spells it. */
  predicate Overlaps(a: Window, b: Window) {
    a.start < b.end && b.start < a.end
  }

  ghost predicate During(t: int, w: Window) {
    w.start <= t < w.end
  }

  /** For windows that run forwards the test is exact: they share an instant; touching windows do not. */
  lemma OverlapsIffShareAnInstant(a: Window, b: Window)
    requires a.start < a.end && b.start < b.end
    ensures Overlaps(a, b) <==> exists t: int :: During(t, a) && During(t, b)
  {
    if Overlaps(a, b) {
      var t := if a.start < b.start then b.start else a.start;
      assert During(t, a) && During(t, b);
    }
  }
}
