/** Pure rules behind the booking views: clock arithmetic on instants given as
    integer seconds, the slot-conflict test, the notice window, the lesson-type
    choice, the notes a reschedule writes, and the free-slot query. */
module Scheduling {
  import opened Models
  import opened Chars
  import opened Sequences

  const SecondsPerDay: int := 86400

  /** The notice a cancellation or a reschedule needs: 24 hours, in seconds. */
  const NoticeSeconds: int := 24 * 3600

  /** The calendar day of an instant. */
  function Day(t: int): int
  {
    t / SecondsPerDay
  }

  function SecondOfDay(t: int): (r: int)
    ensures 0 <= r < SecondsPerDay
    ensures t == Day(t) * SecondsPerDay + r
  {
    t % SecondsPerDay
  }

  function MinuteOfDay(t: int): (r: int)
    ensures 0 <= r < 1440
  {
    SecondOfDay(t) / 60
  }

  // ---------------------------------------------------------------------------
  // "%H:%M" labels

  function TwoDigits(n: int): string
    requires 0 <= n < 100
  {
    [Digit(n / 10), Digit(n % 10)]
  }

  /** The "%H:%M" rendering of a minute of the day. */
  function Clock(m: int): (r: string)
    requires 0 <= m < 1440
    ensures |r| == 5 && r[2] == ':'
  {
    TwoDigits(m / 60) + ":" + TwoDigits(m % 60)
  }

  /** Reads an "HH:MM" label back into a minute of the day. */
  function ParseClock(s: string): (r: Option<int>)
    ensures r.Some? ==> 0 <= r.value < 1440
  {
    if |s| == 5 && IsDigit(s[0]) && IsDigit(s[1]) && s[2] == ':' && IsDigit(s[3]) && IsDigit(s[4]) then
      var h := DigitValue(s[0]) * 10 + DigitValue(s[1]);
      var m := DigitValue(s[3]) * 10 + DigitValue(s[4]);
      if h < 24 && m < 60 then Some(h * 60 + m) else None
    else
      None
  }

  /** Rendering a minute and parsing the label gives the minute back. */
  lemma ClockRoundTrip(m: int)
    requires 0 <= m < 1440
    ensures ParseClock(Clock(m)) == Some(m)
  {
    var h, mm := m / 60, m % 60;
    var s := Clock(m);
    assert s[0] == Digit(h / 10) && s[1] == Digit(h % 10);
    assert s[3] == Digit(mm / 10) && s[4] == Digit(mm % 10);
    assert (h / 10) * 10 + h % 10 == h;
    assert (mm / 10) * 10 + mm % 10 == mm;
  }

  /** Every label that parses is the rendering of the minute it parses to, so
      labels and minutes of the day correspond one to one. */
  lemma ParseClockInverse(s: string)
    requires ParseClock(s).Some?
    ensures Clock(ParseClock(s).value) == s
  {
    var h := DigitValue(s[0]) * 10 + DigitValue(s[1]);
    var mm := DigitValue(s[3]) * 10 + DigitValue(s[4]);
    var m := h * 60 + mm;
    assert m / 60 == h && m % 60 == mm;
    assert h / 10 == DigitValue(s[0]) && h % 10 == DigitValue(s[1]);
    assert mm / 10 == DigitValue(s[3]) && mm % 10 == DigitValue(s[4]);
    assert Clock(m) == s;
  }

  // ---------------------------------------------------------------------------
  // Booking rules

  /** Some appointment, of any status, holds the instructor at that instant. */
  predicate SlotTaken(appts: seq<Appointment>, instructor: InstructorId, time: int)
  {
    exists k :: 0 <= k < |appts| && appts[k].instructor == instructor && appts[k].time == time
  }

  /** As SlotTaken, ignoring the appointment with index skip. */
  predicate SlotTakenExcept(appts: seq<Appointment>, instructor: InstructorId, time: int, skip: nat)
  {
    exists k :: 0 <= k < |appts| && k != skip && appts[k].instructor == instructor && appts[k].time == time
  }

  /** At least 24 hours remain before the appointment; exactly 24 hours is enough. */
  predicate NoticeGiven(scheduled: int, now: int)
  {
    scheduled - now >= NoticeSeconds
  }

  /** The notes after a reschedule: an empty reason keeps the old notes,
      otherwise the reason goes first and non-empty old notes are kept after it. */
  function RescheduleNotes(reason: string, previous: string): (r: string)
    ensures reason == "" ==> r == previous
    ensures reason != "" ==> "Rescheduled: " + reason <= r
    ensures reason != "" && previous == "" ==> |r| == 13 + |reason|
    ensures reason != "" && previous != "" ==>
      && |r| == 13 + |reason| + 19 + |previous|
      && r[13 + |reason| .. 32 + |reason|] == " | Previous notes: "
      && r[32 + |reason|..] == previous
  {
    if reason == "" then previous
    else "Rescheduled: " + reason + (if previous != "" then " | Previous notes: " + previous else "")
  }

  // ---------------------------------------------------------------------------
  // Lesson type and plan of a new booking

  /** A completed purchase of the student; with testOnly, also one whose plan
      includes the road test. */
  predicate Qualifies(p: Purchase, sid: StudentId, plans: map<PlanId, Plan>, testOnly: bool)
  {
    && p.student == sid
    && p.status == PaymentCompleted
    && (testOnly ==> p.plan in plans && plans[p.plan].includesTest)
  }

  /** Index k is the newest qualifying purchase; purchases are kept in creation order. */
  predicate IsNewest(ps: seq<Purchase>, k: int, sid: StudentId, plans: map<PlanId, Plan>, testOnly: bool)
  {
    && 0 <= k < |ps|
    && Qualifies(ps[k], sid, plans, testOnly)
    && forall j :: k < j < |ps| ==> !Qualifies(ps[j], sid, plans, testOnly)
  }

  /** The newest qualifying purchase, if there is one. */
  function Newest(ps: seq<Purchase>, sid: StudentId, plans: map<PlanId, Plan>, testOnly: bool): (r: Option<nat>)
    ensures r.Some? ==> IsNewest(ps, r.value, sid, plans, testOnly)
    ensures r.None? <==> forall k :: 0 <= k < |ps| ==> !Qualifies(ps[k], sid, plans, testOnly)
    decreases |ps|
  {
    if ps == [] then None
    else if Qualifies(ps[|ps| - 1], sid, plans, testOnly) then Some(|ps| - 1)
    else Newest(ps[..|ps| - 1], sid, plans, testOnly)
  }

  /** The lesson type and plan a new booking gets: test preparation with the
      newest completed purchase whose plan includes the test, when there is
      one; otherwise a beginner lesson with the newest completed purchase's
      plan, or with no plan. */
  function ChooseLesson(ps: seq<Purchase>, plans: map<PlanId, Plan>, sid: StudentId): (r: (LessonType, Option<PlanId>))
    ensures r.0 == TestPrep <==> exists k :: 0 <= k < |ps| && Qualifies(ps[k], sid, plans, true)
    ensures r.0 == TestPrep ==> exists k :: IsNewest(ps, k, sid, plans, true) && r.1 == Some(ps[k].plan)
    ensures r.1.None? <==> forall k :: 0 <= k < |ps| ==> !Qualifies(ps[k], sid, plans, false)
    ensures r.0 == Beginner && r.1.Some? ==> exists k :: IsNewest(ps, k, sid, plans, false) && r.1 == Some(ps[k].plan)
  {
    match Newest(ps, sid, plans, true)
    case Some(k) => (TestPrep, Some(ps[k].plan))
    case None =>
      match Newest(ps, sid, plans, false)
      case Some(k) => (Beginner, Some(ps[k].plan))
      case None => (Beginner, None)
  }

  // ---------------------------------------------------------------------------
  // Free-slot query

  /** The nine bookable hours, 09:00 to 17:00. */
  const AllSlots: seq<string> :=
    ["09:00", "10:00", "11:00", "12:00", "13:00", "14:00", "15:00", "16:00", "17:00"]

  /** The elements of s that keep accepts, in their order in s. */
  function Filter(s: seq<string>, keep: string -> bool): (r: seq<string>)
    ensures Subseq(r, s)
    ensures forall x :: x in r <==> x in s && keep(x)
    decreases |s|
  {
    if s == [] then []
    else
      var rest := Filter(s[1..], keep);
      if keep(s[0]) then
        assert ([s[0]] + rest)[1..] == rest;
        [s[0]] + rest
      else
        rest
  }
  /** Filter keeps each accepted element as often as it occurs in s and
      drops every other. */
  lemma {:induction false} FilterCount(s: seq<string>, keep: string -> bool)
    ensures forall x :: multiset(Filter(s, keep))[x] == if keep(x) then multiset(s)[x] else 0
    decreases |s|
  {
    if s != [] {
      FilterCount(s[1..], keep);
      assert s == [s[0]] + s[1..];
    }
  }


  /** A Scheduled appointment of the instructor on that day. */
  predicate Holds(a: Appointment, instructor: InstructorId, day: int)
  {
    a.instructor == instructor && a.status == Scheduled && Day(a.time) == day
  }

  /** The "%H:%M" labels of the instructor's Scheduled appointments on that day. */
  function BookedTimes(appts: seq<Appointment>, instructor: InstructorId, day: int): (r: seq<string>)
    ensures forall k :: 0 <= k < |appts| && Holds(appts[k], instructor, day) ==>
      Clock(MinuteOfDay(appts[k].time)) in r
    ensures forall x :: x in r ==>
      exists k :: 0 <= k < |appts| && Holds(appts[k], instructor, day) && x == Clock(MinuteOfDay(appts[k].time))
    decreases |appts|
  {
    if appts == [] then []
    else
      var last := appts[|appts| - 1];
      BookedTimes(appts[..|appts| - 1], instructor, day)
        + (if Holds(last, instructor, day) then [Clock(MinuteOfDay(last.time))] else [])
  }

  /** The slot label is strictly later in the day than the instant now. */
  predicate SlotAfter(slot: string, now: int)
  {
    ParseClock(slot).Some? && ParseClock(slot).value * 60 > SecondOfDay(now)
  }

  /** The free slots of an available instructor on a day: the fixed labels not
      held by a Scheduled appointment, and on the current day only those still
      to come. An unknown or unavailable instructor gives no answer. */
  function AvailableSlots(appts: seq<Appointment>, instructors: map<InstructorId, bool>,
                          instructor: InstructorId, day: int, now: int): (r: Option<seq<string>>)
    ensures r.None? <==> !(instructor in instructors && instructors[instructor])
    ensures r.Some? ==> Subseq(r.value, AllSlots)
    ensures r.Some? ==> forall k :: 0 <= k < |appts| && Holds(appts[k], instructor, day) ==>
      Clock(MinuteOfDay(appts[k].time)) !in r.value
    ensures r.Some? && day == Day(now) ==> forall s :: s in r.value ==> SlotAfter(s, now)
    ensures r.Some? ==> forall s ::
      (s in AllSlots && s !in BookedTimes(appts, instructor, day) && (day == Day(now) ==> SlotAfter(s, now)))
      ==> s in r.value
  {
    if !(instructor in instructors && instructors[instructor]) then None
    else
      var booked := BookedTimes(appts, instructor, day);
      var free := Filter(AllSlots, s => s !in booked);
      if day == Day(now) then
        var later := Filter(free, s => SlotAfter(s, now));
        SubseqTrans(later, free, AllSlots);
        Some(later)
      else
        Some(free)
  }

  /** The free-slot endpoint as it runs: look the instructor up, collect the
      labels of their Scheduled appointments that day in one pass, then
      filter the fixed labels. It answers exactly what AvailableSlots
      describes. */
  method QueryAvailableSlots(appts: seq<Appointment>, instructors: map<InstructorId, bool>,
                             instructor: InstructorId, day: int, now: int) returns (r: Option<seq<string>>)
    ensures r == AvailableSlots(appts, instructors, instructor, day, now)
  {
    if !(instructor in instructors && instructors[instructor]) {
      return None;
    }
    var booked: seq<string> := [];
    for i := 0 to |appts|
      invariant booked == BookedTimes(appts[..i], instructor, day)
    {
      assert appts[..i + 1][..i] == appts[..i];
      if Holds(appts[i], instructor, day) {
        booked := booked + [Clock(MinuteOfDay(appts[i].time))];
      }
    }
    assert appts[..|appts|] == appts;
    var free := Filter(AllSlots, s => s !in booked);
    if day == Day(now) {
      free := Filter(free, s => SlotAfter(s, now));
    }
    return Some(free);
  }
}
