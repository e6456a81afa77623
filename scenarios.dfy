/** Short sessions against a fresh store, each fixing the outcome of a
    sequence of requests from the operations' contracts alone. Instants are
    seconds; the session starts at Now. */
module Scenarios {
  import opened Models
  import opened Scheduling
  import opened School

  const Hour: int := 3600
  const Now: int := 1000 * 86400

  /** Instructor 1 is available; plan 10 grants two hours. */
  method OpenSchool() returns (s: Store)
    ensures fresh(s) && s.Valid()
    ensures s.instructors == map[1 := true] && s.plans == map[10 := Plan(2, false)]
    ensures s.students == map[] && s.appointments == [] && s.purchases == [] && s.carts == map[]
  {
    s := new Store(map[1 := true], map[10 := Plan(2, false)]);
  }

  /** Student sid joins and pays for plan 10, which grants two credits. */
  method Enrol(s: Store, sid: StudentId)
    requires s.Valid() && sid !in s.students && s.plans == map[10 := Plan(2, false)]
    modifies s
    ensures s.Valid()
    ensures s.students == old(s.students)[sid := Account(2, 2)]
    ensures s.appointments == old(s.appointments) && s.instructors == old(s.instructors)
    ensures s.plans == old(s.plans) && s.carts == old(s.carts)
  {
    s.AddStudent(sid);
    var r, id := s.CreatePendingPurchase(sid, 10);
    r := s.Pay(sid, id);
  }

  /** A second booking of the same instructor at the same instant is refused
      and the store keeps a single appointment. */
  method DoubleBooking() returns (first: Outcome, second: Outcome, count: nat)
    ensures first == Ok && second == Refused(SlotUnavailable) && count == 1
  {
    var s := OpenSchool();
    Enrol(s, 7);
    first := s.Book(7, 1, Now + 48 * Hour, Now, "");
    second := s.Book(7, 1, Now + 48 * Hour, Now, "");
    count := |s.appointments|;
  }

  /** A student with no credits cannot book, and nothing is created. */
  method BookingWithoutCredits() returns (r: Outcome, count: nat, available: int)
    ensures r == Refused(NoCreditsLeft) && count == 0 && available == 0
  {
    var s := OpenSchool();
    s.AddStudent(7);
    r := s.Book(7, 1, Now + 48 * Hour, Now, "");
    count := |s.appointments|;
    available := s.students[7].available;
  }

  /** A lesson 25 hours away can be cancelled; one 23 hours away cannot. */
  method CancellationNotice() returns (early: Outcome, late: Outcome)
    ensures early == Ok && late == Refused(TooLateToChange)
  {
    var s := OpenSchool();
    Enrol(s, 7);
    var r := s.Book(7, 1, Now + 25 * Hour, Now, "");
    assert r == Ok;
    assert s.appointments == [s.appointments[0]] && s.appointments[0].student == 7;
    assert s.students[7].available == 1;
    r := s.Book(7, 1, Now + 23 * Hour, Now, "");
    assert r == Ok;
    assert |s.appointments| == 2 && s.appointments[1].student == 7 && s.appointments[1].time == Now + 23 * Hour;
    early := s.Cancel(7, 0, Now);
    late := s.Cancel(7, 1, Now);
  }

  /** Students 7 and 8 each hold a lesson with instructor 1, two and
      three days from now. */
  method HeldSlots() returns (s: Store)
    ensures fresh(s) && s.Valid()
    ensures s.instructors == map[1 := true] && |s.appointments| == 2
    ensures s.appointments[0].student == 7 && s.appointments[0].status == Scheduled
    ensures s.appointments[0].time == Now + 48 * Hour
    ensures s.appointments[1].instructor == 1 && s.appointments[1].time == Now + 72 * Hour
  {
    s := OpenSchool();
    Enrol(s, 7);
    Enrol(s, 8);
    assert s.appointments == [];
    assert s.students[8] == Account(2, 2);
    var a := s.Book(7, 1, Now + 48 * Hour, Now, "");
    assert a == Ok;
    assert |s.appointments| == 1 && s.appointments[0].time == Now + 48 * Hour;
    assert s.students[8] == Account(2, 2);
    assert !SlotTaken(s.appointments, 1, Now + 72 * Hour);
    var b := s.Book(8, 1, Now + 72 * Hour, Now, "");
    assert b == Ok;
  }

  /** Moving a lesson onto an instant another student holds with the same
      instructor is refused, and the lesson keeps its time. */
  method RescheduleIntoHeldSlot() returns (r: Outcome, time: int)
    ensures r == Refused(SlotUnavailable) && time == Now + 48 * Hour
  {
    var s := HeldSlots();
    r := s.Reschedule(7, 0, Now + 72 * Hour, 1, "", Now);
    time := s.appointments[0].time;
  }

  /** Settling a cart holding plans of 4 and 6 hours raises both balances by
      exactly 10 and empties the cart. */
  method SettleFourAndSix() returns (r: Outcome, account: Account, left: set<PlanId>)
    ensures r == Ok && account == Account(10, 10) && left == {}
  {
    var plans := map[1 := Plan(4, false), 2 := Plan(6, true)];
    var s := new Store(map[1 := true], plans);
    s.AddStudent(7);
    var ok, added := s.AddToCart(7, 1);
    assert s.carts[7] == {1};
    ok, added := s.AddToCart(7, 2);
    assert s.carts[7] == {1, 2};
    CartFourAndSix(plans);
    r := s.SettleCart(7);
    account := s.students[7];
    left := CartOf(s.carts, 7);
  }

  lemma CartFourAndSix(plans: map<PlanId, Plan>)
    requires plans == map[1 := Plan(4, false), 2 := Plan(6, true)]
    ensures CartHours(plans, {1, 2}) == 10
  {
    CartHoursRemove(plans, {1, 2}, 1);
    assert {1, 2} - {1} == {2};
    CartHoursRemove(plans, {2}, 2);
    assert {2} - {2} == {};
  }

  /** Paying the same purchase twice grants its credits twice. */
  method PayTwice() returns (first: Outcome, second: Outcome, account: Account)
    ensures first == Ok && second == Ok && account == Account(4, 4)
  {
    var s := OpenSchool();
    s.AddStudent(7);
    var r, id := s.CreatePendingPurchase(7, 10);
    first := s.Pay(7, id);
    second := s.Pay(7, id);
    account := s.students[7];
  }
}
