/** The booking, cancellation, reschedule, mark-complete, cart and payment views
    as operations on an in-memory store of the rows they touch. Each operation
    either refuses, with a reason and no change at all, or applies one small
    update. The signed-in role is an input: operations are given the id of the
    student or instructor making the request. Instants are integer seconds and
    the current time `now` is a parameter. */
module School {
  import opened Models
  import opened Scheduling

  /** Why a request was refused. */
  datatype Error =
    | NoCreditsLeft
    | NotFound
    | AlreadyCompleted
    | AlreadyCancelled
    | TooLateToChange
    | PastTime
    | InstructorUnavailable
    | SlotUnavailable
    | CartEmpty

  datatype Outcome = Ok | Refused(error: Error)

  function Max(a: int, b: int): (r: int)
    ensures r >= a && r >= b && (r == a || r == b)
  {
    if a < b then b else a
  }

  /** The number of appointments booked by the student, whatever their status. */
  function Booked(appts: seq<Appointment>, sid: StudentId): (n: nat)
    ensures n <= |appts|
    decreases |appts|
  {
    if appts == [] then 0
    else Booked(appts[..|appts| - 1], sid) + (if appts[|appts| - 1].student == sid then 1 else 0)
  }

  lemma BookedAppend(appts: seq<Appointment>, a: Appointment, sid: StudentId)
    ensures Booked(appts + [a], sid) == Booked(appts, sid) + (if a.student == sid then 1 else 0)
  {
    assert (appts + [a])[..|appts|] == appts;
  }

  /** Rewriting one appointment without changing whose it is keeps every count. */
  lemma {:induction false} BookedUpdate(appts: seq<Appointment>, k: nat, a: Appointment, sid: StudentId)
    requires k < |appts| && a.student == appts[k].student
    ensures Booked(appts[k := a], sid) == Booked(appts, sid)
    decreases |appts|
  {
    var n := |appts|;
    if k == n - 1 {
      assert appts[k := a][..n - 1] == appts[..n - 1];
    } else {
      assert appts[k := a][..n - 1] == appts[..n - 1][k := a];
      BookedUpdate(appts[..n - 1], k, a, sid);
    }
  }

  lemma {:induction false} BookedNone(appts: seq<Appointment>, sid: StudentId)
    requires forall k :: 0 <= k < |appts| ==> appts[k].student != sid
    ensures Booked(appts, sid) == 0
    decreases |appts|
  {
    if appts != [] {
      BookedNone(appts[..|appts| - 1], sid);
    }
  }

  /** No two appointments hold the same instructor at the same instant. */
  ghost predicate SlotsDistinct(appts: seq<Appointment>)
  {
    forall j, k :: 0 <= j < k < |appts| ==>
      !(appts[j].instructor == appts[k].instructor && appts[j].time == appts[k].time)
  }

  /** The appointment with index id exists and belongs to the student. */
  predicate Owns(appts: seq<Appointment>, id: nat, sid: StudentId)
  {
    id < |appts| && appts[id].student == sid
  }

  /** The appointment with index id exists and is taught by the instructor. */
  predicate Teaches(appts: seq<Appointment>, id: nat, instructor: InstructorId)
  {
    id < |appts| && appts[id].instructor == instructor
  }

  /** The student's cart contents; a student without a cart has an empty one. */
  function CartOf(carts: map<StudentId, set<PlanId>>, sid: StudentId): set<PlanId>
  {
    if sid in carts then carts[sid] else {}
  }

  /** The hours granted by a set of catalog plans. */
  ghost function CartHours(plans: map<PlanId, Plan>, items: set<PlanId>): nat
    requires items <= plans.Keys
    decreases items
  {
    if items == {} then 0
    else
      var p :| p in items;
      plans[p].hours + CartHours(plans, items - {p})
  }

  /** The sum does not depend on the order in which the plans are taken. */
  lemma {:induction false} CartHoursRemove(plans: map<PlanId, Plan>, items: set<PlanId>, p: PlanId)
    requires items <= plans.Keys && p in items
    ensures CartHours(plans, items) == plans[p].hours + CartHours(plans, items - {p})
    decreases items
  {
    var q :| q in items && CartHours(plans, items) == plans[q].hours + CartHours(plans, items - {q});
    if q != p {
      CartHoursRemove(plans, items - {q}, p);
      CartHoursRemove(plans, items - {p}, q);
      assert items - {q} - {p} == items - {p} - {q};
    }
  }

  /** The purchases a cart settlement creates: one completed purchase of the
      student per cart plan, each granting that plan's hours. */
  ghost predicate CartPurchases(added: seq<Purchase>, sid: StudentId, cart: set<PlanId>, plans: map<PlanId, Plan>)
  {
    && |added| == |cart|
    && (forall k :: 0 <= k < |added| ==>
          && added[k].student == sid
          && added[k].plan in cart
          && added[k].plan in plans
          && added[k].credits == plans[added[k].plan].hours
          && added[k].status == PaymentCompleted)
    && (forall j, k :: 0 <= j < k < |added| ==> added[j].plan != added[k].plan)
  }

  /** Midway through a settlement: the plans in done are settled, each with
      its purchase, and credits holds their hours; items are still to go. */
  ghost predicate Settling(cart: set<PlanId>, items: set<PlanId>, done: set<PlanId>, credits: nat,
                           added: seq<Purchase>, sid: StudentId, plans: map<PlanId, Plan>)
  {
    && cart <= plans.Keys
    && items + done == cart && items !! done
    && credits == CartHours(plans, done)
    && CartPurchases(added, sid, done, plans)
  }

  /** Settling one more plan of the cart keeps the settlement on track. */
  lemma SettleStep(cart: set<PlanId>, items: set<PlanId>, done: set<PlanId>, credits: nat,
                   added: seq<Purchase>, sid: StudentId, plans: map<PlanId, Plan>, p: PlanId)
    requires Settling(cart, items, done, credits, added, sid, plans) && p in items
    ensures Settling(cart, items - {p}, done + {p}, credits + plans[p].hours,
                     added + [Purchase(sid, p, plans[p].hours, PaymentCompleted)], sid, plans)
  {
    CartPurchasesExtend(added, sid, done, plans, p);
    CartHoursAdd(plans, done, p);
  }

  /** Settling one more plan adds its purchase. */
  lemma CartPurchasesExtend(added: seq<Purchase>, sid: StudentId, done: set<PlanId>, plans: map<PlanId, Plan>, p: PlanId)
    requires CartPurchases(added, sid, done, plans) && p !in done && p in plans
    ensures CartPurchases(added + [Purchase(sid, p, plans[p].hours, PaymentCompleted)], sid, done + {p}, plans)
  {
    assert |done + {p}| == |done| + 1;
  }

  /** Settling one more plan adds its hours. */
  lemma CartHoursAdd(plans: map<PlanId, Plan>, done: set<PlanId>, p: PlanId)
    requires done <= plans.Keys && p in plans && p !in done
    ensures CartHours(plans, done + {p}) == CartHours(plans, done) + plans[p].hours
  {
    CartHoursRemove(plans, done + {p}, p);
    assert done + {p} - {p} == done;
  }

  /** The loop of the cart settlement: a completed purchase for each plan in
      the cart, in whatever order the items come, and the credits they grant
      in total. */
  method PurchasesFor(sid: StudentId, cart: set<PlanId>, plans: map<PlanId, Plan>)
    returns (added: seq<Purchase>, credits: nat)
    requires cart <= plans.Keys
    ensures CartPurchases(added, sid, cart, plans)
    ensures credits == CartHours(plans, cart)
  {
    var items := cart;
    ghost var done: set<PlanId> := {};
    added, credits := [], 0;
    while items != {}
      invariant Settling(cart, items, done, credits, added, sid, plans)
      decreases |items|
    {
      var p :| p in items;
      SettleStep(cart, items, done, credits, added, sid, plans, p);
      added := added + [Purchase(sid, p, plans[p].hours, PaymentCompleted)];
      credits := credits + plans[p].hours;
      items := items - {p};
      done := done + {p};
    }
    assert done == cart;
  }

  class Store {
    /** Credit balances of each student row. */
    var students: map<StudentId, Account>
    /** The is_available flag of each instructor row. */
    var instructors: map<InstructorId, bool>
    /** The lesson-plan catalog. */
    var plans: map<PlanId, Plan>
    /** Appointment rows; an appointment's id is its index. */
    var appointments: seq<Appointment>
    /** Purchase rows in creation order; a purchase's id is its index. */
    var purchases: seq<Purchase>
    /** Each student's cart: a set, as the unique constraint on (cart, plan) allows each plan once. */
    var carts: map<StudentId, set<PlanId>>

    /** Every credit a student has used is one appointment booked, none of
        them refunded; no two appointments hold the same instructor at the
        same instant; carts hold catalog plans only. */
    ghost predicate Valid()
      reads this
    {
      && (forall k :: 0 <= k < |appointments| ==> appointments[k].student in students)
      && (forall s :: s in students ==>
            students[s].available >= 0
            && students[s].total - students[s].available == Booked(appointments, s))
      && SlotsDistinct(appointments)
      && (forall s :: s in carts ==> carts[s] <= plans.Keys)
    }

    constructor (instructors: map<InstructorId, bool>, plans: map<PlanId, Plan>)
      ensures Valid()
      ensures this.instructors == instructors && this.plans == plans
      ensures students == map[] && appointments == [] && purchases == [] && carts == map[]
    {
      this.instructors := instructors;
      this.plans := plans;
      students := map[];
      appointments := [];
      purchases := [];
      carts := map[];
    }

    /** The student row made for a signed-in user who has none yet. */
    method AddStudent(sid: StudentId)
      requires Valid()
      modifies this
      ensures Valid()
      ensures students == if sid in old(students) then old(students) else old(students)[sid := NewAccount()]
      ensures appointments == old(appointments) && purchases == old(purchases) && carts == old(carts)
      ensures instructors == old(instructors) && plans == old(plans)
    {
      if sid !in students {
        BookedNone(appointments, sid);
        students := students[sid := NewAccount()];
      }
    }

    /** Books a lesson for the signed-in student with an instructor at an
        instant, taking one credit. */
    method Book(sid: StudentId, instructor: InstructorId, time: int, now: int, requirements: string)
      returns (r: Outcome)
      requires Valid() && sid in students
      modifies this
      ensures Valid()
      ensures old(students[sid].available) < 1 ==> r == Refused(NoCreditsLeft)
      ensures old(students[sid].available) >= 1 && !(instructor in instructors && instructors[instructor])
        ==> r == Refused(InstructorUnavailable)
      ensures (old(students[sid].available) >= 1 && instructor in instructors && instructors[instructor]
        && time < now)
        ==> r == Refused(PastTime)
      ensures (old(students[sid].available) >= 1 && instructor in instructors && instructors[instructor]
        && time >= now && SlotTaken(old(appointments), instructor, time))
        ==> r == Refused(SlotUnavailable)
      ensures r == Ok <==>
        && old(students[sid].available) >= 1
        && instructor in instructors && instructors[instructor]
        && time >= now
        && !SlotTaken(old(appointments), instructor, time)
      ensures r != Ok ==> unchanged(this)
      ensures r == Ok ==>
        var lesson := ChooseLesson(old(purchases), plans, sid);
        && appointments == old(appointments) + [NewAppointment(sid, instructor, lesson.1, time, lesson.0, requirements)]
        && students == old(students)[sid := Account(old(students[sid].total), old(students[sid].available) - 1)]
        && students[sid].available >= 0
        && purchases == old(purchases) && carts == old(carts)
        && instructors == old(instructors) && plans == old(plans)
    {
      var account := students[sid];
      if account.available < 1 {
        return Refused(NoCreditsLeft);
      }
      if !(instructor in instructors && instructors[instructor]) {
        return Refused(InstructorUnavailable);
      }
      if time < now {
        return Refused(PastTime);
      }
      if SlotTaken(appointments, instructor, time) {
        return Refused(SlotUnavailable);
      }
      var lesson := ChooseLesson(purchases, plans, sid);
      var a := Appointment(sid, instructor, lesson.1, time, Scheduled, 1, "", lesson.0, requirements);
      forall s | s in students
        ensures Booked(appointments + [a], s) == Booked(appointments, s) + (if s == sid then 1 else 0)
      {
        BookedAppend(appointments, a, s);
      }
      appointments := appointments + [a];
      students := students[sid := account.(available := Max(0, account.available - 1))];
      r := Ok;
    }

    /** Cancels one of the signed-in student's appointments; the credit used
        is not given back. */
    method Cancel(sid: StudentId, id: nat, now: int) returns (r: Outcome)
      requires Valid()
      modifies this
      ensures Valid()
      ensures !Owns(old(appointments), id, sid) ==> r == Refused(NotFound)
      ensures Owns(old(appointments), id, sid) && old(appointments[id].status) == Completed
        ==> r == Refused(AlreadyCompleted)
      ensures Owns(old(appointments), id, sid) && old(appointments[id].status) == Cancelled
        ==> r == Refused(AlreadyCancelled)
      ensures (Owns(old(appointments), id, sid) && old(appointments[id].status) !in {Completed, Cancelled}
        && !NoticeGiven(old(appointments[id].time), now))
        ==> r == Refused(TooLateToChange)
      ensures r == Ok <==>
        && Owns(old(appointments), id, sid)
        && old(appointments[id].status) !in {Completed, Cancelled}
        && NoticeGiven(old(appointments[id].time), now)
      ensures r != Ok ==> unchanged(this)
      ensures r == Ok ==>
        && appointments == old(appointments)[id := old(appointments[id]).(status := Cancelled)]
        && students == old(students) && purchases == old(purchases) && carts == old(carts)
        && instructors == old(instructors) && plans == old(plans)
    {
      if !Owns(appointments, id, sid) {
        return Refused(NotFound);
      }
      var a := appointments[id];
      if a.status == Completed {
        return Refused(AlreadyCompleted);
      }
      if a.status == Cancelled {
        return Refused(AlreadyCancelled);
      }
      if a.time - now < NoticeSeconds {
        return Refused(TooLateToChange);
      }
      forall s | s in students
        ensures Booked(appointments[id := a.(status := Cancelled)], s) == Booked(appointments, s)
      {
        BookedUpdate(appointments, id, a.(status := Cancelled), s);
      }
      appointments := appointments[id := a.(status := Cancelled)];
      r := Ok;
    }

    /** Moves one of the signed-in student's appointments to a new instant and
        instructor, recording the reason in its notes. */
    method Reschedule(sid: StudentId, id: nat, newTime: int, newInstructor: InstructorId,
                      reason: string, now: int) returns (r: Outcome)
      requires Valid()
      modifies this
      ensures Valid()
      ensures !Owns(old(appointments), id, sid) ==> r == Refused(NotFound)
      ensures Owns(old(appointments), id, sid) && old(appointments[id].status) == Completed
        ==> r == Refused(AlreadyCompleted)
      ensures Owns(old(appointments), id, sid) && old(appointments[id].status) == Cancelled
        ==> r == Refused(AlreadyCancelled)
      ensures (Owns(old(appointments), id, sid) && old(appointments[id].status) !in {Completed, Cancelled}
        && !NoticeGiven(old(appointments[id].time), now))
        ==> r == Refused(TooLateToChange)
      ensures (Owns(old(appointments), id, sid) && old(appointments[id].status) !in {Completed, Cancelled}
        && NoticeGiven(old(appointments[id].time), now) && newTime <= now)
        ==> r == Refused(PastTime)
      ensures (Owns(old(appointments), id, sid) && old(appointments[id].status) !in {Completed, Cancelled}
        && NoticeGiven(old(appointments[id].time), now) && newTime > now
        && !(newInstructor in instructors && instructors[newInstructor]))
        ==> r == Refused(InstructorUnavailable)
      ensures (Owns(old(appointments), id, sid) && old(appointments[id].status) !in {Completed, Cancelled}
        && NoticeGiven(old(appointments[id].time), now) && newTime > now
        && newInstructor in instructors && instructors[newInstructor]
        && SlotTakenExcept(old(appointments), newInstructor, newTime, id))
        ==> r == Refused(SlotUnavailable)
      ensures r == Ok <==>
        && Owns(old(appointments), id, sid)
        && old(appointments[id].status) !in {Completed, Cancelled}
        && NoticeGiven(old(appointments[id].time), now)
        && newTime > now
        && newInstructor in instructors && instructors[newInstructor]
        && !SlotTakenExcept(old(appointments), newInstructor, newTime, id)
      ensures r != Ok ==> unchanged(this)
      ensures r == Ok ==>
        && appointments == old(appointments)[id := old(appointments[id]).(
             time := newTime, instructor := newInstructor,
             notes := RescheduleNotes(reason, old(appointments[id].notes)))]
        && students == old(students) && purchases == old(purchases) && carts == old(carts)
        && instructors == old(instructors) && plans == old(plans)
    {
      if !Owns(appointments, id, sid) {
        return Refused(NotFound);
      }
      var a := appointments[id];
      if a.status == Completed {
        return Refused(AlreadyCompleted);
      }
      if a.status == Cancelled {
        return Refused(AlreadyCancelled);
      }
      if a.time - now < NoticeSeconds {
        return Refused(TooLateToChange);
      }
      if newTime <= now {
        return Refused(PastTime);
      }
      if !(newInstructor in instructors && instructors[newInstructor]) {
        return Refused(InstructorUnavailable);
      }
      if SlotTakenExcept(appointments, newInstructor, newTime, id) {
        return Refused(SlotUnavailable);
      }
      var moved := a.(time := newTime, instructor := newInstructor, notes := RescheduleNotes(reason, a.notes));
      forall s | s in students
        ensures Booked(appointments[id := moved], s) == Booked(appointments, s)
      {
        BookedUpdate(appointments, id, moved, s);
      }
      appointments := appointments[id := moved];
      r := Ok;
    }

    /** The signed-in instructor marks one of their appointments complete;
        only a Scheduled appointment changes, anything else is left as it is. */
    method MarkComplete(instructor: InstructorId, id: nat) returns (r: Outcome)
      requires Valid()
      modifies this
      ensures Valid()
      ensures r == Ok <==> Teaches(old(appointments), id, instructor)
      ensures r != Ok ==> r == Refused(NotFound) && unchanged(this)
      ensures r == Ok && old(appointments[id].status) == Scheduled ==>
        && appointments == old(appointments)[id := old(appointments[id]).(status := Completed)]
        && students == old(students) && purchases == old(purchases) && carts == old(carts)
        && instructors == old(instructors) && plans == old(plans)
      ensures r == Ok && old(appointments[id].status) != Scheduled ==> unchanged(this)
    {
      if !Teaches(appointments, id, instructor) {
        return Refused(NotFound);
      }
      var a := appointments[id];
      if a.status == Scheduled {
        forall s | s in students
          ensures Booked(appointments[id := a.(status := Completed)], s) == Booked(appointments, s)
        {
          BookedUpdate(appointments, id, a.(status := Completed), s);
        }
        appointments := appointments[id := a.(status := Completed)];
      }
      r := Ok;
    }

    /** Puts a catalog plan in the signed-in student's cart, creating the cart
        if needed; a plan already there is not added twice. */
    method AddToCart(sid: StudentId, plan: PlanId) returns (r: Outcome, added: bool)
      requires Valid() && sid in students
      modifies this
      ensures Valid()
      ensures r == Ok <==> plan in plans
      ensures r != Ok ==> r == Refused(NotFound) && !added && unchanged(this)
      ensures r == Ok ==>
        && carts == old(carts)[sid := CartOf(old(carts), sid) + {plan}]
        && added == (plan !in CartOf(old(carts), sid))
        && students == old(students) && appointments == old(appointments) && purchases == old(purchases)
        && instructors == old(instructors) && plans == old(plans)
    {
      if plan !in plans {
        return Refused(NotFound), false;
      }
      var cart := CartOf(carts, sid);
      added := plan !in cart;
      carts := carts[sid := cart + {plan}];
      r := Ok;
    }

    /** Takes a plan out of the signed-in student's cart; a plan that is not
        in their cart is not found. A cart holds each plan at most once, so
        the plan names the cart item. */
    method RemoveFromCart(sid: StudentId, plan: PlanId) returns (r: Outcome)
      requires Valid()
      modifies this
      ensures Valid()
      ensures r == Ok <==> plan in CartOf(old(carts), sid)
      ensures r != Ok ==> r == Refused(NotFound) && unchanged(this)
      ensures r == Ok ==>
        && carts == old(carts)[sid := CartOf(old(carts), sid) - {plan}]
        && students == old(students) && appointments == old(appointments) && purchases == old(purchases)
        && instructors == old(instructors) && plans == old(plans)
    {
      if plan !in CartOf(carts, sid) {
        return Refused(NotFound);
      }
      carts := carts[sid := carts[sid] - {plan}];
      r := Ok;
    }

    /** Pays for everything in the signed-in student's cart: one completed
        purchase per plan, granting the plan's hours, both balances raised by
        the total, and the cart emptied. */
    method SettleCart(sid: StudentId) returns (r: Outcome)
      requires Valid() && sid in students
      modifies this
      ensures Valid()
      ensures r == Ok <==> CartOf(old(carts), sid) != {}
      ensures r != Ok ==> r == Refused(CartEmpty) && unchanged(this)
      ensures r == Ok ==>
        var cart := old(carts[sid]);
        var n := |old(purchases)|;
        && plans == old(plans) && cart <= plans.Keys
        && |purchases| >= n
        && purchases[..n] == old(purchases)
        && CartPurchases(purchases[n..], sid, cart, plans)
        && students == old(students)[sid := Account(
             old(students[sid].total) + CartHours(plans, cart),
             old(students[sid].available) + CartHours(plans, cart))]
        && carts == old(carts)[sid := {}]
        && appointments == old(appointments) && instructors == old(instructors)
    {
      if CartOf(carts, sid) == {} {
        return Refused(CartEmpty);
      }
      var account := students[sid];
      var added, credits := PurchasesFor(sid, carts[sid], plans);
      students := students[sid := Account(account.total + credits, account.available + credits)];
      assert (purchases + added)[|purchases|..] == added;
      purchases := purchases + added;
      carts := carts[sid := {}];
      r := Ok;
    }

    /** Opens a pending purchase of a catalog plan for the signed-in student. */
    method CreatePendingPurchase(sid: StudentId, plan: PlanId) returns (r: Outcome, id: nat)
      requires Valid() && sid in students
      modifies this
      ensures Valid()
      ensures r == Ok <==> plan in plans
      ensures r != Ok ==> r == Refused(NotFound) && unchanged(this)
      ensures r == Ok ==>
        && id == |old(purchases)|
        && purchases == old(purchases) + [Purchase(sid, plan, plans[plan].hours, PaymentPending)]
        && students == old(students) && appointments == old(appointments) && carts == old(carts)
        && instructors == old(instructors) && plans == old(plans)
    {
      if plan !in plans {
        return Refused(NotFound), 0;
      }
      id := |purchases|;
      purchases := purchases + [Purchase(sid, plan, plans[plan].hours, PaymentPending)];
      r := Ok;
    }

    /** The stand-in payment page: marks one of the signed-in student's
        purchases completed and raises both balances by its credits. Nothing
        stops a purchase that is already completed from being paid again. */
    method Pay(sid: StudentId, id: nat) returns (r: Outcome)
      requires Valid() && sid in students
      modifies this
      ensures Valid()
      ensures r == Ok <==> id < |old(purchases)| && old(purchases[id].student) == sid
      ensures r != Ok ==> r == Refused(NotFound) && unchanged(this)
      ensures r == Ok ==>
        var g := old(purchases[id].credits);
        && purchases == old(purchases)[id := old(purchases[id]).(status := PaymentCompleted)]
        && students == old(students)[sid := Account(old(students[sid].total) + g, old(students[sid].available) + g)]
        && appointments == old(appointments) && carts == old(carts)
        && instructors == old(instructors) && plans == old(plans)
    {
      if !(id < |purchases| && purchases[id].student == sid) {
        return Refused(NotFound);
      }
      var p := purchases[id];
      purchases := purchases[id := p.(status := PaymentCompleted)];
      var account := students[sid];
      students := students[sid := Account(account.total + p.credits, account.available + p.credits)];
      r := Ok;
    }
  }
}
