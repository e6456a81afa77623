/** Value types of the driving-school database: the rows the booking and
    purchase views read and write, with the defaults and choice lists the
    schema declares. Fields that the views use but the schema file does not
    declare (a student's available credits, a plan's includes-test flag, an
    appointment's lesson type and special requirements, the cart and purchase
    rows) are taken from how the views use them. */
module Models {

  datatype Option<T> = None | Some(value: T)

  type StudentId = nat
  type InstructorId = nat
  type PlanId = nat

  /** The four appointment status choices. */
  datatype Status = Scheduled | Completed | Cancelled | NoShow

  /** The label stored in the status column. */
  function StatusLabel(s: Status): string
  {
    match s
    case Scheduled => "Scheduled"
    case Completed => "Completed"
    case Cancelled => "Cancelled"
    case NoShow => "No-show"
  }

  /** Reads a stored status label back; anything outside the choice list is refused. */
  function ParseStatus(text: string): (r: Option<Status>)
    ensures r.Some? ==> StatusLabel(r.value) == text
    ensures r.None? ==> text !in {"Scheduled", "Completed", "Cancelled", "No-show"}
  {
    if text == "Scheduled" then Some(Scheduled)
    else if text == "Completed" then Some(Completed)
    else if text == "Cancelled" then Some(Cancelled)
    else if text == "No-show" then Some(NoShow)
    else None
  }

  /** Every status survives being stored as its label and read back. */
  lemma StatusRoundTrip(s: Status)
    ensures ParseStatus(StatusLabel(s)) == Some(s)
  {
  }

  /** The status column's default. */
  const DefaultStatus: Status := Scheduled

  /** The two purchase payment states the views write. */
  datatype PaymentStatus = PaymentPending | PaymentCompleted

  /** The lesson kinds a booking can be given. */
  datatype LessonType = Beginner | TestPrep

  /** A catalog entry: the hours it grants as credits and whether it includes
      the road test. */
  datatype Plan = Plan(hours: nat, includesTest: bool)

  /** A student's credit balances. */
  datatype Account = Account(total: int, available: int)

  /** The balances of a freshly created student row. */
  function NewAccount(): (a: Account)
    ensures a.total == 0 && a.available == 0
  {
    Account(0, 0)
  }

  datatype Appointment = Appointment(
    student: StudentId,
    instructor: InstructorId,
    plan: Option<PlanId>,
    time: int,
    status: Status,
    creditsUsed: int,
    notes: string,
    lessonType: LessonType,
    requirements: string)

  /** An appointment row created with the schema's defaults for the columns the
      caller does not give: status, credits used and notes. */
  function NewAppointment(student: StudentId, instructor: InstructorId, plan: Option<PlanId>,
                          time: int, lessonType: LessonType, requirements: string): (a: Appointment)
    ensures a.status == DefaultStatus && a.creditsUsed == 1 && a.notes == ""
    ensures a.student == student && a.instructor == instructor && a.plan == plan && a.time == time
    ensures a.lessonType == lessonType && a.requirements == requirements
  {
    Appointment(student, instructor, plan, time, Scheduled, 1, "", lessonType, requirements)
  }

  /** A purchase row: whose it is, which plan, the credits it grants and its
      payment state. */
  datatype Purchase = Purchase(student: StudentId, plan: PlanId, credits: nat, status: PaymentStatus)

  /** Deleting a lesson plan keeps every appointment that referred to it and
      only clears the reference. */
  function DetachPlan(appts: seq<Appointment>, p: PlanId): (r: seq<Appointment>)
    ensures |r| == |appts|
    ensures forall k :: 0 <= k < |r| ==> r[k].plan != Some(p)
    ensures forall k :: 0 <= k < |r| ==> r[k].(plan := appts[k].plan) == appts[k]
    ensures forall k :: 0 <= k < |r| && appts[k].plan != Some(p) ==> r[k] == appts[k]
    ensures forall k :: 0 <= k < |r| && appts[k].plan == Some(p) ==> r[k] == appts[k].(plan := None)
  {
    if appts == [] then []
    else
      var a := appts[0];
      [if a.plan == Some(p) then a.(plan := None) else a] + DetachPlan(appts[1..], p)
  }

  /** A review rating: one of the choices 1 to 5. */
  type Rating = r: int | 1 <= r <= 5 witness 1

  /** The rating choice list, range(1, 6). */
  function RatingChoices(): (r: seq<int>)
    ensures |r| == 5
    ensures forall x :: x in r <==> 1 <= x <= 5
  {
    [1, 2, 3, 4, 5]
  }

  /** Checks a submitted rating against the choice list. */
  function CheckRating(x: int): (r: Option<Rating>)
    ensures r.Some? <==> x in RatingChoices()
    ensures r.Some? ==> r.value == x
  {
    if 1 <= x <= 5 then Some(x) else None
  }

  datatype GiftCard = GiftCard(code: string, isUsed: bool)

  /** No two gift cards share a code. */
  predicate CodesUnique(cards: seq<GiftCard>)
  {
    forall j, k :: 0 <= j < k < |cards| ==> cards[j].code != cards[k].code
  }

  function HasCode(cards: seq<GiftCard>, code: string): (b: bool)
    ensures b <==> exists k :: 0 <= k < |cards| && cards[k].code == code
  {
    if cards == [] then false
    else cards[|cards| - 1].code == code || HasCode(cards[..|cards| - 1], code)
  }

  /** Inserting a gift card row: the unique constraint on the code refuses a
      duplicate, so uniqueness is kept. */
  function InsertGiftCard(cards: seq<GiftCard>, card: GiftCard): (r: Option<seq<GiftCard>>)
    ensures r.None? <==> exists k :: 0 <= k < |cards| && cards[k].code == card.code
    ensures r.Some? ==> r.value == cards + [card]
    ensures CodesUnique(cards) && r.Some? ==> CodesUnique(r.value)
  {
    if HasCode(cards, card.code) then None else Some(cards + [card])
  }
}
