# Driving school: lessons, credits and the site scripts

This project models the core of a driving-school web application in Dafny.

- **Credit ledger.** A student buys lesson plans. A plan is bought through a cart or as one pending purchase paid on a stand-in payment page. Each plan grants its hours as credits, added to two balances: total and available.
- **Appointments.** A booking takes one available credit. Each operation is refused, with a reason, in these cases, checked in this order:
  - **Booking:** the student has no credits; the instructor is unavailable; the instant is in the past; the slot is taken.
  - **Cancellation:** the appointment is not the caller's own; it is already completed; it is already cancelled; it is less than 24 hours away.
  - **Reschedule:** the cancellation checks first; then the new time is not after now; the instructor is unavailable; another appointment holds the slot.
- **Lessons.** An instructor marks a lesson complete. A query lists the free hourly slots of an instructor on a day.
- **Site scripts.** The browser scripts hold two keyword-routed help chatbots and a form validator. The validator reads rules such as `required|min:3|email`.

The database is the class `School.Store`. Its fields are maps and sequences, and each view is a method that either refuses and leaves the store unchanged or applies one update. Every method keeps `Store.Valid()`, which says four things:

- For each student, total credits minus available credits equals the number of appointments the student has booked. No credit is ever refunded.
- Available credits never go below zero.
- No two appointments hold the same instructor at the same instant.
- Carts hold catalog plans only.

The rules behind the views are pure functions in `Scheduling`. The script functions are pure functions over `seq<char>`, built on a small model of the JavaScript string operations in `JsString` (`toLowerCase`, `includes`, `trim`, `split`, `parseInt`). `Scenarios` replays six short sessions against a fresh store: double booking, booking without credits, the 24-hour notice, rescheduling into a held slot, settling a 4+6 hour cart, and paying twice.

In these places the code's behaviour is easy to misread; the model follows the code:

- A booking at exactly the current instant is accepted. Only an earlier instant is refused. A reschedule must be strictly later than now.
- Any appointment blocks its instructor's slot for booking and rescheduling, cancelled ones included. The free-slot query, however, only removes Scheduled appointments.
- Cancelling or rescheduling exactly 24 hours ahead is allowed. A No-show appointment can still be cancelled or rescheduled.
- Cancelling never refunds a credit.
- The payment page credits the purchase on every submission, even when it is already completed.

## Model

| member | source | states |
|---|---|---|
| Models.ParseStatus | drivingschool/models.py:42-47 | a stored label reads back as the status whose label it is; any text outside the four choices is refused |
| Models.StatusRoundTrip | drivingschool/models.py:42-52 | every status survives being stored as its label and read back |
| Models.NewAccount | drivingschool/models.py:12 | a new student row starts with 0 total and 0 available credits |
| Models.NewAppointment | drivingschool/models.py:48-54 | a new appointment is Scheduled, uses 1 credit and has empty notes, with the given student, instructor, plan, time, lesson type and requirements |
| Models.DetachPlan | drivingschool/models.py:50 | deleting a plan keeps every appointment; each reference to that plan becomes None, every other field is unchanged, and every other appointment is unchanged |
| Models.RatingChoices | drivingschool/models.py:62 | the choices are exactly 1 to 5 |
| Models.CheckRating | drivingschool/models.py:62 | a submitted rating is accepted iff it is one of the choices, and is kept as given |
| Models.HasCode | drivingschool/models.py:81 | true iff some gift card carries the code |
| Models.InsertGiftCard | drivingschool/models.py:81 | an insert is refused iff the code already exists, otherwise the card is appended; unique codes stay unique |
| Scheduling.SecondOfDay | drivingschool/views.py:938-939 | the time of day is in [0, 86400) and, with the day, gives the instant back |
| Scheduling.Clock | drivingschool/views.py:932 | an "%H:%M" label has five characters with ':' in the middle |
| Scheduling.ParseClock | drivingschool/views.py:942 | a label that parses gives a minute of the day in [0, 1440) |
| Scheduling.ClockRoundTrip | drivingschool/views.py:932-942 | parsing the label of a minute gives the minute back |
| Scheduling.ParseClockInverse | drivingschool/views.py:932-942 | every label that parses is the label of the minute it parses to |
| Scheduling.SlotTaken | drivingschool/views.py:333 | a slot is taken iff some appointment, whatever its status, has that instructor at that instant |
| Scheduling.SlotTakenExcept | drivingschool/views.py:510-513 | the same, ignoring the appointment being moved |
| Scheduling.NoticeGiven | drivingschool/views.py:411-412 | enough notice iff the lesson is at least 24 hours (86400 seconds) after now |
| Scheduling.RescheduleNotes | drivingschool/views.py:524-525 | an empty reason keeps the notes; otherwise the notes start with "Rescheduled: " and the reason, and non-empty old notes follow after " \| Previous notes: " |
| Scheduling.Newest | drivingschool/views.py:338-343 | the newest completed purchase of the student (optionally one whose plan includes the test); none iff no purchase qualifies |
| Scheduling.ChooseLesson | drivingschool/views.py:338-349 | test preparation iff some completed purchase includes the test, with the newest such plan; otherwise a beginner lesson with the newest completed purchase's plan, or no plan iff there is none |
| Scheduling.Filter | drivingschool/views.py:935 | keeps exactly the accepted slots, as a set, in their order |
| Scheduling.FilterCount | drivingschool/views.py:935 | each accepted slot is kept as often as it occurs, and every other is dropped |
| Scheduling.BookedTimes | drivingschool/views.py:922-932 | holds the label of every Scheduled appointment of the instructor that day, and nothing else |
| Scheduling.AvailableSlots | drivingschool/views.py:910-943 | no answer iff the instructor is unknown or unavailable; otherwise the fixed slots, in order, not held by a Scheduled appointment, and on the current day only slots still to come |
| Scheduling.QueryAvailableSlots | drivingschool/views.py:894-943 | the loop over the appointments gives exactly the answer AvailableSlots describes |
| School.CartHoursRemove | drivingschool/views.py:728-739 | the credits of a cart do not depend on the order its plans are taken |
| School.PurchasesFor | drivingschool/views.py:728-739 | one completed purchase per cart plan, each granting that plan's hours, no plan twice; the credits total the cart's hours |
| School.Store.AddStudent | drivingschool/views.py:136-140 | a signed-in user without a student row gets one with empty balances; an existing row is untouched |
| School.Store.Book | drivingschool/views.py:303-378 | refused, with nothing changed, for no credits, an unavailable instructor, a past instant or a taken slot, checked in that order; otherwise one Scheduled appointment with the chosen lesson type and plan is added and one credit is taken |
| School.Store.Cancel | drivingschool/views.py:382-436 | refused, with nothing changed, for a missing or foreign appointment, a Completed or Cancelled one, or less than 24 hours' notice; otherwise only its status becomes Cancelled and no credit comes back |
| School.Store.Reschedule | drivingschool/views.py:440-542 | the cancellation checks, then a time not in the future, an unavailable instructor or a slot held by another appointment refuse it; otherwise only its time, instructor and notes change |
| School.Store.MarkComplete | drivingschool/views.py:819-826 | only the instructor's own appointment is found; a Scheduled one becomes Completed, anything else stays as it is |
| School.Store.AddToCart | drivingschool/views.py:571-586 | a catalog plan joins the student's cart, created if needed; a plan already there is not added twice; an unknown plan is refused |
| School.Store.RemoveFromCart | drivingschool/views.py:641-647 | a plan in the student's cart is taken out of it and nothing else changes; a plan not in their cart is not found |
| School.Store.SettleCart | drivingschool/views.py:709-757 | an empty cart is refused; otherwise the purchases of PurchasesFor are appended, both balances rise by the cart's total hours, and the cart is emptied |
| School.Store.CreatePendingPurchase | drivingschool/views.py:761-775 | a pending purchase of a catalog plan, granting its hours, is appended; an unknown plan is refused |
| School.Store.Pay | drivingschool/views.py:779-801 | the student's own purchase becomes completed and both balances rise by its credits, on every payment |
| Scenarios.DoubleBooking | drivingschool/views.py:333-335 | a second booking of the same instructor and instant is refused and one appointment remains |
| Scenarios.BookingWithoutCredits | drivingschool/views.py:307-309 | with no credits a booking is refused, no appointment is created, and the balance stays 0 |
| Scenarios.CancellationNotice | drivingschool/views.py:410-416 | a lesson 25 hours away can be cancelled; one 23 hours away cannot |
| Scenarios.RescheduleIntoHeldSlot | drivingschool/views.py:510-519 | moving a lesson onto a held slot is refused and the lesson keeps its time |
| Scenarios.SettleFourAndSix | drivingschool/views.py:728-747 | settling plans of 4 and 6 hours gives balances of exactly 10 and an empty cart |
| Scenarios.PayTwice | drivingschool/views.py:785-793 | paying a purchase twice grants its credits twice |
| JsString.LowerChar | static/js/script.js:747 | an ASCII capital becomes its small letter (code point plus 32), the Kelvin sign becomes 'k', and any other character is unchanged; the result is never a capital |
| JsString.Lower | static/js/script.js:747 | same length, each character lowered |
| JsString.LowerSameUpToCase | static/js/script.js:747 | two strings that differ only in the case of their ASCII letters have the same lower case |
| JsString.LowerIdempotent | static/js/script.js:747 | lowering twice is lowering once |
| JsString.Includes | static/js/script.js:749-760 | true iff the keyword occurs at some position of the message |
| JsString.Trim | static/js/script.js:593 | the result is the input without white space at either end, and neither of its ends is white space |
| JsString.TrimIdempotent | static/js/script.js:593 | trimming twice is trimming once |
| JsString.Split | static/js/script.js:594-597 | at least one piece; no piece holds the separator; joining the pieces gives the input back |
| JsString.SplitJoin | static/js/script.js:594-597 | splitting joined separator-free pieces gives the pieces back |
| JsString.ParseInt | static/js/script.js:614-616 | a number is read only from text that holds a digit |
| JsString.ParseIntText | static/js/script.js:614-616 | every integer written in decimal parses back to itself |
| JsString.ParseIntPrefix | static/js/script.js:614-616 | an integer written in decimal and followed by text that cannot continue it (not a digit, and not 'x' or 'X' after a lone "0") parses to that integer; the rest is ignored |
| JsString.ParseIntPlus | static/js/script.js:614-616 | a '+' in front of a decimal number changes nothing |
| JsString.ParseIntHex | static/js/script.js:614-616 | "0x" or "0X" followed by hexadecimal digits parses to their value in base 16; what follows the digits is ignored |
| JsString.ParseIntHexEmpty | static/js/script.js:614-616 | "0x" or "0X" not followed by a hexadecimal digit is NaN |
| JsString.ParseIntSkipsSpace | static/js/script.js:614-616 | leading white space does not change what parses |
| FormValidation.IsValidEmail | static/js/script.js:315-318 | an address is accepted iff it matches the pattern: non-empty text without white space or '@', then '@', then such text, '.', and such text |
| FormValidation.EmailIff | static/js/script.js:315-318 | the one-pass scan (no white space, one '@' with text before it, a '.' strictly inside the text after it) accepts exactly what the pattern matches |
| FormValidation.EmailShape | static/js/script.js:315-318 | an accepted address has no white space and exactly one '@', not at its start |
| FormValidation.StripSeparators | static/js/script.js:322 | no space, '-', '(' or ')' remains; every other character is kept as often as it occurred and in its original order |
| FormValidation.PhoneDigits | static/js/script.js:321 | an optional '+', a digit 1 to 9, then at most fifteen digits |
| FormValidation.IsValidPhone | static/js/script.js:320-323 | accepted iff the number without separators matches the phone pattern; an accepted number holds 1 to 16 digits and nothing but digits, separators and '+' |
| FormValidation.PhoneDigitCount | static/js/script.js:320-323 | an accepted phone number holds 1 to 16 digits and nothing but digits, '+' and separators |
| FormValidation.RequiredIff | static/js/script.js:611-612 | "required" passes iff the trimmed value is not empty |
| FormValidation.LengthRulesIff | static/js/script.js:613-616 | "min:n" passes iff the value has at least n characters; "max:n" iff it has at most n |
| FormValidation.LengthRulesWithoutValue | static/js/script.js:613-616 | "min" and "max" without a number always fail |
| FormValidation.ValidateRule | static/js/script.js:609-623 | a rule the validator does not know always passes; "email" passes iff the value matches the address pattern; "phone" passes iff the value without separators matches the phone pattern, and then holds 1 to 16 digits |
| FormValidation.ErrorMessage | static/js/script.js:626-634 | the generic "Invalid input" iff the rule is not one of the five known rules |
| FormValidation.FailingRuleMessage | static/js/script.js:609-634 | a rule that can fail always has its own message |
| FormValidation.RulesOf | static/js/script.js:594 | no rules when the field has no validation attribute; otherwise at least one rule, and the rules joined by '\|' give the attribute back |
| FormValidation.RuleParts | static/js/script.js:597 | the rule name is the text before the first ':' (or all of it); there is no rule value iff there is no ':'; otherwise the value is the text between the first ':' and the next ':' or the end |
| FormValidation.ValidateField | static/js/script.js:591-607 | the field is valid iff every rule passes on the trimmed value; a valid field shows no message; an invalid one shows the message of the first failing rule |
| Chatbot.BotResponse | static/js/script.js:746-764 | the answer is that of the first group in the routing table that the lower-cased message mentions, or the fallback |
| Chatbot.Answer | static/js/script.js:749-762 | the answer is the fallback or one route's answer |
| Chatbot.FirstRouteWins | static/js/script.js:749-762 | the first route whose keyword group is mentioned decides the answer |
| Chatbot.NoRouteFallback | static/js/script.js:761-762 | a message mentioning no group gets the fallback |
| Chatbot.TableInOrder | static/js/script.js:749-762 | trying the routing table in order gives the same answer as the chain of keyword tests |
| Chatbot.CaseInsensitive | static/js/script.js:747 | two messages that differ only in the case of their ASCII letters get the same answer |
| Chatbot.Priority | static/js/script.js:749-762 | the first group mentioned decides, whatever later groups the message also mentions |
| Chatbot.PlansFirst | static/js/script.js:749-750 | a price, cost or plan question gets the plans answer |
| Chatbot.Fallback | static/js/script.js:761-762 | a message without any keyword gets the fallback answer |
| Chatbot.CancelBookingIsScheduling | static/js/script.js:751-760 | "cancel booking" gets the scheduling answer, since "book" is tried before "cancel" |
| ChatbotCopy.BotResponse | static/js/script2.js:76-94 | the second script answers every message exactly as the first does |
| ChatbotCopy.CaseInsensitive | static/js/script2.js:77 | two messages that differ only in the case of their ASCII letters get the same answer |
| ChatbotCopy.Priority | static/js/script2.js:79-92 | the first group mentioned decides the answer |
| ChatbotCopy.PlansFirst | static/js/script2.js:79-80 | a price, cost or plan question gets the plans answer |
| ChatbotCopy.Fallback | static/js/script2.js:91-92 | a message without any keyword gets the fallback answer |

## Left out

- Web framework plumbing is not modelled: HTTP requests, templates, redirects, flash messages, JSON responses and the form-presence checks. A view's refusal is an `Error` value.
- Roles are not modelled. The signed-in student or instructor is an argument, and the role decorators are not part of this model.
- Date and time parsing (`strptime`), time zones and daylight saving are not modelled. Instants are integer seconds, and a day is 86400 of them.
- The parse-error paths of the booking and reschedule views are left out, because their input is already an instant. So are their exception handlers, which the model folds into refusals.
- Random payment ids are left out.
- Decimal prices and the float progress percentage of the student portal are left out.
- E-mail sending is left out.
- `payment_success` (views.py:698-705) is left out. It adds a plan's hours to the total credits only, not to the available credits, so one call would break the invariant that total minus available equals the lessons booked. No operation of the model reaches that state.
- The other views are left out: `checkout`, `view_cart`, `checkout_cart`, `add_to_cart_and_checkout`, `select_plan` and the portals. Each is a page render or a redirect around the operations above.
- `chatbot_api` (views.py:868-891) is left out. It is a separate server-side responder, with matching of its own that differs from the site scripts' chatbot: it looks up the exact lower-cased message among four fixed messages ("hello", "pricing", "book", "contact") and otherwise gives a fixed fallback text.
- Plan hours and purchase credits are `nat`: they are taken to be non-negative. The schema (models.py:33) declares plan hours as a plain integer field with no lower bound. The invariant that available credits never go below zero depends on this assumption.
- The first `add_to_cart` definition (views.py:254) is left out, because the later definition at views.py:571 replaces it.
- School.Store.Book: does not state the floor at 0 on the credit deduction. The guard already requires at least one credit, so the floor never applies.
- Purchase dates are not modelled. "Newest purchase" means the latest in creation order, which is what the purchase-date ordering gives for rows created one after another.
- The failed payment state is not modelled, because no view writes it.
- The available-credits column is not declared in the schema file. It is taken to start at 0 like total credits.
- Concurrency is not modelled. Two requests racing for one slot could both pass the conflict check.
- JsString.LowerChar: lowers only the ASCII capitals and the Kelvin sign, which lowers to 'k'. Other characters whose lower case is an ASCII letter could change which keyword matches, and they are not modelled. Multi-character lower-casing is not modelled either.
- String lengths count characters, not the UTF-16 code units JavaScript counts.
- JsString.ParseInt: reads the exact integer. JavaScript's precision loss above 2^53 is not modelled.
- FormValidation.ErrorMessage: a rule name that is a built-in object key (such as "constructor") gives the generic message here. The script would look up the object's prototype instead.
- The older `DrivingSchoolApp.validateField` (script.js:290) and the page's DOM, animation and UI code are left out.
- The chatbot's claim of a 50% credit deduction for late cancellations is not modelled, because no code applies it.
