/** The help chatbot of the site script: a canned answer chosen by keyword
    groups tried in a fixed order on the lower-cased message. */
module Chatbot {
  import opened JsString

  const PlansAnswer: string :=
    "Our plans range from $160 for 2 hours to $650 for 10 hours. The most popular 8-hour package is $560. Would you like more details about a specific plan?"
  const ScheduleAnswer: string :=
    "You can easily schedule lessons through our online booking system. Simply register for an account and choose your preferred time slots. Our instructors are available Monday-Friday 8AM-7PM and weekends 9AM-5PM."
  const TestAnswer: string :=
    "We offer comprehensive DMV test preparation including behind-the-wheel test prep, written exam practice, and guidance on paperwork and test routes. Our pass rate is 95%!"
  const InstructorAnswer: string :=
    "All our instructors are certified professionals with years of experience. You can request a specific instructor when booking, and we'll do our best to accommodate your preference."
  const LocationAnswer: string :=
    "We're located in Santa Clara, California. We serve the entire Santa Clara area and surrounding regions."
  const CancelAnswer: string :=
    "You can cancel lessons without charge if done 24+ hours in advance. Cancellations within 24 hours will result in a 50% credit deduction."
  const FallbackAnswer: string :=
    "I'm here to help with questions about our driving school, pricing, scheduling, DMV test prep, and more. What specific information would you like to know?"

  /** `getBotResponse`: lower-case the message, then answer for the first
      group of the routing table with a keyword occurring in it. */
  function BotResponse(userMessage: string): (r: string)
    ensures r == Answer(Lower(userMessage), Routes)
  {
    var message := Lower(userMessage);
    TableInOrder(message);
    if Includes(message, "price") || Includes(message, "cost") || Includes(message, "plan") then PlansAnswer
    else if Includes(message, "schedule") || Includes(message, "book") then ScheduleAnswer
    else if Includes(message, "dmv") || Includes(message, "test") then TestAnswer
    else if Includes(message, "instructor") then InstructorAnswer
    else if Includes(message, "location") || Includes(message, "address") then LocationAnswer
    else if Includes(message, "cancel") then CancelAnswer
    else FallbackAnswer
  }

  // ---------------------------------------------------------------------------
  // The routing table

  /** A keyword group and the answer it selects. */
  datatype Route = Route(keywords: seq<string>, answer: string)

  /** The keyword groups in the order they are tried. */
  const Routes: seq<Route> := [
    Route(["price", "cost", "plan"], PlansAnswer),
    Route(["schedule", "book"], ScheduleAnswer),
    Route(["dmv", "test"], TestAnswer),
    Route(["instructor"], InstructorAnswer),
    Route(["location", "address"], LocationAnswer),
    Route(["cancel"], CancelAnswer)
  ]

  /** Some keyword of the group occurs in the message. */
  predicate Mentions(message: string, keywords: seq<string>)
  {
    exists k :: 0 <= k < |keywords| && Includes(message, keywords[k])
  }

  /** The answer of the first route whose group the message mentions, or
      the fallback text. */
  function Answer(message: string, routes: seq<Route>): (r: string)
    ensures r == FallbackAnswer || exists g :: 0 <= g < |routes| && r == routes[g].answer
  {
    if routes == [] then FallbackAnswer
    else if Mentions(message, routes[0].keywords) then routes[0].answer
    else Answer(message, routes[1..])
  }

  /** The first route whose group is mentioned decides the answer. */
  lemma {:induction false} FirstRouteWins(message: string, routes: seq<Route>, g: nat)
    requires g < |routes| && Mentions(message, routes[g].keywords)
    requires forall h :: 0 <= h < g ==> !Mentions(message, routes[h].keywords)
    ensures Answer(message, routes) == routes[g].answer
    decreases g
  {
    if g > 0 {
      assert !Mentions(message, routes[0].keywords);
      FirstRouteWins(message, routes[1..], g - 1);
    }
  }

  /** A message mentioning no group gets the fallback text. */
  lemma {:induction false} NoRouteFallback(message: string, routes: seq<Route>)
    requires forall h :: 0 <= h < |routes| ==> !Mentions(message, routes[h].keywords)
    ensures Answer(message, routes) == FallbackAnswer
    decreases |routes|
  {
    if routes != [] {
      assert !Mentions(message, routes[0].keywords);
      NoRouteFallback(message, routes[1..]);
    }
  }

  lemma MentionsTwo(message: string, a: string, b: string)
    ensures Mentions(message, [a, b]) <==> Includes(message, a) || Includes(message, b)
  {
    if Includes(message, a) {
      assert [a, b][0] == a;
    }
    if Includes(message, b) {
      assert [a, b][1] == b;
    }
  }

  lemma MentionsOne(message: string, a: string)
    ensures Mentions(message, [a]) <==> Includes(message, a)
  {
    if Includes(message, a) {
      assert [a][0] == a;
    }
  }

  lemma MentionsThree(message: string, a: string, b: string, c: string)
    ensures Mentions(message, [a, b, c]) <==> Includes(message, a) || Includes(message, b) || Includes(message, c)
  {
    var ks := [a, b, c];
    if Includes(message, a) {
      assert ks[0] == a;
    }
    if Includes(message, b) {
      assert ks[1] == b;
    }
    if Includes(message, c) {
      assert ks[2] == c;
    }
  }

  /** The routing table, tried in order, is the chain of keyword tests
      written out. */
  lemma TableInOrder(m: string)
    ensures Answer(m, Routes) ==
      if Includes(m, "price") || Includes(m, "cost") || Includes(m, "plan") then PlansAnswer
      else if Includes(m, "schedule") || Includes(m, "book") then ScheduleAnswer
      else if Includes(m, "dmv") || Includes(m, "test") then TestAnswer
      else if Includes(m, "instructor") then InstructorAnswer
      else if Includes(m, "location") || Includes(m, "address") then LocationAnswer
      else if Includes(m, "cancel") then CancelAnswer
      else FallbackAnswer
  {
    var r0 := Routes;
    var r1 := r0[1..];
    var r2 := r1[1..];
    var r3 := r2[1..];
    LaterRoutes(m, r3);
    MentionsTwo(m, "dmv", "test");
    assert Answer(m, r2) == if Includes(m, "dmv") || Includes(m, "test") then TestAnswer else Answer(m, r3);
    MentionsTwo(m, "schedule", "book");
    assert Answer(m, r1) == if Includes(m, "schedule") || Includes(m, "book") then ScheduleAnswer else Answer(m, r2);
    MentionsThree(m, "price", "cost", "plan");
  }

  /** The last three groups of the table: instructor, location/address and
      cancel, then the fallback. */
  lemma LaterRoutes(m: string, r3: seq<Route>)
    requires r3 == Routes[3..]
    ensures Answer(m, r3) ==
      if Includes(m, "instructor") then InstructorAnswer
      else if Includes(m, "location") || Includes(m, "address") then LocationAnswer
      else if Includes(m, "cancel") then CancelAnswer
      else FallbackAnswer
  {
    var r4 := r3[1..];
    var r5 := r4[1..];
    var r6 := r5[1..];
    assert r6 == [];
    MentionsOne(m, "cancel");
    assert Answer(m, r5) == if Includes(m, "cancel") then CancelAnswer else FallbackAnswer;
    MentionsTwo(m, "location", "address");
    assert Answer(m, r4) == if Includes(m, "location") || Includes(m, "address") then LocationAnswer else Answer(m, r5);
    MentionsOne(m, "instructor");
  }

  /** Two messages that differ only in the case of their letters get the
      same answer. */
  lemma CaseInsensitive(a: string, b: string)
    requires SameUpToCase(a, b)
    ensures BotResponse(a) == BotResponse(b)
  {
    LowerSameUpToCase(a, b);
  }

  /** Routes are tried in order: the answer is that of the first group
      mentioned, whatever later groups the message also mentions. */
  lemma Priority(userMessage: string, g: nat)
    requires g < |Routes| && Mentions(Lower(userMessage), Routes[g].keywords)
    requires forall h :: 0 <= h < g ==> !Mentions(Lower(userMessage), Routes[h].keywords)
    ensures BotResponse(userMessage) == Routes[g].answer
  {
    FirstRouteWins(Lower(userMessage), Routes, g);
  }

  /** A price, cost or plan question is answered with the plans, before
      anything else is considered. */
  lemma PlansFirst(userMessage: string)
    requires Includes(Lower(userMessage), "price") || Includes(Lower(userMessage), "cost")
      || Includes(Lower(userMessage), "plan")
    ensures BotResponse(userMessage) == PlansAnswer
  {
  }

  /** A message that mentions no keyword gets the fallback text. */
  lemma Fallback(userMessage: string)
    requires forall h :: 0 <= h < |Routes| ==> !Mentions(Lower(userMessage), Routes[h].keywords)
    ensures BotResponse(userMessage) == FallbackAnswer
  {
    NoRouteFallback(Lower(userMessage), Routes);
  }

  /** "cancel booking" gets the scheduling answer: "book" is tried before
      "cancel". */
  lemma CancelBookingIsScheduling()
    ensures BotResponse("cancel booking") == ScheduleAnswer
  {
    ExampleIsLower();
    ExampleMentionsNoPlan();
    ExampleMentionsBook();
  }

  lemma ExampleIsLower()
    ensures Lower("cancel booking") == "cancel booking"
  {
    LowerFixed("cancel booking");
  }

  lemma ExampleMentionsNoPlan()
    ensures !Includes("cancel booking", "price")
    ensures !Includes("cancel booking", "cost")
    ensures !Includes("cancel booking", "plan")
  {
    var m := "cancel booking";
    assert forall k :: 0 <= k < |m| ==> m[k] != 'p' && m[k] != 's';
    MissingCharExcludes(m, "price", 'p');
    MissingCharExcludes(m, "cost", 's');
    MissingCharExcludes(m, "plan", 'p');
  }

  lemma ExampleMentionsBook()
    ensures Includes("cancel booking", "book")
  {
    IncludesPiece("cancel ", "book", "ing");
    assert "cancel " + "book" + "ing" == "cancel booking";
  }
}
