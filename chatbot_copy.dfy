/** The chatbot of the second page script, which carries its own copy of the
    keyword router: the same groups, in the same order, with the same
    answers. */
module ChatbotCopy {
  import opened JsString
  import Chatbot

  /** `getBotResponse` as the second script writes it: it answers every
      message exactly as the site script does. */
  function BotResponse(userMessage: string): (r: string)
    ensures r == Chatbot.BotResponse(userMessage)
  {
    var message := Lower(userMessage);
    if Includes(message, "price") || Includes(message, "cost") || Includes(message, "plan") then
      "Our plans range from $160 for 2 hours to $650 for 10 hours. The most popular 8-hour package is $560. Would you like more details about a specific plan?"
    else if Includes(message, "schedule") || Includes(message, "book") then
      "You can easily schedule lessons through our online booking system. Simply register for an account and choose your preferred time slots. Our instructors are available Monday-Friday 8AM-7PM and weekends 9AM-5PM."
    else if Includes(message, "dmv") || Includes(message, "test") then
      "We offer comprehensive DMV test preparation including behind-the-wheel test prep, written exam practice, and guidance on paperwork and test routes. Our pass rate is 95%!"
    else if Includes(message, "instructor") then
      "All our instructors are certified professionals with years of experience. You can request a specific instructor when booking, and we'll do our best to accommodate your preference."
    else if Includes(message, "location") || Includes(message, "address") then
      "We're located in Santa Clara, California. We serve the entire Santa Clara area and surrounding regions."
    else if Includes(message, "cancel") then
      "You can cancel lessons without charge if done 24+ hours in advance. Cancellations within 24 hours will result in a 50% credit deduction."
    else
      "I'm here to help with questions about our driving school, pricing, scheduling, DMV test prep, and more. What specific information would you like to know?"
  }

  /** Two messages that differ only in the case of their letters get the
      same answer. */
  lemma CaseInsensitive(a: string, b: string)
    requires SameUpToCase(a, b)
    ensures BotResponse(a) == BotResponse(b)
  {
    Chatbot.CaseInsensitive(a, b);
  }

  /** Groups are tried in the order schedule/book, dmv/test, instructor,
      location/address, cancel, after price/cost/plan: the first group the
      message mentions decides the answer. */
  lemma Priority(userMessage: string, g: nat)
    requires g < |Chatbot.Routes| && Chatbot.Mentions(Lower(userMessage), Chatbot.Routes[g].keywords)
    requires forall h :: 0 <= h < g ==> !Chatbot.Mentions(Lower(userMessage), Chatbot.Routes[h].keywords)
    ensures BotResponse(userMessage) == Chatbot.Routes[g].answer
  {
    Chatbot.Priority(userMessage, g);
  }

  /** Price, cost and plan take priority over every other keyword. */
  lemma PlansFirst(userMessage: string)
    requires Includes(Lower(userMessage), "price") || Includes(Lower(userMessage), "cost")
      || Includes(Lower(userMessage), "plan")
    ensures BotResponse(userMessage) == Chatbot.PlansAnswer
  {
  }

  /** A message mentioning no keyword gets the fixed fallback text. */
  lemma Fallback(userMessage: string)
    requires forall h :: 0 <= h < |Chatbot.Routes| ==> !Chatbot.Mentions(Lower(userMessage), Chatbot.Routes[h].keywords)
    ensures BotResponse(userMessage) == Chatbot.FallbackAnswer
  {
    Chatbot.Fallback(userMessage);
  }
}
