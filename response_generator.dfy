/**
 * The rule-based reply of `response_generator.py`: a fixed sentence per intent.
 */
module ResponseGenerator {

  const GreetingReply := "Hello! Let's have a conversation. Please talk about anything."

  const HealthReply := "I am doing well! Please continue."

  const GeneralReply := "Interesting. Please tell me more about something else."

  /**
   * `ResponseGenerator.generate`. The entities and the user text are accepted and ignored; the
   * goodbye intent gets an empty reply because the summary is produced elsewhere.
   */
  function Generate<E>(intent: string, entities: E, userText: string): (reply: string)
    ensures reply == "" <==> intent == "goodbye"
    ensures reply in {GreetingReply, HealthReply, GeneralReply, ""}
    ensures intent == "greeting" ==> reply == GreetingReply
    ensures intent == "ask_health" ==> reply == HealthReply
  {
    if intent == "greeting" then GreetingReply
    else if intent == "ask_health" then HealthReply
    else if intent == "goodbye" then ""
    else GeneralReply
  }

  /** The reply is a function of the intent alone. */
  lemma ReplyDependsOnlyOnIntent<E>(intent: string, entities1: E, userText1: string, entities2: E, userText2: string)
    ensures Generate(intent, entities1, userText1) == Generate(intent, entities2, userText2)
  {
  }

  /** Every intent the classifier does not single out gets the general reply. */
  lemma UnknownIntentGetsGeneralReply<E>(intent: string, entities: E, userText: string)
    requires intent !in {"greeting", "ask_health", "goodbye"}
    ensures Generate(intent, entities, userText) == GeneralReply
  {
  }
}
