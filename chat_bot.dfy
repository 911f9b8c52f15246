/**
 * The assistant chat: a transcript that starts with a greeting, grows by
 * one user message per non-blank send and, one timer later, by one
 * canned reply chosen from the text that was sent.
 */
module ChatBot {
  import opened JsString

  datatype Sender = User | Bot

  datatype Message = Message(text: string, sender: Sender)

  const Greeting: string := "Hello!" + GreetingRest
  const GreetingRest: string :=
    " I'm your SecureID assistant. How can I help you with your decentralized identity today?"

  /** The five rules of the reply chain, in the order they are tried. */
  datatype Topic = Product | Verification | CredentialInfo | Thanks | Unknown

  /** The canned answer of each rule. */
  function Answer(topic: Topic): string
  {
    match topic
    case Product => ProductAnswer
    case Verification => VerificationAnswer
    case CredentialInfo => CredentialAnswer
    case Thanks => ThanksAnswer
    case Unknown => UnknownAnswer
  }

  // Each text is written as its opening words and the rest, so that
  // proofs can tell them apart by their first character without
  // unfolding the whole text.

  const ProductAnswer: string := "SecureID is" + ProductAnswerRest
  const ProductAnswerRest: string :=
    " a blockchain-based identity solution that allows you to create, manage, and verify your digital identity credentials without relying on centralized authorities. Your data is stored securely on blockchain and you control who can access it."

  const VerificationAnswer: string := "To verify" + VerificationAnswerRest
  const VerificationAnswerRest: string :=
    " your identity, you need to add credentials to your profile. You can do this by clicking on 'Add New Credential' in your identity dashboard. In a real-world scenario, trusted authorities would verify these credentials."

  const CredentialAnswer: string := "Credentials are" + CredentialAnswerRest
  const CredentialAnswerRest: string :=
    " verifiable claims about your identity, like a digital version of your ID card, diploma, or license. You can add these to your identity profile, and they can be verified by authorities without revealing all your personal information."

  const ThanksAnswer: string := "You're welcome!" + ThanksAnswerRest
  const ThanksAnswerRest: string :=
    " If you have any other questions about your decentralized identity, feel free to ask."

  const UnknownAnswer: string := "I'm sorry," + UnknownAnswerRest
  const UnknownAnswerRest: string :=
    " I don't have specific information about that. As a simple demo assistant, my knowledge about SecureID is limited. For more complex questions, please refer to our documentation or contact support."

  /** One of the five texts the bot answers with. */
  ghost predicate IsCannedReply(s: string)
  {
    exists topic :: Answer(topic) == s
  }

  /** The rule chain on the lowercased message: the first rule whose keywords it includes. */
  function Classify(userMessage: string): Topic
  {
    if Includes(userMessage, "what is") || Includes(userMessage, "how does") then Product
    else if Includes(userMessage, "verify") || Includes(userMessage, "verification") then Verification
    else if Includes(userMessage, "credential") then CredentialInfo
    else if Includes(userMessage, "thank") then Thanks
    else Unknown
  }

  /** The reply the bot gives to the text that was sent: the answer of the rule its lowercased form selects. */
  function Reply(text: string): (r: string)
    ensures IsCannedReply(r)
  {
    Answer(Classify(ToLower(text)))
  }

  /** The five answers are different texts, so the reply says which rule fired. */
  lemma AnswersDistinct(t: Topic, u: Topic)
    ensures Answer(t) == Answer(u) <==> t == u
  {
    assert ProductAnswer[0] == 'S' && VerificationAnswer[0] == 'T' && CredentialAnswer[0] == 'C';
    assert ThanksAnswer[0] == 'Y' && UnknownAnswer[0] == 'I';
  }

  /** Each reply is given exactly when its rule is the first one whose keywords the message mentions. */
  lemma ReplyFirstMatch(text: string)
    ensures Reply(text) == Answer(Product) <==>
      Mentions(text, "what is") || Mentions(text, "how does")
    ensures Reply(text) == Answer(Verification) <==>
      !Mentions(text, "what is") && !Mentions(text, "how does") &&
      (Mentions(text, "verify") || Mentions(text, "verification"))
    ensures Reply(text) == Answer(CredentialInfo) <==>
      !Mentions(text, "what is") && !Mentions(text, "how does") &&
      !Mentions(text, "verify") && !Mentions(text, "verification") &&
      Mentions(text, "credential")
    ensures Reply(text) == Answer(Thanks) <==>
      !Mentions(text, "what is") && !Mentions(text, "how does") &&
      !Mentions(text, "verify") && !Mentions(text, "verification") &&
      !Mentions(text, "credential") && Mentions(text, "thank")
    ensures Reply(text) == Answer(Unknown) <==>
      !Mentions(text, "what is") && !Mentions(text, "how does") &&
      !Mentions(text, "verify") && !Mentions(text, "verification") &&
      !Mentions(text, "credential") && !Mentions(text, "thank")
  {
    var message := ToLower(text);
    IncludesIffOccurs(message, "what is");
    IncludesIffOccurs(message, "how does");
    IncludesIffOccurs(message, "verify");
    IncludesIffOccurs(message, "verification");
    IncludesIffOccurs(message, "credential");
    IncludesIffOccurs(message, "thank");
    var topic := Classify(message);
    AnswersDistinct(topic, Product);
    AnswersDistinct(topic, Verification);
    AnswersDistinct(topic, CredentialInfo);
    AnswersDistinct(topic, Thanks);
    AnswersDistinct(topic, Unknown);
  }

  /** A question about verifying credentials gets the verification reply, not the credential one. */
  lemma VerifyOutranksCredential(text: string)
    requires Mentions(text, "verify") && Mentions(text, "credential")
    requires !Mentions(text, "what is") && !Mentions(text, "how does")
    ensures Reply(text) == Answer(Verification)
  {
    ReplyFirstMatch(text);
  }

  /** The reply ignores letter case: a message and its lowercased form are answered alike. */
  lemma ReplyIgnoresCase(text: string)
    ensures Reply(ToLower(text)) == Reply(text)
  {
    ToLowerIdempotent(text);
  }

  /** Saying thanks gets the acknowledgement unless a higher rule fires first. */
  lemma ThanksAnywhere(before: string, after: string)
    ensures Reply(before + "Thank" + after) != Answer(Unknown)
  {
    assert ToLower("Thank") == "thank";
    MentionsWrittenKeyword(before, "Thank", after);
    ReplyFirstMatch(before + "Thank" + after);
  }

  /**
   * The transcript invariant: the greeting, then one user message per send
   * and one bot message per delivered reply; user texts are never blank,
   * and neither are the texts still waiting for a reply.
   */
  ghost predicate ChatInvariant(messages: seq<Message>, pending: seq<string>, replies: nat)
  {
    && |messages| == 1 + 2 * replies + |pending|
    && messages[0] == Message(Greeting, Bot)
    && (forall i :: 1 <= i < |messages| && messages[i].sender == User ==> !IsBlank(messages[i].text))
    && (forall k :: 0 <= k < |pending| ==> !IsBlank(pending[k]))
  }

  /** A non-blank send keeps the invariant. */
  lemma SendKeepsInvariant(messages: seq<Message>, pending: seq<string>, replies: nat, text: string)
    requires ChatInvariant(messages, pending, replies) && !IsBlank(text)
    ensures ChatInvariant(messages + [Message(text, User)], pending + [text], replies)
  {
    var next := messages + [Message(text, User)];
    assert forall i :: 0 <= i < |messages| ==> next[i] == messages[i];
  }

  /** Delivering a reply to the oldest waiting text keeps the invariant. */
  lemma ReplyKeepsInvariant(messages: seq<Message>, pending: seq<string>, replies: nat, answer: string)
    requires ChatInvariant(messages, pending, replies) && pending != []
    ensures ChatInvariant(messages + [Message(answer, Bot)], pending[1..], replies + 1)
  {
    var next := messages + [Message(answer, Bot)];
    assert forall i :: 0 <= i < |messages| ==> next[i] == messages[i];
  }

  /**
   * The chat panel. `pending` holds, oldest first, the texts captured by
   * reply timers that have not fired yet: every timer has the same delay,
   * so they fire in the order they were set.
   */
  class Chat {
    var messages: seq<Message>
    var input: string
    var isTyping: bool
    var pending: seq<string>
    /** Replies delivered so far. */
    ghost var replies: nat

    ghost predicate Valid()
      reads this
    {
      ChatInvariant(messages, pending, replies)
    }

    /** The panel opens on the greeting, with an empty input and no reply under way. */
    constructor ()
      ensures Valid()
      ensures messages == [Message(Greeting, Bot)]
      ensures input == "" && !isTyping && pending == [] && replies == 0
    {
      messages := [Message(Greeting, Bot)];
      input := "";
      isTyping := false;
      pending := [];
      replies := 0;
    }

    /** Typing into the message box. */
    method Type(text: string)
      requires Valid()
      modifies this`input
      ensures Valid() && input == text
    {
      input := text;
    }

    /**
     * Submitting the input. A blank input changes nothing; otherwise the
     * text, untrimmed, is appended as a user message, the box is cleared,
     * the typing indicator comes on and a reply is scheduled for that text.
     */
    method Send()
      requires Valid()
      modifies this
      ensures Valid()
      ensures Trim(old(input)) == [] ==>
        && messages == old(messages) && input == old(input) && isTyping == old(isTyping)
        && pending == old(pending) && replies == old(replies)
      ensures Trim(old(input)) != [] ==>
        && messages == old(messages) + [Message(old(input), User)]
        && input == "" && isTyping
        && pending == old(pending) + [old(input)] && replies == old(replies)
    {
      if Trim(input) == [] {
        return;
      }
      TrimEmptyIffBlank(input);
      var text := input;
      SendKeepsInvariant(messages, pending, replies, text);
      messages := messages + [Message(text, User)];
      input := "";
      isTyping := true;
      pending := pending + [text];
    }

    /**
     * The oldest reply timer fires: the reply to the text captured when it
     * was set is appended as a bot message and the typing indicator goes off.
     */
    method CompleteReply()
      requires Valid() && pending != []
      modifies this
      ensures Valid()
      ensures messages == old(messages) + [Message(Reply(old(pending[0])), Bot)]
      ensures pending == old(pending[1..]) && replies == old(replies) + 1
      ensures !isTyping && input == old(input)
    {
      var text := pending[0];
      ReplyKeepsInvariant(messages, pending, replies, Reply(text));
      messages := messages + [Message(Reply(text), Bot)];
      pending := pending[1..];
      isTyping := false;
      replies := replies + 1;
    }

    /** With no reply outstanding the transcript holds the greeting and one pair per delivered reply. */
    lemma SettledLength()
      requires Valid() && pending == []
      ensures |messages| == 1 + 2 * replies
    {
    }
  }
}
