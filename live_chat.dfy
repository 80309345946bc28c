/** The live-chat support window (src/components/LiveChatModal.js): a keyword-driven
    responder that carries a conversation topic from one message to the next, and the
    window state that the send button and the opening of the window update. */
module LiveChat {
  import opened Options
  import opened Text

  const TopicPassword: string := "password"
  const TopicTasks: string := "tasks"
  const TopicBilling: string := "billing"

  const ReplyThanks: string := "You're very welcome! Is there anything else I can help with today?"
  const ReplyHello: string := "Hello there! What can I assist you with?"
  const ReplyYes: string := "Great! What else can I help you with?"
  const ReplyNo: string := "Okay, is there a different topic I can help you with?"
  const ReplyPassword: string := "I can help with password issues. You can change your password in Settings > Security. Would you like more details?"
  const ReplyTasks: string := "Let's talk about tasks. You can create, edit, or delete them from the Dashboard. What would you like to know?"
  const ReplyBilling: string := "For billing, you can view invoices and manage your subscription in the Settings page. Does that help?"
  const ReplyTaskDelete: string := "To delete a task, click the three-dot menu next to it on the Dashboard and select 'Delete'. Anything else about tasks?"
  const ReplyTaskCreate: string := "You can create a new task by clicking the 'Add Task' button on the Dashboard. What other questions do you have about tasks?"
  const ReplyTaskClarify: string := "I can help with creating, editing, and deleting tasks. Could you clarify what you'd like to do?"
  const ReplyPasswordMore: string := "To find the password settings, go to the 'Settings' page from the sidebar, then click on the 'Security' section. Let me know if you need more help!"
  const ReplyFallback: string := "I'm not quite sure how to help with that. Could you try rephrasing? You can ask me about passwords, tasks, or billing."
  const Welcome: string := "Welcome to Live Chat! How can I help you today? You can ask me about tasks, billing, your account, or anything else."

  /** `{ responseText, newTopic }`: the reply may be `undefined` (`None`), and the topic
      is `null` (`None`) or a string. */
  datatype BotReply = BotReply(text: Option<string>, topic: Option<string>)

  /** The topics the responder ever sets. */
  predicate KnownTopic(t: Option<string>) {
    t.None? || t.value == TopicPassword || t.value == TopicTasks || t.value == TopicBilling
  }

  /** `msg.includes(a) || msg.includes(b)`. */
  predicate Mentions(msg: string, a: string, b: string) {
    Contains(msg, a) || Contains(msg, b)
  }

  /** The topic a message names, by precedence password/reset, then task, then
      billing/invoice. */
  function NamedTopic(msg: string): (r: Option<(string, string)>)
    ensures r == Some((TopicPassword, ReplyPassword)) <==> Mentions(msg, "password", "reset")
    ensures r == Some((TopicTasks, ReplyTasks)) <==>
      !Mentions(msg, "password", "reset") && Contains(msg, "task")
    ensures r == Some((TopicBilling, ReplyBilling)) <==>
      !Mentions(msg, "password", "reset") && !Contains(msg, "task") && Mentions(msg, "billing", "invoice")
    ensures r.None? <==>
      !Mentions(msg, "password", "reset") && !Contains(msg, "task") && !Mentions(msg, "billing", "invoice")
    ensures r.Some? ==> KnownTopic(Some(r.value.0))
  {
    if Mentions(msg, "password", "reset") then Some((TopicPassword, ReplyPassword))
    else if Contains(msg, "task") then Some((TopicTasks, ReplyTasks))
    else if Mentions(msg, "billing", "invoice") then Some((TopicBilling, ReplyBilling))
    else None
  }

  /** `getBotResponse(userMessage, currentTopic)`. Every test is a substring test on the
      lower-cased message, made in a fixed order. When no topic keyword is found, the
      `switch` on a current 'tasks' or 'password' topic picks a follow-up text but leaves
      the topic unidentified, so the closing test replaces that text with the fallback
      and clears the topic; any other current topic (billing) is marked identified, so
      the reply stays `undefined` and the topic is kept. */
  function BotResponse(userMessage: string, currentTopic: Option<string>): (r: BotReply)
    ensures KnownTopic(currentTopic) ==> KnownTopic(r.topic)
    ensures r.topic == currentTopic || KnownTopic(r.topic)
  {
    var msg := Lower(userMessage);
    if Mentions(msg, "thanks", "thank you") then BotReply(Some(ReplyThanks), None)
    else if Mentions(msg, "hello", "hi") then BotReply(Some(ReplyHello), None)
    else if Contains(msg, "yes") then BotReply(Some(ReplyYes), currentTopic)
    else if Contains(msg, "no") then BotReply(Some(ReplyNo), None)
    else
      match NamedTopic(msg)
      case Some((topic, text)) => BotReply(Some(text), Some(topic))
      case None =>
        if currentTopic.Some? && currentTopic.value != "" && currentTopic.value != TopicTasks
           && currentTopic.value != TopicPassword
        then BotReply(None, currentTopic)
        else BotReply(Some(ReplyFallback), None)
  }

  /** Thanks win over everything else and close the topic, whatever it was. */
  lemma ThanksWins(userMessage: string, currentTopic: Option<string>)
    requires Contains(Lower(userMessage), "thanks") || Contains(Lower(userMessage), "thank you")
    ensures BotResponse(userMessage, currentTopic) == BotReply(Some(ReplyThanks), None)
  {
  }

  /** A greeting that is not also a thank-you gets the greeting and clears the topic,
      whatever the topic was. */
  lemma HelloClearsTopic(userMessage: string, currentTopic: Option<string>)
    requires var m := Lower(userMessage);
      !Mentions(m, "thanks", "thank you") && (Contains(m, "hello") || Contains(m, "hi"))
    ensures BotResponse(userMessage, currentTopic) == BotReply(Some(ReplyHello), None)
  {
  }

  /** A "yes" that is not also a thank-you or a greeting keeps the topic. */
  lemma YesKeepsTopic(userMessage: string, currentTopic: Option<string>)
    requires var m := Lower(userMessage);
      !Mentions(m, "thanks", "thank you") && !Mentions(m, "hello", "hi") && Contains(m, "yes")
    ensures BotResponse(userMessage, currentTopic) == BotReply(Some(ReplyYes), currentTopic)
  {
  }

  /** A message that reaches the "no" test, however the word is embedded, clears the topic. */
  lemma NoClearsTopic(userMessage: string, currentTopic: Option<string>)
    requires var m := Lower(userMessage);
      !Mentions(m, "thanks", "thank you") && !Mentions(m, "hello", "hi") && !Contains(m, "yes") && Contains(m, "no")
    ensures BotResponse(userMessage, currentTopic) == BotReply(Some(ReplyNo), None)
  {
  }

  /** The tests are substring tests: "this" contains "hi" and is answered with the
      greeting, and "know" contains "no" and drops the topic. */
  lemma SubstringSurprises(currentTopic: Option<string>)
    ensures BotResponse("this", currentTopic) == BotReply(Some(ReplyHello), None)
    ensures BotResponse("know", currentTopic) == BotReply(Some(ReplyNo), None)
  {
    assert Lower("this") == "this";
    ContainsInfix("t", "hi", "s");
    assert "t" + "hi" + "s" == "this";
    assert Lower("know") == "know";
    ContainsInfix("k", "no", "w");
    assert "k" + "no" + "w" == "know";
    LureFree("know");
  }

  lemma LureFree(m: string)
    requires m == "know"
    ensures !Contains(m, "hi") && !Contains(m, "yes") && !Mentions(m, "thanks", "thank you") && !Mentions(m, "hello", "hi")
  {
    MissingFirst(m, "hi");
    MissingFirst(m, "hello");
    MissingFirst(m, "yes");
    MissingFirst(m, "thanks");
    MissingFirst(m, "thank you");
  }

  /** With no reply keyword and no topic keyword, no topic, a 'tasks' topic and a
      'password' topic all get the fallback and lose the topic; billing keeps the topic
      with an `undefined` reply. */
  lemma NoKeywordReply(userMessage: string, currentTopic: Option<string>)
    requires var m := Lower(userMessage);
      && !Mentions(m, "thanks", "thank you") && !Mentions(m, "hello", "hi")
      && !Contains(m, "yes") && !Contains(m, "no") && NamedTopic(m).None?
    ensures var r := BotResponse(userMessage, currentTopic);
      && (currentTopic.None? ==> r == BotReply(Some(ReplyFallback), None))
      && (currentTopic == Some(TopicPassword) ==> r == BotReply(Some(ReplyFallback), None))
      && (currentTopic == Some(TopicTasks) ==> r == BotReply(Some(ReplyFallback), None))
      && (currentTopic == Some(TopicBilling) ==> r == BotReply(None, currentTopic))
  {
  }

  /** The follow-up texts of the `switch` are never what the responder answers: whatever
      the message and the topic, the reply is none of them. */
  lemma {:induction false} FollowUpsNeverShown(userMessage: string, currentTopic: Option<string>)
    ensures var t := BotResponse(userMessage, currentTopic).text;
      t != Some(ReplyTaskDelete) && t != Some(ReplyTaskCreate) && t != Some(ReplyTaskClarify)
      && t != Some(ReplyPasswordMore)
  {
    var t := BotResponse(userMessage, currentTopic).text;
    if t.Some? {
      var replies := [ReplyThanks, ReplyHello, ReplyYes, ReplyNo, ReplyPassword, ReplyTasks, ReplyBilling, ReplyFallback];
      assert t.value in replies;
      DistinctReplies(t.value, replies);
    }
  }

  /** Each reply the responder can give differs from each follow-up text: their first
      characters or their lengths tell them apart. */
  lemma DistinctReplies(x: string, replies: seq<string>)
    requires replies == [ReplyThanks, ReplyHello, ReplyYes, ReplyNo, ReplyPassword, ReplyTasks, ReplyBilling, ReplyFallback]
    requires x in replies
    ensures x != ReplyTaskDelete && x != ReplyTaskCreate && x != ReplyTaskClarify && x != ReplyPasswordMore
  {
  }

  /** A topic keyword answers with that topic's text and replaces whatever topic was
      current. */
  lemma KeywordSetsTopic(userMessage: string, currentTopic: Option<string>)
    requires var m := Lower(userMessage);
      && !Mentions(m, "thanks", "thank you") && !Mentions(m, "hello", "hi")
      && !Contains(m, "yes") && !Contains(m, "no") && NamedTopic(m).Some?
    ensures var m := Lower(userMessage);
      BotResponse(userMessage, currentTopic).topic == Some(NamedTopic(m).value.0)
    ensures var m := Lower(userMessage);
      BotResponse(userMessage, currentTopic).text == Some(NamedTopic(m).value.1)
    ensures Contains(Lower(userMessage), "reset") ==> BotResponse(userMessage, currentTopic).topic == Some(TopicPassword)
  {
  }

  datatype Sender = User | Bot

  /** One line of the conversation; a bot line may carry an `undefined` text. */
  datatype ChatMessage = ChatMessage(id: int, sender: Sender, text: Option<string>)

  const InitialMessage: ChatMessage := ChatMessage(1, Bot, Some(Welcome))

  /** The window's state: the draft in the input box, the conversation, the topic, the
      typing indicator, and the replies whose delivery timer has not fired yet. */
  class ChatSession {
    var draft: string
    var messages: seq<ChatMessage>
    var topic: Option<string>
    var typing: bool
    var pending: seq<Option<string>>

    ghost predicate Valid()
      reads this
    {
      KnownTopic(topic) && |messages| >= 1
    }

    constructor ()
      ensures Valid()
      ensures draft == "" && messages == [InitialMessage] && topic.None? && !typing && pending == []
    {
      draft := "";
      messages := [InitialMessage];
      topic := None;
      typing := false;
      pending := [];
    }

    /** The effect that runs when the window is opened: a fresh conversation. */
    method Open()
      requires Valid()
      modifies this
      ensures Valid()
      ensures messages == [InitialMessage] && topic.None?
      ensures draft == old(draft) && typing == old(typing) && pending == old(pending)
    {
      messages := [InitialMessage];
      topic := None;
    }

    /** Typing in the input box. */
    method Type(text: string)
      requires Valid()
      modifies this
      ensures Valid()
      ensures draft == text
      ensures messages == old(messages) && topic == old(topic) && typing == old(typing) && pending == old(pending)
    {
      draft := text;
    }

    /** `handleSendMessage` with `now` for `Date.now()`: a blank draft is ignored;
        otherwise the draft is appended as the user's line, the reply is computed
        against the current topic and queued for delivery, and the topic moves on. */
    method Send(now: int)
      requires Valid()
      modifies this
      ensures Valid()
      ensures Blank(old(draft)) ==>
        draft == old(draft) && messages == old(messages) && topic == old(topic)
        && typing == old(typing) && pending == old(pending)
      ensures !Blank(old(draft)) ==>
        var r := BotResponse(old(draft), old(topic));
        && messages == old(messages) + [ChatMessage(now, User, Some(old(draft)))]
        && topic == r.topic && draft == "" && typing && pending == old(pending) + [r.text]
    {
      if Blank(draft) {
        return;
      }
      var r := BotResponse(draft, topic);
      messages := messages + [ChatMessage(now, User, Some(draft))];
      draft := "";
      typing := true;
      topic := r.topic;
      pending := pending + [r.text];
    }

    /** The timer of the `k`-th queued reply fires at `now`: the reply joins the
        conversation and the typing indicator goes off. */
    method Deliver(k: nat, now: int)
      requires Valid() && k < |pending|
      modifies this
      ensures Valid()
      ensures messages == old(messages) + [ChatMessage(now + 1, Bot, old(pending)[k])]
      ensures pending == old(pending)[..k] + old(pending)[k + 1..]
      ensures !typing && draft == old(draft) && topic == old(topic)
    {
      messages := messages + [ChatMessage(now + 1, Bot, pending[k])];
      pending := pending[..k] + pending[k + 1..];
      typing := false;
    }
  }
}
