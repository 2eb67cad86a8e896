/**
 * The chat page of the web client (pages/chat/chat.component.ts): a message log that
 * starts with the assistant's greeting, grows by the user's message and then by the
 * assistant's reply or an apology. The reply is passed to the method that sends the
 * message, so each send appends both of its messages at once.
 */
module Chat {
  import opened Wrappers
  import opened Strings

  datatype Message = Message(content: string, isUser: bool)

  const Greeting := "Hello! I'm your document assistant. " +
    "I can help you understand and analyze your uploaded documents. " + "What would you like to know?"
  const ChatApology := "Sorry, I encountered an error while processing your request. " + "Please try again."

  /** The assistant's message for a reply: its answer, or the apology when the call failed (`None`). */
  function ReplyMessage(reply: Option<string>): (m: Message)
    ensures !m.isUser
  {
    Message(if reply.Some? then reply.value else ChatApology, false)
  }

  /** The texts of the user's messages, in order. */
  function UserTexts(messages: seq<Message>): seq<string> {
    if messages == [] then []
    else (if messages[0].isUser then [messages[0].content] else []) + UserTexts(messages[1..])
  }

  /** The log invariant: the greeting comes first, and no user message is blank. */
  predicate ValidLog(messages: seq<Message>) {
    |messages| >= 1 && messages[0] == Message(Greeting, false) &&
    forall k :: 0 <= k < |messages| ==> messages[k].isUser ==> Trim(messages[k].content) != ""
  }

  /** User texts of a concatenation. */
  lemma {:induction false} UserTextsAppend(a: seq<Message>, b: seq<Message>)
    ensures UserTexts(a + b) == UserTexts(a) + UserTexts(b)
  {
    if a == [] {
      assert a + b == b;
    } else {
      var head := if a[0].isUser then [a[0].content] else [];
      calc {
        UserTexts(a + b);
        { assert (a + b)[0] == a[0] && (a + b)[1..] == a[1..] + b; }
        head + UserTexts(a[1..] + b);
        { UserTextsAppend(a[1..], b); }
        head + (UserTexts(a[1..]) + UserTexts(b));
      }
    }
  }

  /** One exchange adds exactly the sent text, untrimmed, to the user's texts. */
  lemma OneUserTextPerSend(messages: seq<Message>, text: string, reply: Option<string>)
    ensures UserTexts(messages + [Message(text, true), ReplyMessage(reply)]) == UserTexts(messages) + [text]
  {
    var pair := [Message(text, true), ReplyMessage(reply)];
    UserTextsAppend(messages, pair);
    assert pair[1..] == [ReplyMessage(reply)];
    assert UserTexts([ReplyMessage(reply)][1..]) == [];
  }

  class ChatComponent {
    var messages: seq<Message>
    var activeDocuments: seq<string>
    var newMessage: string

    predicate Valid()
      reads this
    {
      ValidLog(messages)
    }

    /** The field initialisers: the log holds only the assistant's greeting. */
    constructor()
      ensures Valid()
      ensures messages == [Message(Greeting, false)] && activeDocuments == [] && newMessage == ""
    {
      messages := [Message(Greeting, false)];
      activeDocuments := [];
      newMessage := "";
    }

    /** `loadActiveDocuments`: `fetched` is the server's list, `None` on failure. */
    method LoadActiveDocuments(fetched: Option<seq<string>>)
      modifies this`activeDocuments
      ensures activeDocuments == if fetched.Some? then fetched.value else old(activeDocuments)
    {
      if fetched.Some? {
        activeDocuments := fetched.value;
      }
    }

    /** `sendMessage`: a message that trims to nothing changes nothing and sends nothing. Otherwise
        the untrimmed text is logged as the user's, the input is cleared, the same text is sent
        (returned as `sent`) and the reply, or the apology, is logged after it. */
    method SendMessage(reply: Option<string>) returns (sent: Option<string>)
      requires Valid()
      modifies this`messages, this`newMessage
      ensures Valid()
      ensures Trim(old(newMessage)) == "" ==>
        sent == None && messages == old(messages) && newMessage == old(newMessage)
      ensures Trim(old(newMessage)) != "" ==>
        sent == Some(old(newMessage)) && newMessage == "" &&
        messages == old(messages) + [Message(old(newMessage), true), ReplyMessage(reply)]
    {
      if Trim(newMessage) == "" {
        return None;
      }
      messages := messages + [Message(newMessage, true)];
      var messageToSend := newMessage;
      newMessage := "";
      sent := Some(messageToSend);
      messages := messages + [ReplyMessage(reply)];
    }

    /** `onEnter`: Enter sends; Shift+Enter (a new line) does not. */
    method OnEnter(shiftKey: bool, reply: Option<string>) returns (sent: Option<string>)
      requires Valid()
      modifies this`messages, this`newMessage
      ensures Valid()
      ensures shiftKey ==> sent == None && messages == old(messages) && newMessage == old(newMessage)
      ensures !shiftKey && Trim(old(newMessage)) != "" ==>
        sent == Some(old(newMessage)) && newMessage == "" &&
        messages == old(messages) + [Message(old(newMessage), true), ReplyMessage(reply)]
      ensures !shiftKey && Trim(old(newMessage)) == "" ==>
        sent == None && messages == old(messages) && newMessage == old(newMessage)
    {
      sent := None;
      if !shiftKey {
        sent := SendMessage(reply);
      }
    }
  }

  /** A message of spaces and line breaks is not sent. */
  method BlankMessageIgnored(reply: Option<string>) returns (sent: Option<string>, logLength: nat)
    ensures sent == None && logLength == 1
  {
    var chat := new ChatComponent();
    chat.newMessage := "  \n\t ";
    TrimBlank(chat.newMessage);
    sent := chat.SendMessage(reply);
    logLength := |chat.messages|;
  }
}
