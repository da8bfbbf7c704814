/** The chat store of the web client (frontend/store/chatSlice.ts): the
    conversations, the current one, and the loading and error flags. Each
    reducer is a method of `ChatStore`; `Date.now()` is the parameter `now`
    and `backend.chat` a function parameter of the thunk. That parameter
    stands for an endpoint the canister does not export yet (its `chat`
    function is commented out in backend/lib.rs), so as shipped every send
    is rejected with the generic message. */
module ChatSlice {
  import opened Base
  import opened VdbError
  import opened JsText

  /** `{ user: null }` or `{ system: null }`. */
  datatype Role = User | System

  datatype Message = Message(role: Role, content: string)

  datatype Conversation = Conversation(id: string, title: string, messages: seq<Message>, createdAt: int, updatedAt: int)

  datatype ChatState = ChatState(
    conversations: seq<Conversation>,
    currentConversationId: Option<string>,
    isLoading: bool,
    error: Option<string>)

  const INITIAL_STATE := ChatState([], None, false, None)

  const DEFAULT_TITLE := "New Conversation"
  const SEND_FAILED := "Failed to send message"

  /** One entry of the history sent to the canister, with its role as text. */
  datatype ChatMessage = ChatMessage(content: string, role: string)

  function RoleName(r: Role): string
  {
    if r.User? then "user" else "system"
  }

  /** The history `sendMessage` sends: every stored message with its role
      name, and the new content last as a user message. */
  function ChatMessages(messages: seq<Message>, content: string): (out: seq<ChatMessage>)
    ensures |out| == |messages| + 1
    ensures out[|messages|] == ChatMessage(content, "user")
    ensures forall i :: 0 <= i < |messages| ==>
      out[i] == ChatMessage(messages[i].content, if messages[i].role == User then "user" else "system")
  {
    seq(|messages|, i requires 0 <= i < |messages| => ChatMessage(messages[i].content, RoleName(messages[i].role)))
      + [ChatMessage(content, "user")]
  }

  /** The test of `find`: `c => c.id === id`. */
  function HasId(id: string): Conversation -> bool
  {
    (c: Conversation) => c.id == id
  }

  /** The filter of `deleteConversation`: `c => c.id !== id`. */
  function OtherId(id: string): Conversation -> bool
  {
    (c: Conversation) => c.id != id
  }

  /** What a fulfilled `sendMessage` carries. */
  datatype SendResult = SendResult(conversationId: string, userMessage: Message, systemMessage: Message)

  /** The `sendMessage` thunk: a missing conversation or an error reply is
      rejected with the generic message; otherwise the payload pairs the user
      message with the canister's answer. */
  function SendMessage(conversations: seq<Conversation>, conversationId: string, content: string,
                       chat: seq<ChatMessage> -> Result<string, Error>): (r: Result<SendResult, string>)
    ensures FindFirst(conversations, HasId(conversationId)).None? ==> r == Err(SEND_FAILED)
    ensures r.Ok? ==>
      var c := conversations[FindFirst(conversations, HasId(conversationId)).value];
      var reply := chat(ChatMessages(c.messages, content));
      && reply.Ok?
      && r.value == SendResult(conversationId, Message(User, content), Message(System, reply.value))
    ensures r.Err? ==> r.error == SEND_FAILED
    ensures (&& FindFirst(conversations, HasId(conversationId)).Some?
             && chat(ChatMessages(conversations[FindFirst(conversations, HasId(conversationId)).value].messages, content)).Ok?) ==>
      r.Ok?
  {
    match FindFirst(conversations, HasId(conversationId))
    case None => Err(SEND_FAILED)
    case Some(i) =>
      match chat(ChatMessages(conversations[i].messages, content))
      case Ok(text) => Ok(SendResult(conversationId, Message(User, content), Message(System, text)))
      case Err(_) => Err(SEND_FAILED)
  }

  /** The messages of a conversation after a fulfilled send. */
  function AfterSend(messages: seq<Message>, p: SendResult): seq<Message>
  {
    messages + [p.userMessage, p.systemMessage]
  }

  /** The next history sent carries the last exchange: the previous history,
      then the canister's answer as a system message, then the new content. */
  lemma HistoryKeepsExchange(messages: seq<Message>, content: string, answer: string, next: string)
    ensures var p := SendResult("", Message(User, content), Message(System, answer));
      ChatMessages(AfterSend(messages, p), next)
        == ChatMessages(messages, content) + [ChatMessage(answer, "system"), ChatMessage(next, "user")]
  {
  }

  /** The conversation `createConversation` builds. Its id is the clock
      reading in decimal; one reading stands for the source's three. */
  function NewConversation(title: Option<string>, now: nat): (c: Conversation)
    ensures c.title == if title.Some? then title.value else DEFAULT_TITLE
    ensures c.messages == [] && c.createdAt == now && c.updatedAt == now
    ensures AllDigits(c.id) && |c.id| >= 1 && ParseDecimal(c.id) == now
  {
    DecimalRoundTrip(now);
    Conversation(Decimal(now), title.GetOr(DEFAULT_TITLE), [], now, now)
  }

  /** Conversations created at different milliseconds have different ids. */
  lemma NewConversationIdsDiffer(t1: Option<string>, t2: Option<string>, a: nat, b: nat)
    requires a != b
    ensures NewConversation(t1, a).id != NewConversation(t2, b).id
  {
    if Decimal(a) == Decimal(b) {
      DecimalInjective(a, b);
    }
  }

  /** The current id after deleting `id`: unchanged unless `id` was current;
      then the first remaining conversation's id, or none when no
      conversation remains or its id is empty (`[0]?.id || null`). */
  function CurrentAfterDelete(current: Option<string>, remaining: seq<Conversation>, id: string): (r: Option<string>)
    ensures current != Some(id) ==> r == current
    ensures current == Some(id) && remaining == [] ==> r == None
    ensures current == Some(id) && remaining != [] && remaining[0].id != "" ==> r == Some(remaining[0].id)
    ensures current == Some(id) && remaining != [] && remaining[0].id == "" ==> r == None
  {
    if current != Some(id) then current
    else if remaining != [] && remaining[0].id != "" then Some(remaining[0].id)
    else None
  }

  /** After a delete no conversation with that id remains, and the current
      id never names the deleted one. */
  lemma DeletedIdGone(conversations: seq<Conversation>, current: Option<string>, id: string)
    ensures forall c :: c in Filter(conversations, OtherId(id)) <==> c in conversations && c.id != id
    ensures CurrentAfterDelete(current, Filter(conversations, OtherId(id)), id) != Some(id)
  {
    var remaining := Filter(conversations, OtherId(id));
    forall c ensures c in remaining <==> c in conversations && c.id != id {
      FilterMembers(conversations, OtherId(id), c);
    }
    if remaining != [] {
      assert remaining[0] in remaining;
    }
  }

  /** `selectCurrentConversation`: the first conversation with the current
      id, or nothing. */
  function SelectCurrentConversation(s: ChatState): (c: Option<Conversation>)
    ensures c.Some? <==> (&& s.currentConversationId.Some?
                          && exists i :: 0 <= i < |s.conversations| && s.conversations[i].id == s.currentConversationId.value)
    ensures c.Some? ==> c.value in s.conversations && c.value.id == s.currentConversationId.value
    ensures c.Some? ==> exists i :: (&& 0 <= i < |s.conversations| && c.value == s.conversations[i]
                                     && forall j :: 0 <= j < i ==> s.conversations[j].id != s.currentConversationId.value)
  {
    match s.currentConversationId
    case None => None
    case Some(id) =>
      match FindFirst(s.conversations, HasId(id))
      case None => None
      case Some(i) => Some(s.conversations[i])
  }

  class ChatStore {
    var conversations: seq<Conversation>
    var currentConversationId: Option<string>
    var isLoading: bool
    var error: Option<string>

    function State(): ChatState
      reads this
    {
      ChatState(conversations, currentConversationId, isLoading, error)
    }

    /** `initialState`. */
    constructor ()
      ensures State() == INITIAL_STATE
    {
      conversations, currentConversationId, isLoading, error := [], None, false, None;
    }

    method SetCurrentConversation(id: string)
      modifies this
      ensures State() == old(State()).(currentConversationId := Some(id))
    {
      currentConversationId := Some(id);
    }

    /** `clearConversations`: no conversations and none current. */
    method ClearConversations()
      modifies this
      ensures State() == old(State()).(conversations := [], currentConversationId := None)
    {
      conversations := [];
      currentConversationId := None;
    }

    /** `updateConversationTitle`: retitles and timestamps the first
        conversation with that id; without one nothing changes. */
    method UpdateConversationTitle(id: string, title: string, now: int)
      modifies this
      ensures match FindFirst(old(conversations), HasId(id))
        case None => State() == old(State())
        case Some(i) => State() == old(State()).(conversations :=
          old(conversations)[i := old(conversations)[i].(title := title, updatedAt := now)])
    {
      var found := FindFirst(conversations, HasId(id));
      if found.Some? {
        var i := found.value;
        conversations := conversations[i := conversations[i].(title := title, updatedAt := now)];
      }
    }

    /** `deleteConversation`: every conversation with the id goes, and the
        current id moves on as CurrentAfterDelete says. */
    method DeleteConversation(id: string)
      modifies this
      ensures conversations == Filter(old(conversations), OtherId(id))
      ensures State() == old(State()).(
        conversations := conversations,
        currentConversationId := CurrentAfterDelete(old(currentConversationId), conversations, id))
    {
      conversations := Filter(conversations, OtherId(id));
      if currentConversationId == Some(id) {
        if conversations != [] && conversations[0].id != "" {
          currentConversationId := Some(conversations[0].id);
        } else {
          currentConversationId := None;
        }
      }
    }

    /** The `pending` case of both thunks. */
    method Pending()
      modifies this
      ensures State() == old(State()).(isLoading := true, error := None)
    {
      isLoading := true;
      error := None;
    }

    /** The `rejected` case of both thunks: the conversations stay. */
    method Rejected(message: string)
      modifies this
      ensures State() == old(State()).(isLoading := false, error := Some(message))
    {
      isLoading := false;
      error := Some(message);
    }

    /** `createConversation.fulfilled`: the conversation goes last and
        becomes current. */
    method CreateFulfilled(c: Conversation)
      modifies this
      ensures State() == old(State()).(isLoading := false, conversations := old(conversations) + [c],
                                       currentConversationId := Some(c.id))
    {
      isLoading := false;
      conversations := conversations + [c];
      currentConversationId := Some(c.id);
    }

    /** `sendMessage.fulfilled`: the first conversation with the payload's id
        gets the user message and then the answer, and is timestamped; without
        one only the loading flag changes. */
    method SendFulfilled(p: SendResult, now: int)
      modifies this
      ensures match FindFirst(old(conversations), HasId(p.conversationId))
        case None => State() == old(State()).(isLoading := false)
        case Some(i) => State() == old(State()).(isLoading := false, conversations :=
          old(conversations)[i := old(conversations)[i].(messages := AfterSend(old(conversations)[i].messages, p),
                                                         updatedAt := now)])
    {
      isLoading := false;
      var found := FindFirst(conversations, HasId(p.conversationId));
      if found.Some? {
        var i := found.value;
        var c := conversations[i];
        conversations := conversations[i := c.(messages := c.messages + [p.userMessage, p.systemMessage], updatedAt := now)];
      }
    }
  }
}
