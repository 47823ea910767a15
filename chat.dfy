/** The chat panel (`ChatInterface`): the transcript, the query box and the
    loading flag, and `handleSubmit`, which posts the query and appends the
    answer or an error to the transcript. */
module Chat {
  import opened Wrappers
  import opened JsText
  import opened Web
  import opened Auth

  datatype Role = User | Ai
  datatype Message = Message(role: Role, content: string)

  const ChatUrl := "http://localhost:5000/chat"

  /** The request `handleSubmit` sends for query `q` with `token`. */
  function ChatRequest(token: string, q: string): Request {
    Request(Post, ChatUrl, [JsonContent, Bearer(token)], Json([("query", q)]))
  }

  /** The text of the AI message for a response: the `response` field, or
      the message of the error thrown for a failed response or by `fetch`. */
  function ReplyText(outcome: Outcome<string>): string {
    match outcome
    case Ok(response) => response
    case NotOk(error) => "Error: " + Or(error, "Failed to get response")
    case Threw(message) => "Error: " + message
  }

  /** What one answered submit adds to the transcript. */
  function Exchange(q: string, outcome: Outcome<string>): seq<Message> {
    [Message(User, q), Message(Ai, ReplyText(outcome))]
  }

  /** The question comes first, then its answer. A successful answer is the
      server's text as it came; every failed answer starts with the "Error: "
      prefix the client writes, followed by the server's non-empty error
      field when it has one. (A server text may start with "Error: " as
      well, so the prefix alone does not tell a failure.) */
  lemma ExchangeShape(q: string, outcome: Outcome<string>)
    ensures |Exchange(q, outcome)| == 2
    ensures Exchange(q, outcome)[0] == Message(User, q)
    ensures Exchange(q, outcome)[1].role == Ai
    ensures outcome.Ok? ==> Exchange(q, outcome)[1].content == outcome.data
    ensures !outcome.Ok? ==> |Exchange(q, outcome)[1].content| >= 7
                             && Exchange(q, outcome)[1].content[..7] == "Error: "
    ensures outcome.NotOk? && Truthy(outcome.error) ==>
              Exchange(q, outcome)[1].content[7..] == outcome.error.value
  {
  }

  class ChatInterface {
    var messages: seq<Message>
    var query: string
    var loading: bool
    const session: Session

    constructor (session: Session)
      ensures messages == [] && query == "" && !loading && this.session == session
    {
      messages := [];
      query := "";
      loading := false;
      this.session := session;
    }

    /** The query box's `onChange`. */
    method Type(text: string)
      modifies this
      ensures query == text && messages == old(messages) && loading == old(loading)
    {
      query := text;
    }

    /** The part of `handleSubmit` before the request: ignore a blank query,
        send a signed-out user to "/auth", and otherwise show the question,
        clear the box and start loading. */
    method BeginSubmit() returns (req: Option<Request>)
      modifies this, session.browser
      ensures Trim(old(query)) == "" ==>
        req == None && messages == old(messages) && query == old(query) && loading == old(loading)
        && session.browser.history == old(session.browser.history)
      ensures Trim(old(query)) != "" && !Truthy(session.token) ==>
        req == None && messages == old(messages) && query == old(query) && loading == old(loading)
        && session.browser.history == old(session.browser.history) + [Push("/auth")]
      ensures Trim(old(query)) != "" && Truthy(session.token) ==>
        req == Some(ChatRequest(session.token.value, old(query)))
        && messages == old(messages) + [Message(User, old(query))] && query == "" && loading
        && session.browser.history == old(session.browser.history)
      ensures session.browser.storage == old(session.browser.storage)
      ensures session.browser.dialogs == old(session.browser.dialogs)
    {
      if Trim(query) == "" {
        return None;
      }
      if !Truthy(session.token) {
        session.browser.Navigate(Push("/auth"));
        return None;
      }
      var newMsg := Message(User, query);
      messages := messages + [newMsg];
      query := "";
      loading := true;
      req := Some(ChatRequest(session.token.value, newMsg.content));
    }

    /** The part after the request: append the answer and stop loading. */
    method FinishSubmit(outcome: Outcome<string>)
      modifies this
      ensures messages == old(messages) + [Message(Ai, ReplyText(outcome))]
      ensures query == old(query) && !loading
    {
      match outcome {
        case Ok(response) =>
          messages := messages + [Message(Ai, response)];
        case NotOk(error) =>
          messages := messages + [Message(Ai, "Error: " + Or(error, "Failed to get response"))];
        case Threw(message) =>
          messages := messages + [Message(Ai, "Error: " + message)];
      }
      loading := false;
    }

    /** `handleSubmit` as one step, with the outcome of the request if one is
        sent. The old transcript is always kept as a prefix. */
    method HandleSubmit(outcome: Outcome<string>) returns (req: Option<Request>)
      modifies this, session.browser
      ensures req.None? ==> messages == old(messages) && loading == old(loading) && query == old(query)
      ensures req.Some? <==> Trim(old(query)) != "" && Truthy(session.token)
      ensures req.Some? ==>
        req.value == ChatRequest(session.token.value, old(query))
        && messages == old(messages) + Exchange(old(query), outcome)
        && query == "" && !loading
      ensures Trim(old(query)) != "" && !Truthy(session.token) ==>
        session.browser.history == old(session.browser.history) + [Push("/auth")]
      ensures Trim(old(query)) == "" || Truthy(session.token) ==>
        session.browser.history == old(session.browser.history)
      ensures session.browser.storage == old(session.browser.storage)
      ensures session.browser.dialogs == old(session.browser.dialogs)
      ensures old(messages) <= messages
    {
      req := BeginSubmit();
      if req.Some? {
        FinishSubmit(outcome);
      }
    }
  }
}
