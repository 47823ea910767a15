/** The OAuth landing page that trades the provider's token for a session
    (`app/oauth/callback/oauth-callback-client.tsx`). */
module OAuthExchange {
  import opened Wrappers
  import opened JsText
  import opened Web
  import opened Auth

  const ExchangeUrl := "/auth/oauth"

  /** The issued session: `access_token` and `username` of the body. */
  datatype Grant = Grant(accessToken: string, username: string)

  /** The exchange: the provider's token as the one JSON field. */
  function ExchangeRequest(token: string): Request {
    Request(Post, ExchangeUrl, [JsonContent], Json([("token", token)]))
  }

  /** Whether the page ends signed in, and with which pair. */
  function Verdict(tokenParam: Option<string>, outcome: Outcome<Grant>): Option<Grant> {
    if Truthy(tokenParam) && outcome.Ok? then Some(outcome.data) else None
  }

  /** The effect of the page, with the `token` query parameter and the
      outcome of the exchange if one is sent. */
  method Run(session: Session, tokenParam: Option<string>, outcome: Outcome<Grant>)
    returns (req: Option<Request>)
    modifies session, session.browser
    ensures req.Some? <==> Truthy(tokenParam)
    ensures req.Some? ==> req.value == ExchangeRequest(tokenParam.value)
    ensures Verdict(tokenParam, outcome).Some? ==>
      var g := Verdict(tokenParam, outcome).value;
      session.token == Some(g.accessToken) && session.user == Some(g.username)
      && session.browser.storage == Stored(old(session.browser.storage), g.accessToken, g.username)
      && session.browser.history == old(session.browser.history) + [Push("/"), Replace("/")]
    ensures Verdict(tokenParam, outcome).None? ==>
      session.token == old(session.token) && session.user == old(session.user)
      && session.browser.storage == old(session.browser.storage)
      && session.browser.history == old(session.browser.history) + [Replace("/auth")]
    ensures session.browser.dialogs == old(session.browser.dialogs)
    ensures old(session.Valid()) ==> session.Valid()
  {
    if !Truthy(tokenParam) {
      session.browser.Navigate(Replace("/auth"));
      return None;
    }
    req := Some(ExchangeRequest(tokenParam.value));
    match outcome {
      case NotOk(_) =>
        session.browser.Navigate(Replace("/auth"));
      case Threw(_) =>
        session.browser.Navigate(Replace("/auth"));
      case Ok(data) =>
        session.Login(data.accessToken, data.username);
        session.browser.Navigate(Replace("/"));
    }
  }
}
