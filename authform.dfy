/** The sign-in page (`AuthPage`): one form that either signs in or creates
    an account, depending on `isLogin`. */
module AuthForm {
  import opened Wrappers
  import opened JsText
  import opened Web
  import opened Auth

  const ApiBase := "https://ragworks.onrender.com"
  const CreatedText := "Account created. Please sign in."
  const FallbackError := "Something went wrong"

  /** `isLogin ? "/login" : "/register"`. */
  function Endpoint(isLogin: bool): string {
    if isLogin then "/login" else "/register"
  }

  /** The request the form sends: the two fields, and nothing else. */
  function AuthRequest(isLogin: bool, username: string, password: string): Request {
    Request(Post, ApiBase + Endpoint(isLogin), [JsonContent],
            Json([("username", username), ("password", password)]))
  }

  /** The alert shown for a failed request. */
  function FailureText(outcome: Outcome<string>): string
    requires !outcome.Ok?
  {
    if outcome.NotOk? then Or(outcome.error, FallbackError) else outcome.message
  }

  /** The submit button's text. */
  function SubmitLabel(isLogin: bool, loading: bool): string {
    if loading then "Processing..." else if isLogin then "Sign In" else "Create Account"
  }

  /** The button says what the form does: when it is not busy it reads
      "Sign In" exactly when the form posts to "/login", and "Create Account"
      exactly when it posts to "/register"; busy, it names neither. */
  lemma LabelMatchesEndpoint(isLogin: bool, loading: bool)
    ensures !loading ==> (SubmitLabel(isLogin, loading) == "Sign In" <==> Endpoint(isLogin) == "/login")
    ensures !loading ==> (SubmitLabel(isLogin, loading) == "Create Account" <==> Endpoint(isLogin) == "/register")
    ensures loading ==> SubmitLabel(isLogin, loading) != "Sign In" && SubmitLabel(isLogin, loading) != "Create Account"
  {
  }

  class AuthPage {
    var isLogin: bool
    var username: string
    var password: string
    var loading: bool
    const session: Session

    constructor (session: Session)
      ensures isLogin && username == "" && password == "" && !loading
      ensures this.session == session
    {
      isLogin := true;
      username := "";
      password := "";
      loading := false;
      this.session := session;
    }

    method TypeUsername(text: string)
      modifies this
      ensures username == text && password == old(password) && isLogin == old(isLogin)
      ensures loading == old(loading)
    {
      username := text;
    }

    method TypePassword(text: string)
      modifies this
      ensures password == text && username == old(username) && isLogin == old(isLogin)
      ensures loading == old(loading)
    {
      password := text;
    }

    /** The footer link: flip between signing in and signing up. */
    method Toggle()
      modifies this
      ensures isLogin == !old(isLogin)
      ensures username == old(username) && password == old(password) && loading == old(loading)
    {
      isLogin := !isLogin;
    }

    /** The part of `handleSubmit` before the request: start loading and pick
        the endpoint. */
    method BeginSubmit() returns (req: Request)
      modifies this
      ensures req == AuthRequest(old(isLogin), old(username), old(password))
      ensures loading
      ensures isLogin == old(isLogin) && username == old(username) && password == old(password)
    {
      loading := true;
      var endpoint := Endpoint(isLogin);
      req := Request(Post, ApiBase + endpoint, [JsonContent],
                     Json([("username", username), ("password", password)]));
    }

    /** The part after the request. `wasLogin` is the mode the request was
        sent in; an ok sign-in carries the body's `access_token`. */
    method FinishSubmit(wasLogin: bool, outcome: Outcome<string>)
      modifies this, session, session.browser
      ensures outcome.Ok? && wasLogin ==>
        session.token == Some(outcome.data) && session.user == Some(old(username))
        && session.browser.storage == Stored(old(session.browser.storage), outcome.data, old(username))
        && session.browser.history == old(session.browser.history) + [Push("/")]
        && session.browser.dialogs == old(session.browser.dialogs)
        && isLogin == old(isLogin)
      ensures outcome.Ok? && !wasLogin ==>
        session.token == old(session.token) && session.user == old(session.user)
        && session.browser.storage == old(session.browser.storage)
        && session.browser.history == old(session.browser.history)
        && session.browser.dialogs == old(session.browser.dialogs) + [Alert(CreatedText)]
        && isLogin
      ensures !outcome.Ok? ==>
        session.token == old(session.token) && session.user == old(session.user)
        && session.browser.storage == old(session.browser.storage)
        && session.browser.history == old(session.browser.history)
        && session.browser.dialogs == old(session.browser.dialogs) + [Alert(FailureText(outcome))]
        && isLogin == old(isLogin)
      ensures old(session.Valid()) ==> session.Valid()
      ensures username == old(username) && password == old(password) && !loading
    {
      match outcome {
        case Ok(accessToken) =>
          if wasLogin {
            session.Login(accessToken, username);
          } else {
            session.browser.ShowAlert(CreatedText);
            isLogin := true;
          }
        case NotOk(error) =>
          session.browser.ShowAlert(Or(error, FallbackError));
        case Threw(message) =>
          session.browser.ShowAlert(message);
      }
      loading := false;
    }

    /** `handleSubmit` as one step: the request for the mode the form was in,
        then the effect of its outcome in that mode. */
    method HandleSubmit(outcome: Outcome<string>) returns (req: Request)
      modifies this, session, session.browser
      ensures req == AuthRequest(old(isLogin), old(username), old(password))
      ensures outcome.Ok? && old(isLogin) ==>
        session.token == Some(outcome.data) && session.user == Some(old(username))
        && session.browser.storage == Stored(old(session.browser.storage), outcome.data, old(username))
        && session.browser.history == old(session.browser.history) + [Push("/")]
        && session.browser.dialogs == old(session.browser.dialogs)
        && isLogin
      ensures outcome.Ok? && !old(isLogin) ==>
        session.token == old(session.token) && session.user == old(session.user)
        && session.browser.storage == old(session.browser.storage)
        && session.browser.history == old(session.browser.history)
        && session.browser.dialogs == old(session.browser.dialogs) + [Alert(CreatedText)]
        && isLogin
      ensures !outcome.Ok? ==>
        session.token == old(session.token) && session.user == old(session.user)
        && session.browser.storage == old(session.browser.storage)
        && session.browser.history == old(session.browser.history)
        && session.browser.dialogs == old(session.browser.dialogs) + [Alert(FailureText(outcome))]
        && isLogin == old(isLogin)
      ensures old(session.Valid()) ==> session.Valid()
      ensures username == old(username) && password == old(password) && !loading
    {
      var wasLogin := isLogin;
      req := BeginSubmit();
      FinishSubmit(wasLogin, outcome);
    }
  }
}
