/** The two OAuth landing pages that receive the session directly as query
    parameters: `app/callback/page.tsx`, which alerts on failure, and
    `app/callback/oauth-callback-client.tsx`, which does not. */
module Callback {
  import opened Wrappers
  import opened JsText
  import opened Web
  import opened Auth

  const FailedText := "OAuth login failed"

  /** `!token || !username` decides: sign in with both, or give up. */
  function Verdict(token: Option<string>, username: Option<string>): Option<(string, string)> {
    if Truthy(token) && Truthy(username) then Some((token.value, username.value)) else None
  }

  /** `app/callback/page.tsx`. */
  method RunPage(session: Session, token: Option<string>, username: Option<string>)
    modifies session, session.browser
    ensures Verdict(token, username).Some? ==>
      session.token == token && session.user == username
      && session.browser.storage == Stored(old(session.browser.storage), token.value, username.value)
      && session.browser.history == old(session.browser.history) + [Push("/"), Replace("/")]
      && session.browser.dialogs == old(session.browser.dialogs)
    ensures Verdict(token, username).None? ==>
      session.token == old(session.token) && session.user == old(session.user)
      && session.browser.storage == old(session.browser.storage)
      && session.browser.history == old(session.browser.history) + [Replace("/login")]
      && session.browser.dialogs == old(session.browser.dialogs) + [Alert(FailedText)]
    ensures old(session.Valid()) ==> session.Valid()
  {
    if !Truthy(token) || !Truthy(username) {
      session.browser.ShowAlert(FailedText);
      session.browser.Navigate(Replace("/login"));
      return;
    }
    session.Login(token.value, username.value);
    session.browser.Navigate(Replace("/"));
  }

  /** `app/callback/oauth-callback-client.tsx`: the same, without the alert. */
  method RunClient(session: Session, token: Option<string>, username: Option<string>)
    modifies session, session.browser
    ensures Verdict(token, username).Some? ==>
      session.token == token && session.user == username
      && session.browser.storage == Stored(old(session.browser.storage), token.value, username.value)
      && session.browser.history == old(session.browser.history) + [Push("/"), Replace("/")]
    ensures Verdict(token, username).None? ==>
      session.token == old(session.token) && session.user == old(session.user)
      && session.browser.storage == old(session.browser.storage)
      && session.browser.history == old(session.browser.history) + [Replace("/login")]
    ensures session.browser.dialogs == old(session.browser.dialogs)
    ensures old(session.Valid()) ==> session.Valid()
  {
    if !Truthy(token) || !Truthy(username) {
      session.browser.Navigate(Replace("/login"));
      return;
    }
    session.Login(token.value, username.value);
    session.browser.Navigate(Replace("/"));
  }

  /** After a successful callback a reload restores the same session. */
  lemma CallbackSurvivesReload(storage: map<string, string>, token: Option<string>, username: Option<string>)
    requires Verdict(token, username).Some?
    ensures Restored(Stored(storage, token.value, username.value)) == Some((token.value, username.value))
  {
    LoginRestores(storage, token.value, username.value);
  }
}
