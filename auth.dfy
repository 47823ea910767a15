/** The session of the web client (`AuthProvider`): the signed-in token and
    user name, mirrored in `localStorage` under "token" and "username".
    `Valid` is the pairing the provider keeps: a token exactly when a user. */
module Auth {
  import opened Wrappers
  import opened JsText
  import opened Web

  const TokenKey := "token"
  const UserKey := "username"

  /** What the hydrate effect finds in storage: both entries present and
      non-empty. */
  function Restored(storage: map<string, string>): Option<(string, string)> {
    var t := if TokenKey in storage then Some(storage[TokenKey]) else None;
    var u := if UserKey in storage then Some(storage[UserKey]) else None;
    if Truthy(t) && Truthy(u) then Some((t.value, u.value)) else None
  }

  /** Storage after `login(t, u)`. */
  function Stored(storage: map<string, string>, t: string, u: string): map<string, string> {
    storage[TokenKey := t][UserKey := u]
  }

  /** Storage after `logout()`. */
  function Cleared(storage: map<string, string>): map<string, string> {
    storage - {TokenKey, UserKey}
  }

  class Session {
    var token: Option<string>
    var user: Option<string>
    const browser: Browser

    predicate Valid()
      reads this
    {
      token.None? <==> user.None?
    }

    /** `useState(null)` for both fields. */
    constructor (browser: Browser)
      ensures token == None && user == None && this.browser == browser
      ensures Valid()
    {
      token := None;
      user := None;
      this.browser := browser;
    }

    /** The mount effect: take the stored pair if both parts are there, and
        otherwise leave the session as it is. */
    method Hydrate()
      modifies this
      ensures old(Valid()) ==> Valid()
      ensures Restored(browser.storage).Some? ==>
        token == Some(Restored(browser.storage).value.0) && user == Some(Restored(browser.storage).value.1)
      ensures Restored(browser.storage).None? ==> token == old(token) && user == old(user)
    {
      var storedToken := browser.GetItem(TokenKey);
      var storedUser := browser.GetItem(UserKey);
      if Truthy(storedToken) && Truthy(storedUser) {
        token := storedToken;
        user := storedUser;
      }
    }

    /** `login(t, u)`: remember the pair, store it, go home. */
    method Login(t: string, u: string)
      modifies this, browser
      ensures token == Some(t) && user == Some(u) && Valid()
      ensures browser.storage == Stored(old(browser.storage), t, u)
      ensures browser.history == old(browser.history) + [Push("/")]
      ensures browser.dialogs == old(browser.dialogs)
    {
      token := Some(t);
      user := Some(u);
      browser.SetItem(TokenKey, t);
      browser.SetItem(UserKey, u);
      browser.Navigate(Push("/"));
    }

    /** `logout()`: forget the pair, remove it from storage, go to sign-in. */
    method Logout()
      modifies this, browser
      ensures token == None && user == None && Valid()
      ensures browser.storage == Cleared(old(browser.storage))
      ensures browser.history == old(browser.history) + [Push("/auth")]
      ensures browser.dialogs == old(browser.dialogs)
    {
      token := None;
      user := None;
      browser.RemoveItem(TokenKey);
      browser.RemoveItem(UserKey);
      browser.Navigate(Push("/auth"));
    }
  }

  /** A reload after `login(t, u)` with both parts non-empty restores exactly
      that pair. */
  lemma LoginRestores(storage: map<string, string>, t: string, u: string)
    requires t != "" && u != ""
    ensures Restored(Stored(storage, t, u)) == Some((t, u))
  {
  }

  /** A reload after `logout()` finds nothing. */
  lemma LogoutClears(storage: map<string, string>)
    ensures Restored(Cleared(storage)).None?
  {
  }

  /** `login` and `logout` touch only the two session keys. */
  lemma OtherKeysKept(storage: map<string, string>, t: string, u: string, k: string)
    requires k != TokenKey && k != UserKey
    ensures (k in Stored(storage, t, u)) == (k in storage) && (k in Cleared(storage)) == (k in storage)
    ensures k in storage ==> Stored(storage, t, u)[k] == storage[k] && Cleared(storage)[k] == storage[k]
  {
  }

  /** Signing in twice with the same pair stores the same as once. */
  lemma LoginIdempotent(storage: map<string, string>, t: string, u: string)
    ensures Stored(Stored(storage, t, u), t, u) == Stored(storage, t, u)
  {
  }

  /** Signing out twice is signing out once. */
  lemma LogoutIdempotent(storage: map<string, string>)
    ensures Cleared(Cleared(storage)) == Cleared(storage)
  {
  }

  /** A fresh session on the same browser after `login(t, u)`: once hydrated
      it holds the same pair. */
  method ReloadAfterLogin(browser: Browser, t: string, u: string) returns (reloaded: Session)
    requires t != "" && u != ""
    modifies browser
    ensures reloaded.token == Some(t) && reloaded.user == Some(u)
  {
    var s := new Session(browser);
    s.Login(t, u);
    reloaded := new Session(browser);
    reloaded.Hydrate();
    LoginRestores(old(browser.storage), t, u);
  }

  /** A fresh session on the same browser after `logout()` stays signed out. */
  method ReloadAfterLogout(session: Session) returns (reloaded: Session)
    modifies session, session.browser
    ensures reloaded.token == None && reloaded.user == None
  {
    session.Logout();
    reloaded := new Session(session.browser);
    reloaded.Hydrate();
  }
}
