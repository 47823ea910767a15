/** What the client components see of the browser and the network.
    `localStorage` is a map from keys to strings; router navigations and
    `alert`/`confirm` dialogs are recorded in the order they happen; a
    `fetch` is the request it would send and the outcome it came back with. */
module Web {
  import opened Wrappers

  /** `router.push(path)` or `router.replace(path)`. */
  datatype Nav = Push(path: string) | Replace(path: string)

  /** `alert(text)`, or `confirm(text)` together with the user's answer. */
  datatype Dialog = Alert(text: string) | Confirm(text: string, accepted: bool)

  class Browser {
    var storage: map<string, string>
    var history: seq<Nav>
    var dialogs: seq<Dialog>

    constructor (stored: map<string, string>)
      ensures storage == stored && history == [] && dialogs == []
    {
      storage := stored;
      history := [];
      dialogs := [];
    }

    /** `localStorage.getItem(key)`: `null` for a missing key. */
    function GetItem(key: string): Option<string>
      reads this
    {
      if key in storage then Some(storage[key]) else None
    }

    /** `localStorage.setItem(key, value)`. */
    method SetItem(key: string, value: string)
      modifies this
      ensures storage == old(storage)[key := value]
      ensures history == old(history) && dialogs == old(dialogs)
    {
      storage := storage[key := value];
    }

    /** `localStorage.removeItem(key)`. */
    method RemoveItem(key: string)
      modifies this
      ensures storage == old(storage) - {key}
      ensures history == old(history) && dialogs == old(dialogs)
    {
      storage := storage - {key};
    }

    method Navigate(nav: Nav)
      modifies this
      ensures history == old(history) + [nav]
      ensures storage == old(storage) && dialogs == old(dialogs)
    {
      history := history + [nav];
    }

    method ShowAlert(text: string)
      modifies this
      ensures dialogs == old(dialogs) + [Alert(text)]
      ensures storage == old(storage) && history == old(history)
    {
      dialogs := dialogs + [Alert(text)];
    }

    /** `confirm(text)`; the user's answer is an input. */
    method AskConfirm(text: string, answer: bool) returns (accepted: bool)
      modifies this
      ensures accepted == answer
      ensures dialogs == old(dialogs) + [Confirm(text, answer)]
      ensures storage == old(storage) && history == old(history)
    {
      dialogs := dialogs + [Confirm(text, answer)];
      accepted := answer;
    }
  }

  /** How a `fetch` went: a response with `res.ok` and its parsed body, a
      response without `res.ok` and the body's `error` field, if any, or an
      exception (network failure, a body that is not JSON) with its message. */
  datatype Outcome<T> = Ok(data: T) | NotOk(error: Option<string>) | Threw(message: string)

  datatype Verb = Post | Delete

  /** A request body: none, a JSON object of string fields, or a multipart
      form with one file field. */
  datatype Body = NoBody | Json(fields: seq<(string, string)>) | Form(field: string, fileName: string)

  datatype Request = Request(verb: Verb, url: string, headers: seq<(string, string)>, body: Body)

  const JsonContent := ("Content-Type", "application/json")

  /** The `Authorization: Bearer ${token}` header the client sends. */
  function Bearer(token: string): (string, string) {
    ("Authorization", "Bearer " + token)
  }

  /** A `b64token` of section 2.1 of RFC 6750: one or more characters from
      ALPHA / DIGIT / "-" / "." / "_" / "~" / "+" / "/", then any number of
      "=". */
  predicate IsB64Token(s: string) {
    exists n :: 0 < n <= |s| && TokenChars(s[..n]) && Padding(s[n..])
  }

  predicate TokenChars(s: string) {
    forall i :: 0 <= i < |s| ==> IsTokenChar(s[i])
  }

  predicate IsTokenChar(c: char) {
    ('A' <= c <= 'Z') || ('a' <= c <= 'z') || ('0' <= c <= '9')
    || c == '-' || c == '.' || c == '_' || c == '~' || c == '+' || c == '/'
  }

  predicate Padding(s: string) {
    forall i :: 0 <= i < |s| ==> s[i] == '='
  }

  /** `credentials = "Bearer" 1*SP b64token` of section 2.1 of RFC 6750. */
  predicate IsBearerCredentials(s: string) {
    |s| >= 7 && s[..6] == "Bearer" && s[6] == ' ' && SpacesThenToken(s[7..])
  }

  /** `*SP b64token`. */
  predicate SpacesThenToken(s: string)
    decreases |s|
  {
    IsB64Token(s) || (s != [] && s[0] == ' ' && SpacesThenToken(s[1..]))
  }

  /** The header value is well-formed RFC 6750 credentials exactly when the
      token, which the client does not check, is a `b64token` (a token
      starting with a space would be read as extra separator). */
  lemma BearerConforms(token: string)
    requires token == [] || token[0] != ' '
    ensures IsBearerCredentials(Bearer(token).1) <==> IsB64Token(token)
  {
    var v := Bearer(token).1;
    assert v[..6] == "Bearer" && v[6] == ' ' && v[7..] == token;
  }

  /** An example: a JWT-shaped token passes. */
  lemma BearerExample()
    ensures IsBearerCredentials(Bearer("eyJ0.e30.sig=").1)
  {
    var t := "eyJ0.e30.sig=";
    assert TokenChars(t[..12]) && Padding(t[12..]);
    BearerConforms(t);
  }
}
