/** The part of JavaScript string handling the client relies on:
    `String.prototype.trim`, which removes WhiteSpace and LineTerminator code
    points (section 22.1.3.32 of ECMA-262) from both ends, and JavaScript
    truthiness of an optional string. */
module JsText {
  import opened Wrappers

  /** WhiteSpace (TAB, VT, FF, SP, NBSP, ZWNBSP and category Zs) or a
      LineTerminator (LF, CR, LS, PS). */
  predicate IsJsSpace(c: char) {
    c == '\t' || c == '\U{000B}' || c == '\U{000C}' || c == ' ' || c == '\U{00A0}'
    || c == '\U{FEFF}' || c == '\U{1680}' || ('\U{2000}' <= c <= '\U{200A}')
    || c == '\U{202F}' || c == '\U{205F}' || c == '\U{3000}'
    || c == '\n' || c == '\r' || c == '\U{2028}' || c == '\U{2029}'
  }

  predicate AllJsSpace(s: string) {
    forall i :: 0 <= i < |s| ==> IsJsSpace(s[i])
  }

  function TrimStart(s: string): string
    decreases |s|
  {
    if |s| > 0 && IsJsSpace(s[0]) then TrimStart(s[1..]) else s
  }

  function TrimEnd(s: string): string
    decreases |s|
  {
    if |s| > 0 && IsJsSpace(s[|s| - 1]) then TrimEnd(s[..|s| - 1]) else s
  }

  /** `s.trim()`. */
  function Trim(s: string): string {
    TrimEnd(TrimStart(s))
  }

  lemma {:induction false} TrimStartBlank(s: string)
    ensures TrimStart(s) == [] <==> AllJsSpace(s)
    decreases |s|
  {
    if |s| > 0 {
      TrimStartBlank(s[1..]);
      if IsJsSpace(s[0]) {
        assert AllJsSpace(s) <==> AllJsSpace(s[1..]) by {
          assert forall i :: 1 <= i < |s| ==> s[i] == s[1..][i - 1];
        }
      }
    }
  }

  /** A string that does not start with white space keeps its first
      character under `trimEnd`. */
  lemma {:induction false} TrimEndKeepsFirst(s: string)
    requires s != [] && !IsJsSpace(s[0])
    ensures TrimEnd(s) != [] && TrimEnd(s)[0] == s[0]
    decreases |s|
  {
    if |s| > 1 && IsJsSpace(s[|s| - 1]) {
      TrimEndKeepsFirst(s[..|s| - 1]);
    }
  }

  /** `!s.trim()` holds exactly when every character is white space or a line
      terminator. */
  lemma TrimBlank(s: string)
    ensures Trim(s) == [] <==> AllJsSpace(s)
  {
    TrimStartBlank(s);
    var t := TrimStart(s);
    if t != [] {
      assert !IsJsSpace(t[0]) by { TrimStartFirst(s); }
      TrimEndKeepsFirst(t);
    }
  }

  lemma {:induction false} TrimStartFirst(s: string)
    requires TrimStart(s) != []
    ensures !IsJsSpace(TrimStart(s)[0])
    decreases |s|
  {
    if |s| > 0 && IsJsSpace(s[0]) {
      TrimStartFirst(s[1..]);
    }
  }

  /** JavaScript truthiness of a `string | null`: present and not empty. */
  predicate Truthy(v: Option<string>) {
    v.Some? && v.value != ""
  }

  /** `v || fallback` for a `string | null | undefined` value. */
  function Or(v: Option<string>, fallback: string): string {
    if Truthy(v) then v.value else fallback
  }
}
