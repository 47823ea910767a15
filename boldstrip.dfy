/** The bold-marker remover of app.py's `generate_response`:
    `re.sub(r"\*\*(.*?)\*\*", r"\1", content)` under Python `re` semantics.
    The engine tries positions left to right; at a position holding `**` the
    lazy group takes as few characters as it can before the next `**`, and
    `.` matches any character except a newline. After a match the scan goes
    on after the closing `**`; where nothing matches, the character is kept. */
module BoldStrip {
  import opened Wrappers

  predicate PairAt(s: string, j: int) {
    0 <= j && j + 1 < |s| && s[j] == '*' && s[j + 1] == '*'
  }

  /** Where the lazy `(.*?)\*\*` that starts at `k` stops: the first `j >= k`
      with `**` at `j` and no newline in `s[k..j]`, if any. */
  function FindClose(s: string, k: nat): (r: Option<nat>)
    requires k <= |s|
    ensures r.Some? ==> k <= r.value && PairAt(s, r.value)
    decreases |s| - k
  {
    if k + 2 > |s| then None
    else if PairAt(s, k) then Some(k)
    else if s[k] == '\n' then None
    else FindClose(s, k + 1)
  }

  /** The closing marker found is the first one, and no newline precedes it. */
  lemma {:induction false} FindCloseFirst(s: string, k: nat)
    requires k <= |s| && FindClose(s, k).Some?
    ensures forall j :: k <= j < FindClose(s, k).value ==> s[j] != '\n' && !PairAt(s, j)
    decreases |s| - k
  {
    if !PairAt(s, k) {
      FindCloseFirst(s, k + 1);
    }
  }

  /** When the search fails, every later `**` has a newline before it. */
  lemma {:induction false} FindCloseNone(s: string, k: nat, j: nat)
    requires k <= j && PairAt(s, j) && FindClose(s, k).None?
    ensures exists i :: k <= i < j && s[i] == '\n'
    decreases |s| - k
  {
    if !PairAt(s, k) && s[k] != '\n' {
      FindCloseNone(s, k + 1, j);
    }
  }

  /** `re.sub(r"\*\*(.*?)\*\*", r"\1", s)`. */
  function StripBold(s: string): string
    decreases |s|
  {
    if |s| < 2 then s
    else if PairAt(s, 0) && FindClose(s, 2).Some? then
      var j := FindClose(s, 2).value;
      s[2..j] + StripBold(s[j + 2..])
    else [s[0]] + StripBold(s[1..])
  }

  /** `s` with every `*` removed. */
  function WithoutStars(s: string): string {
    if s == [] then "" else (if s[0] == '*' then "" else [s[0]]) + WithoutStars(s[1..])
  }

  lemma {:induction false} WithoutStarsConcat(a: string, b: string)
    ensures WithoutStars(a + b) == WithoutStars(a) + WithoutStars(b)
  {
    if a == [] {
      assert a + b == b;
    } else {
      assert (a + b)[0] == a[0] && (a + b)[1..] == a[1..] + b;
      WithoutStarsConcat(a[1..], b);
    }
  }

  lemma MarkerVanishes(m: string)
    requires |m| == 2 && m[0] == '*' && m[1] == '*'
    ensures WithoutStars(m) == ""
  {
    var m1 := m[1..];
    assert m1[0] == '*' && m1[1..] == [];
    assert WithoutStars(m1) == WithoutStars(m1[1..]);
  }

  /** Dropping the asterisks of a span drops its two markers. */
  lemma WithoutMarkers(s: string, j: nat)
    requires PairAt(s, 0) && 2 <= j && PairAt(s, j)
    ensures WithoutStars(s) == WithoutStars(s[2..j]) + WithoutStars(s[j + 2..])
  {
    assert s == s[..2] + s[2..j] + s[j..j + 2] + s[j + 2..];
    WithoutStarsConcat(s[..2] + s[2..j] + s[j..j + 2], s[j + 2..]);
    WithoutStarsConcat(s[..2] + s[2..j], s[j..j + 2]);
    WithoutStarsConcat(s[..2], s[2..j]);
    MarkerVanishes(s[..2]);
    MarkerVanishes(s[j..j + 2]);
  }

  /** Only asterisks are removed: every other character survives, in order. */
  lemma {:induction false} StripBoldKeepsText(s: string)
    ensures WithoutStars(StripBold(s)) == WithoutStars(s)
    decreases |s|
  {
    if |s| >= 2 {
      if PairAt(s, 0) && FindClose(s, 2).Some? {
        var j := FindClose(s, 2).value;
        ReplacesSpan(s);
        StripBoldKeepsText(s[j + 2..]);
        WithoutStarsConcat(s[2..j], StripBold(s[j + 2..]));
        WithoutMarkers(s, j);
      } else {
        KeepsUnmatched(s);
        StripBoldKeepsText(s[1..]);
        WithoutStarsConcat([s[0]], StripBold(s[1..]));
        WithoutStarsConcat([s[0]], s[1..]);
        assert s == [s[0]] + s[1..];
      }
    }
  }

  /** Each replacement removes exactly four characters, the two markers. */
  lemma {:induction false} StripBoldLength(s: string)
    ensures |StripBold(s)| <= |s| && (|s| - |StripBold(s)|) % 4 == 0
    decreases |s|
  {
    if s != [] {
      if PairAt(s, 0) && FindClose(s, 2).Some? {
        ReplacesSpan(s);
        StripBoldLength(s[FindClose(s, 2).value + 2..]);
      } else {
        KeepsUnmatched(s);
        StripBoldLength(s[1..]);
      }
    }
  }

  /** Text without a `**` pair is returned unchanged. */
  lemma {:induction false} StripBoldNoMarkers(s: string)
    requires forall j :: 0 <= j < |s| ==> !PairAt(s, j)
    ensures StripBold(s) == s
    decreases |s|
  {
    if |s| >= 2 {
      assert !PairAt(s, 0);
      assert forall j :: 0 <= j < |s| - 1 ==> (PairAt(s[1..], j) <==> PairAt(s, j + 1));
      StripBoldNoMarkers(s[1..]);
      assert s == [s[0]] + s[1..];
    }
  }

  /** A character other than `*` is copied and the scan moves on. */
  lemma KeepsPlain(s: string)
    requires s != [] && s[0] != '*'
    ensures StripBold(s) == [s[0]] + StripBold(s[1..])
  {
    KeepsUnmatched(s);
  }

  /** Where no bold span starts, the character is copied and the scan moves on. */
  lemma KeepsUnmatched(s: string)
    requires s != [] && !(PairAt(s, 0) && FindClose(s, 2).Some?)
    ensures StripBold(s) == [s[0]] + StripBold(s[1..])
  {
    if |s| < 2 {
      assert s[1..] == [];
    }
  }

  /** A bold span at the front is replaced by its text. */
  lemma ReplacesSpan(s: string)
    requires PairAt(s, 0) && FindClose(s, 2).Some?
    ensures StripBold(s) == s[2..FindClose(s, 2).value] + StripBold(s[FindClose(s, 2).value + 2..])
  {
  }

  /** A prefix without asterisks passes through untouched. */
  lemma {:induction false} StarFreePrefix(t: string, u: string)
    requires forall i :: 0 <= i < |t| ==> t[i] != '*'
    ensures StripBold(t + u) == t + StripBold(u)
  {
    if t == [] {
      assert t + u == u;
    } else {
      var s := t + u;
      calc {
        StripBold(s);
        { assert s[0] == t[0]; KeepsPlain(s); }
        [t[0]] + StripBold(s[1..]);
        { assert s[1..] == t[1..] + u; }
        [t[0]] + StripBold(t[1..] + u);
        { StarFreePrefix(t[1..], u); }
        [t[0]] + (t[1..] + StripBold(u));
        { assert t == [t[0]] + t[1..]; }
        t + StripBold(u);
      }
    }
  }

  /** The closing marker search over `t + "**" + u` stops right after `t`
      when `t` holds neither an asterisk nor a newline. */
  lemma {:induction false} CloseAfter(s: string, k: nat, t: string)
    requires k + |t| + 2 <= |s| && s[k..k + |t|] == t && PairAt(s, k + |t|)
    requires forall i :: 0 <= i < |t| ==> t[i] != '*' && t[i] != '\n'
    ensures FindClose(s, k) == Some(k + |t|)
    decreases |t|
  {
    if t != [] {
      assert s[k] == t[0] && s[k + 1..k + |t|] == t[1..];
      CloseAfter(s, k + 1, t[1..]);
    }
  }

  /** A bold span whose text has neither an asterisk nor a newline loses its
      markers; scanning goes on after it. */
  lemma BoldSpan(t: string, u: string)
    requires forall i :: 0 <= i < |t| ==> t[i] != '*' && t[i] != '\n'
    ensures StripBold("**" + t + "**" + u) == t + StripBold(u)
  {
    var s := "**" + t + "**" + u;
    assert s[2..2 + |t|] == t;
    CloseAfter(s, 2, t);
    assert s[2..2 + |t|] == t && s[2 + |t| + 2..] == u;
  }

  /** `.` does not match a newline: markers around text that holds one, and
      no asterisk, stay. */
  lemma {:induction false} NewlineBlocksBold(t: string)
    requires '\n' in t && forall i :: 0 <= i < |t| ==> t[i] != '*'
    ensures StripBold("**" + t + "**") == "**" + t + "**"
  {
    var s := "**" + t + "**";
    var n :| 0 <= n < |t| && t[n] == '\n';
    NoCloseBeforeNewline(s, 2, 2 + n);
    assert s[1..] == "*" + t + "**";
    LoneStar(t);
  }

  /** A single `*` in front of asterisk-free text is kept, and so is the
      unmatched `**` after it. */
  lemma {:induction false} LoneStar(t: string)
    requires t != [] && forall i :: 0 <= i < |t| ==> t[i] != '*'
    ensures StripBold("*" + t + "**") == "*" + t + "**"
  {
    var s1 := "*" + t + "**";
    assert s1[1] == t[0];
    assert s1[1..] == t + "**";
    StarFreePrefix(t, "**");
    UnmatchedMarker();
  }

  lemma UnmatchedMarker()
    ensures StripBold("**") == "**"
  {
    assert FindClose("**", 2) == None;
    assert "**"[1..] == "*";
  }

  /** Between `k` and a newline at `n` there is no `**`, so the search from `k`
      stops at the newline. */
  lemma {:induction false} NoCloseBeforeNewline(s: string, k: nat, n: nat)
    requires k <= n < |s| && s[n] == '\n'
    requires forall i :: k <= i < n ==> s[i] != '*'
    ensures FindClose(s, k) == None
    decreases n - k
  {
    if k < n && k + 2 <= |s| {
      NoCloseBeforeNewline(s, k + 1, n);
    }
  }

  /** The group is lazy: it ends at the first closing `**`. */
  lemma LazyExample()
    ensures StripBold("**a**b**") == "ab**"
  {
    BoldSpan("a", "b**");
    StarFreePrefix("b", "**");
    UnmatchedMarker();
    assert "**" + "a" + "**" + "b**" == "**a**b**";
  }
}
