/** The anonymous device id of the web client (`getUserId`): read
    "user_id" from `localStorage`, and mint and store one when it is missing,
    with `crypto.randomUUID` if the browser has it and otherwise by filling
    the version-4 layout of section 4.4 of RFC 4122 with random hex digits. */
module UserId {
  import opened Wrappers
  import opened JsText
  import opened Web

  const IdKey := "user_id"

  /** `Math.random() * 16 | 0`: one random hex digit. */
  type Nibble = n: int | 0 <= n < 16

  /** `n` placeholders for random hex digits. */
  function Xs(n: nat): (s: string)
    ensures |s| == n && forall i :: 0 <= i < n ==> s[i] == 'x'
  {
    seq(n, _ => 'x')
  }

  /** The polyfill's template, group by group. */
  const Template := Xs(8) + "-" + Xs(4) + "-4" + Xs(3) + "-y" + Xs(3) + "-" + Xs(12)
  const HexDigits := "0123456789abcdef"

  /** `v.toString(16)` for a nibble. */
  function HexDigit(n: Nibble): char {
    HexDigits[n]
  }

  /** For `y`: `r & 0x3 | 0x8`, the variant bits `10`. */
  function VariantNibble(r: Nibble): (v: Nibble)
    ensures 8 <= v <= 11
  {
    r % 4 + 8
  }

  predicate IsPlaceholder(c: char) {
    c == 'x' || c == 'y'
  }

  /** How many random digits a template consumes. */
  function Placeholders(t: string): nat {
    if t == [] then 0 else (if IsPlaceholder(t[0]) then 1 else 0) + Placeholders(t[1..])
  }

  /** `t.replace(/[xy]/g, …)`, drawing one nibble per placeholder, in order. */
  function Fill(t: string, ns: seq<Nibble>): string
    requires Placeholders(t) <= |ns|
    decreases |t|
  {
    if t == [] then ""
    else if t[0] == 'x' then [HexDigit(ns[0])] + Fill(t[1..], ns[1..])
    else if t[0] == 'y' then [HexDigit(VariantNibble(ns[0]))] + Fill(t[1..], ns[1..])
    else [t[0]] + Fill(t[1..], ns)
  }

  /** Character by character: a placeholder becomes the digit of the nibble
      drawn for it, every other character is copied. */
  lemma {:induction false} FillAt(t: string, ns: seq<Nibble>, i: nat)
    requires Placeholders(t) <= |ns| && i < |t|
    ensures |Fill(t, ns)| == |t|
    ensures IsPlaceholder(t[i]) ==> Placeholders(t[..i]) < |ns|
    ensures t[i] == 'x' ==> Fill(t, ns)[i] == HexDigit(ns[Placeholders(t[..i])])
    ensures t[i] == 'y' ==> Fill(t, ns)[i] == HexDigit(VariantNibble(ns[Placeholders(t[..i])]))
    ensures !IsPlaceholder(t[i]) ==> Fill(t, ns)[i] == t[i]
    decreases i
  {
    FillLength(t, ns);
    PlaceholdersPrefix(t, i);
    if i > 0 {
      var ns' := if IsPlaceholder(t[0]) then ns[1..] else ns;
      FillAt(t[1..], ns', i - 1);
      assert t[..i][1..] == t[1..][..i - 1];
    }
  }

  lemma {:induction false} FillLength(t: string, ns: seq<Nibble>)
    requires Placeholders(t) <= |ns|
    ensures |Fill(t, ns)| == |t|
    decreases |t|
  {
    if t != [] {
      FillLength(t[1..], if IsPlaceholder(t[0]) then ns[1..] else ns);
    }
  }

  /** A placeholder at `i` is not the last one counted by the whole template. */
  lemma {:induction false} PlaceholdersPrefix(t: string, i: nat)
    requires i < |t|
    ensures Placeholders(t[..i]) + (if IsPlaceholder(t[i]) then 1 else 0) <= Placeholders(t)
    decreases i
  {
    if i > 0 {
      PlaceholdersPrefix(t[1..], i - 1);
      assert t[..i][1..] == t[1..][..i - 1];
    }
  }

  lemma {:induction false} PlaceholdersConcat(a: string, b: string)
    ensures Placeholders(a + b) == Placeholders(a) + Placeholders(b)
  {
    if a == [] {
      assert a + b == b;
    } else {
      assert (a + b)[1..] == a[1..] + b;
      PlaceholdersConcat(a[1..], b);
    }
  }

  lemma {:induction false} XsPlaceholders(n: nat)
    ensures Placeholders(Xs(n)) == n
  {
    if n > 0 {
      assert Xs(n)[1..] == Xs(n - 1);
      XsPlaceholders(n - 1);
    }
  }

  /** The template is the literal `'xxxxxxxx-xxxx-4xxx-yxxx-xxxxxxxxxxxx'`. */
  lemma TemplateText()
    ensures Template == "xxxxxxxx-xxxx-4xxx-yxxx-xxxxxxxxxxxx"
  {
  }

  /** The template has 31 placeholders: the polyfill draws 31 nibbles. */
  lemma TemplatePlaceholders()
    ensures Placeholders(Template) == 31
  {
    var g1 := Xs(8) + "-";
    var g2 := g1 + Xs(4);
    var g3 := g2 + "-4";
    var g4 := g3 + Xs(3);
    var g5 := g4 + "-y";
    var g6 := g5 + Xs(3);
    var g7 := g6 + "-";
    assert Placeholders(g1) == 8 by {
      XsPlaceholders(8);
      PlaceholdersConcat(Xs(8), "-");
    }
    assert Placeholders(g2) == 12 by {
      XsPlaceholders(4);
      PlaceholdersConcat(g1, Xs(4));
    }
    assert Placeholders(g3) == 12 by {
      PlaceholdersConcat(g2, "-4");
    }
    assert Placeholders(g4) == 15 by {
      XsPlaceholders(3);
      PlaceholdersConcat(g3, Xs(3));
    }
    assert Placeholders(g5) == 16 by {
      PlaceholdersConcat(g4, "-y");
    }
    assert Placeholders(g6) == 19 by {
      XsPlaceholders(3);
      PlaceholdersConcat(g5, Xs(3));
    }
    assert Placeholders(g7) == 19 by {
      PlaceholdersConcat(g6, "-");
    }
    XsPlaceholders(12);
    PlaceholdersConcat(g7, Xs(12));
  }

  /** The polyfill's output for the 31 nibbles it draws. */
  function Polyfill(ns: seq<Nibble>): string
    requires |ns| == 31
  {
    TemplatePlaceholders();
    Fill(Template, ns)
  }

  predicate IsLowerHex(c: char) {
    c in HexDigits
  }

  /** The layout of section 4.4 of RFC 4122 in its hyphenated form: 36
      characters, hyphens at 8, 13, 18 and 23, version digit `4` at 14,
      variant digit `8`, `9`, `a` or `b` at 19, lowercase hex elsewhere. */
  predicate IsV4Layout(id: string) {
    |id| == 36
    && id[8] == '-' && id[13] == '-' && id[18] == '-' && id[23] == '-'
    && id[14] == '4' && id[19] in "89ab"
    && (forall i :: 0 <= i < 36 && i != 8 && i != 13 && i != 14 && i != 18 && i != 19 && i != 23
                    ==> IsLowerHex(id[i]))
  }

  /** Filling any template of the version-4 layout gives a version-4 id. */
  lemma FilledLayout(t: string, ns: seq<Nibble>)
    requires Placeholders(t) <= |ns| && |t| == 36
    requires t[8] == '-' && t[13] == '-' && t[18] == '-' && t[23] == '-' && t[14] == '4' && t[19] == 'y'
    requires forall i :: 0 <= i < 36 && i != 8 && i != 13 && i != 14 && i != 18 && i != 19 && i != 23
                         ==> (t[i] == 'x')
    ensures IsV4Layout(Fill(t, ns))
  {
    var r := Fill(t, ns);
    FillLength(t, ns);
    forall i | 0 <= i < 36
      ensures t[i] == 'x' ==> IsLowerHex(r[i])
      ensures t[i] == 'y' ==> r[i] in "89ab"
      ensures !IsPlaceholder(t[i]) ==> r[i] == t[i]
    {
      FillAt(t, ns, i);
      if t[i] == 'y' {
        var v := VariantNibble(ns[Placeholders(t[..i])]);
        assert HexDigit(v) in "89ab" by {
          assert v == 8 || v == 9 || v == 10 || v == 11;
        }
      }
    }
  }

  lemma PolyfillLayout(ns: seq<Nibble>)
    requires |ns| == 31
    ensures IsV4Layout(Polyfill(ns))
  {
    TemplatePlaceholders();
    FilledLayout(Template, ns);
  }

  /** One storage read: the stored id if it is non-empty, otherwise a new
      one, which is stored. */
  function Lookup(storage: map<string, string>, cryptoUuid: Option<string>, ns: seq<Nibble>)
    : (r: (string, map<string, string>))
    requires |ns| == 31
  {
    var stored := if IdKey in storage then Some(storage[IdKey]) else None;
    if Truthy(stored) then (stored.value, storage)
    else
      var id := if cryptoUuid.Some? then cryptoUuid.value else Polyfill(ns);
      (id, storage[IdKey := id])
  }

  /** A stored id is returned as is, and nothing is written. */
  lemma StoredIdKept(storage: map<string, string>, cryptoUuid: Option<string>, ns: seq<Nibble>)
    requires |ns| == 31 && IdKey in storage && storage[IdKey] != ""
    ensures Lookup(storage, cryptoUuid, ns) == (storage[IdKey], storage)
  {
  }

  /** Without a stored id the new one is stored under "user_id" only, and is
      RFC 4122 shaped when the polyfill made it. */
  lemma MintedIdStored(storage: map<string, string>, cryptoUuid: Option<string>, ns: seq<Nibble>)
    requires |ns| == 31 && !(IdKey in storage && storage[IdKey] != "")
    ensures var (id, after) := Lookup(storage, cryptoUuid, ns);
      after == storage[IdKey := id]
      && (cryptoUuid.Some? ==> id == cryptoUuid.value)
      && (cryptoUuid.None? ==> IsV4Layout(id))
  {
    if cryptoUuid.None? {
      PolyfillLayout(ns);
    }
  }

  /** Two calls in a row give the same id, whatever the second would have
      drawn, unless `crypto.randomUUID` returned the empty string. */
  lemma LookupStable(storage: map<string, string>, c1: Option<string>, n1: seq<Nibble>,
                     c2: Option<string>, n2: seq<Nibble>)
    requires |n1| == 31 && |n2| == 31
    requires c1 != Some("")
    ensures var (id, after) := Lookup(storage, c1, n1);
      Lookup(after, c2, n2) == (id, after)
  {
    if c1.None? {
      PolyfillLayout(n1);
    }
  }

  /** `getUserId()`. A null browser is server-side rendering, with no
      `window` and no storage. */
  method GetUserId(browser: Browser?, cryptoUuid: Option<string>, ns: seq<Nibble>) returns (id: string)
    requires |ns| == 31
    modifies browser
    ensures browser == null ==> id == ""
    ensures browser != null ==> (id, browser.storage) == Lookup(old(browser.storage), cryptoUuid, ns)
    ensures browser != null ==> browser.history == old(browser.history) && browser.dialogs == old(browser.dialogs)
  {
    if browser == null {
      return "";
    }
    var stored := browser.GetItem(IdKey);
    if Truthy(stored) {
      return stored.value;
    }
    if cryptoUuid.Some? {
      id := cryptoUuid.value;
    } else {
      TemplatePlaceholders();
      id := Fill(Template, ns);
    }
    browser.SetItem(IdKey, id);
  }
}
