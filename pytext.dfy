/** The parts of Python's `str` that the ingestion pipeline relies on:
    `isspace`, `strip()`, `split()` with no separator and `" ".join`. */
module PyText {

  /** A character Python's `str.isspace()` accepts: bidirectional class WS, B
      or S, or general category Zs. `split()` and `strip()` use the same set. */
  predicate IsSpace(c: char) {
    || c == ' ' || c == '\t' || c == '\n' || c == '\r' || c == '\U{B}' || c == '\U{C}'
    || ('\U{1C}' <= c <= '\U{1F}') || c == '\U{85}' || c == '\U{A0}' || c == '\U{1680}'
    || ('\U{2000}' <= c <= '\U{200A}') || c == '\U{2028}' || c == '\U{2029}'
    || c == '\U{202F}' || c == '\U{205F}' || c == '\U{3000}'
  }

  predicate AllSpace(s: string) {
    forall i :: 0 <= i < |s| ==> IsSpace(s[i])
  }

  /** `s.lstrip()`. */
  function LStrip(s: string): string {
    if |s| > 0 && IsSpace(s[0]) then LStrip(s[1..]) else s
  }

  /** `lstrip` drops a prefix of whitespace and stops at a non-space. */
  lemma {:induction false} LStripDropsSpace(s: string)
    ensures |LStrip(s)| <= |s| && LStrip(s) == s[|s| - |LStrip(s)|..]
    ensures AllSpace(s[..|s| - |LStrip(s)|])
    ensures LStrip(s) != [] ==> !IsSpace(LStrip(s)[0])
    decreases |s|
  {
    if |s| > 0 && IsSpace(s[0]) {
      LStripDropsSpace(s[1..]);
      var n := |s| - |LStrip(s)|;
      assert s[1..][|s| - 1 - |LStrip(s)|..] == s[n..];
      assert forall i :: 1 <= i < n ==> s[..n][i] == s[1..][..n - 1][i - 1];
    }
  }

  /** `s.rstrip()`. */
  function RStrip(s: string): string {
    if |s| > 0 && IsSpace(s[|s| - 1]) then RStrip(s[..|s| - 1]) else s
  }

  /** `rstrip` drops a suffix of whitespace and stops at a non-space. */
  lemma {:induction false} RStripDropsSpace(s: string)
    ensures |RStrip(s)| <= |s| && RStrip(s) == s[..|RStrip(s)|]
    ensures AllSpace(s[|RStrip(s)|..])
    ensures RStrip(s) != [] ==> !IsSpace(RStrip(s)[|RStrip(s)| - 1])
    decreases |s|
  {
    if |s| > 0 && IsSpace(s[|s| - 1]) {
      RStripDropsSpace(s[..|s| - 1]);
      var n := |RStrip(s)|;
      assert s[..|s| - 1][..n] == s[..n];
      assert forall j :: 0 <= j < |s| - 1 - n ==> s[n..][j] == s[..|s| - 1][n..][j];
    }
  }

  /** `s.strip()`. */
  function Strip(s: string): string {
    RStrip(LStrip(s))
  }

  /** `s.strip()` is empty, so that Python treats it as false, exactly when
      `s` is all whitespace; otherwise it starts and ends with a character
      that is not whitespace. */
  lemma StripBlank(s: string)
    ensures Strip(s) == [] <==> AllSpace(s)
    ensures Strip(s) != [] ==> !IsSpace(Strip(s)[0]) && !IsSpace(Strip(s)[|Strip(s)| - 1])
  {
    var l := LStrip(s);
    var r := RStrip(l);
    LStripDropsSpace(s);
    RStripDropsSpace(l);
    if r == [] {
      assert l == [] by {
        assert l[0..] == l;
      }
      assert AllSpace(s) by {
        assert s[..|s|] == s;
      }
    } else {
      assert r[0] == l[0];
      assert !AllSpace(s) by {
        assert s[|s| - |l|] == l[0];
      }
    }
  }

  /** Trailing whitespace makes no difference to `rstrip`. */
  lemma {:induction false} RStripTrailing(c: string, sp: string)
    requires AllSpace(sp)
    ensures RStrip(c + sp) == RStrip(c)
    decreases |sp|
  {
    if sp == [] {
      assert c + sp == c;
    } else {
      var x := c + sp;
      assert x[|x| - 1] == sp[|sp| - 1];
      assert x[..|x| - 1] == c + sp[..|sp| - 1];
      RStripTrailing(c, sp[..|sp| - 1]);
    }
  }

  /** `rstrip` never reaches into a prefix that ends in a non-space. */
  lemma {:induction false} RStripConcat(a: string, b: string)
    requires a != [] && !IsSpace(a[|a| - 1])
    ensures RStrip(a + b) == a + RStrip(b)
    decreases |b|
  {
    var x := a + b;
    if b == [] {
      assert x == a;
    } else {
      assert x[|x| - 1] == b[|b| - 1];
      if IsSpace(b[|b| - 1]) {
        assert x[..|x| - 1] == a + b[..|b| - 1];
        RStripConcat(a, b[..|b| - 1]);
      }
    }
  }

  /** A word of `split()`: non-empty, without whitespace. */
  predicate IsWord(w: string) {
    w != [] && forall i :: 0 <= i < |w| ==> !IsSpace(w[i])
  }

  /** The longest prefix of `s` that holds no whitespace. */
  function Word(s: string): (w: string)
    ensures |w| <= |s| && w == s[..|w|]
    ensures forall i :: 0 <= i < |w| ==> !IsSpace(w[i])
    ensures |w| < |s| ==> IsSpace(s[|w|])
  {
    if |s| > 0 && !IsSpace(s[0]) then [s[0]] + Word(s[1..]) else []
  }

  /** `s.split()`: the maximal runs of non-whitespace, in order. */
  function Split(s: string): seq<string>
    decreases |s|
  {
    if s == [] then []
    else if IsSpace(s[0]) then Split(s[1..])
    else
      var w := Word(s);
      [w] + Split(s[|w|..])
  }

  /** Every piece of `split()` is a word, and there is none exactly when `s`
      is all whitespace. */
  lemma {:induction false} SplitWords(s: string)
    ensures forall k :: 0 <= k < |Split(s)| ==> IsWord(Split(s)[k])
    ensures Split(s) == [] <==> AllSpace(s)
    decreases |s|
  {
    if s != [] {
      if IsSpace(s[0]) {
        SplitWords(s[1..]);
        assert forall i :: 1 <= i < |s| ==> s[i] == s[1..][i - 1];
      } else {
        var w := Word(s);
        SplitWords(s[|w|..]);
        var ws := Split(s);
        assert ws[0] == w;
        forall k | 1 <= k < |ws| ensures IsWord(ws[k]) {
          assert ws[k] == Split(s[|w|..])[k - 1];
        }
      }
    }
  }

  /** `" ".join(ws)`. */
  function Join(ws: seq<string>): string {
    if ws == [] then ""
    else if |ws| == 1 then ws[0]
    else ws[0] + " " + Join(ws[1..])
  }

  /** The characters of `s` that are not whitespace, in order. */
  function NonSpace(s: string): string {
    if s == [] then ""
    else if IsSpace(s[0]) then NonSpace(s[1..])
    else [s[0]] + NonSpace(s[1..])
  }

  function Concat(ws: seq<string>): string {
    if ws == [] then "" else ws[0] + Concat(ws[1..])
  }

  lemma {:induction false} NonSpaceOfWordPrefix(w: string, t: string)
    requires forall i :: 0 <= i < |w| ==> !IsSpace(w[i])
    ensures NonSpace(w + t) == w + NonSpace(t)
  {
    if w != [] {
      assert (w + t)[0] == w[0] && (w + t)[1..] == w[1..] + t;
      assert !IsSpace(w[0]);
      NonSpaceOfWordPrefix(w[1..], t);
      calc {
        NonSpace(w + t);
        [w[0]] + NonSpace(w[1..] + t);
        [w[0]] + (w[1..] + NonSpace(t));
        { assert w == [w[0]] + w[1..]; }
        w + NonSpace(t);
      }
    } else {
      assert w + t == t;
    }
  }

  /** `split()` loses no text: its words, concatenated, are `s` without its
      whitespace. */
  lemma {:induction false} SplitKeepsText(s: string)
    ensures Concat(Split(s)) == NonSpace(s)
    decreases |s|
  {
    if s != [] {
      if IsSpace(s[0]) {
        SplitKeepsText(s[1..]);
      } else {
        var w := Word(s);
        assert s == w + s[|w|..];
        SplitKeepsText(s[|w|..]);
        NonSpaceOfWordPrefix(w, s[|w|..]);
      }
    }
  }

  lemma {:induction false} WordOfJoin(w: string, t: string)
    requires forall i :: 0 <= i < |w| ==> !IsSpace(w[i])
    requires t == [] || IsSpace(t[0])
    ensures Word(w + t) == w
  {
    if w != [] {
      assert (w + t)[1..] == w[1..] + t;
      WordOfJoin(w[1..], t);
    }
  }

  /** Joining words with single spaces and splitting again gives the words
      back. */
  lemma {:induction false} SplitJoin(ws: seq<string>)
    requires forall k :: 0 <= k < |ws| ==> IsWord(ws[k])
    ensures Split(Join(ws)) == ws
  {
    if |ws| == 1 {
      WordOfJoin(ws[0], "");
      assert ws[0] + "" == ws[0];
      assert ws[0][|ws[0]|..] == [];
    } else if |ws| > 1 {
      var rest := Join(ws[1..]);
      var s := ws[0] + " " + rest;
      WordOfJoin(ws[0], " " + rest);
      assert s == ws[0] + (" " + rest);
      assert s[|ws[0]|..] == " " + rest;
      assert (" " + rest)[1..] == rest;
      SplitJoin(ws[1..]);
    }
  }

  lemma JoinStartsWithFirst(ws: seq<string>)
    requires ws != []
    ensures |Join(ws)| >= |ws[0]| && Join(ws)[..|ws[0]|] == ws[0]
  {
  }

  /** A join of words is never blank: `strip()` leaves it non-empty. */
  lemma JoinNotBlank(ws: seq<string>)
    requires ws != [] && IsWord(ws[0])
    ensures Strip(Join(ws)) != ""
  {
    JoinStartsWithFirst(ws);
    assert Join(ws)[0] == ws[0][0];
    StripBlank(Join(ws));
  }
}
