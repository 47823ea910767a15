/** The answering side of app.py: `query_pinecone`, which turns the matches
    of a vector search into a text block, and `generate_response`, which puts
    that text into the prompt and cleans the model's answer. The embedding
    model, the index and the language model are outside the model; what they
    return, or the exception they raise, is an input. */
module Retrieval {
  import opened Wrappers
  import opened PyText
  import opened BoldStrip
  import opened Seqs

  /** The metadata of one search match: `page` and `text`, either of which the
      stored record may lack. The page is taken as already rendered. */
  datatype Match = Match(page: Option<string>, text: Option<string>)

  /** What the embedding model and the index gave back. */
  datatype Search =
    | EmptyEmbedding                 // `embed_query` returned an empty vector
    | Found(matches: seq<Match>)     // the query's `matches` (missing key: none)
    | Raised(message: string)        // an exception, rendered by `str(e)`

  const Header := "\nSearch Results:\n"
  const NoEmbeddingText := "Error: Failed to generate embedding for query."
  const NoResultsText := "No relevant results found."
  const QueryErrorPrefix := "Error querying Pinecone: "
  /** `str(KeyError('text'))` is the key in quotes. */
  const MissingTextError := QueryErrorPrefix + "'text'"

  /** `match["metadata"].get("page", "Unknown Page")`. */
  function PageLabel(m: Match): string {
    if m.page.Some? then m.page.value else "Unknown Page"
  }

  predicate AllHaveText(ms: seq<Match>) {
    forall k :: 0 <= k < |ms| ==> ms[k].text.Some?
  }

  /** The match's text; the formatter never reaches a match without one. */
  function TextOf(m: Match): string {
    if m.text.Some? then m.text.value else ""
  }

  /** One match as the loop appends it. */
  function Block(m: Match): string {
    "(Page " + PageLabel(m) + ") " + TextOf(m) + "\n\n"
  }

  /** The blocks of the matches, in order. */
  function Blocks(ms: seq<Match>): string {
    if ms == [] then "" else Blocks(ms[..|ms| - 1]) + Block(ms[|ms| - 1])
  }

  /** What the formatting part of `query_pinecone` returns for the matches. */
  function Formatted(ms: seq<Match>): string {
    if ms == [] then NoResultsText
    else if !AllHaveText(ms) then MissingTextError
    else Strip(Header + Blocks(ms))
  }

  /** What `query_pinecone` returns. */
  function QueryText(search: Search): string {
    match search
    case EmptyEmbedding => NoEmbeddingText
    case Found(ms) => Formatted(ms)
    case Raised(msg) => QueryErrorPrefix + msg
  }

  /** The loop of `query_pinecone`: appends one block per match, gives up with
      the `KeyError` message at the first match without text, and strips the
      result. */
  method FormatMatches(matches: seq<Match>) returns (r: string)
    ensures r == Formatted(matches)
  {
    if |matches| == 0 {
      return NoResultsText;
    }
    var responses := Header;
    for k := 0 to |matches|
      invariant AllHaveText(matches[..k])
      invariant responses == Header + Blocks(matches[..k])
    {
      var m := matches[k];
      if m.text.None? {
        return MissingTextError;
      }
      BlocksStep(matches, k);
      AllHaveTextStep(matches, k);
      responses := responses + Block(m);
    }
    assert matches[..|matches|] == matches;
    return Strip(responses);
  }

  /** One more match appends one more block. */
  lemma BlocksStep(ms: seq<Match>, k: nat)
    requires k < |ms|
    ensures Header + Blocks(ms[..k + 1]) == (Header + Blocks(ms[..k])) + Block(ms[k])
  {
    PrefixOfPrefix(ms, k + 1, k);
    assert Blocks(ms[..k + 1]) == Blocks(ms[..k]) + Block(ms[k]);
    AppendAssoc(Header, Blocks(ms[..k]), Block(ms[k]));
  }

  lemma AllHaveTextStep(ms: seq<Match>, k: nat)
    requires k < |ms| && AllHaveText(ms[..k]) && ms[k].text.Some?
    ensures AllHaveText(ms[..k + 1])
  {
    assert forall j :: 0 <= j < k ==> ms[..k + 1][j] == ms[..k][j];
  }

  lemma AppendAssoc(a: string, b: string, c: string)
    ensures (a + b) + c == a + (b + c)
  {
  }

  /** `query_pinecone` once the embedding and the index have answered. */
  method QueryPinecone(search: Search) returns (r: string)
    ensures r == QueryText(search)
  {
    match search {
      case EmptyEmbedding =>
        r := NoEmbeddingText;
      case Found(ms) =>
        r := FormatMatches(ms);
      case Raised(msg) =>
        r := QueryErrorPrefix + msg;
    }
  }

  /** Blocks of a longer list are the blocks of its parts, in order. */
  lemma {:induction false} BlocksSplit(ms: seq<Match>, k: nat)
    requires k <= |ms|
    ensures Blocks(ms) == Blocks(ms[..k]) + Blocks(ms[k..])
    decreases |ms|
  {
    if k == |ms| {
      assert ms[..k] == ms;
      assert Blocks(ms[k..]) == "";
    } else {
      var n := |ms| - 1;
      var front, tail := ms[..n], ms[k..];
      BlocksSplit(front, k);
      PrefixOfPrefix(ms, n, k);
      SuffixInit(ms, k);
      calc {
        Blocks(ms);
        Blocks(front) + Block(ms[n]);
        (Blocks(ms[..k]) + Blocks(front[k..])) + Block(ms[n]);
        { AppendAssoc(Blocks(ms[..k]), Blocks(front[k..]), Block(ms[n])); }
        Blocks(ms[..k]) + (Blocks(front[k..]) + Block(ms[n]));
        Blocks(ms[..k]) + Blocks(tail);
      }
    }
  }

  /** The header's leading newline is all `lstrip` removes. */
  lemma HeaderStrip(b: string)
    ensures LStrip(Header + b) == "Search Results:\n" + b
  {
    var x := Header + b;
    var y := "Search Results:\n" + b;
    calc {
      LStrip(x);
      { assert IsSpace(x[0]); }
      LStrip(x[1..]);
      { assert x[1..] == y; }
      LStrip(y);
      { assert !IsSpace(y[0]); }
      y;
    }
  }

  /** A block split after the closing parenthesis of its page label. */
  lemma BlockParts(m: Match)
    ensures Block(m) == ("(Page " + PageLabel(m) + ")") + ((" " + TextOf(m)) + "\n\n")
  {
  }

  /** The header loses its leading newline, the match blocks stay in order,
      and only the last block loses its trailing whitespace. */
  lemma FormatShape(ms: seq<Match>)
    requires ms != [] && AllHaveText(ms)
    ensures Formatted(ms) ==
      "Search Results:\n" + Blocks(ms[..|ms| - 1]) + ("(Page " + PageLabel(ms[|ms| - 1]) + ")")
      + RStrip(" " + TextOf(ms[|ms| - 1]))
  {
    var last := ms[|ms| - 1];
    var s0, b0 := "Search Results:\n", Blocks(ms[..|ms| - 1]);
    var lead, t := "(Page " + PageLabel(last) + ")", " " + TextOf(last);
    calc {
      Formatted(ms);
      RStrip(LStrip(Header + Blocks(ms)));
      { HeaderStrip(Blocks(ms)); }
      RStrip(s0 + Blocks(ms));
      RStrip(s0 + (b0 + Block(last)));
      { BlockParts(last); }
      RStrip(s0 + (b0 + (lead + (t + "\n\n"))));
      { StripBlocksTail(s0, b0, lead, t); }
      s0 + b0 + lead + RStrip(t);
    }
  }

  /** `rstrip` of the text ending in `lead + t + "\n\n"`, where `lead` ends
      in a non-space. */
  lemma StripBlocksTail(s0: string, b0: string, lead: string, t: string)
    requires lead != [] && !IsSpace(lead[|lead| - 1])
    ensures RStrip(s0 + (b0 + (lead + (t + "\n\n")))) == s0 + b0 + lead + RStrip(t)
  {
    var a := s0 + b0 + lead;
    assert s0 + (b0 + (lead + (t + "\n\n"))) == a + (t + "\n\n");
    RStripConcat(a, t + "\n\n");
    RStripTrailing(t, "\n\n");
  }

  /** The result never starts or ends with whitespace. */
  lemma FormattedTrimmed(ms: seq<Match>)
    requires ms != [] && AllHaveText(ms)
    ensures Formatted(ms) != []
    ensures !IsSpace(Formatted(ms)[0]) && !IsSpace(Formatted(ms)[|Formatted(ms)| - 1])
  {
    FormatShape(ms);
    var r := Formatted(ms);
    assert r[0] == 'S';
    StripBlank(Header + Blocks(ms));
  }

  /** One match without text spoils the whole answer, wherever it is. */
  lemma MissingTextAnywhere(ms: seq<Match>, k: nat)
    requires k < |ms| && ms[k].text.None?
    ensures Formatted(ms) == MissingTextError
  {
  }

  /** The instruction that precedes the context in the prompt. */
  const Preamble := "  The context is provided. Answer on the basis of context or generate new your own answer.  You are allowed to answer the question which is out of context also. Context: "

  /** The prompt `generate_response` sends. */
  function Prompt(context: string, query: string): string {
    Preamble + context + "\n\nUser: " + query + "\n"
  }

  /** The prompt carries the search text and then the question, both intact. */
  lemma PromptParts(context: string, query: string)
    ensures var p := Prompt(context, query);
      |p| == |Preamble| + |context| + |query| + 9 &&
      p[|Preamble|..|Preamble| + |context|] == context &&
      p[|Preamble| + |context| + 8..|p| - 1] == query
  {
    var p := Prompt(context, query);
    assert p == Preamble + context + "\n\nUser: " + query + "\n";
  }

  /** What the language model did with the prompt. */
  datatype Reply = Replied(content: string) | Failed(message: string)

  /** What `generate_response` returns. */
  function Answer(reply: Reply): string {
    match reply
    case Replied(content) => StripBold(content)
    case Failed(msg) => "Error generating response: " + msg
  }

  /** `generate_response`: queries the index, then answers from the model's
      reply to the prompt built on that search text. The reply is a function
      of the prompt supplied by the caller. */
  method GenerateResponse(query: string, search: Search, llm: string -> Reply)
    returns (answer: string, prompt: string)
    ensures prompt == Prompt(QueryText(search), query)
    ensures answer == Answer(llm(prompt))
  {
    var context := QueryPinecone(search);
    prompt := Preamble + context + "\n\nUser: " + query + "\n";
    var reply := llm(prompt);
    match reply {
      case Replied(content) =>
        answer := StripBold(content);
      case Failed(msg) =>
        answer := "Error generating response: " + msg;
    }
  }

  /** A successful answer keeps every character of the reply but the
      asterisks, in order, and is at most as long. */
  lemma AnswerKeepsText(content: string)
    ensures WithoutStars(Answer(Replied(content))) == WithoutStars(content)
    ensures |Answer(Replied(content))| <= |content|
  {
    StripBoldKeepsText(content);
    StripBoldLength(content);
  }
}
