/** The ingestion half of app.py: the page filter of `extract_text_from_pdf`,
    the sliding-window chunker `chunk_text_with_pages` and the blank-chunk
    filter of `process_pdf_and_store_embeddings`. PDF reading, embedding and
    the vector-store upsert are outside the model: the pages come in as the
    strings the PDF reader extracted. */
module Ingest {
  import opened PyText
  import opened Seqs

  /** The defaults of `chunk_text_with_pages`, which its only caller uses. */
  const DefaultChunkSize := 512
  const DefaultOverlap := 100

  /** One `(page_num, text)` pair of `page_texts`. */
  datatype PageText = PageText(page: int, text: string)

  /** One `(page_num, chunk)` pair of the chunker's result. */
  datatype Chunk = Chunk(page: int, text: string)

  // ---------------------------------------------------------------- pages

  /** The pages `extract_text_from_pdf` keeps from the per-page extracted
      strings `raw` (numbered from 1): those whose text is non-empty, stripped. */
  function KeptPages(raw: seq<string>): seq<PageText> {
    if raw == [] then []
    else
      var last := raw[|raw| - 1];
      KeptPages(raw[..|raw| - 1]) + (if last != "" then [PageText(|raw|, Strip(last))] else [])
  }

  /** The loop of `extract_text_from_pdf`. Reading errors end the loop early
      in the source; here `raw` is what was read before any error. */
  method ExtractPages(raw: seq<string>) returns (pages: seq<PageText>)
    ensures pages == KeptPages(raw)
  {
    pages := [];
    for i := 0 to |raw|
      invariant pages == KeptPages(raw[..i])
    {
      assert raw[..i + 1][..i] == raw[..i];
      if raw[i] != "" {
        pages := pages + [PageText(i + 1, Strip(raw[i]))];
      }
    }
    assert raw[..|raw|] == raw;
  }

  /** Every kept page carries the number of a non-empty extracted page and
      that page's stripped text. */
  lemma {:induction false} KeptPagesSound(raw: seq<string>)
    ensures forall k :: 0 <= k < |KeptPages(raw)| ==>
      1 <= KeptPages(raw)[k].page <= |raw| && raw[KeptPages(raw)[k].page - 1] != "" &&
      KeptPages(raw)[k].text == Strip(raw[KeptPages(raw)[k].page - 1])
  {
    if raw != [] {
      var init := raw[..|raw| - 1];
      KeptPagesSound(init);
      var ps := KeptPages(raw);
      var qs := KeptPages(init);
      forall k | 0 <= k < |ps|
        ensures 1 <= ps[k].page <= |raw| && raw[ps[k].page - 1] != "" && ps[k].text == Strip(raw[ps[k].page - 1])
      {
        if k < |qs| {
          assert ps[k] == qs[k];
          assert init[ps[k].page - 1] == raw[ps[k].page - 1];
        }
      }
    }
  }

  /** The kept pages are in increasing page order. */
  lemma {:induction false} KeptPagesIncreasing(raw: seq<string>)
    ensures forall k, l :: 0 <= k < l < |KeptPages(raw)| ==> KeptPages(raw)[k].page < KeptPages(raw)[l].page
  {
    if raw != [] {
      var init := raw[..|raw| - 1];
      KeptPagesIncreasing(init);
      KeptPagesSound(init);
      var ps := KeptPages(raw);
      var qs := KeptPages(init);
      forall k, l | 0 <= k < l < |ps| ensures ps[k].page < ps[l].page {
        assert ps[k] == qs[k];
        if l < |qs| {
          assert ps[l] == qs[l];
        }
      }
    }
  }

  /** No non-empty extracted page is skipped. */
  lemma KeptPagesComplete(raw: seq<string>, i: nat)
    requires i < |raw| && raw[i] != ""
    ensures exists k :: 0 <= k < |KeptPages(raw)| && KeptPages(raw)[k].page == i + 1
  {
    var k := KeptIndex(raw, i);
  }

  /** Where the non-empty page `i` sits among the kept pages. */
  lemma {:induction false} KeptIndex(raw: seq<string>, i: nat) returns (k: nat)
    requires i < |raw| && raw[i] != ""
    ensures k < |KeptPages(raw)| && KeptPages(raw)[k].page == i + 1
  {
    var init := raw[..|raw| - 1];
    var ps := KeptPages(raw);
    var qs := KeptPages(init);
    if i < |init| {
      assert init[i] == raw[i];
      k := KeptIndex(init, i);
      assert ps[k] == qs[k];
    } else {
      k := |ps| - 1;
    }
  }

  /** Only a page whose extracted text is empty is skipped: a page of
      whitespace alone is kept, with empty text. */
  lemma BlankPageKept(raw: seq<string>)
    requires raw != [] && raw[|raw| - 1] != "" && AllSpace(raw[|raw| - 1])
    ensures KeptPages(raw) == KeptPages(raw[..|raw| - 1]) + [PageText(|raw|, "")]
  {
    StripBlank(raw[|raw| - 1]);
  }

  // ---------------------------------------------------------------- chunks

  /** Python's `words[lo:hi]` for `0 <= lo <= len(words)`: a negative `hi`
      counts from the end, and `hi` is clamped to the list. */
  function Slice(words: seq<string>, lo: nat, hi: int): (r: seq<string>)
    requires lo <= |words|
    ensures 0 <= hi ==> r == words[lo..if hi <= lo then lo else if hi < |words| then hi else |words|]
  {
    var n := |words|;
    var h := if hi < 0 then hi + n else hi;
    var end := if h < 0 then 0 else if h > n then n else h;
    if end <= lo then [] else words[lo..end]
  }

  /** The word windows the `while` loop of `chunk_text_with_pages` emits when
      `i` starts at `i`: one per value of `i` below `len(words)`, `i`
      advancing by `step = chunk_size - overlap`. */
  function Windows(words: seq<string>, i: nat, size: int, step: int): seq<seq<string>>
    requires step >= 1
    decreases |words| - i
  {
    if i >= |words| then [] else [Slice(words, i, i + size)] + Windows(words, i + step, size, step)
  }

  /** Each window joined with single spaces and tagged with its page. */
  function Tag(page: int, ws: seq<seq<string>>): (cs: seq<Chunk>)
    ensures |cs| == |ws|
    ensures forall k :: 0 <= k < |cs| ==> cs[k].page == page
  {
    if ws == [] then [] else [Chunk(page, Join(ws[0]))] + Tag(page, ws[1..])
  }

  lemma {:induction false} TagAt(page: int, ws: seq<seq<string>>, k: nat)
    requires k < |ws|
    ensures Tag(page, ws)[k] == Chunk(page, Join(ws[k]))
  {
    if k > 0 { TagAt(page, ws[1..], k - 1); }
  }

  /** The chunks of one page. */
  function PageChunks(p: PageText, size: int, overlap: int): seq<Chunk>
    requires size > overlap
  {
    Tag(p.page, Windows(Split(p.text), 0, size, size - overlap))
  }

  /** The chunks of all pages, page after page. */
  function ChunkPages(pages: seq<PageText>, size: int, overlap: int): seq<Chunk>
    requires size > overlap
  {
    if pages == [] then []
    else ChunkPages(pages[..|pages| - 1], size, overlap) + PageChunks(pages[|pages| - 1], size, overlap)
  }

  /** `chunk_text_with_pages`. The loop ends only when `chunk_size > overlap`,
      which is therefore required; `len(words) - i` decreases. */
  method ChunkText(pages: seq<PageText>, size: int, overlap: int) returns (chunks: seq<Chunk>)
    requires size > overlap
    ensures chunks == ChunkPages(pages, size, overlap)
  {
    chunks := [];
    for k := 0 to |pages|
      invariant chunks == ChunkPages(pages[..k], size, overlap)
    {
      var p := pages[k];
      var words := Split(p.text);
      ghost var before := chunks;
      var i := 0;
      while i < |words|
        invariant 0 <= i
        invariant chunks + Tag(p.page, Windows(words, i, size, size - overlap))
                  == before + Tag(p.page, Windows(words, 0, size, size - overlap))
        decreases |words| - i
      {
        var chunk := Join(Slice(words, i, i + size));
        chunks := chunks + [Chunk(p.page, chunk)];
        i := i + (size - overlap);
      }
      assert pages[..k + 1][..k] == pages[..k];
    }
    assert pages[..|pages|] == pages;
  }

  // ------------------------------------------------- properties of windows

  lemma MulSucc(k: int, step: int)
    ensures (k + 1) * step == k * step + step
  {
  }

  /** Window `k` starts at word `lo == i + k * step` and is the Python slice
      of `size` words from there. */
  lemma {:induction false} WindowsAt(words: seq<string>, i: nat, size: int, step: int, k: nat, lo: nat)
    requires step >= 1 && k < |Windows(words, i, size, step)| && lo == i + k * step
    ensures lo < |words| && Windows(words, i, size, step)[k] == Slice(words, lo, lo + size)
    decreases k
  {
    var ws := Windows(words, i, size, step);
    if k > 0 {
      assert lo == i + step + (k - 1) * step by { MulSucc(k - 1, step); }
      WindowsAt(words, i + step, size, step, k - 1, lo);
      assert ws[k] == Windows(words, i + step, size, step)[k - 1];
    } else {
      assert ws[0] == Slice(words, i, i + size);
    }
  }

  /** The number of windows is the least `c` with `i + c * step >= len(words)`. */
  lemma {:induction false} WindowsCount(words: seq<string>, i: nat, size: int, step: int)
    requires step >= 1
    ensures i >= |words| ==> |Windows(words, i, size, step)| == 0
    ensures i < |words| ==>
      var c := |Windows(words, i, size, step)|;
      c >= 1 && (c - 1) * step < |words| - i <= c * step
    decreases |words| - i
  {
    if i < |words| {
      WindowsCount(words, i + step, size, step);
      var c := |Windows(words, i + step, size, step)|;
      MulSucc(c, step);
      MulSucc(c - 1, step);
    }
  }

  /** When windows overlap or touch (`step <= size`), every word from `i` on
      lies inside some window. */
  lemma {:induction false} WindowsCover(words: seq<string>, i: nat, size: int, step: int, j: int)
    requires 1 <= step <= size && i <= j < |words|
    ensures exists k :: (0 <= k < |Windows(words, i, size, step)| &&
      i + k * step <= j < i + k * step + |Windows(words, i, size, step)[k]|)
    decreases |words| - i
  {
    var ws := Windows(words, i, size, step);
    if j < i + step {
      assert ws[0] == Slice(words, i, i + size);
      assert i + 0 * step <= j < i + 0 * step + |ws[0]|;
    } else {
      WindowsCover(words, i + step, size, step, j);
      var rest := Windows(words, i + step, size, step);
      var k :| 0 <= k < |rest| && i + step + k * step <= j < i + step + k * step + |rest[k]|;
      MulSucc(k, step);
      assert ws[k + 1] == rest[k];
    }
  }

  /** `(x + d - 1) / d` is the least `c` with `x <= c * d`. */
  lemma CeilDiv(x: int, d: int, c: int)
    requires d >= 1 && x >= 1 && (c - 1) * d < x <= c * d
    ensures c == (x + d - 1) / d
  {
    MulSucc(c - 1, d);
    var q := (x + d - 1) / d;
    assert d * q + (x + d - 1) % d == x + d - 1;
    if q < c {
      MulLeq(q, c - 1, d);
    } else if q > c {
      MulLeq(c + 1, q, d);
      MulSucc(c, d);
    }
  }

  lemma MulLeq(a: int, b: int, d: int)
    requires a <= b && d >= 0
    ensures a * d <= b * d
  {
  }

  // --------------------------------------------------- properties of pages

  /** A page without words yields no chunk; a page of `n > 0` words yields
      exactly `ceil(n / (chunk_size - overlap))` chunks. */
  lemma PageChunkCount(p: PageText, size: int, overlap: int)
    requires size > overlap
    ensures var n := |Split(p.text)|;
      (n == 0 <==> PageChunks(p, size, overlap) == []) &&
      (n > 0 ==> |PageChunks(p, size, overlap)| == (n + (size - overlap) - 1) / (size - overlap))
  {
    var words := Split(p.text);
    var step := size - overlap;
    WindowsCount(words, 0, size, step);
    if |words| > 0 {
      CeilDiv(|words|, step, |Windows(words, 0, size, step)|);
    }
  }

  /** A page of whitespace alone (or no text) yields no chunk. */
  lemma BlankPageNoChunks(p: PageText, size: int, overlap: int)
    requires size > overlap && AllSpace(p.text)
    ensures PageChunks(p, size, overlap) == []
  {
    PageChunkCount(p, size, overlap);
    SplitWords(p.text);
  }

  /** The end of the window that starts at word `lo`: `lo + size` clamped to
      the page. */
  function WindowEnd(words: seq<string>, lo: int, size: int): int {
    if lo + size < |words| then lo + size else |words|
  }

  /** Window `k` of a page is `words[k * step : k * step + size]`, between one
      and `size` words. */
  lemma WindowIs(words: seq<string>, size: int, step: int, k: nat)
    requires 1 <= step && size >= 1 && k < |Windows(words, 0, size, step)|
    ensures var lo := k * step;
      lo < WindowEnd(words, lo, size) <= |words| && WindowEnd(words, lo, size) - lo <= size &&
      Windows(words, 0, size, step)[k] == words[lo..WindowEnd(words, lo, size)]
  {
    var lo := k * step;
    assert 0 <= lo by { MulLeq(0, k, step); }
    WindowsAt(words, 0, size, step, k, lo);
    var hi := WindowEnd(words, lo, size);
    assert lo < hi <= |words|;
    assert Slice(words, lo, lo + size) == words[lo..hi];
  }

  /** Chunk `k` of a page is tagged with the page and is the join of
      `words[k * step : k * step + chunk_size]`, which holds between one and
      `chunk_size` words. */
  lemma PageChunkAt(p: PageText, size: int, overlap: int, step: int, k: nat)
    requires size > overlap && size >= 1 && step == size - overlap && k < |PageChunks(p, size, overlap)|
    ensures var words := Split(p.text);
      var lo := k * step;
      lo < WindowEnd(words, lo, size) <= |words| && WindowEnd(words, lo, size) - lo <= size &&
      PageChunks(p, size, overlap)[k] == Chunk(p.page, Join(words[lo..WindowEnd(words, lo, size)]))
  {
    var words := Split(p.text);
    WindowIs(words, size, step, k);
    TagAt(p.page, Windows(words, 0, size, step), k);
  }

  /** Coverage: with `0 <= overlap < chunk_size`, word `j` of a page lies in
      the window of chunk `k` of that page, for the `k` returned. */
  lemma PageCoverage(p: PageText, size: int, overlap: int, step: int, j: nat) returns (k: nat)
    requires 0 <= overlap < size && step == size - overlap && j < |Split(p.text)|
    ensures k < |PageChunks(p, size, overlap)|
    ensures var words := Split(p.text);
      var lo := k * step;
      lo <= j < WindowEnd(words, lo, size) <= |words| &&
      PageChunks(p, size, overlap)[k] == Chunk(p.page, Join(words[lo..WindowEnd(words, lo, size)]))
  {
    k := CoveringWindow(Split(p.text), size, step, j);
    PageChunkAt(p, size, overlap, step, k);
  }

  /** The window that holds word `j`. */
  lemma CoveringWindow(words: seq<string>, size: int, step: int, j: nat) returns (k: nat)
    requires 1 <= step <= size && j < |words|
    ensures k < |Windows(words, 0, size, step)| && k * step <= j < WindowEnd(words, k * step, size)
  {
    WindowsCover(words, 0, size, step, j);
    var ws := Windows(words, 0, size, step);
    k :| 0 <= k < |ws| && 0 + k * step <= j < 0 + k * step + |ws[k]|;
    WindowIs(words, size, step, k);
  }

  /** With `chunk_size >= 1` no chunk of a page is blank: every window holds
      a word. */
  lemma PageChunksNotBlank(p: PageText, size: int, overlap: int)
    requires size > overlap && size >= 1
    ensures NoBlank(PageChunks(p, size, overlap))
  {
    var cs := PageChunks(p, size, overlap);
    forall k | 0 <= k < |cs| ensures Strip(cs[k].text) != "" {
      ChunkNotBlank(p, size, overlap, size - overlap, k);
    }
  }

  lemma ChunkNotBlank(p: PageText, size: int, overlap: int, step: int, k: nat)
    requires size > overlap && size >= 1 && step == size - overlap && k < |PageChunks(p, size, overlap)|
    ensures Strip(PageChunks(p, size, overlap)[k].text) != ""
  {
    PageChunkAt(p, size, overlap, step, k);
    var words := Split(p.text);
    var w := words[k * step..WindowEnd(words, k * step, size)];
    assert w[0] == words[k * step];
    SplitWords(p.text);
    JoinNotBlank(w);
  }

  /** No chunk in the list is blank after `strip()`. */
  predicate NoBlank(cs: seq<Chunk>) {
    forall k :: 0 <= k < |cs| ==> Strip(cs[k].text) != ""
  }

  lemma NoBlankConcat(a: seq<Chunk>, b: seq<Chunk>)
    requires NoBlank(a) && NoBlank(b)
    ensures NoBlank(a + b)
  {
    forall k | 0 <= k < |a + b| ensures Strip((a + b)[k].text) != "" {
      if k < |a| {
        assert (a + b)[k] == a[k];
      } else {
        assert (a + b)[k] == b[k - |a|];
      }
    }
  }

  lemma {:induction false} ChunksNotBlank(pages: seq<PageText>, size: int, overlap: int)
    requires size > overlap && size >= 1
    ensures NoBlank(ChunkPages(pages, size, overlap))
  {
    if pages != [] {
      var front := ChunkPages(pages[..|pages| - 1], size, overlap);
      var back := PageChunks(pages[|pages| - 1], size, overlap);
      ChunksNotBlank(pages[..|pages| - 1], size, overlap);
      PageChunksNotBlank(pages[|pages| - 1], size, overlap);
      assert ChunkPages(pages, size, overlap) == front + back;
      NoBlankConcat(front, back);
    } else {
      assert ChunkPages(pages, size, overlap) == [];
    }
  }

  /** Every chunk is tagged with the number of one of the input pages. */
  lemma {:induction false} ChunkPagesTagged(pages: seq<PageText>, size: int, overlap: int)
    requires size > overlap
    ensures forall a :: 0 <= a < |ChunkPages(pages, size, overlap)| ==>
      exists k :: 0 <= k < |pages| && ChunkPages(pages, size, overlap)[a].page == pages[k].page
  {
    if pages != [] {
      var init := pages[..|pages| - 1];
      ChunkPagesTagged(init, size, overlap);
      var cs := ChunkPages(pages, size, overlap);
      var front := ChunkPages(init, size, overlap);
      var back := PageChunks(pages[|pages| - 1], size, overlap);
      assert cs == front + back;
      forall a | 0 <= a < |cs|
        ensures exists k :: 0 <= k < |pages| && cs[a].page == pages[k].page
      {
        if a < |front| {
          var k :| 0 <= k < |init| && front[a].page == init[k].page;
          assert cs[a] == front[a] && init[k] == pages[k];
        } else {
          assert cs[a] == back[a - |front|];
          assert cs[a].page == pages[|pages| - 1].page;
        }
      }
    } else {
      assert ChunkPages(pages, size, overlap) == [];
    }
  }

  /** Chunks keep the page order: when the page numbers increase, as
      `KeptPages` numbers them, the chunks' page numbers never decrease. */
  lemma {:induction false} ChunkPagesOrdered(pages: seq<PageText>, size: int, overlap: int)
    requires size > overlap
    requires forall k, l :: 0 <= k < l < |pages| ==> pages[k].page < pages[l].page
    ensures forall a, b :: 0 <= a < b < |ChunkPages(pages, size, overlap)| ==>
      ChunkPages(pages, size, overlap)[a].page <= ChunkPages(pages, size, overlap)[b].page
  {
    if pages != [] {
      var init := pages[..|pages| - 1];
      var last := pages[|pages| - 1];
      assert forall k :: 0 <= k < |init| ==> init[k] == pages[k];
      ChunkPagesOrdered(init, size, overlap);
      ChunkPagesTagged(init, size, overlap);
      var cs := ChunkPages(pages, size, overlap);
      var front := ChunkPages(init, size, overlap);
      var back := PageChunks(last, size, overlap);
      assert cs == front + back;
      forall a, b | 0 <= a < b < |cs| ensures cs[a].page <= cs[b].page {
        if b < |front| {
          assert cs[a] == front[a] && cs[b] == front[b];
        } else {
          assert cs[b] == back[b - |front|];
          if a < |front| {
            assert cs[a] == front[a];
            var k :| 0 <= k < |init| && front[a].page == init[k].page;
          } else {
            assert cs[a] == back[a - |front|];
          }
        }
      }
    }
  }

  // ---------------------------------------------------------- blank filter

  /** The chunks `process_pdf_and_store_embeddings` passes on to embedding:
      those whose text is not blank after `strip()`, in order. */
  function NonBlank(chunks: seq<Chunk>): seq<Chunk> {
    if chunks == [] then []
    else
      var last := chunks[|chunks| - 1];
      NonBlank(chunks[..|chunks| - 1]) + (if Strip(last.text) != "" then [last] else [])
  }

  /** The filter keeps only non-blank chunks, each of them taken from the
      input (never more often than it occurs there), and keeps every
      non-blank chunk of the input. */
  lemma {:induction false} NonBlankSound(chunks: seq<Chunk>)
    ensures |NonBlank(chunks)| <= |chunks| && NoBlank(NonBlank(chunks))
    ensures multiset(NonBlank(chunks)) <= multiset(chunks)
    ensures forall c :: c in chunks && Strip(c.text) != "" ==> c in NonBlank(chunks)
  {
    if chunks != [] {
      var n := |chunks| - 1;
      var init, last := chunks[..n], chunks[n];
      SplitLast(chunks);
      NonBlankSound(init);
      var tail := if Strip(last.text) != "" then [last] else [];
      assert NonBlank(chunks) == NonBlank(init) + tail;
      assert NoBlank(tail);
      NoBlankConcat(NonBlank(init), tail);
      assert multiset(chunks) == multiset(init) + multiset{last};
      assert multiset(NonBlank(chunks)) == multiset(NonBlank(init)) + multiset(tail);
      forall c | c in chunks && Strip(c.text) != "" ensures c in NonBlank(chunks) {
        if c != last {
          assert c in init;
        }
      }
    }
  }

  /** The `if chunk.strip()` loop of `process_pdf_and_store_embeddings`. */
  method KeepNonBlank(chunks: seq<Chunk>) returns (kept: seq<Chunk>)
    ensures kept == NonBlank(chunks)
  {
    kept := [];
    for i := 0 to |chunks|
      invariant kept == NonBlank(chunks[..i])
    {
      assert chunks[..i + 1][..i] == chunks[..i];
      if Strip(chunks[i].text) != "" {
        kept := kept + [chunks[i]];
      }
    }
    assert chunks[..|chunks|] == chunks;
  }

  /** The filter drops nothing from a list without blank chunks. */
  lemma {:induction false} NonBlankKeepsAll(chunks: seq<Chunk>)
    requires NoBlank(chunks)
    ensures NonBlank(chunks) == chunks
  {
    if chunks != [] {
      var n := |chunks| - 1;
      var init, last := chunks[..n], chunks[n];
      SplitLast(chunks);
      NoBlankPrefix(chunks, n);
      NonBlankKeepsAll(init);
      KeepLast(init, last);
    }
  }

  lemma NoBlankPrefix(cs: seq<Chunk>, n: nat)
    requires NoBlank(cs) && n <= |cs|
    ensures NoBlank(cs[..n])
  {
    forall k | 0 <= k < n ensures Strip(cs[..n][k].text) != "" {
      assert cs[..n][k] == cs[k];
    }
  }

  /** A non-blank last chunk is kept. */
  lemma KeepLast(init: seq<Chunk>, last: Chunk)
    requires Strip(last.text) != "" && NonBlank(init) == init
    ensures NonBlank(init + [last]) == init + [last]
  {
    var cs := init + [last];
    assert cs[..|cs| - 1] == init && cs[|cs| - 1] == last;
  }

  /** `process_pdf_and_store_embeddings` up to the embedding call: extract,
      chunk with the defaults, drop blank chunks. Every chunk survives the
      blank filter. */
  method ChunksToEmbed(raw: seq<string>) returns (toEmbed: seq<Chunk>)
    ensures toEmbed == ChunkPages(KeptPages(raw), DefaultChunkSize, DefaultOverlap)
  {
    var pages := ExtractPages(raw);
    var chunks := ChunkText(pages, DefaultChunkSize, DefaultOverlap);
    toEmbed := KeepNonBlank(chunks);
    ChunksNotBlank(pages, DefaultChunkSize, DefaultOverlap);
    NonBlankKeepsAll(chunks);
  }
}
