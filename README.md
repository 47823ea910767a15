# rag-works core, modelled in Dafny

rag-works is a retrieval-augmented chat over uploaded PDF documents. This
project models the two parts of it that hold logic of their own:

- **The text pipeline of `app.py`.**
  - The page filter of `extract_text_from_pdf` keeps the non-empty
    extracted pages, numbers them from 1 and strips them.
  - The sliding-window chunker `chunk_text_with_pages` emits windows of
    `chunk_size` words, each `chunk_size - overlap` words after the last.
  - The blank-chunk filter of `process_pdf_and_store_embeddings` drops
    chunks that are blank after `strip()`.
  - The result formatter of `query_pinecone` turns search matches into
    text.
  - `generate_response` builds the prompt and removes bold markers with
    `re.sub(r"\*\*(.*?)\*\*", r"\1", …)`.
- **The web client's session and its handlers.**
  - `AuthProvider` holds the token/user pair, mirrored in `localStorage`.
  - The chat submit, upload/delete and sign-in/register handlers.
  - The three OAuth landing pages.
  - `getUserId`, with its RFC 4122 version-4 polyfill.

Modules:

| module | models |
|---|---|
| `PyText` | Python `str.isspace`, `strip`, `split()` and `" ".join` |
| `Ingest` | page filter, chunker, blank filter |
| `Retrieval` | `query_pinecone` formatting, `generate_response` |
| `BoldStrip` | the bold-marker `re.sub`, with Python `re` semantics: lazy group, `.` stops at a newline |
| `JsText` | `String.prototype.trim` (ECMA-262 WhiteSpace and LineTerminator) and JavaScript truthiness |
| `Web` | the browser, the network and the RFC 6750 `Bearer` header |
| `Auth` | the session |
| `Chat` | the chat panel |
| `Upload` | the upload form |
| `AuthForm` | the sign-in page |
| `OAuthExchange` | the token-exchange callback |
| `Callback` | the two direct-token callbacks |
| `UserId` | the device id |
| `Seqs` | generic slicing facts |
| `Wrappers` | an `Option` type |

How the model is built:

- **Loops are methods.** Each source loop is a Dafny method with invariants,
  proved equal to a recursive function: `ExtractPages`,
  `ChunkText`, `KeepNonBlank`, `FormatMatches`. The
  properties are lemmas about those functions.
- **The browser is a class.** `Browser` holds the storage map, while router
  navigations and `alert`/`confirm` dialogs are logs in the order they
  happen.
- **Components are classes too.** Each has its state fields and a `Session`
  it shares.
- **Each async handler is a pair of methods.** The part before the `await`
  is `Begin…`; it returns the request it would send. The part after is
  `Finish…`; it takes the outcome of that request as an input. `Handle…`
  runs both as one step.
- **Outside inputs are parameters.** The network outcome, the user's answer
  to `confirm`, and `crypto.randomUUID`'s result are passed in. So are the
  random nibbles, as ints in 0..15, and the language model (a function from
  prompt to reply).

## Model

| member | source | states |
|---|---|---|
| PyText.LStripDropsSpace | app.py:77 | `lstrip` removes a prefix that is all whitespace and leaves a suffix that starts with a non-space |
| PyText.LStrip | app.py:77 | definition (no contract of its own) of `str.lstrip()`: drop leading Python whitespace; stated by `PyText.LStripDropsSpace` |
| PyText.Strip | app.py:77 | definition (no contract of its own) of `str.strip()` as `rstrip` of `lstrip`; its meaning is stated by `PyText.StripBlank`, `PyText.LStripDropsSpace` and `PyText.RStripDropsSpace` |
| PyText.RStripDropsSpace | app.py:137 | `rstrip` removes a suffix that is all whitespace and leaves a prefix that ends with a non-space |
| PyText.RStrip | app.py:137 | definition (no contract of its own) of `str.rstrip()`: drop trailing Python whitespace; stated by `PyText.RStripDropsSpace`, `PyText.RStripTrailing` and `PyText.RStripConcat` |
| PyText.StripBlank | app.py:101 | `strip()` is empty, so false, exactly when the text is all whitespace; otherwise it starts and ends with a non-space |
| PyText.RStripTrailing | app.py:135-137 | trailing whitespace, such as the last block's `"\n\n"`, makes no difference to `rstrip` |
| PyText.RStripConcat | app.py:135-137 | `rstrip` never reaches back past a non-space character |
| PyText.Word | app.py:86 | a word is the longest whitespace-free prefix, followed by whitespace or the end |
| PyText.Split | app.py:86 | definition (no contract of its own) of `str.split()`: the maximal runs of non-whitespace, in order; stated by `PyText.SplitWords`, `PyText.SplitKeepsText` and `PyText.SplitJoin` |
| PyText.Join | app.py:89 | definition (no contract of its own) of `" ".join`; stated by `PyText.SplitJoin` and `PyText.JoinNotBlank` |
| PyText.SplitWords | app.py:86 | `split()` yields only non-empty whitespace-free words, and none exactly when the text is all whitespace |
| PyText.SplitKeepsText | app.py:86 | the words of `split()`, concatenated, are the text without its whitespace |
| PyText.SplitJoin | app.py:86-89 | joining words with single spaces and splitting again gives the same words |
| PyText.JoinNotBlank | app.py:89 | a join of words is never blank after `strip()` |
| Ingest.ExtractPages | app.py:69-80 | the page loop returns exactly `KeptPages(raw)` |
| Ingest.KeptPages | app.py:74-77 | definition (no contract of its own) of the pages the loop keeps; stated by `Ingest.KeptPagesSound`, `Ingest.KeptPagesIncreasing`, `Ingest.KeptPagesComplete` and `Ingest.BlankPageKept` |
| Ingest.KeptPagesSound | app.py:74-77 | every kept page is numbered from 1 within range, comes from a non-empty extracted page, and holds that page's stripped text |
| Ingest.KeptPagesIncreasing | app.py:74-77 | kept pages are in strictly increasing page order |
| Ingest.KeptPagesComplete | app.py:74-77 | every non-empty extracted page is kept |
| Ingest.KeptIndex | app.py:74-77 | gives the position of non-empty page `i` among the kept pages, numbered `i + 1` |
| Ingest.BlankPageKept | app.py:76-77 | a page of whitespace alone passes `if extracted` and is kept with empty text |
| Ingest.Slice | app.py:89 | Python's `words[lo:hi]`; for `hi >= 0` it is the clamped slice |
| Ingest.Tag | app.py:89-90 | one chunk per window, each tagged with the page number |
| Ingest.PageChunks | app.py:86-91 | definition (no contract of its own) of the chunks of one page: `split()` its text and tag every window with the page number; stated by `Ingest.PageChunkCount`, `Ingest.PageChunkAt` and `Ingest.PageCoverage` |
| Ingest.Windows | app.py:87-91 | definition (no contract of its own) of the windows `words[i:i + chunk_size]` for `i` from a start in steps of `chunk_size - overlap` while `i < len(words)`; stated by `Ingest.WindowsAt`, `Ingest.WindowsCount` and `Ingest.WindowsCover` |
| Ingest.ChunkPages | app.py:85-91 | definition (no contract of its own) of the chunks of all pages, page by page; stated by `Ingest.ChunkText`, `Ingest.ChunksNotBlank`, `Ingest.ChunkPagesTagged` and `Ingest.ChunkPagesOrdered` |
| Ingest.TagAt | app.py:89-90 | chunk `k` is the page number with the join of window `k` |
| Ingest.ChunkText | app.py:83-92 | the `while` loop over every page returns exactly `ChunkPages`; it requires `chunk_size > overlap`, and `len(words) - i` decreases |
| Ingest.WindowsAt | app.py:87-91 | window `k` starts at word `i + k * step`, inside the page, and is the slice of `chunk_size` words from there |
| Ingest.WindowsCount | app.py:87-91 | the number of windows is the least `c` with `i + c * step >= len(words)` |
| Ingest.WindowsCover | app.py:87-91 | when `step <= chunk_size`, every word from `i` on lies in some window |
| Ingest.PageChunkCount | app.py:86-91 | a page without words yields no chunk; a page of `n > 0` words yields exactly `ceil(n / (chunk_size - overlap))` chunks |
| Ingest.BlankPageNoChunks | app.py:86-88 | a page of whitespace alone yields no chunk |
| Ingest.WindowIs | app.py:89-91 | window `k` is `words[k*step : min(k*step + chunk_size, n)]`, with between 1 and `chunk_size` words |
| Ingest.PageChunkAt | app.py:86-91 | chunk `k` of a page is tagged with that page and is the join of `words[k*step : k*step + chunk_size]`, with 1 to `chunk_size` words |
| Ingest.CoveringWindow | app.py:87-91 | finds a window that holds word `j` |
| Ingest.PageCoverage | app.py:86-91 | with `0 <= overlap < chunk_size`, each word `j` of a page lies in the window of a chunk of that page, and the chunk is that window joined |
| Ingest.ChunkNotBlank | app.py:88-89 | when `chunk_size >= 1`, no chunk of a page is blank after `strip()` |
| Ingest.PageChunksNotBlank | app.py:88-89 | no chunk of a page is blank |
| Ingest.ChunksNotBlank | app.py:85-92 | no chunk of any page is blank |
| Ingest.ChunkPagesTagged | app.py:85-90 | every chunk carries the number of one of the input pages |
| Ingest.ChunkPagesOrdered | app.py:85-90 | when page numbers increase, chunk page numbers never decrease: pages stay in order |
| Ingest.NonBlankSound | app.py:100-101 | the filter keeps only non-blank chunks, each taken from the input and no more often than there (multiset inclusion), and keeps every non-blank chunk of the input |
| Ingest.NonBlank | app.py:100-101 | definition (no contract of its own) of the blank filter, in order; stated by `Ingest.NonBlankSound` and `Ingest.NonBlankKeepsAll` |
| Ingest.KeepNonBlank | app.py:100-101 | the `if chunk.strip()` loop returns exactly `NonBlank(chunks)` |
| Ingest.NonBlankKeepsAll | app.py:100-101 | without a blank chunk, the filter drops nothing |
| Ingest.ChunksToEmbed | app.py:95-101 | extract, chunk with the defaults 512 and 100, filter: the result is every chunk, because the filter never drops one |
| Retrieval.FormatMatches | app.py:127-137 | the match loop returns `Formatted(matches)`: "No relevant results found." for no match, the `KeyError` text at the first match without text, otherwise the stripped blocks |
| Retrieval.Block | app.py:133-135 | definition (no contract of its own) of one appended block, `"(Page " + page + ") " + text + "\n\n"`; its place in the result is stated by `Retrieval.FormatShape` |
| Retrieval.Blocks | app.py:133-135 | definition (no contract of its own) of the blocks of the matches appended in order; stated by `Retrieval.BlocksSplit` and `Retrieval.FormatShape` |
| Retrieval.QueryText | app.py:118-140 | definition (no contract of its own) of the string `query_pinecone` returns for each search outcome; stated by `Retrieval.QueryPinecone`, `Retrieval.FormatShape` and `Retrieval.MissingTextAnywhere` |
| Retrieval.PageLabel | app.py:134 | definition (no contract of its own) of `.get("page", "Unknown Page")`: the stored page, or "Unknown Page" when the record has none; it is the label of every block shown by `Retrieval.FormatShape` |
| Retrieval.Formatted | app.py:127-137 | definition (no contract of its own) of the formatter's result; stated by `Retrieval.FormatMatches`, `Retrieval.FormatShape`, `Retrieval.FormattedTrimmed` and `Retrieval.MissingTextAnywhere` |
| Retrieval.QueryPinecone | app.py:118-140 | an empty embedding, the matches and a raised exception each give their result string |
| Retrieval.BlocksSplit | app.py:133-135 | blocks are appended in match order: the blocks of a list are the blocks of its two parts |
| Retrieval.HeaderStrip | app.py:132-137 | `lstrip` removes only the header's leading newline |
| Retrieval.FormatShape | app.py:132-137 | with matches that all have text, the result is "Search Results:\n", every block but the last whole and in order, then the last block `rstrip`ped |
| Retrieval.StripBlocksTail | app.py:135-137 | `rstrip` removes the last block's trailing whitespace and nothing before its page label |
| Retrieval.FormattedTrimmed | app.py:132-137 | the formatted result is non-empty and neither starts nor ends with whitespace |
| Retrieval.MissingTextAnywhere | app.py:135 | one match without text, wherever it is, makes the result `"Error querying Pinecone: 'text'"` |
| Retrieval.PromptParts | app.py:146 | the prompt holds the search text and then the question, each intact at its place |
| Retrieval.Prompt | app.py:146 | definition (no contract of its own) of the f-string prompt around the search text and the question; stated by `Retrieval.PromptParts` |
| Retrieval.GenerateResponse | app.py:143-157 | the prompt is built on `query_pinecone`'s text; the answer is the reply without bold markers, or the error text |
| Retrieval.Answer | app.py:150-157 | definition (no contract of its own) of the returned answer: the reply with bold markers removed, or the error text; stated by `Retrieval.AnswerKeepsText` and `Retrieval.GenerateResponse` |
| Retrieval.AnswerKeepsText | app.py:153 | a successful answer keeps every character of the reply except asterisks, in order, and is no longer than the reply |
| BoldStrip.FindClose | app.py:153 | the lazy group stops at a `**` at or after its start |
| BoldStrip.StripBold | app.py:153 | definition (no contract of its own) of `re.sub(r"\*\*(.*?)\*\*", r"\1", s)` by a left-to-right scan; stated by `BoldStrip.StripBoldKeepsText`, `BoldStrip.StripBoldLength`, `BoldStrip.StripBoldNoMarkers`, `BoldStrip.BoldSpan`, `BoldStrip.NewlineBlocksBold` and `BoldStrip.LazyExample` |
| BoldStrip.FindCloseFirst | app.py:153 | the lazy group ends at the first closing `**`, with no newline before it |
| BoldStrip.FindCloseNone | app.py:153 | when no closing marker is found, a newline comes before every later `**` |
| BoldStrip.StripBoldKeepsText | app.py:153 | only asterisks are removed; every other character survives, in order |
| BoldStrip.StripBoldLength | app.py:153 | the result is at most as long as the input, shorter by a multiple of four (two markers per match) |
| BoldStrip.StripBoldNoMarkers | app.py:153 | text without a `**` pair is returned unchanged |
| BoldStrip.KeepsPlain | app.py:153 | a character other than `*` at the scan position is copied |
| BoldStrip.StarFreePrefix | app.py:153 | text without asterisks in front passes through untouched |
| BoldStrip.CloseAfter | app.py:153 | the closing search stops right after text with no asterisk and no newline |
| BoldStrip.BoldSpan | app.py:153 | `"**" + t + "**" + u` becomes `t` followed by the result for `u`, when `t` has no asterisk or newline |
| BoldStrip.NewlineBlocksBold | app.py:153 | `.` does not match a newline, so markers around text that contains one stay |
| BoldStrip.LoneStar | app.py:153 | a single `*` before asterisk-free text is kept, and so is an unmatched `**` after it |
| BoldStrip.UnmatchedMarker | app.py:153 | (example; general form `BoldStrip.FindCloseNone`) a lone `**` stays |
| BoldStrip.NoCloseBeforeNewline | app.py:153 | the closing search fails at a newline with no asterisk before it |
| BoldStrip.LazyExample | app.py:153 | (example; general form `BoldStrip.FindCloseFirst` and `BoldStrip.BoldSpan`) the group is lazy: `**a**b**` becomes `ab**` |
| JsText.TrimStartBlank | frontend/components/chat-interface.tsx:34 | `trimStart` gives "" exactly when every character is JavaScript whitespace |
| JsText.TrimStart | frontend/components/chat-interface.tsx:34 | definition (no contract of its own) of dropping leading ECMAScript WhiteSpace and LineTerminator characters; stated by `JsText.TrimStartBlank` and `JsText.TrimStartFirst` |
| JsText.TrimEnd | frontend/components/chat-interface.tsx:34 | definition (no contract of its own) of dropping trailing ECMAScript WhiteSpace and LineTerminator characters; stated by `JsText.TrimEndKeepsFirst` |
| JsText.TrimEndKeepsFirst | frontend/components/chat-interface.tsx:34 | `trimEnd` keeps a first character that is not whitespace |
| JsText.TrimStartFirst | frontend/components/chat-interface.tsx:34 | a non-empty `trimStart` result starts with a non-space |
| JsText.TrimBlank | frontend/components/chat-interface.tsx:34 | `!query.trim()` holds exactly when the query is all whitespace or line terminators |
| JsText.Trim | frontend/components/chat-interface.tsx:34 | definition (no contract of its own) of `String.prototype.trim`; stated by `JsText.TrimBlank` |
| JsText.Or | frontend/components/chat-interface.tsx:59 | definition (no contract of its own) of `v \|\| fallback` for a `string \| null`; what callers see of it is stated by `Chat.ExchangeShape`, `Upload.UploadForm.FinishUpload` and `AuthForm.AuthPage.FinishSubmit` |
| JsText.Truthy | frontend/components/upload-form.tsx:29 | definition (no contract of its own) of JavaScript truthiness of a `string \| null`, as in `!token` (upload-form.tsx:29) and `!id` (user.tsx:5): present and non-empty; the contracts that use it are `Chat.ChatInterface.HandleSubmit`, `Chat.ExchangeShape`, `OAuthExchange.Run` and `Upload.ButtonsAgainstGuards` |
| Web.Browser.GetItem | frontend/components/auth-provider.tsx:29-30 | definition (no contract of its own) of `localStorage.getItem`: `null` for a missing key; the read-after-write behaviour is stated by `Auth.LoginRestores` and `Auth.LogoutClears` |
| Web.Browser.SetItem | frontend/components/auth-provider.tsx:40-41 | `setItem` updates one key; history and dialogs are untouched |
| Web.Browser.RemoveItem | frontend/components/auth-provider.tsx:48-49 | `removeItem` deletes one key; history and dialogs are untouched |
| Web.Browser.Navigate | frontend/components/auth-provider.tsx:42 | a router call is appended to the history; storage and dialogs are untouched |
| Web.Browser.ShowAlert | frontend/app/callback/page.tsx:17 | an `alert` is appended to the dialogs; storage and history are untouched |
| Web.Browser.AskConfirm | frontend/components/upload-form.tsx:61 | `confirm` returns the user's answer and is logged with it |
| Web.BearerConforms | frontend/components/chat-interface.tsx:51 | `"Bearer " + token` is well-formed credentials of section 2.1 of RFC 6750 exactly when the token is a `b64token` |
| Web.Bearer | frontend/components/chat-interface.tsx:51 | definition (no contract of its own) of the `Authorization: Bearer ${token}` header the chat, upload and delete requests carry; stated by `Web.BearerConforms` |
| Web.BearerExample | frontend/components/chat-interface.tsx:51 | (example; general form `Web.BearerConforms`) a JWT-shaped token gives a conforming header |
| Auth.Restored | frontend/components/auth-provider.tsx:29-34 | definition (no contract of its own) of what the hydrate effect accepts: both keys present and non-empty; its round trips with `login` and `logout` are `Auth.LoginRestores` and `Auth.LogoutClears` |
| Auth.Session.constructor | frontend/components/auth-provider.tsx:23-24 | both fields start `null`; the pairing holds |
| Auth.Session.Hydrate | frontend/components/auth-provider.tsx:27-35 | the session takes the stored pair when it is found, and otherwise stays as it was; the pairing is kept |
| Auth.Session.Login | frontend/components/auth-provider.tsx:37-43 | sets both fields, stores both keys, pushes "/", and keeps the pairing |
| Auth.Session.Logout | frontend/components/auth-provider.tsx:45-51 | clears both fields, removes both keys, pushes "/auth", and keeps the pairing |
| Auth.LoginRestores | frontend/components/auth-provider.tsx:29-41 | a reload after `login(t, u)` with both non-empty restores exactly `(t, u)` |
| Auth.Stored | frontend/components/auth-provider.tsx:40-41 | definition (no contract of its own) of storage after `login`: both keys set; stated by `Auth.LoginRestores`, `Auth.OtherKeysKept` and `Auth.LoginIdempotent` |
| Auth.Cleared | frontend/components/auth-provider.tsx:48-49 | definition (no contract of its own) of storage after `logout`: both keys removed; stated by `Auth.LogoutClears`, `Auth.OtherKeysKept` and `Auth.LogoutIdempotent` |
| Auth.LogoutClears | frontend/components/auth-provider.tsx:29-49 | a reload after `logout()` finds nothing |
| Auth.OtherKeysKept | frontend/components/auth-provider.tsx:37-51 | `login` and `logout` leave every other storage key, such as "user_id", as it was |
| Auth.LoginIdempotent | frontend/components/auth-provider.tsx:37-43 | storing the same pair twice stores the same as once |
| Auth.LogoutIdempotent | frontend/components/auth-provider.tsx:45-51 | clearing twice is clearing once |
| Auth.ReloadAfterLogin | frontend/components/auth-provider.tsx:27-43 | a fresh session on the same browser, hydrated after `login(t, u)`, holds `(t, u)` |
| Auth.ReloadAfterLogout | frontend/components/auth-provider.tsx:27-51 | a fresh session, hydrated after `logout()`, holds nothing |
| Chat.ChatRequest | frontend/components/chat-interface.tsx:47-54 | definition (no contract of its own) of the chat POST; `Chat.ChatInterface.BeginSubmit` and `HandleSubmit` state when it is sent and with which token and query |
| Chat.ReplyText | frontend/components/chat-interface.tsx:56-64 | definition (no contract of its own) of the AI message text for an outcome; its meaning is stated by `Chat.ExchangeShape` |
| Chat.ExchangeShape | frontend/components/chat-interface.tsx:41-64 | one submit adds the question, then the answer; a successful answer is the server text verbatim; every failed answer starts with "Error: ", followed by the server's error field when it is non-empty |
| Chat.Exchange | frontend/components/chat-interface.tsx:41-64 | definition (no contract of its own) of the two messages one answered submit appends; stated by `Chat.ExchangeShape` and `Chat.ChatInterface.HandleSubmit` |
| Chat.ChatInterface.constructor | frontend/components/chat-interface.tsx:21-23 | empty transcript, empty query, not loading |
| Chat.ChatInterface.Type | frontend/components/chat-interface.tsx:189 | the query box sets the query only |
| Chat.ChatInterface.BeginSubmit | frontend/components/chat-interface.tsx:32-44 | a blank query changes nothing (blank meaning all JavaScript white space, by `JsText.TrimBlank`); without a token only "/auth" is pushed; otherwise the untrimmed question is appended, the box is cleared, loading starts and the request is returned |
| Chat.ChatInterface.FinishSubmit | frontend/components/chat-interface.tsx:56-67 | the answer text for the outcome is appended, and loading stops |
| Chat.ChatInterface.HandleSubmit | frontend/components/chat-interface.tsx:32-68 | a request is sent exactly for a non-blank query with a token; the transcript becomes old + [question, answer]; a signed-out submit only pushes "/auth"; storage and dialogs never change; the old transcript is always a prefix |
| Upload.UploadRequest | frontend/components/upload-form.tsx:33-41 | definition (no contract of its own) of the upload POST; `Upload.UploadForm.HandleUpload` states that it is sent exactly with a file and a token |
| Upload.DeleteRequest | frontend/components/upload-form.tsx:65-68 | definition (no contract of its own) of the DELETE request; `Upload.UploadForm.HandleDelete` states that it is sent exactly when signed in and confirmed |
| Upload.UploadResult | frontend/components/upload-form.tsx:43-53 | definition (no contract of its own) of the status line after an upload; `Upload.UploadForm.FinishUpload` states that it becomes the form's status and that the file is kept on failure |
| Upload.DeleteResult | frontend/components/upload-form.tsx:69-77 | definition (no contract of its own) of the status line after a delete; `Upload.UploadForm.FinishDelete` states that it becomes the form's status and that the file is untouched |
| Upload.UploadLabel | frontend/components/upload-form.tsx:115 | definition (no contract of its own) of the upload button text; `Upload.AfterUploadButton` states what it shows after a successful upload |
| Upload.AfterUploadButton | frontend/components/upload-form.tsx:113-115 | after a successful upload the button reads "Uploaded" and is disabled, since the file is cleared |
| Upload.UploadDisabled | frontend/components/upload-form.tsx:113 | definition (no contract of its own) of `disabled={!file \|\| loading}`; related to `handleUpload`'s guard by `Upload.ButtonsAgainstGuards` |
| Upload.DeleteDisabled | frontend/components/upload-form.tsx:122 | definition (no contract of its own) of `disabled={deleteLoading \|\| !token}`; related to `handleDelete`'s guard by `Upload.ButtonsAgainstGuards` |
| Upload.ButtonsAgainstGuards | frontend/components/upload-form.tsx:29-122 | the disabled rules against the handlers' early returns: with a file and signed out, the upload button is enabled yet `handleUpload` returns early; signed in, an enabled upload button always uploads; an upload that can proceed while nothing loads has its button enabled; an enabled delete button always reaches `confirm` |
| Upload.UploadForm.constructor | frontend/components/upload-form.tsx:11-17 | no file, not loading, idle, no message |
| Upload.UploadForm.ChangeFile | frontend/components/upload-form.tsx:19-25 | a selection takes the first file, resets status to idle and clears the message; an empty selection changes nothing |
| Upload.UploadForm.BeginUpload | frontend/components/upload-form.tsx:27-34 | without a file or token nothing happens; otherwise loading starts, status is idle and the request is returned |
| Upload.UploadForm.FinishUpload | frontend/components/upload-form.tsx:43-56 | the status line for the outcome; the file is cleared only on success; loading stops |
| Upload.UploadForm.HandleUpload | frontend/components/upload-form.tsx:27-57 | a request exactly with a file and a token, then that outcome's status line |
| Upload.UploadForm.BeginDelete | frontend/components/upload-form.tsx:59-63 | only a signed-in user is asked; only a confirmed delete is sent, with delete loading on |
| Upload.UploadForm.FinishDelete | frontend/components/upload-form.tsx:64-80 | the delete status line for the outcome; delete loading stops; the file is untouched |
| Upload.UploadForm.HandleDelete | frontend/components/upload-form.tsx:59-81 | a request exactly when signed in and confirmed; a signed-in user is always asked, and the question is logged with the answer; a signed-out user is not asked; otherwise nothing changes; the file, storage and history are never touched |
| AuthForm.Endpoint | frontend/app/auth/page.tsx:27 | definition (no contract of its own) of the endpoint choice; `AuthForm.LabelMatchesEndpoint` ties it to the button text |
| AuthForm.AuthRequest | frontend/app/auth/page.tsx:30-34 | definition (no contract of its own) of the sign-in or register POST; `AuthForm.AuthPage.HandleSubmit` states that it is built from the mode and fields the form had |
| AuthForm.FailureText | frontend/app/auth/page.tsx:38-49 | definition (no contract of its own) of the failure alert; `AuthForm.AuthPage.FinishSubmit` states that it is shown and that nothing else changes |
| AuthForm.LabelMatchesEndpoint | frontend/app/auth/page.tsx:27-87 | when not loading, the button reads "Sign In" exactly when the form posts to "/login" and "Create Account" exactly when it posts to "/register"; while loading it reads neither |
| AuthForm.SubmitLabel | frontend/app/auth/page.tsx:87 | definition (no contract of its own) of the submit button text; `AuthForm.LabelMatchesEndpoint` states that it names what the form does |
| AuthForm.AuthPage.constructor | frontend/app/auth/page.tsx:17-20 | starts in sign-in mode with empty fields, not loading |
| AuthForm.AuthPage.TypeUsername | frontend/app/auth/page.tsx:71 | sets the username only |
| AuthForm.AuthPage.TypePassword | frontend/app/auth/page.tsx:82 | sets the password only |
| AuthForm.AuthPage.Toggle | frontend/app/auth/page.tsx:112 | flips the mode and leaves the fields alone |
| AuthForm.AuthPage.BeginSubmit | frontend/app/auth/page.tsx:23-34 | loading starts and the request for the current mode and fields is returned |
| AuthForm.AuthPage.FinishSubmit | frontend/app/auth/page.tsx:36-52 | sign-in success logs in with the token and the typed username; register success only alerts and switches to sign-in; failure alerts and changes nothing else; loading stops |
| AuthForm.AuthPage.HandleSubmit | frontend/app/auth/page.tsx:23-53 | the request for the mode and fields the form had, then for that mode: sign-in success logs in with the token and typed username, stores the pair and pushes "/"; register success only alerts and switches to sign-in, leaving session, storage and history alone; failure only alerts; the fields never change |
| OAuthExchange.ExchangeRequest | frontend/app/oauth/callback/oauth-callback-client.tsx:22-26 | definition (no contract of its own) of the exchange POST; `OAuthExchange.Run` states that it is sent exactly when a token parameter is given |
| OAuthExchange.Verdict | frontend/app/oauth/callback/oauth-callback-client.tsx:13-38 | definition (no contract of its own) of whether the page signs in; `OAuthExchange.Run` states the session, storage and history for each verdict |
| OAuthExchange.Run | frontend/app/oauth/callback/oauth-callback-client.tsx:12-42 | one request exactly when a token is given; success logs in and ends on "/"; otherwise nothing is stored and it ends on "/auth" |
| Callback.Verdict | frontend/app/callback/page.tsx:13-16 | definition (no contract of its own) of the `!token \|\| !username` decision; `Callback.RunPage`, `Callback.RunClient` and `Callback.CallbackSurvivesReload` state its effects |
| Callback.RunPage | frontend/app/callback/page.tsx:12-27 | with both parameters: log in with them, then replace with "/"; otherwise alert "OAuth login failed" and replace with "/login", with no login |
| Callback.RunClient | frontend/app/callback/oauth-callback-client.tsx:12-23 | the same decision: log in and replace with "/", or replace with "/login", never with an alert |
| Callback.CallbackSurvivesReload | frontend/app/callback/page.tsx:16-23 | after a successful callback, a reload restores the same pair |
| UserId.VariantNibble | frontend/lib/user.tsx:12 | `r & 0x3 \| 0x8` is 8 to 11, the variant bits `10` |
| UserId.FillAt | frontend/lib/user.tsx:11-14 | the `replace` keeps the length; each `x` becomes the digit of its own nibble, `y` the variant digit of its nibble, and every other character is copied |
| UserId.Fill | frontend/lib/user.tsx:11-14 | definition (no contract of its own) of `template.replace(/[xy]/g, …)` drawing one nibble per placeholder; stated by `UserId.FillAt` and `UserId.FillLength` |
| UserId.Polyfill | frontend/lib/user.tsx:11-14 | definition (no contract of its own) of the polyfill id for its 31 nibbles; stated by `UserId.PolyfillLayout` |
| UserId.FillLength | frontend/lib/user.tsx:11-14 | the filled template has the template's length |
| UserId.TemplateText | frontend/lib/user.tsx:11 | (example; its layout in general is `UserId.PolyfillLayout`) the template is `xxxxxxxx-xxxx-4xxx-yxxx-xxxxxxxxxxxx` |
| UserId.TemplatePlaceholders | frontend/lib/user.tsx:11-12 | the template draws 31 random digits |
| UserId.FilledLayout | frontend/lib/user.tsx:11-14 | filling any template of that shape gives the version-4 layout |
| UserId.PolyfillLayout | frontend/lib/user.tsx:11-14 | the polyfill's id has 36 characters, hyphens at 8, 13, 18 and 23, `4` at 14, one of `89ab` at 19, lowercase hex elsewhere |
| UserId.StoredIdKept | frontend/lib/user.tsx:4-5 | a non-empty stored id is returned as is, and nothing is written |
| UserId.Lookup | frontend/lib/user.tsx:4-16 | definition (no contract of its own) of one `getUserId` on a browser's storage; stated by `UserId.StoredIdKept`, `UserId.MintedIdStored`, `UserId.LookupStable` and `UserId.GetUserId` |
| UserId.MintedIdStored | frontend/lib/user.tsx:5-16 | without a stored id, the new one is stored under "user_id" only; without `crypto.randomUUID` it has the version-4 layout |
| UserId.LookupStable | frontend/lib/user.tsx:4-18 | two calls in a row give the same id, unless `crypto.randomUUID` returned "" |
| UserId.GetUserId | frontend/lib/user.tsx:1-19 | with no window the id is "" and storage is not touched; otherwise id and storage are the stored-or-minted ones, and no navigation or dialog happens |

## Left out

- PDF reading: the strings PyPDF2 extracts are the input. A reading error ends the source's loop early; the model takes the pages read before it.
- Embedding, the Pinecone upsert and query, `uuid.uuid4` and the language model: the embedding outcome, the matches, a raised exception's `str(e)` and the reply are inputs. In the ingestion path, embedding failures per chunk and the final upsert are not modelled.
- The Flask routes, the `print` calls and the unused `conversation_history`.
- Match metadata other than `page` and `text`: the page is taken as already rendered by the f-string. A missing `metadata` key is not modelled; only a missing `text` raises the `KeyError`.
- The prompt's wording is the one constant in the source; the commented-out alternative prompt is not modelled.
- Ingest.ChunkText: requires `chunk_size > overlap`, because otherwise the source loop never ends on a page with at least one word. Its only caller uses 512 and 100.
- Ingest.PageChunkAt: with `chunk_size <= 0` Python's negative slice ends apply. `Slice` models them, but the window properties are proved only for `chunk_size >= 1`.
- Auth.LoginIdempotent: compares storage only; a second `login` pushes "/" onto the history again.
- Web.BearerConforms: does not cover a token that starts with a space, which would read as an extra separator.
- Response bodies: a success body is typed as the field the client reads (`response`, `access_token`, `access_token` plus `username`). JavaScript `undefined` for a missing field, and bodies that are not JSON but come with `res.ok`, fall under the `Threw` outcome or are not modelled.
- Concurrency: each handler is one atomic step. Interleaved submits, responses after unmount, and buttons disabled during a request are not modelled. `Upload.ButtonsAgainstGuards` only relates the buttons' `disabled` rules to the handlers' early returns; the upload button does not check the token, so it can be enabled while `handleUpload` does nothing.
- Rendering: JSX, markdown, styling and the auto-scroll effect. So are `navigate.tsx`, `layout.tsx` and the home page, and the browser's `required` field check on the sign-in form.
- Randomness: `crypto.randomUUID()`'s result is an input. `Math.random() * 16 | 0` is an input nibble in 0..15.
- `typeof window === "undefined"` is a null browser.
- The commented-out Google sign-in button.
