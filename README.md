# News chatbot backend: a Dafny model of its retrieval pipeline

The backend answers chat questions about recent news in two stages.

- **Ingestion** (`ingestArticles`) asks a news feed for articles about
  "technology". It fetches and scrapes each article page into one text, and
  splits that text into chunks. It embeds the chunks as passages and turns each
  embedding into a point of the `news_articles` vector collection. A point's id
  is a name-based UUID derived from `${url}-${i}`. All points go to the index
  in one upsert at the end.
- **Chat** (`POST /chat`) validates `sessionId` and `query`. It embeds the
  query, retrieves the 5 nearest chunks and joins their texts into a context,
  one chunk per line. It asks the generation model with a fixed prompt
  template, records the user and bot turns in the session log, and replies
  with the answer.

The model has one module per part of the program:

- `Wrappers`: `Option` and `Result`.
- `JsStrings`: the JavaScript string semantics the code depends on.
  - `Array.prototype.join`, with `split` as its inverse.
  - `String.prototype.trim` over the exact ECMAScript WhiteSpace and
    LineTerminator set.
  - `length` in UTF-16 code units.
  - Rendering a non-negative integer in a template literal.
- `Embedder`: the embedding task hints and vectors.
- `Scrape`: `scrapeArticle`, as an imperative method with its two `each`
  loops. It is proved equal to the specification function `Extraction`, and
  the properties of the filter are proved about `Extraction`.
- `Ingest`: `ingestArticles`, as a method with its `for` loop over the feed.
  - Its loop invariants tie the accumulator and the counter to the
    specification functions `Flatten` and `Survivors`, applied to the
    articles' outcomes so far.
  - The index is a class, `VectorIndex`, that records the upsert requests it
    receives.
  - The per-article `map` and the id name are pure functions.
- `Gemini`: `getGeminiResponse`, a pure function from the provider's reply
  to an answer or an error message.
- `Server`: the `/chat` handler, as a method over a `SessionStore` class.
  - The store's log of messages is the state the handler changes.
  - The handler also returns the sequence of remote calls it made, so that
    the order of embedding, search and generation is stated.

Remote services are parameters: the news feed, the page fetch (with parsing),
the chunker, the embedder, the UUID function, the vector search and the
generation model. Ingestion's fetch and embed also take the article's position
in the feed. Two articles with the same URL may therefore see different
replies, as the network allows.

## Model

| member | source | states |
|---|---|---|
| JsStrings.Split | src/server.ts:47 | splitting at a one-character separator always yields at least one piece |
| JsStrings.JoinSplit | src/server.ts:47 | joining the pieces of `s.split(c)` with `c` gives back `s` |
| JsStrings.SplitJoin | src/server.ts:47 | splitting a join of parts free of the separator gives back exactly those parts |
| JsStrings.JoinEmptyIff | src/services/ingest.ts:72 | a join of non-empty parts is empty exactly when there are no parts |
| JsStrings.SplitAtLastSeparator | src/services/ingest.ts:107 | `a + c + b` with no `c` in `b` determines `a` and `b` |
| JsStrings.TrimStart | src/services/ingest.ts:57 | removing leading whitespace never lengthens a string |
| JsStrings.TrimEnd | src/services/ingest.ts:57 | removing trailing whitespace never lengthens a string |
| JsStrings.TrimStartSuffix | src/services/ingest.ts:57 | the result is a suffix, begins with non-whitespace (or is empty), and only whitespace was cut |
| JsStrings.TrimEndPrefix | src/services/ingest.ts:57 | the result is a prefix, ends with non-whitespace (or is empty), and only whitespace was cut |
| JsStrings.TrimCharacterization | src/services/ingest.ts:61 | `trim` keeps the contiguous middle of the text; only whitespace lies before and after it; no whitespace is left at either end |
| JsStrings.TrimUntouched | src/services/ingest.ts:66 | a text without whitespace at either end is its own trim |
| JsStrings.TrimIdempotent | src/services/ingest.ts:66 | trimming twice is trimming once |
| JsStrings.Utf16Length | src/services/ingest.ts:62 | `length` counts UTF-16 code units: between one and two per character |
| JsStrings.Utf16LengthConcat | src/services/ingest.ts:67 | the length of a concatenation is the sum of the lengths |
| JsStrings.Utf16LengthBmp | src/services/ingest.ts:67 | on text inside the Basic Multilingual Plane, `length` is the number of characters |
| JsStrings.NatToDecimal | src/services/ingest.ts:107 | `${i}` is a non-empty string of decimal digits, with no leading zero unless it is "0" |
| JsStrings.DecimalRoundTrip | src/services/ingest.ts:107 | reading the decimal rendering back gives the number |
| JsStrings.DecimalInjective | src/services/ingest.ts:110 | distinct indices render differently |
| JsStrings.DecimalAvoids | src/services/ingest.ts:107 | a decimal rendering never contains a non-digit such as `-` |
| Scrape.KeepLonger | src/services/ingest.ts:60-63 | filtering never keeps more texts than it is given |
| Scrape.KeepLongerAllLong | src/services/ingest.ts:62 | every kept text is longer than the threshold, so none is empty |
| Scrape.KeepLongerStep | src/services/ingest.ts:60-63 | one more element extends the kept list by its trimmed text when that is long enough, and by nothing otherwise |
| Scrape.KeptIndicesMatch | src/services/ingest.ts:60-63 | each kept block is the trimmed text of an element, and the positions of those elements increase: document order is kept |
| Scrape.KeptIndicesMembership | src/services/ingest.ts:65-70 | an element is kept exactly when its trimmed text is longer than the threshold |
| Scrape.KeepLongerExactly | src/services/ingest.ts:60-70 | the kept blocks are exactly the trimmed long texts, each trimmed, in document order (both directions) |
| Scrape.KeepLongerConcat | src/services/ingest.ts:60-63 | filtering distributes over concatenation |
| Scrape.Extraction | src/services/ingest.ts:43-77 | the text is absent exactly when fetching or parsing failed |
| Scrape.ScrapeArticle | src/services/ingest.ts:43-77 | the two loops over sub-headings and paragraphs build exactly the blocks of `Extraction`, and the result is their join with single spaces; a failed fetch gives `null` |
| Scrape.HeadlineFirstIff | src/services/ingest.ts:57-58 | the first block is the headline exactly when the trimmed first `h1` is non-empty |
| Scrape.OnlyFirstH1Counts | src/services/ingest.ts:57 | pages that agree on the first `h1`, the sub-headings and the paragraphs extract alike: later `h1`s are ignored |
| Scrape.KeptBlocksLayout | src/services/ingest.ts:55-70 | the blocks fall into three consecutive sections: the headline, the kept sub-headings, the kept paragraphs |
| Scrape.ExtractionEmptyIff | src/services/ingest.ts:72 | a page extracts to "" exactly when no block is kept |
| Scrape.ExampleHeadings | src/services/ingest.ts:60-63 | of sub-headings of 3 and 20 code units, only the second is kept |
| Scrape.ExampleParagraphs | src/services/ingest.ts:65-70 | of paragraphs of 10, 60 and 100 code units, the last two are kept |
| Scrape.FilteringExample | src/services/ingest.ts:55-72 | a page with a headline, those sub-headings and those paragraphs keeps the headline, the 20-unit sub-heading and the 60- and 100-unit paragraphs, in that order |
| Ingest.FeedFailureIngestsNothing | src/services/ingest.ts:32-40 | when the feed request fails or its status is not "ok", the run has no articles, accumulates no points and counts none; with Ingest.IngestArticles, the run still upserts exactly one batch, and it is empty |
| Ingest.Contribution | src/services/ingest.ts:91-116 | an article without a URL is skipped; one with a URL is skipped exactly when scraping yields `null` or "" |
| Ingest.Contributions | src/services/ingest.ts:91 | one outcome per article of the feed |
| Ingest.VectorIndex.Upsert | src/services/ingest.ts:123-125 | the index records one more upsert request, carrying the collection and the points |
| Ingest.IngestArticles | src/services/ingest.ts:80-125 | the index receives exactly one upsert, to `news_articles`, with the points of every non-skipped article in feed order; the counter ends at the number of non-skipped articles |
| Ingest.FlattenStep | src/services/ingest.ts:118-119 | a surviving article appends its points to the accumulator and adds one to the count; a skipped one changes neither |
| Ingest.StepEffect | src/services/ingest.ts:94-119 | the loop step for one article, stated on the run's outcomes: a skip changes nothing; otherwise one point per embedding is appended and the count grows by one |
| Ingest.FlattenPrefix | src/services/ingest.ts:118 | the accumulator only grows at its end |
| Ingest.FlattenPosition | src/services/ingest.ts:118 | the `k`-th point of a surviving article sits right after the points of the articles before it |
| Ingest.SurvivorsBound | src/services/ingest.ts:119 | the count never exceeds the number of articles |
| Ingest.ArticlePointsShape | src/services/ingest.ts:106-116 | one point per embedding: point `i` has the UUID of `${url}-${i}` in the fixed namespace, the `i`-th vector, the label `${url}-${i+1}`, chunk number `i+1`, the `i`-th chunk (absent past the last chunk), and the article's URL and title |
| Ingest.IdNameInjective | src/services/ingest.ts:107 | the name `${url}-${i}` determines both the URL and the index |
| Ingest.IdNamesDistinctInArticle | src/services/ingest.ts:107 | distinct chunk positions of one article get distinct id names |
| Ingest.UidLabelInjective | src/services/ingest.ts:110 | the label `${url}-${i+1}` determines both the URL and the index |
| Ingest.ReingestSameIds | src/services/ingest.ts:106-107 | re-ingesting a URL with as many embeddings regenerates the same ids position by position, so the upsert overwrites the earlier points |
| Ingest.PartialFailure | src/services/ingest.ts:94-100 | in a three-article feed whose second fetch fails, two articles count and the batch holds the first and third articles' points |
| Ingest.SkipMiddle | src/services/ingest.ts:118-119 | three outcomes with the middle one skipped accumulate the first and third point lists and count two |
| Gemini.GetGeminiResponse | src/services/geminiClient.ts:13-27 | the model is asked with the template prompt; a thrown provider error becomes exactly the error "Gemini API error: " + message; a non-empty text is returned unchanged; a missing or empty text becomes "No response generated"; a success is never empty |
| Gemini.PromptLayout | src/services/geminiClient.ts:15 | where the context, the user turn and the open bot turn sit in the prompt |
| Gemini.PromptInjective | src/services/geminiClient.ts:15 | for queries without a line break, the prompt determines both the context and the query |
| Server.ContextLines | src/server.ts:47 | one context line per retrieved payload |
| Server.EmptyRetrievalGivesEmptyContext | src/server.ts:47 | no hits give the empty context |
| Server.ContextRoundTrip | src/server.ts:47 | splitting the context at line breaks gives back each hit's chunk in retrieval order (the empty string for a payload without one), when no chunk holds a line break |
| Server.SessionStore.SaveMessage | src/db/redisClient.ts:20-23 | when the store accepts the push, the session log gains exactly that message at its end and the call reports success; when the store throws, the log is unchanged and the call reports the failure |
| Server.HandleChat | src/server.ts:37-59 | a missing or empty field gives 400 "Missing sessionId or query" before any remote call and with the log untouched; otherwise the query is embedded as a one-text batch and the 5 nearest chunks are searched; the embedder is asked with the task "retrieval.query"; generation is asked with the joined context and the query; a failing search or generation gives 500 "Internal server error" with the log untouched; then the user's query and the answer are saved in that order; a throw from the first save gives 500 with the log untouched; a throw from the second gives 500 with only the user's message kept; when both saves succeed the reply is 200 with the answer; each case also fixes the sequence of remote calls made |

## Left out

- HTML parsing is not modelled. A page is what the parser selects from it: the
  text of every `h1`, of every `h2`/`h3` in document order, and of every `p`.
  A failed GET and a failed parse are one `Failed` outcome.
- The chunker is uninterpreted: any function from text to chunks.
- UUID version 5 is an uninterpreted function of the name and the namespace.
  It is not assumed collision-free, so only the names fed to it are proved
  distinct.
- The HTTP calls are not modelled: the news feed request, the page GET, the
  embedding API and the provider SDK. They enter only through their results.
  The embedder turns its own errors into an empty list, which the model covers
  because an embedder may return any list.
- The vector store's internals are not modelled. The stored data is a log of
  upsert requests (`Ingest.VectorIndex`), and search is a parameter giving hits
  in index order or a failure.
- The key-value store's internals are not modelled. The session log is a
  sequence of messages (`Server.SessionStore`). Message timestamps, list keys
  and expiry are not modelled. The store's reply to each push (`save`,
  indexed by the turn's role) is a parameter of Server.HandleChat. A push
  that throws is taken to have appended nothing.
- Creating the collection is not modelled (`initCollection`, src/db/qdrant.ts:12-25).
  Its failure, and a thrown upsert, would reject the run.
- Every `console` call is left out, as is `process.exit` on a missing key.
- The Express plumbing is left out, along with the `/`, `/session`, `/history`
  and `/ingest` routes.
  - `/ingest` passes a query that `ingestArticles` ignores.
  - It destructures `articlesIngested` from the `undefined` the function
    returns, so the route answers 500 after a full run. It never reports a
    count.
- Request bodies whose fields are not strings are not modelled: a field is
  absent, or a string.
- Ingest.IngestArticles returns `count` as an out-parameter. The source keeps
  the counter local and returns nothing; the out-parameter only exposes the
  counter's final value.
- When the query embedding fails in `/chat`, the search gets an undefined
  vector. What happens then is the search service's answer (parameter
  `search`), not a guaranteed empty context.
- A point's chunk is `chunks[i]`, which is absent when the embedder returns
  more vectors than there were chunks.
- Ingest.Contributions: its contract states only the number of outcomes. The
  outcome at each position is `Contribution` by definition, and
  Ingest.StepEffect states what it adds.
