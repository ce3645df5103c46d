/** `ingestArticles`: fetch the article feed, extract, chunk and embed each
    article, turn every embedding into an indexed point with a name-based id,
    and upsert all points in one batch. */
module Ingest {
  import opened Wrappers
  import opened JsStrings
  import opened Embedder
  import Scrape

  /** The DNS namespace of RFC 4122, Appendix C, under which ids are derived. */
  const Namespace: string := "6ba7b810-9dad-11d1-80b4-00c04fd430c8"
  /** The vector collection every point goes to. */
  const CollectionName: string := "news_articles"
  /** The feed query `ingestArticles` always uses: `fetchArticles()` is called
      without an argument, so its default applies. */
  const DefaultTopic: string := "technology"
  const FeedPageSize: nat := 50
  const FeedLanguage: string := "en"

  /** One record of the article feed; either field may be absent. */
  datatype Article = Article(title: Option<string>, url: Option<string>)

  /** The request `fetchArticles` sends to the news feed. */
  datatype FeedQuery = FeedQuery(q: string, pageSize: nat, language: string)
  /** The feed's answer: a status and its articles, or a transport error. */
  datatype FeedReply = FeedResponse(status: string, articles: seq<Article>) | FeedError(message: string)

  /** The payload stored with a point. `chunk` is absent when the embedder
      returned more vectors than there were chunks (`chunks[i]` is then
      `undefined`). */
  datatype Payload = Payload(uid: string, articleUrl: string, articleTitle: Option<string>,
                             chunkNumber: nat, chunk: Option<string>)

  datatype Point = Point(id: string, vector: Vector, payload: Payload)

  /** The services ingestion calls. `fetch` and `embed` take the position of
      the article in the feed, so the same URL may be answered differently at
      two positions; `chunkText` and `uuidv5` are deterministic. */
  datatype Remote = Remote(
    feed: FeedQuery -> FeedReply,
    fetch: (nat, string) -> Scrape.FetchOutcome,
    chunkText: string -> seq<string>,
    embed: (nat, seq<string>, string) -> seq<Vector>,
    uuidv5: (string, string) -> string)

  /** `fetchArticles`: the feed's articles when its status is "ok"; any other
      status or a transport error gives no articles. */
  function FeedArticles(reply: FeedReply): seq<Article> {
    match reply
    case FeedError(_) => []
    case FeedResponse(status, articles) => if status == "ok" then articles else []
  }

  /** The articles of one run. */
  function RunArticles(remote: Remote): seq<Article> {
    FeedArticles(remote.feed(FeedQuery(DefaultTopic, FeedPageSize, FeedLanguage)))
  }

  /** `if (!url) continue`: an absent or empty URL is falsy. */
  predicate HasUrl(a: Article) {
    a.url.Some? && a.url.value != ""
  }

  /** The name hashed into the id of chunk `i`: `${url}-${i}`. */
  function IdName(url: string, i: nat): string {
    url + "-" + NatToDecimal(i)
  }

  /** The display label of chunk `i`: `${url}-${i+1}`. */
  function UidLabel(url: string, i: nat): string {
    url + "-" + NatToDecimal(i + 1)
  }

  /** `chunks[i]`, or `undefined` past the end. */
  function ChunkAt(chunks: seq<string>, i: nat): Option<string> {
    if i < |chunks| then Some(chunks[i]) else None
  }

  /** The `embeddings.map` callback for vector `i`. */
  function MakePoint(uuidv5: (string, string) -> string, url: string, title: Option<string>,
                     chunks: seq<string>, vector: Vector, i: nat): Point
  {
    Point(uuidv5(IdName(url, i), Namespace), vector,
          Payload(UidLabel(url, i), url, title, i + 1, ChunkAt(chunks, i)))
  }

  /** The points of one article: one per embedding, in embedding order. */
  function ArticlePoints(uuidv5: (string, string) -> string, url: string, title: Option<string>,
                         chunks: seq<string>, embeddings: seq<Vector>): seq<Point>
  {
    seq(|embeddings|, i requires 0 <= i < |embeddings| => MakePoint(uuidv5, url, title, chunks, embeddings[i], i))
  }

  /** What the article at feed position `n` adds: nothing when it is skipped,
      otherwise the points built from its chunks and their embeddings. */
  function Contribution(remote: Remote, n: nat, a: Article): (r: Option<seq<Point>>)
    ensures !HasUrl(a) ==> r.None?
    ensures HasUrl(a) ==>
      var text := Scrape.Extraction(remote.fetch(n, a.url.value));
      (r.None? <==> text.None? || text.value == "")
  {
    if !HasUrl(a) then None
    else
      var url := a.url.value;
      match Scrape.Extraction(remote.fetch(n, url))
      case None => None
      case Some(text) =>
        if text == "" then None
        else
          var chunks := remote.chunkText(text);
          Some(ArticlePoints(remote.uuidv5, url, a.title, chunks, remote.embed(n, chunks, TaskName(RetrievalPassage))))
  }

  /** The outcome of every article of a feed, in feed order. */
  function Contributions(remote: Remote, articles: seq<Article>): (cs: seq<Option<seq<Point>>>)
    ensures |cs| == |articles|
  {
    seq(|articles|, n requires 0 <= n < |articles| => Contribution(remote, n, articles[n]))
  }

  /** The points of the surviving outcomes, concatenated in order. */
  function Flatten(cs: seq<Option<seq<Point>>>): seq<Point>
    decreases |cs|
  {
    if |cs| == 0 then []
    else
      var before := Flatten(cs[..|cs| - 1]);
      match cs[|cs| - 1]
      case None => before
      case Some(points) => before + points
  }

  /** The number of surviving outcomes. */
  function Survivors(cs: seq<Option<seq<Point>>>): nat
    decreases |cs|
  {
    if |cs| == 0 then 0
    else Survivors(cs[..|cs| - 1]) + (if cs[|cs| - 1].Some? then 1 else 0)
  }

  /** The accumulator after the first `n` articles. */
  function AccumulatedPoints(remote: Remote, articles: seq<Article>, n: nat): seq<Point>
    requires n <= |articles|
  {
    Flatten(Contributions(remote, articles)[..n])
  }

  /** `count` after the first `n` articles. */
  function IngestedCount(remote: Remote, articles: seq<Article>, n: nat): nat
    requires n <= |articles|
  {
    Survivors(Contributions(remote, articles)[..n])
  }

  /** One more outcome: the accumulator and the count move by that outcome. */
  lemma FlattenStep(cs: seq<Option<seq<Point>>>, n: nat)
    requires n < |cs|
    ensures Flatten(cs[..n + 1]) == Flatten(cs[..n]) + (if cs[n].Some? then cs[n].value else [])
    ensures Survivors(cs[..n + 1]) == Survivors(cs[..n]) + (if cs[n].Some? then 1 else 0)
  {
    assert cs[..n + 1][..n] == cs[..n];
  }

  /** One upsert request as the vector index received it. */
  datatype UpsertBatch = UpsertBatch(collection: string, points: seq<Point>)

  /** The vector index as ingestion sees it: the upsert requests it has
      received, in order. How it stores them is the service's business. */
  class VectorIndex {
    var batches: seq<UpsertBatch>

    constructor ()
      ensures batches == []
    {
      batches := [];
    }

    method Upsert(collection: string, points: seq<Point>)
      modifies this
      ensures batches == old(batches) + [UpsertBatch(collection, points)]
    {
      batches := batches + [UpsertBatch(collection, points)];
    }
  }

  /** The ingestion run. The index receives exactly one upsert, after the
      loop, carrying every accumulated point; `count` is the number of
      articles that were not skipped. */
  method IngestArticles(remote: Remote, index: VectorIndex) returns (count: nat)
    modifies index
    ensures var articles := RunArticles(remote);
      index.batches == old(index.batches) + [UpsertBatch(CollectionName, AccumulatedPoints(remote, articles, |articles|))]
    ensures var articles := RunArticles(remote);
      count == IngestedCount(remote, articles, |articles|)
  {
    var articles := FeedArticles(remote.feed(FeedQuery(DefaultTopic, FeedPageSize, FeedLanguage)));
    ghost var outcomes := Contributions(remote, articles);
    var allArticlePoints: seq<Point> := [];
    count := 0;
    for n := 0 to |articles|
      invariant allArticlePoints == Flatten(outcomes[..n])
      invariant count == Survivors(outcomes[..n])
      invariant index.batches == old(index.batches)
    {
      FlattenStep(outcomes, n);
      var article := articles[n];
      if !HasUrl(article) {
        continue;
      }
      var url := article.url.value;
      var fullText := Scrape.ScrapeArticle(remote.fetch(n, url));
      if fullText.None? || fullText.value == "" {
        continue;
      }
      var chunks := remote.chunkText(fullText.value);
      var embeddings := remote.embed(n, chunks, TaskName(RetrievalPassage));
      var points := ArticlePoints(remote.uuidv5, url, article.title, chunks, embeddings);
      allArticlePoints := allArticlePoints + points;
      count := count + 1;
    }
    assert outcomes[..|articles|] == outcomes;
    index.Upsert(CollectionName, allArticlePoints);
  }

  // ---------------------------------------------------------------------------
  // Properties
  // ---------------------------------------------------------------------------

  /** Point `i` of an article carries the id derived from `${url}-${i}`, the
      `i`-th vector, the label `${url}-${i+1}`, the 1-based chunk number, the
      `i`-th chunk, and the article's URL and title. */
  lemma ArticlePointsShape(uuidv5: (string, string) -> string, url: string, title: Option<string>,
                           chunks: seq<string>, embeddings: seq<Vector>)
    ensures var points := ArticlePoints(uuidv5, url, title, chunks, embeddings);
      && |points| == |embeddings|
      && forall i :: 0 <= i < |points| ==>
           && points[i].id == uuidv5(url + "-" + NatToDecimal(i), Namespace)
           && points[i].vector == embeddings[i]
           && points[i].payload.uid == url + "-" + NatToDecimal(i + 1)
           && points[i].payload.articleUrl == url
           && points[i].payload.articleTitle == title
           && points[i].payload.chunkNumber == i + 1
           && points[i].payload.chunk == (if i < |chunks| then Some(chunks[i]) else None)
  {
  }

  /** A skipped article leaves the accumulator and the count as they were;
      any other adds exactly one point per embedding (none when the embedder
      returned nothing) and counts once. */
  lemma StepEffect(remote: Remote, articles: seq<Article>, n: nat)
    requires n < |articles|
    ensures var before, after := AccumulatedPoints(remote, articles, n), AccumulatedPoints(remote, articles, n + 1);
      var a := articles[n];
      match Contribution(remote, n, a)
      case None =>
        after == before && IngestedCount(remote, articles, n + 1) == IngestedCount(remote, articles, n)
      case Some(points) =>
        && (var chunks := remote.chunkText(Scrape.Extraction(remote.fetch(n, a.url.value)).value);
            |points| == |remote.embed(n, chunks, TaskName(RetrievalPassage))|)
        && after == before + points
        && IngestedCount(remote, articles, n + 1) == IngestedCount(remote, articles, n) + 1
  {
    FlattenStep(Contributions(remote, articles), n);
  }

  /** The accumulator only grows at its end: the points of earlier outcomes
      stay where they were. */
  lemma {:induction false} FlattenPrefix(cs: seq<Option<seq<Point>>>, m: nat, n: nat)
    requires m <= n <= |cs|
    ensures var early, late := Flatten(cs[..m]), Flatten(cs[..n]);
      |early| <= |late| && late[..|early|] == early
    decreases n
  {
    if m < n {
      FlattenPrefix(cs, m, n - 1);
      FlattenStep(cs, n - 1);
      var early := Flatten(cs[..m]);
      var mid := Flatten(cs[..n - 1]);
      var late := Flatten(cs[..n]);
      assert late[..|mid|] == mid;
      assert late[..|early|] == mid[..|early|];
    }
  }

  /** The accumulator is the concatenation, in feed order, of the surviving
      outcomes: the points of outcome `j` sit right after those of the
      outcomes before it. */
  lemma FlattenPosition(cs: seq<Option<seq<Point>>>, j: nat, n: nat, k: nat)
    requires j < n <= |cs|
    requires cs[j].Some? && k < |cs[j].value|
    ensures var offset, all := |Flatten(cs[..j])|, Flatten(cs[..n]);
      offset + k < |all| && all[offset + k] == cs[j].value[k]
  {
    FlattenStep(cs, j);
    FlattenPrefix(cs, j + 1, n);
    var upTo := Flatten(cs[..j + 1]);
    var all := Flatten(cs[..n]);
    var offset := |Flatten(cs[..j])|;
    assert upTo[offset + k] == cs[j].value[k];
    assert all[..|upTo|][offset + k] == all[offset + k];
  }

  /** A feed that fails or answers with a status other than "ok" ingests
      nothing: the run still upserts one batch, and that batch is empty. */
  lemma FeedFailureIngestsNothing(remote: Remote)
    requires var reply := remote.feed(FeedQuery(DefaultTopic, FeedPageSize, FeedLanguage));
      reply.FeedError? || reply.status != "ok"
    ensures var articles := RunArticles(remote);
      && articles == []
      && AccumulatedPoints(remote, articles, |articles|) == []
      && IngestedCount(remote, articles, |articles|) == 0
  {
    assert Contributions(remote, RunArticles(remote))[..0] == [];
  }

  /** At most one count per outcome. */
  lemma {:induction false} SurvivorsBound(cs: seq<Option<seq<Point>>>)
    ensures Survivors(cs) <= |cs|
    decreases |cs|
  {
    if |cs| > 0 {
      SurvivorsBound(cs[..|cs| - 1]);
    }
  }

  /** The id name is injective: the decimal rendering never contains `-`, so
      the last `-` separates the URL from the index. */
  lemma IdNameInjective(url1: string, i1: nat, url2: string, i2: nat)
    requires IdName(url1, i1) == IdName(url2, i2)
    ensures url1 == url2 && i1 == i2
  {
    DecimalAvoids(i1, '-');
    DecimalAvoids(i2, '-');
    assert IdName(url1, i1) == url1 + ['-'] + NatToDecimal(i1);
    assert IdName(url2, i2) == url2 + ['-'] + NatToDecimal(i2);
    SplitAtLastSeparator(url1, NatToDecimal(i1), url2, NatToDecimal(i2), '-');
    DecimalInjective(i1, i2);
  }

  /** Distinct chunk positions of one article get distinct id names. */
  lemma IdNamesDistinctInArticle(url: string, i: nat, j: nat)
    requires i != j
    ensures IdName(url, i) != IdName(url, j)
  {
    if IdName(url, i) == IdName(url, j) {
      IdNameInjective(url, i, url, j);
    }
  }

  /** The label of chunk `i` is the id name of position `i + 1`, so labels
      are injective too. */
  lemma UidLabelInjective(url1: string, i1: nat, url2: string, i2: nat)
    requires UidLabel(url1, i1) == UidLabel(url2, i2)
    ensures url1 == url2 && i1 == i2
  {
    assert UidLabel(url1, i1) == IdName(url1, i1 + 1);
    assert UidLabel(url2, i2) == IdName(url2, i2 + 1);
    IdNameInjective(url1, i1 + 1, url2, i2 + 1);
  }

  /** Re-ingesting an article under the same URL with the same number of
      embeddings regenerates the same ids, position by position, whatever the
      title, chunks or vectors; so the second upsert overwrites the first. */
  lemma ReingestSameIds(uuidv5: (string, string) -> string, url: string,
                        title1: Option<string>, chunks1: seq<string>, embeddings1: seq<Vector>,
                        title2: Option<string>, chunks2: seq<string>, embeddings2: seq<Vector>)
    requires |embeddings1| == |embeddings2|
    ensures var p1, p2 := ArticlePoints(uuidv5, url, title1, chunks1, embeddings1),
                          ArticlePoints(uuidv5, url, title2, chunks2, embeddings2);
      |p1| == |p2| && forall i :: 0 <= i < |p1| ==> p1[i].id == p2[i].id
  {
  }

  /** A feed of three articles whose second fetch fails: two articles are
      counted and the batch holds the first and third articles' points. */
  lemma PartialFailure(remote: Remote, articles: seq<Article>)
    requires |articles| == 3
    requires Contribution(remote, 0, articles[0]).Some?
    requires HasUrl(articles[1]) && remote.fetch(1, articles[1].url.value).Failed?
    requires Contribution(remote, 2, articles[2]).Some?
    ensures IngestedCount(remote, articles, 3) == 2
    ensures AccumulatedPoints(remote, articles, 3)
         == Contribution(remote, 0, articles[0]).value + Contribution(remote, 2, articles[2]).value
  {
    var cs := Contributions(remote, articles);
    assert cs[1].None?;
    assert cs[..3] == cs;
    SkipMiddle(cs);
  }

  /** Three outcomes of which the middle one was skipped. */
  lemma SkipMiddle(cs: seq<Option<seq<Point>>>)
    requires |cs| == 3 && cs[0].Some? && cs[1].None? && cs[2].Some?
    ensures Flatten(cs) == cs[0].value + cs[2].value
    ensures Survivors(cs) == 2
  {
    assert cs[..0] == [] && cs[..3] == cs;
    FlattenStep(cs, 0);
    FlattenStep(cs, 1);
    FlattenStep(cs, 2);
    assert [] + cs[0].value == cs[0].value;
  }
}
