/** The article-processing edge function: it checks the request, sends each
    article to a language model in batches of five, and returns one processed
    article per input article, in input order. An article whose call or answer
    goes wrong is not an error; it gets a fallback built from its own text. */
module ProcessArticle {
  import opened Wrappers
  import opened Strings
  import opened Sequences
  import opened Fences

  datatype Article = Article(title: string, content: string, source: string)

  datatype Processed = Processed(
    processedTitle: string,
    processedSummary: string,
    processedTags: seq<string>)

  const BatchSize := 5
  const PromptContentLength := 2000
  const FailureSummaryLength := 100
  const ParseFailureSummaryLength := 300
  const Ellipsis := "..."
  const MissingKeyMessage := "LOVABLE_API_KEY is not configured"
  const NoArticlesMessage := "No articles provided"

  /** What the model call delivers. `CallFailed` stands for every way the
      request or its envelope can throw: a rejected fetch, a status that is not
      ok, a body that is not JSON, and message content that is not a string.
      `Answered(None)` is a successful call without message content. */
  datatype Reply = CallFailed | Answered(content: Option<string>)

  /** What `JSON.parse` makes of the cleaned answer: a syntax error, the value
      `null`, or some other value with its (string) `title` and `summary` and
      its `tags` array, each possibly absent. */
  datatype Parsed = NotJson | JsonNull | JsonValue(title: Option<string>, summary: Option<string>, tags: Option<seq<string>>)

  /** How the processing of one article ends: the outer handler caught an
      error, the inner parse handler caught one, or a parsed answer is used. */
  datatype Outcome = Failed | Unparsable | Answer(title: Option<string>, summary: Option<string>, tags: Option<seq<string>>)

  /** The user message: title, source, and the first 2000 characters of the
      content. */
  function UserPrompt(a: Article): (prompt: string)
    ensures prompt == "Article Title: " + a.title + "\nSource: " + a.source + "\nContent: "
                      + Take(a.content, PromptContentLength)
    ensures |prompt| <= 35 + |a.title| + |a.source| + PromptContentLength
  {
    "Article Title: " + a.title + "\nSource: " + a.source + "\nContent: " + Take(a.content, PromptContentLength)
  }

  /** The answer text as it is handed to `JSON.parse`: trimmed, then with its
      code fences removed. */
  function CleanJson(text: string): (clean: string)
    ensures |clean| <= |text|
    ensures '`' !in text ==> clean == Trim(text)
  {
    TrimmedWithoutBackticks(text);
    StripFences(Trim(text))
  }

  /** An answer without backticks has no fence left after trimming. */
  lemma TrimmedWithoutBackticks(text: string)
    ensures '`' !in text ==> StripFences(Trim(text)) == Trim(text)
  {
    var trimmed := Trim(text);
    if '`' !in text {
      var lo :| TrimmedAt(text, trimmed, lo);
      forall k | 0 <= k < |trimmed|
        ensures trimmed[k] != '`'
      {
        assert trimmed[k] == text[lo + k];
      }
      AbsentCharacter(trimmed, Fence, '`');
      NoFenceUnchanged(trimmed);
    }
  }

  /** Which handler, if any, ends the processing of one article. An answer
      without content fails inside the parse handler; a `null` answer passes it
      and then fails when its title is read, in the outer handler. */
  function Classify(reply: Reply, parse: string -> Parsed): (o: Outcome)
    ensures reply.CallFailed? ==> o.Failed?
    ensures reply == Answered(None) ==> o.Unparsable?
    ensures reply.Answered? && reply.content.Some? ==>
              && (o.Failed? <==> parse(CleanJson(reply.content.value)).JsonNull?)
              && (o.Unparsable? <==> parse(CleanJson(reply.content.value)).NotJson?)
    ensures o.Answer? ==> reply.Answered? && reply.content.Some?
                          && parse(CleanJson(reply.content.value)) == JsonValue(o.title, o.summary, o.tags)
  {
    match reply
    case CallFailed => Failed
    case Answered(None) => Unparsable
    case Answered(Some(text)) =>
      match parse(CleanJson(text))
      case NotJson => Unparsable
      case JsonNull => Failed
      case JsonValue(title, summary, tags) => Answer(title, summary, tags)
  }

  /** A summary built from the article itself: a prefix of its content, with
      an ellipsis on the fallback paths. */
  predicate FromContent(a: Article, summary: string) {
    || summary == Take(a.content, FailureSummaryLength)
    || summary == Take(a.content, FailureSummaryLength) + Ellipsis
    || summary == Take(a.content, ParseFailureSummaryLength) + Ellipsis
  }

  /** The processed article for an outcome. */
  function Resolve(a: Article, o: Outcome): (r: Processed)
    ensures o.Failed? ==> r == Processed(a.title, Take(a.content, FailureSummaryLength) + Ellipsis, [])
    ensures o.Unparsable? ==> r == Processed(a.title, Take(a.content, ParseFailureSummaryLength) + Ellipsis, [])
    ensures r.processedTitle == a.title || (o.Answer? && Truthy(o.title) && r.processedTitle == o.title.value)
    ensures o.Answer? && Truthy(o.title) ==> r.processedTitle == o.title.value
    ensures o.Answer? && !Truthy(o.title) ==> r.processedTitle == a.title
    ensures a.title != "" ==> r.processedTitle != ""
    ensures o.Answer? && Truthy(o.summary) ==> r.processedSummary == o.summary.value
    ensures o.Answer? && !Truthy(o.summary) ==> r.processedSummary == Take(a.content, FailureSummaryLength)
    ensures !(o.Answer? && Truthy(o.summary)) ==> FromContent(a, r.processedSummary)
                                                   && |r.processedSummary| <= ParseFailureSummaryLength + 3
    ensures r.processedTags == (if o.Answer? then o.tags.GetOr([]) else [])
  {
    match o
    case Failed => Processed(a.title, Take(a.content, FailureSummaryLength) + Ellipsis, [])
    case Unparsable =>
      // The parse fallback object goes through the same `||` defaults; its
      // title and its summary (which ends in "...") are both kept.
      var fallbackSummary := Take(a.content, ParseFailureSummaryLength) + Ellipsis;
      Processed(OrElse(Some(a.title), a.title), OrElse(Some(fallbackSummary), Take(a.content, FailureSummaryLength)), [])
    case Answer(title, summary, tags) =>
      Processed(OrElse(title, a.title), OrElse(summary, Take(a.content, FailureSummaryLength)), tags.GetOr([]))
  }

  /** One article: the model is asked with the article's prompt, and its reply
      is resolved. */
  function ProcessOne(a: Article, call: string -> Reply, parse: string -> Parsed): (r: Processed)
    ensures call(UserPrompt(a)).CallFailed? ==>
              r == Processed(a.title, Take(a.content, FailureSummaryLength) + Ellipsis, [])
    ensures a.title != "" ==> r.processedTitle != ""
    ensures r.processedTags != [] ==> call(UserPrompt(a)).Answered?
  {
    Resolve(a, Classify(call(UserPrompt(a)), parse))
  }

  /** Content after the first 2000 characters reaches neither the model nor
      any fallback: it cannot change the result. */
  lemma TailIgnored(a: Article, tail: string, call: string -> Reply, parse: string -> Parsed)
    requires |a.content| >= PromptContentLength
    ensures ProcessOne(a.(content := a.content + tail), call, parse) == ProcessOne(a, call, parse)
  {
    TakeIgnoresTail(a.content, tail, PromptContentLength);
    TakeIgnoresTail(a.content, tail, ParseFailureSummaryLength);
    TakeIgnoresTail(a.content, tail, FailureSummaryLength);
  }

  /** A well-behaved answer, a fenced JSON object with a title and a summary,
      is used as it is. */
  lemma FencedAnswerUsed(a: Article, body: string, title: string, summary: string, tags: seq<string>,
                         call: string -> Reply, parse: string -> Parsed)
    requires '`' !in body
    requires call(UserPrompt(a)) == Answered(Some(OpeningFence + "\n" + body + "\n" + Fence))
    requires parse(body) == JsonValue(Some(title), Some(summary), Some(tags))
    requires title != "" && summary != ""
    ensures ProcessOne(a, call, parse) == Processed(title, summary, tags)
  {
    var text := OpeningFence + "\n" + body + "\n" + Fence;
    assert text[0] == '`' && text[|text| - 1] == '`';
    TrimKeepsUnpadded(text);
    FencedJsonUnwrapped(body);
  }

  /** White space around a fenced answer is trimmed away before the fences
      are stripped, so the parser sees the bare body. */
  lemma PaddedFencedAnswer(pre: string, body: string, post: string)
    requires '`' !in body
    requires forall i :: 0 <= i < |pre| ==> IsJsSpace(pre[i])
    requires forall i :: 0 <= i < |post| ==> IsJsSpace(post[i])
    ensures CleanJson(pre + OpeningFence + "\n" + body + "\n" + Fence + post) == body
  {
    var inner := OpeningFence + "\n" + body + "\n" + Fence;
    assert pre + OpeningFence + "\n" + body + "\n" + Fence + post == pre + inner + post;
    assert inner[0] == '`' && inner[|inner| - 1] == '`';
    TrimDropsPadding(pre, inner, post);
    FencedJsonUnwrapped(body);
  }

  /** The `i`-th batch: `articles.slice(i, i + 5)`. */
  function Batch(articles: seq<Article>, i: nat): (b: seq<Article>)
    requires i < |articles|
    ensures 0 < |b| <= BatchSize && i + |b| <= |articles|
    ensures b == articles[i..i + |b|]
    ensures |b| < BatchSize ==> i + |b| == |articles|
  {
    if i + BatchSize <= |articles| then articles[i..i + BatchSize] else articles[i..]
  }

  /** The batches from position `i` on, in order. */
  function BatchesFrom(articles: seq<Article>, i: nat): seq<seq<Article>>
    decreases |articles| - i
  {
    if i >= |articles| then [] else [Batch(articles, i)] + BatchesFrom(articles, i + BatchSize)
  }

  /** The batches laid end to end are the articles from `i` on, and every
      batch but the last is full. */
  lemma {:induction false} BatchesCover(articles: seq<Article>, i: nat)
    ensures Flatten(BatchesFrom(articles, i)) == if i < |articles| then articles[i..] else []
    ensures forall j :: 0 <= j < |BatchesFrom(articles, i)| - 1 ==> |BatchesFrom(articles, i)[j]| == BatchSize
    decreases |articles| - i
  {
    if i < |articles| {
      var b := Batch(articles, i);
      var rest := BatchesFrom(articles, i + BatchSize);
      BatchesCover(articles, i + BatchSize);
      assert BatchesFrom(articles, i) == [b] + rest;
      assert ([b] + rest)[1..] == rest;
      if |b| < BatchSize {
        assert rest == [];
        assert b == articles[i..];
      } else {
        assert articles[i..] == b + (if i + BatchSize < |articles| then articles[i + BatchSize..] else []);
      }
      forall j | 0 <= j < |[b] + rest| - 1
        ensures |([b] + rest)[j]| == BatchSize
      {
        if j > 0 {
          assert ([b] + rest)[j] == rest[j - 1];
        }
      }
    }
  }

  /** All articles of one batch, processed concurrently; `Promise.all` keeps
      the order of the batch. */
  function ProcessBatch(batch: seq<Article>, call: string -> Reply, parse: string -> Parsed): (r: seq<Processed>)
    ensures |r| == |batch|
    ensures forall k :: 0 <= k < |r| ==> r[k] == ProcessOne(batch[k], call, parse)
  {
    seq(|batch|, k requires 0 <= k < |batch| => ProcessOne(batch[k], call, parse))
  }

  /** The batch loop from position `i` on: each batch's results are appended
      in turn. */
  function ProcessFrom(articles: seq<Article>, i: nat, call: string -> Reply, parse: string -> Parsed): seq<Processed>
    decreases |articles| - i
  {
    if i >= |articles| then []
    else ProcessBatch(Batch(articles, i), call, parse) + ProcessFrom(articles, i + BatchSize, call, parse)
  }

  /** Each batch of a batch sequence, processed. */
  function ProcessBatches(bs: seq<seq<Article>>, call: string -> Reply, parse: string -> Parsed): (r: seq<seq<Processed>>)
    ensures |r| == |bs|
  {
    if |bs| == 0 then [] else [ProcessBatch(bs[0], call, parse)] + ProcessBatches(bs[1..], call, parse)
  }

  /** The loop is the batch sequence processed batch by batch and appended:
      each iteration handles the next batch of `BatchesFrom`. */
  lemma {:induction false} ProcessFromFollowsBatches(articles: seq<Article>, i: nat,
                                                     call: string -> Reply, parse: string -> Parsed)
    ensures ProcessFrom(articles, i, call, parse) ==
              Flatten(ProcessBatches(BatchesFrom(articles, i), call, parse))
    decreases |articles| - i
  {
    if i < |articles| {
      var b := Batch(articles, i);
      var rest := BatchesFrom(articles, i + BatchSize);
      ProcessFromFollowsBatches(articles, i + BatchSize, call, parse);
      assert BatchesFrom(articles, i) == [b] + rest;
      assert ([b] + rest)[1..] == rest;
      var done := ProcessBatches([b] + rest, call, parse);
      assert done == [ProcessBatch(b, call, parse)] + ProcessBatches(rest, call, parse);
      assert done[1..] == ProcessBatches(rest, call, parse);
    }
  }

  /** Batching does not disturb the order: the `k`-th result belongs to the
      `k`-th article. */
  lemma {:induction false} ProcessFromAligned(articles: seq<Article>, i: nat, call: string -> Reply, parse: string -> Parsed)
    requires i <= |articles|
    ensures |ProcessFrom(articles, i, call, parse)| == |articles| - i
    ensures forall k :: i <= k < |articles| ==>
              ProcessFrom(articles, i, call, parse)[k - i] == ProcessOne(articles[k], call, parse)
    decreases |articles| - i
  {
    if i < |articles| {
      var b := Batch(articles, i);
      var next := i + |b|;
      var head := ProcessBatch(b, call, parse);
      if |b| == BatchSize {
        ProcessFromAligned(articles, next, call, parse);
      }
      var rest := ProcessFrom(articles, i + BatchSize, call, parse);
      assert |rest| == |articles| - next;
      forall k | i <= k < |articles|
        ensures (head + rest)[k - i] == ProcessOne(articles[k], call, parse)
      {
        if k < next {
          assert b[k - i] == articles[k];
        } else {
          assert (head + rest)[k - i] == rest[k - next];
        }
      }
    }
  }

  /** Everything the batch loop produces, one result per article. */
  function ProcessAll(articles: seq<Article>, call: string -> Reply, parse: string -> Parsed): (r: seq<Processed>)
    ensures |r| == |articles|
    ensures forall k :: 0 <= k < |articles| ==> r[k] == ProcessOne(articles[k], call, parse)
  {
    ProcessFromAligned(articles, 0, call, parse);
    ProcessFrom(articles, 0, call, parse)
  }

  /** The `articles` field of the request body: absent or otherwise falsy, a
      truthy value that is not an array, or an array of articles. */
  datatype ArticlesField = Falsy | NotArray | Items(articles: seq<Article>)

  /** The request body: one that `req.json()` or the destructuring rejects
      (with the error's message), or a parsed payload. */
  datatype Body = Malformed(message: string) | Payload(articles: ArticlesField)

  datatype Request = Request(verb: string, body: Body)

  datatype Response = Preflight | Ok(processedArticles: seq<Processed>) | Error(status: int, message: string) {
    function Status(): int {
      match this
      case Preflight => 200
      case Ok(_) => 200
      case Error(status, _) => status
    }
  }

  /** The usable articles of a body, if it has any. */
  predicate HasArticles(body: Body) {
    body.Payload? && body.articles.Items? && |body.articles.articles| > 0
  }

  /** The handler. `apiKey` is the configured key, if any; `call` is the
      model endpoint and `parse` is `JSON.parse`. */
  function Handle(req: Request, apiKey: Option<string>, call: string -> Reply, parse: string -> Parsed): (resp: Response)
    ensures req.verb == "OPTIONS" <==> resp.Preflight?
    ensures req.verb != "OPTIONS" && !Truthy(apiKey) ==> resp == Error(500, MissingKeyMessage)
    ensures resp.Error? && resp.status == 400 <==>
              req.verb != "OPTIONS" && Truthy(apiKey) && req.body.Payload? && !HasArticles(req.body)
    ensures resp.Error? ==> resp.status == 400 || resp.status == 500
    ensures resp.Error? && resp.status == 400 ==> resp.message == NoArticlesMessage
    ensures resp.Status() == 200 <==> resp.Preflight? || resp.Ok?
    ensures resp.Ok? <==> req.verb != "OPTIONS" && Truthy(apiKey) && HasArticles(req.body)
    ensures resp.Ok? ==> && |resp.processedArticles| == |req.body.articles.articles|
                         && forall k :: 0 <= k < |resp.processedArticles| ==>
                              resp.processedArticles[k] == ProcessOne(req.body.articles.articles[k], call, parse)
  {
    if req.verb == "OPTIONS" then Preflight
    else if !Truthy(apiKey) then Error(500, MissingKeyMessage)
    else match req.body
      case Malformed(message) => Error(500, message)
      case Payload(field) =>
        if HasArticles(req.body) then Ok(ProcessAll(field.articles, call, parse))
        else Error(400, NoArticlesMessage)
  }

  /** The checks come in a fixed order: a missing key is reported even for a
      body that is malformed or has no articles. */
  lemma KeyCheckedBeforeBody(req: Request, call: string -> Reply, parse: string -> Parsed)
    requires req.verb != "OPTIONS"
    ensures Handle(req, None, call, parse) == Error(500, MissingKeyMessage)
    ensures Handle(req, Some(""), call, parse) == Error(500, MissingKeyMessage)
  {
  }
}
