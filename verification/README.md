# Pixel Pulse core, modelled in Dafny

Pixel Pulse is a gaming dashboard. It shows news from four RSS feeds and live and upcoming esports matches from PandaScore. A server-side edge function rewrites articles with a language model. This project models the pure logic inside that I/O and proves what it promises:

- **Esports matches** (`PandaScore`). The game-label table, the score text, and the normalisation of a raw match:
  - team names default to "TBD";
  - scores are looked up by team id, defaulting to 0;
  - the stream prefers a main English stream, then any main stream.

  The fetchers keep only matches with at least two opponents.
- **News items** (`Category`, `ImageScan`, `GamingNews`, `Sorting`):
  - the keyword cascade that picks a category;
  - the regular expression that finds the first image in HTML;
  - the mapping of an RSS entry to a news item (image chain, 400-character summary, author default);
  - per-feed truncation to five entries;
  - the initial load and the refresh of the news state, including the newest-first stable sort.
- **Article processing** (`ProcessArticle`, `Fences`):
  - request validation in its fixed order;
  - the loop over batches of five;
  - the per-article fallback and merge rules;
  - the 2000-character cut of the prompt;
  - the regular expression that strips Markdown code fences.
- **Relative dates** (`NewsCard`). The four hour buckets of `formatDate`.

Everything that talks to the outside world is a parameter:

- the HTTP replies of PandaScore and rss2json;
- the model call and `JSON.parse`;
- `stripHtml` (a DOM parser);
- the clock, the timestamp parser and the locale date formatter;
- the configured API keys;
- the bundled offline news.

The shared modules are `Wrappers` (Option, Result, JavaScript truthiness for strings), `Strings` (decimal rendering and parsing, ASCII lower case, `includes`, `trim`) and `Sequences` (`find`, `filter`, `flat`, `slice(0, n)`).

## Model

| member | source | states |
|---|---|---|
| PandaScore.GetGameLabel | src/lib/pandascore.ts:36-48 | a name outside the table passes through unchanged; a label is never longer than the name and is a fixed point of the table |
| PandaScore.GameLabelIdempotent | src/lib/pandascore.ts:46-48 | labelling a label changes nothing |
| PandaScore.GameLabelExamples | src/lib/pandascore.ts:36-48 | each of the seven table entries gives its table value ("Counter-Strike 2" is "CS2", "Dota 2" stays "Dota 2", …), and "Rocket League", which is not in the table, passes through |
| PandaScore.MatchScoreRoundTrip | src/lib/pandascore.ts:50-52 | the score text determines both scores: splitting at " - " and parsing the decimals gives them back, negative ones included |
| PandaScore.MatchScoreExamples | src/lib/pandascore.test.ts:80-86 | (2, 1) is "2 - 1" and (0, 0) is "0 - 0" |
| PandaScore.TransformMatch | src/lib/pandascore.ts:56-81 | id, status, start, game and tournament are copied; the label is the game's label; missing opponents give "TBD" and score 0; the stream URL belongs to a main stream, and it is absent exactly when no stream is main |
| PandaScore.ScoreForMeetsResults | src/lib/pandascore.ts:61-62 | the score is that of the first result carrying the team's id, and 0 when no result does or the team is missing |
| PandaScore.TransformMatchScores | src/lib/pandascore.ts:59-62 | both scores are looked up by the ids of opponents 0 and 1 |
| PandaScore.TransformMatchStream | src/lib/pandascore.ts:63-79 | the first main English stream wins; without one, the first main stream wins |
| PandaScore.TransformMatchExamples | src/lib/pandascore.test.ts:30-65 | the unit-test match gives FaZe Clan 2 : 1 NaVi with its Twitch stream; no streams gives no URL; no opponents gives "TBD" twice |
| PandaScore.KeepPlayable | src/lib/pandascore.ts:99-101 | one normalised match per kept input in order, with the two opponents' names as teams |
| PandaScore.KeepPlayableSelection | src/lib/pandascore.ts:110-113 | a match is kept exactly when it has at least two opponents; keeping distributes over concatenation, so input order is preserved |
| Sequences.FilterMembers | src/lib/pandascore.ts:99-101 | an element survives `filter` exactly when it was in the input and passes the test |
| PandaScore.FetchMatches | src/lib/pandascore.ts:85-101 | no key is an error before any request; with a key, no answer is a network failure, a non-2xx status an HTTP error with that status, an undecodable body a body error, and a 2xx decodable body exactly the kept matches |
| PandaScore.HttpErrorNamesStatus | src/lib/pandascore.ts:97 | the message of the thrown HTTP error determines the status it names |
| Category.Category.Name | src/hooks/useGamingNews.ts:28-36 | the category is one of the six names |
| Category.Classify | src/hooks/useGamingNews.ts:30-35 | a rule-table classifier: the first rule whose keyword is present decides, else the default |
| Category.InferCategoryFollowsRules | src/hooks/useGamingNews.ts:28-36 | the hard-wired cascade equals the rule-table classifier on every title and content |
| Category.InferCategoryPriority | src/hooks/useGamingNews.ts:30-35 | a present keyword of rule i yields rule i's category or an earlier one; "RPG" exactly when no keyword is present |
| Category.ClassifyEarlier | src/hooks/useGamingNews.ts:30-35 | for any rule table, a present keyword of rule i yields the category of rule i or of an earlier rule |
| Category.ClassifyDefault | src/hooks/useGamingNews.ts:30-35 | for any rule table whose rules never name the default, the default comes out exactly when no rule's keyword is present |
| Category.InferCategoryIgnoresCase | src/hooks/useGamingNews.ts:29 | lower-casing title or content first changes nothing |
| Category.EarlierRuleWins | src/hooks/useGamingNews.ts:30-31 | "PS5 and Xbox" is PlayStation |
| Category.KeywordAcrossJoin | src/hooks/useGamingNews.ts:29-31 | title "Game" and content "Pass" give Xbox, because of the joining space |
| Category.UpcomingReadsAsPC | src/hooks/useGamingNews.ts:32 | a title "Upcoming" is PCGaming, because "pc" occurs inside it |
| ImageScan.ScanFrom | src/hooks/useGamingNews.ts:23 | the scan returns what the regular expression matches from a position on: the leftmost tag that can match, at its last possible "src=" |
| ImageScan.LastSrcFinds | src/hooks/useGamingNews.ts:23 | backtracking from the end of the tag stops at the last "src=" with a quoted value |
| ImageScan.ExtractImageFromHtml | src/hooks/useGamingNews.ts:22-25 | the leftmost-match outcome of the expression; a URL is non-empty and quote-free; none exactly when no tag and "src=" pair matches |
| ImageScan.NoTagNoImage | src/hooks/useGamingNews.ts:23-24 | without "<img" in any case there is no image |
| ImageScan.ImageIsInfix | src/hooks/useGamingNews.ts:23-24 | the URL is a piece of the HTML's own text |
| ImageScan.LaterSrcWins | src/hooks/useGamingNews.ts:23 | in `<img src="a" data-src="b">` the greedy `[^>]+` makes "b" the capture |
| Sorting.InsertNewest | src/hooks/useGamingNews.ts:114-116 | insertion adds exactly one element and keeps newest-first order |
| Sorting.SortNewestFirst | src/hooks/useGamingNews.ts:114-116 | the result is a permutation of the input, newest first |
| Sorting.SortIsStable | src/hooks/useGamingNews.ts:140-142 | items with equal times keep their input order, as the built-in sort guarantees |
| Sorting.SortKeepsSorted | src/hooks/useGamingNews.ts:114-116 | input that is already newest first is unchanged |
| GamingNews.PickImage | src/hooks/useGamingNews.ts:67-71 | the first non-empty of the enclosure link, the thumbnail and the extracted image, else the fallback image; never empty |
| GamingNews.Summary | src/hooks/useGamingNews.ts:74-79 | 1 to 400 characters: a prefix of the stripped description, or the placeholder when that is empty |
| GamingNews.ToNewsItem | src/hooks/useGamingNews.ts:63-87 | id, title, link, timestamp and source carried over; the category is inferred from title and the content (else the description); image and summary as above; a truthy author is kept, otherwise "Staff Writer"; no tags and no likes |
| GamingNews.FetchFeed | src/hooks/useGamingNews.ts:55-92 | a rejected, non-ok or non-"ok" reply gives no items; otherwise the first min(n, 5) entries are mapped in order |
| GamingNews.PerFeed | src/hooks/useGamingNews.ts:55-106 | one result per configured feed, in configuration order; each feed contributes at most five items, all carrying that feed's source name |
| GamingNews.LoadNews | src/hooks/useGamingNews.ts:101-128 | nothing fetched gives the offline news, the error message and the fallback flag; otherwise a newest-first permutation (the stable sort of the items, so `SortIsStable` applies to it), no error and no fallback |
| GamingNews.RefreshNews | src/hooks/useGamingNews.ts:133-152 | nothing fetched leaves the state as it was apart from loading; otherwise news (the stable newest-first sort of the items), error and fallback are all replaced |
| GamingNews.FallbackIffEveryFeedEmpty | src/hooks/useGamingNews.ts:106-124 | the initial load falls back exactly when every feed yields nothing |
| GamingNews.EveryFeedItemShown | src/hooks/useGamingNews.ts:106-117 | every item any feed delivers is among the news the initial load publishes |
| GamingNews.ItemIdDetermines | src/hooks/useGamingNews.ts:77 | with sources free of '-', an id determines its source and index whatever the clock read, so ids within one fetch are distinct |
| Fences.StripFences | supabase/functions/process-article/index.ts:101 | never longer than the input; what each alternative removes, and the order in which they are tried, is stated by the lemmas below |
| Fences.NoFenceUnchanged | supabase/functions/process-article/index.ts:101 | text without "```" is unchanged |
| Fences.ClosingFenceRemoved | supabase/functions/process-article/index.ts:101 | a closing fence on its own line goes together with its newline |
| Fences.FencedJsonUnwrapped | supabase/functions/process-article/index.ts:100-101 | "```json\n" + body + "\n```" becomes body for a body without backticks |
| Fences.BareFenceRemoved | supabase/functions/process-article/index.ts:101 | a bare "```" with no newline before it and no "json" after it is removed on its own, leaving the text on both sides |
| Fences.InlineFencedJsonUnwrapped | supabase/functions/process-article/index.ts:101 | "```json" + body + "```" becomes body when the body has no backticks and neither starts nor ends with a newline |
| Fences.InlineFenceExample | supabase/functions/process-article/index.ts:101 | "```json{}```" becomes "{}" |
| Fences.NewlineBeforeOpeningFence | supabase/functions/process-article/index.ts:101 | "\n```json{}" becomes "json{}": the "\n```" alternative matches first |
| ProcessArticle.UserPrompt | supabase/functions/process-article/index.ts:82 | the prompt carries title, source and at most 2000 characters of content |
| ProcessArticle.CleanJson | supabase/functions/process-article/index.ts:95-101 | never longer than the answer; an answer without backticks is only trimmed |
| ProcessArticle.Classify | supabase/functions/process-article/index.ts:88-113 | a failed call or a `null` parse ends in the outer handler; missing content or unparsable JSON ends in the parse handler; anything else is the parsed answer |
| ProcessArticle.Resolve | supabase/functions/process-article/index.ts:103-126 | call failure gives title, 100 characters + "..." and no tags; parse failure gives title, 300 characters + "..." and no tags; otherwise a truthy parsed title and summary win, and the defaults are the article title and its first 100 characters without ellipsis; tags only from an answer |
| ProcessArticle.ProcessOne | supabase/functions/process-article/index.ts:51-127 | a failed call yields the call-failure fallback; a non-empty title stays non-empty; tags only come from an answer |
| ProcessArticle.TailIgnored | supabase/functions/process-article/index.ts:82 | content beyond the first 2000 characters cannot change an article's result |
| ProcessArticle.FencedAnswerUsed | supabase/functions/process-article/index.ts:95-119 | a fenced JSON answer with a title and a summary is used as given |
| ProcessArticle.PaddedFencedAnswer | supabase/functions/process-article/index.ts:95-101 | white space around a fenced answer is trimmed before the fences are stripped, so the parser sees the bare body |
| ProcessArticle.Batch | supabase/functions/process-article/index.ts:47-48 | a batch is the slice [i, i+5) of the articles, one to five long, short only at the end |
| ProcessArticle.BatchesCover | supabase/functions/process-article/index.ts:44-48 | the batches laid end to end are exactly the articles, and all but the last are full |
| ProcessArticle.ProcessFromFollowsBatches | supabase/functions/process-article/index.ts:46-131 | the loop's output is the batches of `BatchesFrom`, each processed, appended in order |
| ProcessArticle.ProcessFromAligned | supabase/functions/process-article/index.ts:47-132 | the appended batch results are aligned index for index with the articles |
| ProcessArticle.ProcessAll | supabase/functions/process-article/index.ts:43-132 | result k is the processing of article k, and there are as many results as articles |
| ProcessArticle.Handle | supabase/functions/process-article/index.ts:20-148 | OPTIONS is answered first; a missing key is a 500; a 400 with "No articles provided" is returned exactly when the body parses but has no usable articles; success exactly with a key and a non-empty article array, aligned with it |
| ProcessArticle.KeyCheckedBeforeBody | supabase/functions/process-article/index.ts:27-39 | a missing or empty key is reported whatever the body holds |
| NewsCard.DiffInHours | src/components/NewsCard.tsx:10-12 | the hours are the floor of the elapsed milliseconds over 3,600,000 |
| NewsCard.Bucket | src/components/NewsCard.tsx:14-17 | below 1 hour "Just now", 1 to 23 hours ago, 24 to 47 yesterday, 48 and more the date; the buckets are disjoint and exhaustive; an unparsable date takes the date branch |
| NewsCard.FormatDate | src/components/NewsCard.tsx:9-18 | the text of each bucket, "{h}h ago" with the decimal hour count, and "Invalid Date" for an unparsable date |
| NewsCard.FutureIsJustNow | src/components/NewsCard.tsx:14 | a date in the future reads "Just now" |
| NewsCard.DiffGrowsWithNow | src/components/NewsCard.tsx:12 | the hour count does not decrease as the clock advances |
| NewsCard.LabelsMoveForward | src/components/NewsCard.tsx:14-17 | as the clock advances the label only moves forward (Just now, hours, Yesterday, date), and the hour count never decreases |
| NewsCard.HourLabelsDistinct | src/components/NewsCard.tsx:15 | two "{h}h ago" texts are equal only for equal hour counts |
| NewsCard.HoursReadBack | src/components/NewsCard.tsx:15 | the number in "{h}h ago" parses back to the hour count |
| Strings.IntDecimalRoundTrip | src/lib/pandascore.ts:51 | the decimal text of an integer parses back to it |
| Strings.Includes | src/hooks/useGamingNews.ts:30-34 | `includes` holds exactly when the keyword occurs at some index |
| Strings.Trim | supabase/functions/process-article/index.ts:95 | trimming removes white space around an infix that neither starts nor ends with white space |
| Strings.TrimDropsPadding | supabase/functions/process-article/index.ts:95 | white space around text with non-white ends is exactly what trimming removes |
| Sequences.Take | src/hooks/useGamingNews.ts:74 | `slice(0, n)` is the prefix of length n, or the whole text when it is shorter |

## Left out

- Network I/O. This covers `fetch` to PandaScore, rss2json and the AI gateway, and `response.json()`. Each is a parameter returning a reply datatype; URL encoding of the feed address is not modelled.
- Concurrency. `Promise.all` is modelled as an order-preserving sequential map. Results do not depend on completion order.
- HTML stripping. `stripHtml` uses the browser's DOM parser and is an uninterpreted `string -> string` parameter.
- Date parsing. `new Date(...)` is a parameter: a total `string -> int` for sorting, and `Option<int>` for `formatDate`. The order the sort gives to unparsable timestamps (NaN comparisons) is not modelled.
- Locale date text. `toLocaleDateString` is an opaque parameter applied to the parsed date.
- Date.now. `Date.now()` in item ids is the `clock` parameter, read per feed and entry index.
- `JSON.parse`. It is a parameter returning `NotJson`, `JsonNull` or a value with optional string fields and an optional string array. Truthy non-string titles and summaries, and arrays of non-strings, are not modelled.
- Malformed articles. An article is always three strings here. In the source, an article without `content` throws when its prompt is built and again inside the per-article fallback, so the whole request ends in a 500 with that error's message. An article without `title` yields an undefined `processedTitle` on the call-failure and parse-failure paths and whenever the answer carries no truthy title; a truthy parsed title is still returned. An article without `source` puts the text "undefined" into the prompt. None of these cases is modelled.
- Environment, logging and headers. `Deno.env`, `import.meta.env`, logging, CORS headers and the system prompt text are left out. The keys are `Option<string>` parameters.
- The AI request body. The model name and the JSON body layout of the AI request are left out; only the user prompt, which carries the article, is modelled.
- ProcessArticle.ProcessOne: the model call is a function of the prompt text alone, so two articles with the same title, source and first 2000 characters of content always get the same reply; the real model is not deterministic.
- React machinery. State and effects, the `useEsportsScores` polling configuration, the tag filter context and every UI component are left out. The hook's state is a `NewsState` value, and initial load and refresh are functions on it.
- Offline news. `INITIAL_NEWS` is the parameter `offline`.
- PandaScore.GetGameLabel: names that are keys of `Object.prototype` (such as "constructor") would return a function from the table lookup. This is not modelled.
- Strings.IntToDecimal: JavaScript renders numbers of 1e21 and more in exponent notation, and scores and hours are doubles. Here all are unbounded integers in plain decimal.
- Strings.Lower: `toLowerCase` maps all of Unicode. Only ASCII letters are lowered here, so non-ASCII keywords or text with, for example, the Kelvin sign are not modelled.
- Characters are UTF-16 code units in the source and Dafny `char`s here. Lengths and slices agree for text in the Basic Multilingual Plane.
- The thrown error's message. A request body that fails `req.json()` gets a 500 carrying the parser's message, which is a parameter of `Malformed`.
