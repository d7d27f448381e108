/** The first image of an HTML fragment, found the way the regular expression
    /<img[^>]+src=["']([^"']+)["']/i finds it: the leftmost "<img" (in any
    case) that can complete a match decides, and because `[^>]+` is greedy and
    backtracks, the LAST "src=" inside that tag that has a quoted, non-empty
    value is the one captured. */
module ImageScan {
  import opened Wrappers
  import opened Strings

  predicate IsQuote(c: char) {
    c == '"' || c == '\''
  }

  /** `s` holds the lower-case pattern `pat` at `i`, ignoring ASCII case. */
  predicate CiAt(s: string, i: int, pat: string) {
    0 <= i && i + |pat| <= |s| && Lower(s[i..i + |pat|]) == pat
  }

  /** Where the run of characters other than '>' that starts at `j` ends. */
  function RunEnd(s: string, j: int): (e: int)
    requires 0 <= j <= |s|
    ensures j <= e <= |s|
    ensures forall k :: j <= k < e ==> s[k] != '>'
    ensures e < |s| ==> s[e] == '>'
    decreases |s| - j
  {
    if j == |s| || s[j] == '>' then j else RunEnd(s, j + 1)
  }

  /** Where the run of characters other than quotes that starts at `j` ends. */
  function QuoteEnd(s: string, j: int): (e: int)
    requires 0 <= j <= |s|
    ensures j <= e <= |s|
    ensures forall k :: j <= k < e ==> !IsQuote(s[k])
    ensures e < |s| ==> IsQuote(s[e])
    decreases |s| - j
  {
    if j == |s| || IsQuote(s[j]) then j else QuoteEnd(s, j + 1)
  }

  /** The value `src=["']([^"']+)["']` captures when matched at `q`: the whole
      run of non-quote characters after the opening quote, provided it is not
      empty and a closing quote follows it. */
  function SrcValueAt(s: string, q: int): (r: Option<string>)
    ensures r.Some? ==> |r.value| > 0 && forall k :: 0 <= k < |r.value| ==> !IsQuote(r.value[k])
  {
    if CiAt(s, q, "src=") && q + 4 < |s| && IsQuote(s[q + 4]) then
      var e := QuoteEnd(s, q + 5);
      if q + 5 < e < |s| then Some(s[q + 5..e]) else None
    else None
  }

  /** The regular expression matches with "<img" at `p` and "src=" at `q`:
      `[^>]+` covers the one or more characters between them. */
  predicate MatchAt(s: string, p: int, q: int) {
    && CiAt(s, p, "<img")
    && p + 5 <= q <= RunEnd(s, p + 4)
    && SrcValueAt(s, q).Some?
  }

  /** What the engine returns when it starts looking at `from`: nothing when no
      match starts there or later; otherwise the capture of the leftmost tag,
      taken at that tag's rightmost possible "src=". */
  ghost predicate RegexOutcome(s: string, from: int, r: Option<string>) {
    match r
    case None => forall p, q :: from <= p ==> !MatchAt(s, p, q)
    case Some(v) =>
      exists p, q ::
        && from <= p
        && MatchAt(s, p, q)
        && SrcValueAt(s, q) == Some(v)
        && (forall p', q' :: from <= p' < p ==> !MatchAt(s, p', q'))
        && (forall q' :: q < q' ==> !MatchAt(s, p, q'))
  }

  /** Tries `src=` positions from `q` down to `lo`, as backtracking `[^>]+`
      gives them up. */
  function LastSrc(s: string, lo: int, q: int): (r: Option<string>)
    ensures r.Some? ==> exists k :: lo <= k <= q && SrcValueAt(s, k) == r
                                   && forall k' :: k < k' <= q ==> SrcValueAt(s, k').None?
    ensures r.None? ==> forall k :: lo <= k <= q ==> SrcValueAt(s, k).None?
    decreases q - lo
  {
    if q < lo then None
    else if SrcValueAt(s, q).Some? then SrcValueAt(s, q)
    else LastSrc(s, lo, q - 1)
  }

  /** The engine's scan from position `p` onwards. */
  function ScanFrom(s: string, p: int): (r: Option<string>)
    requires 0 <= p <= |s|
    ensures RegexOutcome(s, p, r)
    decreases |s| - p
  {
    if p == |s| then None
    else if CiAt(s, p, "<img") && LastSrc(s, p + 5, RunEnd(s, p + 4)).Some? then
      var v := LastSrc(s, p + 5, RunEnd(s, p + 4)).value;
      TagDecides(s, p, v);
      Some(v)
    else
      var rest := ScanFrom(s, p + 1);
      NoMatchAt(s, p);
      rest
  }

  /** A position whose tag is missing or whose backward search finds nothing
      starts no match. */
  lemma NoMatchAt(s: string, p: int)
    requires 0 <= p < |s|
    requires !(CiAt(s, p, "<img") && LastSrc(s, p + 5, RunEnd(s, p + 4)).Some?)
    ensures forall q :: !MatchAt(s, p, q)
  {
  }

  /** A tag at `p` whose backward search finds a value decides the outcome. */
  lemma TagDecides(s: string, p: int, v: string)
    requires 0 <= p && CiAt(s, p, "<img") && LastSrc(s, p + 5, RunEnd(s, p + 4)) == Some(v)
    ensures RegexOutcome(s, p, Some(v))
  {
    var e := RunEnd(s, p + 4);
    var q :| p + 5 <= q <= e && SrcValueAt(s, q) == Some(v)
             && forall k' :: q < k' <= e ==> SrcValueAt(s, k').None?;
    assert MatchAt(s, p, q);
  }

  /** `extractImageFromHtml`: the captured URL, or none. A returned URL is never
      empty and contains no quote character. */
  function ExtractImageFromHtml(html: string): (r: Option<string>)
    ensures RegexOutcome(html, 0, r)
    ensures r.Some? ==> |r.value| > 0 && forall k :: 0 <= k < |r.value| ==> !IsQuote(r.value[k])
    ensures r.None? <==> forall p, q :: !MatchAt(html, p, q)
  {
    ScanFrom(html, 0)
  }

  /** Without an "<img" anywhere there is no image. */
  lemma NoTagNoImage(html: string)
    requires forall p :: !CiAt(html, p, "<img")
    ensures ExtractImageFromHtml(html) == None
  {
  }

  /** A capture is the text right after the opening quote. */
  lemma CaptureOccurs(s: string, q: int)
    requires SrcValueAt(s, q).Some?
    ensures OccursAt(s, SrcValueAt(s, q).value, q + 5)
  {
  }

  /** The capture is an infix of the fragment, so an image URL only comes from
      the fragment's own text. */
  lemma ImageIsInfix(html: string)
    requires ExtractImageFromHtml(html).Some?
    ensures Includes(html, ExtractImageFromHtml(html).value)
  {
    var r := ExtractImageFromHtml(html);
    assert RegexOutcome(html, 0, r);
    var p, q :| 0 <= p && MatchAt(html, p, q) && SrcValueAt(html, q) == r;
    CaptureOccurs(html, q);
  }

  /** The backward search stops at the last position with a value. */
  lemma {:induction false} LastSrcFinds(s: string, lo: int, q: int, k: int)
    requires lo <= k <= q && SrcValueAt(s, k).Some?
    requires forall k' :: k < k' <= q ==> SrcValueAt(s, k').None?
    ensures LastSrc(s, lo, q) == SrcValueAt(s, k)
    decreases q - lo
  {
    if k < q {
      assert SrcValueAt(s, q).None?;
      LastSrcFinds(s, lo, q - 1, k);
      assert LastSrc(s, lo, q) == LastSrc(s, lo, q - 1);
    } else {
      assert LastSrc(s, lo, q) == SrcValueAt(s, q);
    }
  }

  /** Greediness in action: of two "src=" attributes in one tag, the later one
      (here a lazy-loading `data-src`) is captured. */
  lemma LaterSrcWins(html: string)
    requires html == "<img src=\"a\" data-src=\"b\">"
    ensures ExtractImageFromHtml(html) == Some("b")
  {
    ExampleTag(html);
    ExampleRunEnd(html);
    ExampleDataSrc(html);
    ExampleNothingLater(html);
    LastSrcFinds(html, 5, 25, 18);
  }

  lemma ExampleTag(html: string)
    requires html == "<img src=\"a\" data-src=\"b\">"
    ensures CiAt(html, 0, "<img")
  {
    assert html[0..4] == "<img";
  }

  lemma ExampleRunEnd(html: string)
    requires html == "<img src=\"a\" data-src=\"b\">"
    ensures RunEnd(html, 4) == 25
  {
    assert |html| == 26 && html[25] == '>';
    assert '>' !in html[4..25];
    assert forall k :: 4 <= k < 25 ==> html[k] == html[4..25][k - 4];
  }

  lemma ExampleDataSrc(html: string)
    requires html == "<img src=\"a\" data-src=\"b\">"
    ensures SrcValueAt(html, 18) == Some("b")
  {
    assert html[18..22] == "src=";
    assert html[22] == '"' && html[23] == 'b' && html[24] == '"';
    assert QuoteEnd(html, 24) == 24;
    assert QuoteEnd(html, 23) == 24;
    assert html[23..24] == "b";
  }

  lemma ExampleNothingLater(html: string)
    requires html == "<img src=\"a\" data-src=\"b\">"
    ensures forall k :: 18 < k <= 25 ==> SrcValueAt(html, k).None?
  {
    forall k | 18 < k <= 25
      ensures SrcValueAt(html, k).None?
    {
      if k + 4 <= |html| {
        assert html[k] != 's' && html[k] != 'S';
        NoSrcAt(html, k);
      }
    }
  }

  /** "src=" cannot start at a character other than 's' or 'S'. */
  lemma NoSrcAt(s: string, k: int)
    requires 0 <= k < |s| && s[k] != 's' && s[k] != 'S'
    ensures !CiAt(s, k, "src=")
  {
    if k + 4 <= |s| {
      assert Lower(s[k..k + 4])[0] == LowerChar(s[k]);
    }
  }
}
