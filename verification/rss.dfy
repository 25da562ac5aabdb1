/** Trend-feed ingestion (lib/rss.ts): the hot-score formula, the per-source
    item parsers, the "collect parsed items up to a limit" feed loop, the
    Hacker News top-story filter and the per-source-type dispatch. The RSS
    library, `fetch` and `JSON` are replaced by a `Network` value holding what
    they would return. */
module Rss {
  import opened Wrappers
  import JsText
  import JsArray

  datatype SourceType = HackerNews | Reddit | ProductHunt | Github | Other

  /** When an item was published: the feed's date text (`new Date(text)`,
      whose parsing is not modelled) or a Unix time in seconds. */
  datatype Published = FromText(text: string) | FromUnixSeconds(seconds: int)

  /** A normalised trend item. */
  datatype ParsedItem = ParsedItem(title: string, url: string, publishedAt: Published,
                                   score: int, commentCount: int)

  /** Why fetching a feed failed; the messages are those the failing call threw. */
  datatype FetchError =
    | RssFetchFailed(message: string)
    | HackerNewsFetchFailed(message: string)
    | NotImplemented(sourceType: SourceType)

  // ---------------------------------------------------------------------------
  // Hot score

  /** Ranking value: 0.6 * score + 0.4 * commentCount. */
  function HotScore(score: int, commentCount: int): (h: real)
    ensures 5.0 * h == 3.0 * score as real + 2.0 * commentCount as real
  {
    score as real * 0.6 + commentCount as real * 0.4
  }

  /** The hot score is 0 for an item with no score and no comments, and never
      decreases when either input grows while the other stays put. */
  lemma HotScoreMonotone(s1: int, c1: int, s2: int, c2: int)
    requires s1 <= s2 && c1 <= c2
    ensures HotScore(0, 0) == 0.0
    ensures HotScore(s1, c1) <= HotScore(s2, c2)
    ensures (s1 < s2 || c1 < c2) ==> HotScore(s1, c1) < HotScore(s2, c2)
  {
  }

  // ---------------------------------------------------------------------------
  // Points text

  /** `\d` in an ECMAScript regular expression: ASCII digits only. */
  predicate IsDigit(c: char) { '0' as int <= c as int <= '9' as int }

  predicate HasDigit(s: string) { exists k :: 0 <= k < |s| && IsDigit(s[k]) }

  /** `s[i..j]` is the first maximal run of digits in `s`. */
  predicate FirstDigitRun(s: string, i: int, j: int) {
    && 0 <= i < j <= |s|
    && (forall k :: 0 <= k < i ==> !IsDigit(s[k]))
    && (forall k :: i <= k < j ==> IsDigit(s[k]))
    && (j == |s| || !IsDigit(s[j]))
  }

  function DigitValue(c: char): (v: nat)
    requires IsDigit(c)
    ensures v <= 9
  {
    c as int - '0' as int
  }

  /** The value of a string of decimal digits (`parseInt(d, 10)`). */
  function DecimalValue(d: string): nat
    requires forall k :: 0 <= k < |d| ==> IsDigit(d[k])
  {
    if |d| == 0 then 0
    else DecimalValue(d[..|d| - 1]) * 10 + DigitValue(d[|d| - 1])
  }

  /** Index of the first digit of `s` at or after `i`, or `|s|`. */
  function FirstDigitFrom(s: string, i: nat): (k: nat)
    requires i <= |s|
    ensures i <= k <= |s|
    ensures forall m :: i <= m < k ==> !IsDigit(s[m])
    ensures k < |s| ==> IsDigit(s[k])
    decreases |s| - i
  {
    if i == |s| || IsDigit(s[i]) then i else FirstDigitFrom(s, i + 1)
  }

  /** End of the digit run of `s` that starts at or before `i`. */
  function DigitRunEnd(s: string, i: nat): (j: nat)
    requires i <= |s|
    ensures i <= j <= |s|
    ensures forall m :: i <= m < j ==> IsDigit(s[m])
    ensures j == |s| || !IsDigit(s[j])
    decreases |s| - i
  {
    if i < |s| && IsDigit(s[i]) then DigitRunEnd(s, i + 1) else i
  }

  /** `extractHNPoints`: 0 for missing or empty text or text without a digit,
      otherwise the value of the first maximal run of digits. */
  function ExtractHNPoints(points: Option<string>): (n: nat)
    ensures points.None? || !HasDigit(points.value) ==> n == 0
    ensures points.Some? && HasDigit(points.value) ==>
              exists i, j :: FirstDigitRun(points.value, i, j) && n == DecimalValue(points.value[i..j])
  {
    match points
    case None => 0
    case Some(s) =>
      if s == [] then 0
      else
        var i := FirstDigitFrom(s, 0);
        if i == |s| then 0
        else
          var j := DigitRunEnd(s, i);
          assert FirstDigitRun(s, i, j);
          DecimalValue(s[i..j])
  }

  /** The first maximal digit run of a string is unique. */
  lemma FirstDigitRunUnique(s: string, i: int, j: int, i': int, j': int)
    requires FirstDigitRun(s, i, j) && FirstDigitRun(s, i', j')
    ensures i == i' && j == j'
  {
    assert IsDigit(s[i]) && IsDigit(s[i']);
    assert j < |s| ==> !IsDigit(s[j]);
    assert j' < |s| ==> !IsDigit(s[j']);
  }

  /** The decimal text of a natural number, most significant digit first. */
  function DecimalText(n: nat): (d: string)
    ensures |d| >= 1
    ensures forall k :: 0 <= k < |d| ==> IsDigit(d[k])
  {
    var last := [('0' as int + n % 10) as char];
    if n < 10 then last else DecimalText(n / 10) + last
  }

  /** Reading back the decimal text of `n` gives `n`. */
  lemma {:induction false} DecimalValueOfText(n: nat)
    ensures DecimalValue(DecimalText(n)) == n
  {
    var d := DecimalText(n);
    if n >= 10 {
      DecimalValueOfText(n / 10);
      assert d[..|d| - 1] == DecimalText(n / 10);
    }
  }

  /** Points text such as "123 points" yields the number it starts with. */
  lemma ExtractHNPointsOfText(n: nat, suffix: string)
    requires suffix == [] || !IsDigit(suffix[0])
    ensures ExtractHNPoints(Some(DecimalText(n) + suffix)) == n
  {
    var d := DecimalText(n);
    var s := d + suffix;
    assert FirstDigitRun(s, 0, |d|);
    assert s[0..|d|] == d;
    assert HasDigit(s) by { assert IsDigit(s[0]); }
    var i, j :| FirstDigitRun(s, i, j) && ExtractHNPoints(Some(s)) == DecimalValue(s[i..j]);
    FirstDigitRunUnique(s, i, j, 0, |d|);
    DecimalValueOfText(n);
  }

  // ---------------------------------------------------------------------------
  // RSS item parsers

  /** One raw RSS item as the feed library delivers it. */
  datatype RawRssItem = RawRssItem(title: Option<string>, link: Option<string>,
                                   pubDate: Option<string>, isoDate: Option<string>,
                                   comments: Option<string>)

  /** A string field is truthy when present and non-empty. */
  predicate Truthy(f: Option<string>) { f.Some? && f.value != [] }

  /** `item.pubDate || item.isoDate`, as an absent value when both are falsy. */
  function PublishedText(item: RawRssItem): (d: Option<string>)
    ensures d.Some? <==> Truthy(item.pubDate) || Truthy(item.isoDate)
    ensures d.Some? ==> d.value != [] && (d == item.pubDate || d == item.isoDate)
    ensures Truthy(item.pubDate) ==> d == item.pubDate
  {
    if Truthy(item.pubDate) then item.pubDate
    else if Truthy(item.isoDate) then item.isoDate
    else None
  }

  /** The item lacks a title or link with non-space text, or both dates. */
  predicate MissingRequired(item: RawRssItem) {
    || item.title.None? || JsText.AllSpace(item.title.value)
    || item.link.None? || JsText.AllSpace(item.link.value)
    || (!Truthy(item.pubDate) && !Truthy(item.isoDate))
  }

  /** Trimmed title, trimmed link and date text, or nothing when any is falsy. */
  function RequiredFields(item: RawRssItem): (f: Option<(string, string, string)>)
    ensures f.None? <==> MissingRequired(item)
    ensures f.Some? ==> f.value == (JsText.Trim(item.title.value), JsText.Trim(item.link.value),
                                   PublishedText(item).value)
  {
    var title := if item.title.Some? then JsText.Trim(item.title.value) else "";
    var url := if item.link.Some? then JsText.Trim(item.link.value) else "";
    assert (title == []) == (item.title.None? || JsText.AllSpace(item.title.value)) by {
      if item.title.Some? { JsText.TrimEmptyIffAllSpace(item.title.value); }
    }
    assert (url == []) == (item.link.None? || JsText.AllSpace(item.link.value)) by {
      if item.link.Some? { JsText.TrimEmptyIffAllSpace(item.link.value); }
    }
    if title == [] || url == [] || PublishedText(item).None? then None
    else Some((title, url, PublishedText(item).value))
  }

  /** The item parser of a configured RSS source. */
  datatype FeedParser = HackerNewsRss | RedditInsightsRss

  /** `parseItem`: null exactly when a required field is missing; otherwise the
      trimmed title and link with the source's placeholder score and comment
      count (Hacker News: score 1, one comment when a comments link is given;
      Reddit Insights: score 10, no comments). */
  function ParseItem(parser: FeedParser, item: RawRssItem): (r: Option<ParsedItem>)
    ensures r.None? <==> MissingRequired(item)
    ensures r.Some? ==> && r.value.title == JsText.Trim(item.title.value)
                        && r.value.url == JsText.Trim(item.link.value)
                        && r.value.title != [] && r.value.url != []
                        && r.value.publishedAt == FromText(PublishedText(item).value)
    ensures r.Some? && parser == HackerNewsRss ==>
              r.value.score == 1 && r.value.commentCount == (if Truthy(item.comments) then 1 else 0)
    ensures r.Some? && parser == RedditInsightsRss ==> r.value.score == 10 && r.value.commentCount == 0
  {
    match RequiredFields(item)
    case None => None
    case Some((title, url, date)) =>
      match parser
      case HackerNewsRss =>
        Some(ParsedItem(title, url, FromText(date), 1, if Truthy(item.comments) then 1 else 0))
      case RedditInsightsRss =>
        Some(ParsedItem(title, url, FromText(date), 10, 0))
  }

  /** A configured RSS source. */
  datatype SourceConfig = SourceConfig(name: string, sourceType: SourceType, rssUrl: string,
                                       parser: FeedParser)

  const HackerNewsSource := SourceConfig("Hacker News", HackerNews, "https://news.ycombinator.com/rss",
                                         HackerNewsRss)
  const RedditInsightsSource :=
    SourceConfig("Reddit Insights", Reddit,
                 "https://www.reddit-insights.com/topic/marketing-opportunities/rss.xml",
                 RedditInsightsRss)

  // ---------------------------------------------------------------------------
  // Feed loop

  /** The parse of one item as zero or one items. */
  function ParsedHead(parser: FeedParser, item: RawRssItem): (r: seq<ParsedItem>)
    ensures |r| <= 1
  {
    match ParseItem(parser, item)
    case Some(x) => [x]
    case None => []
  }

  /** Every parseable item of `raw`, in feed order (the reference for the loop). */
  function ParsedAll(parser: FeedParser, raw: seq<RawRssItem>): (r: seq<ParsedItem>)
    ensures |r| <= |raw|
  {
    if |raw| == 0 then [] else ParsedHead(parser, raw[0]) + ParsedAll(parser, raw[1..])
  }

  /** Every collected item is the parse of some raw item. */
  lemma {:induction false} ParsedAllFromItems(parser: FeedParser, raw: seq<RawRssItem>, i: int)
    requires 0 <= i < |ParsedAll(parser, raw)|
    ensures exists k :: 0 <= k < |raw| && ParseItem(parser, raw[k]) == Some(ParsedAll(parser, raw)[i])
    decreases |raw|
  {
    var head := ParsedHead(parser, raw[0]);
    if i < |head| {
      assert ParseItem(parser, raw[0]) == Some(ParsedAll(parser, raw)[i]);
    } else {
      ParsedAllFromItems(parser, raw[1..], i - |head|);
      var k :| 0 <= k < |raw[1..]| && ParseItem(parser, raw[1..][k]) == Some(ParsedAll(parser, raw[1..])[i - |head|]);
      assert raw[k + 1] == raw[1..][k];
    }
  }

  lemma {:induction false} ParsedAllAppend(parser: FeedParser, a: seq<RawRssItem>, b: seq<RawRssItem>)
    ensures ParsedAll(parser, a + b) == ParsedAll(parser, a) + ParsedAll(parser, b)
    decreases |a|
  {
    if |a| == 0 {
      assert a + b == b;
    } else {
      assert (a + b)[1..] == a[1..] + b;
      ParsedAllAppend(parser, a[1..], b);
    }
  }

  /** The body of the `for ... of feed.items` loop from the item `raw[0]` on,
      with `acc` already collected: push the parsed item if any, then stop
      once `acc` holds `limit` items. */
  function Collect(parser: FeedParser, raw: seq<RawRssItem>, limit: int, acc: seq<ParsedItem>)
    : (r: seq<ParsedItem>)
    ensures |acc| < limit ==> r == JsArray.SlicePrefix(acc + ParsedAll(parser, raw), limit)
    decreases |raw|
  {
    if |raw| == 0 then
      assert acc + ParsedAll(parser, raw) == acc;
      acc
    else
      var acc' := acc + ParsedHead(parser, raw[0]);
      CollectStep(parser, raw, limit, acc);
      if |acc'| >= limit then acc'
      else Collect(parser, raw[1..], limit, acc')
  }

  /** One step of the loop: pushing the head's parse keeps the remaining
      answer the same, and a push that reaches the limit is the answer. */
  lemma CollectStep(parser: FeedParser, raw: seq<RawRssItem>, limit: int, acc: seq<ParsedItem>)
    requires |raw| > 0
    ensures acc + ParsedAll(parser, raw) == (acc + ParsedHead(parser, raw[0])) + ParsedAll(parser, raw[1..])
    ensures |acc| < limit <= |acc + ParsedHead(parser, raw[0])| ==>
              JsArray.SlicePrefix(acc + ParsedAll(parser, raw), limit) == acc + ParsedHead(parser, raw[0])
  {
    var head := ParsedHead(parser, raw[0]);
    var tail := ParsedAll(parser, raw[1..]);
    assert ParsedAll(parser, raw) == head + tail;
    PushThenStop(acc, head, tail, limit);
  }

  /** Pushing at most one element onto `acc` before the rest: the whole is
      unchanged, and reaching the limit makes `acc + head` the first `limit`. */
  lemma PushThenStop<T>(acc: seq<T>, head: seq<T>, tail: seq<T>, limit: int)
    requires |head| <= 1
    ensures acc + (head + tail) == (acc + head) + tail
    ensures |acc| < limit <= |acc + head| ==> JsArray.SlicePrefix(acc + (head + tail), limit) == acc + head
  {
    assert acc + (head + tail) == (acc + head) + tail;
    if |acc| < limit <= |acc + head| {
      var x := JsArray.SlicePrefix((acc + head) + tail, limit);
      assert |x| == limit;
      assert x == ((acc + head) + tail)[..limit];
    }
  }

  /** `fetchRSSFeed`: the first `limit` parseable items in feed order, skipping
      unparseable ones. Because the limit test follows the push, a limit below
      1 still lets the first item through when it parses. A feed that cannot be
      read fails the whole call. */
  function FetchRssFeed(config: SourceConfig, limit: int,
                        feeds: string -> Result<seq<RawRssItem>, string>)
    : (r: Result<seq<ParsedItem>, FetchError>)
    ensures feeds(config.rssUrl).Err? ==> r == Err(RssFetchFailed(feeds(config.rssUrl).error))
    ensures feeds(config.rssUrl).Ok? && limit >= 1 ==>
              r == Ok(JsArray.SlicePrefix(ParsedAll(config.parser, feeds(config.rssUrl).value), limit))
    ensures feeds(config.rssUrl).Ok? && limit < 1 ==>
              var raw := feeds(config.rssUrl).value;
              r == Ok(ParsedAll(config.parser, raw[..if |raw| == 0 then 0 else 1]))
  {
    match feeds(config.rssUrl)
    case Err(e) => Err(RssFetchFailed(e))
    case Ok(raw) =>
      var r := Collect(config.parser, raw, limit, []);
      assert limit < 1 && |raw| > 0 ==> r == ParsedAll(config.parser, raw[..1]) by {
        if limit < 1 && |raw| > 0 {
          assert raw[..1][1..] == [];
          assert ParsedAll(config.parser, raw[..1]) == ParsedHead(config.parser, raw[0]);
        }
      }
      assert [] + ParsedAll(config.parser, raw) == ParsedAll(config.parser, raw);
      Ok(r)
  }

  // ---------------------------------------------------------------------------
  // Hacker News official API

  /** An item as the Hacker News API returns it. */
  datatype HnStory = HnStory(kind: string, title: string, url: Option<string>, time: int,
                             score: Option<int>, descendants: Option<int>)

  /** The detail fetched for `id` is a story with a truthy url; an id missing
      from `details` is a detail fetch that failed or returned null. */
  predicate IsKeptStory(details: map<int, HnStory>, id: int) {
    id in details && details[id].kind == "story" && Truthy(details[id].url)
  }

  /** The normalised item of a kept story; a missing score or descendant count
      counts as 0. */
  function StoryItem(s: HnStory): (item: ParsedItem)
    requires Truthy(s.url)
    ensures item.url == s.url.value && item.title == s.title
    ensures item.publishedAt == FromUnixSeconds(s.time)
    ensures s.score.None? ==> item.score == 0
    ensures s.score.Some? ==> item.score == s.score.value
    ensures s.descendants.None? ==> item.commentCount == 0
    ensures s.descendants.Some? ==> item.commentCount == s.descendants.value
  {
    ParsedItem(s.title, s.url.value, FromUnixSeconds(s.time), s.score.GetOr(0), s.descendants.GetOr(0))
  }

  /** The items of the kept stories among `ids`, in id order. */
  function StoryItems(ids: seq<int>, details: map<int, HnStory>): (r: seq<ParsedItem>)
    ensures |r| <= |ids|
    ensures forall i :: 0 <= i < |r| ==> r[i].url != []
  {
    if |ids| == 0 then []
    else
      var rest := StoryItems(ids[1..], details);
      if IsKeptStory(details, ids[0]) then
        var r := [StoryItem(details[ids[0]])] + rest;
        assert forall i :: 1 <= i < |r| ==> r[i] == rest[i - 1];
        r
      else rest
  }

  /** Every item comes from a kept story among `ids`. */
  lemma {:induction false} StoryItemsSound(ids: seq<int>, details: map<int, HnStory>, i: int)
    requires 0 <= i < |StoryItems(ids, details)|
    ensures exists k :: 0 <= k < |ids| && IsKeptStory(details, ids[k])
                        && StoryItems(ids, details)[i] == StoryItem(details[ids[k]])
    decreases |ids|
  {
    if IsKeptStory(details, ids[0]) && i == 0 {
    } else {
      var j := if IsKeptStory(details, ids[0]) then i - 1 else i;
      StoryItemsSound(ids[1..], details, j);
      var k :| 0 <= k < |ids[1..]| && IsKeptStory(details, ids[1..][k])
               && StoryItems(ids[1..], details)[j] == StoryItem(details[ids[1..][k]]);
      assert ids[k + 1] == ids[1..][k];
    }
  }

  /** Every kept story among `ids` contributes its item. */
  lemma {:induction false} StoryItemsComplete(ids: seq<int>, details: map<int, HnStory>, k: int)
    requires 0 <= k < |ids| && IsKeptStory(details, ids[k])
    ensures StoryItem(details[ids[k]]) in StoryItems(ids, details)
    decreases |ids|
  {
    if k > 0 {
      StoryItemsComplete(ids[1..], details, k - 1);
    }
  }

  /** Items keep the order of their ids: of two items, the earlier one comes
      from a kept story at an earlier position. */
  lemma {:induction false} StoryItemsOrdered(ids: seq<int>, details: map<int, HnStory>, i: int, j: int)
    requires 0 <= i < j < |StoryItems(ids, details)|
    ensures exists k, k' :: 0 <= k < k' < |ids| && IsKeptStory(details, ids[k]) && IsKeptStory(details, ids[k'])
                            && StoryItems(ids, details)[i] == StoryItem(details[ids[k]])
                            && StoryItems(ids, details)[j] == StoryItem(details[ids[k']])
    decreases |ids|
  {
    var rest := StoryItems(ids[1..], details);
    if IsKeptStory(details, ids[0]) {
      if i == 0 {
        StoryItemsSound(ids[1..], details, j - 1);
        var k' :| 0 <= k' < |ids[1..]| && IsKeptStory(details, ids[1..][k'])
                  && rest[j - 1] == StoryItem(details[ids[1..][k']]);
        assert ids[k' + 1] == ids[1..][k'];
        assert StoryItems(ids, details)[j] == rest[j - 1];
        assert 0 < k' + 1;
      } else {
        StoryItemsOrdered(ids[1..], details, i - 1, j - 1);
        var k, k' :| 0 <= k < k' < |ids[1..]| && IsKeptStory(details, ids[1..][k]) && IsKeptStory(details, ids[1..][k'])
                     && rest[i - 1] == StoryItem(details[ids[1..][k]])
                     && rest[j - 1] == StoryItem(details[ids[1..][k']]);
        assert ids[k + 1] == ids[1..][k] && ids[k' + 1] == ids[1..][k'];
        assert StoryItems(ids, details)[i] == rest[i - 1] && StoryItems(ids, details)[j] == rest[j - 1];
      }
    } else {
      StoryItemsOrdered(ids[1..], details, i, j);
      var k, k' :| 0 <= k < k' < |ids[1..]| && IsKeptStory(details, ids[1..][k]) && IsKeptStory(details, ids[1..][k'])
                   && rest[i] == StoryItem(details[ids[1..][k]])
                   && rest[j] == StoryItem(details[ids[1..][k']]);
      assert ids[k + 1] == ids[1..][k] && ids[k' + 1] == ids[1..][k'];
    }
  }

  /** `item` is the item of a kept story at some position of `ids`. */
  predicate FromKeptStory(ids: seq<int>, details: map<int, HnStory>, item: ParsedItem) {
    exists k :: 0 <= k < |ids| && IsKeptStory(details, ids[k]) && item == StoryItem(details[ids[k]])
  }

  /** `fetchHackerNewsTop`: the kept stories among the first `limit` top-story
      ids (`slice(0, limit)`), in id order. A failed top-story list fails the
      call; a failed detail fetch only drops that id. */
  function FetchHackerNewsTop(limit: int, topStories: Result<seq<int>, string>,
                              details: map<int, HnStory>)
    : (r: Result<seq<ParsedItem>, FetchError>)
    ensures topStories.Err? <==> r.Err?
    ensures topStories.Err? ==> r.error == HackerNewsFetchFailed(topStories.error)
    ensures r.Ok? && limit >= 0 ==> |r.value| <= limit
    ensures r.Ok? ==> forall i :: 0 <= i < |r.value| ==> r.value[i].url != []
    ensures topStories.Ok? ==>
              forall k :: 0 <= k < |topStories.value| && k < limit && IsKeptStory(details, topStories.value[k])
                ==> StoryItem(details[topStories.value[k]]) in r.value
    ensures topStories.Ok? ==>
              forall i :: 0 <= i < |r.value| ==> FromKeptStory(JsArray.SlicePrefix(topStories.value, limit), details, r.value[i])
  {
    match topStories
    case Err(e) => Err(HackerNewsFetchFailed(e))
    case Ok(ids) =>
      var considered := JsArray.SlicePrefix(ids, limit);
      forall k | 0 <= k < |ids| && k < limit && IsKeptStory(details, ids[k])
        ensures StoryItem(details[ids[k]]) in StoryItems(considered, details)
      {
        assert considered[k] == ids[k];
        StoryItemsComplete(considered, details, k);
      }
      var items := StoryItems(considered, details);
      forall i | 0 <= i < |items| ensures FromKeptStory(considered, details, items[i]) {
        StoryItemsSound(considered, details, i);
      }
      Ok(items)
  }

  /** The fetched items keep the order of the top-story list: of two items,
      the earlier one comes from an earlier of the first `limit` ids. */
  lemma FetchHackerNewsTopOrdered(limit: int, ids: seq<int>, details: map<int, HnStory>, i: int, j: int)
    requires FetchHackerNewsTop(limit, Ok(ids), details).Ok?
    requires 0 <= i < j < |FetchHackerNewsTop(limit, Ok(ids), details).value|
    ensures var r := FetchHackerNewsTop(limit, Ok(ids), details).value;
            exists k, k' :: 0 <= k < k' < |JsArray.SlicePrefix(ids, limit)|
                            && IsKeptStory(details, ids[k]) && IsKeptStory(details, ids[k'])
                            && r[i] == StoryItem(details[ids[k]]) && r[j] == StoryItem(details[ids[k']])
  {
    var considered := JsArray.SlicePrefix(ids, limit);
    StoryItemsOrdered(considered, details, i, j);
    var k, k' :| 0 <= k < k' < |considered| && IsKeptStory(details, considered[k]) && IsKeptStory(details, considered[k'])
                 && StoryItems(considered, details)[i] == StoryItem(details[considered[k]])
                 && StoryItems(considered, details)[j] == StoryItem(details[considered[k']]);
    assert considered[k] == ids[k] && considered[k'] == ids[k'];
  }

  // ---------------------------------------------------------------------------
  // Dispatch

  /** What the network would return: the RSS feed at each url, the top-story
      id list and the item details of the Hacker News API. */
  datatype Network = Network(feeds: string -> Result<seq<RawRssItem>, string>,
                             topStories: Result<seq<int>, string>,
                             stories: map<int, HnStory>)

  /** The Reddit Insights feed url, overridden by a non-empty `rssUrl`. */
  function RedditFeedUrl(rssUrl: Option<string>): (u: string)
    ensures Truthy(rssUrl) ==> u == rssUrl.value
    ensures !Truthy(rssUrl) ==> u == RedditInsightsSource.rssUrl
  {
    if Truthy(rssUrl) then rssUrl.value else RedditInsightsSource.rssUrl
  }

  /** `fetchTrendData`: Hacker News through its API, Reddit through the RSS
      loop, and every other source type refused as not yet implemented. */
  function FetchTrendData(sourceType: SourceType, limit: int, rssUrl: Option<string>, net: Network)
    : (r: Result<seq<ParsedItem>, FetchError>)
    ensures sourceType == HackerNews ==> r == FetchHackerNewsTop(limit, net.topStories, net.stories)
    ensures sourceType == Reddit ==>
              r == FetchRssFeed(RedditInsightsSource.(rssUrl := RedditFeedUrl(rssUrl)), limit, net.feeds)
    ensures sourceType == Reddit && r.Ok? ==>
              forall i :: 0 <= i < |r.value| ==> r.value[i].score == 10 && r.value[i].commentCount == 0
    ensures sourceType in {ProductHunt, Github, Other} ==> r == Err(NotImplemented(sourceType))
  {
    match sourceType
    case HackerNews => FetchHackerNewsTop(limit, net.topStories, net.stories)
    case Reddit =>
      var config := RedditInsightsSource.(rssUrl := RedditFeedUrl(rssUrl));
      var r := FetchRssFeed(config, limit, net.feeds);
      assert r.Ok? ==> forall i :: 0 <= i < |r.value| ==> r.value[i].score == 10 && r.value[i].commentCount == 0 by {
        if r.Ok? {
          var raw := net.feeds(config.rssUrl).value;
          var src := if limit >= 1 then raw else raw[..if |raw| == 0 then 0 else 1];
          forall i | 0 <= i < |r.value| ensures r.value[i].score == 10 && r.value[i].commentCount == 0 {
            assert r.value[i] == ParsedAll(RedditInsightsRss, src)[i];
            ParsedAllFromItems(RedditInsightsRss, src, i);
          }
        }
      }
      r
    case _ => Err(NotImplemented(sourceType))
  }
}
