/** Community search (lib/reddit.ts): the per-post field mapping, the
    site-wide search and the subreddit fan-out with its failure tolerance,
    `Map`-based de-duplication, stable descending sort and truncation. The
    Reddit client is replaced by a `search` function giving each request's
    outcome. */
module Reddit {
  import opened Wrappers
  import JsText
  import JsArray
  import StableSort
  import KeyedMap

  /** A post as the Reddit client returns it. */
  datatype RawPost = RawPost(id: string, title: string, selftext: Option<string>, authorName: string,
                             subredditName: string, score: int, numComments: int, createdUtc: int,
                             permalink: string)

  /** `RedditSearchResult`. */
  datatype SearchResult = SearchResult(id: string, title: string, selftext: string, author: string,
                                       subreddit: string, score: int, numComments: int, url: string,
                                       createdUtc: int, permalink: string)

  datatype Sort = Relevance | Hot | Top | New | Comments
  datatype Period = Hour | Day | Week | Month | Year | All

  /** The options object; absent fields take the caller's defaults. */
  datatype SearchOptions = SearchOptions(limit: Option<int>, sort: Option<Sort>, time: Option<Period>)

  /** One request to the Reddit client: a subreddit (or none for a site-wide
      search), the query text and the resolved options. */
  datatype Request = Request(subreddit: Option<string>, query: string, sort: Sort, time: Period, limit: int)

  datatype SearchError = MissingCredentials | SearchFailed(message: string)

  const RedditOrigin := "https://reddit.com"
  const DefaultSubreddits := ["Entrepreneur", "startups", "SaaS", "technology", "business"]

  /** The mapping applied to every returned post: `selftext` defaults to the
      empty string and `url` is the permalink on the Reddit origin. */
  function ToSearchResult(p: RawPost): (r: SearchResult)
    ensures r.id == p.id && r.title == p.title && r.score == p.score && r.numComments == p.numComments
    ensures r.author == p.authorName && r.subreddit == p.subredditName
    ensures r.createdUtc == p.createdUtc && r.permalink == p.permalink
    ensures p.selftext.None? ==> r.selftext == ""
    ensures p.selftext.Some? ==> r.selftext == p.selftext.value
    ensures |r.url| == |RedditOrigin| + |p.permalink| && r.url[..|RedditOrigin|] == RedditOrigin
            && r.url[|RedditOrigin|..] == p.permalink
  {
    var url := RedditOrigin + p.permalink;
    assert url[|RedditOrigin|..] == p.permalink;
    SearchResult(p.id, p.title, p.selftext.GetOr(""), p.authorName, p.subredditName, p.score,
                 p.numComments, url, p.createdUtc, p.permalink)
  }

  function Mapped(posts: seq<RawPost>): (r: seq<SearchResult>)
    ensures |r| == |posts|
    ensures forall i :: 0 <= i < |r| ==> r[i] == ToSearchResult(posts[i])
  {
    if |posts| == 0 then [] else [ToSearchResult(posts[0])] + Mapped(posts[1..])
  }

  /** The query: the keywords joined by single spaces. */
  function Query(keywords: seq<string>): string
  {
    JsText.Join(keywords, " ")
  }

  /** Keywords without spaces are recovered from the query by splitting it. */
  lemma QuerySplitsBack(keywords: seq<string>)
    requires |keywords| >= 1
    requires forall i :: 0 <= i < |keywords| ==> ' ' !in keywords[i]
    ensures JsText.Split(Query(keywords), ' ') == keywords
  {
    JsText.SplitJoin(keywords, ' ');
  }

  /** `searchReddit`: one site-wide search (default limit 20, sort relevance,
      period month); a failure is rethrown with the message prefixed. */
  function SearchReddit(keywords: seq<string>, options: SearchOptions, credentials: bool,
                        search: Request -> Result<seq<RawPost>, string>)
    : (r: Result<seq<SearchResult>, SearchError>)
    ensures !credentials ==> r == Err(MissingCredentials)
    ensures credentials ==>
              var req := Request(None, Query(keywords), options.sort.GetOr(Relevance),
                                 options.time.GetOr(Month), options.limit.GetOr(20));
              && (search(req).Err? ==> r == Err(SearchFailed("Reddit search failed: " + search(req).error)))
              && (search(req).Ok? ==> r.Ok? && |r.value| == |search(req).value|
                                      && forall i :: 0 <= i < |r.value| ==>
                                           r.value[i] == ToSearchResult(search(req).value[i]))
  {
    if !credentials then Err(MissingCredentials)
    else
      var req := Request(None, Query(keywords), options.sort.GetOr(Relevance),
                         options.time.GetOr(Month), options.limit.GetOr(20));
      match search(req)
      case Err(e) => Err(SearchFailed("Reddit search failed: " + e))
      case Ok(posts) => Ok(Mapped(posts))
  }

  // ---------------------------------------------------------------------------
  // De-duplication through a Map keyed by post id

  function PostId(p: SearchResult): string { p.id }

  /** `Array.from(new Map(s.map(p => [p.id, p])).values())`. */
  function Dedup(s: seq<SearchResult>): (r: seq<SearchResult>)
    ensures KeyedMap.DistinctKeys(r, PostId)
    ensures KeyedMap.KeySet(r, PostId) == KeyedMap.KeySet(s, PostId)
    ensures forall i :: 0 <= i < |r| ==> r[i] in s
  {
    KeyedMap.MapValuesProperties(s, PostId);
    KeyedMap.MapValues(s, PostId)
  }

  /** The de-duplicated posts have pairwise distinct ids, cover every id of the
      input, and are input posts; each sits where its id first occurred and
      carries the post of the id's last occurrence. */
  lemma DedupProperties(s: seq<SearchResult>)
    ensures KeyedMap.DistinctKeys(Dedup(s), PostId)
    ensures KeyedMap.KeySet(Dedup(s), PostId) == KeyedMap.KeySet(s, PostId)
    ensures forall i :: 0 <= i < |Dedup(s)| ==> Dedup(s)[i] in s
    ensures |Dedup(s)| == |KeyedMap.FirstKeys(s, PostId)|
    ensures forall i :: 0 <= i < |Dedup(s)| ==>
              && Dedup(s)[i].id == KeyedMap.FirstKeys(s, PostId)[i]
              && KeyedMap.LastWithKey(s, PostId, Dedup(s)[i].id) == Some(Dedup(s)[i])
  {
    KeyedMap.MapValuesProperties(s, PostId);
    KeyedMap.MapValuesFirstPositionLastValue(s, PostId);
  }

  /** The Map is not first-wins: of two posts with one id, the later one survives. */
  lemma DedupKeepsLaterValue(a: SearchResult, b: SearchResult)
    requires a.id == b.id
    ensures Dedup([a, b]) == [b]
  {
    assert [a, b][..1] == [a];
    assert [a][..0] == [];
    assert KeyedMap.MapValues([a], PostId) == [a];
  }

  // ---------------------------------------------------------------------------
  // Fan-out

  function ScoreKey(p: SearchResult): real { p.score as real }

  /** The request sent for one subreddit. */
  function TargetRequest(subreddit: string, keywords: seq<string>, options: SearchOptions): Request
  {
    Request(Some(subreddit), Query(keywords), options.sort.GetOr(Relevance), options.time.GetOr(Month),
            options.limit.GetOr(10))
  }

  /** What one target contributes: its mapped posts, or nothing when its search failed. */
  function Contribution(subreddit: string, keywords: seq<string>, options: SearchOptions,
                        search: Request -> Result<seq<RawPost>, string>): seq<SearchResult>
  {
    match search(TargetRequest(subreddit, keywords, options))
    case Ok(posts) => Mapped(posts)
    case Err(_) => []
  }

  /** The accumulated results of searching `targets` in order. */
  function Gathered(targets: seq<string>, keywords: seq<string>, options: SearchOptions,
                    search: Request -> Result<seq<RawPost>, string>): (r: seq<SearchResult>)
    ensures forall i :: 0 <= i < |r| ==> FromSucceededTarget(targets, keywords, options, search, r[i])
    decreases |targets|
  {
    if |targets| == 0 then []
    else
      var first := Contribution(targets[0], keywords, options, search);
      var rest := Gathered(targets[1..], keywords, options, search);
      var r := first + rest;
      forall i | 0 <= i < |r| ensures FromSucceededTarget(targets, keywords, options, search, r[i]) {
        if i < |first| {
          assert r[i] == first[i] && targets[0] in targets;
        } else {
          assert r[i] == rest[i - |first|];
          assert FromSucceededTarget(targets[1..], keywords, options, search, r[i]);
          var t :| t in targets[1..] && search(TargetRequest(t, keywords, options)).Ok?
                   && r[i] in Mapped(search(TargetRequest(t, keywords, options)).value);
          assert t in targets;
        }
      }
      r
  }

  /** `x` is one of the mapped posts of some target whose search succeeded. */
  predicate FromSucceededTarget(targets: seq<string>, keywords: seq<string>, options: SearchOptions,
                                search: Request -> Result<seq<RawPost>, string>, x: SearchResult)
  {
    exists t :: t in targets && search(TargetRequest(t, keywords, options)).Ok?
                && x in Mapped(search(TargetRequest(t, keywords, options)).value)
  }

  /** Every gathered post comes from a target whose search succeeded. */
  lemma {:induction false} GatheredSound(targets: seq<string>, keywords: seq<string>, options: SearchOptions,
                                         search: Request -> Result<seq<RawPost>, string>, x: SearchResult)
    requires x in Gathered(targets, keywords, options, search)
    ensures exists t :: t in targets && search(TargetRequest(t, keywords, options)).Ok?
                        && x in Mapped(search(TargetRequest(t, keywords, options)).value)
  {
    if x in Contribution(targets[0], keywords, options, search) {
      assert targets[0] in targets;
    } else {
      GatheredSound(targets[1..], keywords, options, search, x);
      var t :| t in targets[1..] && search(TargetRequest(t, keywords, options)).Ok?
               && x in Mapped(search(TargetRequest(t, keywords, options)).value);
      assert t in targets;
    }
  }

  /** Targets whose search fails contribute nothing: if every target but the
      one at `k` fails, the gathered posts are that target's posts. */
  lemma {:induction false} OneTargetSucceeds(keywords: seq<string>, subreddits: seq<string>,
                                             options: SearchOptions,
                                             search: Request -> Result<seq<RawPost>, string>, k: int)
    requires 0 <= k < |subreddits|
    requires search(TargetRequest(subreddits[k], keywords, options)).Ok?
    requires forall j :: 0 <= j < |subreddits| && j != k ==> search(TargetRequest(subreddits[j], keywords, options)).Err?
    ensures Gathered(subreddits, keywords, options, search)
         == Mapped(search(TargetRequest(subreddits[k], keywords, options)).value)
    decreases |subreddits|
  {
    if k == 0 {
      NoneSucceeds(keywords, subreddits[1..], options, search);
    } else {
      assert search(TargetRequest(subreddits[0], keywords, options)).Err?;
      OneTargetSucceeds(keywords, subreddits[1..], options, search, k - 1);
    }
  }

  /** If every target fails, nothing is gathered. */
  lemma {:induction false} NoneSucceeds(keywords: seq<string>, subreddits: seq<string>, options: SearchOptions,
                                        search: Request -> Result<seq<RawPost>, string>)
    requires forall j :: 0 <= j < |subreddits| ==> search(TargetRequest(subreddits[j], keywords, options)).Err?
    ensures Gathered(subreddits, keywords, options, search) == []
    decreases |subreddits|
  {
    if |subreddits| > 0 {
      NoneSucceeds(keywords, subreddits[1..], options, search);
    }
  }

  /** The loop of `searchSubreddits`: search every target in order, appending
      the mapped posts of each search that succeeds and skipping each one that
      throws. */
  method GatherAll(keywords: seq<string>, subreddits: seq<string>, options: SearchOptions,
                   search: Request -> Result<seq<RawPost>, string>)
    returns (all: seq<SearchResult>)
    ensures all == Gathered(subreddits, keywords, options, search)
  {
    all := [];
    var k := 0;
    while k < |subreddits|
      invariant 0 <= k <= |subreddits|
      invariant Gathered(subreddits, keywords, options, search)
             == all + Gathered(subreddits[k..], keywords, options, search)
    {
      GatheredStep(keywords, subreddits, options, search, k);
      ghost var rest := Gathered(subreddits[k + 1..], keywords, options, search);
      var posts := match search(TargetRequest(subreddits[k], keywords, options))
                   case Ok(found) => Mapped(found)
                   case Err(_) => [];
      assert posts == Contribution(subreddits[k], keywords, options, search);
      AppendAssoc(all, posts, rest);
      all := all + posts;
      k := k + 1;
    }
    assert subreddits[k..] == [];
    assert all + [] == all;
  }

  /** `searchSubreddits`: gather the posts of every target whose search
      succeeds, merge through the id Map, sort stably by descending score and
      keep the first `2 * limit` (default limit 10). */
  method SearchSubreddits(keywords: seq<string>, subreddits: seq<string>, options: SearchOptions,
                          credentials: bool, search: Request -> Result<seq<RawPost>, string>)
    returns (r: Result<seq<SearchResult>, SearchError>)
    ensures !credentials ==> r == Err(MissingCredentials)
    ensures credentials ==> r.Ok?
    ensures r.Ok? ==> r.value == Ranked(Gathered(subreddits, keywords, options, search), options.limit.GetOr(10))
    ensures r.Ok? ==> KeyedMap.DistinctKeys(r.value, PostId) && StableSort.SortedDesc(r.value, ScoreKey)
    ensures r.Ok? && options.limit.GetOr(10) >= 0 ==> |r.value| <= 2 * options.limit.GetOr(10)
  {
    if !credentials {
      return Err(MissingCredentials);
    }
    var all := GatherAll(keywords, subreddits, options, search);
    RankedProperties(all, options.limit.GetOr(10));
    r := Ok(Ranked(all, options.limit.GetOr(10)));
  }

  lemma AppendAssoc(a: seq<SearchResult>, b: seq<SearchResult>, c: seq<SearchResult>)
    ensures a + (b + c) == (a + b) + c
  {
  }

  /** Gathering from position `k` is the target at `k` followed by the rest. */
  lemma GatheredStep(keywords: seq<string>, subreddits: seq<string>, options: SearchOptions,
                     search: Request -> Result<seq<RawPost>, string>, k: int)
    requires 0 <= k < |subreddits|
    ensures Gathered(subreddits[k..], keywords, options, search)
         == Contribution(subreddits[k], keywords, options, search) + Gathered(subreddits[k + 1..], keywords, options, search)
  {
    assert subreddits[k..][1..] == subreddits[k + 1..];
  }

  /** Every post `searchSubreddits` returns comes from a target whose search
      succeeded: nothing is invented. */
  lemma RankedFromTargets(keywords: seq<string>, subreddits: seq<string>, options: SearchOptions,
                          search: Request -> Result<seq<RawPost>, string>)
    ensures forall x :: x in Ranked(Gathered(subreddits, keywords, options, search), options.limit.GetOr(10)) ==>
              exists t :: t in subreddits && search(TargetRequest(t, keywords, options)).Ok?
                          && x in Mapped(search(TargetRequest(t, keywords, options)).value)
  {
    var all := Gathered(subreddits, keywords, options, search);
    RankedProperties(all, options.limit.GetOr(10));
    forall x | x in Ranked(all, options.limit.GetOr(10))
      ensures exists t :: t in subreddits && search(TargetRequest(t, keywords, options)).Ok?
                          && x in Mapped(search(TargetRequest(t, keywords, options)).value)
    {
      GatheredSound(subreddits, keywords, options, search, x);
    }
  }

  /** Merge through the id Map, sort by descending score, keep `2 * limit`. */
  function Ranked(all: seq<SearchResult>, limit: int): (r: seq<SearchResult>)
    ensures limit >= 0 ==> |r| <= 2 * limit
  {
    JsArray.SlicePrefix(StableSort.SortDesc(Dedup(all), ScoreKey), limit * 2)
  }

  /** The ranked posts have distinct ids, are in descending score order, number
      at most `2 * limit`, and are all gathered posts. */
  lemma RankedProperties(all: seq<SearchResult>, limit: int)
    ensures KeyedMap.DistinctKeys(Ranked(all, limit), PostId)
    ensures StableSort.SortedDesc(Ranked(all, limit), ScoreKey)
    ensures limit >= 0 ==> |Ranked(all, limit)| <= 2 * limit
    ensures forall x :: x in Ranked(all, limit) ==> x in all
  {
    var unique := Dedup(all);
    var sorted := StableSort.SortDesc(unique, ScoreKey);
    var out := Ranked(all, limit);
    DedupProperties(all);
    KeyedMap.DistinctKeysPermuted(unique, sorted, PostId);
    SortedPrefix(sorted, out);
    StableSort.SortDescSameElements(unique, ScoreKey);
    forall x | x in out ensures x in all {
      assert x in sorted;
      var i :| 0 <= i < |unique| && unique[i] == x;
    }
  }

  /** A prefix of a sorted sequence with distinct ids is sorted with distinct ids. */
  lemma SortedPrefix(sorted: seq<SearchResult>, out: seq<SearchResult>)
    requires |out| <= |sorted| && out == sorted[..|out|]
    ensures StableSort.SortedDesc(sorted, ScoreKey) ==> StableSort.SortedDesc(out, ScoreKey)
    ensures KeyedMap.DistinctKeys(sorted, PostId) ==> KeyedMap.DistinctKeys(out, PostId)
  {
    assert forall i :: 0 <= i < |out| ==> out[i] == sorted[i];
  }
}
