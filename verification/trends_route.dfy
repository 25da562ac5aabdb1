/** The trends endpoint (app/api/trends/route.ts). `GET` lists the active
    sources with their top trends. `POST` is the administrator's refresh of
    the Hacker News source, modelled as one transition of the store: guard,
    get-or-create the source, prune before yesterday, fetch, replace today's
    trends, stamp `refreshedAt`. */
module TrendsRoute {
  import opened Wrappers
  import Rss
  import Admin
  import JsArray
  import StableSort
  import opened TrendStore

  /** The instants the handler reads from the clock: now, and the local
      midnights starting today and yesterday. */
  datatype Clock = Clock(now: int, startOfToday: int, startOfYesterday: int)

  predicate ValidClock(c: Clock) {
    c.startOfYesterday <= c.startOfToday <= c.now
  }

  /** What the identity provider and the user table say about the caller. */
  datatype Caller = Caller(userId: Option<string>, adminEmails: Option<string>,
                           users: Result<map<string, string>, Admin.StoreError>)

  datatype RefreshResponse =
    | RefreshUnauthorized
    | RefreshForbidden
    | RefreshFailed(error: Rss.FetchError)
    | Refreshed(source: TrendSource, trends: seq<Trend>, count: nat)

  function RefreshStatus(r: RefreshResponse): int {
    match r
    case RefreshUnauthorized => 401
    case RefreshForbidden => 403
    case RefreshFailed(_) => 500
    case Refreshed(_, _, _) => 200
  }

  const HackerNewsName := "Hacker News"
  const HackerNewsRssUrl := "https://news.ycombinator.com/rss"
  const HackerNewsApiUrl := "https://hacker-news.firebaseio.com/v0"
  const FeedSize := 50

  /** The Hacker News source: the first one in the store, or a new active one.
      Returns the store and the source's position. */
  function EnsureHackerNews(st: Store, now: int): (r: (Store, nat))
    ensures r.1 < |r.0.sources| && r.0.sources[r.1].sourceType == Rss.HackerNews
    ensures FirstOfType(r.0.sources, Rss.HackerNews) == Some(r.1)
    ensures r.0.trends == st.trends
    ensures FirstOfType(st.sources, Rss.HackerNews).Some? ==> r == (st, FirstOfType(st.sources, Rss.HackerNews).value)
    ensures FirstOfType(st.sources, Rss.HackerNews).None? ==>
              && r.1 == |st.sources| && r.0.sources[..r.1] == st.sources
              && r.0.sources[r.1] == TrendSource(st.nextId, HackerNewsName, Rss.HackerNews, Some(HackerNewsRssUrl),
                                                 Some(HackerNewsApiUrl), None, None, true, None, now)
    ensures Valid(st) ==> Valid(r.0)
  {
    match FirstOfType(st.sources, Rss.HackerNews)
    case Some(k) => (st, k)
    case None =>
      var created := CreateSource(st, HackerNewsName, Rss.HackerNews, Some(HackerNewsRssUrl),
                                  Some(HackerNewsApiUrl), None, None, true, now);
      assert created.0.sources[..|st.sources|] == st.sources;
      (created.0, |st.sources|)
  }

  /** The row stored for one fetched item. */
  function NewRecord(item: Rss.ParsedItem, sourceId: nat, now: int): (t: Trend)
    ensures t.sourceId == sourceId && t.createdAt == now
    ensures t.title == item.title && t.url == item.url && t.publishedAt == item.publishedAt
    ensures t.score == item.score && t.commentCount == item.commentCount
    ensures 5.0 * t.hotScore == 3.0 * item.score as real + 2.0 * item.commentCount as real
  {
    Trend(sourceId, item.title, item.url, item.publishedAt, item.score, item.commentCount,
          Rss.HotScore(item.score, item.commentCount), now)
  }

  function NewRecords(items: seq<Rss.ParsedItem>, sourceId: nat, now: int): (r: seq<Trend>)
    ensures |r| == |items|
    ensures forall i :: 0 <= i < |r| ==> r[i] == NewRecord(items[i], sourceId, now)
  {
    if |items| == 0 then [] else [NewRecord(items[0], sourceId, now)] + NewRecords(items[1..], sourceId, now)
  }

  /** `deleteMany` of the source's trends created before yesterday. */
  function Prune(ts: seq<Trend>, id: nat, clock: Clock): (r: seq<Trend>)
    ensures forall i :: 0 <= i < |r| ==>
              r[i] in ts && (r[i].sourceId == id ==> r[i].createdAt >= clock.startOfYesterday)
    ensures forall i :: 0 <= i < |ts| && (ts[i].sourceId != id || ts[i].createdAt >= clock.startOfYesterday) ==>
              ts[i] in r
  {
    DeleteMany(ts, CreatedBefore(id, clock.startOfYesterday))
  }

  /** `deleteMany` of the source's trends created today, then `createMany` of the batch. */
  function ReplaceToday(ts: seq<Trend>, id: nat, clock: Clock, batch: seq<Trend>): (r: seq<Trend>)
    ensures |batch| <= |r| && r[|r| - |batch|..] == batch
    ensures forall i :: 0 <= i < |r| - |batch| ==>
              r[i] in ts && !(r[i].sourceId == id && r[i].createdAt >= clock.startOfToday)
    ensures forall i :: 0 <= i < |ts| && !(ts[i].sourceId == id && ts[i].createdAt >= clock.startOfToday) ==>
              ts[i] in r[..|r| - |batch|]
  {
    DeleteMany(ts, CreatedFrom(id, clock.startOfToday)) + batch
  }

  predicate AdminCaller(caller: Caller) {
    caller.userId.Some? && Admin.CheckAdminByClerkId(caller.adminEmails, caller.userId.value, caller.users)
  }

  /** `POST /api/trends`: 401 without a session, 403 for a non-administrator
      (the store untouched in both cases), otherwise the refresh with the
      outcome of fetching the top 50 Hacker News stories. */
  function Refresh(caller: Caller, st: Store, clock: Clock, net: Rss.Network): (r: (RefreshResponse, Store))
    ensures caller.userId.None? ==> r == (RefreshUnauthorized, st)
    ensures caller.userId.Some? && !AdminCaller(caller) ==> r == (RefreshForbidden, st)
    ensures AdminCaller(caller) ==>
              r == RefreshAsAdmin(st, clock, Rss.FetchTrendData(Rss.HackerNews, FeedSize, None, net))
  {
    match caller.userId
    case None => (RefreshUnauthorized, st)
    case Some(uid) =>
      if !Admin.CheckAdminByClerkId(caller.adminEmails, uid, caller.users) then (RefreshForbidden, st)
      else RefreshAsAdmin(st, clock, Rss.FetchTrendData(Rss.HackerNews, FeedSize, None, net))
  }

  /** The refresh once the caller is known to be an administrator, for a given
      fetch outcome. */
  function RefreshAsAdmin(st: Store, clock: Clock, fetched: Result<seq<Rss.ParsedItem>, Rss.FetchError>)
    : (r: (RefreshResponse, Store))
    ensures r.0.RefreshFailed? <==> fetched.Err?
    ensures fetched.Ok? ==>
      && r.0.Refreshed?
      && HnPosition(st, clock) < |r.1.sources|
      && r.0.source == r.1.sources[HnPosition(st, clock)]
      && r.0.trends == TopTrends(r.1.trends, HnId(st, clock))
      && r.0.count == |fetched.value|
  {
    var (st1, k) := EnsureHackerNews(st, clock.now);
    ApplyFetch(st1, k, clock, fetched)
  }

  /** Prune, then on a successful fetch replace today's trends and stamp the
      source at position `k`. */
  function ApplyFetch(st1: Store, k: nat, clock: Clock, fetched: Result<seq<Rss.ParsedItem>, Rss.FetchError>)
    : (r: (RefreshResponse, Store))
    requires k < |st1.sources|
    ensures r.0.RefreshFailed? <==> fetched.Err?
    ensures fetched.Ok? ==>
      && r.0.Refreshed?
      && k < |r.1.sources|
      && r.0.source == r.1.sources[k]
      && r.0.trends == TopTrends(r.1.trends, st1.sources[k].id)
      && r.0.count == |fetched.value|
  {
    var id := st1.sources[k].id;
    var st2 := st1.(trends := Prune(st1.trends, id, clock));
    match fetched
    case Err(e) => (RefreshFailed(e), st2)
    case Ok(items) =>
      var batch := NewRecords(items, id, clock.now);
      var st3 := st2.(trends := ReplaceToday(st2.trends, id, clock, batch));
      var st4 := st3.(sources := StampRefreshed(st3.sources, k, clock.now));
      (Refreshed(st4.sources[k], TopTrends(st4.trends, id), |batch|), st4)
  }

  /** Position and id of the Hacker News source that a refresh of `st` finds or creates. */
  function HnPosition(st: Store, clock: Clock): (k: nat)
    ensures k < |EnsureHackerNews(st, clock.now).0.sources|
  {
    EnsureHackerNews(st, clock.now).1
  }

  function HnId(st: Store, clock: Clock): nat {
    EnsureHackerNews(st, clock.now).0.sources[HnPosition(st, clock)].id
  }

  /** `ApplyFetch` keeps the source at `k` in place and changes only its
      `refreshedAt`; no other source changes. */
  lemma ApplyFetchSources(st1: Store, k: nat, clock: Clock, fetched: Result<seq<Rss.ParsedItem>, Rss.FetchError>)
    requires k < |st1.sources|
    ensures var st' := ApplyFetch(st1, k, clock, fetched).1;
            && |st'.sources| == |st1.sources|
            && st'.sources[k] == st1.sources[k].(refreshedAt := st'.sources[k].refreshedAt)
            && (forall j :: 0 <= j < |st'.sources| && j != k ==> st'.sources[j] == st1.sources[j])
            && st'.nextId == st1.nextId
  {
  }

  /** The trends `ApplyFetch` leaves: the pruned ones, and on success those of
      them not created today followed by the batch. */
  lemma ApplyFetchTrends(st1: Store, k: nat, clock: Clock, fetched: Result<seq<Rss.ParsedItem>, Rss.FetchError>)
    requires k < |st1.sources|
    ensures var id := st1.sources[k].id;
            var pruned := Prune(st1.trends, id, clock);
            ApplyFetch(st1, k, clock, fetched).1.trends
              == if fetched.Err? then pruned
                 else ReplaceToday(pruned, id, clock, NewRecords(fetched.value, id, clock.now))
  {
  }

  /** The refresh keeps the Hacker News source in place, and only ever
      changes its `refreshedAt`. */
  lemma RefreshKeepsSource(st: Store, clock: Clock, fetched: Result<seq<Rss.ParsedItem>, Rss.FetchError>)
    ensures var st1 := EnsureHackerNews(st, clock.now).0;
            var st' := RefreshAsAdmin(st, clock, fetched).1;
            && |st'.sources| == |st1.sources|
            && st'.sources[HnPosition(st, clock)] == st1.sources[HnPosition(st, clock)].(refreshedAt := st'.sources[HnPosition(st, clock)].refreshedAt)
            && forall j :: 0 <= j < |st'.sources| && j != HnPosition(st, clock) ==> st'.sources[j] == st1.sources[j]
  {
    var (st1, k) := EnsureHackerNews(st, clock.now);
    ApplyFetchSources(st1, k, clock, fetched);
  }

  /** Every trend of source `id` that pruning leaves was created from the
      start of yesterday on. */
  lemma PruneBound(ts: seq<Trend>, id: nat, clock: Clock)
    ensures forall i :: 0 <= i < |Prune(ts, id, clock)| && Prune(ts, id, clock)[i].sourceId == id ==>
              Prune(ts, id, clock)[i].createdAt >= clock.startOfYesterday
  {
  }

  /** Replacing today's trends by a batch created now keeps the bound that
      pruning established. */
  lemma ReplaceTodayBound(ts: seq<Trend>, id: nat, clock: Clock, items: seq<Rss.ParsedItem>)
    requires ValidClock(clock)
    requires forall i :: 0 <= i < |ts| && ts[i].sourceId == id ==> ts[i].createdAt >= clock.startOfYesterday
    ensures var r := ReplaceToday(ts, id, clock, NewRecords(items, id, clock.now));
            forall i :: 0 <= i < |r| && r[i].sourceId == id ==> r[i].createdAt >= clock.startOfYesterday
  {
    var kept := DeleteMany(ts, CreatedFrom(id, clock.startOfToday));
    var batch := NewRecords(items, id, clock.now);
    var r := kept + batch;
    forall i | 0 <= i < |r| && r[i].sourceId == id ensures r[i].createdAt >= clock.startOfYesterday {
      if i < |kept| {
        assert r[i] == kept[i] && kept[i] in ts;
      } else {
        assert r[i] == batch[i - |kept|];
      }
    }
  }

  /** After an administrator's refresh, whatever the fetch did, a Hacker News
      source exists (created active when there was none), and none of its
      trends predates yesterday. */
  lemma RefreshEnsuresSourceAndPrunes(st: Store, clock: Clock, fetched: Result<seq<Rss.ParsedItem>, Rss.FetchError>)
    requires ValidClock(clock)
    ensures var st' := RefreshAsAdmin(st, clock, fetched).1;
            && HnPosition(st, clock) < |st'.sources|
            && st'.sources[HnPosition(st, clock)].sourceType == Rss.HackerNews
            && (FirstOfType(st.sources, Rss.HackerNews).None? ==> st'.sources[HnPosition(st, clock)].isActive)
            && forall i :: 0 <= i < |st'.trends| && st'.trends[i].sourceId == HnId(st, clock) ==>
                 st'.trends[i].createdAt >= clock.startOfYesterday
  {
    var (st1, k) := EnsureHackerNews(st, clock.now);
    var id := st1.sources[k].id;
    ApplyFetchSources(st1, k, clock, fetched);
    ApplyFetchTrends(st1, k, clock, fetched);
    PruneBound(st1.trends, id, clock);
    if fetched.Ok? {
      ReplaceTodayBound(Prune(st1.trends, id, clock), id, clock, fetched.value);
    }
  }

  /** A failed fetch leaves only the pruning (and a created source): today's
      trends and `refreshedAt` are untouched. */
  lemma RefreshFailureOnlyPrunes(st: Store, clock: Clock, e: Rss.FetchError)
    ensures var st1 := EnsureHackerNews(st, clock.now).0;
            RefreshAsAdmin(st, clock, Err(e)) == (RefreshFailed(e), st1.(trends := Prune(st1.trends, HnId(st, clock), clock)))
  {
  }

  /** Once today's trends are replaced by a batch created now, the trends of
      the source created from the start of today are exactly that batch. */
  lemma TodayIsBatch(ts: seq<Trend>, id: nat, clock: Clock, items: seq<Rss.ParsedItem>)
    requires ValidClock(clock)
    ensures FindMany(ReplaceToday(ts, id, clock, NewRecords(items, id, clock.now)), CreatedFrom(id, clock.startOfToday))
              == NewRecords(items, id, clock.now)
  {
    var batch := NewRecords(items, id, clock.now);
    var kept := DeleteMany(ts, CreatedFrom(id, clock.startOfToday));
    SelectAppend(kept, batch, CreatedFrom(id, clock.startOfToday), true);
    SelectNone(kept, CreatedFrom(id, clock.startOfToday), true);
    SelectAll(batch, CreatedFrom(id, clock.startOfToday), true);
  }

  /** After a successful refresh the source's trends created today are exactly
      the new batch, the count is the number of fetched items, and
      `refreshedAt` is now. */
  lemma RefreshReplacesToday(st: Store, clock: Clock, items: seq<Rss.ParsedItem>)
    requires ValidClock(clock)
    ensures var r := RefreshAsAdmin(st, clock, Ok(items));
            && r.0.Refreshed? && r.0.count == |items|
            && r.0.source.refreshedAt == Some(clock.now)
            && r.1.sources[HnPosition(st, clock)].refreshedAt == Some(clock.now)
            && FindMany(r.1.trends, CreatedFrom(HnId(st, clock), clock.startOfToday))
               == NewRecords(items, HnId(st, clock), clock.now)
  {
    var (st1, k) := EnsureHackerNews(st, clock.now);
    var id := st1.sources[k].id;
    ApplyFetchTrends(st1, k, clock, Ok(items));
    TodayIsBatch(Prune(st1.trends, id, clock), id, clock, items);
  }

  /** Deletes are scoped to the Hacker News source: every other source's
      trends are as they were. */
  lemma RefreshKeepsOtherTrends(st: Store, clock: Clock, fetched: Result<seq<Rss.ParsedItem>, Rss.FetchError>, other: nat)
    requires other != HnId(st, clock)
    ensures FindMany(RefreshAsAdmin(st, clock, fetched).1.trends, OfSource(other)) == FindMany(st.trends, OfSource(other))
  {
    var (st1, k) := EnsureHackerNews(st, clock.now);
    var id := st1.sources[k].id;
    var pruned := Prune(st1.trends, id, clock);
    ApplyFetchTrends(st1, k, clock, fetched);
    DeleteKeepsOthers(st1.trends, id, other, CreatedBefore(id, clock.startOfYesterday));
    if fetched.Ok? {
      var batch := NewRecords(fetched.value, id, clock.now);
      var kept := DeleteMany(pruned, CreatedFrom(id, clock.startOfToday));
      DeleteKeepsOthers(pruned, id, other, CreatedFrom(id, clock.startOfToday));
      SelectAppend(kept, batch, OfSource(other), true);
      SelectNone(batch, OfSource(other), true);
      assert kept + [] == kept;
    }
  }

  /** Pruning twice is pruning once. */
  lemma PruneTwice(ts: seq<Trend>, id: nat, clock: Clock)
    ensures Prune(Prune(ts, id, clock), id, clock) == Prune(ts, id, clock)
  {
    SelectAll(Prune(ts, id, clock), CreatedBefore(id, clock.startOfYesterday), false);
  }

  /** Pruning and replacing today's trends a second time with the same batch
      changes nothing. */
  lemma ReplaceTodayTwice(ts: seq<Trend>, id: nat, clock: Clock, items: seq<Rss.ParsedItem>)
    requires ValidClock(clock)
    ensures var batch := NewRecords(items, id, clock.now);
            var once := ReplaceToday(Prune(ts, id, clock), id, clock, batch);
            ReplaceToday(Prune(once, id, clock), id, clock, batch) == once
  {
    var batch := NewRecords(items, id, clock.now);
    var pruned := Prune(ts, id, clock);
    var kept := DeleteMany(pruned, CreatedFrom(id, clock.startOfToday));
    assert forall i :: 0 <= i < |kept| ==> kept[i] in pruned;
    SelectAppend(kept, batch, CreatedBefore(id, clock.startOfYesterday), false);
    SelectAll(kept, CreatedBefore(id, clock.startOfYesterday), false);
    SelectAll(batch, CreatedBefore(id, clock.startOfYesterday), false);
    SelectAppend(kept, batch, CreatedFrom(id, clock.startOfToday), false);
    SelectAll(kept, CreatedFrom(id, clock.startOfToday), false);
    SelectNone(batch, CreatedFrom(id, clock.startOfToday), false);
    assert kept + [] == kept;
  }

  /** Applying the same fetch outcome twice at the same position and clock
      leaves the store as applying it once. */
  lemma ApplyFetchTwice(st1: Store, k: nat, clock: Clock, fetched: Result<seq<Rss.ParsedItem>, Rss.FetchError>)
    requires k < |st1.sources| && ValidClock(clock)
    ensures var once := ApplyFetch(st1, k, clock, fetched).1;
            k < |once.sources| && ApplyFetch(once, k, clock, fetched).1 == once
  {
    var id := st1.sources[k].id;
    var once := ApplyFetch(st1, k, clock, fetched).1;
    ApplyFetchSources(st1, k, clock, fetched);
    ApplyFetchSources(once, k, clock, fetched);
    ApplyFetchTrends(st1, k, clock, fetched);
    ApplyFetchTrends(once, k, clock, fetched);
    assert once.sources[k].id == id;
    if fetched.Err? {
      PruneTwice(st1.trends, id, clock);
    } else {
      ReplaceTodayTwice(st1.trends, id, clock, fetched.value);
    }
    var twice := ApplyFetch(once, k, clock, fetched).1;
    assert twice.sources == once.sources;
  }

  /** Refreshing twice with the same clock and fetch outcome leaves the store
      as one refresh does: trends of the same day do not accumulate. */
  lemma RefreshIdempotent(st: Store, clock: Clock, fetched: Result<seq<Rss.ParsedItem>, Rss.FetchError>)
    requires ValidClock(clock)
    ensures var once := RefreshAsAdmin(st, clock, fetched).1;
            RefreshAsAdmin(once, clock, fetched).1 == once
  {
    var (st1, k) := EnsureHackerNews(st, clock.now);
    var once := ApplyFetch(st1, k, clock, fetched).1;
    ApplyFetchSources(st1, k, clock, fetched);
    FirstOfTypeSameTypes(st1.sources, once.sources);
    assert EnsureHackerNews(once, clock.now) == (once, k);
    ApplyFetchTwice(st1, k, clock, fetched);
  }

  /** Two administrator refreshes in a row with the same clock and network
      leave the store as one does. */
  lemma RefreshTwice(caller: Caller, st: Store, clock: Clock, net: Rss.Network)
    requires ValidClock(clock)
    ensures var once := Refresh(caller, st, clock, net).1;
            Refresh(caller, once, clock, net).1 == once
  {
    if AdminCaller(caller) {
      RefreshIdempotent(st, clock, Rss.FetchTrendData(Rss.HackerNews, FeedSize, None, net));
    }
  }

  /** Rows with the same types in the same places have the same first source of a type. */
  lemma {:induction false} FirstOfTypeSameTypes(a: seq<TrendSource>, b: seq<TrendSource>)
    requires |a| == |b|
    requires forall j :: 0 <= j < |a| ==> b[j].sourceType == a[j].sourceType
    ensures FirstOfType(b, Rss.HackerNews) == FirstOfType(a, Rss.HackerNews)
    decreases |a|
  {
    if |a| > 0 {
      FirstOfTypeSameTypes(a[1..], b[1..]);
    }
  }

  // ---------------------------------------------------------------------------
  // GET

  /** One source as listed: its fields and its top 50 trends. */
  datatype SourceTrends = SourceTrends(id: nat, name: string, sourceType: Rss.SourceType,
                                       refreshedAt: Option<int>, trends: seq<Trend>)

  datatype ListResponse = ListUnauthorized | TrendsList(sources: seq<SourceTrends>)

  function IsActive(s: TrendSource): bool { s.isActive }

  function Listed(s: TrendSource, ts: seq<Trend>): SourceTrends {
    SourceTrends(s.id, s.name, s.sourceType, s.refreshedAt, TopTrends(ts, s.id))
  }

  /** The active sources by ascending creation time; ties keep store order. */
  function ActiveSources(sources: seq<TrendSource>): (r: seq<TrendSource>)
    ensures multiset(r) == multiset(JsArray.Filter(sources, IsActive))
    ensures forall i :: 0 <= i < |r| ==> r[i].isActive && r[i] in sources
    ensures forall i, j :: 0 <= i < j < |r| ==> r[i].createdAt <= r[j].createdAt
  {
    var active := JsArray.Filter(sources, IsActive);
    var r := ByCreatedAt(active);
    assert forall i :: 0 <= i < |r| ==> r[i] in active by {
      forall i | 0 <= i < |r| ensures r[i] in active {
        assert r[i] in multiset(active);
      }
    }
    r
  }

  /** Exactly the active sources are listed. */
  lemma ActiveSourcesExactly(sources: seq<TrendSource>, s: TrendSource)
    ensures s in ActiveSources(sources) <==> s in sources && s.isActive
  {
    var active := JsArray.Filter(sources, IsActive);
    assert s in ActiveSources(sources) <==> s in multiset(active);
  }

  /** `GET /api/trends`: 401 without a session; otherwise the active sources
      by ascending creation time, each with its name, type and `refreshedAt`
      and its top 50 trends by descending hot score. */
  function ListTrends(userId: Option<string>, st: Store): (r: ListResponse)
    ensures userId.None? <==> r.ListUnauthorized?
    ensures r.TrendsList? ==>
              && |r.sources| == |ActiveSources(st.sources)|
              && forall i :: 0 <= i < |r.sources| ==>
                   && r.sources[i].id == ActiveSources(st.sources)[i].id
                   && r.sources[i].name == ActiveSources(st.sources)[i].name
                   && r.sources[i].sourceType == ActiveSources(st.sources)[i].sourceType
                   && r.sources[i].refreshedAt == ActiveSources(st.sources)[i].refreshedAt
                   && r.sources[i].trends == TopTrends(st.trends, r.sources[i].id)
                   && |r.sources[i].trends| <= 50
                   && multiset(r.sources[i].trends) <= multiset(FindMany(st.trends, OfSource(r.sources[i].id)))
                   && (|FindMany(st.trends, OfSource(r.sources[i].id))| <= 50 ==>
                         multiset(r.sources[i].trends) == multiset(FindMany(st.trends, OfSource(r.sources[i].id))))
                   && (forall j, k :: 0 <= j < k < |r.sources[i].trends| ==>
                         r.sources[i].trends[j].hotScore >= r.sources[i].trends[k].hotScore)
                   && forall j :: 0 <= j < |r.sources[i].trends| ==>
                        r.sources[i].trends[j] in st.trends && r.sources[i].trends[j].sourceId == r.sources[i].id
  {
    match userId
    case None => ListUnauthorized
    case Some(_) =>
      var active := ActiveSources(st.sources);
      var listed := seq(|active|, i requires 0 <= i < |active| => Listed(active[i], st.trends));
      forall i | 0 <= i < |listed|
        ensures multiset(listed[i].trends) <= multiset(FindMany(st.trends, OfSource(listed[i].id)))
        ensures |FindMany(st.trends, OfSource(listed[i].id))| <= 50 ==>
                  multiset(listed[i].trends) == multiset(FindMany(st.trends, OfSource(listed[i].id)))
        ensures forall j, k :: 0 <= j < k < |listed[i].trends| ==> listed[i].trends[j].hotScore >= listed[i].trends[k].hotScore
      {
        TopTrendsAreTop(st.trends, listed[i].id);
        assert StableSort.SortedDesc(listed[i].trends, HotScoreKey);
      }
      TrendsList(listed)
  }
}
