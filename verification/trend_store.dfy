/** The part of the relational store the trend routes use: trend sources, the
    trends they own, and the `findMany` / `deleteMany` / `createMany` queries
    over trends. Rows are kept in insertion order; identifiers are issued by
    a counter standing in for the store's generated ids. */
module TrendStore {
  import opened Wrappers
  import Rss
  import StableSort
  import JsArray

  datatype TrendSource = TrendSource(id: nat, name: string, sourceType: Rss.SourceType,
                                     rssUrl: Option<string>, apiUrl: Option<string>,
                                     icon: Option<string>, description: Option<string>,
                                     isActive: bool, refreshedAt: Option<int>, createdAt: int)

  datatype Trend = Trend(sourceId: nat, title: string, url: string, publishedAt: Rss.Published,
                         score: int, commentCount: int, hotScore: real, createdAt: int)

  datatype Store = Store(sources: seq<TrendSource>, trends: seq<Trend>, nextId: nat)

  /** Identifiers are unique and below the counter. */
  ghost predicate Valid(st: Store) {
    && (forall i :: 0 <= i < |st.sources| ==> st.sources[i].id < st.nextId)
    && (forall i, j :: 0 <= i < j < |st.sources| ==> st.sources[i].id != st.sources[j].id)
  }

  /** The `where` clauses used on trends. */
  datatype TrendWhere =
    | OfSource(sourceId: nat)
    | CreatedBefore(sourceId: nat, time: int)
    | CreatedFrom(sourceId: nat, time: int)

  predicate Matches(w: TrendWhere, t: Trend) {
    match w
    case OfSource(id) => t.sourceId == id
    case CreatedBefore(id, time) => t.sourceId == id && t.createdAt < time
    case CreatedFrom(id, time) => t.sourceId == id && t.createdAt >= time
  }

  /** The trends whose match against `w` is `keep`, in store order:
      `findMany` when `keep` holds, what `deleteMany` leaves otherwise. */
  function Select(ts: seq<Trend>, w: TrendWhere, keep: bool): (r: seq<Trend>)
    ensures |r| <= |ts|
    ensures forall i :: 0 <= i < |r| ==> r[i] in ts && Matches(w, r[i]) == keep
    ensures forall i :: 0 <= i < |ts| && Matches(w, ts[i]) == keep ==> ts[i] in r
  {
    if |ts| == 0 then []
    else if Matches(w, ts[0]) == keep then [ts[0]] + Select(ts[1..], w, keep)
    else Select(ts[1..], w, keep)
  }

  function FindMany(ts: seq<Trend>, w: TrendWhere): seq<Trend> { Select(ts, w, true) }

  function DeleteMany(ts: seq<Trend>, w: TrendWhere): seq<Trend> { Select(ts, w, false) }

  /** Selection distributes over concatenation. */
  lemma {:induction false} SelectAppend(a: seq<Trend>, b: seq<Trend>, w: TrendWhere, keep: bool)
    ensures Select(a + b, w, keep) == Select(a, w, keep) + Select(b, w, keep)
    decreases |a|
  {
    if |a| == 0 {
      assert a + b == b;
    } else {
      assert (a + b)[1..] == a[1..] + b;
      SelectAppend(a[1..], b, w, keep);
    }
  }

  /** Selection keeps a sequence whose every element qualifies. */
  lemma {:induction false} SelectAll(ts: seq<Trend>, w: TrendWhere, keep: bool)
    requires forall i :: 0 <= i < |ts| ==> Matches(w, ts[i]) == keep
    ensures Select(ts, w, keep) == ts
    decreases |ts|
  {
    if |ts| > 0 {
      SelectAll(ts[1..], w, keep);
    }
  }

  /** Selection drops a sequence whose no element qualifies. */
  lemma {:induction false} SelectNone(ts: seq<Trend>, w: TrendWhere, keep: bool)
    requires forall i :: 0 <= i < |ts| ==> Matches(w, ts[i]) != keep
    ensures Select(ts, w, keep) == []
    decreases |ts|
  {
    if |ts| > 0 {
      SelectNone(ts[1..], w, keep);
    }
  }

  /** What `findMany` and `deleteMany` leave of a sequence partition it: no
      trend is counted twice or lost. */
  lemma {:induction false} SelectPartition(ts: seq<Trend>, w: TrendWhere)
    ensures |FindMany(ts, w)| + |DeleteMany(ts, w)| == |ts|
    ensures multiset(FindMany(ts, w)) + multiset(DeleteMany(ts, w)) == multiset(ts)
    decreases |ts|
  {
    if |ts| > 0 {
      SelectPartition(ts[1..], w);
      assert ts == [ts[0]] + ts[1..];
    }
  }

  /** Deleting trends of one source leaves the trends of any other source as they were. */
  lemma {:induction false} DeleteKeepsOthers(ts: seq<Trend>, id: nat, other: nat, w: TrendWhere)
    requires w.sourceId == id && other != id
    ensures FindMany(DeleteMany(ts, w), OfSource(other)) == FindMany(ts, OfSource(other))
    decreases |ts|
  {
    if |ts| > 0 {
      DeleteKeepsOthers(ts[1..], id, other, w);
    }
  }

  /** The first source of a type, in store order (`findFirst` without an order). */
  function FirstOfType(sources: seq<TrendSource>, t: Rss.SourceType): (r: Option<nat>)
    ensures r.Some? ==> r.value < |sources| && sources[r.value].sourceType == t
                        && forall k :: 0 <= k < r.value ==> sources[k].sourceType != t
    ensures r.None? ==> forall k :: 0 <= k < |sources| ==> sources[k].sourceType != t
  {
    if |sources| == 0 then None
    else if sources[0].sourceType == t then Some(0)
    else match FirstOfType(sources[1..], t)
      case None => None
      case Some(k) => Some(k + 1)
  }

  /** The position of the source with an id. */
  function IndexOfId(sources: seq<TrendSource>, id: nat): (r: Option<nat>)
    ensures r.Some? ==> r.value < |sources| && sources[r.value].id == id
    ensures r.None? ==> forall k :: 0 <= k < |sources| ==> sources[k].id != id
  {
    if |sources| == 0 then None
    else if sources[0].id == id then Some(0)
    else match IndexOfId(sources[1..], id)
      case None => None
      case Some(k) => Some(k + 1)
  }

  /** `trendSource.create`: the new row gets the next identifier and is appended. */
  function CreateSource(st: Store, name: string, sourceType: Rss.SourceType, rssUrl: Option<string>,
                        apiUrl: Option<string>, icon: Option<string>, description: Option<string>,
                        isActive: bool, now: int): (r: (Store, TrendSource))
    ensures r.0.sources == st.sources + [r.1] && r.0.trends == st.trends
    ensures r.1.id == st.nextId && r.0.nextId == st.nextId + 1
    ensures r.1 == TrendSource(st.nextId, name, sourceType, rssUrl, apiUrl, icon, description, isActive, None, now)
    ensures Valid(st) ==> Valid(r.0)
  {
    var s := TrendSource(st.nextId, name, sourceType, rssUrl, apiUrl, icon, description, isActive, None, now);
    (Store(st.sources + [s], st.trends, st.nextId + 1), s)
  }

  /** Stamps `refreshedAt` on the source at position `k`. */
  function StampRefreshed(sources: seq<TrendSource>, k: nat, now: int): (r: seq<TrendSource>)
    requires k < |sources|
    ensures |r| == |sources| && r[k] == sources[k].(refreshedAt := Some(now))
    ensures forall j :: 0 <= j < |r| && j != k ==> r[j] == sources[j]
  {
    sources[k := sources[k].(refreshedAt := Some(now))]
  }

  function HotScoreKey(t: Trend): real { t.hotScore }

  /** A source's trends ordered by descending hot score, at most 50
      (`include: { trends: { orderBy: { hotScore: 'desc' }, take: 50 } }`).
      Ties keep store order. */
  function TopTrends(ts: seq<Trend>, id: nat): (r: seq<Trend>)
    ensures |r| <= 50
    ensures StableSort.SortedDesc(r, HotScoreKey)
    ensures forall i :: 0 <= i < |r| ==> r[i] in ts && r[i].sourceId == id
  {
    var mine := FindMany(ts, OfSource(id));
    var sorted := StableSort.SortDesc(mine, HotScoreKey);
    StableSort.SortDescSameElements(mine, HotScoreKey);
    var r := JsArray.SlicePrefix(sorted, 50);
    assert forall i :: 0 <= i < |r| ==> r[i] in ts && r[i].sourceId == id by {
      forall i | 0 <= i < |r| ensures r[i] in ts && r[i].sourceId == id {
        assert r[i] == sorted[i];
        assert r[i] in mine;
      }
    }
    r
  }

  /** A prefix of a sequence sorted by descending hot score is drawn from it,
      and nothing left out scores above anything kept. */
  lemma SortedPrefixTop(sorted: seq<Trend>, n: nat)
    requires n <= |sorted| && StableSort.SortedDesc(sorted, HotScoreKey)
    ensures multiset(sorted[..n]) <= multiset(sorted)
    ensures forall t: Trend, i: int :: t in multiset(sorted) - multiset(sorted[..n]) && 0 <= i < n ==>
              t.hotScore <= sorted[i].hotScore
  {
    var top := sorted[..n];
    var rest := sorted[n..];
    assert sorted == top + rest;
    assert multiset(sorted) == multiset(top) + multiset(rest);
    assert multiset(sorted) - multiset(top) == multiset(rest);
    forall t: Trend, i: int | t in multiset(rest) && 0 <= i < n ensures t.hotScore <= sorted[i].hotScore {
      var j :| 0 <= j < |rest| && rest[j] == t;
      assert sorted[n + j] == t;
    }
  }

  /** The top 50 are drawn without repeats from the source's trends: a
      prefix of them sorted by descending hot score, of length `min(n, 50)`
      for `n` trends, all of them when `n <= 50`; every trend left out scores
      no higher than each trend listed. */
  lemma TopTrendsAreTop(ts: seq<Trend>, id: nat)
    ensures TopTrends(ts, id) == StableSort.SortDesc(FindMany(ts, OfSource(id)), HotScoreKey)[..|TopTrends(ts, id)|]
    ensures |TopTrends(ts, id)| == if |FindMany(ts, OfSource(id))| < 50 then |FindMany(ts, OfSource(id))| else 50
    ensures multiset(TopTrends(ts, id)) <= multiset(FindMany(ts, OfSource(id)))
    ensures |FindMany(ts, OfSource(id))| <= 50 ==> multiset(TopTrends(ts, id)) == multiset(FindMany(ts, OfSource(id)))
    ensures forall t: Trend, i: int :: t in multiset(FindMany(ts, OfSource(id))) - multiset(TopTrends(ts, id)) && 0 <= i < |TopTrends(ts, id)| ==>
              t.hotScore <= TopTrends(ts, id)[i].hotScore
  {
    var mine := FindMany(ts, OfSource(id));
    var sorted := StableSort.SortDesc(mine, HotScoreKey);
    var top := TopTrends(ts, id);
    assert top == JsArray.SlicePrefix(sorted, 50);
    SortedPrefixTop(sorted, |top|);
    if |mine| <= 50 {
      assert top == sorted;
    }
  }

  function NegCreatedAt(s: TrendSource): real { -(s.createdAt as real) }

  /** Sources ordered by ascending creation time; ties keep store order. */
  function ByCreatedAt(sources: seq<TrendSource>): (r: seq<TrendSource>)
    ensures |r| == |sources| && multiset(r) == multiset(sources)
    ensures forall i, j :: 0 <= i < j < |r| ==> r[i].createdAt <= r[j].createdAt
  {
    var r := StableSort.SortDesc(sources, NegCreatedAt);
    assert forall i, j :: 0 <= i < j < |r| ==> NegCreatedAt(r[i]) >= NegCreatedAt(r[j]);
    r
  }
}
