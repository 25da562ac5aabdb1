/** The bookmark collection endpoint (app/api/bookmarks/route.ts): every
    user starts with the same nine default bookmarks, seeded the first time
    the list is read, and may add bookmarks of their own. The store is a
    sequence of rows; the user table is a map from the session's user id to
    the store's user id. */
module BookmarksRoute {
  import opened Wrappers
  import JsArray

  datatype Bookmark = Bookmark(userId: string, name: string, url: string, description: Option<string>,
                               category: string, favicon: Option<string>, isDefault: bool, order: Option<nat>)

  /** One entry of the default list, before it is given a user. */
  datatype Default = Default(name: string, url: string, description: string, category: string,
                             favicon: string, order: nat)

  const DefaultBookmarks: seq<Default> := [
    Default("Hacker News", "https://news.ycombinator.com", "技术新闻和讨论社区", "NEWS",
            "https://news.ycombinator.com/favicon.ico", 1),
    Default("Reddit", "https://www.reddit.com", "全球最大的社区讨论平台", "NEWS",
            "https://www.reddit.com/favicon.ico", 2),
    Default("Product Hunt", "https://www.producthunt.com", "发现最新产品和工具", "NEWS",
            "https://www.producthunt.com/favicon.ico", 3),
    Default("Google", "https://www.google.com", "全球最大的搜索引擎", "SEARCH",
            "https://www.google.com/favicon.ico", 4),
    Default("Google Trends", "https://trends.google.com", "探索搜索趋势和热门话题", "SEARCH",
            "https://trends.google.com/favicon.ico", 5),
    Default("Google Ads", "https://ads.google.com", "在线广告投放平台", "MARKETING",
            "https://ads.google.com/favicon.ico", 6),
    Default("Google Analytics", "https://analytics.google.com", "网站流量分析工具", "ANALYTICS",
            "https://analytics.google.com/favicon.ico", 7),
    Default("Google Search Console", "https://search.google.com/search-console", "SEO和搜索优化工具", "MARKETING",
            "https://www.google.com/favicon.ico", 8),
    Default("Google AdSense", "https://www.google.com/adsense", "网站变现广告平台", "MONETIZATION",
            "https://www.google.com/favicon.ico", 9)
  ]

  /** The default list given to one user. */
  function DefaultsFor(userId: string): (r: seq<Bookmark>)
    ensures |r| == |DefaultBookmarks|
    ensures forall i :: 0 <= i < |r| ==>
              && r[i].userId == userId && r[i].isDefault
              && r[i].name == DefaultBookmarks[i].name && r[i].url == DefaultBookmarks[i].url
              && r[i].order == Some(DefaultBookmarks[i].order)
  {
    seq(|DefaultBookmarks|, i requires 0 <= i < |DefaultBookmarks| =>
      var d := DefaultBookmarks[i];
      Bookmark(userId, d.name, d.url, Some(d.description), d.category, Some(d.favicon), true, Some(d.order)))
  }

  /** The nine defaults are numbered 1 to 9 in list order, so no two share
      an order; each is marked as a default and carries a favicon. */
  lemma DefaultsShape(userId: string)
    ensures |DefaultsFor(userId)| == 9
    ensures forall i :: 0 <= i < 9 ==> DefaultsFor(userId)[i].order == Some(i + 1)
    ensures forall i, j :: 0 <= i < j < 9 ==> DefaultsFor(userId)[i].order != DefaultsFor(userId)[j].order
    ensures forall i :: 0 <= i < 9 ==> DefaultsFor(userId)[i].isDefault && DefaultsFor(userId)[i].favicon.Some?
  {
  }

  predicate HasDefaults(bs: seq<Bookmark>, userId: string) {
    exists i :: 0 <= i < |bs| && bs[i].userId == userId && bs[i].isDefault
  }

  /** `initializeDefaultBookmarks`: the defaults are added only when the user
      has no default bookmark yet. */
  function Seed(bs: seq<Bookmark>, userId: string): (r: seq<Bookmark>)
    ensures HasDefaults(r, userId)
    ensures HasDefaults(bs, userId) ==> r == bs
    ensures !HasDefaults(bs, userId) ==> r == bs + DefaultsFor(userId)
  {
    if HasDefaults(bs, userId) then bs
    else
      var r := bs + DefaultsFor(userId);
      assert r[|bs|].userId == userId && r[|bs|].isDefault;
      r
  }

  /** Seeding twice adds nothing the first seeding did not. */
  lemma SeedIdempotent(bs: seq<Bookmark>, userId: string)
    ensures Seed(Seed(bs, userId), userId) == Seed(bs, userId)
  {
  }

  function OfUser(userId: string): Bookmark -> bool { (b: Bookmark) => b.userId == userId }

  /** Seeding one user leaves every other user's bookmarks as they were. */
  lemma SeedKeepsOthers(bs: seq<Bookmark>, userId: string, other: string)
    requires other != userId
    ensures JsArray.Filter(Seed(bs, userId), OfUser(other)) == JsArray.Filter(bs, OfUser(other))
  {
    if !HasDefaults(bs, userId) {
      JsArray.FilterAppend(bs, DefaultsFor(userId), OfUser(other));
      NoneOfUser(DefaultsFor(userId), other);
    }
  }

  lemma {:induction false} NoneOfUser(bs: seq<Bookmark>, other: string)
    requires forall i :: 0 <= i < |bs| ==> bs[i].userId != other
    ensures JsArray.Filter(bs, OfUser(other)) == []
    decreases |bs|
  {
    if |bs| > 0 {
      NoneOfUser(bs[1..], other);
    }
  }

  datatype ListResponse = ListUnauthorized | ListNotFound | Listed(bookmarks: seq<Bookmark>)

  /** `GET /api/bookmarks`: 401 without a session and 404 without a store
      user, both before any write; otherwise the user is seeded and their
      bookmarks are listed. */
  function ListBookmarks(sessionId: Option<string>, users: map<string, string>, bs: seq<Bookmark>)
    : (r: (ListResponse, seq<Bookmark>))
    ensures sessionId.None? ==> r == (ListUnauthorized, bs)
    ensures sessionId.Some? && sessionId.value !in users ==> r == (ListNotFound, bs)
    ensures sessionId.Some? && sessionId.value in users ==> r.0.Listed?
    ensures r.0.Listed? ==>
              forall b :: multiset(r.0.bookmarks)[b] == if b.userId == users[sessionId.value] then multiset(r.1)[b] else 0
    ensures r.0.Listed? ==>
              && sessionId.Some? && sessionId.value in users
              && r.1 == Seed(bs, users[sessionId.value])
              && HasDefaults(r.0.bookmarks, users[sessionId.value])
              && forall i :: 0 <= i < |r.0.bookmarks| ==> r.0.bookmarks[i].userId == users[sessionId.value]
  {
    match sessionId
    case None => (ListUnauthorized, bs)
    case Some(sid) =>
      if sid !in users then (ListNotFound, bs)
      else
        var uid := users[sid];
        var seeded := Seed(bs, uid);
        var mine := JsArray.Filter(seeded, OfUser(uid));
        var k :| 0 <= k < |seeded| && seeded[k].userId == uid && seeded[k].isDefault;
        assert seeded[k] in mine;
        JsArray.FilterMultiset(seeded, OfUser(uid));
        (Listed(mine), seeded)
  }

  /** The fields read from the JSON body; absent and `null` are both `None`. */
  datatype BookmarkBody = BookmarkBody(name: Option<string>, url: Option<string>,
                                       description: Option<string>, category: Option<string>)

  datatype CreateResponse = CreateUnauthorized | CreateNotFound | CreateBadRequest | CreateFailed
                          | Created(bookmark: Bookmark)

  function CreateStatus(r: CreateResponse): int {
    match r
    case CreateUnauthorized => 401
    case CreateNotFound => 404
    case CreateBadRequest => 400
    case CreateFailed => 500
    case Created(_) => 200
  }

  /** A truthy string field: present and not empty. */
  predicate Present(f: Option<string>) { f.Some? && f.value != "" }

  /** `POST /api/bookmarks`. The checks run in order: session (401), store
      user (404), a readable body (500 otherwise), a non-empty name, url and
      category (400). `origin` stands for `new URL(url).origin`, `None` when
      the url does not parse; the favicon is then left empty. Only a created
      bookmark changes the store. */
  function CreateBookmark(sessionId: Option<string>, users: map<string, string>,
                          body: Option<BookmarkBody>, origin: string -> Option<string>,
                          bs: seq<Bookmark>): (r: (CreateResponse, seq<Bookmark>))
    ensures sessionId.None? ==> r.0 == CreateUnauthorized
    ensures sessionId.Some? && sessionId.value !in users ==> r.0 == CreateNotFound
    ensures r.0.CreateBadRequest? <==>
              && sessionId.Some? && sessionId.value in users && body.Some?
              && (!Present(body.value.name) || !Present(body.value.url) || !Present(body.value.category))
    ensures !r.0.Created? ==> r.1 == bs
    ensures r.0.Created? ==>
              && sessionId.Some? && sessionId.value in users && body.Some?
              && r.1 == bs + [r.0.bookmark]
              && r.0.bookmark.userId == users[sessionId.value]
              && !r.0.bookmark.isDefault
              && r.0.bookmark.name == body.value.name.value && r.0.bookmark.name != ""
              && r.0.bookmark.url == body.value.url.value && r.0.bookmark.url != ""
              && r.0.bookmark.category == body.value.category.value
              && r.0.bookmark.description == (if Present(body.value.description) then body.value.description else None)
              && (r.0.bookmark.favicon.Some? <==> origin(body.value.url.value).Some?)
              && (r.0.bookmark.favicon.Some? ==> r.0.bookmark.favicon.value == origin(body.value.url.value).value + "/favicon.ico")
    ensures sessionId.Some? && sessionId.value in users && body.None? ==> r.0 == CreateFailed
    ensures (&& sessionId.Some? && sessionId.value in users && body.Some?
             && Present(body.value.name) && Present(body.value.url) && Present(body.value.category))
            ==> r.0.Created?
  {
    match sessionId
    case None => (CreateUnauthorized, bs)
    case Some(sid) =>
      if sid !in users then (CreateNotFound, bs)
      else match body
        case None => (CreateFailed, bs)
        case Some(b) =>
          if !Present(b.name) || !Present(b.url) || !Present(b.category) then (CreateBadRequest, bs)
          else
            var favicon := match origin(b.url.value)
                           case None => None
                           case Some(o) => Some(o + "/favicon.ico");
            var description := if Present(b.description) then b.description else None;
            var created := Bookmark(users[sid], b.name.value, b.url.value, description, b.category.value,
                                    favicon, false, None);
            (Created(created), bs + [created])
  }

  /** A created bookmark is never a default one, so adding bookmarks does not
      stop the defaults from being seeded for a user who has none. */
  lemma CreateKeepsSeeding(sessionId: Option<string>, users: map<string, string>,
                           body: Option<BookmarkBody>, origin: string -> Option<string>,
                           bs: seq<Bookmark>, userId: string)
    ensures HasDefaults(CreateBookmark(sessionId, users, body, origin, bs).1, userId) <==> HasDefaults(bs, userId)
  {
    var r := CreateBookmark(sessionId, users, body, origin, bs);
    if r.0.Created? && HasDefaults(r.1, userId) {
      var i :| 0 <= i < |r.1| && r.1[i].userId == userId && r.1[i].isDefault;
      assert i < |bs| && r.1[i] == bs[i];
    }
    if HasDefaults(bs, userId) {
      var i :| 0 <= i < |bs| && bs[i].userId == userId && bs[i].isDefault;
      assert r.1[i] == bs[i];
    }
  }
}
