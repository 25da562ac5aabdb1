/** The trend-source collection endpoint (app/api/trends/sources/route.ts):
    `GET` lists every source with its number of trends, `POST` lets an
    administrator create a source. */
module TrendSourcesRoute {
  import opened Wrappers
  import Rss
  import Admin
  import opened TrendStore

  /** The fields read from the JSON body; absent and `null` are both `None`. */
  datatype SourceBody = SourceBody(name: Option<string>, typeName: Option<string>, rssUrl: Option<string>,
                                   apiUrl: Option<string>, icon: Option<string>, description: Option<string>,
                                   isActive: Option<bool>)

  datatype CreateResponse =
    | CreateUnauthorized
    | CreateForbidden
    | CreateBadRequest
    | CreateFailed
    | Created(source: TrendSource)

  function CreateStatus(r: CreateResponse): int {
    match r
    case CreateUnauthorized => 401
    case CreateForbidden => 403
    case CreateBadRequest => 400
    case CreateFailed => 500
    case Created(_) => 200
  }

  /** The store's enumeration of source types; any other text is rejected by the store. */
  function ParseSourceType(s: string): (t: Option<Rss.SourceType>)
    ensures t.Some? ==> TypeName(t.value) == s
  {
    if s == "HACKER_NEWS" then Some(Rss.HackerNews)
    else if s == "REDDIT" then Some(Rss.Reddit)
    else if s == "PRODUCT_HUNT" then Some(Rss.ProductHunt)
    else if s == "GITHUB" then Some(Rss.Github)
    else if s == "OTHER" then Some(Rss.Other)
    else None
  }

  function TypeName(t: Rss.SourceType): string {
    match t
    case HackerNews => "HACKER_NEWS"
    case Reddit => "REDDIT"
    case ProductHunt => "PRODUCT_HUNT"
    case Github => "GITHUB"
    case Other => "OTHER"
  }

  /** Every source type is accepted under its own name. */
  lemma ParseTypeName(t: Rss.SourceType)
    ensures ParseSourceType(TypeName(t)) == Some(t)
  {
  }

  predicate Present(f: Option<string>) { f.Some? && f.value != "" }

  /** `POST /api/trends/sources`. The checks run in order: session (401),
      administrator (403), a readable body (500 otherwise), a non-empty name
      and type (400), a known type (the store's rejection is a 500). Only a
      created source changes the store; `isActive` defaults to true. */
  function CreateTrendSource(userId: Option<string>, adminEmails: Option<string>,
                             users: Result<map<string, string>, Admin.StoreError>,
                             body: Option<SourceBody>, st: Store, now: int): (r: (CreateResponse, Store))
    ensures userId.None? ==> r.0 == CreateUnauthorized
    ensures userId.Some? && !Admin.CheckAdminByClerkId(adminEmails, userId.value, users) ==> r.0 == CreateForbidden
    ensures r.0.CreateBadRequest? <==>
              && userId.Some? && Admin.CheckAdminByClerkId(adminEmails, userId.value, users)
              && body.Some? && (!Present(body.value.name) || !Present(body.value.typeName))
    ensures !r.0.Created? ==> r.1 == st
    ensures r.0.Created? ==>
              && userId.Some? && Admin.CheckAdminByClerkId(adminEmails, userId.value, users) && body.Some?
              && Present(body.value.name) && ParseSourceType(body.value.typeName.GetOr("")).Some?
              && r.1.sources == st.sources + [r.0.source] && r.1.trends == st.trends
              && r.0.source.id == st.nextId
              && r.0.source.name == body.value.name.value
              && TypeName(r.0.source.sourceType) == body.value.typeName.value
              && r.0.source.isActive == body.value.isActive.GetOr(true)
              && r.0.source.refreshedAt.None?
              && r.0.source == TrendSource(st.nextId, body.value.name.value, ParseSourceType(body.value.typeName.value).value,
                                           body.value.rssUrl, body.value.apiUrl, body.value.icon,
                                           body.value.description, body.value.isActive.GetOr(true), None, now)
    ensures (userId.Some? && Admin.CheckAdminByClerkId(adminEmails, userId.value, users) && body.None?)
            ==> r.0 == CreateFailed
    ensures (&& userId.Some? && Admin.CheckAdminByClerkId(adminEmails, userId.value, users) && body.Some?
             && Present(body.value.name) && Present(body.value.typeName))
            ==> && (r.0.Created? <==> ParseSourceType(body.value.typeName.value).Some?)
                && (ParseSourceType(body.value.typeName.value).None? ==> r.0 == CreateFailed)
    ensures Valid(st) ==> Valid(r.1)
  {
    match userId
    case None => (CreateUnauthorized, st)
    case Some(uid) =>
      if !Admin.CheckAdminByClerkId(adminEmails, uid, users) then (CreateForbidden, st)
      else match body
        case None => (CreateFailed, st)
        case Some(b) =>
          if !Present(b.name) || !Present(b.typeName) then (CreateBadRequest, st)
          else match ParseSourceType(b.typeName.value)
            case None => (CreateFailed, st)
            case Some(t) =>
              var created := CreateSource(st, b.name.value, t, b.rssUrl, b.apiUrl, b.icon, b.description,
                                          b.isActive.GetOr(true), now);
              (Created(created.1), created.0)
  }

  /** `isActive` is true when absent, and an explicit value is kept. */
  lemma CreatedActiveFlag(userId: Option<string>, adminEmails: Option<string>,
                          users: Result<map<string, string>, Admin.StoreError>,
                          b: SourceBody, st: Store, now: int)
    requires userId.Some? && Admin.CheckAdminByClerkId(adminEmails, userId.value, users)
    requires Present(b.name) && Present(b.typeName) && ParseSourceType(b.typeName.value).Some?
    ensures var r := CreateTrendSource(userId, adminEmails, users, Some(b), st, now).0;
            && r.Created?
            && (b.isActive.None? ==> r.source.isActive)
            && (b.isActive == Some(false) ==> !r.source.isActive)
  {
  }

  /** One source as listed, with its number of trends. */
  datatype SourceCount = SourceCount(source: TrendSource, trendCount: nat)

  datatype ListResponse = ListUnauthorized | SourcesList(sources: seq<SourceCount>)

  /** `GET /api/trends/sources`: every source by ascending creation time, with
      the number of trends it owns. */
  function ListSources(userId: Option<string>, st: Store): (r: ListResponse)
    ensures userId.None? <==> r.ListUnauthorized?
    ensures r.SourcesList? ==>
              && |r.sources| == |st.sources|
              && (forall i, j :: 0 <= i < j < |r.sources| ==> r.sources[i].source.createdAt <= r.sources[j].source.createdAt)
              && forall i :: 0 <= i < |r.sources| ==>
                   && r.sources[i].source in st.sources
                   && r.sources[i].trendCount == |FindMany(st.trends, OfSource(r.sources[i].source.id))|
  {
    match userId
    case None => ListUnauthorized
    case Some(_) =>
      var ordered := ByCreatedAt(st.sources);
      assert forall i :: 0 <= i < |ordered| ==> ordered[i] in st.sources by {
        forall i | 0 <= i < |ordered| ensures ordered[i] in st.sources {
          assert ordered[i] in multiset(st.sources);
        }
      }
      SourcesList(seq(|ordered|, i requires 0 <= i < |ordered| =>
        SourceCount(ordered[i], |FindMany(st.trends, OfSource(ordered[i].id))|)))
  }

  /** Every source is listed, and a source's count is the number of trends
      that `deleteMany` by source would remove. */
  lemma ListSourcesComplete(userId: Option<string>, st: Store, s: TrendSource)
    requires userId.Some? && s in st.sources
    ensures exists i :: 0 <= i < |ListSources(userId, st).sources| && ListSources(userId, st).sources[i].source == s
    ensures |FindMany(st.trends, OfSource(s.id))| == |st.trends| - |DeleteMany(st.trends, OfSource(s.id))|
  {
    var ordered := ByCreatedAt(st.sources);
    assert s in multiset(ordered);
    var i :| 0 <= i < |ordered| && ordered[i] == s;
    assert ListSources(userId, st).sources[i].source == s;
    SelectPartition(st.trends, OfSource(s.id));
  }
}
