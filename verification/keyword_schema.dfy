/** The keyword input schemas (lib/validations/keyword.ts): a name within
    its length bounds, an integer popularity in `[0, 100]` defaulting to 0,
    an optional description of at most 1000 characters, and long tails and
    project ids defaulting to `[]`; the update schema makes every field
    optional without applying the defaults. */
module KeywordSchema {
  import opened Wrappers
  import opened Schema

  datatype KeywordInput = KeywordInput(name: Raw<string>, popularity: Raw<real>, description: Raw<string>,
                                       longTails: Raw<seq<string>>, projectIds: Raw<seq<string>>)

  datatype NewKeyword = NewKeyword(name: string, popularity: int, description: Option<string>,
                                   longTails: seq<string>, projectIds: seq<string>)

  datatype KeywordUpdate = KeywordUpdate(name: Option<string>, popularity: Option<int>, description: Option<string>,
                                         longTails: Option<seq<string>>, projectIds: Option<seq<string>>)

  const NameMax := 100
  const DescriptionMax := 1000

  predicate ValidPopularity(x: real) { 0.0 <= x <= 100.0 && x.Floor as real == x }

  /** `popularity`: an integer in `[0, 100]`, 0 when missing. */
  function PopularityCheck(f: Raw<real>): (r: Check<int>)
    ensures f.Missing? ==> r == Pass(0)
    ensures !f.Missing? ==> (r.Pass? <==> f.Given? && ValidPopularity(f.value))
    ensures r.Pass? ==> 0 <= r.value <= 100
    ensures r.Pass? && f.Given? ==> r.value as real == f.value
  {
    match f
    case Missing => Pass(0)
    case _ => (match BoundedNumber(f, 0.0, 100.0, true) case Pass(x) => Pass(x.Floor) case Fail => Fail)
  }

  /** `createKeywordSchema.safeParse`. */
  function ParseNewKeyword(input: KeywordInput): (r: Result<NewKeyword, seq<string>>)
    ensures r.Ok? <==>
              && input.name.Given? && 1 <= |input.name.value| <= 100
              && (input.popularity.Missing? || (input.popularity.Given? && ValidPopularity(input.popularity.value)))
              && (input.description.Missing? || (input.description.Given? && |input.description.value| <= 1000))
              && !input.longTails.WrongType? && !input.projectIds.WrongType?
    ensures r.Ok? ==> && r.value.name == input.name.value
                      && 0 <= r.value.popularity <= 100
                      && (input.popularity.Missing? ==> r.value.popularity == 0)
                      && (r.value.description.Some? ==> |r.value.description.value| <= 1000)
                      && (input.longTails.Missing? ==> r.value.longTails == [])
                      && (input.projectIds.Missing? ==> r.value.projectIds == [])
    ensures r.Err? ==> |r.error| > 0
  {
    var name := BoundedString(input.name, 1, Some(NameMax));
    var popularity := PopularityCheck(input.popularity);
    var description := OptionalString(input.description, 0, Some(DescriptionMax));
    var longTails := ArrayOrEmpty(input.longTails);
    var projectIds := ArrayOrEmpty(input.projectIds);
    if name.Pass? && popularity.Pass? && description.Pass? && longTails.Pass? && projectIds.Pass?
    then Ok(NewKeyword(name.value, popularity.value, description.value, longTails.value, projectIds.value))
    else Err(IssueIf(name, "name") + IssueIf(popularity, "popularity") + IssueIf(description, "description")
             + IssueIf(longTails, "longTails") + IssueIf(projectIds, "projectIds"))
  }

  /** `updateKeywordSchema.safeParse`: a present field obeys the creation check;
      a missing one stays missing, so no default is filled in. */
  function ParseKeywordUpdate(input: KeywordInput): (r: Result<KeywordUpdate, seq<string>>)
    ensures r.Ok? <==>
              && (input.name.Missing? || (input.name.Given? && 1 <= |input.name.value| <= 100))
              && (input.popularity.Missing? || (input.popularity.Given? && ValidPopularity(input.popularity.value)))
              && (input.description.Missing? || (input.description.Given? && |input.description.value| <= 1000))
              && !input.longTails.WrongType? && !input.projectIds.WrongType?
    ensures r.Ok? ==> && (r.value.name.None? <==> input.name.Missing?)
                      && (r.value.popularity.None? <==> input.popularity.Missing?)
                      && (r.value.longTails.None? <==> input.longTails.Missing?)
                      && (r.value.projectIds.None? <==> input.projectIds.Missing?)
    ensures r.Err? ==> |r.error| > 0
  {
    var name := OptionalString(input.name, 1, Some(NameMax));
    var popularity := if input.popularity.Missing? then Pass(None)
                      else (match PopularityCheck(input.popularity) case Pass(x) => Pass(Some(x)) case Fail => Fail);
    var description := OptionalString(input.description, 0, Some(DescriptionMax));
    var longTails := OptionalArray(input.longTails);
    var projectIds := OptionalArray(input.projectIds);
    if name.Pass? && popularity.Pass? && description.Pass? && longTails.Pass? && projectIds.Pass?
    then Ok(KeywordUpdate(name.value, popularity.value, description.value, longTails.value, projectIds.value))
    else Err(IssueIf(name, "name") + IssueIf(popularity, "popularity") + IssueIf(description, "description")
             + IssueIf(longTails, "longTails") + IssueIf(projectIds, "projectIds"))
  }

  /** The input a client would send for a keyword. */
  function KeywordAsInput(k: NewKeyword): KeywordInput {
    KeywordInput(Given(k.name), Given(k.popularity as real), OptionalRaw(k.description),
                 Given(k.longTails), Given(k.projectIds))
  }

  predicate WithinBounds(k: NewKeyword) {
    && 1 <= |k.name| <= NameMax && 0 <= k.popularity <= 100
    && (k.description.Some? ==> |k.description.value| <= DescriptionMax)
  }

  /** A keyword within the bounds survives sending and parsing unchanged, and
      parsing only ever yields keywords within the bounds. */
  lemma NewKeywordRoundTrip(k: NewKeyword, input: KeywordInput)
    ensures WithinBounds(k) ==> ParseNewKeyword(KeywordAsInput(k)) == Ok(k)
    ensures ParseNewKeyword(input).Ok? ==> WithinBounds(ParseNewKeyword(input).value)
  {
  }

  /** A fractional popularity is rejected even within range. */
  lemma FractionalPopularityRejected(input: KeywordInput)
    requires input.popularity == Given(50.5)
    ensures ParseNewKeyword(input).Err? && ParseKeywordUpdate(input).Err?
  {
    assert (50.5).Floor == 50;
  }

  /** An update naming only the popularity keeps every other field missing. */
  lemma UpdatePopularityOnly(p: int)
    requires 0 <= p <= 100
    ensures ParseKeywordUpdate(KeywordInput(Missing, Given(p as real), Missing, Missing, Missing))
         == Ok(KeywordUpdate(None, Some(p), None, None, None))
  {
  }
}
