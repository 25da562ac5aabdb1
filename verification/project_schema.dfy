/** The project input schemas (lib/validations/project.ts): creation requires
    a name, an idea and a type within their length bounds and defaults the
    tags to `[]`; the update schema makes every creation field optional
    (without applying defaults) and adds the status and validation fields. */
module ProjectSchema {
  import opened Wrappers
  import opened Schema

  datatype RevenueModel = Subscription | OneTime | Freemium | Advertising | Commission | OtherModel

  datatype Status = Idea | Validating | InProgress | MvpLaunched | Running | Success | Failed

  function ParseRevenueModel(s: string): (r: Option<RevenueModel>)
    ensures r.Some? ==> RevenueModelName(r.value) == s
  {
    if s == "SUBSCRIPTION" then Some(Subscription)
    else if s == "ONE_TIME" then Some(OneTime)
    else if s == "FREEMIUM" then Some(Freemium)
    else if s == "ADVERTISING" then Some(Advertising)
    else if s == "COMMISSION" then Some(Commission)
    else if s == "OTHER" then Some(OtherModel)
    else None
  }

  function RevenueModelName(m: RevenueModel): string {
    match m
    case Subscription => "SUBSCRIPTION"
    case OneTime => "ONE_TIME"
    case Freemium => "FREEMIUM"
    case Advertising => "ADVERTISING"
    case Commission => "COMMISSION"
    case OtherModel => "OTHER"
  }

  function ParseStatus(s: string): (r: Option<Status>)
    ensures r.Some? ==> StatusName(r.value) == s
  {
    if s == "IDEA" then Some(Idea)
    else if s == "VALIDATING" then Some(Validating)
    else if s == "IN_PROGRESS" then Some(InProgress)
    else if s == "MVP_LAUNCHED" then Some(MvpLaunched)
    else if s == "RUNNING" then Some(Running)
    else if s == "SUCCESS" then Some(Success)
    else if s == "FAILED" then Some(Failed)
    else None
  }

  function StatusName(s: Status): string {
    match s
    case Idea => "IDEA"
    case Validating => "VALIDATING"
    case InProgress => "IN_PROGRESS"
    case MvpLaunched => "MVP_LAUNCHED"
    case Running => "RUNNING"
    case Success => "SUCCESS"
    case Failed => "FAILED"
  }

  /** Every enumeration value is accepted under its own name, and only the
      listed names are accepted. */
  lemma EnumNamesRoundTrip(m: RevenueModel, s: Status, text: string)
    ensures ParseRevenueModel(RevenueModelName(m)) == Some(m)
    ensures ParseStatus(StatusName(s)) == Some(s)
    ensures ParseRevenueModel(text).Some? <==>
              text in ["SUBSCRIPTION", "ONE_TIME", "FREEMIUM", "ADVERTISING", "COMMISSION", "OTHER"]
    ensures ParseStatus(text).Some? <==>
              text in ["IDEA", "VALIDATING", "IN_PROGRESS", "MVP_LAUNCHED", "RUNNING", "SUCCESS", "FAILED"]
  {
  }

  /** An enumeration field given as text. */
  function EnumField<E>(f: Raw<string>, parse: string -> Option<E>): (r: Check<Option<E>>)
    ensures f.Missing? ==> r == Pass(None)
    ensures f.Given? ==> (r.Pass? <==> parse(f.value).Some?)
    ensures f.Given? && r.Pass? ==> r.value == parse(f.value)
    ensures f.WrongType? ==> r.Fail?
  {
    match f
    case Missing => Pass(None)
    case Given(s) => (match parse(s) case Some(e) => Pass(Some(e)) case None => Fail)
    case WrongType => Fail
  }

  // ---------------------------------------------------------------------------
  // Creation

  datatype ProjectInput = ProjectInput(name: Raw<string>, idea: Raw<string>, projectType: Raw<string>,
                                       startDate: Raw<string>, targetMarket: Raw<string>,
                                       revenueModel: Raw<string>, budget: Raw<string>,
                                       expectedDuration: Raw<string>, tags: Raw<seq<string>>)

  datatype NewProject = NewProject(name: string, idea: string, projectType: string,
                                   startDate: Option<string>, targetMarket: Option<string>,
                                   revenueModel: Option<RevenueModel>, budget: Option<string>,
                                   expectedDuration: Option<string>, tags: seq<string>)

  const NameMax := 100
  const IdeaMin := 10
  const IdeaMax := 5000

  function NameCheck(f: Raw<string>): Check<string> { BoundedString(f, 1, Some(NameMax)) }
  function IdeaCheck(f: Raw<string>): Check<string> { BoundedString(f, IdeaMin, Some(IdeaMax)) }
  function TypeCheck(f: Raw<string>): Check<string> { BoundedString(f, 1, None) }
  function TextCheck(f: Raw<string>): Check<Option<string>> { OptionalString(f, 0, None) }

  predicate ValidOptionalText(f: Raw<string>) { f.Missing? || f.Given? }

  /** `createProjectSchema.safeParse`: the parsed project, or the names of the
      failing fields in schema order. */
  function ParseNewProject(input: ProjectInput): (r: Result<NewProject, seq<string>>)
    ensures r.Ok? <==>
              && input.name.Given? && 1 <= |input.name.value| <= 100
              && input.idea.Given? && 10 <= |input.idea.value| <= 5000
              && input.projectType.Given? && |input.projectType.value| >= 1
              && ValidOptionalText(input.startDate) && ValidOptionalText(input.targetMarket)
              && (input.revenueModel.Missing? || (input.revenueModel.Given? && ParseRevenueModel(input.revenueModel.value).Some?))
              && ValidOptionalText(input.budget) && ValidOptionalText(input.expectedDuration)
              && !input.tags.WrongType?
    ensures r.Ok? ==> && r.value.name == input.name.value && r.value.idea == input.idea.value
                      && r.value.projectType == input.projectType.value
                      && r.value.tags == (if input.tags.Missing? then [] else input.tags.value)
    ensures r.Err? ==> |r.error| > 0
  {
    var name := NameCheck(input.name);
    var idea := IdeaCheck(input.idea);
    var ty := TypeCheck(input.projectType);
    var start := TextCheck(input.startDate);
    var market := TextCheck(input.targetMarket);
    var revenue := EnumField(input.revenueModel, ParseRevenueModel);
    var budget := TextCheck(input.budget);
    var duration := TextCheck(input.expectedDuration);
    var tags := ArrayOrEmpty(input.tags);
    if name.Pass? && idea.Pass? && ty.Pass? && start.Pass? && market.Pass? && revenue.Pass?
       && budget.Pass? && duration.Pass? && tags.Pass?
    then Ok(NewProject(name.value, idea.value, ty.value, start.value, market.value, revenue.value,
                       budget.value, duration.value, tags.value))
    else Err(IssueIf(name, "name") + IssueIf(idea, "idea") + IssueIf(ty, "type")
             + IssueIf(start, "startDate") + IssueIf(market, "targetMarket")
             + IssueIf(revenue, "revenueModel") + IssueIf(budget, "budget")
             + IssueIf(duration, "expectedDuration") + IssueIf(tags, "tags"))
  }

  /** The input a client would send for a project. */
  function ProjectAsInput(p: NewProject): ProjectInput {
    ProjectInput(Given(p.name), Given(p.idea), Given(p.projectType), OptionalRaw(p.startDate),
                 OptionalRaw(p.targetMarket),
                 OptionalRaw(if p.revenueModel.Some? then Some(RevenueModelName(p.revenueModel.value)) else None),
                 OptionalRaw(p.budget), OptionalRaw(p.expectedDuration), Given(p.tags))
  }

  predicate WithinBounds(p: NewProject) {
    1 <= |p.name| <= NameMax && IdeaMin <= |p.idea| <= IdeaMax && |p.projectType| >= 1
  }

  /** A project within the bounds survives sending and parsing unchanged, and
      parsing only ever yields projects within the bounds. */
  lemma NewProjectRoundTrip(p: NewProject, input: ProjectInput)
    ensures WithinBounds(p) ==> ParseNewProject(ProjectAsInput(p)) == Ok(p)
    ensures ParseNewProject(input).Ok? ==> WithinBounds(ParseNewProject(input).value)
  {
    if WithinBounds(p) && p.revenueModel.Some? {
      EnumNamesRoundTrip(p.revenueModel.value, Idea, "");
    }
  }

  /** Missing tags default to the empty list. */
  lemma TagsDefault(input: ProjectInput)
    requires input.tags.Missing? && ParseNewProject(input).Ok?
    ensures ParseNewProject(input).value.tags == []
  {
  }

  // ---------------------------------------------------------------------------
  // Update

  datatype ProjectUpdateInput = ProjectUpdateInput(
    fields: ProjectInput, status: Raw<string>, validationKeywords: Raw<seq<string>>,
    validationScore: Raw<real>, validationSummary: Raw<string>)

  /** The creation fields, each optional. */
  datatype PartialProject = PartialProject(
    name: Option<string>, idea: Option<string>, projectType: Option<string>,
    startDate: Option<string>, targetMarket: Option<string>, revenueModel: Option<RevenueModel>,
    budget: Option<string>, expectedDuration: Option<string>, tags: Option<seq<string>>)

  datatype ProjectUpdate = ProjectUpdate(
    fields: PartialProject, status: Option<Status>, validationKeywords: Option<seq<string>>,
    validationScore: Option<real>, validationSummary: Option<string>)

  function OptionalNumber(f: Raw<real>, min: real, max: real): (r: Check<Option<real>>)
    ensures f.Missing? ==> r == Pass(None)
    ensures !f.Missing? ==> (r.Pass? <==> f.Given? && min <= f.value <= max)
    ensures r.Pass? && r.value.Some? ==> f == Given(r.value.value)
  {
    match f
    case Missing => Pass(None)
    case _ => (match BoundedNumber(f, min, max, false) case Pass(x) => Pass(Some(x)) case Fail => Fail)
  }

  /** `createProjectSchema.partial()`: each creation field may be missing, a
      present one obeys its creation check, and missing tags stay missing. */
  function ParsePartialProject(f: ProjectInput): (r: Result<PartialProject, seq<string>>)
    ensures r.Ok? <==>
              && (f.name.Missing? || (f.name.Given? && 1 <= |f.name.value| <= 100))
              && (f.idea.Missing? || (f.idea.Given? && 10 <= |f.idea.value| <= 5000))
              && (f.projectType.Missing? || (f.projectType.Given? && |f.projectType.value| >= 1))
              && ValidOptionalText(f.startDate) && ValidOptionalText(f.targetMarket)
              && (f.revenueModel.Missing? || (f.revenueModel.Given? && ParseRevenueModel(f.revenueModel.value).Some?))
              && ValidOptionalText(f.budget) && ValidOptionalText(f.expectedDuration)
              && !f.tags.WrongType?
    ensures r.Ok? ==> (r.value.tags.None? <==> f.tags.Missing?)
    ensures r.Err? ==> |r.error| > 0
  {
    var name := OptionalString(f.name, 1, Some(NameMax));
    var idea := OptionalString(f.idea, IdeaMin, Some(IdeaMax));
    var ty := OptionalString(f.projectType, 1, None);
    var start := TextCheck(f.startDate);
    var market := TextCheck(f.targetMarket);
    var revenue := EnumField(f.revenueModel, ParseRevenueModel);
    var budget := TextCheck(f.budget);
    var duration := TextCheck(f.expectedDuration);
    var tags := OptionalArray(f.tags);
    if name.Pass? && idea.Pass? && ty.Pass? && start.Pass? && market.Pass? && revenue.Pass?
       && budget.Pass? && duration.Pass? && tags.Pass?
    then Ok(PartialProject(name.value, idea.value, ty.value, start.value, market.value, revenue.value,
                           budget.value, duration.value, tags.value))
    else Err(IssueIf(name, "name") + IssueIf(idea, "idea") + IssueIf(ty, "type")
             + IssueIf(start, "startDate") + IssueIf(market, "targetMarket")
             + IssueIf(revenue, "revenueModel") + IssueIf(budget, "budget")
             + IssueIf(duration, "expectedDuration") + IssueIf(tags, "tags"))
  }

  /** `updateProjectSchema.safeParse`: the partial creation fields, a status
      among the seven states and a validation score in `[0, 100]`, each
      optional. */
  function ParseProjectUpdate(input: ProjectUpdateInput): (r: Result<ProjectUpdate, seq<string>>)
    ensures r.Ok? <==>
              && ParsePartialProject(input.fields).Ok?
              && (input.status.Missing? || (input.status.Given? && ParseStatus(input.status.value).Some?))
              && !input.validationKeywords.WrongType?
              && (input.validationScore.Missing? || (input.validationScore.Given? && 0.0 <= input.validationScore.value <= 100.0))
              && ValidOptionalText(input.validationSummary)
    ensures r.Ok? && r.value.validationScore.Some? ==> 0.0 <= r.value.validationScore.value <= 100.0
    ensures r.Ok? ==> r.value.fields == ParsePartialProject(input.fields).value
    ensures r.Err? ==> |r.error| > 0
  {
    var fields := ParsePartialProject(input.fields);
    var status := EnumField(input.status, ParseStatus);
    var keywords := OptionalArray(input.validationKeywords);
    var score := OptionalNumber(input.validationScore, 0.0, 100.0);
    var summary := TextCheck(input.validationSummary);
    if fields.Ok? && status.Pass? && keywords.Pass? && score.Pass? && summary.Pass?
    then Ok(ProjectUpdate(fields.value, status.value, keywords.value, score.value, summary.value))
    else Err((if fields.Err? then fields.error else [])
             + IssueIf(status, "status") + IssueIf(keywords, "validationKeywords")
             + IssueIf(score, "validationScore") + IssueIf(summary, "validationSummary"))
  }

  const EmptyProjectInput := ProjectInput(Missing, Missing, Missing, Missing, Missing, Missing, Missing, Missing, Missing)

  /** An empty update is valid and changes nothing: no default is filled in. */
  lemma EmptyUpdate()
    ensures ParseProjectUpdate(ProjectUpdateInput(EmptyProjectInput, Missing, Missing, Missing, Missing))
         == Ok(ProjectUpdate(PartialProject(None, None, None, None, None, None, None, None, None), None, None, None, None))
  {
  }

  /** Every valid creation input is a valid update input with the same values. */
  lemma CreateIsValidUpdate(input: ProjectInput)
    requires ParseNewProject(input).Ok? && input.tags.Given?
    ensures var u := ParseProjectUpdate(ProjectUpdateInput(input, Missing, Missing, Missing, Missing));
            var p := ParseNewProject(input).value;
            && u.Ok?
            && u.value.fields.name == Some(p.name) && u.value.fields.idea == Some(p.idea)
            && u.value.fields.projectType == Some(p.projectType) && u.value.fields.tags == Some(p.tags)
  {
  }
}
