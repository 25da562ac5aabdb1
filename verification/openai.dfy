/** The deterministic shell around the language-model calls (lib/openai.ts):
    keyword extraction with its JSON, regular-expression and fallback paths,
    and the feasibility analysis with its sample, clamp and default answer.
    The chat completion and `JSON.parse` are oracle parameters. */
module OpenAi {
  import opened Wrappers
  import JsText
  import JsArray

  datatype OpenAiError = MissingApiKey

  /** What the keyword prompt is built from; the target market line appears
      only when a non-empty market is given. */
  datatype KeywordPrompt = KeywordPrompt(name: string, idea: string, targetMarket: Option<string>)

  /** One post as it enters the analysis prompt: its 1-based position and its
      content cut to 300 characters. */
  datatype PostContext = PostContext(position: nat, subreddit: string, score: int, numComments: int,
                                     title: string, content: string)

  datatype AnalysisPrompt = AnalysisPrompt(idea: string, posts: seq<PostContext>)

  /** A post handed to the analysis. */
  datatype AnalysisPost = AnalysisPost(title: string, content: string, score: int, numComments: int,
                                       subreddit: string)

  /** The outcome of the chat completion: `Err` when the call throws, `Ok(None)`
      when the first choice carries no content. */
  type Completion = Result<Option<string>, string>

  /** What `JSON.parse` makes of the keyword response. */
  datatype KeywordJson = JsonArray(items: seq<string>) | JsonNotArray | JsonSyntaxError

  /** The fields read from the parsed analysis response; `None` when parsing
      or reading them throws. */
  datatype AnalysisJson = AnalysisJson(score: real, summary: string)

  datatype Analysis = Analysis(score: real, summary: string)

  const MaxKeywords := 8
  const DefaultScore: real := 50.0
  const DefaultSummary := "基于收集到的数据，项目具有一定的市场潜力，但需要更多验证。"

  /** The content read from a completion, trimmed; `None` when it is missing
      or blank, which the source treats as a failure. */
  function ResponseText(c: Completion): (r: Option<string>)
    ensures r.Some? ==> |r.value| > 0 && c.Ok? && c.value.Some? && r.value == JsText.Trim(c.value.value)
    ensures r.None? ==> c.Err? || c.value.None? || JsText.AllSpace(c.value.value)
  {
    match c
    case Err(_) => None
    case Ok(None) => None
    case Ok(Some(text)) =>
      JsText.TrimEmptyIffAllSpace(text);
      if |JsText.Trim(text)| == 0 then None else Some(JsText.Trim(text))
  }

  // ---------------------------------------------------------------------------
  // Quoted-string recovery: `content.match(/"([^"]+)"/g)` with the quotes removed

  /** The first `"` at or after `from`, or `|s|` when there is none. */
  function NextQuote(s: string, from: nat): (j: nat)
    requires from <= |s|
    ensures from <= j <= |s|
    ensures j < |s| ==> s[j] == '"'
    ensures forall k :: from <= k < j ==> s[k] != '"'
    decreases |s| - from
  {
    if from == |s| || s[from] == '"' then from else NextQuote(s, from + 1)
  }

  /** The texts of the non-overlapping matches of `"[^"]+"`, scanning left to
      right: an opening quote followed directly by another quote, or by no
      closing quote at all, does not match and the scan moves on by one. */
  function QuotedStrings(s: string): (r: seq<string>)
    ensures forall i :: 0 <= i < |r| ==> |r[i]| > 0 && '"' !in r[i]
    decreases |s|
  {
    if |s| == 0 then []
    else if s[0] != '"' then QuotedStrings(s[1..])
    else
      var j := NextQuote(s, 1);
      if j == |s| || j == 1 then QuotedStrings(s[1..])
      else
        assert forall k :: 0 <= k < j - 1 ==> s[1..j][k] == s[k + 1];
        [s[1..j]] + QuotedStrings(s[j + 1..])
  }

  function Quote(w: string): string { "\"" + w + "\"" }

  /** Keywords rendered as the prompt asks: quoted and separated by `, `. */
  function QuotedList(ws: seq<string>): string
  {
    if |ws| == 0 then ""
    else if |ws| == 1 then Quote(ws[0])
    else Quote(ws[0]) + ", " + QuotedList(ws[1..])
  }

  /** Text without quotes holds no match. */
  lemma {:induction false} QuotedStringsNoQuote(s: string)
    requires '"' !in s
    ensures QuotedStrings(s) == []
    decreases |s|
  {
    if |s| > 0 {
      QuotedStringsNoQuote(s[1..]);
    }
  }

  /** A quote-free prefix is skipped. */
  lemma {:induction false} QuotedStringsSkip(p: string, t: string)
    requires '"' !in p
    ensures QuotedStrings(p + t) == QuotedStrings(t)
    decreases |p|
  {
    if |p| > 0 {
      assert (p + t)[1..] == p[1..] + t;
      QuotedStringsSkip(p[1..], t);
    } else {
      assert p + t == t;
    }
  }

  /** A quoted non-empty word is matched, and the scan resumes after it. */
  lemma QuotedStringsHead(w: string, t: string)
    requires |w| > 0 && '"' !in w
    ensures QuotedStrings(Quote(w) + t) == [w] + QuotedStrings(t)
  {
    var s := Quote(w) + t;
    assert s[0] == '"';
    assert forall k :: 1 <= k < |w| + 1 ==> s[k] == w[k - 1];
    assert s[|w| + 1] == '"';
    assert NextQuote(s, 1) == |w| + 1 by {
      NextQuoteAt(s, 1, |w| + 1);
    }
    assert s[1..|w| + 1] == w;
    assert s[|w| + 2..] == t;
  }

  lemma {:induction false} NextQuoteAt(s: string, from: nat, j: nat)
    requires from <= j < |s| && s[j] == '"'
    requires forall k :: from <= k < j ==> s[k] != '"'
    ensures NextQuote(s, from) == j
    decreases j - from
  {
    if from < j {
      NextQuoteAt(s, from + 1, j);
    }
  }

  /** Keywords written as a quoted list inside quote-free text are recovered
      exactly by the scan. */
  lemma QuotedListRecovered(ws: seq<string>, prefix: string, suffix: string)
    requires forall i :: 0 <= i < |ws| ==> |ws[i]| > 0 && '"' !in ws[i]
    requires '"' !in prefix && '"' !in suffix
    ensures QuotedStrings(prefix + QuotedList(ws) + suffix) == ws
  {
    assert prefix + QuotedList(ws) + suffix == prefix + (QuotedList(ws) + suffix);
    QuotedStringsSkip(prefix, QuotedList(ws) + suffix);
    QuotedListThen(ws, suffix);
  }

  /** A quoted list followed by quote-free text yields exactly its keywords. */
  lemma {:induction false} QuotedListThen(ws: seq<string>, suffix: string)
    requires forall i :: 0 <= i < |ws| ==> |ws[i]| > 0 && '"' !in ws[i]
    requires '"' !in suffix
    ensures QuotedStrings(QuotedList(ws) + suffix) == ws
    decreases |ws|
  {
    if |ws| == 0 {
      assert QuotedList(ws) + suffix == suffix;
      QuotedStringsNoQuote(suffix);
    } else if |ws| == 1 {
      QuotedStringsHead(ws[0], suffix);
      QuotedStringsNoQuote(suffix);
    } else {
      var rest := QuotedList(ws[1..]) + suffix;
      assert QuotedList(ws) + suffix == Quote(ws[0]) + (", " + rest);
      QuotedStringsHead(ws[0], ", " + rest);
      QuotedStringsSkip(", ", rest);
      QuotedListThen(ws[1..], suffix);
    }
  }

  // ---------------------------------------------------------------------------
  // Keyword extraction

  function LongEnough(k: string): bool { |k| > 3 }

  /** The fallback keywords: the project name and the first four
      space-separated words of the idea, those longer than three characters,
      at most five. */
  function FallbackKeywords(name: string, idea: string): (r: seq<string>)
    ensures |r| <= 5
    ensures forall i :: 0 <= i < |r| ==> |r[i]| > 3
    ensures forall i :: 0 <= i < |r| ==> r[i] == name || r[i] in JsArray.SlicePrefix(JsText.Split(idea, ' '), 4)
  {
    var candidates := [name] + JsArray.SlicePrefix(JsText.Split(idea, ' '), 4);
    JsArray.SlicePrefix(JsArray.Filter(candidates, LongEnough), 5)
  }

  /** The cut to five never removes anything, the name leads when it is long
      enough, and every long enough word among the first four is kept. */
  lemma FallbackKeepsAll(name: string, idea: string)
    ensures FallbackKeywords(name, idea)
         == JsArray.Filter([name] + JsArray.SlicePrefix(JsText.Split(idea, ' '), 4), LongEnough)
    ensures |name| > 3 ==> FallbackKeywords(name, idea)[0] == name
    ensures forall w :: w in JsArray.SlicePrefix(JsText.Split(idea, ' '), 4) && |w| > 3 ==>
              w in FallbackKeywords(name, idea)
  {
    var candidates := [name] + JsArray.SlicePrefix(JsText.Split(idea, ' '), 4);
    assert |candidates| <= 5;
    assert forall w :: w in JsArray.SlicePrefix(JsText.Split(idea, ' '), 4) ==> w in candidates;
  }

  /** `extractKeywords`: a missing API key is an error; otherwise any failure
      of the completion or of parsing falls back to the fallback keywords. A
      JSON array gives its first eight entries (possibly none); text that is
      not JSON gives its first eight quoted strings when it has any. */
  function ExtractKeywords(name: string, idea: string, targetMarket: Option<string>, apiKey: bool,
                           complete: KeywordPrompt -> Completion, parse: string -> KeywordJson)
    : (r: Result<seq<string>, OpenAiError>)
    ensures !apiKey <==> r.Err?
    ensures r.Ok? ==> |r.value| <= MaxKeywords || r.value == FallbackKeywords(name, idea)
    ensures apiKey && ResponseText(complete(KeywordPrompt(name, idea, targetMarket))).None? ==>
              r == Ok(FallbackKeywords(name, idea))
    ensures apiKey ==>
              var text := ResponseText(complete(KeywordPrompt(name, idea, targetMarket)));
              text.Some? ==>
                && (parse(text.value).JsonArray? ==> r == Ok(JsArray.SlicePrefix(parse(text.value).items, MaxKeywords)))
                && (parse(text.value).JsonNotArray? ==> r == Ok(FallbackKeywords(name, idea)))
                && (parse(text.value).JsonSyntaxError? && |QuotedStrings(text.value)| > 0 ==>
                      r == Ok(JsArray.SlicePrefix(QuotedStrings(text.value), MaxKeywords)))
                && (parse(text.value).JsonSyntaxError? && |QuotedStrings(text.value)| == 0 ==>
                      r == Ok(FallbackKeywords(name, idea)))
  {
    if !apiKey then Err(MissingApiKey)
    else
      match ResponseText(complete(KeywordPrompt(name, idea, targetMarket)))
      case None => Ok(FallbackKeywords(name, idea))
      case Some(text) =>
        match parse(text)
        case JsonArray(items) => Ok(JsArray.SlicePrefix(items, MaxKeywords))
        case JsonNotArray => Ok(FallbackKeywords(name, idea))
        case JsonSyntaxError =>
          var matches := QuotedStrings(text);
          if |matches| > 0 then Ok(JsArray.SlicePrefix(matches, MaxKeywords))
          else Ok(FallbackKeywords(name, idea))
  }

  /** A response that is not JSON but quotes its keywords (between quote-free
      text) yields those keywords, at most eight. */
  lemma ExtractFromQuotedText(name: string, idea: string, targetMarket: Option<string>,
                              complete: KeywordPrompt -> Completion, parse: string -> KeywordJson,
                              ws: seq<string>, prefix: string, suffix: string)
    requires |ws| > 0
    requires forall i :: 0 <= i < |ws| ==> |ws[i]| > 0 && '"' !in ws[i]
    requires '"' !in prefix && '"' !in suffix
    requires ResponseText(complete(KeywordPrompt(name, idea, targetMarket))) == Some(prefix + QuotedList(ws) + suffix)
    requires parse(prefix + QuotedList(ws) + suffix) == JsonSyntaxError
    ensures ExtractKeywords(name, idea, targetMarket, true, complete, parse) == Ok(JsArray.SlicePrefix(ws, MaxKeywords))
  {
    QuotedListRecovered(ws, prefix, suffix);
  }

  // ---------------------------------------------------------------------------
  // Feasibility analysis

  /** `Math.max(0, Math.min(100, s))`. */
  function Clamp(s: real): (r: real)
    ensures 0.0 <= r <= 100.0
    ensures 0.0 <= s <= 100.0 ==> r == s
    ensures s < 0.0 ==> r == 0.0
    ensures s > 100.0 ==> r == 100.0
  {
    var m := if s < 100.0 then s else 100.0;
    if m > 0.0 then m else 0.0
  }

  /** Clamping twice is clamping once, and clamping keeps the order of scores. */
  lemma ClampIdempotentMonotone(s: real, t: real)
    ensures Clamp(Clamp(s)) == Clamp(s)
    ensures s <= t ==> Clamp(s) <= Clamp(t)
  {
  }

  /** The posts that enter the analysis: the first ten, numbered from 1, each
      with its content cut to 300 characters. */
  function Sample(posts: seq<AnalysisPost>): (r: seq<PostContext>)
    ensures |r| == if |posts| < 10 then |posts| else 10
    ensures forall i :: 0 <= i < |r| ==>
              && r[i].position == i + 1
              && r[i].title == posts[i].title && r[i].subreddit == posts[i].subreddit
              && r[i].score == posts[i].score && r[i].numComments == posts[i].numComments
              && |r[i].content| == (if |posts[i].content| < 300 then |posts[i].content| else 300)
              && r[i].content == posts[i].content[..|r[i].content|]
  {
    var first := JsArray.SlicePrefix(posts, 10);
    seq(|first|, i requires 0 <= i < |first| =>
      PostContext(i + 1, first[i].subreddit, first[i].score, first[i].numComments, first[i].title,
                  JsArray.SlicePrefix(first[i].content, 300)))
  }

  /** Posts beyond the tenth do not influence the analysis prompt. */
  lemma SampleIgnoresTail(posts: seq<AnalysisPost>, more: seq<AnalysisPost>)
    requires |posts| >= 10
    ensures Sample(posts + more) == Sample(posts)
  {
    assert forall i :: 0 <= i < 10 ==> (posts + more)[i] == posts[i];
  }

  /** `analyzeRedditData`: a missing API key is an error; a completion that
      fails, is blank or does not parse gives score 50 and the fixed summary;
      otherwise the model's score is clamped to [0, 100]. */
  function AnalyzeRedditData(idea: string, posts: seq<AnalysisPost>, apiKey: bool,
                             complete: AnalysisPrompt -> Completion, parse: string -> Option<AnalysisJson>)
    : (r: Result<Analysis, OpenAiError>)
    ensures !apiKey <==> r.Err?
    ensures r.Ok? ==> 0.0 <= r.value.score <= 100.0
    ensures apiKey ==>
              var text := ResponseText(complete(AnalysisPrompt(idea, Sample(posts))));
              && (text.None? || parse(text.value).None? ==> r == Ok(Analysis(DefaultScore, DefaultSummary)))
              && (text.Some? && parse(text.value).Some? ==>
                    && r.value.summary == parse(text.value).value.summary
                    && r.value.score == Clamp(parse(text.value).value.score)
                    && (0.0 <= parse(text.value).value.score <= 100.0 ==> r.value.score == parse(text.value).value.score)
                    && (parse(text.value).value.score < 0.0 ==> r.value.score == 0.0)
                    && (parse(text.value).value.score > 100.0 ==> r.value.score == 100.0))
  {
    if !apiKey then Err(MissingApiKey)
    else
      match ResponseText(complete(AnalysisPrompt(idea, Sample(posts))))
      case None => Ok(Analysis(DefaultScore, DefaultSummary))
      case Some(text) =>
        match parse(text)
        case None => Ok(Analysis(DefaultScore, DefaultSummary))
        case Some(json) => Ok(Analysis(Clamp(json.score), json.summary))
  }
}
