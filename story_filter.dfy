/**
 * Scoring Reddit stories with a language model and keeping the most relevant
 * ones (src/lib/story-filter.ts). The model call itself is a parameter: for
 * each story, what the call produced (an exception, or the parsed JSON).
 */
module StoryFilter {
  import opened Wrappers

  /** A story as fetched from Reddit (src/types/reddit-types.ts); the timestamp is in milliseconds. */
  datatype NewsStory = NewsStory(
    id: string, title: string, summary: string, url: string, author: string,
    score: int, timestamp: int, commentCount: int, subreddit: string, redditUrl: string,
    isNsfw: bool)

  /** The eight topics a verdict may name. */
  datatype Topic = Technology | Politics | Business | Science | Health | Entertainment | Sports | Other

  function TopicName(topic: Topic): string
  {
    match topic
    case Technology => "technology"
    case Politics => "politics"
    case Business => "business"
    case Science => "science"
    case Health => "health"
    case Entertainment => "entertainment"
    case Sports => "sports"
    case Other => "other"
  }

  /** The list the validation checks topics against. */
  const TopicNames: set<string> :=
    {"technology", "politics", "business", "science", "health", "entertainment", "sports", "other"}

  /** Reading a topic name: exactly the eight names are accepted, and each names its own topic. */
  function ParseTopic(s: string): (r: Option<Topic>)
    ensures r.Some? <==> s in TopicNames
    ensures r.Some? ==> TopicName(r.value) == s
  {
    if s == "technology" then Some(Technology)
    else if s == "politics" then Some(Politics)
    else if s == "business" then Some(Business)
    else if s == "science" then Some(Science)
    else if s == "health" then Some(Health)
    else if s == "entertainment" then Some(Entertainment)
    else if s == "sports" then Some(Sports)
    else if s == "other" then Some(Other)
    else None
  }

  /** A JSON value, reduced to the kinds the validation distinguishes; a missing field reads as `JOther`. */
  datatype Json = JNumber(n: real) | JString(s: string) | JArray(items: seq<Json>) | JOther

  /** The fields of the parsed model answer. */
  datatype RawVerdict = RawVerdict(score: Json, topics: Json, explanation: Json)

  /** What was thrown: an `Error` carries its message, any other value does not. */
  datatype Thrown = ErrorObject(message: string) | NonError

  /** The outcome of the model call and of `JSON.parse` on its answer, for one story. */
  datatype Reply = Threw(thrown: Thrown) | Parsed(raw: RawVerdict)

  /** `StoryRelevanceScore`: a validated verdict. */
  datatype Verdict = Verdict(score: real, topics: seq<Topic>, explanation: string)

  datatype StoryFilterError = StoryFilterError(message: string)

  const InvalidFormat: string := "Invalid response format from OpenAI"
  const AnalysisFailed: string := "Failed to analyze story"

  /** Reads a topic array: every element must be one of the eight names. */
  function ParseTopics(items: seq<Json>): (r: Option<seq<Topic>>)
    ensures r.Some? <==> forall i :: 0 <= i < |items| ==> items[i].JString? && ParseTopic(items[i].s).Some?
    ensures r.Some? ==> |r.value| == |items|
                        && forall i :: 0 <= i < |items| ==> TopicName(r.value[i]) == items[i].s
  {
    if items == [] then Some([])
    else if !items[0].JString? then None
    else
      var head := ParseTopic(items[0].s);
      var tail := ParseTopics(items[1..]);
      if head.Some? && tail.Some? then Some([head.value] + tail.value) else None
  }

  /** The validation of `analyzeStory`: a number score in [1, 10], known topics, a string explanation. */
  function ValidateVerdict(raw: RawVerdict): (r: Option<Verdict>)
    ensures r.Some? <==> && raw.score.JNumber? && 1.0 <= raw.score.n <= 10.0
                         && raw.topics.JArray? && ParseTopics(raw.topics.items).Some?
                         && raw.explanation.JString?
    ensures r.Some? ==> r.value.score == raw.score.n && r.value.explanation == raw.explanation.s
                        && |r.value.topics| == |raw.topics.items|
                        && forall i :: 0 <= i < |r.value.topics| ==> JString(TopicName(r.value.topics[i])) == raw.topics.items[i]
  {
    if raw.score.JNumber? && 1.0 <= raw.score.n <= 10.0 && raw.topics.JArray? && raw.explanation.JString? then
      match ParseTopics(raw.topics.items)
      case Some(ts) => Some(Verdict(raw.score.n, ts, raw.explanation.s))
      case None => None
    else None
  }

  /** `analyzeStory` after the model call: every failure becomes a `StoryFilterError`. */
  function AnalyzeStory(reply: Reply): (r: Result<Verdict, StoryFilterError>)
    ensures r.Ok? <==> reply.Parsed? && ValidateVerdict(reply.raw).Some?
    ensures r.Ok? ==> 1.0 <= r.value.score <= 10.0
    ensures reply.Parsed? && r.Err? ==> r.error.message == InvalidFormat
    ensures reply == Threw(NonError) ==> r == Err(StoryFilterError(AnalysisFailed))
    ensures reply.Threw? && reply.thrown.ErrorObject? ==> r == Err(StoryFilterError(reply.thrown.message))
  {
    match reply
    case Threw(ErrorObject(m)) => Err(StoryFilterError(m))
    case Threw(NonError) => Err(StoryFilterError(AnalysisFailed))
    case Parsed(raw) =>
      match ValidateVerdict(raw)
      case Some(v) => Ok(v)
      case None => Err(StoryFilterError(InvalidFormat))
  }

  /** `FilteredNewsStory`: the story with the verdict's score and topics added. */
  datatype ScoredStory = ScoredStory(story: NewsStory, relevanceScore: real, topics: seq<Topic>, isRelevant: bool)

  /** Whether the story is one the pipeline keeps before sorting, and with which verdict. */
  predicate Keeps(s: NewsStory, analyze: NewsStory -> Reply, minScore: real)
  {
    !s.isNsfw && AnalyzeStory(analyze(s)).Ok? && AnalyzeStory(analyze(s)).value.score >= minScore
  }

  function Scored(s: NewsStory, v: Verdict, minScore: real): ScoredStory
  {
    ScoredStory(s, v.score, v.topics, v.score >= minScore)
  }

  /**
   * The stories kept before sorting, in input order: the safe-for-work ones whose
   * analysis succeeded with a score at least `minScore`.
   */
  function Relevant(stories: seq<NewsStory>, analyze: NewsStory -> Reply, minScore: real): (r: seq<ScoredStory>)
    ensures |r| <= |stories|
    ensures forall x :: x in r ==> x.story in stories && Keeps(x.story, analyze, minScore)
                                   && x == Scored(x.story, AnalyzeStory(analyze(x.story)).value, minScore)
    ensures forall s :: s in stories && Keeps(s, analyze, minScore) ==>
                          Scored(s, AnalyzeStory(analyze(s)).value, minScore) in r
  {
    if stories == [] then []
    else
      var rest := Relevant(stories[1..], analyze, minScore);
      var s := stories[0];
      if Keeps(s, analyze, minScore) then [Scored(s, AnalyzeStory(analyze(s)).value, minScore)] + rest else rest
  }

  /** A single story is kept exactly when it passes the filter, with its analysis added. */
  lemma RelevantOne(s: NewsStory, analyze: NewsStory -> Reply, minScore: real)
    ensures Relevant([s], analyze, minScore)
            == if Keeps(s, analyze, minScore) then [Scored(s, AnalyzeStory(analyze(s)).value, minScore)] else []
  {
    assert [s][1..] == [];
  }

  /**
   * Filtering works position by position: the stories kept from two lists one after the
   * other are those kept from the first followed by those kept from the second. With
   * `RelevantOne` this fixes the result completely, repeated stories and order included.
   */
  lemma {:induction false} RelevantAppend(a: seq<NewsStory>, b: seq<NewsStory>, analyze: NewsStory -> Reply, minScore: real)
    ensures Relevant(a + b, analyze, minScore) == Relevant(a, analyze, minScore) + Relevant(b, analyze, minScore)
  {
    if a == [] {
      assert a + b == b;
    } else {
      assert (a + b)[1..] == a[1..] + b;
      RelevantAppend(a[1..], b, analyze, minScore);
    }
  }

  /** Non-increasing relevance score. */
  predicate SortedByRelevance(s: seq<ScoredStory>)
  {
    forall i, j :: 0 <= i < j < |s| ==> s[i].relevanceScore >= s[j].relevanceScore
  }

  /** Insertion of one story before the first with a score not above its own. */
  function Insert(x: ScoredStory, s: seq<ScoredStory>): (r: seq<ScoredStory>)
    requires SortedByRelevance(s)
    ensures SortedByRelevance(r)
    ensures multiset(r) == multiset(s) + multiset{x}
  {
    if s == [] || x.relevanceScore >= s[0].relevanceScore then [x] + s
    else
      var t := Insert(x, s[1..]);
      HeadDominates(s, x, t);
      assert multiset(s) == multiset{s[0]} + multiset(s[1..]) by {
        assert s == [s[0]] + s[1..];
      }
      [s[0]] + t
  }

  /** A sorted list's head may lead anything sorted built from its tail and a lower-scoring story. */
  lemma HeadDominates(s: seq<ScoredStory>, x: ScoredStory, t: seq<ScoredStory>)
    requires s != [] && SortedByRelevance(s) && x.relevanceScore < s[0].relevanceScore
    requires SortedByRelevance(t) && multiset(t) == multiset(s[1..]) + multiset{x}
    ensures SortedByRelevance([s[0]] + t)
  {
    forall k | 0 <= k < |t|
      ensures s[0].relevanceScore >= t[k].relevanceScore
    {
      assert t[k] in multiset(t);
      if t[k] != x {
        assert t[k] in multiset(s[1..]);
        assert t[k] in s[1..];
      }
    }
  }

  /** The comparator `b.relevanceScore - a.relevanceScore`: a stable sort, highest score first. */
  function SortByRelevance(s: seq<ScoredStory>): (r: seq<ScoredStory>)
    ensures SortedByRelevance(r)
    ensures multiset(r) == multiset(s)
  {
    if s == [] then []
    else
      assert s == [s[0]] + s[1..];
      Insert(s[0], SortByRelevance(s[1..]))
  }

  /** `Array.prototype.slice(0, end)`: a negative end counts back from the length. */
  function SliceTo(s: seq<ScoredStory>, end: int): (r: seq<ScoredStory>)
    ensures 0 <= end ==> |r| == if end < |s| then end else |s|
    ensures end < 0 ==> |r| == if |s| + end > 0 then |s| + end else 0
    ensures r == s[..|r|]
  {
    var stop := if end < 0 then (if |s| + end > 0 then |s| + end else 0) else if end < |s| then end else |s|;
    s[..stop]
  }

  const DefaultMinRelevanceScore: real := 7.0
  const DefaultMaxStories: int := 5

  /** The threshold: the given one, 7 by default. */
  function MinScore(minRelevanceScore: Option<real>): real
  {
    if minRelevanceScore.Some? then minRelevanceScore.value else DefaultMinRelevanceScore
  }

  /** The slice end: the given one, 5 by default. */
  function MaxStories(maxStories: Option<int>): int
  {
    if maxStories.Some? then maxStories.value else DefaultMaxStories
  }

  /** `filterStories`: drop NSFW stories and failed or low-scoring analyses, sort by score, keep the first `maxStories`. */
  function FilterStories(stories: seq<NewsStory>, analyze: NewsStory -> Reply,
                         minRelevanceScore: Option<real>, maxStories: Option<int>): seq<ScoredStory>
  {
    SliceTo(SortByRelevance(Relevant(stories, analyze, MinScore(minRelevanceScore))), MaxStories(maxStories))
  }

  /**
   * Every story the pipeline returns is a safe-for-work input story whose analysis succeeded,
   * carrying that analysis' score and topics, with a score at least the threshold.
   */
  lemma OutputIsAnalysedInput(stories: seq<NewsStory>, analyze: NewsStory -> Reply,
                              minRelevanceScore: Option<real>, maxStories: Option<int>, x: ScoredStory)
    requires x in FilterStories(stories, analyze, minRelevanceScore, maxStories)
    ensures x.story in stories && !x.story.isNsfw
    ensures AnalyzeStory(analyze(x.story)).Ok?
    ensures var v := AnalyzeStory(analyze(x.story)).value;
            x.relevanceScore == v.score && x.topics == v.topics && x.isRelevant
    ensures x.relevanceScore >= MinScore(minRelevanceScore)
  {
    var minScore := MinScore(minRelevanceScore);
    var relevant := Relevant(stories, analyze, minScore);
    var sorted := SortByRelevance(relevant);
    var r := SliceTo(sorted, MaxStories(maxStories));
    assert x in sorted[..|r|];
    assert x in multiset(sorted);
    assert x in relevant;
  }

  /** The output is ordered by relevance score, highest first. */
  lemma OutputSorted(stories: seq<NewsStory>, analyze: NewsStory -> Reply,
                     minRelevanceScore: Option<real>, maxStories: Option<int>)
    ensures SortedByRelevance(FilterStories(stories, analyze, minRelevanceScore, maxStories))
  {
  }

  /**
   * The output holds at most `maxStories` stories (5 when not given) when that bound is not
   * negative, and exactly as many as `slice` keeps of the relevant stories: all of them up to
   * that bound, and for a negative bound all but that many from the end.
   */
  lemma OutputBounded(stories: seq<NewsStory>, analyze: NewsStory -> Reply,
                      minRelevanceScore: Option<real>, maxStories: Option<int>)
    ensures maxStories.None? ==> |FilterStories(stories, analyze, minRelevanceScore, maxStories)| <= 5
    ensures maxStories.Some? && maxStories.value >= 0 ==>
              |FilterStories(stories, analyze, minRelevanceScore, maxStories)| <= maxStories.value
    ensures var n := |Relevant(stories, analyze, MinScore(minRelevanceScore))|;
            var end := MaxStories(maxStories);
            var kept := |FilterStories(stories, analyze, minRelevanceScore, maxStories)|;
            && (end >= 0 ==> kept == if end < n then end else n)
            && (end < 0 ==> kept == if n + end > 0 then n + end else 0)
  {
    var relevant := Relevant(stories, analyze, MinScore(minRelevanceScore));
    var sorted := SortByRelevance(relevant);
    assert |sorted| == |multiset(sorted)| == |multiset(relevant)| == |relevant|;
  }

  /**
   * `kept` holds the best of `pool`: together with some `dropped` stories it makes up exactly
   * `pool`, and no dropped story scores higher than a kept one.
   */
  ghost predicate BestOf(kept: seq<ScoredStory>, pool: seq<ScoredStory>)
  {
    exists dropped: seq<ScoredStory> ::
      && multiset(kept) + multiset(dropped) == multiset(pool)
      && forall i, j :: 0 <= i < |kept| && 0 <= j < |dropped| ==> kept[i].relevanceScore >= dropped[j].relevanceScore
  }

  /** A prefix of a sorted list holds its best stories. */
  lemma PrefixIsBest(sorted: seq<ScoredStory>, n: nat)
    requires SortedByRelevance(sorted) && n <= |sorted|
    ensures BestOf(sorted[..n], sorted)
  {
    var kept, dropped := sorted[..n], sorted[n..];
    assert sorted == kept + dropped;
    assert multiset(sorted) == multiset(kept) + multiset(dropped);
    forall i, j | 0 <= i < |kept| && 0 <= j < |dropped|
      ensures kept[i].relevanceScore >= dropped[j].relevanceScore
    {
      assert kept[i] == sorted[i] && dropped[j] == sorted[n + j];
    }
  }

  /** The output keeps the highest-scoring of the relevant stories. */
  lemma OutputIsBestOfRelevant(stories: seq<NewsStory>, analyze: NewsStory -> Reply,
                               minRelevanceScore: Option<real>, maxStories: Option<int>)
    ensures BestOf(FilterStories(stories, analyze, minRelevanceScore, maxStories),
                   Relevant(stories, analyze, MinScore(minRelevanceScore)))
  {
    var relevant := Relevant(stories, analyze, MinScore(minRelevanceScore));
    var sorted := SortByRelevance(relevant);
    var r := FilterStories(stories, analyze, minRelevanceScore, maxStories);
    assert r == sorted[..|r|];
    PrefixIsBest(sorted, |r|);
  }
}
