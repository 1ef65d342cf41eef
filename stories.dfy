/** The story merger and scorer: candidates whose cluster id keys a stored
    story only get a new recency score and total score; the other candidates
    are sent to the language-model client, whose failure degrades to a
    placeholder story, and are scored from the model's score, the mean source
    reliability and the recency. The client, the clock (hours elapsed since a
    timestamp) and `exp` are parameters. */
module Stories {
  import opened Wrappers
  import opened Seqs
  import opened Candidates

  const LlmWeight: real := 0.6
  const ReliabilityWeight: real := 0.2
  const RecencyWeight: real := 0.2

  /** The reliability of a source missing from the table. */
  const DefaultReliability: real := 0.5

  /** The per-source reliability table. */
  const ReliabilityTable: map<string, real> := map[
    "NASA" := 0.99, "NASA Blogs" := 0.96, "JPL" := 0.99, "ESA" := 0.99, "ESA Webb" := 0.98,
    "SpaceNews" := 0.92, "Spaceflight Now" := 0.9, "NOAA NESDIS" := 0.99, "Nature Astronomy" := 0.97,
    "arXiv astro-ph.EP" := 0.9, "arXiv astro-ph.IM" := 0.9, "arXiv astro-ph.GA" := 0.9,
    "Planetary Society" := 0.93, "SpaceX Updates" := 0.95, "CNSA Watch" := 0.85]

  /** The stored stories file: missing, unreadable, or a list of stories. */
  datatype StoryFile = NoStoryFile | CorruptStoryFile | StoryList(stories: seq<Story>)

  /** The "score" object of a reply. */
  datatype ScoreField = ScoreField(score: Option<real>, reasoning: Option<string>)

  /** One client request: an error anywhere between the request and the decoded
      reply, or the reply's fields (each possibly missing). */
  datatype Reply = RequestFailed(message: string)
                 | Answer(because: Option<string>, summary: Option<string>, topics: Option<seq<string>>, score: Option<ScoreField>)

  /** The clock: hours from a timestamp to now (`None` when it does not parse), and `exp`. */
  datatype Clock = Clock(hoursSince: string -> Option<real>, exp: real -> real)

  /** The collaborators of a run: the language-model client and the clock. */
  datatype Env = Env(request: Story -> Reply, clock: Clock)

  /** The total score: 0.6 of the model's score, 0.2 of the reliability and 0.2 of the recency. */
  function Weighted(llm: real, reliability: real, recency: real): (r: real)
    ensures llm == reliability && reliability == recency ==> r == llm
    ensures 0.0 <= reliability && 0.0 <= recency ==> r >= LlmWeight * llm
  {
    LlmWeight * llm + ReliabilityWeight * reliability + RecencyWeight * recency
  }

  /** With every component in [0, 1], so is the score. */
  lemma WeightedBounds(llm: real, reliability: real, recency: real)
    requires 0.0 <= llm <= 1.0 && 0.0 <= reliability <= 1.0 && 0.0 <= recency <= 1.0
    ensures 0.0 <= Weighted(llm, reliability, recency) <= 1.0
  {
  }

  function Sum(xs: seq<real>): real {
    if xs == [] then 0.0 else Sum(xs[..|xs| - 1]) + xs[|xs| - 1]
  }

  /** `avg`: the mean, and 0.0 for an empty list. */
  function Avg(xs: seq<real>): (r: real)
    ensures xs == [] ==> r == 0.0
    ensures xs != [] ==> r * (|xs| as real) == Sum(xs)
  {
    if xs == [] then 0.0 else Sum(xs) / (|xs| as real)
  }

  lemma {:induction false} SumBounds(xs: seq<real>)
    requires forall i :: 0 <= i < |xs| ==> 0.0 <= xs[i] <= 1.0
    ensures 0.0 <= Sum(xs) <= |xs| as real
  {
    if xs != [] {
      SumBounds(xs[..|xs| - 1]);
    }
  }

  lemma DivAtMostOne(a: real, n: real)
    requires 0.0 <= a <= n && n > 0.0
    ensures 0.0 <= a / n <= 1.0
  {
    assert a / n * n == a;
  }

  /** The mean of values in [0, 1] is in [0, 1]. */
  lemma AvgBounds(xs: seq<real>)
    requires forall i :: 0 <= i < |xs| ==> 0.0 <= xs[i] <= 1.0
    ensures 0.0 <= Avg(xs) <= 1.0
  {
    if xs != [] {
      SumBounds(xs);
      DivAtMostOne(Sum(xs), |xs| as real);
    }
  }

  /** `reliability_scores.get(source, 0.5)`. */
  function SourceReliability(source: string): (r: real)
    ensures source !in ReliabilityTable ==> r == DefaultReliability
  {
    if source in ReliabilityTable then ReliabilityTable[source] else DefaultReliability
  }

  /** The reliability of a candidate: the mean over its sources. */
  function ReliabilityOf(sources: seq<string>): (r: real)
    ensures sources == [] ==> r == 0.0
    ensures sources != [] ==> r * (|sources| as real) == ReliabilitySum(sources)
  {
    SumReliabilities(sources);
    Avg(seq(|sources|, i requires 0 <= i < |sources| => SourceReliability(sources[i])))
  }

  /** The reliabilities of the sources added up, one source at a time. */
  function ReliabilitySum(sources: seq<string>): real {
    if sources == [] then 0.0
    else ReliabilitySum(sources[..|sources| - 1]) + SourceReliability(sources[|sources| - 1])
  }

  lemma {:induction false} SumReliabilities(sources: seq<string>)
    ensures Sum(seq(|sources|, i requires 0 <= i < |sources| => SourceReliability(sources[i]))) == ReliabilitySum(sources)
  {
    if sources != [] {
      var front := sources[..|sources| - 1];
      SumReliabilities(front);
      var xs := seq(|sources|, i requires 0 <= i < |sources| => SourceReliability(sources[i]));
      assert xs[..|xs| - 1] == seq(|front|, i requires 0 <= i < |front| => SourceReliability(front[i]));
    }
  }

  /** Every reliability is in [0, 1], and so is a candidate's. */
  lemma ReliabilityBounds(sources: seq<string>)
    ensures 0.0 <= ReliabilityOf(sources) <= 1.0
    ensures sources == [] ==> ReliabilityOf(sources) == 0.0
  {
    var xs := seq(|sources|, i requires 0 <= i < |sources| => SourceReliability(sources[i]));
    forall i | 0 <= i < |xs|
      ensures 0.0 <= xs[i] <= 1.0
    {
      assert forall v :: v in ReliabilityTable.Values ==> 0.0 <= v <= 1.0;
    }
    AvgBounds(xs);
  }

  /** `calculate_recency_score`: `exp(-h / 48)` with the elapsed hours `h`
      clamped at 0; a timestamp that does not parse is an error. */
  function Recency(timestamp: string, clock: Clock): (r: Result<real>)
    ensures r.Success? <==> clock.hoursSince(timestamp).Some?
    ensures r.Success? ==>
      var h := clock.hoursSince(timestamp).value;
      r.value == clock.exp(-(if h < 0.0 then 0.0 else h) / 48.0)
  {
    match clock.hoursSince(timestamp)
    case None => Failure("ValueError: Invalid isoformat string")
    case Some(h) =>
      var hours := if h < 0.0 then 0.0 else h;
      Success(clock.exp(-hours / 48.0))
  }

  /** A timestamp in the future scores as one taken now. */
  lemma FutureScoresAsNow(timestamp: string, clock: Clock)
    requires clock.hoursSince(timestamp).Some? && clock.hoursSince(timestamp).value <= 0.0
    ensures Recency(timestamp, clock) == Success(clock.exp(0.0))
  {
  }

  /** With `exp` mapping non-positive numbers into [0, 1], a recency is in [0, 1]. */
  lemma RecencyBounds(timestamp: string, clock: Clock)
    requires forall x :: x <= 0.0 ==> 0.0 <= clock.exp(x) <= 1.0
    requires Recency(timestamp, clock).Success?
    ensures 0.0 <= Recency(timestamp, clock).value <= 1.0
  {
    var h := clock.hoursSince(timestamp).value;
    var hours := if h < 0.0 then 0.0 else h;
    assert -hours / 48.0 <= 0.0;
  }

  // ---------------------------------------------------------------------------
  // Splitting the candidates

  /** The stored stories, or the error of a file that does not parse. */
  function StoriesIn(f: StoryFile): (r: Result<seq<Story>>)
    ensures f.NoStoryFile? ==> r == Success([])
    ensures r.Failure? <==> f.CorruptStoryFile?
  {
    match f
    case NoStoryFile => Success([])
    case CorruptStoryFile => Failure("JSONDecodeError: the stories file does not parse")
    case StoryList(s) => Success(s)
  }

  /** `{story["cluster_id"]: story for story in stories}`: each cluster id keys
      the last stored story with that id. */
  function StoryIndex(stories: seq<Story>): (m: map<string, Story>)
    ensures forall k :: k in m ==> m[k].clusterId == k
    ensures forall i :: 0 <= i < |stories| ==> stories[i].clusterId in m
  {
    if stories == [] then map[]
    else
      var front := stories[..|stories| - 1];
      var last := stories[|stories| - 1];
      assert forall i :: 0 <= i < |front| ==> front[i] == stories[i];
      StoryIndex(front)[last.clusterId := last]
  }

  /** A repeated cluster id keys the last stored story that carries it. */
  lemma {:induction false} StoryIndexLastWins(stories: seq<Story>, i: nat)
    requires i < |stories|
    requires forall j :: i < j < |stories| ==> stories[j].clusterId != stories[i].clusterId
    ensures stories[i].clusterId in StoryIndex(stories)
    ensures StoryIndex(stories)[stories[i].clusterId] == stories[i]
  {
    var front, last := stories[..|stories| - 1], stories[|stories| - 1];
    var id := stories[i].clusterId;
    StoryIndexStep(stories);
    if i < |front| {
      assert last.clusterId != id;
      assert id in StoryIndex(front) && StoryIndex(front)[id] == stories[i] by {
        forall j | i < j < |front|
          ensures front[j].clusterId != front[i].clusterId
        {
          assert front[j] == stories[j] && front[i] == stories[i];
        }
        StoryIndexLastWins(front, i);
      }
      KeptByOtherKey(StoryIndex(front), last.clusterId, last, id);
    }
  }

  /** Every story in the index is one of the stored stories. */
  lemma {:induction false} StoryIndexStored(stories: seq<Story>)
    ensures forall k :: k in StoryIndex(stories) ==> StoryIndex(stories)[k] in stories
  {
    if stories != [] {
      var front, last := stories[..|stories| - 1], stories[|stories| - 1];
      StoryIndexStep(stories);
      StoryIndexStored(front);
      forall k | k in StoryIndex(stories)
        ensures StoryIndex(stories)[k] in stories
      {
        if k == last.clusterId {
          assert stories[|stories| - 1] == last;
        } else {
          KeptByOtherKey(StoryIndex(front), last.clusterId, last, k);
          var j :| 0 <= j < |front| && front[j] == StoryIndex(front)[k];
          assert stories[j] == front[j];
        }
      }
    }
  }

  /** Storing under one key leaves what another key holds. */
  lemma KeptByOtherKey(m: map<string, Story>, k: string, v: Story, other: string)
    requires other in m && other != k
    ensures other in m[k := v] && m[k := v][other] == m[other]
  {
  }

  /** The index of a non-empty list is the index of all but its last story,
      updated with the last story. */
  lemma StoryIndexStep(stories: seq<Story>)
    requires stories != []
    ensures StoryIndex(stories)
      == StoryIndex(stories[..|stories| - 1])[stories[|stories| - 1].clusterId := stories[|stories| - 1]]
  {
  }

  function IfNew(c: Story, index: map<string, Story>): Option<Story> {
    if c.clusterId in index then None else Some(c)
  }

  function IfStored(c: Story, index: map<string, Story>): Option<Story> {
    if c.clusterId in index then Some(c) else None
  }

  /** The candidates whose cluster id keys no stored story, in order. */
  function NewCandidates(cands: seq<Story>, index: map<string, Story>): seq<Story> {
    FilterMap(cands, c => IfNew(c, index))
  }

  /** The candidates whose cluster id keys a stored story, in order. */
  function StoredCandidates(cands: seq<Story>, index: map<string, Story>): (r: seq<Story>)
    ensures forall i :: 0 <= i < |r| ==> r[i].clusterId in index
  {
    var r := FilterMap(cands, c => IfStored(c, index));
    assert forall i :: 0 <= i < |r| ==> r[i].clusterId in index by {
      forall i | 0 <= i < |r|
        ensures r[i].clusterId in index
      {
        FilterMapMembers(cands, c => IfStored(c, index), r[i]);
      }
    }
    r
  }

  /** Every candidate is in exactly one of the two lists, which share out the
      candidates between them. */
  lemma {:induction false} SplitPartitions(cands: seq<Story>, index: map<string, Story>, c: Story)
    ensures |NewCandidates(cands, index)| + |StoredCandidates(cands, index)| == |cands|
    ensures c in NewCandidates(cands, index) <==> c in cands && c.clusterId !in index
    ensures c in StoredCandidates(cands, index) <==> c in cands && c.clusterId in index
  {
    FilterMapMembers(cands, x => IfNew(x, index), c);
    FilterMapMembers(cands, x => IfStored(x, index), c);
    if c in cands {
      var i :| 0 <= i < |cands| && cands[i] == c;
      assert IfNew(cands[i], index) == Some(c) || IfStored(cands[i], index) == Some(c);
    }
    if cands != [] {
      SplitPartitions(cands[..|cands| - 1], index, c);
    }
  }

  /** With no stories file every candidate is new. */
  lemma {:induction false} NoStoriesAllNew(cands: seq<Story>)
    ensures NewCandidates(cands, StoryIndex(StoriesIn(NoStoryFile).value)) == cands
  {
    var index := StoryIndex(StoriesIn(NoStoryFile).value);
    assert index == map[];
    if cands != [] {
      var front, last := cands[..|cands| - 1], cands[|cands| - 1];
      NoStoriesAllNew(front);
      assert NewCandidates(cands, index) == NewCandidates(front, index) + [last];
      assert front + [last] == cands;
    }
  }

  // ---------------------------------------------------------------------------
  // Stored stories

  /** `n` is `o` with a new recency score and the total score recomputed from
      the stored model and reliability scores; nothing else differs. */
  predicate RescoredFrom(o: Story, n: Story) {
    && o.parts.Parts? && n.parts.Parts?
    && n == o.(parts := o.parts.(recencyScore := n.parts.recencyScore),
               score := Weighted(o.parts.llmScore, o.parts.reliabilityScore, n.parts.recencyScore))
  }

  /** Rescoring twice is rescoring once, with the later recency. */
  lemma RescoredTwice(a: Story, b: Story, c: Story)
    requires RescoredFrom(a, b) && RescoredFrom(b, c)
    ensures RescoredFrom(a, c)
  {
    assert b.parts.llmScore == a.parts.llmScore && b.parts.reliabilityScore == a.parts.reliabilityScore;
  }

  /** The update of the stored story of one candidate, or the error of an
      unparsable timestamp or of a stored story without a model score. */
  function Refresh(index: map<string, Story>, c: Story, clock: Clock): (r: Result<map<string, Story>>)
    requires c.clusterId in index
    ensures r.Success? ==> r.value.Keys == index.Keys
    ensures r.Success? ==> RescoredFrom(index[c.clusterId], r.value[c.clusterId])
    ensures r.Success? ==>
              Recency(c.timestamp, clock).Success? &&
              r.value[c.clusterId].parts.recencyScore == Recency(c.timestamp, clock).value
    ensures r.Success? ==> forall k :: k in index && k != c.clusterId ==> r.value[k] == index[k]
  {
    var s := index[c.clusterId];
    var recency := Recency(c.timestamp, clock);
    if recency.Failure? then Failure(recency.error)
    else if s.parts.NoParts? then Failure("KeyError: 'llm_score'")
    else
      var parts := s.parts.(recencyScore := recency.value);
      Success(index[c.clusterId := s.(parts := parts, score := Weighted(parts.llmScore, parts.reliabilityScore, recency.value))])
  }

  /** The cluster ids of a list of stories, in order. */
  function ClusterIds(stories: seq<Story>): (ids: seq<string>)
    ensures |ids| == |stories|
    ensures forall i :: 0 <= i < |stories| ==> ids[i] == stories[i].clusterId
  {
    seq(|stories|, i requires 0 <= i < |stories| => stories[i].clusterId)
  }

  /** The loop over the stored candidates, updating the stored stories in place. */
  function RefreshAll(stored: seq<Story>, index: map<string, Story>, clock: Clock): (r: Result<map<string, Story>>)
    requires forall i :: 0 <= i < |stored| ==> stored[i].clusterId in index
    ensures r.Success? ==> r.value.Keys == index.Keys
  {
    if stored == [] then Success(index)
    else
      var front, last := stored[..|stored| - 1], stored[|stored| - 1];
      assert forall i :: 0 <= i < |front| ==> front[i] == stored[i];
      var prev := RefreshAll(front, index, clock);
      if prev.Failure? then prev
      else Refresh(prev.value, last, clock)
  }

  /** After the loop, the story of every stored candidate is rescored, and
      every other stored story is as it was. */
  lemma {:induction false} RefreshAllKey(stored: seq<Story>, index: map<string, Story>, clock: Clock, k: string)
    requires forall i :: 0 <= i < |stored| ==> stored[i].clusterId in index
    requires RefreshAll(stored, index, clock).Success? && k in index
    ensures k !in ClusterIds(stored) ==> RefreshAll(stored, index, clock).value[k] == index[k]
    ensures k in ClusterIds(stored) ==> RescoredFrom(index[k], RefreshAll(stored, index, clock).value[k])
  {
    if stored != [] {
      var front, last := stored[..|stored| - 1], stored[|stored| - 1];
      assert forall i :: 0 <= i < |front| ==> front[i] == stored[i];
      var prev := RefreshAll(front, index, clock);
      var r := RefreshAll(stored, index, clock);
      assert r == Refresh(prev.value, last, clock);
      RefreshAllKey(front, index, clock, k);
      assert ClusterIds(stored) == ClusterIds(front) + [last.clusterId];
      if last.clusterId == k && k in ClusterIds(front) {
        RescoredTwice(index[k], prev.value[k], r.value[k]);
      }
    }
  }

  /** The processed stored stories, one per stored candidate: the story its
      cluster id keys after the whole loop, since the loop appends and then
      keeps updating the same story. */
  function Resolved(stored: seq<Story>, m: map<string, Story>): (r: seq<Story>)
    requires forall i :: 0 <= i < |stored| ==> stored[i].clusterId in m
    ensures |r| == |stored|
    ensures forall i :: 0 <= i < |stored| ==> r[i] == m[stored[i].clusterId]
  {
    seq(|stored|, i requires 0 <= i < |stored| => m[stored[i].clusterId])
  }

  // ---------------------------------------------------------------------------
  // New candidates

  /** The narrative fields, the reasoning and the model score of a reply; a
      failed request gives the placeholder and a model score of 0.0. */
  function Narrative(reply: Reply): (n: (string, string, seq<string>, string, real))
    ensures reply.RequestFailed? ==> n == ("Error processing with LLM", "Processing failed: " + reply.message,
                                             ["error"], "LLM processing failed", 0.0)
    ensures reply.Answer? ==>
      && n.0 == GetOr(reply.because, "") && n.1 == GetOr(reply.summary, "") && n.2 == GetOr(reply.topics, [])
      && n.3 == (if reply.score.Some? then GetOr(reply.score.value.reasoning, "") else "")
      && n.4 == (if reply.score.Some? then GetOr(reply.score.value.score, 0.0) else 0.0)
  {
    match reply
    case RequestFailed(message) =>
      ("Error processing with LLM", "Processing failed: " + message, ["error"], "LLM processing failed", 0.0)
    case Answer(because, summary, topics, score) =>
      var field := GetOr(score, ScoreField(None, None));
      (GetOr(because, ""), GetOr(summary, ""), GetOr(topics, []), GetOr(field.reasoning, ""), GetOr(field.score, 0.0))
  }

  /** The story of one new candidate: the candidate with the reply's narrative
      and the three score components, or the error of an unparsable timestamp. */
  function NewStory(c: Story, env: Env): (r: Result<Story>)
    ensures r.Success? <==> env.clock.hoursSince(c.timestamp).Some?
    ensures r.Success? ==>
      var s, n := r.value, Narrative(env.request(c));
      && s == c.(because := n.0, summary := n.1, topics := n.2, reasoning := Some(n.3),
                 parts := s.parts, score := s.score)
      && s.parts == Parts(n.4, ReliabilityOf(c.sources), Recency(c.timestamp, env.clock).value)
      && s.score == Weighted(n.4, ReliabilityOf(c.sources), Recency(c.timestamp, env.clock).value)
  {
    var n := Narrative(env.request(c));
    var recency := Recency(c.timestamp, env.clock);
    if recency.Failure? then Failure(recency.error)
    else
      var reliability := ReliabilityOf(c.sources);
      Success(c.(because := n.0, summary := n.1, topics := n.2, reasoning := Some(n.3),
                 parts := Parts(n.4, reliability, recency.value),
                 score := Weighted(n.4, reliability, recency.value)))
  }

  /** A failed request still yields a story: the placeholder narrative, topics
      `["error"]` and a model score of 0.0. */
  lemma FailedRequestPlaceholder(c: Story, env: Env)
    requires env.request(c).RequestFailed? && env.clock.hoursSince(c.timestamp).Some?
    ensures NewStory(c, env).Success?
    ensures var s := NewStory(c, env).value;
      s.topics == ["error"] && s.parts.llmScore == 0.0 && s.because == "Error processing with LLM"
      && s.score == Weighted(0.0, ReliabilityOf(c.sources), s.parts.recencyScore)
  {
  }

  /** With every component in [0, 1], a new story's score is in [0, 1]. */
  lemma NewStoryScoreBounds(c: Story, env: Env)
    requires forall x :: x <= 0.0 ==> 0.0 <= env.clock.exp(x) <= 1.0
    requires 0.0 <= Narrative(env.request(c)).4 <= 1.0
    requires NewStory(c, env).Success?
    ensures 0.0 <= NewStory(c, env).value.score <= 1.0
  {
    ReliabilityBounds(c.sources);
    RecencyBounds(c.timestamp, env.clock);
    WeightedBounds(Narrative(env.request(c)).4, ReliabilityOf(c.sources), Recency(c.timestamp, env.clock).value);
  }

  /** The loop over the new candidates. */
  function NewStories(news: seq<Story>, env: Env): (r: Result<seq<Story>>)
    ensures r.Success? <==> forall i :: 0 <= i < |news| ==> NewStory(news[i], env).Success?
    ensures r.Success? ==> |r.value| == |news|
    ensures r.Success? ==> forall i :: 0 <= i < |news| ==> NewStory(news[i], env) == Success(r.value[i])
    ensures r.Failure? ==>
              exists i :: 0 <= i < |news| && NewStory(news[i], env) == Failure(r.error)
                && forall j :: 0 <= j < i ==> NewStory(news[j], env).Success?
  {
    MapResult(news, c => NewStory(c, env))
  }

  // ---------------------------------------------------------------------------
  // One run

  /** What a run writes to the stories file: the processed stored stories, then
      the new stories in candidate order; or the error that stops the run. */
  function ProcessOf(file: StoryFile, candidateFile: Option<seq<Story>>, env: Env): (r: Result<seq<Story>>)
    ensures file.CorruptStoryFile? ==> r.Failure? && r.error == StoriesIn(file).error
    ensures !file.CorruptStoryFile? && candidateFile.None? ==> r == Failure("FileNotFoundError: Candidate file not found")
    ensures r.Success? ==> candidateFile.Some? && NewStories(NewCandidates(candidateFile.value, StoryIndex(StoriesIn(file).value)), env).Success?
  {
    var stored := StoriesIn(file);
    if stored.Failure? then Failure(stored.error)
    else if candidateFile.None? then Failure("FileNotFoundError: Candidate file not found")
    else
      var cands := candidateFile.value;
      var index := StoryIndex(stored.value);
      var kept := StoredCandidates(cands, index);
      var refreshed := RefreshAll(kept, index, env.clock);
      if refreshed.Failure? then Failure(refreshed.error)
      else
        var news := NewStories(NewCandidates(cands, index), env);
        if news.Failure? then Failure(news.error)
        else Success(Resolved(kept, refreshed.value) + news.value)
  }

  /** A successful run is the processed stored stories followed by the new stories. */
  lemma ProcessParts(file: StoryFile, cands: seq<Story>, env: Env)
    requires ProcessOf(file, Some(cands), env).Success?
    ensures var index := StoryIndex(StoriesIn(file).value);
      var kept := StoredCandidates(cands, index);
      && RefreshAll(kept, index, env.clock).Success?
      && NewStories(NewCandidates(cands, index), env).Success?
      && ProcessOf(file, Some(cands), env).value ==
           Resolved(kept, RefreshAll(kept, index, env.clock).value) + NewStories(NewCandidates(cands, index), env).value
  {
  }

  /** A run yields one story per candidate, each with its candidate's cluster
      id: first the stored candidates', then the new candidates'. Stored
      stories that no candidate names are dropped. */
  lemma ProcessOrder(file: StoryFile, cands: seq<Story>, env: Env)
    requires ProcessOf(file, Some(cands), env).Success?
    ensures var out := ProcessOf(file, Some(cands), env).value;
      var index := StoryIndex(StoriesIn(file).value);
      var kept, news := StoredCandidates(cands, index), NewCandidates(cands, index);
      && |out| == |cands|
      && ClusterIds(out) == ClusterIds(kept + news)
  {
    var index := StoryIndex(StoriesIn(file).value);
    var kept, news := StoredCandidates(cands, index), NewCandidates(cands, index);
    ProcessParts(file, cands, env);
    var m := RefreshAll(kept, index, env.clock).value;
    var ns := NewStories(news, env).value;
    var out := ProcessOf(file, Some(cands), env).value;
    SplitPartitions(cands, index, Story("", "", [], "", [], "", [], [], "", "", [], "", 0.0, NoParts, None));
    forall i | 0 <= i < |out|
      ensures out[i].clusterId == (kept + news)[i].clusterId
    {
      if i < |kept| {
        RefreshAllKey(kept, index, env.clock, kept[i].clusterId);
        assert kept[i].clusterId in ClusterIds(kept);
        assert out[i] == m[kept[i].clusterId];
        assert index[kept[i].clusterId].clusterId == kept[i].clusterId;
      } else {
        assert out[i] == ns[i - |kept|];
        assert ns[i - |kept|] == NewStory(news[i - |kept|], env).value;
      }
    }
  }

  /** Every processed stored story is its stored story, rescored. */
  lemma ResolvedRescored(kept: seq<Story>, index: map<string, Story>, clock: Clock)
    requires forall i :: 0 <= i < |kept| ==> kept[i].clusterId in index
    requires RefreshAll(kept, index, clock).Success?
    ensures var r := Resolved(kept, RefreshAll(kept, index, clock).value);
      forall i :: 0 <= i < |kept| ==> RescoredFrom(index[kept[i].clusterId], r[i])
  {
    var m := RefreshAll(kept, index, clock).value;
    forall i | 0 <= i < |kept|
      ensures RescoredFrom(index[kept[i].clusterId], Resolved(kept, m)[i])
    {
      RefreshAllKey(kept, index, clock, kept[i].clusterId);
      assert kept[i].clusterId in ClusterIds(kept);
    }
  }

  /** The story of a stored candidate is its stored story, rescored. */
  lemma ProcessStoredStories(file: StoryFile, cands: seq<Story>, env: Env)
    requires ProcessOf(file, Some(cands), env).Success?
    ensures var out := ProcessOf(file, Some(cands), env).value;
      var index := StoryIndex(StoriesIn(file).value);
      var kept := StoredCandidates(cands, index);
      && |kept| <= |out|
      && forall i :: 0 <= i < |kept| ==> RescoredFrom(index[kept[i].clusterId], out[i])
  {
    var index := StoryIndex(StoriesIn(file).value);
    var kept := StoredCandidates(cands, index);
    ProcessPrefix(file, cands, env);
    ResolvedRescored(kept, index, env.clock);
    var stored := Resolved(kept, RefreshAll(kept, index, env.clock).value);
    var out := ProcessOf(file, Some(cands), env).value;
    forall i | 0 <= i < |kept|
      ensures RescoredFrom(index[kept[i].clusterId], out[i])
    {
      assert out[i] == out[..|kept|][i] == stored[i];
    }
  }

  /** The new stories close every run's output, one per new candidate. */
  lemma ProcessNewStories(file: StoryFile, cands: seq<Story>, env: Env)
    requires ProcessOf(file, Some(cands), env).Success?
    ensures var out := ProcessOf(file, Some(cands), env).value;
      var index := StoryIndex(StoriesIn(file).value);
      var kept, news := StoredCandidates(cands, index), NewCandidates(cands, index);
      && NewStories(news, env).Success?
      && |out| == |kept| + |news|
      && out[|kept|..] == NewStories(news, env).value
  {
    var index := StoryIndex(StoriesIn(file).value);
    var kept, news := StoredCandidates(cands, index), NewCandidates(cands, index);
    ProcessParts(file, cands, env);
    var stored := Resolved(kept, RefreshAll(kept, index, env.clock).value);
    var made := NewStories(news, env).value;
    assert (stored + made)[|kept|..] == made;
  }

  /** The story made for the `j`-th new candidate is the one built from the
      client's reply to that candidate. */
  lemma NewStoriesAt(news: seq<Story>, env: Env, j: nat)
    requires NewStories(news, env).Success? && j < |news|
    ensures |NewStories(news, env).value| == |news|
    ensures NewStory(news[j], env) == Success(NewStories(news, env).value[j])
  {
    var f := c => NewStory(c, env);
    assert f(news[j]) == NewStory(news[j], env);
  }

  /** The processed stored stories open every run's output. */
  lemma ProcessPrefix(file: StoryFile, cands: seq<Story>, env: Env)
    requires ProcessOf(file, Some(cands), env).Success?
    ensures var index := StoryIndex(StoriesIn(file).value);
      var kept := StoredCandidates(cands, index);
      var out := ProcessOf(file, Some(cands), env).value;
      && RefreshAll(kept, index, env.clock).Success?
      && |kept| <= |out|
      && out[..|kept|] == Resolved(kept, RefreshAll(kept, index, env.clock).value)
  {
    var index := StoryIndex(StoriesIn(file).value);
    var kept := StoredCandidates(cands, index);
    ProcessParts(file, cands, env);
    var stored := Resolved(kept, RefreshAll(kept, index, env.clock).value);
    var made := NewStories(NewCandidates(cands, index), env).value;
    assert (stored + made)[..|kept|] == stored;
  }

  /** The client is asked only about new candidates: the processed stored
      stories do not depend on it. */
  lemma StoredIgnoreClient(file: StoryFile, cands: seq<Story>, env1: Env, env2: Env)
    requires env1.clock == env2.clock
    requires ProcessOf(file, Some(cands), env1).Success? && ProcessOf(file, Some(cands), env2).Success?
    ensures var n := |StoredCandidates(cands, StoryIndex(StoriesIn(file).value))|;
      var out1, out2 := ProcessOf(file, Some(cands), env1).value, ProcessOf(file, Some(cands), env2).value;
      n <= |out1| && n <= |out2| && out1[..n] == out2[..n]
  {
    ProcessPrefix(file, cands, env1);
    ProcessPrefix(file, cands, env2);
  }

  /** The story processor's state: the two files and what a run loaded and produced. */
  class StoryProcessor {
    var storyFile: StoryFile
    var candidateFile: Option<seq<Story>>
    var candidates: seq<Story>
    var processedStories: seq<Story>

    constructor (storyFile0: StoryFile, candidateFile0: Option<seq<Story>>)
      ensures storyFile == storyFile0 && candidateFile == candidateFile0
      ensures candidates == [] && processedStories == []
    {
      storyFile, candidateFile := storyFile0, candidateFile0;
      candidates, processedStories := [], [];
    }

    /** The loop over the stored candidates. */
    static method RefreshLoop(stored: seq<Story>, index: map<string, Story>, clock: Clock)
      returns (r: Result<map<string, Story>>)
      requires forall i :: 0 <= i < |stored| ==> stored[i].clusterId in index
      ensures r == RefreshAll(stored, index, clock)
    {
      var m := index;
      var i := 0;
      while i < |stored|
        invariant 0 <= i <= |stored|
        invariant RefreshAll(stored[..i], index, clock) == Success(m)
      {
        RefreshAllStep(stored, i, index, clock);
        var c := stored[i];
        var recency := Recency(c.timestamp, clock);
        var s := m[c.clusterId];
        if recency.Failure? || s.parts.NoParts? {
          var e := Refresh(m, c, clock);
          RefreshFailAfter(stored, i + 1, index, clock);
          return Failure(e.error);
        }
        var parts := s.parts.(recencyScore := recency.value);
        var next := m[c.clusterId := s.(parts := parts, score := Weighted(parts.llmScore, parts.reliabilityScore, recency.value))];
        assert Refresh(m, c, clock) == Success(next);
        m := next;
        i := i + 1;
      }
      assert stored[..i] == stored;
      r := Success(m);
    }

    /** The loop over the new candidates. */
    static method NewLoop(news: seq<Story>, env: Env) returns (r: Result<seq<Story>>)
      ensures r == NewStories(news, env)
    {
      var made: seq<Story> := [];
      var i := 0;
      while i < |news|
        invariant 0 <= i <= |news|
        invariant MapResult(news[..i], c => NewStory(c, env)) == Success(made)
      {
        MapResultPrefix(news, i, c => NewStory(c, env));
        var story := NewStory(news[i], env);
        if story.Failure? {
          MapResultFailAfter(news, i + 1, c => NewStory(c, env));
          return Failure(story.error);
        }
        made := made + [story.value];
        i := i + 1;
      }
      assert news[..i] == news;
      r := Success(made);
    }

    /** `process_candidates()`: on success the processed stories are kept and
        written to the stories file; on an error neither changes. */
    method ProcessCandidates(env: Env) returns (r: Result<seq<Story>>)
      modifies this
      ensures r == ProcessOf(old(storyFile), old(candidateFile), env)
      ensures candidateFile == old(candidateFile)
      ensures r.Success? ==> processedStories == r.value && storyFile == StoryList(r.value) && candidates == candidateFile.value
      ensures r.Failure? ==> processedStories == old(processedStories) && storyFile == old(storyFile)
      ensures r.Failure? ==> candidates == if old(storyFile).CorruptStoryFile? || candidateFile.None? then old(candidates) else candidateFile.value
    {
      var stored := StoriesIn(storyFile);
      if stored.Failure? {
        return Failure(stored.error);
      }
      if candidateFile.None? {
        return Failure("FileNotFoundError: Candidate file not found");
      }
      candidates := candidateFile.value;
      var index := StoryIndex(stored.value);
      var kept := StoredCandidates(candidates, index);
      var news := NewCandidates(candidates, index);
      var refreshed := RefreshLoop(kept, index, env.clock);
      if refreshed.Failure? {
        return Failure(refreshed.error);
      }
      var made := NewLoop(news, env);
      if made.Failure? {
        return Failure(made.error);
      }
      var out := Resolved(kept, refreshed.value) + made.value;
      processedStories := out;
      storyFile := StoryList(out);
      r := Success(out);
    }
  }

  /** One more stored candidate: the loop so far, then its update. */
  lemma RefreshAllStep(stored: seq<Story>, i: nat, index: map<string, Story>, clock: Clock)
    requires i < |stored|
    requires forall j :: 0 <= j < |stored| ==> stored[j].clusterId in index
    ensures var prev := RefreshAll(stored[..i], index, clock);
      RefreshAll(stored[..i + 1], index, clock) ==
        if prev.Failure? then prev else Refresh(prev.value, stored[i], clock)
  {
    assert stored[..i + 1][..i] == stored[..i];
    assert stored[..i + 1][i] == stored[i];
  }

  /** Once the loop over a prefix fails, the whole loop fails with the same error. */
  lemma {:induction false} RefreshFailAfter(stored: seq<Story>, i: nat, index: map<string, Story>, clock: Clock)
    requires i <= |stored|
    requires forall j :: 0 <= j < |stored| ==> stored[j].clusterId in index
    requires RefreshAll(stored[..i], index, clock).Failure?
    ensures RefreshAll(stored, index, clock) == RefreshAll(stored[..i], index, clock)
    decreases |stored| - i
  {
    if i < |stored| {
      assert stored[..i + 1][..i] == stored[..i];
      RefreshFailAfter(stored, i + 1, index, clock);
    } else {
      assert stored[..i] == stored;
    }
  }
}
