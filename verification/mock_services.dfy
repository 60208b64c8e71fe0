/** The offline stand-in for the backend client: a fixed progress script, a
    fixed twelve-segment transcript, and questions drawn from a fixed pool
    without replacement. Random draws and generated ids are inputs. */
module MockServices {
  import opened Types
  import opened IndexPage

  // ---------------------------------------------------------------- processing

  /** Every update `mockProcessVideo` reports, in order. */
  const ProgressScript: seq<ProcessingProgress> := [
    ProcessingProgress(Uploading, 0, None),
    ProcessingProgress(Uploading, 50, None),
    ProcessingProgress(Uploading, 100, None),
    ProcessingProgress(Processing, 0, Some("Preparing video for transcription")),
    ProcessingProgress(Processing, 100, Some("Video processed successfully")),
    ProcessingProgress(Transcribing, 0, Some("Starting transcription")),
    ProcessingProgress(Transcribing, 30, Some("Transcribing audio")),
    ProcessingProgress(Transcribing, 70, Some("Finalizing transcript")),
    ProcessingProgress(Transcribing, 100, Some("Transcript complete")),
    ProcessingProgress(Generating, 0, Some("Preparing to generate questions")),
    ProcessingProgress(Generating, 50, Some("Generating questions from transcript")),
    ProcessingProgress(Generating, 100, Some("Questions generated successfully")),
    ProcessingProgress(Complete, 100, Some("Process completed successfully"))]

  /** The order in which the pipeline's phases happen. */
  function PhaseRank(s: ProcessingStatus): nat {
    match s
    case Idle => 0
    case Uploading => 1
    case Processing => 2
    case Transcribing => 3
    case Generating => 4
    case Complete => 5
    case Error => 6
  }

  /** Each update is in the same phase as the one before or a later phase,
      and within a phase the progress does not fall. */
  predicate StepsForward(script: seq<ProcessingProgress>) {
    forall i :: 0 <= i < |script| - 1 ==>
      && PhaseRank(script[i].status) <= PhaseRank(script[i + 1].status)
      && (script[i].status == script[i + 1].status ==> script[i].progress <= script[i + 1].progress)
  }

  lemma ScriptStepsForward()
    ensures StepsForward(ProgressScript)
  {
    var s := ProgressScript;
    forall i | 0 <= i < |s| - 1
      ensures PhaseRank(s[i].status) <= PhaseRank(s[i + 1].status)
      ensures s[i].status == s[i + 1].status ==> s[i].progress <= s[i + 1].progress
    {
    }
  }

  /** Local steps forward give the global picture: phases never go back, and
      any two updates of the same phase are in progress order. */
  lemma {:induction false} StepsForwardGlobally(script: seq<ProcessingProgress>, i: nat, j: nat)
    requires StepsForward(script) && i <= j < |script|
    ensures PhaseRank(script[i].status) <= PhaseRank(script[j].status)
    ensures script[i].status == script[j].status ==> script[i].progress <= script[j].progress
    decreases j - i
  {
    if i < j {
      StepsForwardGlobally(script, i + 1, j);
      if script[i].status == script[j].status {
        assert PhaseRank(script[i].status) <= PhaseRank(script[i + 1].status) <= PhaseRank(script[j].status);
        assert script[i + 1].status == script[j].status;
      }
    }
  }

  /** What `mockProcessVideo` reports and returns. */
  datatype MockRun = MockRun(emitted: seq<ProcessingProgress>, video: VideoFile)

  /** `mockProcessVideo(file)`: the script, then a handle that copies the
      file's name, size and type; the id, object URL and upload time are
      supplied. */
  function MockProcessVideo(file: LocalFile, id: string, objectUrl: string, uploadedAt: nat): (r: MockRun)
    ensures |r.emitted| == 13
    ensures r.emitted[0] == ProcessingProgress(Uploading, 0, None)
    ensures r.emitted[|r.emitted| - 1].status == Complete && r.emitted[|r.emitted| - 1].progress == 100
    ensures StepsForward(r.emitted)
    ensures forall i :: 0 <= i < |r.emitted| - 1 ==> r.emitted[i].status != Complete && r.emitted[i].status != Error
    ensures r.video.name == file.name && r.video.size == file.size && r.video.mimeType == file.mimeType
    ensures r.video.id == id && r.video.url == objectUrl
  {
    ScriptStepsForward();
    MockRun(ProgressScript, VideoFile(id, file.name, file.size, file.mimeType, objectUrl, uploadedAt))
  }

  // ---------------------------------------------------------------- transcript

  const SegmentSeconds: nat := 300

  /** The texts the mock transcript cycles through. */
  const Lorem: seq<string> := [
    "Welcome to our lecture on advanced algorithms and data structures. Today, we're going to explore how these concepts are implemented in modern software systems.",
    "Let's start by understanding the basics of time complexity. Big O notation is a mathematical notation that describes the limiting behavior of a function when the argument tends towards a particular value or infinity.",
    "In computer science, we use Big O to classify algorithms according to how their run time or space requirements grow as the input size grows.",
    "Moving on to data structures, a binary search tree is a node-based binary tree data structure which has the following properties: The left subtree of a node contains only nodes with keys lesser than the node's key.",
    "The right subtree of a node contains only nodes with keys greater than the node's key. The left and right subtree each must also be a binary search tree.",
    "When implementing sorting algorithms, quicksort is often the preferred choice due to its efficiency. It works by selecting a 'pivot' element and partitioning the array around the pivot.",
    "Dynamic programming is both a mathematical optimization method and a computer programming method. In both contexts it refers to simplifying a complicated problem by breaking it down into simpler sub-problems.",
    "Graph algorithms are a significant area of study. Breadth-first search (BFS) is an algorithm for traversing or searching tree or graph data structures.",
    "Dijkstra's algorithm is a popular algorithm for finding the shortest paths between nodes in a graph, which may represent road networks or computer networks.",
    "Machine learning algorithms often rely on efficient data structures. K-means clustering is a method of vector quantization that aims to partition n observations into k clusters.",
    "Neural networks are composed of layers of computational units called neurons, with connections between them. The networks can learn complex patterns using backpropagation.",
    "To conclude our lecture, understanding these algorithms and data structures is fundamental to efficient software design and implementation across various domains of computer science."]

  lemma LoremSize()
    ensures |Lorem| == 12
  {
  }

  lemma ModSmall(i: nat, n: nat)
    requires 0 < n
    ensures i % n < n && (i < n ==> i % n == i)
  {
  }

  function MockSegment(videoId: string, ids: seq<string>, i: nat): (r: TranscriptSegment)
    requires i < |ids|
    ensures i < |Lorem| ==> r.text == Lorem[i]
  {
    LoremSize();
    ModSmall(i, |Lorem|);
    TranscriptSegment(ids[i], videoId, i * SegmentSeconds, (i + 1) * SegmentSeconds, Lorem[i % |Lorem|])
  }

  /** `mockGetTranscriptSegments(videoId)`: twelve five-minute segments back to
      back from time 0, the texts in order; `ids` are the generated ids. */
  function MockGetTranscriptSegments(videoId: string, ids: seq<string>): (r: seq<TranscriptSegment>)
    requires |ids| == 12
    ensures |r| == 12
    ensures r[0].startTime == 0 && r[11].endTime == 12 * SegmentSeconds
    ensures forall i :: 0 <= i < 12 ==> r[i].endTime - r[i].startTime == SegmentSeconds
    ensures forall i :: 0 <= i < 11 ==> r[i].endTime == r[i + 1].startTime
    ensures forall i :: 0 <= i < 12 ==> r[i].videoId == videoId && r[i].id == ids[i] && r[i].text == Lorem[i]
  {
    var r := seq(12, i requires 0 <= i < 12 => MockSegment(videoId, ids, i));
    assert forall i :: 0 <= i < 12 ==> r[i] == MockSegment(videoId, ids, i);
    r
  }

  /** During playback the mock segment holding second `t` is number `t / 300`,
      and past the hour none is. */
  lemma MockSegmentAt(videoId: string, ids: seq<string>, t: nat)
    requires |ids| == 12
    ensures var segs := MockGetTranscriptSegments(videoId, ids);
      FindSegmentAt(segs, t) == if t < 12 * SegmentSeconds then Some(t / SegmentSeconds) else None
  {
    var segs := MockGetTranscriptSegments(videoId, ids);
    var k := t / SegmentSeconds;
    if t < 12 * SegmentSeconds {
      assert segs[k].startTime <= t < segs[k].endTime;
      var found := FindSegmentAt(segs, t);
      assert found.Some?;
      assert found.value * SegmentSeconds <= t < (found.value + 1) * SegmentSeconds;
    } else {
      forall j | 0 <= j < 12
        ensures !(segs[j].startTime <= t < segs[j].endTime)
      {
        assert segs[j].endTime <= 12 * SegmentSeconds;
      }
    }
  }

  // ---------------------------------------------------------------- questions

  datatype PoolQuestion = PoolQuestion(question: string, options: seq<string>, correctAnswer: int)

  const Pool: seq<PoolQuestion> := [
    PoolQuestion("What notation is commonly used to describe algorithm efficiency?",
      ["Alpha notation", "Beta functions", "Big O notation", "Small N classification"], 2),
    PoolQuestion("Which sorting algorithm was mentioned as often being the preferred choice due to its efficiency?",
      ["Bubble sort", "Merge sort", "Insertion sort", "Quicksort"], 3),
    PoolQuestion("What is a key property of a binary search tree?",
      ["All nodes must have exactly two children",
       "The left subtree contains only nodes with keys lesser than the node's key",
       "The tree must be perfectly balanced",
       "Nodes must be stored in contiguous memory"], 1),
    PoolQuestion("What programming method breaks down complex problems into simpler sub-problems?",
      ["Object-oriented programming", "Functional programming", "Dynamic programming", "Procedural programming"], 2),
    PoolQuestion("Which algorithm is used for finding the shortest paths between nodes in a graph?",
      ["A* algorithm", "Dijkstra's algorithm", "Bellman-Ford algorithm", "Floyd-Warshall algorithm"], 1),
    PoolQuestion("What machine learning algorithm aims to partition observations into clusters?",
      ["Random Forest", "Support Vector Machines", "K-means clustering", "Linear Regression"], 2),
    PoolQuestion("What learning mechanism do neural networks typically use?",
      ["Forward propagation", "Lateral inhibition", "Backpropagation", "Reverse engineering"], 2)]

  /** `[0, 1, …, n - 1]`. */
  function Range(n: nat): (r: seq<nat>)
    ensures |r| == n && forall i :: 0 <= i < n ==> r[i] == i
  {
    if n == 0 then [] else Range(n - 1) + [n - 1]
  }

  /** `splice(k, 1)`. */
  function RemoveAt(s: seq<nat>, k: nat): (r: seq<nat>)
    requires k < |s|
    ensures |r| == |s| - 1
    ensures forall i :: 0 <= i < |r| ==> r[i] == if i < k then s[i] else s[i + 1]
  {
    assert s == s[..k] + [s[k]] + s[k + 1..];
    s[..k] + s[k + 1..]
  }

  /** Each draw is an index into what is still available: `n` at first, one
      fewer after every draw. */
  predicate Fits(picks: seq<nat>, n: nat) {
    forall i :: 0 <= i < |picks| ==> picks[i] < n - i
  }

  lemma FitsTail(picks: seq<nat>, n: nat)
    requires |picks| > 0 && Fits(picks, n)
    ensures picks[0] < n && Fits(picks[1..], n - 1)
  {
    forall i | 0 <= i < |picks| - 1
      ensures picks[1..][i] < n - 1 - i
    {
      assert picks[1..][i] == picks[i + 1];
    }
  }

  /** The pool indices a sequence of draws picks. */
  function Draws(available: seq<nat>, picks: seq<nat>): seq<nat>
    requires Fits(picks, |available|)
    decreases |picks|
  {
    if |picks| == 0 || |available| == 0 then []
    else
      FitsTail(picks, |available|);
      [available[picks[0]]] + Draws(RemoveAt(available, picks[0]), picks[1..])
  }

  predicate Distinct(s: seq<nat>) {
    forall i, j :: 0 <= i < j < |s| ==> s[i] != s[j]
  }

  function Question(segmentId: string, id: string, poolIndex: nat): MCQuestion
    requires poolIndex < |Pool|
  {
    var q := Pool[poolIndex];
    MCQuestion(id, segmentId, q.question, q.options, q.correctAnswer)
  }

  /** `mockGetMCQuestions(segmentId)`: `countDraw` is `⌊random·3⌋`, `picks[i]`
      is `⌊random·available.length⌋` at the i-th draw, `ids[i]` the i-th
      generated id. Chosen pool indices are removed from the available ones,
      so none is chosen twice. */
  method MockGetMCQuestions(segmentId: string, countDraw: nat, picks: seq<nat>, ids: seq<string>)
    returns (questions: seq<MCQuestion>, chosen: seq<nat>)
    requires countDraw < 3
    requires |picks| == |ids| == countDraw + 3
    requires Fits(picks, |Pool|)
    ensures |questions| == |chosen| == countDraw + 3
    ensures chosen == Draws(Range(|Pool|), picks)
    ensures Distinct(chosen) && forall i :: 0 <= i < |chosen| ==> chosen[i] < |Pool|
    ensures forall i :: 0 <= i < |questions| ==> questions[i] == Question(segmentId, ids[i], chosen[i])
  {
    var questionCount := countDraw + 3;
    chosen := DrawIndices(|Pool|, questionCount, picks);
    questions := seq(questionCount, k requires 0 <= k < questionCount => Question(segmentId, ids[k], chosen[k]));
  }

  /** The drawing loop over the indices `0 .. n - 1`: each turn takes the
      picked position out of the still available indices. */
  method DrawIndices(n: nat, count: nat, picks: seq<nat>) returns (chosen: seq<nat>)
    requires count <= n && |picks| == count && Fits(picks, n)
    ensures |chosen| == count
    ensures chosen == Draws(Range(n), picks)
    ensures Distinct(chosen) && forall i :: 0 <= i < |chosen| ==> chosen[i] < n
  {
    var available: seq<nat> := Range(n);
    chosen := [];
    var i := 0;
    while i < count
      invariant 0 <= i <= count
      invariant |available| == n - i && |chosen| == i
      invariant Fits(picks[i..], |available|)
      invariant chosen + Draws(available, picks[i..]) == Draws(Range(n), picks)
      invariant forall k :: 0 <= k < |available| ==> available[k] < n
      invariant forall k :: 0 <= k < i ==> chosen[k] < n
      invariant Distinct(chosen + available)
    {
      if |available| == 0 {
        break;
      }
      var randomIndex := picks[i];
      var questionIndex := available[randomIndex];
      DrawStep(chosen, available, picks[i..]);
      assert picks[i..][1..] == picks[i + 1..];
      SpliceKeepsDistinct(chosen, available, randomIndex);
      available := RemoveAt(available, randomIndex);
      chosen := chosen + [questionIndex];
      i := i + 1;
    }
    DistinctPrefix(chosen, available);
  }

  /** One turn of the drawing loop: the drawn index moves to the end of
      `chosen`, and the remaining draws come from what is left. */
  lemma DrawStep(chosen: seq<nat>, available: seq<nat>, picks: seq<nat>)
    requires |picks| > 0 && |available| > 0 && Fits(picks, |available|)
    ensures picks[0] < |available| && Fits(picks[1..], |available| - 1)
    ensures chosen + Draws(available, picks)
         == (chosen + [available[picks[0]]]) + Draws(RemoveAt(available, picks[0]), picks[1..])
  {
    FitsTail(picks, |available|);
  }

  /** Moving the spliced element from `available` to the end of `chosen`
      keeps all of them distinct. */
  lemma SpliceKeepsDistinct(chosen: seq<nat>, available: seq<nat>, k: nat)
    requires k < |available| && Distinct(chosen + available)
    ensures Distinct(chosen + [available[k]] + RemoveAt(available, k))
  {
    var before := chosen + available;
    var after := chosen + [available[k]] + RemoveAt(available, k);
    var n := |chosen|;
    // position p of `after` holds what position Pos(p) of `before` held
    forall p | 0 <= p < |after|
      ensures after[p] == before[if p < n then p else if p == n then n + k else if p <= n + k then p - 1 else p]
    {
    }
    forall p, q | 0 <= p < q < |after|
      ensures after[p] != after[q]
    {
      var pp := if p < n then p else if p == n then n + k else if p <= n + k then p - 1 else p;
      var qq := if q < n then q else if q == n then n + k else if q <= n + k then q - 1 else q;
      assert pp != qq;
    }
  }

  lemma DistinctPrefix(a: seq<nat>, b: seq<nat>)
    requires Distinct(a + b)
    ensures Distinct(a)
  {
    forall i, j | 0 <= i < j < |a|
      ensures a[i] != a[j]
    {
      assert (a + b)[i] == a[i] && (a + b)[j] == a[j];
    }
  }
}
