/** The relay: the main loop that turns signal-cli's output lines into
    analysis jobs, the tasks that turn jobs into replies, and the writer
    that turns the channel's replies into signal-cli's input.

    JSON decoding is the parameter `parse` (None for a line serde rejects);
    JSON encoding is the parameter `serialize`. The order in which spawned
    tasks finish is chosen by the scheduler and is an input here.
 */
module Relay {
  import opened Wrappers
  import opened Text
  import opened Events
  import opened Links
  import opened Analysis
  import opened Outbound

  /** One spawned analysis task: the link to analyse and whom to answer. */
  datatype Job = Job(link: Link, replyTo: string)

  /** One turn of the main loop. */
  function ProcessLine(parse: string -> Option<RpcResponse>, line: string): (r: Option<Job>)
    ensures IsBlank(line) ==> r.None?
    ensures r.Some? ==> parse(line).Some? && Extract(parse(line).value).Some?
    ensures r.Some? ==>
      var rpc := parse(line).value;
      && r.value.replyTo == rpc.params.value.envelope.value.sourceNumber.value
      && Classify(Extract(rpc).value.text) == Some(r.value.link)
  {
    if IsBlank(line) then None
    else match parse(line)
      case None => None
      case Some(rpc) =>
        match Extract(rpc)
        case None => None
        case Some(incoming) =>
          match Classify(incoming.text)
          case None => None
          case Some(link) => Some(Job(link, incoming.source))
  }

  /** A line yields a job exactly when it is not blank, parses, carries text
      from a usable source, and that text holds a link. */
  lemma ProcessLineIff(parse: string -> Option<RpcResponse>, line: string)
    ensures ProcessLine(parse, line).Some? <==>
      && !IsBlank(line)
      && parse(line).Some?
      && Extract(parse(line).value).Some?
      && (HasMatch(TikTokPattern, Extract(parse(line).value).value.text)
          || HasMatch(InstagramPattern, Extract(parse(line).value).value.text))
  {
  }

  /** A job's link is TikTok whenever the text holds a TikTok URL, whatever
      else it holds. */
  lemma TikTokFirst(parse: string -> Option<RpcResponse>, line: string)
    requires ProcessLine(parse, line).Some?
    ensures var text := Extract(parse(line).value).value.text;
      ProcessLine(parse, line).value.link.platform == TikTok <==> HasMatch(TikTokPattern, text)
  {
  }

  // ---------------------------------------------------------------------------
  // Both loops (lines to jobs, finished tasks to replies) keep, in order, the
  // `Some` results of one step per element.

  function FilterMap<T, U>(f: T -> Option<U>, xs: seq<T>): (ys: seq<U>)
    ensures |ys| <= |xs|
    decreases |xs|
  {
    if |xs| == 0 then []
    else
      match f(xs[0])
      case None => FilterMap(f, xs[1..])
      case Some(y) => [y] + FilterMap(f, xs[1..])
  }

  /** Every kept result is the step's result on some element. */
  lemma {:induction false} FilterMapSources<T, U>(f: T -> Option<U>, xs: seq<T>, n: nat)
    requires n < |FilterMap(f, xs)|
    ensures exists i :: 0 <= i < |xs| && f(xs[i]) == Some(FilterMap(f, xs)[n])
    decreases |xs|
  {
    var rest := FilterMap(f, xs[1..]);
    match f(xs[0])
    case None =>
      FilterMapSources(f, xs[1..], n);
      var i :| 0 <= i < |xs[1..]| && f(xs[1..][i]) == Some(rest[n]);
      assert xs[1..][i] == xs[i + 1];
    case Some(y) =>
      if n > 0 {
        FilterMapSources(f, xs[1..], n - 1);
        var i :| 0 <= i < |xs[1..]| && f(xs[1..][i]) == Some(rest[n - 1]);
        assert xs[1..][i] == xs[i + 1];
      }
  }

  /** Every `Some` result of the step is kept. */
  lemma {:induction false} FilterMapComplete<T, U>(f: T -> Option<U>, xs: seq<T>, i: nat)
    requires i < |xs| && f(xs[i]).Some?
    ensures f(xs[i]).value in FilterMap(f, xs)
    decreases |xs|
  {
    if i > 0 {
      assert xs[1..][i - 1] == xs[i];
      FilterMapComplete(f, xs[1..], i - 1);
    }
  }

  /** Elements are handled one after another. */
  lemma {:induction false} FilterMapConcat<T, U>(f: T -> Option<U>, a: seq<T>, b: seq<T>)
    ensures FilterMap(f, a + b) == FilterMap(f, a) + FilterMap(f, b)
    decreases |a|
  {
    if |a| == 0 {
      assert a + b == b;
    } else {
      assert (a + b)[0] == a[0];
      assert (a + b)[1..] == a[1..] + b;
      FilterMapConcat(f, a[1..], b);
    }
  }

  lemma {:induction false} FilterMapNone<T, U>(f: T -> Option<U>, xs: seq<T>)
    requires forall i :: 0 <= i < |xs| ==> f(xs[i]).None?
    ensures FilterMap(f, xs) == []
    decreases |xs|
  {
    if |xs| > 0 {
      assert forall i :: 1 <= i < |xs| ==> xs[1..][i - 1] == xs[i];
      FilterMapNone(f, xs[1..]);
    }
  }

  // ---------------------------------------------------------------------------
  // The main loop.

  /** One turn of the main loop, as a step function. */
  function LineStep(parse: string -> Option<RpcResponse>): string -> Option<Job> {
    (line: string) => ProcessLine(parse, line)
  }

  /** The main loop over the lines signal-cli printed before its output ended:
      the jobs spawned, in the order their lines arrived. */
  function MainLoop(parse: string -> Option<RpcResponse>, lines: seq<string>): (jobs: seq<Job>)
    ensures |jobs| <= |lines|
  {
    FilterMap(LineStep(parse), lines)
  }

  /** Every job the loop spawns is what one of the lines asked for. */
  lemma MainLoopSources(parse: string -> Option<RpcResponse>, lines: seq<string>, n: nat)
    requires n < |MainLoop(parse, lines)|
    ensures exists i :: 0 <= i < |lines| && ProcessLine(parse, lines[i]) == Some(MainLoop(parse, lines)[n])
  {
    FilterMapSources(LineStep(parse), lines, n);
  }

  /** Lines are handled one after another: the loop over `a + b` spawns the
      jobs for `a`, then those for `b`. */
  lemma MainLoopConcat(parse: string -> Option<RpcResponse>, a: seq<string>, b: seq<string>)
    ensures MainLoop(parse, a + b) == MainLoop(parse, a) + MainLoop(parse, b)
  {
    FilterMapConcat(LineStep(parse), a, b);
  }

  /** Lines that are blank, unparsable or link-free spawn nothing. */
  lemma MainLoopNothingToDo(parse: string -> Option<RpcResponse>, lines: seq<string>)
    requires forall i :: 0 <= i < |lines| ==> ProcessLine(parse, lines[i]).None?
    ensures MainLoop(parse, lines) == []
  {
    FilterMapNone(LineStep(parse), lines);
  }

  // ---------------------------------------------------------------------------
  // The spawned tasks and the reply channel.

  /** What a finished task puts on the channel: its reply when the analysis
      is done; nothing at all on an error (which is only logged) or a panic. */
  function TaskReply(job: Job, run: PipelineRun): (r: Option<Reply>)
    ensures r.Some? <==> AnalyzeVideo(run).Done?
    ensures r.Some? ==> r.value == Reply(job.replyTo, FormatAnalysis(run.opencode))
  {
    match AnalyzeVideo(run)
    case Done(text) => Some(Reply(job.replyTo, text))
    case _ => None
  }

  /** A finished task: its job and what its subprocesses did. */
  datatype Completion = Completion(job: Job, run: PipelineRun)

  function TaskStep(): Completion -> Option<Reply> {
    (c: Completion) => TaskReply(c.job, c.run)
  }

  /** The channel's contents, for tasks finishing in the order given. */
  function Enqueued(done: seq<Completion>): (q: seq<Reply>)
    ensures |q| <= |done|
  {
    FilterMap(TaskStep(), done)
  }

  /** Every reply on the channel is the reply of some finished task. */
  lemma EnqueuedSources(done: seq<Completion>, n: nat)
    requires n < |Enqueued(done)|
    ensures exists i :: 0 <= i < |done| && TaskReply(done[i].job, done[i].run) == Some(Enqueued(done)[n])
  {
    FilterMapSources(TaskStep(), done, n);
  }

  /** Every task that is done has its reply on the channel. */
  lemma EnqueuedComplete(done: seq<Completion>, i: nat)
    requires i < |done| && TaskReply(done[i].job, done[i].run).Some?
    ensures TaskReply(done[i].job, done[i].run).value in Enqueued(done)
  {
    FilterMapComplete(TaskStep(), done, i);
  }

  /** Tasks that fail before the analyser answers, or that panic while
      formatting its output, leave the channel empty: the requester is not told. */
  lemma FailuresAreSilent(done: seq<Completion>)
    requires forall i :: 0 <= i < |done| ==> !AnalyzeVideo(done[i].run).Done?
    ensures Enqueued(done) == []
  {
    FilterMapNone(TaskStep(), done);
  }

  /** What signal-cli reads on its input: one line per enqueued reply, each
      the `send` request for a reply to some finished job's source. */
  lemma OutputStream(serialize: JsonRpcRequest -> string, done: seq<Completion>)
    requires SingleLine(serialize)
    ensures var lines := SplitLines(WriterOutput(serialize, Enqueued(done)));
      && |lines| == |Enqueued(done)| <= |done|
      && forall n :: 0 <= n < |lines| ==>
           exists i :: 0 <= i < |done| && AnalyzeVideo(done[i].run).Done?
             && lines[n] == serialize(SendRequest(Reply(done[i].job.replyTo, FormatAnalysis(done[i].run.opencode))))
  {
    var q := Enqueued(done);
    WriterOutputFraming(serialize, q);
    forall n | 0 <= n < |q|
      ensures exists i :: (0 <= i < |done| && AnalyzeVideo(done[i].run).Done?
        && SplitLines(WriterOutput(serialize, q))[n] == serialize(SendRequest(Reply(done[i].job.replyTo, FormatAnalysis(done[i].run.opencode)))))
    {
      EnqueuedSources(done, n);
    }
  }
}
