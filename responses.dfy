/** One response worker seen as a sequential consumer: it takes queued
    responses in order, reads each body, and either warns about a failed read
    or hands the body to the disposition action the run was configured with
    (print it, or save it under a sharded path). What the worker does to the
    outside world is recorded as a trace of events. */
module Responses {
  import opened Filename
  import opened Shard

  /** What reading a response body yields. */
  datatype ReadOutcome = Read(body: seq<byte>) | ReadError

  /** What the filesystem answers when a body is written. */
  datatype WriteOutcome = Written | WriteError

  /** A queued response: its status code, the request URL as a string, what
      reading its body yields, and what the filesystem answers if this body
      is written to disk. */
  datatype Response = Response(status: int, url: string, read: ReadOutcome, write: WriteOutcome)

  /** The run parameters a worker reads. */
  datatype Context = Context(writeFiles: bool, baseDirectory: string, subdirLength: int)

  /** The effects a worker has: a warning, a response log line, bytes on the
      output stream, a file written, and the abort of the whole run. */
  datatype Event =
    | Warn(url: string, status: int)
    | LogResponse(status: int, message: string)
    | Output(bytes: seq<byte>)
    | Write(path: string, bytes: seq<byte>)
    | Abort

  /** Applies `f` to every element and concatenates the results. */
  function FlatMap<S, T>(xs: seq<S>, f: S -> seq<T>): seq<T> {
    if xs == [] then [] else f(xs[0]) + FlatMap(xs[1..], f)
  }

  lemma {:induction false} FlatMapAppend<S, T>(a: seq<S>, b: seq<S>, f: S -> seq<T>)
    ensures FlatMap(a + b, f) == FlatMap(a, f) + FlatMap(b, f)
  {
    if a == [] {
      assert a + b == b;
    } else {
      assert (a + b)[0] == a[0] && (a + b)[1..] == a[1..] + b;
      FlatMapAppend(a[1..], b, f);
    }
  }

  lemma FlatMapSingle<S, T>(x: S, f: S -> seq<T>)
    ensures FlatMap([x], f) == f(x)
  {
    assert [x][1..] == [];
  }

  lemma FlatMapPair<S, T>(x: S, y: S, f: S -> seq<T>)
    ensures FlatMap([x, y], f) == f(x) + f(y)
  {
    assert [x, y][1..] == [y];
    FlatMapSingle(y, f);
  }

  // Views of a trace, one kind of event at a time.

  function Warnings(e: Event): seq<Event> {
    if e.Warn? then [e] else []
  }

  function ResponseLogs(e: Event): seq<Event> {
    if e.LogResponse? then [e] else []
  }

  function OutputBytes(e: Event): seq<byte> {
    if e.Output? then e.bytes else []
  }

  function WrittenFiles(e: Event): seq<(string, seq<byte>)> {
    if e.Write? then [(e.path, e.bytes)] else []
  }

  /** The print action: one response log line with the status and the URL,
      then the body verbatim on the output, only when it is not empty. */
  function PrintBody(response: Response, body: seq<byte>): (events: seq<Event>)
    ensures Abort !in events
    ensures |events| >= 1 && events[0] == LogResponse(response.status, response.url)
    ensures |events| > 1 <==> |body| > 0
  {
    var log := LogResponse(response.status, response.url);
    if |body| > 0 then [log, Output(body)] else [log]
  }

  /** Printing logs exactly once and passes the body through, adding no
      warning and no file. */
  lemma PrintBodyContents(response: Response, body: seq<byte>)
    ensures var events := PrintBody(response, body);
      && FlatMap(events, ResponseLogs) == [LogResponse(response.status, response.url)]
      && FlatMap(events, OutputBytes) == body
      && FlatMap(events, Warnings) == []
      && FlatMap(events, WrittenFiles) == []
  {
    var log := LogResponse(response.status, response.url);
    if |body| > 0 {
      FlatMapPair(log, Output(body), ResponseLogs);
      FlatMapPair(log, Output(body), OutputBytes);
      FlatMapPair(log, Output(body), Warnings);
      FlatMapPair(log, Output(body), WrittenFiles);
    } else {
      FlatMapSingle(log, ResponseLogs);
      FlatMapSingle(log, OutputBytes);
      FlatMapSingle(log, Warnings);
      FlatMapSingle(log, WrittenFiles);
    }
  }

  /** The path a response body is saved under. */
  function SavePath(md5: string -> Digest, context: Context, response: Response): string {
    FilePath(md5, context.baseDirectory, context.subdirLength, Sanitize(response.url))
  }

  /** Where a saved body lands: the shard directory for the run's base
      directory and depth, then the sanitised URL, which is a clean name. */
  lemma SavePathLayout(md5: string -> Digest, context: Context, response: Response)
    ensures var path := SavePath(md5, context, response);
      var filename := Sanitize(response.url);
      var n := DirectoryLength(context.baseDirectory, context.subdirLength);
      && n <= |path|
      && path[..n] == DirectoryForFile(md5, context.baseDirectory, filename, context.subdirLength)
      && path[n..] == filename
      && IsClean(path[n..])
  {
    FilePathSplits(md5, context.baseDirectory, context.subdirLength, Sanitize(response.url));
  }

  /** The save action: write the body to its path; a failed write aborts the
      run before anything is logged, a successful one is logged as
      "<URL> -> <path>" with the status. */
  function SaveBody(md5: string -> Digest, context: Context, response: Response,
                    body: seq<byte>): (events: seq<Event>)
    ensures Abort in events <==> response.write == WriteError
    ensures response.write == WriteError ==> events == [Abort]
    ensures response.write == Written ==> |events| == 2 && events[0].Write? && events[1].LogResponse?
  {
    var filename := Sanitize(response.url);
    var fullPath := FilePath(md5, context.baseDirectory, context.subdirLength, filename);
    match response.write
    case WriteError => [Abort]
    case Written =>
      [Write(fullPath, body), LogResponse(response.status, response.url + " -> " + fullPath)]
  }

  /** A successful save writes the body once, to the path derived from the
      sanitised URL, and logs once; saving never warns or prints. */
  lemma SaveBodyContents(md5: string -> Digest, context: Context, response: Response,
                         body: seq<byte>)
    ensures var events := SaveBody(md5, context, response, body);
      && FlatMap(events, Warnings) == []
      && FlatMap(events, OutputBytes) == []
      && (response.write == Written ==>
            && FlatMap(events, WrittenFiles) == [(SavePath(md5, context, response), body)]
            && FlatMap(events, ResponseLogs)
               == [LogResponse(response.status,
                               response.url + " -> " + SavePath(md5, context, response))])
  {
    if response.write == WriteError {
      FlatMapSingle(Abort, Warnings);
      FlatMapSingle(Abort, OutputBytes);
    } else {
      var fullPath := SavePath(md5, context, response);
      var write := Write(fullPath, body);
      var log := LogResponse(response.status, response.url + " -> " + fullPath);
      FlatMapPair(write, log, WrittenFiles);
      FlatMapPair(write, log, ResponseLogs);
      FlatMapPair(write, log, Warnings);
      FlatMapPair(write, log, OutputBytes);
    }
  }

  /** When handling a response aborts the run: the body was read and the
      write of a saved file failed. */
  predicate FailsWrite(context: Context, response: Response) {
    context.writeFiles && response.read.Read? && response.write == WriteError
  }

  /** What each response is expected to contribute to the trace, kind by kind. */
  function ExpectedWarnings(response: Response): seq<Event> {
    if response.read.ReadError? then [Warn(response.url, response.status)] else []
  }

  function ReadBodies(response: Response): seq<byte> {
    if response.read.Read? then response.read.body else []
  }

  function ExpectedFiles(md5: string -> Digest, context: Context, response: Response)
    : seq<(string, seq<byte>)>
  {
    if response.read.Read? then [(SavePath(md5, context, response), response.read.body)] else []
  }

  function ExpectedLogs(md5: string -> Digest, context: Context, response: Response): seq<Event> {
    if response.read.ReadError? then []
    else if context.writeFiles then
      [LogResponse(response.status, response.url + " -> " + SavePath(md5, context, response))]
    else
      [LogResponse(response.status, response.url)]
  }

  /** The action a worker applies to every body it reads: saving when the
      run writes files, printing otherwise. */
  function BodyAction(md5: string -> Digest, context: Context, response: Response,
                      body: seq<byte>): (events: seq<Event>)
    ensures Abort in events <==> context.writeFiles && response.write == WriteError
    ensures Abort in events ==> events == [Abort]
  {
    if context.writeFiles then SaveBody(md5, context, response, body) else PrintBody(response, body)
  }

  /** The events of one iteration of the worker loop. */
  function Handle(md5: string -> Digest, context: Context, response: Response): (events: seq<Event>)
    ensures Abort in events <==> FailsWrite(context, response)
    ensures FailsWrite(context, response) ==> events == [Abort]
  {
    match response.read
    case ReadError => [Warn(response.url, response.status)]
    case Read(body) => BodyAction(md5, context, response, body)
  }

  /** A failed read gives one warning and nothing else; a successful read
      gives exactly one call of the configured action, with the body. */
  lemma HandleContents(md5: string -> Digest, context: Context, response: Response)
    ensures var events := Handle(md5, context, response);
      && FlatMap(events, Warnings) == ExpectedWarnings(response)
      && FlatMap(events, OutputBytes) == (if context.writeFiles then [] else ReadBodies(response))
      && (!FailsWrite(context, response) ==>
            && FlatMap(events, ResponseLogs) == ExpectedLogs(md5, context, response)
            && FlatMap(events, WrittenFiles)
               == if context.writeFiles then ExpectedFiles(md5, context, response) else [])
  {
    match response.read
    case ReadError =>
      var warn := Warn(response.url, response.status);
      FlatMapSingle(warn, Warnings);
      FlatMapSingle(warn, OutputBytes);
      FlatMapSingle(warn, ResponseLogs);
      FlatMapSingle(warn, WrittenFiles);
    case Read(body) =>
      if context.writeFiles {
        SaveBodyContents(md5, context, response, body);
      } else {
        PrintBodyContents(response, body);
      }
  }

  /** The trace of a worker that drains `queue`: every response is handled in
      order until one aborts the run. */
  function Drain(md5: string -> Digest, context: Context, queue: seq<Response>): seq<Event> {
    if queue == [] then []
    else
      var events := Handle(md5, context, queue[0]);
      if Abort in events then events else events + Drain(md5, context, queue[1..])
  }

  /** Draining the queue from position `i` handles the response there first. */
  lemma DrainStep(md5: string -> Digest, context: Context, queue: seq<Response>, i: nat)
    requires i < |queue|
    ensures Drain(md5, context, queue[i..])
         == if FailsWrite(context, queue[i]) then [Abort]
            else Handle(md5, context, queue[i]) + Drain(md5, context, queue[i + 1..])
  {
    assert queue[i..][0] == queue[i] && queue[i..][1..] == queue[i + 1..];
  }

  /** The body of the worker loop for one response: warn on a failed read,
      otherwise run the configured action. `aborted` says that the action
      panicked because the file could not be written. */
  method ProcessResponse(md5: string -> Digest, context: Context, response: Response)
    returns (events: seq<Event>, aborted: bool)
    ensures events == Handle(md5, context, response)
    ensures aborted <==> FailsWrite(context, response)
  {
    match response.read {
      case ReadError =>
        events := [Warn(response.url, response.status)];
      case Read(body) =>
        events := BodyAction(md5, context, response, body);
    }
    aborted := Abort in events;
  }

  /** The worker loop: receive each queued response in turn and process it;
      a failed write stops everything. */
  method ResponseWorker(md5: string -> Digest, context: Context, responses: seq<Response>)
    returns (trace: seq<Event>)
    ensures trace == Drain(md5, context, responses)
  {
    trace := [];
    var i := 0;
    while i < |responses|
      invariant 0 <= i <= |responses|
      invariant trace + Drain(md5, context, responses[i..]) == Drain(md5, context, responses)
    {
      DrainStep(md5, context, responses, i);
      ghost var rest := Drain(md5, context, responses[i + 1..]);
      var events, aborted := ProcessResponse(md5, context, responses[i]);
      if aborted {
        trace := trace + events;
        return;
      }
      assert (trace + events) + rest == trace + (events + rest);
      trace := trace + events;
      i := i + 1;
    }
  }

  /** Handling a response that does not abort lets the next ones be handled:
      the trace of a longer queue extends the trace of its prefix. */
  lemma {:induction false} DrainAppend(md5: string -> Digest, context: Context,
                                       a: seq<Response>, b: seq<Response>)
    requires Abort !in Drain(md5, context, a)
    ensures Drain(md5, context, a + b) == Drain(md5, context, a) + Drain(md5, context, b)
  {
    if a == [] {
      assert a + b == b;
    } else {
      assert (a + b)[0] == a[0] && (a + b)[1..] == a[1..] + b;
      var events := Handle(md5, context, a[0]);
      assert Abort !in events;
      assert Drain(md5, context, a) == events + Drain(md5, context, a[1..]);
      assert Drain(md5, context, a + b) == events + Drain(md5, context, a[1..] + b);
      DrainAppend(md5, context, a[1..], b);
    }
  }

  /** Once the run has aborted, no later response is handled. */
  lemma {:induction false} DrainStopsAtAbort(md5: string -> Digest, context: Context,
                                             a: seq<Response>, b: seq<Response>)
    requires Abort in Drain(md5, context, a)
    ensures Drain(md5, context, a + b) == Drain(md5, context, a)
  {
    assert a != [];
    assert (a + b)[0] == a[0] && (a + b)[1..] == a[1..] + b;
    if Abort !in Handle(md5, context, a[0]) {
      DrainStopsAtAbort(md5, context, a[1..], b);
    }
  }

  /** The run aborts exactly when some response is read and its write fails. */
  lemma {:induction false} AbortIffWriteFails(md5: string -> Digest, context: Context,
                                              queue: seq<Response>)
    ensures Abort in Drain(md5, context, queue)
        <==> exists i :: 0 <= i < |queue| && FailsWrite(context, queue[i])
  {
    if queue != [] {
      AbortIffWriteFails(md5, context, queue[1..]);
      if !FailsWrite(context, queue[0]) {
        assert forall i :: 0 < i < |queue| ==> queue[i] == queue[1..][i - 1];
        assert (exists i :: 0 <= i < |queue| && FailsWrite(context, queue[i]))
           <==> (exists i :: 0 <= i < |queue| - 1 && FailsWrite(context, queue[1..][i]));
      }
    }
  }

  /** An abort is the last event, it happens once, and it comes at the first
      response whose write fails: the trace is that of the responses before it,
      which does not abort, followed by the abort alone. */
  lemma {:induction false} AbortAtFirstFailedWrite(md5: string -> Digest, context: Context,
                                                   queue: seq<Response>, k: nat)
    requires k < |queue| && FailsWrite(context, queue[k])
    requires forall j :: 0 <= j < k ==> !FailsWrite(context, queue[j])
    ensures Abort !in Drain(md5, context, queue[..k])
    ensures Drain(md5, context, queue) == Drain(md5, context, queue[..k]) + [Abort]
  {
    if k == 0 {
      assert queue[..k] == [];
    } else {
      assert queue[..k][0] == queue[0] && queue[..k][1..] == queue[1..][..k - 1];
      AbortAtFirstFailedWrite(md5, context, queue[1..], k - 1);
    }
  }

  /** When the run does not abort, the warnings are one per failed read, in
      queue order, and the response log lines, output bytes and written files
      are exactly those the successful reads call for, in queue order. */
  lemma {:induction false} DrainContents(md5: string -> Digest, context: Context,
                                         queue: seq<Response>)
    requires Abort !in Drain(md5, context, queue)
    ensures var trace := Drain(md5, context, queue);
      && FlatMap(trace, Warnings) == FlatMap(queue, ExpectedWarnings)
      && FlatMap(trace, ResponseLogs)
         == FlatMap(queue, (r: Response) => ExpectedLogs(md5, context, r))
      && FlatMap(trace, OutputBytes)
         == (if context.writeFiles then [] else FlatMap(queue, ReadBodies))
      && FlatMap(trace, WrittenFiles)
         == (if context.writeFiles then FlatMap(queue, (r: Response) => ExpectedFiles(md5, context, r))
             else [])
  {
    if queue != [] {
      var events := Handle(md5, context, queue[0]);
      var rest := Drain(md5, context, queue[1..]);
      assert Abort !in events;
      HandleContents(md5, context, queue[0]);
      DrainContents(md5, context, queue[1..]);
      FlatMapAppend(events, rest, Warnings);
      FlatMapAppend(events, rest, ResponseLogs);
      FlatMapAppend(events, rest, OutputBytes);
      FlatMapAppend(events, rest, WrittenFiles);
    }
  }

  /** Printing never aborts, and the output stream carries the bodies of the
      readable responses back to back, with nothing added. */
  lemma {:induction false} PrintPassesBodiesThrough(md5: string -> Digest, context: Context, queue: seq<Response>)
    requires !context.writeFiles
    ensures Abort !in Drain(md5, context, queue)
    ensures FlatMap(Drain(md5, context, queue), OutputBytes) == FlatMap(queue, ReadBodies)
    ensures FlatMap(Drain(md5, context, queue), WrittenFiles) == []
  {
    AbortIffWriteFails(md5, context, queue);
    DrainContents(md5, context, queue);
  }
}
