/** The hooks of the `upload` command (lib/Commands/UploadCommand.js, onFileUpload,
    onFileProgress and onFileComplete): progress counters that the hooks update in place,
    and the classification of each file's terminal outcome into one leveled log line. */
module UploadHooks {
  import opened JsValues

  // ---------------------------------------------------------------------------------------
  // Terminal outcome of one file

  /** Fixed parts of the messages onFileComplete logs. */
  const InvalidBodyPrefix := "Error: Failed to upload file '"
  const InvalidBodyMiddle := "'. Invalid body return with status code "
  const StatusPrefix := "Response returned with status code "
  const SuccessPrefix := "Successfully uploaded file '"
  const FailurePrefix := "Failed to upload file '"

  /** `retval.data`: only the fields the classifier reads (`remoteExists` is `data.exists`). */
  datatype OutcomeData = OutcomeData(message: Value, remoteExists: Value, md5Match: Value, pathMatch: Value, retry: Value)

  /** `retval` of onFileComplete. */
  datatype Outcome = Outcome(success: Value, data: OutcomeData)

  /** The `data` argument of onFileComplete: which file the outcome is about. */
  datatype FileData = FileData(localPath: string, remotePath: string)

  /** The transport response, when there is one. */
  datatype Response = Response(status: Value, statusCode: Value)

  /** The level of a failed upload: a duplicate (the same content already at the same path)
      and a failure the backend will retry are warnings; everything else is an error. */
  function FailureLevel(data: OutcomeData): (l: Level)
    ensures l == Warn || l == Error
    ensures IsTrue(data.remoteExists) ==>
              (l == Warn <==> IsTrue(data.md5Match) && IsTrue(data.pathMatch))
    ensures !IsTrue(data.remoteExists) ==> (l == Warn <==> IsTrue(data.retry))
  {
    if IsTrue(data.remoteExists) then
      if IsTrue(data.md5Match) && IsTrue(data.pathMatch) then Warn else Error
    else if data.retry != Undefined && IsTrue(data.retry) then Warn
    else Error
  }

  /** The failure text: the backend's message when it is truthy, the serialized data
      otherwise. `stringify` stands for JSON.stringify. */
  function FailureMessage(localPath: string, data: OutcomeData, stringify: OutcomeData -> string): (m: string)
    ensures var head := FailurePrefix + localPath + "': ";
            |head| <= |m| && m[..|head|] == head
            && m[|head|..] == (if Truthy(data.message) then ToText(data.message) else stringify(data))
  {
    var message := FailurePrefix + localPath + "'";
    var detail := if Truthy(data.message) then ToText(data.message) else stringify(data);
    var m := message + ": " + detail;
    assert m == (FailurePrefix + localPath + "': ") + detail;
    m
  }

  /** The one line that classifies an outcome. */
  function OutcomeLine(retval: Outcome, file: FileData, stringify: OutcomeData -> string): (l: LogLine)
    ensures l.level == Info <==> Truthy(retval.success)
    ensures !Truthy(retval.success) ==>
              l == LogLine(FailureLevel(retval.data), FailureMessage(file.localPath, retval.data, stringify))
  {
    if Truthy(retval.success) then
      LogLine(Info, SuccessPrefix + file.localPath + "' to '" + file.remotePath + "'")
    else
      LogLine(FailureLevel(retval.data), FailureMessage(file.localPath, retval.data, stringify))
  }

  /** Whether a response came back with an empty body, the case that is logged as an error
      without classifying the outcome. */
  predicate InvalidBody(response: Option<Response>, body: Value)
  {
    response.Some? && !Truthy(body)
  }

  /** The verbose line with the response's status. */
  function StatusLine(response: Response): (l: LogLine)
    ensures l.level == Log
    ensures |StatusPrefix| <= |l.message| && l.message[..|StatusPrefix|] == StatusPrefix
    ensures l.message[|StatusPrefix|..] == ToText(response.status)
  {
    LogLine(Log, StatusPrefix + ToText(response.status))
  }

  /** The error for an empty body: it names the file, the status code and the body. */
  function InvalidBodyLine(response: Response, body: Value, file: FileData): (l: LogLine)
    ensures l.level == Error
    ensures var head := InvalidBodyPrefix + file.localPath + InvalidBodyMiddle;
            |head| <= |l.message| && l.message[..|head|] == head
            && l.message[|head|..] == ToText(response.statusCode) + ": " + ToText(body)
  {
    LogLine(Error, InvalidBodyPrefix + file.localPath + InvalidBodyMiddle
                   + ToText(response.statusCode) + ": " + ToText(body))
  }

  /** Everything onFileComplete logs: the response status (verbose), then either the
      invalid-body error or the outcome's classification. */
  function CompleteLines(response: Option<Response>, body: Value, retval: Outcome,
                         file: FileData, stringify: OutcomeData -> string): (lines: seq<LogLine>)
    ensures response.Some? <==> |lines| == 2
    ensures response.Some? ==> lines[0] == StatusLine(response.value)
    ensures response.None? ==> |lines| == 1
    ensures lines[|lines| - 1] == if InvalidBody(response, body) then InvalidBodyLine(response.value, body, file)
                                  else OutcomeLine(retval, file, stringify)
  {
    if response.Some? then
      if !Truthy(body) then [StatusLine(response.value), InvalidBodyLine(response.value, body, file)]
      else [StatusLine(response.value), OutcomeLine(retval, file, stringify)]
    else [OutcomeLine(retval, file, stringify)]
  }

  /** Every completion is reported by exactly one info, warn or error line: the invalid-body
      error when a response came back with an empty body (the outcome is then not
      classified), and the outcome's classification otherwise. */
  lemma CompleteReportsOnce(response: Option<Response>, body: Value, retval: Outcome,
                            file: FileData, stringify: OutcomeData -> string)
    ensures Leveled(CompleteLines(response, body, retval, file, stringify))
         == if InvalidBody(response, body) then [InvalidBodyLine(response.value, body, file)]
            else [OutcomeLine(retval, file, stringify)]
  {
    var lines := CompleteLines(response, body, retval, file, stringify);
    if response.Some? {
      LeveledAppend([lines[0]], lines[1..]);
      assert lines == [lines[0]] + lines[1..];
      assert lines[1..][1..] == [];
    } else {
      assert lines[1..] == [];
    }
  }

  // ---------------------------------------------------------------------------------------
  // Progress counters

  /** `bar` (whether a progress bar exists), `localFilesize`, `bytesUploaded`,
      `bytesDispatched` and `lastRun`; None stands for null. */
  datatype Counters = Counters(bar: bool, localFilesize: Option<int>, bytesUploaded: Option<int>,
                               bytesDispatched: int, lastRun: Option<int>)

  const Initial := Counters(false, None, None, 0, None)

  /** A bar exists only together with the size, the byte count and the time it was set up
      with. */
  predicate Consistent(c: Counters)
  {
    c.bar ==> c.localFilesize.Some? && c.bytesUploaded.Some? && c.lastRun.Some?
  }

  /** onFileUpload: with progress bars on, a bar is set up for the file's size at time
      `now`; bytesDispatched keeps its value. */
  function FileUploadStep(c: Counters, progressBars: bool, size: nat, now: int): (r: Counters)
    ensures Consistent(c) ==> Consistent(r)
    ensures progressBars ==> r.bar && r.bytesUploaded == Some(0) && r.localFilesize == Some(size) && r.lastRun == Some(now)
    ensures r.bytesDispatched == c.bytesDispatched
    ensures !progressBars ==> r == c
  {
    if progressBars then
      c.(bar := true, bytesUploaded := Some(0), localFilesize := Some(size), lastRun := Some(now))
    else c
  }

  /** The result of one onFileProgress: the new counters and whether the bar was redrawn. */
  datatype Progress = Progress(counters: Counters, rendered: bool)

  /** onFileProgress for a chunk of `chunkLength` bytes. `nowCheck` and `nowRender` are the two
      clock readings the hook takes (for the elapsed time, and for lastRun on a redraw). */
  function ProgressStep(c: Counters, interval: int, chunkLength: nat, nowCheck: int, nowRender: int): (r: Progress)
    requires Consistent(c)
    ensures Consistent(r.counters)
    ensures !c.bar ==> r == Progress(c, false)
    ensures c.bar ==>
              var uploaded := c.bytesUploaded.value + c.bytesDispatched + chunkLength;
              r.counters.bar && r.counters.localFilesize == c.localFilesize
              && r.counters.bytesUploaded == Some(uploaded)
              && (r.rendered <==> nowCheck - c.lastRun.value >= interval || uploaded >= c.localFilesize.value)
              && (r.rendered ==> r.counters.lastRun == Some(nowRender) && r.counters.bytesDispatched == 0)
              && (!r.rendered ==> r.counters.lastRun == c.lastRun
                                  && r.counters.bytesDispatched == c.bytesDispatched + chunkLength)
  {
    if !c.bar then Progress(c, false)
    else
      var dispatched := c.bytesDispatched + chunkLength;
      var uploaded := c.bytesUploaded.value + dispatched;
      if nowCheck - c.lastRun.value >= interval || uploaded >= c.localFilesize.value then
        Progress(c.(bytesDispatched := 0, bytesUploaded := Some(uploaded), lastRun := Some(nowRender)), true)
      else
        Progress(c.(bytesDispatched := dispatched, bytesUploaded := Some(uploaded)), false)
  }

  /** The teardown at the start of onFileComplete: a bar that is not complete is dropped
      together with the file size; a complete bar, and every counter, stays. */
  function CompleteStep(c: Counters, barComplete: bool): (r: Counters)
    ensures Consistent(c) ==> Consistent(r)
    ensures c.bar && !barComplete ==> !r.bar && r.localFilesize.None?
    ensures !(c.bar && !barComplete) ==> r == c
    ensures r.bytesUploaded == c.bytesUploaded && r.bytesDispatched == c.bytesDispatched && r.lastRun == c.lastRun
  {
    if c.bar && !barComplete then c.(bar := false, localFilesize := None) else c
  }

  /** One transferred chunk as the hook sees it. */
  datatype Chunk = Chunk(length: nat, nowCheck: int, nowRender: int)

  function Lengths(chunks: seq<Chunk>): nat
  {
    if chunks == [] then 0 else chunks[0].length + Lengths(chunks[1..])
  }

  /** A run of onFileProgress calls: the final counters and, per chunk, whether it redrew. */
  function ProgressRun(c: Counters, interval: int, chunks: seq<Chunk>): (r: (Counters, seq<bool>))
    requires Consistent(c)
    ensures Consistent(r.0) && |r.1| == |chunks|
    ensures c.bar ==> r.0.bar && r.0.localFilesize == c.localFilesize
    decreases |chunks|
  {
    if chunks == [] then (c, [])
    else
      var step := ProgressStep(c, interval, chunks[0].length, chunks[0].nowCheck, chunks[0].nowRender);
      var rest := ProgressRun(step.counters, interval, chunks[1..]);
      (rest.0, [step.rendered] + rest.1)
  }

  /** Over a run of chunks on one bar, bytesUploaded grows by at least the bytes sent (plus,
      from the first chunk on, what was pending in bytesDispatched): it adds the bytes since
      the last redraw at every chunk, so it over-counts whenever a chunk is not redrawn. */
  lemma {:induction false} ProgressCountsAtLeastBytesSent(c: Counters, interval: int, chunks: seq<Chunk>)
    requires Consistent(c) && c.bar && c.bytesDispatched >= 0
    ensures var r := ProgressRun(c, interval, chunks).0;
            r.bar && r.bytesDispatched >= 0
            && r.bytesUploaded.value
               >= c.bytesUploaded.value + Lengths(chunks) + (if chunks == [] then 0 else c.bytesDispatched)
    decreases |chunks|
  {
    if chunks != [] {
      var step := ProgressStep(c, interval, chunks[0].length, chunks[0].nowCheck, chunks[0].nowRender);
      ProgressCountsAtLeastBytesSent(step.counters, interval, chunks[1..]);
    }
  }

  /** When every chunk but the last is redrawn, the counter is exact: bytesUploaded grows by
      the bytes sent (plus, from the first chunk on, what was pending before it). */
  lemma {:induction false} ProgressExactWhenRedrawn(c: Counters, interval: int, chunks: seq<Chunk>)
    requires Consistent(c) && c.bar
    requires forall i :: 0 <= i < |chunks| - 1 ==> ProgressRun(c, interval, chunks).1[i]
    ensures ProgressRun(c, interval, chunks).0.bytesUploaded.value
         == c.bytesUploaded.value + Lengths(chunks) + (if chunks == [] then 0 else c.bytesDispatched)
    decreases |chunks|
  {
    if chunks != [] {
      var step := ProgressStep(c, interval, chunks[0].length, chunks[0].nowCheck, chunks[0].nowRender);
      var run := ProgressRun(c, interval, chunks);
      var rest := ProgressRun(step.counters, interval, chunks[1..]);
      if |chunks| > 1 {
        assert run.1[0] == step.rendered;
        assert step.counters.bytesDispatched == 0;
        forall i | 0 <= i < |chunks[1..]| - 1 ensures rest.1[i] {
          assert run.1[i + 1] == rest.1[i];
        }
      }
      ProgressExactWhenRedrawn(step.counters, interval, chunks[1..]);
    }
  }

  /** Two chunks inside one interval on a fresh bar: the second adds the first's bytes again. */
  lemma ProgressOverCounts()
    ensures var c := Counters(true, Some(100), Some(0), 0, Some(0));
            ProgressRun(c, 1000, [Chunk(10, 1, 1), Chunk(10, 2, 2)]).0.bytesUploaded == Some(30)
  {
    var c := Counters(true, Some(100), Some(0), 0, Some(0));
    var s1 := ProgressStep(c, 1000, 10, 1, 1);
    assert s1.counters.bytesDispatched == 10 && s1.counters.bytesUploaded == Some(10);
    var chunks := [Chunk(10, 1, 1), Chunk(10, 2, 2)];
    assert chunks[1..] == [Chunk(10, 2, 2)];
    assert ProgressRun(s1.counters, 1000, chunks[1..]).0.bytesUploaded == Some(30) by {
      assert chunks[1..][1..] == [];
    }
  }

  // ---------------------------------------------------------------------------------------
  // The hooks object

  /** The state the three hooks close over, the log they write, and the two configuration
      values they read (cli.progressBars, tested for truthiness, and cli.progressInterval). */
  class Hooks {
    const progressBars: bool
    const progressInterval: int
    var bar: bool
    var localFilesize: Option<int>
    var bytesUploaded: Option<int>
    var bytesDispatched: int
    var lastRun: Option<int>
    var log: seq<LogLine>

    function State(): Counters
      reads this
    {
      Counters(bar, localFilesize, bytesUploaded, bytesDispatched, lastRun)
    }

    ghost predicate Valid()
      reads this
    {
      Consistent(State())
    }

    constructor (progressBars: bool, progressInterval: int)
      ensures Valid() && State() == Initial && log == []
      ensures this.progressBars == progressBars && this.progressInterval == progressInterval
    {
      this.progressBars := progressBars;
      this.progressInterval := progressInterval;
      bar, localFilesize, bytesUploaded, bytesDispatched, lastRun := false, None, None, 0, None;
      log := [];
    }

    /** onFileUpload(localPath): `size` is what fs.statSync reports for the file and `now`
        the clock. */
    method OnFileUpload(localPath: string, size: nat, now: int)
      requires Valid()
      modifies this
      ensures Valid()
      ensures State() == FileUploadStep(old(State()), progressBars, size, now) && log == old(log)
    {
      if progressBars {
        bytesUploaded := Some(0);
        localFilesize := Some(size);
        lastRun := Some(now);
        bar := true;
      }
    }

    /** onFileProgress(localPath, chunk); `rendered` says whether the bar was redrawn. */
    method OnFileProgress(localPath: string, chunkLength: nat, nowCheck: int, nowRender: int)
      returns (rendered: bool)
      requires Valid()
      modifies this
      ensures Valid()
      ensures Progress(State(), rendered)
           == ProgressStep(old(State()), progressInterval, chunkLength, nowCheck, nowRender)
      ensures log == old(log)
    {
      rendered := false;
      if bar {
        bytesDispatched := bytesDispatched + chunkLength;
        bytesUploaded := Some(bytesUploaded.value + bytesDispatched);
        var timeDiff := nowCheck - lastRun.value;
        if timeDiff >= progressInterval || bytesUploaded.value >= localFilesize.value {
          lastRun := Some(nowRender);
          bytesDispatched := 0;
          rendered := true;
        }
      }
    }

    /** onFileComplete(response, body, retval, data, callback); `barComplete` is the progress
        bar's own `complete` flag. Returning is calling the continuation, which happens on
        every path. */
    method OnFileComplete(response: Option<Response>, body: Value, retval: Outcome, file: FileData,
                          barComplete: bool, stringify: OutcomeData -> string)
      requires Valid()
      modifies this
      ensures Valid()
      ensures State() == CompleteStep(old(State()), barComplete)
      ensures log == old(log) + CompleteLines(response, body, retval, file, stringify)
    {
      if bar && !barComplete {
        bar := false;
        localFilesize := None;
      }
      if response.Some? {
        log := log + [StatusLine(response.value)];
        if !Truthy(body) {
          log := log + [InvalidBodyLine(response.value, body, file)];
          return;
        }
      }
      log := log + [OutcomeLine(retval, file, stringify)];
    }
  }
}
