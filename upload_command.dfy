/** The `upload` command (lib/Commands/UploadCommand.js, run): the last argument is the remote
    destination, the rest are local sources. After the initialization, authorization and
    argument checks, the sources are dispatched one at a time, in order, to the backend's
    directory or file upload; the backend drives the hooks, and the first missing source or
    backend error ends the run. */
module UploadCommand {
  import opened JsValues
  import opened UploadHooks

  /** The command-line options the command reads. */
  datatype CliOptions = CliOptions(force: Value, overwrite: Value)

  /** cli.ignoreFiles, upload.numRetries, upload.duplicates, cli.progressBars and
      cli.progressInterval, as the configuration gives them. */
  datatype Config = Config(ignoreFiles: Value, numRetries: Value, duplicates: Value,
                           progressBars: Value, progressInterval: int)

  /** The options handed to the backend (its hooks are the Hooks object); `overwrite` is None
      when the key is absent. */
  datatype UploadOptions = UploadOptions(force: bool, ignoreFiles: Value, retryAttempt: int,
                                         numRetries: Value, suppressDedupe: Value, overwrite: Option<bool>)

  /** The options object: `force` coerced to a boolean, retries counted from 0, and the
      `overwrite` key present, as true, only when the option is truthy. */
  function BuildOptions(options: CliOptions, config: Config): (o: UploadOptions)
    ensures o.force <==> Truthy(options.force)
    ensures o.retryAttempt == 0
    ensures o.overwrite.Some? <==> Truthy(options.overwrite)
    ensures o.overwrite.Some? ==> o.overwrite.value
    ensures o.ignoreFiles == config.ignoreFiles && o.numRetries == config.numRetries
    ensures o.suppressDedupe == config.duplicates
  {
    var opts := UploadOptions(if Truthy(options.force) then true else false, config.ignoreFiles, 0,
                              config.numRetries, config.duplicates, None);
    if Truthy(options.overwrite) then opts.(overwrite := Some(true)) else opts
  }

  // ---------------------------------------------------------------------------------------
  // What the backend does with one source

  /** A hook invocation by the backend, with the clock readings and file facts it sees. */
  datatype HookEvent =
    | FileUpload(localPath: string, now: int)
    | FileProgress(localPath: string, chunk: Chunk)
    | FileComplete(response: Option<Response>, body: Value, retval: Outcome, file: FileData, barComplete: bool)

  /** A backend upload call: the hooks it invokes, in order, then its callback's error. */
  datatype BackendRun = BackendRun(events: seq<HookEvent>, err: Option<Failure>)

  datatype UploadKind = UploadDirectory | UploadFile

  /** One call of Node.uploadDirectory or Node.uploadFile. */
  datatype Call = Call(kind: UploadKind, localPath: string, remotePath: string)

  /** fs.statSync of a source: it throws, or it succeeds and fs.lstatSync tells whether the
      path itself is a directory. */
  datatype LocalStat = NotFound | Found(isDirectory: bool)

  /** The hooks' counters and the log. */
  datatype HookState = HookState(counters: Counters, log: seq<LogLine>)

  /** What the hooks do with one event. `fileSize` stands for the size fs.statSync reports. */
  function ApplyEvent(st: HookState, e: HookEvent, progressBars: bool, interval: int,
                      fileSize: string -> nat, stringify: OutcomeData -> string): (r: HookState)
    requires Consistent(st.counters)
    ensures Consistent(r.counters)
  {
    match e
    case FileUpload(localPath, now) =>
      HookState(FileUploadStep(st.counters, progressBars, fileSize(localPath), now), st.log)
    case FileProgress(localPath, chunk) =>
      HookState(ProgressStep(st.counters, interval, chunk.length, chunk.nowCheck, chunk.nowRender).counters, st.log)
    case FileComplete(response, body, retval, file, barComplete) =>
      HookState(CompleteStep(st.counters, barComplete), st.log + CompleteLines(response, body, retval, file, stringify))
  }

  /** The hooks applied to a sequence of events, in order. */
  function Replay(st: HookState, events: seq<HookEvent>, progressBars: bool, interval: int,
                  fileSize: string -> nat, stringify: OutcomeData -> string): (r: HookState)
    requires Consistent(st.counters)
    ensures Consistent(r.counters)
    decreases |events|
  {
    if events == [] then st
    else Replay(ApplyEvent(st, events[0], progressBars, interval, fileSize, stringify), events[1..],
                progressBars, interval, fileSize, stringify)
  }

  lemma {:induction false} ReplayAppend(st: HookState, a: seq<HookEvent>, b: seq<HookEvent>, progressBars: bool,
                                        interval: int, fileSize: string -> nat, stringify: OutcomeData -> string)
    requires Consistent(st.counters)
    ensures Replay(st, a + b, progressBars, interval, fileSize, stringify)
         == Replay(Replay(st, a, progressBars, interval, fileSize, stringify), b, progressBars, interval, fileSize, stringify)
    decreases |a|
  {
    if a == [] {
      assert a + b == b;
    } else {
      assert (a + b)[0] == a[0];
      assert (a + b)[1..] == a[1..] + b;
      ReplayAppend(ApplyEvent(st, a[0], progressBars, interval, fileSize, stringify), a[1..], b,
                   progressBars, interval, fileSize, stringify);
    }
  }

  function Completions(events: seq<HookEvent>): nat
  {
    if events == [] then 0 else (if events[0].FileComplete? then 1 else 0) + Completions(events[1..])
  }

  /** The hooks never remove a line and log exactly one info, warn or error line per
      completion, and none for other events. */
  lemma {:induction false} ReplayReportsEachCompletion(st: HookState, events: seq<HookEvent>, progressBars: bool,
                                                       interval: int, fileSize: string -> nat,
                                                       stringify: OutcomeData -> string)
    requires Consistent(st.counters)
    ensures var r := Replay(st, events, progressBars, interval, fileSize, stringify);
            |st.log| <= |r.log| && r.log[..|st.log|] == st.log
            && |Leveled(r.log)| == |Leveled(st.log)| + Completions(events)
    decreases |events|
  {
    if events != [] {
      var next := ApplyEvent(st, events[0], progressBars, interval, fileSize, stringify);
      ApplyEventLog(st, events[0], progressBars, interval, fileSize, stringify);
      ReplayReportsEachCompletion(next, events[1..], progressBars, interval, fileSize, stringify);
      var r := Replay(st, events, progressBars, interval, fileSize, stringify);
      assert r == Replay(next, events[1..], progressBars, interval, fileSize, stringify);
      assert r.log[..|st.log|] == r.log[..|next.log|][..|st.log|];
    }
  }

  /** One hook invocation appends to the log, one classified line for a completion and none
      otherwise. */
  lemma ApplyEventLog(st: HookState, e: HookEvent, progressBars: bool, interval: int,
                      fileSize: string -> nat, stringify: OutcomeData -> string)
    requires Consistent(st.counters)
    ensures var next := ApplyEvent(st, e, progressBars, interval, fileSize, stringify);
            |st.log| <= |next.log| && next.log[..|st.log|] == st.log
            && |Leveled(next.log)| == |Leveled(st.log)| + (if e.FileComplete? then 1 else 0)
  {
    if e.FileComplete? {
      var lines := CompleteLines(e.response, e.body, e.retval, e.file, stringify);
      CompleteReportsOnce(e.response, e.body, e.retval, e.file, stringify);
      LeveledAppend(st.log, lines);
      assert (st.log + lines)[..|st.log|] == st.log;
    }
  }

  // ---------------------------------------------------------------------------------------
  // The dispatch loop

  function NoFileAt(localPath: string): Failure
  {
    Failure("No file exists at '" + localPath + "'")
  }

  /** The upload call made for a source that exists. */
  function CallFor(localPath: string, isDirectory: bool, remotePath: string): (c: Call)
    ensures c.localPath == localPath && c.remotePath == remotePath
    ensures c.kind == UploadDirectory <==> isDirectory
  {
    Call(if isDirectory then UploadDirectory else UploadFile, localPath, remotePath)
  }

  /** The facts a dispatch works with: the remote path, the options, the file system and the
      backend, and what the hooks read. */
  datatype Env = Env(remotePath: string, opts: UploadOptions, stat: string -> LocalStat,
                     backend: (Call, UploadOptions) -> BackendRun, progressBars: bool, interval: int,
                     fileSize: string -> nat, stringify: OutcomeData -> string)

  datatype Dispatched = Dispatched(calls: seq<Call>, state: HookState, failure: Option<Failure>)

  /** The hooks' state once the backend has run `call`. */
  function After(env: Env, call: Call, st: HookState): (r: HookState)
    requires Consistent(st.counters)
    ensures Consistent(r.counters)
  {
    Replay(st, env.backend(call, env.opts).events, env.progressBars, env.interval, env.fileSize, env.stringify)
  }

  /** The forEachSeries over the sources: each is checked when its turn comes; a missing one
      rejects, otherwise it is uploaded, the backend's hooks run, and a backend error
      rejects. */
  function Dispatch(env: Env, sources: seq<string>, st: HookState): (d: Dispatched)
    requires Consistent(st.counters)
    ensures Consistent(d.state.counters)
    decreases |sources|
  {
    if sources == [] then Dispatched([], st, None)
    else
      match env.stat(sources[0])
      case NotFound => Dispatched([], st, Some(NoFileAt(sources[0])))
      case Found(isDirectory) =>
        var call := CallFor(sources[0], isDirectory, env.remotePath);
        var run := env.backend(call, env.opts);
        var after := After(env, call, st);
        if run.err.Some? then Dispatched([call], after, run.err)
        else
          var rest := Dispatch(env, sources[1..], after);
          Dispatched([call] + rest.calls, rest.state, rest.failure)
  }

  function ErrOf(env: Env, call: Call): Option<Failure>
  {
    env.backend(call, env.opts).err
  }

  /** Sources are dispatched strictly in order, each to the upload that its lstat calls for,
      until the first source that does not exist (which is then the error, after the earlier
      ones were uploaded) or the first backend error (which is then the error); with neither,
      every source is uploaded and the run succeeds. */
  lemma DispatchInOrder(env: Env, sources: seq<string>, st: HookState)
    requires Consistent(st.counters)
    ensures var d := Dispatch(env, sources, st);
            |d.calls| <= |sources|
            && (forall i :: 0 <= i < |d.calls| ==>
                  env.stat(sources[i]).Found?
                  && d.calls[i] == CallFor(sources[i], env.stat(sources[i]).isDirectory, env.remotePath))
            && (forall i :: 0 <= i < |d.calls| - 1 ==> ErrOf(env, d.calls[i]).None?)
            && (d.failure.None? <==>
                  |d.calls| == |sources| && (|d.calls| > 0 ==> ErrOf(env, d.calls[|d.calls| - 1]).None?))
            && (d.failure.Some? ==>
                  (|d.calls| < |sources| && env.stat(sources[|d.calls|]).NotFound?
                   && d.failure == Some(NoFileAt(sources[|d.calls|]))
                   && (|d.calls| > 0 ==> ErrOf(env, d.calls[|d.calls| - 1]).None?))
                  || (|d.calls| > 0 && d.failure == ErrOf(env, d.calls[|d.calls| - 1])))
  {
    DispatchCalls(env, sources, st);
    DispatchEarlierSucceeded(env, sources, st);
    assert EarlierSucceeded(env, Dispatch(env, sources, st).calls);
    DispatchSucceeds(env, sources, st);
    DispatchStops(env, sources, st);
  }

  /** The calls made are those of a prefix of the sources, in order. */
  lemma {:induction false} DispatchCalls(env: Env, sources: seq<string>, st: HookState)
    requires Consistent(st.counters)
    ensures var d := Dispatch(env, sources, st);
            |d.calls| <= |sources|
            && forall i :: 0 <= i < |d.calls| ==>
                 env.stat(sources[i]).Found?
                 && d.calls[i] == CallFor(sources[i], env.stat(sources[i]).isDirectory, env.remotePath)
    decreases |sources|
  {
    if sources != [] && env.stat(sources[0]).Found? {
      var call := CallFor(sources[0], env.stat(sources[0]).isDirectory, env.remotePath);
      var run := env.backend(call, env.opts);
      if run.err.None? {
        var after := After(env, call, st);
        DispatchCalls(env, sources[1..], after);
        var rest := Dispatch(env, sources[1..], after);
        var d := Dispatch(env, sources, st);
        assert d.calls == [call] + rest.calls;
        forall i | 0 < i < |d.calls|
          ensures env.stat(sources[i]).Found?
          ensures d.calls[i] == CallFor(sources[i], env.stat(sources[i]).isDirectory, env.remotePath)
        {
          assert d.calls[i] == rest.calls[i - 1];
          assert sources[1..][i - 1] == sources[i];
        }
      }
    }
  }

  /** Every call but the last succeeded. */
  predicate EarlierSucceeded(env: Env, calls: seq<Call>)
  {
    forall i :: 0 <= i < |calls| - 1 ==> ErrOf(env, calls[i]).None?
  }

  lemma {:induction false} DispatchEarlierSucceeded(env: Env, sources: seq<string>, st: HookState)
    requires Consistent(st.counters)
    ensures EarlierSucceeded(env, Dispatch(env, sources, st).calls)
    decreases |sources|
  {
    if sources != [] && env.stat(sources[0]).Found? {
      var call := CallFor(sources[0], env.stat(sources[0]).isDirectory, env.remotePath);
      var run := env.backend(call, env.opts);
      if run.err.None? {
        var after := After(env, call, st);
        DispatchEarlierSucceeded(env, sources[1..], after);
        var rest := Dispatch(env, sources[1..], after);
        var d := Dispatch(env, sources, st);
        assert d.calls == [call] + rest.calls;
        forall i | 0 <= i < |d.calls| - 1 ensures ErrOf(env, d.calls[i]).None? {
          if i > 0 { assert d.calls[i] == rest.calls[i - 1]; } else { assert d.calls[0] == call; }
        }
      }
    }
  }

  /** The dispatch succeeds exactly when every source was uploaded and the last call
      succeeded. */
  lemma {:induction false} DispatchSucceeds(env: Env, sources: seq<string>, st: HookState)
    requires Consistent(st.counters)
    ensures var d := Dispatch(env, sources, st);
            d.failure.None? <==>
              |d.calls| == |sources| && (|d.calls| > 0 ==> ErrOf(env, d.calls[|d.calls| - 1]).None?)
    decreases |sources|
  {
    DispatchCalls(env, sources, st);
    if sources != [] && env.stat(sources[0]).Found? {
      var call := CallFor(sources[0], env.stat(sources[0]).isDirectory, env.remotePath);
      var run := env.backend(call, env.opts);
      if run.err.None? {
        var after := After(env, call, st);
        DispatchSucceeds(env, sources[1..], after);
        var rest := Dispatch(env, sources[1..], after);
        var d := Dispatch(env, sources, st);
        assert d.calls == [call] + rest.calls && d.failure == rest.failure;
        if |rest.calls| > 0 {
          assert d.calls[|d.calls| - 1] == rest.calls[|rest.calls| - 1];
        }
      }
    }
  }

  /** A failed dispatch stops at the first missing source, after the last call succeeded,
      or at the last call's error. */
  lemma {:induction false} DispatchStops(env: Env, sources: seq<string>, st: HookState)
    requires Consistent(st.counters)
    ensures var d := Dispatch(env, sources, st);
            d.failure.Some? ==>
              (|d.calls| < |sources| && env.stat(sources[|d.calls|]).NotFound?
               && d.failure == Some(NoFileAt(sources[|d.calls|]))
               && (|d.calls| > 0 ==> ErrOf(env, d.calls[|d.calls| - 1]).None?))
              || (|d.calls| > 0 && d.failure == ErrOf(env, d.calls[|d.calls| - 1]))
    decreases |sources|
  {
    DispatchCalls(env, sources, st);
    if sources != [] && env.stat(sources[0]).Found? {
      var call := CallFor(sources[0], env.stat(sources[0]).isDirectory, env.remotePath);
      var run := env.backend(call, env.opts);
      if run.err.None? {
        var after := After(env, call, st);
        DispatchStops(env, sources[1..], after);
        DispatchCalls(env, sources[1..], after);
        var rest := Dispatch(env, sources[1..], after);
        var d := Dispatch(env, sources, st);
        assert d.calls == [call] + rest.calls && d.failure == rest.failure;
        if |rest.calls| > 0 {
          assert d.calls[|d.calls| - 1] == rest.calls[|rest.calls| - 1];
        }
        if |rest.calls| < |sources| - 1 {
          assert sources[1..][|rest.calls|] == sources[|d.calls|];
        }
      }
    }
  }

  /** The dispatch from source i on, when source i does not exist. */
  lemma DispatchMissing(env: Env, sources: seq<string>, i: nat, st: HookState)
    requires Consistent(st.counters) && i < |sources| && env.stat(sources[i]).NotFound?
    ensures Dispatch(env, sources[i..], st) == Prepend([], Dispatched([], st, Some(NoFileAt(sources[i]))))
  {
    assert sources[i..][0] == sources[i];
  }

  /** The dispatch from source i on, when source i exists: its call, then the rest unless
      the call failed. */
  lemma DispatchUploaded(env: Env, sources: seq<string>, i: nat, st: HookState, isDirectory: bool)
    requires Consistent(st.counters) && i < |sources| && env.stat(sources[i]) == Found(isDirectory)
    ensures var call := CallFor(sources[i], isDirectory, env.remotePath);
            var run := env.backend(call, env.opts);
            var after := After(env, call, st);
            var rest := Dispatch(env, sources[i + 1..], after);
            Dispatch(env, sources[i..], st)
            == if run.err.Some? then Prepend([call], Dispatched([], after, run.err)) else Prepend([call], rest)
  {
    assert sources[i..][0] == sources[i] && sources[i..][1..] == sources[i + 1..];
  }

  /** The events of the calls made, in call order. */
  function EventsOf(env: Env, calls: seq<Call>): seq<HookEvent>
  {
    if calls == [] then [] else env.backend(calls[0], env.opts).events + EventsOf(env, calls[1..])
  }

  /** The log of a dispatch is what the hooks write for the events of the calls made, in
      order, so it holds one classified line per completion the backend reported. */
  lemma {:induction false} DispatchLogsCompletions(env: Env, sources: seq<string>, st: HookState)
    requires Consistent(st.counters)
    ensures var d := Dispatch(env, sources, st);
            d.state == Replay(st, EventsOf(env, d.calls), env.progressBars, env.interval, env.fileSize, env.stringify)
            && |Leveled(d.state.log)| == |Leveled(st.log)| + Completions(EventsOf(env, d.calls))
    decreases |sources|
  {
    var d := Dispatch(env, sources, st);
    if sources != [] && env.stat(sources[0]).Found? {
      var call := CallFor(sources[0], env.stat(sources[0]).isDirectory, env.remotePath);
      var run := env.backend(call, env.opts);
      var after := After(env, call, st);
      if run.err.None? {
        DispatchLogsCompletions(env, sources[1..], after);
        var rest := Dispatch(env, sources[1..], after);
        assert d.calls == [call] + rest.calls;
        assert ([call] + rest.calls)[1..] == rest.calls;
        ReplayAppend(st, run.events, EventsOf(env, rest.calls), env.progressBars, env.interval, env.fileSize, env.stringify);
      } else {
        assert EventsOf(env, [call]) == run.events + [] && run.events + [] == run.events;
      }
    }
    ReplayReportsEachCompletion(st, EventsOf(env, d.calls), env.progressBars, env.interval, env.fileSize, env.stringify);
  }

  // ---------------------------------------------------------------------------------------
  // The command

  /** What this.initialize reports: an error, or data whose `success` is tested. */
  datatype InitResult = InitFailed(err: Failure) | Initialized(success: Value)

  datatype RunResult = Resolved | Rejected(err: Failure)

  const NotAuthorized := Failure("Account not authorized with Amazon Cloud Drive. Run `init` command first.")

  /** Runs the backend's hook events for one call on the hooks object. */
  method ReplayOn(hooks: Hooks, events: seq<HookEvent>, fileSize: string -> nat, stringify: OutcomeData -> string)
    requires hooks.Valid()
    modifies hooks
    ensures hooks.Valid()
    ensures HookState(hooks.State(), hooks.log)
         == Replay(old(HookState(hooks.State(), hooks.log)), events, hooks.progressBars, hooks.progressInterval,
                   fileSize, stringify)
  {
    var k := 0;
    while k < |events|
      invariant 0 <= k <= |events|
      invariant hooks.Valid()
      invariant Replay(old(HookState(hooks.State(), hooks.log)), events, hooks.progressBars, hooks.progressInterval,
                       fileSize, stringify)
             == Replay(HookState(hooks.State(), hooks.log), events[k..], hooks.progressBars, hooks.progressInterval,
                       fileSize, stringify)
    {
      assert events[k..][0] == events[k] && events[k..][1..] == events[k + 1..];
      match events[k] {
        case FileUpload(localPath, now) =>
          hooks.OnFileUpload(localPath, fileSize(localPath), now);
        case FileProgress(localPath, chunk) =>
          var _ := hooks.OnFileProgress(localPath, chunk.length, chunk.nowCheck, chunk.nowRender);
        case FileComplete(response, body, retval, file, barComplete) =>
          hooks.OnFileComplete(response, body, retval, file, barComplete, stringify);
      }
      k := k + 1;
    }
    assert events[k..] == [];
  }

  /** The forEachSeries over the sources, on the hooks object: each source is checked when
      its turn comes, uploaded through the backend (whose hook invocations run on `hooks`),
      and a missing source or a backend error ends the loop. */
  method DispatchAll(env: Env, sources: seq<string>, hooks: Hooks) returns (calls: seq<Call>, failure: Option<Failure>)
    requires hooks.Valid()
    requires hooks.progressBars == env.progressBars && hooks.progressInterval == env.interval
    modifies hooks
    ensures hooks.Valid()
    ensures var d := Dispatch(env, sources, old(HookState(hooks.State(), hooks.log)));
            calls == d.calls && HookState(hooks.State(), hooks.log) == d.state && failure == d.failure
  {
    calls := [];
    ghost var cur := HookState(hooks.State(), hooks.log);
    ghost var whole := Dispatch(env, sources, cur);
    assert whole == Prepend([], whole);
    var i := 0;
    while i < |sources|
      invariant 0 <= i <= |sources|
      invariant hooks.Valid() && cur == HookState(hooks.State(), hooks.log)
      invariant whole == Prepend(calls, Dispatch(env, sources[i..], cur))
    {
      var localPath := sources[i];
      match env.stat(localPath) {
        case NotFound =>
          DispatchMissing(env, sources, i, cur);
          return calls, Some(NoFileAt(localPath));
        case Found(isDirectory) =>
          DispatchUploaded(env, sources, i, cur, isDirectory);
          var call := CallFor(localPath, isDirectory, env.remotePath);
          var run := env.backend(call, env.opts);
          ReplayOn(hooks, run.events, env.fileSize, env.stringify);
          cur := After(env, call, cur);
          PrependPrepend(calls, [call], Dispatch(env, sources[i + 1..], cur));
          calls := calls + [call];
          if run.err.Some? {
            return calls, run.err;
          }
      }
      i := i + 1;
    }
    assert sources[i..] == [];
    return calls, None;
  }

  /** A dispatch result with `calls` made before it. */
  function Prepend(calls: seq<Call>, d: Dispatched): Dispatched
  {
    Dispatched(calls + d.calls, d.state, d.failure)
  }

  lemma PrependPrepend(a: seq<Call>, b: seq<Call>, d: Dispatched)
    ensures Prepend(a, Prepend(b, d)) == Prepend(a + b, d)
  {
    assert a + (b + d.calls) == (a + b) + d.calls;
  }

  /** `run(args, options)`: the destination is popped from the arguments; an initialization
      error, a missing authorization and an empty source list reject in that order, before
      anything is uploaded. Then the sources are dispatched in order. `stat`, `fileSize`,
      `backend` and `stringify` stand for the file system, Node.uploadDirectory and
      Node.uploadFile, and JSON.stringify. */
  method Run(args: seq<string>, init: InitResult, options: CliOptions, config: Config,
             stat: string -> LocalStat, fileSize: string -> nat,
             backend: (Call, UploadOptions) -> BackendRun, stringify: OutcomeData -> string)
    returns (calls: seq<Call>, log: seq<LogLine>, result: RunResult)
    ensures init.InitFailed? ==> result == Rejected(init.err) && calls == [] && log == []
    ensures init.Initialized? && !Truthy(init.success) ==> result == Rejected(NotAuthorized) && calls == [] && log == []
    ensures init.Initialized? && Truthy(init.success) && |args| <= 1 ==>
              result == Rejected(NoDestination) && calls == [] && log == []
    ensures init.Initialized? && Truthy(init.success) && |args| > 1 ==>
              var env := Env(args[|args| - 1], BuildOptions(options, config), stat, backend,
                             Truthy(config.progressBars), config.progressInterval, fileSize, stringify);
              var d := Dispatch(env, args[..|args| - 1], HookState(Initial, []));
              calls == d.calls && log == d.state.log
              && result == (if d.failure.Some? then Rejected(d.failure.value) else Resolved)
  {
    calls, log := [], [];
    if init.InitFailed? {
      return calls, log, Rejected(init.err);
    }
    if !Truthy(init.success) {
      return calls, log, Rejected(NotAuthorized);
    }
    if |args| <= 1 {
      return calls, log, Rejected(NoDestination);
    }
    var hooks := new Hooks(Truthy(config.progressBars), config.progressInterval);
    var env := Env(args[|args| - 1], BuildOptions(options, config), stat, backend,
                   hooks.progressBars, hooks.progressInterval, fileSize, stringify);
    var failure;
    calls, failure := DispatchAll(env, args[..|args| - 1], hooks);
    log := hooks.log;
    result := if failure.Some? then Rejected(failure.value) else Resolved;
  }
}
