/** The `exists` command (lib/Commands/ExistsCommand.js): for every source argument it
    derives a remote root, walks the local directory depth first in listing order, asks the
    backend about every file it meets and logs one classified line per file. A backend miss
    is logged and the walk goes on; a failed directory listing or stat ends the whole run. */
module ExistsCommand {
  import opened JsValues
  import opened JsString

  /** `result.data` of Node.exists. */
  datatype ExistsData = ExistsData(pathMatch: bool, md5Match: bool, nodes: seq<string>)

  /** The reply of Node.exists for a (remote path, local path) pair. */
  datatype ExistsReply = ExistsReply(success: bool, data: ExistsData)

  /** How one local file relates to the remote store. */
  datatype Verdict = Missing | Identical | Mismatch | Relocated(nodes: seq<string>)

  /** The four-way decision on a backend reply. */
  function Classify(reply: ExistsReply): (v: Verdict)
    ensures v.Missing? <==> !reply.success
    ensures v.Identical? <==> reply.success && reply.data.pathMatch && reply.data.md5Match
    ensures v.Mismatch? <==> reply.success && reply.data.pathMatch && !reply.data.md5Match
    ensures v.Relocated? <==> reply.success && !reply.data.pathMatch
    ensures v.Relocated? ==> v.nodes == reply.data.nodes
  {
    if !reply.success then Missing
    else if reply.data.pathMatch && reply.data.md5Match then Identical
    else if reply.data.pathMatch then Mismatch
    else Relocated(reply.data.nodes)
  }

  /** The line logged for a file whose remote path is `remoteFile`. */
  function ReportLine(remoteFile: string, v: Verdict): (l: LogLine)
    ensures l.level == Error <==> v.Missing?
    ensures l.level == Info <==> v.Identical?
    ensures l.level == Warn <==> v.Mismatch? || v.Relocated?
    ensures |l.message| > |"File " + remoteFile + " "|
    ensures l.message[..|"File " + remoteFile + " "|] == "File " + remoteFile + " "
    ensures v.Relocated? ==>
              |Join(v.nodes, ", ")| <= |l.message|
              && l.message[|l.message| - |Join(v.nodes, ", ")|..] == Join(v.nodes, ", ")
  {
    var head := "File " + remoteFile + " ";
    match v
    case Missing => LogLine(Error, head + "does not exist")
    case Identical => LogLine(Info, head + "exists and is identical to local copy")
    case Mismatch => LogLine(Warn, head + "exists but does not match local copy")
    case Relocated(nodes) =>
      LogLine(Warn, head + "exists at the following location: " + Join(nodes, ", "))
  }

  /** A logged line names its file and determines which of the four verdicts it reports. */
  lemma ReportLineDistinguishes(remoteFile: string, v1: Verdict, v2: Verdict)
    requires ReportLine(remoteFile, v1) == ReportLine(remoteFile, v2)
    ensures v1.Missing? == v2.Missing? && v1.Identical? == v2.Identical?
    ensures v1.Mismatch? == v2.Mismatch? && v1.Relocated? == v2.Relocated?
  {
    if v1.Relocated? {
      WarningsDiffer(remoteFile, v1.nodes);
    }
    if v2.Relocated? {
      WarningsDiffer(remoteFile, v2.nodes);
    }
  }

  /** The two warnings part after "File <path> exists ". */
  lemma WarningsDiffer(remoteFile: string, nodes: seq<string>)
    ensures var k := |"File " + remoteFile + " "| + 7;
            |ReportLine(remoteFile, Mismatch).message| > k
            && |ReportLine(remoteFile, Relocated(nodes)).message| > k
            && ReportLine(remoteFile, Mismatch).message[k] == 'b'
            && ReportLine(remoteFile, Relocated(nodes)).message[k] == 'a'
  {
  }

  // ---------------------------------------------------------------------------------------
  // The local file system, as an ordered tree

  /** What fs.readdir gives for a directory: an error, or the entry names in listing order
      together with what fs.stat says of each. */
  datatype Listing = ListFailed(err: Failure) | Listed(entries: seq<Entry>)

  datatype Entry = Entry(name: string, stat: Stat)

  /** The fs.stat of one entry. */
  datatype Stat = StatFailed(err: Failure) | Directory(contents: Listing) | NotDirectory

  /** What the walk records for one file: its local path, its remote path and the verdict. */
  datatype FileReport = FileReport(itemPath: string, remoteFile: string, verdict: Verdict)

  /** The outcome of a walk: the reports made, and the error that stopped it, if any. */
  datatype Walk = Walk(reports: seq<FileReport>, failure: Option<Failure>)

  /** The remote path of `itemPath`: the first occurrence of the local root replaced by the
      remote root. For a path below the local root and a remote root without `$`, that is the
      remote root followed by the rest of the path. */
  function RemoteFile(localPath: string, remoteFolder: string, itemPath: string): (r: string)
    ensures |localPath| <= |itemPath| && itemPath[..|localPath|] == localPath && NoDollar(remoteFolder) ==>
              r == remoteFolder + itemPath[|localPath|..]
  {
    if |localPath| <= |itemPath| && itemPath[..|localPath|] == localPath && NoDollar(remoteFolder) then
      assert itemPath == localPath + itemPath[|localPath|..];
      ReplacePrefixLiteral(localPath, itemPath[|localPath|..], remoteFolder);
      Replace(itemPath, localPath, remoteFolder)
    else Replace(itemPath, localPath, remoteFolder)
  }

  /** Asks the backend about one file and classifies the reply. */
  function CompareFile(localPath: string, remoteFolder: string,
                       backend: (string, string) -> ExistsReply, itemPath: string): (r: FileReport)
    ensures r.itemPath == itemPath
    ensures r.remoteFile == RemoteFile(localPath, remoteFolder, itemPath)
    ensures r.verdict == Classify(backend(r.remoteFile, r.itemPath))
  {
    var remoteFile := RemoteFile(localPath, remoteFolder, itemPath);
    FileReport(itemPath, remoteFile, Classify(backend(remoteFile, itemPath)))
  }

  /** The remote path keeps a file's path below the local root and puts the remote root in
      front of it; the remote root is inserted literally when it holds no `$`. */
  lemma RemotePathMirrors(localPath: string, remoteFolder: string, itemPath: string)
    requires |localPath| <= |itemPath| && itemPath[..|localPath|] == localPath
    ensures RemoteFile(localPath, remoteFolder, itemPath)
         == Substitution(remoteFolder, localPath, "", itemPath[|localPath|..]) + itemPath[|localPath|..]
    ensures NoDollar(remoteFolder) ==>
              RemoteFile(localPath, remoteFolder, itemPath) == remoteFolder + itemPath[|localPath|..]
  {
    var rest := itemPath[|localPath|..];
    assert itemPath == localPath + rest;
    ReplacePrefix(localPath, rest, remoteFolder);
    if NoDollar(remoteFolder) {
      ReplacePrefixLiteral(localPath, rest, remoteFolder);
    }
  }

  /** A report is the backend's classified answer for the report's own remote and local
      paths (in that order, as Node.exists takes them). */
  predicate Classified(backend: (string, string) -> ExistsReply, report: FileReport)
  {
    report.verdict == Classify(backend(report.remoteFile, report.itemPath))
  }

  /** Every report of a walk from `localPath` is classified and has the remote path the walk
      derives for it. */
  predicate Compared(localPath: string, remoteFolder: string, backend: (string, string) -> ExistsReply,
                     reports: seq<FileReport>)
  {
    forall i :: 0 <= i < |reports| ==>
      Classified(backend, reports[i])
      && reports[i].remoteFile == RemoteFile(localPath, remoteFolder, reports[i].itemPath)
  }

  /** The forEachSeries over one directory's entries (iterateDirectory's inner loop): an
      entry whose stat fails stops the walk, a directory is walked before the next entry,
      any other entry is compared. */
  function WalkEntries(localPath: string, remoteFolder: string,
                       backend: (string, string) -> ExistsReply,
                       directory: string, entries: seq<Entry>): (w: Walk)
    decreases entries
  {
    if entries == [] then Walk([], None)
    else
      var itemPath := directory + "/" + entries[0].name;
      var first :=
        match entries[0].stat
        case StatFailed(e) => Walk([], Some(e))
        case Directory(ListFailed(e)) => Walk([], Some(e))
        case Directory(Listed(children)) =>
          WalkEntries(localPath, remoteFolder, backend, itemPath, children)
        case NotDirectory => Walk([CompareFile(localPath, remoteFolder, backend, itemPath)], None);
      if first.failure.Some? then first
      else
        var rest := WalkEntries(localPath, remoteFolder, backend, directory, entries[1..]);
        Walk(first.reports + rest.reports, rest.failure)
  }

  /** Every report of a directory's walk is the backend's classified answer for that file. */
  lemma {:induction false} WalkCompares(localPath: string, remoteFolder: string,
                                        backend: (string, string) -> ExistsReply,
                                        directory: string, entries: seq<Entry>)
    ensures Compared(localPath, remoteFolder, backend, WalkEntries(localPath, remoteFolder, backend, directory, entries).reports)
    decreases entries
  {
    if entries != [] {
      var itemPath := directory + "/" + entries[0].name;
      WalkCompares(localPath, remoteFolder, backend, directory, entries[1..]);
      if entries[0].stat.Directory? && entries[0].stat.contents.Listed? {
        WalkCompares(localPath, remoteFolder, backend, itemPath, entries[0].stat.contents.entries);
      }
    }
  }

  /** iterateDirectory applied to a source's resolved root. */
  function WalkRoot(localPath: string, remoteFolder: string,
                    backend: (string, string) -> ExistsReply, listing: Listing): (w: Walk)
    ensures Compared(localPath, remoteFolder, backend, w.reports)
  {
    match listing
    case ListFailed(e) => Walk([], Some(e))
    case Listed(entries) =>
      WalkCompares(localPath, remoteFolder, backend, localPath, entries);
      WalkEntries(localPath, remoteFolder, backend, localPath, entries)
  }

  /** An empty directory completes without a report. */
  lemma EmptyDirectory(localPath: string, remoteFolder: string,
                       backend: (string, string) -> ExistsReply)
    ensures WalkRoot(localPath, remoteFolder, backend, Listed([])) == Walk([], None)
  {
  }

  // ---------------------------------------------------------------------------------------
  // Reference definition: the pre-order sequence of what the walk meets

  /** One step of a pre-order traversal: a file to compare, or a local error. */
  datatype Visit = FileAt(localPath: string, remoteFolder: string, itemPath: string) | Fails(err: Failure)

  /** Everything below `directory` in pre-order and listing order, failures included,
      without regard to whether a failure would stop a walk. */
  function Flatten(localPath: string, remoteFolder: string, directory: string, entries: seq<Entry>): seq<Visit>
    decreases entries
  {
    if entries == [] then []
    else
      var itemPath := directory + "/" + entries[0].name;
      var first :=
        match entries[0].stat
        case StatFailed(e) => [Fails(e)]
        case Directory(ListFailed(e)) => [Fails(e)]
        case Directory(Listed(children)) => Flatten(localPath, remoteFolder, itemPath, children)
        case NotDirectory => [FileAt(localPath, remoteFolder, itemPath)];
      first + Flatten(localPath, remoteFolder, directory, entries[1..])
  }

  function FlattenRoot(localPath: string, remoteFolder: string, listing: Listing): seq<Visit>
  {
    match listing
    case ListFailed(e) => [Fails(e)]
    case Listed(entries) => Flatten(localPath, remoteFolder, localPath, entries)
  }

  /** The files before the first failure of a visit sequence, and that failure. */
  datatype Prefix = Prefix(files: seq<Visit>, failure: Option<Failure>)

  function UpToFailure(vs: seq<Visit>): (p: Prefix)
    ensures forall i :: 0 <= i < |p.files| ==> p.files[i].FileAt?
    ensures p.failure.None? ==> p.files == vs
    ensures p.failure.Some? ==>
              |p.files| < |vs| && vs[..|p.files|] == p.files && vs[|p.files|] == Fails(p.failure.value)
  {
    if vs == [] then Prefix([], None)
    else if vs[0].Fails? then Prefix([], Some(vs[0].err))
    else
      var rest := UpToFailure(vs[1..]);
      Prefix([vs[0]] + rest.files, rest.failure)
  }

  lemma {:induction false} UpToFailureAppend(a: seq<Visit>, b: seq<Visit>)
    ensures UpToFailure(a + b)
         == if UpToFailure(a).failure.Some? then UpToFailure(a)
            else Prefix(UpToFailure(a).files + UpToFailure(b).files, UpToFailure(b).failure)
    decreases |a|
  {
    if a == [] {
      assert a + b == b;
    } else {
      assert (a + b)[0] == a[0];
      assert (a + b)[1..] == a[1..] + b;
      if a[0].FileAt? {
        UpToFailureAppend(a[1..], b);
      }
    }
  }

  /** The report made for a visited file. */
  function ReportOf(backend: (string, string) -> ExistsReply, v: Visit): FileReport
    requires v.FileAt?
  {
    CompareFile(v.localPath, v.remoteFolder, backend, v.itemPath)
  }

  /** The report made for each file of a failure-free visit sequence. */
  function Reports(backend: (string, string) -> ExistsReply, files: seq<Visit>): (r: seq<FileReport>)
    requires forall i :: 0 <= i < |files| ==> files[i].FileAt?
    ensures |r| == |files|
  {
    if files == [] then []
    else [ReportOf(backend, files[0])] + Reports(backend, files[1..])
  }

  lemma {:induction false} ReportsAppend(backend: (string, string) -> ExistsReply, a: seq<Visit>, b: seq<Visit>)
    requires forall i :: 0 <= i < |a| ==> a[i].FileAt?
    requires forall i :: 0 <= i < |b| ==> b[i].FileAt?
    ensures Reports(backend, a + b) == Reports(backend, a) + Reports(backend, b)
    decreases |a|
  {
    if a == [] {
      assert a + b == b;
    } else {
      assert (a + b)[0] == a[0];
      assert (a + b)[1..] == a[1..] + b;
      ReportsAppend(backend, a[1..], b);
    }
  }

  /** The report of each visited file, in order, and the error that stopped the visits. */
  function Expected(backend: (string, string) -> ExistsReply, vs: seq<Visit>): Walk
  {
    var p := UpToFailure(vs);
    Walk(Reports(backend, p.files), p.failure)
  }

  lemma ExpectedAppend(backend: (string, string) -> ExistsReply, a: seq<Visit>, b: seq<Visit>)
    ensures Expected(backend, a + b)
         == if Expected(backend, a).failure.Some? then Expected(backend, a)
            else Walk(Expected(backend, a).reports + Expected(backend, b).reports,
                      Expected(backend, b).failure)
  {
    UpToFailureAppend(a, b);
    if UpToFailure(a).failure.None? {
      ReportsAppend(backend, UpToFailure(a).files, UpToFailure(b).files);
    }
  }

  /** The walk reports exactly the pre-order, listing-order files up to the first local
      error, and fails with that error: directories make no report of their own, a backend
      miss does not stop the walk, and no entry after a failed listing or stat is visited. */
  lemma {:induction false} WalkIsPreOrder(localPath: string, remoteFolder: string,
                                          backend: (string, string) -> ExistsReply,
                                          directory: string, entries: seq<Entry>)
    ensures WalkEntries(localPath, remoteFolder, backend, directory, entries)
         == Expected(backend, Flatten(localPath, remoteFolder, directory, entries))
    decreases entries
  {
    if entries != [] {
      var itemPath := directory + "/" + entries[0].name;
      var f := Flatten(localPath, remoteFolder, directory, entries);
      var tail := Flatten(localPath, remoteFolder, directory, entries[1..]);
      WalkIsPreOrder(localPath, remoteFolder, backend, directory, entries[1..]);
      match entries[0].stat {
        case StatFailed(e) =>
          ExpectedAppend(backend, [Fails(e)], tail);
        case Directory(ListFailed(e)) =>
          ExpectedAppend(backend, [Fails(e)], tail);
        case Directory(Listed(children)) =>
          WalkIsPreOrder(localPath, remoteFolder, backend, itemPath, children);
          ExpectedAppend(backend, Flatten(localPath, remoteFolder, itemPath, children), tail);
        case NotDirectory =>
          ExpectedAppend(backend, [FileAt(localPath, remoteFolder, itemPath)], tail);
      }
    }
  }

  lemma WalkRootIsPreOrder(localPath: string, remoteFolder: string,
                           backend: (string, string) -> ExistsReply, listing: Listing)
    ensures WalkRoot(localPath, remoteFolder, backend, listing)
         == Expected(backend, FlattenRoot(localPath, remoteFolder, listing))
  {
    if listing.Listed? {
      WalkIsPreOrder(localPath, remoteFolder, backend, localPath, listing.entries);
    }
  }

  /** A backend miss is not fatal: what the backend answers never changes which files are
      compared, in which order, or how the walk ends; it only changes the verdicts. */
  lemma BackendMissNonFatal(localPath: string, remoteFolder: string,
                            backend1: (string, string) -> ExistsReply, backend2: (string, string) -> ExistsReply,
                            listing: Listing)
    ensures var w1 := WalkRoot(localPath, remoteFolder, backend1, listing);
            var w2 := WalkRoot(localPath, remoteFolder, backend2, listing);
            w1.failure == w2.failure && |w1.reports| == |w2.reports|
            && forall i :: 0 <= i < |w1.reports| ==>
                 w1.reports[i].itemPath == w2.reports[i].itemPath
                 && w1.reports[i].remoteFile == w2.reports[i].remoteFile
  {
    WalkRootIsPreOrder(localPath, remoteFolder, backend1, listing);
    WalkRootIsPreOrder(localPath, remoteFolder, backend2, listing);
    var files := UpToFailure(FlattenRoot(localPath, remoteFolder, listing)).files;
    ReportsOfFiles(backend1, files);
    ReportsOfFiles(backend2, files);
  }

  predicate Below(path: string, directory: string)
  {
    |directory| + 1 <= |path| && path[..|directory| + 1] == directory + "/"
  }

  /** Every file met below `directory` has a path that starts with `directory + "/"`, and
      carries the walk's local and remote roots. */
  lemma {:induction false} FlattenBelow(localPath: string, remoteFolder: string, directory: string, entries: seq<Entry>)
    ensures forall v :: v in Flatten(localPath, remoteFolder, directory, entries) && v.FileAt? ==>
              Below(v.itemPath, directory) && v.localPath == localPath && v.remoteFolder == remoteFolder
    decreases entries
  {
    if entries != [] {
      var itemPath := directory + "/" + entries[0].name;
      FlattenBelow(localPath, remoteFolder, directory, entries[1..]);
      if entries[0].stat.Directory? && entries[0].stat.contents.Listed? {
        var children := entries[0].stat.contents.entries;
        FlattenBelow(localPath, remoteFolder, itemPath, children);
        forall v | v in Flatten(localPath, remoteFolder, itemPath, children) && v.FileAt?
          ensures Below(v.itemPath, directory)
        {
          assert v.itemPath[..|directory| + 1] == v.itemPath[..|itemPath| + 1][..|directory| + 1];
        }
      }
    }
  }

  /** Every report of a source's walk is for a file below the source's root, and its remote
      path is the remote root followed by the file's path below the local root. */
  lemma RootReportsMirror(localPath: string, remoteFolder: string,
                          backend: (string, string) -> ExistsReply, listing: Listing)
    requires NoDollar(remoteFolder)
    ensures var w := WalkRoot(localPath, remoteFolder, backend, listing);
            forall i :: 0 <= i < |w.reports| ==>
              Below(w.reports[i].itemPath, localPath)
              && w.reports[i].remoteFile == remoteFolder + w.reports[i].itemPath[|localPath|..]
  {
    WalkRootIsPreOrder(localPath, remoteFolder, backend, listing);
    var vs := FlattenRoot(localPath, remoteFolder, listing);
    if listing.Listed? {
      FlattenBelow(localPath, remoteFolder, localPath, listing.entries);
    }
    var files := UpToFailure(vs).files;
    UpToFailureFilesIn(vs);
    ReportsOfFiles(backend, files);
    forall i | 0 <= i < |files|
      ensures Below(Reports(backend, files)[i].itemPath, localPath)
      ensures Reports(backend, files)[i].remoteFile
              == remoteFolder + Reports(backend, files)[i].itemPath[|localPath|..]
    {
      var f := files[i];
      assert f in vs;
      assert f.itemPath[..|localPath|] == f.itemPath[..|localPath| + 1][..|localPath|];
      RemotePathMirrors(localPath, remoteFolder, f.itemPath);
    }
  }

  lemma {:induction false} UpToFailureFilesIn(vs: seq<Visit>)
    ensures forall v :: v in UpToFailure(vs).files ==> v in vs
    decreases |vs|
  {
    if vs != [] && vs[0].FileAt? {
      UpToFailureFilesIn(vs[1..]);
    }
  }

  lemma {:induction false} ReportsOfFiles(backend: (string, string) -> ExistsReply, files: seq<Visit>)
    requires forall i :: 0 <= i < |files| ==> files[i].FileAt?
    ensures forall i :: 0 <= i < |files| ==>
              Reports(backend, files)[i]
              == CompareFile(files[i].localPath, files[i].remoteFolder, backend, files[i].itemPath)
    decreases |files|
  {
    if files != [] {
      ReportsOfFiles(backend, files[1..]);
    }
  }

  // ---------------------------------------------------------------------------------------
  // The walk as the command runs it

  /** Appends `w` to a failure-free walk prefix. */
  function Then(done: seq<FileReport>, w: Walk): Walk
  {
    Walk(done + w.reports, w.failure)
  }

  lemma ThenThen(a: seq<FileReport>, b: seq<FileReport>, w: Walk)
    ensures Then(a, Then(b, w)) == Then(a + b, w)
  {
    assert a + (b + w.reports) == (a + b) + w.reports;
  }

  /** iterateDirectory: the forEachSeries over a directory's entries, descending into each
      subdirectory when it is met and stopping at the first local error. */
  method WalkDirectory(localPath: string, remoteFolder: string,
                       backend: (string, string) -> ExistsReply,
                       directory: string, entries: seq<Entry>) returns (w: Walk)
    ensures w == WalkEntries(localPath, remoteFolder, backend, directory, entries)
    decreases entries
  {
    var reports: seq<FileReport> := [];
    var k := 0;
    while k < |entries|
      invariant 0 <= k <= |entries|
      invariant Then(reports, WalkEntries(localPath, remoteFolder, backend, directory, entries[k..]))
             == WalkEntries(localPath, remoteFolder, backend, directory, entries)
    {
      assert entries[k..][0] == entries[k];
      assert entries[k..][1..] == entries[k + 1..];
      var itemPath := directory + "/" + entries[k].name;
      var first: Walk;
      match entries[k].stat {
        case StatFailed(e) =>
          first := Walk([], Some(e));
        case Directory(ListFailed(e)) =>
          first := Walk([], Some(e));
        case Directory(Listed(children)) =>
          first := WalkDirectory(localPath, remoteFolder, backend, itemPath, children);
        case NotDirectory =>
          first := Walk([CompareFile(localPath, remoteFolder, backend, itemPath)], None);
      }
      if first.failure.Some? {
        return Then(reports, first);
      }
      reports := reports + first.reports;
      k := k + 1;
    }
    assert entries[k..] == [];
    return Walk(reports, None);
  }

  /** iterateDirectory(localPath): the source's root is listed first. */
  method WalkSource(localPath: string, remoteFolder: string,
                    backend: (string, string) -> ExistsReply, listing: Listing) returns (w: Walk)
    ensures w == WalkRoot(localPath, remoteFolder, backend, listing)
  {
    match listing {
      case ListFailed(e) => w := Walk([], Some(e));
      case Listed(entries) => w := WalkDirectory(localPath, remoteFolder, backend, localPath, entries);
    }
  }

  /** The lines logged for a sequence of reports, one per report. */
  function Lines(reports: seq<FileReport>): (log: seq<LogLine>)
    ensures |log| == |reports|
  {
    if reports == [] then []
    else [ReportLine(reports[0].remoteFile, reports[0].verdict)] + Lines(reports[1..])
  }

  lemma {:induction false} LinesAppend(a: seq<FileReport>, b: seq<FileReport>)
    ensures Lines(a + b) == Lines(a) + Lines(b)
    decreases |a|
  {
    if a == [] {
      assert a + b == b;
    } else {
      assert (a + b)[0] == a[0];
      assert (a + b)[1..] == a[1..] + b;
      LinesAppend(a[1..], b);
    }
  }

  /** Every report gets exactly one line, at the level of its verdict. */
  lemma {:induction false} LinesMatchReports(reports: seq<FileReport>)
    ensures |Lines(reports)| == |reports|
    ensures forall i :: 0 <= i < |reports| ==>
              Lines(reports)[i] == ReportLine(reports[i].remoteFile, reports[i].verdict)
    decreases |reports|
  {
    if reports != [] {
      LinesMatchReports(reports[1..]);
    }
  }

  // ---------------------------------------------------------------------------------------
  // Remote roots across the source arguments

  /** The base name of a path: the last segment getPathArray gives, or the empty string that
      join makes of the undefined pop() returns for an empty array. */
  function BaseName(getPathArray: string -> seq<string>, path: string): string
  {
    var segments := getPathArray(path);
    if segments == [] then "" else segments[|segments| - 1]
  }

  /** The reassignment of remoteFolder for the next source (the previous remoteFolder's
      segments, then the source's base name, joined with "/"). */
  function NextRoot(getPathArray: string -> seq<string>, remoteFolder: string, localPath: string): (root: string)
    ensures SplitsJoins(getPathArray) && Segments(getPathArray(remoteFolder))
            && Segment(BaseName(getPathArray, localPath)) ==>
              getPathArray(root) == getPathArray(remoteFolder) + [BaseName(getPathArray, localPath)]
  {
    JoinSplits(getPathArray, getPathArray(remoteFolder), BaseName(getPathArray, localPath));
    Join(getPathArray(remoteFolder) + [BaseName(getPathArray, localPath)], "/")
  }

  /** Splitting a join of segments and one more segment gives them back. */
  lemma JoinSplits(getPathArray: string -> seq<string>, segments: seq<string>, last: string)
    ensures SplitsJoins(getPathArray) && Segments(segments) && Segment(last) ==>
              getPathArray(Join(segments + [last], "/")) == segments + [last]
  {
    if SplitsJoins(getPathArray) && Segments(segments) && Segment(last) {
      ConcatSegments(segments, [last]);
      SplitJoin(getPathArray, segments + [last]);
    }
  }

  /** The remote root each source is walked with, when the first starts from `remoteFolder`. */
  function RemoteRoots(getPathArray: string -> seq<string>, remoteFolder: string, locals: seq<string>): (roots: seq<string>)
    ensures |roots| == |locals|
    ensures |locals| > 0 ==> roots[0] == NextRoot(getPathArray, remoteFolder, locals[0])
    decreases |locals|
  {
    if locals == [] then []
    else
      var root := NextRoot(getPathArray, remoteFolder, locals[0]);
      [root] + RemoteRoots(getPathArray, root, locals[1..])
  }

  /** Each root after the first is derived from the root before it, not from the
      destination. */
  lemma {:induction false} RemoteRootsStep(getPathArray: string -> seq<string>, remoteFolder: string,
                                           locals: seq<string>, j: nat)
    requires j + 1 < |locals|
    ensures RemoteRoots(getPathArray, remoteFolder, locals)[j + 1]
         == NextRoot(getPathArray, RemoteRoots(getPathArray, remoteFolder, locals)[j], locals[j + 1])
    decreases j
  {
    var root := NextRoot(getPathArray, remoteFolder, locals[0]);
    if j > 0 {
      RemoteRootsStep(getPathArray, root, locals[1..], j - 1);
    }
  }

  /** A path segment: not empty and without "/". */
  predicate Segment(s: string)
  {
    s != "" && forall c :: 0 <= c < |s| ==> s[c] != '/'
  }

  predicate Segments(segments: seq<string>)
  {
    forall k :: 0 <= k < |segments| ==> Segment(segments[k])
  }

  /** A splitter that takes a "/"-join of segments back to those segments. */
  ghost predicate SplitsJoins(getPathArray: string -> seq<string>)
  {
    forall segments :: Segments(segments) ==> getPathArray(Join(segments, "/")) == segments
  }

  /** The position of the last "/" in a path, if any. */
  function LastSlash(s: string): (r: Option<nat>)
    ensures r.Some? ==> r.value < |s| && s[r.value] == '/'
                        && forall k :: r.value < k < |s| ==> s[k] != '/'
    ensures r.None? ==> forall k :: 0 <= k < |s| ==> s[k] != '/'
    decreases |s|
  {
    if |s| == 0 then None
    else if s[|s| - 1] == '/' then Some(|s| - 1)
    else LastSlash(s[..|s| - 1])
  }

  /** A reference splitter: the pieces of a path between "/"s, with empty pieces dropped. */
  function SplitPath(s: string): (segments: seq<string>)
    ensures Segments(segments)
    decreases |s|
  {
    match LastSlash(s)
    case None => if s == "" then [] else [s]
    case Some(i) =>
      var last := if i + 1 == |s| then [] else [s[i + 1..]];
      ConcatSegments(SplitPath(s[..i]), last);
      SplitPath(s[..i]) + last
  }

  /** The last "/" of a path that ends with "/" and a slash-free tail is the one before the
      tail. */
  lemma {:induction false} LastSlashIs(prefix: string, tail: string)
    requires forall c :: 0 <= c < |tail| ==> tail[c] != '/'
    ensures LastSlash(prefix + "/" + tail) == Some(|prefix|)
    decreases |tail|
  {
    var s := prefix + "/" + tail;
    if tail != "" {
      var shorter := tail[..|tail| - 1];
      assert s[|s| - 1] == tail[|tail| - 1];
      assert s[..|s| - 1] == prefix + "/" + shorter;
      LastSlashIs(prefix, shorter);
    }
  }

  /** Splitting a "/"-join of segments gives the segments back. */
  lemma {:induction false} SplitPathJoin(segments: seq<string>)
    requires Segments(segments)
    ensures SplitPath(Join(segments, "/")) == segments
    decreases |segments|
  {
    if |segments| == 1 {
      assert Segment(segments[0]);
    } else if |segments| > 1 {
      var init := segments[..|segments| - 1];
      var last := segments[|segments| - 1];
      var s := Join(segments, "/");
      assert Segment(last);
      assert Segments(init) by {
        forall k | 0 <= k < |init| ensures Segment(init[k]) {
          assert init[k] == segments[k];
        }
      }
      LastSlashIs(Join(init, "/"), last);
      assert s[..|Join(init, "/")|] == Join(init, "/");
      assert s[|Join(init, "/")| + 1..] == last;
      SplitPathJoin(init);
      assert segments == init + [last];
    }
  }

  /** The reference splitter inverts join, so the hypothesis of `RootsAccumulate` can be met. */
  lemma SplitPathSplitsJoins()
    ensures SplitsJoins(SplitPath)
  {
    forall segments | Segments(segments) ensures SplitPath(Join(segments, "/")) == segments {
      SplitPathJoin(segments);
    }
  }

  function BaseNames(getPathArray: string -> seq<string>, locals: seq<string>): (r: seq<string>)
    ensures |r| == |locals|
    ensures forall k :: 0 <= k < |locals| ==> r[k] == BaseName(getPathArray, locals[k])
  {
    if locals == [] then [] else [BaseName(getPathArray, locals[0])] + BaseNames(getPathArray, locals[1..])
  }

  /** Roots accumulate: with a splitter that inverts join, the root of source j is the
      destination's segments followed by the base names of sources 0 to j. */
  lemma {:induction false} RootsAccumulate(getPathArray: string -> seq<string>, remoteFolder: string,
                                           locals: seq<string>, j: nat)
    requires SplitsJoins(getPathArray)
    requires Segments(getPathArray(remoteFolder))
    requires Segments(BaseNames(getPathArray, locals))
    requires j < |locals|
    ensures RemoteRoots(getPathArray, remoteFolder, locals)[j]
         == Join(getPathArray(remoteFolder) + BaseNames(getPathArray, locals[..j + 1]), "/")
    decreases j
  {
    var roots := RemoteRoots(getPathArray, remoteFolder, locals);
    var segments := getPathArray(remoteFolder);
    var base := BaseName(getPathArray, locals[j]);
    var earlier := segments + BaseNames(getPathArray, locals[..j]);
    BaseNamesSnoc(getPathArray, locals, j);
    assert (segments + BaseNames(getPathArray, locals[..j])) + [base]
        == segments + (BaseNames(getPathArray, locals[..j]) + [base]);
    assert segments + BaseNames(getPathArray, locals[..j + 1]) == earlier + [base];
    if j == 0 {
      assert locals[..0] == [];
      assert earlier == segments;
    } else {
      RootsAccumulate(getPathArray, remoteFolder, locals, j - 1);
      RemoteRootsStep(getPathArray, remoteFolder, locals, j - 1);
      BaseNamesPrefix(getPathArray, locals, j);
      PrefixSegments(segments, BaseNames(getPathArray, locals), j);
      SplitJoin(getPathArray, earlier);
    }
  }

  /** Roots accumulate under the reference splitter, for sources with a base name. */
  lemma RootsAccumulateSplitPath(remoteFolder: string, locals: seq<string>, j: nat)
    requires forall k :: 0 <= k < |locals| ==> SplitPath(locals[k]) != []
    requires j < |locals|
    ensures RemoteRoots(SplitPath, remoteFolder, locals)[j]
         == Join(SplitPath(remoteFolder) + BaseNames(SplitPath, locals[..j + 1]), "/")
  {
    SplitPathSplitsJoins();
    var names := BaseNames(SplitPath, locals);
    forall k | 0 <= k < |names| ensures Segment(names[k]) {
      assert Segments(SplitPath(locals[k]));
    }
    RootsAccumulate(SplitPath, remoteFolder, locals, j);
  }

  lemma SplitJoin(getPathArray: string -> seq<string>, segments: seq<string>)
    requires SplitsJoins(getPathArray) && Segments(segments)
    ensures getPathArray(Join(segments, "/")) == segments
  {
  }

  lemma BaseNamesSnoc(getPathArray: string -> seq<string>, locals: seq<string>, j: nat)
    requires j < |locals|
    ensures BaseNames(getPathArray, locals[..j + 1])
         == BaseNames(getPathArray, locals[..j]) + [BaseName(getPathArray, locals[j])]
  {
    var longer := BaseNames(getPathArray, locals[..j + 1]);
    var shorter := BaseNames(getPathArray, locals[..j]) + [BaseName(getPathArray, locals[j])];
    assert |longer| == |shorter|;
    forall i | 0 <= i < j + 1 ensures longer[i] == shorter[i] {
      assert locals[..j + 1][i] == locals[i];
      if i < j {
        assert locals[..j][i] == locals[i];
      }
    }
  }

  lemma BaseNamesPrefix(getPathArray: string -> seq<string>, locals: seq<string>, j: nat)
    requires j <= |locals|
    ensures BaseNames(getPathArray, locals[..j]) == BaseNames(getPathArray, locals)[..j]
  {
    var all := BaseNames(getPathArray, locals);
    var names := BaseNames(getPathArray, locals[..j]);
    assert |names| == |all[..j]|;
    forall i | 0 <= i < j ensures names[i] == all[..j][i] {
      assert locals[..j][i] == locals[i];
    }
  }

  lemma PrefixSegments(segments: seq<string>, names: seq<string>, j: nat)
    requires Segments(segments) && Segments(names) && j <= |names|
    ensures Segments(segments + names[..j])
  {
    assert Segments(names[..j]) by {
      forall k | 0 <= k < j ensures Segment(names[..j][k]) {
        assert names[..j][k] == names[k];
      }
    }
    ConcatSegments(segments, names[..j]);
  }

  lemma ConcatSegments(a: seq<string>, b: seq<string>)
    requires Segments(a) && Segments(b)
    ensures Segments(a + b)
  {
    forall k | 0 <= k < |a + b| ensures Segment((a + b)[k]) {
      if k < |a| { assert (a + b)[k] == a[k]; } else { assert (a + b)[k] == b[k - |a|]; }
    }
  }


  // ---------------------------------------------------------------------------------------
  // The command

  /** The walks of the sources in order, each with its own root, stopping at the first
      error. */
  function Sources(backend: (string, string) -> ExistsReply, fs: string -> Listing,
                   locals: seq<string>, roots: seq<string>): (w: Walk)
    requires |locals| == |roots|
    ensures forall i :: 0 <= i < |w.reports| ==> Classified(backend, w.reports[i])
  {
    if locals == [] then Walk([], None)
    else
      var w := WalkRoot(locals[0], roots[0], backend, fs(locals[0]));
      if w.failure.Some? then w
      else Then(w.reports, Sources(backend, fs, locals[1..], roots[1..]))
  }

  lemma SourcesStep(backend: (string, string) -> ExistsReply, fs: string -> Listing,
                    locals: seq<string>, roots: seq<string>, i: nat)
    requires |locals| == |roots| && i < |locals|
    ensures var w := WalkRoot(locals[i], roots[i], backend, fs(locals[i]));
            Sources(backend, fs, locals[i..], roots[i..])
            == if w.failure.Some? then w else Then(w.reports, Sources(backend, fs, locals[i + 1..], roots[i + 1..]))
  {
    assert locals[i..][0] == locals[i] && roots[i..][0] == roots[i];
    assert locals[i..][1..] == locals[i + 1..] && roots[i..][1..] == roots[i + 1..];
  }

  /** Everything the sources' walks meet, in order. */
  function FlattenSources(fs: string -> Listing, locals: seq<string>, roots: seq<string>): seq<Visit>
    requires |locals| == |roots|
  {
    if locals == [] then []
    else FlattenRoot(locals[0], roots[0], fs(locals[0])) + FlattenSources(fs, locals[1..], roots[1..])
  }

  /** Sources are walked one after another without interleaving: the reports are those of
      every file met, pre-order and in listing order, source by source, up to the first local
      error, which is the run's error. A local error in one source's tree means no later
      source is walked. */
  lemma {:induction false} SourcesArePreOrder(backend: (string, string) -> ExistsReply, fs: string -> Listing,
                                              locals: seq<string>, roots: seq<string>)
    requires |locals| == |roots|
    ensures Sources(backend, fs, locals, roots) == Expected(backend, FlattenSources(fs, locals, roots))
    decreases |locals|
  {
    if locals != [] {
      WalkRootIsPreOrder(locals[0], roots[0], backend, fs(locals[0]));
      SourcesArePreOrder(backend, fs, locals[1..], roots[1..]);
      ExpectedAppend(backend, FlattenRoot(locals[0], roots[0], fs(locals[0])),
                     FlattenSources(fs, locals[1..], roots[1..]));
    }
  }

  function ResolveAll(resolve: string -> string, paths: seq<string>): (r: seq<string>)
    ensures |r| == |paths|
    ensures forall k :: 0 <= k < |paths| ==> r[k] == resolve(paths[k])
  {
    if paths == [] then [] else [resolve(paths[0])] + ResolveAll(resolve, paths[1..])
  }

  datatype RunResult = Resolved | Rejected(err: Failure)

  /** `run(args)`: the last argument is the destination folder and the rest are the sources.
      An initialization error rejects first, then an empty source list; otherwise the
      sources are walked in order, remoteFolder being reassigned for each. `resolve` stands
      for path.resolve, `getPathArray` for Utils.getPathArray, `fs` for the file system and
      `backend` for Node.exists. */
  method Run(args: seq<string>, initErr: Option<Failure>,
             resolve: string -> string, getPathArray: string -> seq<string>,
             fs: string -> Listing, backend: (string, string) -> ExistsReply)
    returns (log: seq<LogLine>, reports: seq<FileReport>, result: RunResult)
    ensures initErr.Some? ==> result == Rejected(initErr.value) && reports == []
    ensures initErr.None? && |args| <= 1 ==> result == Rejected(NoDestination) && reports == []
    ensures initErr.None? && |args| > 1 ==>
              var locals := ResolveAll(resolve, args[..|args| - 1]);
              var w := Sources(backend, fs, locals, RemoteRoots(getPathArray, args[|args| - 1], locals));
              reports == w.reports
              && result == (if w.failure.Some? then Rejected(w.failure.value) else Resolved)
    ensures forall i :: 0 <= i < |reports| ==> Classified(backend, reports[i])
    ensures log == Lines(reports)
  {
    log, reports := [], [];
    if initErr.Some? {
      return log, reports, Rejected(initErr.value);
    }
    if |args| <= 1 {
      return log, reports, Rejected(NoDestination);
    }
    var sources := args[..|args| - 1];
    var remoteFolder := args[|args| - 1];
    ghost var locals := ResolveAll(resolve, sources);
    ghost var roots := RemoteRoots(getPathArray, remoteFolder, locals);
    var i := 0;
    while i < |sources|
      invariant 0 <= i <= |sources|
      invariant i < |sources| ==> roots[i] == NextRoot(getPathArray, remoteFolder, locals[i])
      invariant Then(reports, Sources(backend, fs, locals[i..], roots[i..])) == Sources(backend, fs, locals, roots)
      invariant log == Lines(reports)
    {
      SourcesStep(backend, fs, locals, roots, i);
      var localPath := resolve(sources[i]);
      assert localPath == locals[i];
      remoteFolder := NextRoot(getPathArray, remoteFolder, localPath);
      var w := WalkSource(localPath, remoteFolder, backend, fs(localPath));
      ThenThen(reports, w.reports, Sources(backend, fs, locals[i + 1..], roots[i + 1..]));
      LinesAppend(reports, w.reports);
      reports, log := reports + w.reports, log + Lines(w.reports);
      if w.failure.Some? {
        return log, reports, Rejected(w.failure.value);
      }
      if i + 1 < |sources| {
        RemoteRootsStep(getPathArray, args[|args| - 1], locals, i);
      }
      i := i + 1;
    }
    assert locals[i..] == [];
    assert reports + [] == reports;
    return log, reports, Resolved;
  }
}
