/** The pre-deployment check, over a snapshot of the file system.

    It reports the four required files, the frame images in `frames` (how
    many, the first and last in sorted order, and up to five badly named
    ones), the size of each required file against a 5 MiB ceiling, and the
    deployment workflow; it fails (exit status 1) exactly when a required
    file, the frame directory, any frame image or the workflow is missing.
    Badly named frames and oversized files are warnings only. The console
    output is modelled as a list of abstract `Line`s. */
module DeployCheck {
  import opened FrameNaming
  import opened NameOrder

  const RequiredFiles: seq<string> := ["index.html", "script.js", "styles.css", "README.md"]
  const FramesDir: string := "frames"
  const WorkflowFile: string := ".github/workflows/deploy.yml"
  const DefaultMaxSizeMB: nat := 5
  const BytesPerMB: nat := 1024 * 1024
  /** How many badly named frames are listed one by one. */
  const ListedInvalidNames: nat := 5

  /** The file system as the check sees it: every existing path with its
      size in bytes, and the entries of every directory. */
  datatype FileSystem = FileSystem(sizes: map<string, nat>, listings: map<string, seq<string>>)

  /** `fs.existsSync(path)`. */
  predicate Exists(fs: FileSystem, path: string) {
    path in fs.sizes
  }

  /** `frames` exists but cannot be listed (it is not a directory), so
      `readdirSync` throws and the uncaught exception ends the process. */
  predicate FramesUnreadable(fs: FileSystem) {
    Exists(fs, FramesDir) && FramesDir !in fs.listings
  }

  /** One console report of the check, without its wording. */
  datatype Line =
    | FilePresent(file: string)
    | FileMissing(file: string)
    | FramesFound(count: nat, first: string, last: string)
    | InvalidNamesFound(count: nat)
    | InvalidNameListed(name: string)
    | MoreInvalidNames(count: nat)
    | FramesEmpty
    | FramesMissing
    | SizeOk(path: string, bytes: nat)
    | SizeOver(path: string, bytes: nat)
    | WorkflowPresent
    | WorkflowMissing
    | Ready
    | NotReady

  /** The verdict: every required file, a `frames` directory holding at least
      one `.jpg` or `.png` entry, and the workflow file exist. */
  predicate DeployReady(fs: FileSystem) {
    RequiredPresent(fs) && FramesPresent(fs) && Exists(fs, WorkflowFile)
  }

  predicate RequiredPresent(fs: FileSystem) {
    forall j :: 0 <= j < |RequiredFiles| ==> Exists(fs, RequiredFiles[j])
  }

  /** `frames` is a directory with at least one `.jpg` or `.png` entry. */
  predicate FramesPresent(fs: FileSystem) {
    && Exists(fs, FramesDir) && FramesDir in fs.listings
    && exists name :: name in fs.listings[FramesDir] && IsImageFile(name)
  }

  /** `s.filter(p)`: the elements that satisfy `p`, each as often as in `s`
      and in the order of `s`. */
  function Filter(s: seq<string>, p: string -> bool): (r: seq<string>)
    ensures |r| <= |s|
    ensures forall x :: x in r <==> x in s && p(x)
    ensures forall x :: multiset(r)[x] == if p(x) then multiset(s)[x] else 0
    ensures Sorted(s) ==> Sorted(r)
  {
    if s == [] then []
    else
      var rest := Filter(s[1..], p);
      assert s == [s[0]] + s[1..];
      SortedTail(s);
      if p(s[0]) then
        SortedFront(s, rest);
        [s[0]] + rest
      else rest
  }

  /** The head of a sorted list, put in front of a sorted list drawn from
      its tail, keeps it sorted. */
  lemma SortedFront(s: seq<string>, rest: seq<string>)
    requires s != [] && (Sorted(s[1..]) ==> Sorted(rest))
    requires forall x :: x in rest ==> x in s[1..]
    ensures Sorted(s) ==> Sorted([s[0]] + rest)
  {
    if Sorted(s) {
      var r := [s[0]] + rest;
      forall i, j | 0 <= i < j < |r| ensures AtMost(r[i], r[j]) {
        assert r[j] == rest[j - 1];
        if i == 0 {
          var y := rest[j - 1];
          assert y in rest;
          assert y in s[1..];
          var k :| 0 <= k < |s| - 1 && s[1..][k] == y;
          assert s[k + 1] == y;
        } else {
          assert r[i] == rest[i - 1];
        }
      }
    }
  }

  /** Filtering keeps the order of the input: filtering two lists one after
      the other is filtering each and joining the results. */
  lemma {:induction false} FilterConcat(a: seq<string>, b: seq<string>, p: string -> bool)
    ensures Filter(a + b, p) == Filter(a, p) + Filter(b, p)
    decreases |a|
  {
    if a == [] {
      assert a + b == b;
    } else {
      var head := if p(a[0]) then [a[0]] else [];
      FilterConcat(a[1..], b, p);
      FilterFront(a, b, p);
      ConcatAssociative(head, Filter(a[1..], p), Filter(b, p));
    }
  }

  lemma FilterFront(a: seq<string>, b: seq<string>, p: string -> bool)
    requires a != []
    ensures Filter(a + b, p) == (if p(a[0]) then [a[0]] else []) + Filter(a[1..] + b, p)
  {
    assert (a + b)[0] == a[0];
    assert (a + b)[1..] == a[1..] + b;
  }

  lemma ConcatAssociative(x: seq<string>, y: seq<string>, z: seq<string>)
    ensures x + (y + z) == (x + y) + z
  {
  }

  /** The directory entries ending in `.jpg` or `.png`, sorted: a sorted
      permutation of the filtered entries, duplicates included. */
  function FrameListing(entries: seq<string>): (frames: seq<string>)
    ensures Sorted(frames)
    ensures multiset(frames) == multiset(Filter(entries, IsImageFile))
    ensures forall x :: x in frames <==> x in entries && IsImageFile(x)
  {
    var images := Filter(entries, IsImageFile);
    var frames := SortNames(images);
    assert forall x :: x in frames <==> x in multiset(images);
    frames
  }

  /** The reported first and last frames are the least and the greatest
      image entry of the directory. */
  lemma FrameListingEnds(entries: seq<string>)
    requires FrameListing(entries) != []
    ensures var frames := FrameListing(entries);
            forall x :: x in entries && IsImageFile(x) ==>
              AtMost(frames[0], x) && AtMost(x, frames[|frames| - 1])
  {
    SortedEnds(FrameListing(entries));
  }

  /** The reported count is the number of image entries of the directory. */
  lemma FrameListingCount(entries: seq<string>)
    ensures |FrameListing(entries)| == |Filter(entries, IsImageFile)|
  {
    var frames := FrameListing(entries);
    assert |multiset(frames)| == |multiset(Filter(entries, IsImageFile))|;
  }

  /** The listed frames whose names break the naming rule, in listing order. */
  function InvalidNames(frames: seq<string>): (invalid: seq<string>)
    ensures forall x :: x in invalid <==> x in frames && !ValidFrameName(x)
    ensures forall x :: multiset(invalid)[x] == if ValidFrameName(x) then 0 else multiset(frames)[x]
    ensures Sorted(frames) ==> Sorted(invalid)
  {
    Filter(frames, (name: string) => !ValidFrameName(name))
  }

  function Min(a: nat, b: nat): nat {
    if a <= b then a else b
  }

  /** A report belonging to the badly-named-frames warning. */
  predicate IsInvalidReport(l: Line) {
    l.InvalidNamesFound? || l.InvalidNameListed? || l.MoreInvalidNames?
  }

  /** One `InvalidNameListed` report per name, in order. */
  function ListedNames(names: seq<string>): (lines: seq<Line>)
    ensures |lines| == |names|
    ensures forall j :: 0 <= j < |names| ==> lines[j] == InvalidNameListed(names[j])
    ensures forall l :: l in lines ==> l.InvalidNameListed? && l.name in names
  {
    if names == [] then []
    else ListedNames(names[..|names| - 1]) + [InvalidNameListed(names[|names| - 1])]
  }

  /** The warning for badly named frames: their count, the first five of
      them, and how many more there are when there are over five. */
  function InvalidListing(invalid: seq<string>): (lines: seq<Line>)
    ensures invalid == [] <==> lines == []
    ensures forall l :: l in lines ==> IsInvalidReport(l)
  {
    if invalid == [] then []
    else [InvalidNamesFound(|invalid|)] + ListedNames(Shown(invalid)) + MoreReport(|invalid|)
  }

  /** `invalidNames.slice(0, 5)`. */
  function Shown(invalid: seq<string>): (shown: seq<string>)
    ensures |shown| == Min(ListedInvalidNames, |invalid|)
    ensures forall j :: 0 <= j < |shown| ==> shown[j] == invalid[j]
  {
    invalid[..Min(ListedInvalidNames, |invalid|)]
  }

  /** Of the sorted listing, the badly named frames listed one by one come
      no later than any of those left out. */
  lemma ShownAreLowest(frames: seq<string>)
    requires Sorted(frames)
    ensures var invalid := InvalidNames(frames);
            var shown := Shown(invalid);
            forall j, k :: 0 <= j < |shown| <= k < |invalid| ==> AtMost(shown[j], invalid[k])
  {
  }

  /** The "and more" report for `count` badly named frames, if any. */
  function MoreReport(count: nat): (lines: seq<Line>)
    ensures count > ListedInvalidNames ==> lines == [MoreInvalidNames(count - ListedInvalidNames)]
    ensures count <= ListedInvalidNames ==> lines == []
  {
    if count > ListedInvalidNames then [MoreInvalidNames(count - ListedInvalidNames)] else []
  }

  /** The warning opens with the count and then names the first five badly
      named frames, in order. */
  lemma InvalidListingNames(invalid: seq<string>)
    requires invalid != []
    ensures var lines := InvalidListing(invalid);
            var shown := Min(ListedInvalidNames, |invalid|);
            && |lines| == 1 + shown + (if |invalid| > ListedInvalidNames then 1 else 0)
            && lines[0] == InvalidNamesFound(|invalid|)
            && forall j :: 0 <= j < shown ==> lines[j + 1] == InvalidNameListed(invalid[j])
  {
    var listed := ListedNames(Shown(invalid));
    var lines := InvalidListing(invalid);
    assert lines == [InvalidNamesFound(|invalid|)] + listed + MoreReport(|invalid|);
    assert lines[1..1 + |listed|] == listed;
  }

  /** The "and more" report appears exactly when there are over five badly
      named frames, and carries how many were not listed. */
  lemma InvalidListingMore(invalid: seq<string>, count: nat)
    ensures MoreInvalidNames(count) in InvalidListing(invalid) <==>
              |invalid| > ListedInvalidNames && count == |invalid| - ListedInvalidNames
  {
    var lines := InvalidListing(invalid);
    if invalid == [] {
      assert lines == [];
    } else {
      var listed := ListedNames(Shown(invalid));
      var more := MoreReport(|invalid|);
      assert lines == [InvalidNamesFound(|invalid|)] + listed + more;
      assert MoreInvalidNames(count) !in listed;
      assert MoreInvalidNames(count) in lines <==> MoreInvalidNames(count) in more;
      if |invalid| > ListedInvalidNames {
        assert more == [MoreInvalidNames(|invalid| - ListedInvalidNames)];
      } else {
        assert more == [];
      }
    }
  }

  /** Only badly named frames are listed, and only the first five of them. */
  lemma InvalidListingListed(invalid: seq<string>, name: string)
    ensures InvalidNameListed(name) in InvalidListing(invalid) <==> name in Shown(invalid)
  {
    if invalid != [] {
      var shown := Shown(invalid);
      var listed := ListedNames(shown);
      assert InvalidListing(invalid) == [InvalidNamesFound(|invalid|)] + listed + MoreReport(|invalid|);
      if name in shown {
        var j :| 0 <= j < |shown| && shown[j] == name;
        assert listed[j] == InvalidNameListed(name);
      }
    }
  }

  /** `size / (1024 * 1024) > maxSizeMB`, evaluated exactly, is the same as
      comparing the byte count with `maxSizeMB` whole mebibytes. */
  lemma OverCeiling(size: nat, maxSizeMB: nat)
    ensures (size as real) / (BytesPerMB as real) > maxSizeMB as real <==> size > maxSizeMB * BytesPerMB
  {
    assert (size as real) / (BytesPerMB as real) * (BytesPerMB as real) == size as real;
    assert (maxSizeMB * BytesPerMB) as real == (maxSizeMB as real) * (BytesPerMB as real);
  }

  /** The result of `checkFileSize(path, maxSizeMB)` and its report. */
  datatype SizeCheck = SizeCheck(withinLimit: bool, lines: seq<Line>)

  /** `checkFileSize`: false exactly when the file exists and is larger than
      `maxSizeMB` MiB; a missing file passes and is not reported. */
  function CheckFileSize(fs: FileSystem, path: string, maxSizeMB: nat): (r: SizeCheck)
    ensures !r.withinLimit <==> Exists(fs, path) && fs.sizes[path] > maxSizeMB * BytesPerMB
    ensures !Exists(fs, path) ==> r.lines == []
    ensures Exists(fs, path) ==>
              r.lines == [if r.withinLimit then SizeOk(path, fs.sizes[path]) else SizeOver(path, fs.sizes[path])]
  {
    if Exists(fs, path) then
      var size := fs.sizes[path];
      var sizeMB := (size as real) / (BytesPerMB as real);
      OverCeiling(size, maxSizeMB);
      if sizeMB > maxSizeMB as real then SizeCheck(false, [SizeOver(path, size)])
      else SizeCheck(true, [SizeOk(path, size)])
    else SizeCheck(true, [])
  }

  function PresenceLine(fs: FileSystem, file: string): Line {
    if Exists(fs, file) then FilePresent(file) else FileMissing(file)
  }

  /** One presence report per file, in order. */
  function PresenceLines(fs: FileSystem, files: seq<string>): (lines: seq<Line>)
    ensures |lines| == |files|
    ensures forall l :: l in lines ==> l.FilePresent? || l.FileMissing?
    ensures forall j :: 0 <= j < |files| ==> lines[j] == PresenceLine(fs, files[j])
  {
    if files == [] then []
    else PresenceLines(fs, files[..|files| - 1]) + [PresenceLine(fs, files[|files| - 1])]
  }

  /** The size reports of `files` with the default ceiling: one per existing
      file, none for a missing one. */
  function SizeLines(fs: FileSystem, files: seq<string>): (lines: seq<Line>)
    ensures forall l :: l in lines ==> l.SizeOk? || l.SizeOver?
  {
    if files == [] then []
    else SizeLines(fs, files[..|files| - 1]) + CheckFileSize(fs, files[|files| - 1], DefaultMaxSizeMB).lines
  }

  /** A size warning is issued for exactly the listed files that exist and
      exceed the default ceiling, with their size. */
  lemma {:induction false} SizeOverListed(fs: FileSystem, files: seq<string>, p: string, b: nat)
    ensures SizeOver(p, b) in SizeLines(fs, files) <==>
              p in files && Exists(fs, p) && b == fs.sizes[p] && b > DefaultMaxSizeMB * BytesPerMB
    decreases |files|
  {
    if files != [] {
      var init := files[..|files| - 1];
      var last := files[|files| - 1];
      SizeOverListed(fs, init, p, b);
      assert files == init + [last];
      var check := CheckFileSize(fs, last, DefaultMaxSizeMB);
      assert SizeLines(fs, files) == SizeLines(fs, init) + check.lines;
    }
  }

  /** The reports of the frame-directory section when it can be listed. */
  function FramesLines(fs: FileSystem): (lines: seq<Line>)
    requires !FramesUnreadable(fs)
    ensures forall l :: l in lines ==>
              l.FramesFound? || l.InvalidNamesFound? || l.InvalidNameListed? || l.MoreInvalidNames?
              || l.FramesEmpty? || l.FramesMissing?
  {
    if !Exists(fs, FramesDir) then [FramesMissing]
    else
      var frames := FrameListing(fs.listings[FramesDir]);
      if |frames| > 0 then
        var listing := InvalidListing(InvalidNames(frames));
        [FramesFound(|frames|, frames[0], frames[|frames| - 1])] + listing
      else [FramesEmpty]
  }

  function WorkflowLine(fs: FileSystem): Line {
    if Exists(fs, WorkflowFile) then WorkflowPresent else WorkflowMissing
  }

  /** Everything the check reports, in order. When `frames` cannot be listed
      the run stops after the required-file reports. */
  function Transcript(fs: FileSystem): seq<Line> {
    if FramesUnreadable(fs) then PresenceLines(fs, RequiredFiles)
    else
      PresenceLines(fs, RequiredFiles) + FramesLines(fs) + SizeLines(fs, RequiredFiles)
        + [WorkflowLine(fs), Verdict(fs)]
  }

  /** The closing report. */
  function Verdict(fs: FileSystem): Line {
    if DeployReady(fs) then Ready else NotReady
  }

  /** A report is in the transcript when it is in one of its sections. */
  lemma InTranscript(fs: FileSystem, l: Line)
    ensures l in Transcript(fs) <==>
              || l in PresenceLines(fs, RequiredFiles)
              || (&& !FramesUnreadable(fs)
                  && (|| l in FramesLines(fs) || l in SizeLines(fs, RequiredFiles)
                      || l == WorkflowLine(fs) || l == Verdict(fs)))
  {
    if !FramesUnreadable(fs) {
      var presence := PresenceLines(fs, RequiredFiles);
      var frames := FramesLines(fs);
      var sizes := SizeLines(fs, RequiredFiles);
      var tail := [WorkflowLine(fs), Verdict(fs)];
      assert Transcript(fs) == presence + frames + sizes + tail;
      InSections(presence, frames, sizes, tail, l);
      assert l in tail <==> l == WorkflowLine(fs) || l == Verdict(fs);
    }
  }

  lemma InSections(a: seq<Line>, b: seq<Line>, c: seq<Line>, d: seq<Line>, l: Line)
    ensures l in a + b + c + d <==> l in a || l in b || l in c || l in d
  {
  }

  /** The whole script: returns its exit status and its reports. */
  method RunDeployCheck(fs: FileSystem) returns (exitCode: int, log: seq<Line>)
    ensures exitCode == if DeployReady(fs) then 0 else 1
    ensures log == Transcript(fs)
  {
    var allFilesExist, presenceLog := CheckRequiredFiles(fs);
    if FramesUnreadable(fs) {
      // readdirSync throws; the uncaught exception exits with status 1
      return 1, presenceLog;
    }
    var framesOk, framesLog := CheckFramesDir(fs);
    allFilesExist := allFilesExist && framesOk;
    var sizesLog := ReportSizes(fs);
    var workflowLine;
    if Exists(fs, WorkflowFile) {
      workflowLine := WorkflowPresent;
    } else {
      workflowLine := WorkflowMissing;
      allFilesExist := false;
    }
    assert allFilesExist == DeployReady(fs);
    var verdict;
    if allFilesExist {
      verdict := Ready;
      exitCode := 0;
    } else {
      verdict := NotReady;
      exitCode := 1;
    }
    log := presenceLog + framesLog + sizesLog + [workflowLine, verdict];
  }

  /** The required-file section: one report per file, and whether all exist. */
  method CheckRequiredFiles(fs: FileSystem) returns (allFilesExist: bool, log: seq<Line>)
    ensures allFilesExist <==> RequiredPresent(fs)
    ensures log == PresenceLines(fs, RequiredFiles)
  {
    allFilesExist := true;
    log := [];
    var i := 0;
    while i < |RequiredFiles|
      invariant 0 <= i <= |RequiredFiles|
      invariant allFilesExist <==> forall j :: 0 <= j < i ==> Exists(fs, RequiredFiles[j])
      invariant log == PresenceLines(fs, RequiredFiles[..i])
    {
      var file := RequiredFiles[i];
      assert RequiredFiles[..i + 1] == RequiredFiles[..i] + [file];
      if Exists(fs, file) {
        log := log + [FilePresent(file)];
      } else {
        log := log + [FileMissing(file)];
        allFilesExist := false;
      }
      i := i + 1;
    }
    assert RequiredFiles[..i] == RequiredFiles;
  }

  /** The frame-directory section, once `frames` is known to be listable or
      absent: its reports, and whether it holds at least one image. */
  method CheckFramesDir(fs: FileSystem) returns (framesOk: bool, log: seq<Line>)
    requires !FramesUnreadable(fs)
    ensures framesOk <==> FramesPresent(fs)
    ensures log == FramesLines(fs)
  {
    if Exists(fs, FramesDir) {
      var frames := FrameListing(fs.listings[FramesDir]);
      if |frames| > 0 {
        assert frames[0] in frames;
        log := [FramesFound(|frames|, frames[0], frames[|frames| - 1])];
        var invalidNames := InvalidNames(frames);
        log := log + InvalidListing(invalidNames);
        framesOk := true;
      } else {
        assert forall name :: name in fs.listings[FramesDir] ==> !IsImageFile(name);
        log := [FramesEmpty];
        framesOk := false;
      }
    } else {
      log := [FramesMissing];
      framesOk := false;
    }
  }

  /** The size section: `checkFileSize` on every required file, its result
      discarded, so an oversized file is only reported. */
  method ReportSizes(fs: FileSystem) returns (log: seq<Line>)
    ensures log == SizeLines(fs, RequiredFiles)
  {
    log := [];
    var i := 0;
    while i < |RequiredFiles|
      invariant 0 <= i <= |RequiredFiles|
      invariant log == SizeLines(fs, RequiredFiles[..i])
    {
      assert RequiredFiles[..i + 1] == RequiredFiles[..i] + [RequiredFiles[i]];
      var check := CheckFileSize(fs, RequiredFiles[i], DefaultMaxSizeMB);
      log := log + check.lines;
      i := i + 1;
    }
    assert RequiredFiles[..i] == RequiredFiles;
  }

  /** A required file is reported missing exactly when it does not exist. */
  lemma MissingFileReported(fs: FileSystem, f: string)
    ensures FileMissing(f) in Transcript(fs) <==> f in RequiredFiles && !Exists(fs, f)
  {
    InTranscript(fs, FileMissing(f));
    PresenceMissing(fs, RequiredFiles, f);
    if !FramesUnreadable(fs) {
      assert FileMissing(f) !in FramesLines(fs);
      assert FileMissing(f) !in SizeLines(fs, RequiredFiles);
    }
  }

  /** A presence report says "missing" for exactly the listed files that do
      not exist. */
  lemma {:induction false} PresenceMissing(fs: FileSystem, files: seq<string>, f: string)
    ensures FileMissing(f) in PresenceLines(fs, files) <==> f in files && !Exists(fs, f)
    decreases |files|
  {
    if files != [] {
      var init := files[..|files| - 1];
      PresenceMissing(fs, init, f);
      assert files == init + [files[|files| - 1]];
    }
  }

  /** Oversized files are reported, unless the run stopped at an unreadable
      `frames`, and the report does not change the verdict. */
  lemma OversizedFileReported(fs: FileSystem, p: string, b: nat)
    ensures SizeOver(p, b) in Transcript(fs) <==>
              && !FramesUnreadable(fs)
              && p in RequiredFiles && Exists(fs, p) && b == fs.sizes[p] && b > DefaultMaxSizeMB * BytesPerMB
  {
    InTranscript(fs, SizeOver(p, b));
    SizeOverListed(fs, RequiredFiles, p, b);
    assert SizeOver(p, b) !in PresenceLines(fs, RequiredFiles);
    if !FramesUnreadable(fs) {
      assert SizeOver(p, b) !in FramesLines(fs);
    }
  }

  /** The closing report says "ready" exactly when the verdict is success. */
  lemma ReadyReported(fs: FileSystem)
    ensures Ready in Transcript(fs) <==> DeployReady(fs)
  {
    InTranscript(fs, Ready);
    assert Ready !in PresenceLines(fs, RequiredFiles);
    if !FramesUnreadable(fs) {
      assert Ready !in FramesLines(fs);
      assert Ready !in SizeLines(fs, RequiredFiles);
    } else {
      assert !FramesPresent(fs);
    }
  }

  /** Warnings do not fail a run: a complete project with an oversized
      required file still exits with status 0, and the size is reported. */
  method WarningsDoNotFail(fs: FileSystem, p: string) returns (exitCode: int, log: seq<Line>)
    requires DeployReady(fs)
    requires p in RequiredFiles && fs.sizes[p] > DefaultMaxSizeMB * BytesPerMB
    ensures exitCode == 0
    ensures SizeOver(p, fs.sizes[p]) in log
  {
    exitCode, log := RunDeployCheck(fs);
    OversizedFileReported(fs, p, fs.sizes[p]);
  }

  /** A project with everything in place, one well and one badly named
      frame, and a 6 MiB script meets the requirements of `WarningsDoNotFail`. */
  lemma WarningsOnlyExample()
    ensures var fs := FileSystem(
              map["index.html" := 10, "script.js" := 6 * BytesPerMB, "styles.css" := 10, "README.md" := 10,
                  "frames" := 4096, ".github/workflows/deploy.yml" := 10],
              map["frames" := ["frame_0002.jpg", "notes.txt", "cover.png"]]);
            DeployReady(fs) && fs.sizes["script.js"] > DefaultMaxSizeMB * BytesPerMB
  {
    var fs := FileSystem(
      map["index.html" := 10, "script.js" := 6 * BytesPerMB, "styles.css" := 10, "README.md" := 10,
          "frames" := 4096, ".github/workflows/deploy.yml" := 10],
      map["frames" := ["frame_0002.jpg", "notes.txt", "cover.png"]]);
    assert RequiredPresent(fs);
    assert FramesPresent(fs) by {
      ValidNameIsImageFile("frame_0002.jpg");
      assert "frame_0002.jpg" in fs.listings[FramesDir];
    }
    assert Exists(fs, WorkflowFile);
  }
}
