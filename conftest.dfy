/**
 * The pytest hooks: the fixture that infers the platform from the test
 * file's path and initialises the device with a log directory beside the
 * test, and the report hook that locates the Airtest HTML report of a test
 * and collects the files of its directory for the zip attached to Allure.
 */
module TestHooks {
  import opened Wrappers
  import opened Text
  import opened PosixPath
  import opened DeviceConfig
  import opened DeviceManager

  // ---------------------------------------------------------------------------
  // setup_test

  /**
   * The platform the fixture infers from the lower-cased test-file path:
   * "android"/"andriod" before "windows"/"win" before "macos"/"mac", and
   * "iOS" when none occurs.
   */
  function InferredPlatform(testFile: String): (r: String)
    ensures r == "Android" <==> Contains(Lower(testFile), "android") || Contains(Lower(testFile), "andriod")
    ensures r == "Windows" <==> !Contains(Lower(testFile), "android") && !Contains(Lower(testFile), "andriod")
                                && Contains(Lower(testFile), "win")
    ensures r == "macOS" <==> !Contains(Lower(testFile), "android") && !Contains(Lower(testFile), "andriod")
                              && !Contains(Lower(testFile), "win") && Contains(Lower(testFile), "mac")
    ensures r == "iOS" <==> !Contains(Lower(testFile), "android") && !Contains(Lower(testFile), "andriod")
                            && !Contains(Lower(testFile), "win") && !Contains(Lower(testFile), "mac")
  {
    var path := Lower(testFile);
    LongKeywordsImplyShort(path);
    if Contains(path, "android") || Contains(path, "andriod") then "Android"
    else if Contains(path, "windows") || Contains(path, "win") then "Windows"
    else if Contains(path, "macos") || Contains(path, "mac") then "macOS"
    else "iOS"
  }

  /** "windows" contains "win" and "macos" contains "mac", so each long keyword is subsumed by the short one. */
  lemma LongKeywordsImplyShort(path: String)
    ensures Contains(path, "windows") ==> Contains(path, "win")
    ensures Contains(path, "macos") ==> Contains(path, "mac")
  {
    if Contains(path, "windows") {
      StartsWithContains("windows", "win");
      ContainsTransitive(path, "windows", "win");
    }
    if Contains(path, "macos") {
      StartsWithContains("macos", "mac");
      ContainsTransitive(path, "macos", "mac");
    }
  }

  /** `os.path.join(os.path.dirname(test_file), 'log')`: a `log` entry inside the test's directory. */
  function LogDir(testFile: String): (dir: String)
    ensures StartsWith(dir, Dirname(testFile))
    ensures dir == "log" || EndsWith(dir, "/log")
  {
    JoinLogUnder(Dirname(testFile));
    Join(Dirname(testFile), "log")
  }

  /** Joining the relative name "log" onto a directory keeps the directory as a prefix and ends in "/log". */
  lemma JoinLogUnder(parent: String)
    ensures StartsWith(Join(parent, "log"), parent)
    ensures Join(parent, "log") == "log" || EndsWith(Join(parent, "log"), "/log")
  {
    assert "log"[..1] == "l" != "/";
    if parent == [] {
    } else if EndsWith(parent, "/") {
      var last := |parent| - 1;
      assert parent[last] == parent[last..][0] == '/';
      assert (parent + "log")[last..] == [parent[last]] + "log";
    } else {
      assert (parent + "/" + "log")[|parent|..] == "/log";
      assert (parent + "/" + "log")[..|parent|] == parent;
    }
  }

  /**
   * The fixture's device set-up: `os.makedirs(log_dir)`, whose success is
   * `logDirMade`, then `init_device(test_file, log_dir, platform)`, whose
   * error propagates.
   */
  function SetupTest(testFile: String, logDirMade: bool, env: SetupEnv): (r: Result<Session, InitError>)
    ensures r.Err? <==> !logDirMade || InferredPlatform(testFile) == "macOS" || !Ready(env)
    ensures r.Ok? ==> r.value.scriptLogDir == Join(LogDir(testFile), ScriptName(testFile))
    ensures !logDirMade ==> r == Err(LogDirFailed(LogDir(testFile)))
    ensures logDirMade && !env.makedirsOk ==> r == Err(LogDirFailed(Join(LogDir(testFile), ScriptName(testFile))))
    ensures logDirMade && env.makedirsOk && InferredPlatform(testFile) == "macOS" ==> r == Err(UnsupportedPlatform("macOS"))
  {
    if !logDirMade then Err(LogDirFailed(LogDir(testFile)))
    else
      PlatformKeys();
      InitDevice(testFile, LogDir(testFile), InferredPlatform(testFile), env)
  }

  /** A test under `cases/andriod/...` runs on Android, even when the path also mentions "win" or "mac". */
  lemma AndroidFolderWins(prefix: String, rest: String)
    ensures InferredPlatform(prefix + "andriod" + rest) == "Android"
  {
    var path := prefix + "andriod" + rest;
    assert Lower(path)[|prefix|..|prefix| + 7] == "andriod";
    assert OccursAt(Lower(path), "andriod", |prefix|);
  }

  /** Any path that mentions "win" in some case, and no Android keyword, is a Windows test. */
  lemma WinFolderIsWindows(prefix: String, rest: String)
    requires !Contains(Lower(prefix + "WIN" + rest), "android") && !Contains(Lower(prefix + "WIN" + rest), "andriod")
    ensures InferredPlatform(prefix + "WIN" + rest) == "Windows"
  {
    var path := prefix + "WIN" + rest;
    assert Lower(path)[|prefix|..|prefix| + 3] == "win";
    assert OccursAt(Lower(path), "win", |prefix|);
  }

  /** The log directory of `dir/file` is `dir/log`. */
  lemma LogDirOf(dir: String, file: String)
    requires '/' !in file && dir != [] && dir[|dir| - 1] != '/'
    ensures LogDir(dir + "/" + file) == dir + "/log"
  {
    DirnameOfJoined(dir, file);
    JoinPlain(dir, "log");
  }

  // ---------------------------------------------------------------------------
  // pytest_runtest_makereport: the report path

  /**
   * Where the hook looks for the Airtest report of the test file `fspath`:
   * `EXPORT_DIR/<file name>/<timestamp>/<stem>.log/log.html`. Only the "call"
   * phase is handled, and nothing is looked up when `TEST_TIMESTAMP` is unset
   * or empty.
   */
  function ReportFile(when: String, fspath: String, timestamp: Option<String>, exportDir: String): (r: Option<String>)
    ensures r.Some? <==> when == "call" && timestamp.Some? && timestamp.value != []
  {
    if when != "call" || timestamp.None? || timestamp.value == [] then None
    else
      var fileName := Basename(fspath);
      var baseExportDir := Join(Join(exportDir, fileName), timestamp.value);
      var exportDir' := Join(baseExportDir, SplitExtRoot(fileName) + ".log");
      Some(Join(exportDir', "log.html"))
  }

  /** The report of `dir/stem.py` is at `EXPORT_DIR/stem.py/<timestamp>/stem.log/log.html`. */
  lemma ReportFileLayout(exportDir: String, dir: String, stem: String, timestamp: String)
    requires exportDir != [] && exportDir[|exportDir| - 1] != '/'
    requires '/' !in stem && exists k :: 0 <= k < |stem| && stem[k] != '.'
    requires '/' !in timestamp && timestamp != []
    ensures ReportFile("call", dir + "/" + stem + ".py", Some(timestamp), exportDir)
         == Some(exportDir + "/" + (stem + ".py") + "/" + timestamp + "/" + (stem + ".log") + "/" + "log.html")
  {
    var file, logName := stem + ".py", stem + ".log";
    PythonFileName(dir, stem);
    assert file[0] == stem[0] == logName[0];
    assert timestamp[0] in timestamp && timestamp[|timestamp| - 1] in timestamp;
    JoinFour(exportDir, file, timestamp, logName, "log.html");
  }

  /** Four relative components joined in turn onto a directory are separated by single slashes. */
  lemma JoinFour(root: String, p1: String, p2: String, p3: String, p4: String)
    requires root != [] && root[|root| - 1] != '/'
    requires p1 != [] && p1[0] != '/' && p1[|p1| - 1] != '/'
    requires p2 != [] && p2[0] != '/' && p2[|p2| - 1] != '/'
    requires p3 != [] && p3[0] != '/' && p3[|p3| - 1] != '/'
    requires p4 != [] && p4[0] != '/'
    ensures Join(Join(Join(Join(root, p1), p2), p3), p4) == root + "/" + p1 + "/" + p2 + "/" + p3 + "/" + p4
  {
    JoinPlain(root, p1);
    var a := root + "/" + p1;
    JoinPlain(a, p2);
    var b := a + "/" + p2;
    JoinPlain(b, p3);
    var c := b + "/" + p3;
    JoinPlain(c, p4);
  }

  // ---------------------------------------------------------------------------
  // pytest_runtest_makereport: the zip walk

  /** The directory `os.walk` prunes from the report tree. */
  const CacheDir: String := "__pycache__"

  /** A directory of the report tree: its name, its file names and its subdirectories, in listing order. */
  datatype Dir = Dir(name: String, files: seq<String>, subdirs: seq<Dir>)

  /** `dirs.remove('__pycache__')` when present: the first subdirectory of that name is dropped. */
  function Pruned(dirs: seq<Dir>): (r: seq<Dir>)
    ensures forall x :: x in r ==> x in dirs
    ensures |r| == |dirs| || |r| == |dirs| - 1
  {
    if dirs == [] then []
    else if dirs[0].name == CacheDir then dirs[1..]
    else [dirs[0]] + Pruned(dirs[1..])
  }

  /** `[name] + e` for each entry `e` of a subdirectory. */
  function Prefixed(name: String, entries: seq<seq<String>>): (r: seq<seq<String>>)
    ensures |r| == |entries| && forall i :: 0 <= i < |r| ==> r[i] == [name] + entries[i]
  {
    seq(|entries|, i requires 0 <= i < |entries| => [name] + entries[i])
  }

  /** One entry per file, from the back to match the loop over `files`. */
  function FileEntries(files: seq<String>): (r: seq<seq<String>>)
    ensures |r| == |files| && forall i :: 0 <= i < |r| ==> r[i] == [files[i]]
  {
    if files == [] then [] else FileEntries(files[..|files| - 1]) + [[files[|files| - 1]]]
  }

  /**
   * The zip entries of the tree `d`, each as its path relative to `d`
   * (the arcname is their '/'-join): top-down, a directory's own files
   * before those of its subdirectories, with `__pycache__` pruned.
   */
  function ZipEntries(d: Dir): seq<seq<String>>
    decreases d, 1
  {
    FileEntries(d.files) + SubdirEntries(d, Pruned(d.subdirs))
  }

  function SubdirEntries(parent: Dir, dirs: seq<Dir>): seq<seq<String>>
    requires forall x :: x in dirs ==> x in parent.subdirs
    decreases parent, 0, |dirs|
  {
    if dirs == [] then []
    else
      var last := dirs[|dirs| - 1];
      assert last in dirs;
      assert last in parent.subdirs;
      SubdirEntries(parent, dirs[..|dirs| - 1]) + Prefixed(last.name, ZipEntries(last))
  }

  /** `if '__pycache__' in dirs: dirs.remove('__pycache__')` */
  method PruneCache(dirs: seq<Dir>) returns (kept: seq<Dir>)
    ensures kept == Pruned(dirs)
  {
    kept := dirs;
    if exists x :: x in kept && x.name == CacheDir {
      kept := Pruned(kept);
    } else {
      NoCacheUnpruned(dirs);
    }
  }

  /** `for file in files`: one entry per file of the current directory. */
  method ListFiles(files: seq<String>) returns (entries: seq<seq<String>>)
    ensures entries == FileEntries(files)
  {
    entries := [];
    for i := 0 to |files|
      invariant entries == FileEntries(files[..i])
    {
      entries := entries + [[files[i]]];
      assert files[..i + 1][..i] == files[..i];
    }
    assert files[..|files|] == files;
  }

  /** The walk of the report directory: the entries of the zip, in the order they are written. */
  method ZipWalk(d: Dir) returns (entries: seq<seq<String>>)
    ensures entries == ZipEntries(d)
    decreases d
  {
    var dirs := PruneCache(d.subdirs);
    entries := ListFiles(d.files);
    for i := 0 to |dirs|
      invariant forall x :: x in dirs[..i] ==> x in d.subdirs
      invariant entries == FileEntries(d.files) + SubdirEntries(d, dirs[..i])
    {
      var next := dirs[i];
      SubdirEntriesStep(d, dirs, i);
      var sub := ZipWalk(next);
      entries := entries + Prefixed(next.name, sub);
    }
    assert dirs[..|dirs|] == dirs;
  }

  lemma SubdirEntriesStep(parent: Dir, dirs: seq<Dir>, i: nat)
    requires forall x :: x in dirs ==> x in parent.subdirs
    requires i < |dirs|
    ensures dirs[i] < parent
    ensures forall x :: x in dirs[..i + 1] ==> x in parent.subdirs
    ensures forall x :: x in dirs[..i] ==> x in parent.subdirs
    ensures SubdirEntries(parent, dirs[..i + 1])
         == SubdirEntries(parent, dirs[..i]) + Prefixed(dirs[i].name, ZipEntries(dirs[i]))
  {
    assert dirs[i] in dirs;
    assert dirs[..i + 1] == dirs[..i] + [dirs[i]];
    SubdirEntriesSnoc(parent, dirs[..i], dirs[i]);
  }

  lemma SubdirEntriesSnoc(parent: Dir, dirs: seq<Dir>, next: Dir)
    requires forall x :: x in dirs ==> x in parent.subdirs
    requires next in parent.subdirs
    ensures forall x :: x in dirs + [next] ==> x in parent.subdirs
    ensures SubdirEntries(parent, dirs + [next]) == SubdirEntries(parent, dirs) + Prefixed(next.name, ZipEntries(next))
  {
    assert (dirs + [next])[..|dirs|] == dirs;
  }

  lemma {:induction false} NoCacheUnpruned(dirs: seq<Dir>)
    requires forall x :: x in dirs ==> x.name != CacheDir
    ensures Pruned(dirs) == dirs
    decreases |dirs|
  {
    if dirs != [] {
      NoCacheUnpruned(dirs[1..]);
    }
  }

  /** Subdirectory names are unique, as in a directory on disk. */
  predicate WellFormed(d: Dir)
    decreases d
  {
    && (forall i, j :: 0 <= i < j < |d.subdirs| ==> d.subdirs[i].name != d.subdirs[j].name)
    && (forall i :: 0 <= i < |d.subdirs| ==> WellFormed(d.subdirs[i]))
  }

  /** With unique names, pruning keeps exactly the subdirectories not named `__pycache__`. */
  lemma {:induction false} PrunedKeeps(dirs: seq<Dir>, x: Dir)
    requires forall i, j :: 0 <= i < j < |dirs| ==> dirs[i].name != dirs[j].name
    ensures x in Pruned(dirs) <==> x in dirs && x.name != CacheDir
    decreases |dirs|
  {
    if dirs != [] {
      PrunedKeeps(dirs[1..], x);
      if dirs[0].name == CacheDir {
        if x in dirs[1..] {
          var j :| 0 <= j < |dirs[1..]| && dirs[1..][j] == x;
          assert dirs[j + 1] == x;
        }
      }
    }
  }

  /** A path is a file of the tree under no `__pycache__` directory. */
  predicate Listed(d: Dir, path: seq<String>)
    decreases d
  {
    && |path| >= 1
    && if |path| == 1 then path[0] in d.files
       else && path[0] != CacheDir
            && exists i :: 0 <= i < |d.subdirs| && d.subdirs[i].name == path[0] && Listed(d.subdirs[i], path[1..])
  }

  /** In a well-formed tree, the zip holds exactly the listed files. */
  lemma {:induction false} ZipEntryIff(d: Dir, path: seq<String>)
    requires WellFormed(d)
    ensures path in ZipEntries(d) <==> Listed(d, path)
    decreases d, 1
  {
    FileEntryIff(d.files, path);
    SubdirEntryIff(d, Pruned(d.subdirs), path);
    PrunedListedUnder(d.subdirs, path);
  }

  /** The entries of a directory's own files are its file names, one each. */
  lemma FileEntryIff(files: seq<String>, path: seq<String>)
    ensures path in FileEntries(files) <==> |path| == 1 && path[0] in files
  {
    if path in FileEntries(files) {
      var i :| 0 <= i < |files| && FileEntries(files)[i] == path;
    }
    if |path| == 1 && path[0] in files {
      var i :| 0 <= i < |files| && files[i] == path[0];
      assert path == FileEntries(files)[i];
    }
  }

  /** Under the pruned subdirectories lie the paths listed under a subdirectory other than `__pycache__`. */
  lemma PrunedListedUnder(dirs: seq<Dir>, path: seq<String>)
    requires forall i, j :: 0 <= i < j < |dirs| ==> dirs[i].name != dirs[j].name
    ensures ListedUnder(Pruned(dirs), path) <==>
              |path| >= 2 && path[0] != CacheDir
              && exists i :: 0 <= i < |dirs| && dirs[i].name == path[0] && Listed(dirs[i], path[1..])
  {
    if ListedUnder(Pruned(dirs), path) {
      var x :| x in Pruned(dirs) && x.name == path[0] && Listed(x, path[1..]);
      PrunedKeeps(dirs, x);
      var i :| 0 <= i < |dirs| && dirs[i] == x;
    }
    if |path| >= 2 && path[0] != CacheDir
       && exists i :: 0 <= i < |dirs| && dirs[i].name == path[0] && Listed(dirs[i], path[1..]) {
      var i :| 0 <= i < |dirs| && dirs[i].name == path[0] && Listed(dirs[i], path[1..]);
      PrunedKeeps(dirs, dirs[i]);
    }
  }

  /** `path` is a subdirectory name of `dirs` followed by a path listed under that subdirectory. */
  predicate ListedUnder(dirs: seq<Dir>, path: seq<String>) {
    |path| >= 2 && exists x :: x in dirs && x.name == path[0] && Listed(x, path[1..])
  }

  lemma ListedUnderSnoc(init: seq<Dir>, last: Dir, path: seq<String>)
    ensures ListedUnder(init + [last], path) <==>
              ListedUnder(init, path) || (|path| >= 2 && last.name == path[0] && Listed(last, path[1..]))
  {
    if ListedUnder(init + [last], path) {
      var x :| x in init + [last] && x.name == path[0] && Listed(x, path[1..]);
      assert x in init || x == last;
    }
    if ListedUnder(init, path) {
      var x :| x in init && x.name == path[0] && Listed(x, path[1..]);
      assert x in init + [last];
    }
  }

  /** A path comes from the subdirectories `dirs` exactly when it is a listed path under one of them. */
  lemma {:induction false} SubdirEntryIff(parent: Dir, dirs: seq<Dir>, path: seq<String>)
    requires WellFormed(parent)
    requires forall x :: x in dirs ==> x in parent.subdirs
    ensures path in SubdirEntries(parent, dirs) <==> ListedUnder(dirs, path)
    decreases parent, 0, |dirs|
  {
    if dirs != [] {
      var init := dirs[..|dirs| - 1];
      var last := dirs[|dirs| - 1];
      assert forall x :: x in init ==> x in dirs;
      SubdirEntryIff(parent, init, path);
      assert last in parent.subdirs;
      var k :| 0 <= k < |parent.subdirs| && parent.subdirs[k] == last;
      PrefixedEntryIff(last, path);
      assert dirs == init + [last];
      ListedUnderSnoc(init, last, path);
    }
  }

  /** A path comes from the subdirectory `last` exactly when it is `last`'s name before a path listed under it. */
  lemma {:induction false} PrefixedEntryIff(last: Dir, path: seq<String>)
    requires WellFormed(last)
    ensures path in Prefixed(last.name, ZipEntries(last)) <==>
              |path| >= 2 && last.name == path[0] && Listed(last, path[1..])
    decreases last, 2
  {
    var tail := Prefixed(last.name, ZipEntries(last));
    if |path| >= 1 {
      ZipEntryIff(last, path[1..]);
    }
    if path in tail {
      var i :| 0 <= i < |tail| && tail[i] == path;
      assert path[1..] == ZipEntries(last)[i];
    }
    if |path| >= 2 && last.name == path[0] && path[1..] in ZipEntries(last) {
      var i :| 0 <= i < |ZipEntries(last)| && ZipEntries(last)[i] == path[1..];
      assert tail[i] == [path[0]] + path[1..] == path;
    }
  }

  /** Every entry names at least a file. */
  lemma {:induction false} ZipEntryNonEmpty(d: Dir, i: nat)
    requires i < |ZipEntries(d)|
    ensures |ZipEntries(d)[i]| >= 1
    decreases d, 1
  {
    var files := FileEntries(d.files);
    if i >= |files| {
      SubdirEntryNonEmpty(d, Pruned(d.subdirs), i - |files|);
    }
  }

  lemma {:induction false} SubdirEntryNonEmpty(parent: Dir, dirs: seq<Dir>, i: nat)
    requires forall x :: x in dirs ==> x in parent.subdirs
    requires i < |SubdirEntries(parent, dirs)|
    ensures |SubdirEntries(parent, dirs)[i]| >= 2
    decreases parent, 0, |dirs|
  {
    var init := dirs[..|dirs| - 1];
    var last := dirs[|dirs| - 1];
    assert forall x :: x in init ==> x in dirs;
    var front := SubdirEntries(parent, init);
    if i < |front| {
      SubdirEntryNonEmpty(parent, init, i);
    } else {
      assert last in parent.subdirs;
      ZipEntryNonEmpty(last, i - |front|);
    }
  }

  /** No zip entry passes through a `__pycache__` directory. */
  lemma NoCacheInZip(d: Dir, path: seq<String>)
    requires WellFormed(d) && path in ZipEntries(d)
    ensures forall k :: 0 <= k < |path| - 1 ==> path[k] != CacheDir
  {
    ZipEntryIff(d, path);
    ListedAvoidsCache(d, path);
  }

  lemma {:induction false} ListedAvoidsCache(d: Dir, path: seq<String>)
    requires Listed(d, path)
    ensures forall k :: 0 <= k < |path| - 1 ==> path[k] != CacheDir
    decreases d
  {
    if |path| >= 2 {
      var i :| 0 <= i < |d.subdirs| && d.subdirs[i].name == path[0] && Listed(d.subdirs[i], path[1..]);
      ListedAvoidsCache(d.subdirs[i], path[1..]);
      forall k | 1 <= k < |path| - 1
        ensures path[k] != CacheDir
      {
        assert path[k] == path[1..][k - 1];
      }
    }
  }
}
