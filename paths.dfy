/**
 * The `os.path` functions the scripts use, with the POSIX rules of Python's
 * `posixpath`: `basename`, `dirname`, two-argument `join` and the root half
 * of `splitext`.
 */
module PosixPath {
  import opened Wrappers
  import opened Text

  /** `p.rfind(c)`: the last index holding `c`. */
  function LastIndexOf(p: String, c: char): (r: Option<nat>)
    ensures r.Some? ==> r.value < |p| && p[r.value] == c
    ensures r.Some? ==> forall j :: r.value < j < |p| ==> p[j] != c
    ensures r.None? ==> c !in p
    decreases |p|
  {
    if p == [] then None
    else if p[|p| - 1] == c then Some(|p| - 1)
    else
      assert p == p[..|p| - 1] + [p[|p| - 1]];
      LastIndexOf(p[..|p| - 1], c)
  }

  /** `os.path.basename(p)`: the text after the last '/'. */
  function Basename(p: String): (r: String)
    ensures '/' !in r && EndsWith(p, r)
  {
    match LastIndexOf(p, '/')
    case None => p
    case Some(i) => p[i + 1..]
  }

  /** `os.path.join(a, b)`: an absolute `b` replaces `a`; otherwise one '/' goes between them. */
  function Join(a: String, b: String): String {
    if StartsWith(b, "/") then b
    else if a == [] || EndsWith(a, "/") then a + b
    else a + "/" + b
  }

  /** `s.rstrip(c)` for one character. */
  function RStripChar(s: String, c: char): (r: String)
    ensures |r| <= |s| && r == s[..|r|]
    decreases |s|
  {
    if s != [] && s[|s| - 1] == c then RStripChar(s[..|s| - 1], c) else s
  }

  /** `os.path.dirname(p)`: the head up to the last '/', trailing slashes removed unless it is all slashes. */
  function Dirname(p: String): String {
    match LastIndexOf(p, '/')
    case None => []
    case Some(i) =>
      var head := p[..i + 1];
      if exists k :: 0 <= k < |head| && head[k] != '/' then RStripChar(head, '/') else head
  }

  /** The root half of `os.path.splitext(p)`: `p` without its extension. */
  function SplitExtRoot(p: String): String {
    var sepIndex: int := match LastIndexOf(p, '/') case None => -1 case Some(i) => i;
    match LastIndexOf(p, '.')
    case None => p
    case Some(dotIndex) =>
      if sepIndex < dotIndex && exists k :: sepIndex < k < dotIndex && p[k] != '.'
      then p[..dotIndex]
      else p
  }

  /** The last `c` in `a + [c] + b` is the one after `a` when `b` has none. */
  lemma {:induction false} LastIndexOfAfter(a: String, b: String, c: char)
    requires c !in b
    ensures LastIndexOf(a + [c] + b, c) == Some(|a|)
    decreases |b|
  {
    var p := a + [c] + b;
    if b != [] {
      assert p[..|p| - 1] == a + [c] + b[..|b| - 1];
      LastIndexOfAfter(a, b[..|b| - 1], c);
    }
  }

  /** The file name after the last '/' is the base name. */
  lemma BasenameOfJoined(dir: String, name: String)
    requires '/' !in name
    ensures Basename(dir + "/" + name) == name
  {
    LastIndexOfAfter(dir, name, '/');
    assert (dir + "/" + name)[|dir| + 1..] == name;
  }

  /** A name with a non-dot character before a final extension loses exactly that extension. */
  lemma SplitExtRootOf(name: String, ext: String)
    requires '/' !in name && '/' !in ext && '.' !in ext
    requires exists k :: 0 <= k < |name| && name[k] != '.'
    ensures SplitExtRoot(name + "." + ext) == name
  {
    var p := name + "." + ext;
    assert '/' !in p by {
      assert forall k :: 0 <= k < |p| ==> p[k] == (if k < |name| then name[k] else if k == |name| then '.' else ext[k - |name| - 1]);
    }
    LastIndexOfAfter(name, ext, '.');
    var k :| 0 <= k < |name| && name[k] != '.';
    assert p[k] != '.';
    assert p[..|name|] == name;
  }

  /** For `dir/stem.py` the base name is `stem.py` and its root is `stem`. */
  lemma PythonFileName(dir: String, stem: String)
    requires '/' !in stem && exists k :: 0 <= k < |stem| && stem[k] != '.'
    ensures Basename(dir + "/" + stem + ".py") == stem + ".py"
    ensures SplitExtRoot(stem + ".py") == stem
    ensures stem != [] && stem[0] != '/' && !StartsWith(stem, "/")
  {
    var file := stem + ".py";
    assert '/' !in file by {
      assert forall k :: 0 <= k < |file| ==> file[k] == (if k < |stem| then stem[k] else ".py"[k - |stem|]);
    }
    BasenameOfJoined(dir, file);
    assert dir + "/" + stem + ".py" == dir + "/" + file;
    assert file == stem + "." + "py";
    SplitExtRootOf(stem, "py");
    assert stem[0] in stem;
  }

  /** Joining a relative name onto a directory without a trailing '/' puts one '/' between them. */
  lemma JoinPlain(a: String, b: String)
    requires a != [] && a[|a| - 1] != '/'
    requires b != [] && b[0] != '/'
    ensures Join(a, b) == a + "/" + b
  {
    assert !EndsWith(a, "/") by {
      assert a[|a| - 1..] == [a[|a| - 1]];
    }
  }

  /** The directory part of `dir/name` is `dir`, when `dir` has no trailing '/'. */
  lemma DirnameOfJoined(dir: String, name: String)
    requires '/' !in name && dir != [] && dir[|dir| - 1] != '/'
    ensures Dirname(dir + "/" + name) == dir
  {
    var p := dir + "/" + name;
    LastIndexOfAfter(dir, name, '/');
    var head := p[..|dir| + 1];
    assert head == dir + "/";
    assert p[..|dir| + 1][|dir| - 1] != '/';
    assert exists k :: 0 <= k < |head| && head[k] != '/';
    assert head[..|head| - 1] == dir;
    assert LastIndexOf(p, '/') == Some(|dir|);
    assert RStripChar(dir, '/') == dir;
    assert RStripChar(head, '/') == dir;
    assert Dirname(p) == RStripChar(head, '/');
  }
}
