/**
 * The header tool: a Python file gets the shebang and coding header in front
 * of its content unless both of its first two lines already carry one of the
 * two header markers; a directory walk applies this to every `.py` file.
 * The file system is a map from path to content.
 */
module FileHeaders {
  import opened Text
  import opened Lists
  import opened PosixPath

  const Shebang: String := "#!/usr/bin/env python"
  const CodingLine: String := "# -*- coding: utf-8 -*-"
  const CodingMarker: String := "# -*- coding"

  /** The header written in front of the content: the two lines and an empty one. */
  const Header: String := Shebang + "\n" + CodingLine + "\n" + "\n"

  /** A line carries a header marker when it contains either marker. */
  predicate HasMarker(line: String) {
    Contains(line, Shebang) || Contains(line, CodingMarker)
  }

  /** `content.split('\n')[:2]` */
  function FirstTwoLines(content: String): (r: seq<String>)
    ensures |r| <= 2 && |r| <= |Split(content, '\n')| && r == Split(content, '\n')[..|r|]
    ensures |r| == 2 || r == Split(content, '\n')
  {
    var lines := Split(content, '\n');
    lines[..if |lines| < 2 then |lines| else 2]
  }

  /**
   * The header is written when fewer than two of the first two lines carry a
   * marker, that is, unless there are two lines and both carry one.
   */
  predicate NeedsHeader(content: String)
    ensures NeedsHeader(content) <==>
              !(|Split(content, '\n')| >= 2 && HasMarker(Split(content, '\n')[0]) && HasMarker(Split(content, '\n')[1]))
  {
    var firstTwo := FirstTwoLines(content);
    MarkedCount(firstTwo);
    |FilterMap(firstTwo, HasMarker, Identity)| < 2
  }

  /** Of at most two lines, fewer than two carry a marker unless there are two and both do. */
  lemma MarkedCount(lines: seq<String>)
    requires |lines| <= 2
    ensures |FilterMap(lines, HasMarker, Identity)| < 2 <==> !(|lines| == 2 && HasMarker(lines[0]) && HasMarker(lines[1]))
  {
    if |lines| == 2 {
      assert lines[..1] == [lines[0]] && lines[..1][..0] == [];
      assert |FilterMap(lines[..1], HasMarker, Identity)| == (if HasMarker(lines[0]) then 1 else 0);
    } else if |lines| == 1 {
      assert lines[..0] == [];
    }
  }

  /** The first two lines of `l1\nl2\nrest` are `l1` and `l2`. */
  lemma SplitTwoLines(l1: String, l2: String, rest: String)
    requires '\n' !in l1 && '\n' !in l2
    ensures |Split(l1 + "\n" + l2 + "\n" + rest, '\n')| >= 2
    ensures Split(l1 + "\n" + l2 + "\n" + rest, '\n')[0] == l1
    ensures Split(l1 + "\n" + l2 + "\n" + rest, '\n')[1] == l2
  {
    SplitFirst(l2, rest, '\n');
    SplitFirst(l1, l2 + ['\n'] + rest, '\n');
    assert l1 + "\n" + l2 + "\n" + rest == l1 + ['\n'] + (l2 + ['\n'] + rest);
  }

  /**
   * The content after `add_header_to_file`: it always passes the tool's own
   * test, and it differs from the old content exactly when that needed the
   * header.
   */
  function WithHeader(content: String): (r: String)
    ensures !NeedsHeader(r)
    ensures r != content <==> NeedsHeader(content)
  {
    if NeedsHeader(content) then HeaderSatisfiesCheck(content); Header + content else content
  }

  /** `add_header_to_file` on the file's content: whether it rewrites the file, and the content afterwards. */
  method AddHeaderToFile(content: String) returns (rewritten: bool, newContent: String)
    ensures rewritten <==> NeedsHeader(content)
    ensures newContent == WithHeader(content)
  {
    var lines := Split(content, '\n');
    var firstTwo := lines[..if |lines| < 2 then |lines| else 2];
    var existingHeaders := [];
    for i := 0 to |firstTwo|
      invariant existingHeaders == FilterMap(firstTwo[..i], HasMarker, Identity)
    {
      var line := firstTwo[i];
      if Contains(line, Shebang) || Contains(line, CodingMarker) {
        existingHeaders := existingHeaders + [line];
      }
      assert firstTwo[..i + 1][..i] == firstTwo[..i];
    }
    assert firstTwo[..|firstTwo|] == firstTwo;
    rewritten := |existingHeaders| < 2;
    newContent := if rewritten then Header + content else content;
  }

  /** Both header lines are single lines that carry a marker. */
  lemma HeaderLinesMarked()
    ensures '\n' !in Shebang && '\n' !in CodingLine
    ensures HasMarker(Shebang) && HasMarker(CodingLine)
  {
    StartsWithContains(Shebang, Shebang);
    assert CodingLine[..|CodingMarker|] == CodingMarker;
    StartsWithContains(CodingLine, CodingMarker);
  }

  /** A header written by the tool passes its own test. */
  lemma HeaderSatisfiesCheck(content: String)
    ensures !NeedsHeader(Header + content)
  {
    HeaderLinesMarked();
    assert Header + content == Shebang + "\n" + CodingLine + "\n" + ("\n" + content);
    SplitTwoLines(Shebang, CodingLine, "\n" + content);
  }

  /** Running the tool twice is the same as running it once. */
  lemma WithHeaderIdempotent(content: String)
    ensures WithHeader(WithHeader(content)) == WithHeader(content)
  {
    if NeedsHeader(content) {
      HeaderSatisfiesCheck(content);
    }
  }

  /** The original content is kept whole, at the end. */
  lemma WithHeaderKeepsContent(content: String)
    ensures EndsWith(WithHeader(content), content)
    ensures WithHeader(content) == content || WithHeader(content) == Header + content
  {
    var r := WithHeader(content);
    assert r[|r| - |content|..] == content;
  }

  /**
   * A file that has only the shebang line gets the whole header again, so
   * it then starts with two shebang lines.
   */
  lemma ShebangOnlyGetsFullHeader(body: String)
    requires '\n' !in body && !HasMarker(body)
    ensures WithHeader(Shebang + "\n" + body) == Header + Shebang + "\n" + body
  {
    assert '\n' !in Shebang;
    SplitFirst(Shebang, body, '\n');
    SplitNoSep(body, '\n');
    assert Shebang + "\n" + body == Shebang + ['\n'] + body;
  }

  // ---------------------------------------------------------------------------
  // process_directory

  /** One step of `os.walk`: a directory path and the names of its files. */
  type WalkStep = (String, seq<String>)

  /** The path is a `.py` file the walk reaches. */
  predicate Touched(walk: seq<WalkStep>, path: String) {
    exists i, j :: 0 <= i < |walk| && 0 <= j < |walk[i].1|
                   && EndsWith(walk[i].1[j], ".py") && Join(walk[i].0, walk[i].1[j]) == path
  }

  /** Every file the walk lists is in the file system. */
  predicate WalkInFiles(fs: map<String, String>, walk: seq<WalkStep>) {
    forall i, j :: 0 <= i < |walk| && 0 <= j < |walk[i].1| ==> Join(walk[i].0, walk[i].1[j]) in fs
  }

  /** `result` is `fs` after the header treatment of every `.py` file of `walk`. */
  predicate Processed(fs: map<String, String>, result: map<String, String>, walk: seq<WalkStep>) {
    && result.Keys == fs.Keys
    && forall p :: p in fs ==> result[p] == (if Touched(walk, p) then WithHeader(fs[p]) else fs[p])
  }

  /**
   * `process_directory`: every `.py` file of the walk gets the header
   * treatment; no other file changes.
   */
  method ProcessDirectory(fs: map<String, String>, walk: seq<WalkStep>) returns (result: map<String, String>)
    requires WalkInFiles(fs, walk)
    ensures result.Keys == fs.Keys
    ensures forall p :: p in fs ==> result[p] == (if Touched(walk, p) then WithHeader(fs[p]) else fs[p])
  {
    result := fs;
    assert walk[..0] == [];
    for i := 0 to |walk|
      invariant Processed(fs, result, walk[..i])
    {
      assert walk[..i + 1] == walk[..i] + [(walk[i].0, walk[i].1)];
      result := ProcessFiles(fs, result, walk[..i], walk[i].0, walk[i].1);
    }
    assert walk[..|walk|] == walk;
  }

  /** The inner loop of `process_directory`, over the files of one directory. */
  method ProcessFiles(fs: map<String, String>, current: map<String, String>, ghost done: seq<WalkStep>,
                      root: String, files: seq<String>) returns (result: map<String, String>)
    requires Processed(fs, current, done)
    requires forall j :: 0 <= j < |files| ==> Join(root, files[j]) in fs
    ensures Processed(fs, result, done + [(root, files)])
  {
    result := current;
    TouchedEmptyStep(done, root);
    assert files[..0] == [];
    for j := 0 to |files|
      invariant Processed(fs, result, done + [(root, files[..j])])
    {
      var file := files[j];
      TouchedStep(done, root, files, j);
      if EndsWith(file, ".py") {
        var path := Join(root, file);
        WithHeaderIdempotent(fs[path]);
        var _, newContent := AddHeaderToFile(result[path]);
        ProcessedStep(fs, result, done + [(root, files[..j])], done + [(root, files[..j + 1])], path, true);
        result := result[path := newContent];
      } else {
        ProcessedStep(fs, result, done + [(root, files[..j])], done + [(root, files[..j + 1])], Join(root, file), false);
      }
    }
    assert files[..|files|] == files;
  }

  /** One file of the walk: its path is treated when it is a `.py` file, and nothing else changes. */
  lemma ProcessedStep(fs: map<String, String>, result: map<String, String>,
                      before: seq<WalkStep>, after: seq<WalkStep>, path: String, isPython: bool)
    requires Processed(fs, result, before)
    requires isPython ==> path in fs
    requires forall p :: Touched(after, p) <==> Touched(before, p) || (isPython && p == path)
    ensures Processed(fs, if isPython then result[path := WithHeader(fs[path])] else result, after)
  {
  }

  /** Adding the `j`-th file of a step touches that path, if it is a `.py` file, and nothing else. */
  lemma TouchedStep(done: seq<WalkStep>, root: String, files: seq<String>, j: nat)
    requires j < |files|
    ensures forall p :: Touched(done + [(root, files[..j + 1])], p) <==>
                        Touched(done + [(root, files[..j])], p)
                        || (EndsWith(files[j], ".py") && p == Join(root, files[j]))
  {
    forall p
      ensures Touched(done + [(root, files[..j + 1])], p) <==>
              Touched(done + [(root, files[..j])], p) || (EndsWith(files[j], ".py") && p == Join(root, files[j]))
    {
      if Touched(done + [(root, files[..j + 1])], p) {
        TouchedLater(done, root, files, j, p);
      }
      if Touched(done + [(root, files[..j])], p) || (EndsWith(files[j], ".py") && p == Join(root, files[j])) {
        TouchedEarlier(done, root, files, j, p);
      }
    }
  }

  lemma TouchedLater(done: seq<WalkStep>, root: String, files: seq<String>, j: nat, p: String)
    requires j < |files|
    requires Touched(done + [(root, files[..j + 1])], p)
    ensures Touched(done + [(root, files[..j])], p) || (EndsWith(files[j], ".py") && p == Join(root, files[j]))
  {
    var before := done + [(root, files[..j])];
    var after := done + [(root, files[..j + 1])];
    var a, b :| 0 <= a < |after| && 0 <= b < |after[a].1|
                && EndsWith(after[a].1[b], ".py") && Join(after[a].0, after[a].1[b]) == p;
    if a < |done| {
      assert before[a] == after[a];
    } else if b < j {
      assert before[a].1[b] == after[a].1[b];
    }
  }

  lemma TouchedEarlier(done: seq<WalkStep>, root: String, files: seq<String>, j: nat, p: String)
    requires j < |files|
    requires Touched(done + [(root, files[..j])], p) || (EndsWith(files[j], ".py") && p == Join(root, files[j]))
    ensures Touched(done + [(root, files[..j + 1])], p)
  {
    var before := done + [(root, files[..j])];
    var after := done + [(root, files[..j + 1])];
    if Touched(before, p) {
      var a, b :| 0 <= a < |before| && 0 <= b < |before[a].1|
                  && EndsWith(before[a].1[b], ".py") && Join(before[a].0, before[a].1[b]) == p;
      if a < |done| {
        assert before[a] == after[a];
      } else {
        assert before[a].1[b] == after[a].1[b];
      }
    } else {
      assert after[|done|].1[j] == files[j];
    }
  }

  /** A step with no files touches nothing. */
  lemma TouchedEmptyStep(done: seq<WalkStep>, root: String)
    ensures forall p :: Touched(done + [(root, [])], p) <==> Touched(done, p)
  {
    var after := done + [(root, [])];
    forall p | Touched(after, p)
      ensures Touched(done, p)
    {
      var a, b :| 0 <= a < |after| && 0 <= b < |after[a].1|
                  && EndsWith(after[a].1[b], ".py") && Join(after[a].0, after[a].1[b]) == p;
      assert after[a] == done[a];
    }
    forall p | Touched(done, p)
      ensures Touched(after, p)
    {
      var a, b :| 0 <= a < |done| && 0 <= b < |done[a].1|
                  && EndsWith(done[a].1[b], ".py") && Join(done[a].0, done[a].1[b]) == p;
      assert after[a] == done[a];
    }
  }

  /** A file whose name does not end in ".py" is never changed, whatever directory it is in. */
  lemma OnlyPythonFilesTouched(walk: seq<WalkStep>, root: String, name: String)
    requires !EndsWith(name, ".py") && '/' !in name && name != []
    ensures !Touched(walk, Join(root, name))
  {
    var joined := Join(root, name);
    NotPythonJoin(root, name);
    if Touched(walk, joined) {
      var i, j :| 0 <= i < |walk| && 0 <= j < |walk[i].1|
                  && EndsWith(walk[i].1[j], ".py") && Join(walk[i].0, walk[i].1[j]) == joined;
      JoinEndsWith(walk[i].0, walk[i].1[j]);
      EndsWithTransitive(joined, walk[i].1[j], ".py");
    }
  }

  /** `os.path.join(root, name)` does not end in ".py" when `name` is a plain name that does not. */
  lemma NotPythonJoin(root: String, name: String)
    requires !EndsWith(name, ".py") && '/' !in name && name != []
    ensures !EndsWith(Join(root, name), ".py")
  {
    assert name[0] in name;
    if root == [] {
      assert Join(root, name) == name;
    } else if EndsWith(root, "/") {
      assert root[|root| - 1] == root[|root| - 1..][0];
      NotPythonAfter(root, name);
    } else {
      NotPythonAfter(root + "/", name);
    }
  }

  /** A name that does not end in ".py", after a '/' or at the start, does not make the text end in ".py". */
  lemma NotPythonAfter(prefix: String, name: String)
    requires !EndsWith(name, ".py") && '/' !in name
    requires prefix == [] || prefix[|prefix| - 1] == '/'
    ensures !EndsWith(prefix + name, ".py")
  {
    var joined := prefix + name;
    if |name| >= 3 {
      assert joined[|joined| - 3..] == name[|name| - 3..];
    } else if |joined| >= 3 {
      var k := 2 - |name|;
      assert joined[|joined| - 3 + k] == '/';
      assert joined[|joined| - 3..][k] == '/';
    }
  }

  lemma EndsWithTransitive(s: String, a: String, b: String)
    requires EndsWith(s, a) && EndsWith(a, b)
    ensures EndsWith(s, b)
  {
    assert s[|s| - |b|..] == a[|a| - |b|..];
  }

  /** `os.path.join(a, b)` ends with `b`. */
  lemma JoinEndsWith(a: String, b: String)
    ensures EndsWith(Join(a, b), b)
  {
    var r := Join(a, b);
    assert r[|r| - |b|..] == b;
  }
}
