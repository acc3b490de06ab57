/**
 * The POSIX path functions the downloader calls: `os.path.basename`
 * (`os.path.split(p)[1]`), `os.path.dirname`, `os.path.join` with two
 * arguments, and the `suffix` of a `pathlib` path.
 */
module PosixPath {

  /** `p.rfind('/') + 1`: the index just past the last slash, 0 when there is none. */
  function AfterLastSlash(p: string): (i: nat)
    ensures i <= |p|
    ensures i > 0 ==> p[i - 1] == '/'
    ensures forall k :: i <= k < |p| ==> p[k] != '/'
    decreases |p|
  {
    if p == [] then 0
    else if p[|p| - 1] == '/' then |p|
    else AfterLastSlash(p[..|p| - 1])
  }

  /** Appending text without a slash does not move the last slash. */
  lemma {:induction false} AfterLastSlashAppend(p: string, b: string)
    requires '/' !in b
    ensures AfterLastSlash(p + b) == AfterLastSlash(p)
    decreases |b|
  {
    if b != [] {
      var q := p + b;
      assert q[..|q| - 1] == p + b[..|b| - 1];
      assert q[|q| - 1] == b[|b| - 1];
      assert b == b[..|b| - 1] + [b[|b| - 1]];
      assert q[|q| - 1] != '/';
      assert AfterLastSlash(q) == AfterLastSlash(q[..|q| - 1]);
      AfterLastSlashAppend(p, b[..|b| - 1]);
    } else {
      assert p + b == p;
    }
  }

  /** `os.path.basename(p)`: the text after the last slash. */
  function BaseName(p: string): (r: string)
    ensures '/' !in r
    ensures |r| <= |p| && p[|p| - |r|..] == r
  {
    p[AfterLastSlash(p)..]
  }

  predicate AllSlashes(s: string) {
    forall k :: 0 <= k < |s| ==> s[k] == '/'
  }

  /** `s.rstrip('/')`. */
  function RStripSlashes(s: string): (r: string)
    ensures |r| <= |s| && s[..|r|] == r
    ensures r == [] || r[|r| - 1] != '/'
    decreases |s|
  {
    if s != [] && s[|s| - 1] == '/' then RStripSlashes(s[..|s| - 1]) else s
  }

  /** `os.path.dirname(p)`: everything up to the last slash, with trailing slashes removed unless it is all slashes. */
  function DirName(p: string): (r: string)
    ensures |r| <= |p| && p[..|r|] == r
  {
    var head := p[..AfterLastSlash(p)];
    if head != [] && !AllSlashes(head) then RStripSlashes(head) else head
  }

  /** `os.path.join(a, b)`. */
  function PathJoin(a: string, b: string): string
  {
    if |b| > 0 && b[0] == '/' then b
    else if a == [] || a[|a| - 1] == '/' then a + b
    else a + "/" + b
  }

  /** Joining a directory and a file name keeps the file name as the last component. */
  lemma BaseNameOfJoin(a: string, b: string)
    requires '/' !in b
    ensures BaseName(PathJoin(a, b)) == b
  {
    var d := if a == [] || a[|a| - 1] == '/' then a else a + "/";
    assert PathJoin(a, b) == d + b;
    AfterLastSlashAppend(d, b);
    if d != [] {
      assert d[|d| - 1] == '/';
    }
  }

  /** `dirname` and `basename` take apart what `join` put together, for a directory without a trailing slash. */
  lemma DirNameOfJoin(a: string, b: string)
    requires a != [] && a[|a| - 1] != '/' && '/' !in b
    ensures DirName(PathJoin(a, b)) == a
  {
    var p := a + "/" + b;
    assert PathJoin(a, b) == p;
    AfterLastSlashAppend(a + "/", b);
    assert AfterLastSlash(a + "/") == |a| + 1;
    var head := p[..|a| + 1];
    assert head == a + "/";
    assert head[|a| - 1] != '/';
    assert !AllSlashes(head);
    assert head[..|head| - 1] == a;
    assert RStripSlashes(head) == RStripSlashes(a) == a;
  }

  /** The last path component as pathlib sees it: `PurePosixPath(p).name`, for paths without "." components (pathlib drops those, and "a/." is named "a"; this function names it "."). */
  function PathName(p: string): string
  {
    BaseName(RStripSlashes(p))
  }

  /** `s.rfind('.')`, or -1. */
  function LastDot(s: string): (i: int)
    ensures -1 <= i < |s|
    ensures i >= 0 ==> s[i] == '.'
    ensures forall k :: i < k < |s| ==> s[k] != '.'
    decreases |s|
  {
    if s == [] then -1
    else if s[|s| - 1] == '.' then |s| - 1
    else LastDot(s[..|s| - 1])
  }

  /** `PurePosixPath(p).suffix`: the final dot and what follows it in the name, or "" when the name has no such dot past its first character. */
  function Suffix(p: string): (r: string)
    ensures r == [] || (r[0] == '.' && '.' !in r[1..] && '/' !in r && |r| >= 2)
  {
    var name := PathName(p);
    var i := LastDot(name);
    if 0 < i < |name| - 1 then name[i..] else ""
  }

  /** A file name `stem.ext` has suffix `.ext`. */
  lemma SuffixOfExtension(stem: string, ext: string)
    requires ext != [] && '.' !in ext && '/' !in ext
    requires BaseName(stem) != []
    ensures Suffix(stem + "." + ext) == "." + ext
  {
    var p := stem + "." + ext;
    assert p[|p| - 1] == ext[|ext| - 1];
    assert ext[|ext| - 1] in ext;
    assert RStripSlashes(p) == p;
    assert '/' !in "." + ext;
    assert p == stem + ("." + ext);
    AfterLastSlashAppend(stem, "." + ext);
    var a := AfterLastSlash(stem);
    assert p[a..] == stem[a..] + "." + ext;
    var name := PathName(p);
    assert name == BaseName(stem) + "." + ext;
    LastDotAppend(BaseName(stem) + ".", ext);
    assert LastDot(BaseName(stem) + ".") == |BaseName(stem)|;
  }

  lemma {:induction false} LastDotAppend(s: string, b: string)
    requires '.' !in b
    ensures LastDot(s + b) == LastDot(s)
    decreases |b|
  {
    if b != [] {
      var q := s + b;
      assert q[..|q| - 1] == s + b[..|b| - 1];
      assert b == b[..|b| - 1] + [b[|b| - 1]];
      assert q[|q| - 1] != '.';
      assert LastDot(q) == LastDot(q[..|q| - 1]);
      LastDotAppend(s, b[..|b| - 1]);
    } else {
      assert s + b == s;
    }
  }
}
