/**
 * The parts of Node's `path` module the core uses, for POSIX paths:
 * `path.join` of two segments and `path.extname`.
 */
module Paths {
  import opened Wrappers

  /** The index of the last `c` in `s`. */
  function LastIndexOf(s: string, c: char): (r: Option<nat>)
    ensures r.Some? ==> r.value < |s| && s[r.value] == c && c !in s[r.value + 1..]
    ensures r.None? ==> c !in s
  {
    if s == [] then None
    else if s[|s| - 1] == c then Some(|s| - 1)
    else LastIndexOf(s[..|s| - 1], c)
  }

  /** The last segment of `p`: what follows its last `/`. */
  function BaseName(p: string): (b: string)
    ensures '/' !in b
  {
    match LastIndexOf(p, '/')
    case None => p
    case Some(k) => p[k + 1..]
  }

  /**
   * `path.extname(p)`: from the last `.` of the last segment to its end,
   * or "" when that segment has no `.`, starts with its only `.`, or is `..`.
   */
  function ExtName(p: string): (e: string)
    ensures e == [] || (e[0] == '.' && '.' !in e[1..] && '/' !in e)
  {
    var b := BaseName(p);
    match LastIndexOf(b, '.')
    case None => ""
    case Some(k) => if k == 0 || b == ".." then "" else b[k..]
  }

  /** A last segment `stem` + `ext`, with a dot-free `ext` after a stem other than ".", has extension `ext`. */
  lemma ExtNameOf(dir: string, stem: string, ext: string)
    requires dir == [] || dir[|dir| - 1] == '/'
    requires stem != [] && stem != "." && '/' !in stem
    requires ext != [] && ext[0] == '.' && '.' !in ext[1..] && '/' !in ext
    ensures ExtName(dir + stem + ext) == ext
  {
    var b := stem + ext;
    assert dir + stem + ext == dir + b;
    BaseNameAfterDir(dir, b);
    LastDotOf(stem, ext);
    NotDotDot(stem, ext);
    assert b[|stem|..] == ext;
  }

  lemma NotDotDot(stem: string, ext: string)
    requires stem != [] && stem != "." && ext != []
    ensures stem + ext != ".."
  {
    if |stem + ext| == 2 {
      assert |stem| == 1;
      assert stem == [(stem + ext)[0]];
    }
  }

  lemma BaseNameAfterDir(dir: string, rest: string)
    requires dir == [] || dir[|dir| - 1] == '/'
    requires '/' !in rest
    ensures BaseName(dir + rest) == rest
  {
    LastIndexOfSuffix(dir, rest, '/');
    if dir == [] {
      assert dir + rest == rest;
    } else {
      assert (dir + rest)[|dir|..] == rest;
    }
  }

  lemma {:induction false} LastDotOf(stem: string, ext: string)
    requires ext != [] && ext[0] == '.' && '.' !in ext[1..]
    ensures LastIndexOf(stem + ext, '.') == Some(|stem|)
    decreases |ext|
  {
    var s := stem + ext;
    if |ext| > 1 {
      var e := ext[..|ext| - 1];
      assert e[1..] == ext[1..][..|ext| - 2];
      assert s[..|s| - 1] == stem + e;
      assert s[|s| - 1] == ext[1..][|ext| - 2];
      LastDotOf(stem, e);
    } else {
      assert s[|s| - 1] == ext[0];
    }
  }

  /** A suffix free of `c` leaves the last `c` where it was. */
  lemma {:induction false} LastIndexOfSuffix(a: string, b: string, c: char)
    requires c !in b
    ensures LastIndexOf(a + b, c) == LastIndexOf(a, c)
    ensures a != [] && a[|a| - 1] == c ==> LastIndexOf(a + b, c) == Some(|a| - 1)
    decreases |b|
  {
    if b != [] {
      assert (a + b)[..|a + b| - 1] == a + b[..|b| - 1];
      LastIndexOfSuffix(a, b[..|b| - 1], c);
    } else {
      assert a + b == a;
    }
  }

  /**
   * `path.join(a, b)` for segments that need no normalisation: the two
   * segments with one `/` between them; an empty segment is dropped and
   * joining nothing gives ".".
   */
  function Join(a: string, b: string): string {
    if a == [] && b == [] then "."
    else if a == [] then b
    else if b == [] then a
    else if a[|a| - 1] == '/' then a + b
    else a + "/" + b
  }
}
