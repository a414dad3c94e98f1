/**
 * File paths as the handlers use them: POSIX strings with "/" as separator. Node's
 * `path.normalize` is not modelled; paths are taken as they come, and the results
 * about relativisation are stated for normal paths (no doubled separator, no trailing
 * separator except on "/" itself).
 */
module Paths {
  import opened Text

  predicate IsAbsolute(p: string) {
    |p| > 0 && p[0] == '/'
  }

  /** No "//" inside, and no trailing "/" unless the path is the file system root. */
  predicate Normal(p: string) {
    (forall i | 0 <= i < |p| - 1 :: !(p[i] == '/' && p[i + 1] == '/'))
    && (|p| > 1 ==> p[|p| - 1] != '/')
  }

  /** `path.join(dir, rel)` for a relative `rel` without "." or ".." segments. */
  function JoinPath(dir: string, rel: string): (r: string)
    ensures dir != "" ==> StartsWith(r, dir)
    ensures rel != "" ==> EndsWith(r, rel)
  {
    if dir == "" then (if rel == "" then "." else rel)
    else if rel == "" then dir
    else if dir[|dir| - 1] == '/' then dir + rel
    else dir + "/" + rel
  }

  /**
   * The absolute form of `p` against `base`: `p` itself when absolute, otherwise
   * `path.join(base, p)`. The handlers use it with the workspace root as base, and
   * `path.resolve` is the same with the working directory as base.
   */
  function AbsolutePath(base: string, p: string): (r: string)
    ensures IsAbsolute(p) ==> r == p
    ensures !IsAbsolute(p) && IsAbsolute(base) ==> IsAbsolute(r) && StartsWith(r, base)
  {
    if IsAbsolute(p) then p else JoinPath(base, p)
  }

  /** The text after the last "/" of s. */
  function LastSegment(s: string): (r: string)
    ensures EndsWith(s, r) && '/' !in r
    ensures |r| < |s| ==> s[|s| - |r| - 1] == '/'
  {
    if s == [] || s[|s| - 1] == '/' then ""
    else
      var r := LastSegment(s[..|s| - 1]) + [s[|s| - 1]];
      assert s[..|s| - 1][|s| - |r|..] + [s[|s| - 1]] == s[|s| - |r|..];
      r
  }

  /** `p` is the directory `root` itself or lies somewhere below it. */
  predicate IsInside(p: string, root: string) {
    p == root
    || StartsWith(p, root + "/")
    || (root == "/" && StartsWith(p, root))
  }

  /**
   * `path.relative(root, p)` for a `p` that begins with the text of `root`: the rest
   * after the separator when `p` lies below `root`, and a climb out of `root` into its
   * parent when `p` only shares the text of `root` (such as "/ws/app-old" against "/ws/app").
   */
  function Relative(root: string, p: string): (r: string)
    requires StartsWith(p, root)
    ensures p == root ==> r == ""
  {
    var tail := p[|root|..];
    if tail == "" then ""
    else if tail[0] == '/' then tail[1..]
    else if root != "" && root[|root| - 1] == '/' then tail
    else "../" + p[|root| - |LastSegment(root)|..]
  }

  /**
   * `makeRelativePath` of the rename and references handlers: the path relative to the
   * root when its text begins with the root's, otherwise the input unchanged.
   */
  function MakeRelativePath(absolutePath: string, root: string): (r: string)
    ensures !StartsWith(absolutePath, root) ==> r == absolutePath
    ensures StartsWith(absolutePath, root) ==> r == Relative(root, absolutePath)
  {
    if StartsWith(absolutePath, root) then Relative(root, absolutePath) else absolutePath
  }

  /** A path inside a root begins with the root's text. */
  lemma {:induction false} InsideStartsWith(p: string, root: string)
    requires IsInside(p, root)
    ensures StartsWith(p, root)
  {
    if StartsWith(p, root + "/") {
      assert p[..|root|] == (root + "/")[..|root|];
    }
  }

  /** Relativising a normal path inside a normal root and joining it back gives the path. */
  lemma {:induction false} InsideRoundTrip(root: string, p: string)
    requires root != "" && Normal(root) && Normal(p)
    requires IsInside(p, root)
    ensures StartsWith(p, root)
    ensures JoinPath(root, MakeRelativePath(p, root)) == p
  {
    InsideStartsWith(p, root);
    var tail := p[|root|..];
    if p == root {
    } else if root[|root| - 1] == '/' {
      assert root == "/";
      assert tail != "" && tail[0] != '/' by {
        assert p[0] == '/';
        if |p| > 1 { assert !(p[0] == '/' && p[1] == '/'); }
      }
      assert root + tail == p;
    } else {
      assert StartsWith(p, root + "/");
      assert p[|root|] == '/';
      assert |p| > |root| + 1;
      assert tail[0] == '/' && tail[1..] != "";
      assert root + "/" + tail[1..] == p;
    }
  }

  /** A path that begins with the root's text but is not inside it is relativised as a climb. */
  lemma {:induction false} OutsideClimbs(root: string, p: string)
    requires root != "" && Normal(root)
    requires StartsWith(p, root) && !IsInside(p, root)
    ensures StartsWith(MakeRelativePath(p, root), "../")
  {
    assert p[..|root|] == root;
    assert |p| != |root|;
    var tail := p[|root|..];
    assert p[..|root| + 1] == root + [tail[0]];
    assert tail[0] != '/';
    assert root[|root| - 1] != '/' by {
      assert |root| > 1 || root == [root[0]];
    }
  }
}
