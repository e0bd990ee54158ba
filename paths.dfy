/**
 * The slice of POSIX path handling (Python's `posixpath`) that the video
 * pipeline and the web API rely on. Paths are plain strings.
 *
 * `Abs` is `os.path.abspath` WITHOUT normalisation: a relative path is joined
 * to the working directory, an absolute one is kept as it is; `.` segments and
 * repeated slashes are not collapsed.
 */
module Paths {
  import opened Wrappers

  type Path = string

  predicate StartsWith(s: string, prefix: string) {
    |prefix| <= |s| && s[..|prefix|] == prefix
  }

  predicate EndsWith(s: string, suffix: string) {
    |suffix| <= |s| && s[|s| - |suffix|..] == suffix
  }

  /** `a in s` for strings: `s` has `a` as a contiguous substring. */
  predicate Contains(s: string, a: string)
    decreases |s|
  {
    StartsWith(s, a) || (s != [] && Contains(s[1..], a))
  }

  predicate IsAbsolute(p: Path) {
    |p| > 0 && p[0] == '/'
  }

  /** `os.path.join(a, b)`: an absolute `b` discards `a`. */
  function Join(a: Path, b: Path): (r: Path)
    ensures EndsWith(r, b)
    ensures IsAbsolute(b) ==> r == b
    ensures !IsAbsolute(b) ==> StartsWith(r, a) && |r| <= |a| + 1 + |b|
    ensures IsAbsolute(a) ==> IsAbsolute(r)
  {
    if IsAbsolute(b) then b
    else if a == [] || a[|a| - 1] == '/' then a + b
    else a + "/" + b
  }

  /** `os.path.abspath(p)` relative to the working directory `cwd` (not normalised). */
  function Abs(cwd: Path, p: Path): (r: Path)
    requires IsAbsolute(cwd)
    ensures IsAbsolute(r)
    ensures IsAbsolute(p) ==> r == p
  {
    if IsAbsolute(p) then p else Join(cwd, p)
  }

  /** Joining is associative for a relative middle part that does not end with a slash. */
  lemma JoinNested(a: Path, b: Path, c: Path)
    requires b != [] && !IsAbsolute(b) && b[|b| - 1] != '/'
    requires !IsAbsolute(c)
    ensures Join(a, Join(b, c)) == Join(Join(a, b), c)
  {
    var bc := b + "/" + c;
    assert bc[0] == b[0];
    var ab := Join(a, b);
    assert ab[|ab| - 1] == b[|b| - 1];
    if a == [] || a[|a| - 1] == '/' {
      assert a + bc == a + b + "/" + c;
    } else {
      assert a + "/" + bc == a + "/" + b + "/" + c;
    }
  }

  /** Resolving a path twice changes nothing. */
  lemma AbsIdempotent(cwd: Path, p: Path)
    requires IsAbsolute(cwd)
    ensures Abs(cwd, Abs(cwd, p)) == Abs(cwd, p)
  {
  }

  /** `os.path.basename(p)`: the longest suffix of `p` without a slash. */
  function Basename(p: Path): (r: Path)
    ensures EndsWith(p, r)
    ensures forall i | 0 <= i < |r| :: r[i] != '/'
    ensures |r| < |p| ==> p[|p| - |r| - 1] == '/'
  {
    if p == [] || p[|p| - 1] == '/' then []
    else Basename(p[..|p| - 1]) + [p[|p| - 1]]
  }

  /** Position of the last `.` that comes after the last `/`, if there is one. */
  function LastDotInName(p: Path): (r: Option<nat>)
    ensures r.Some? ==> r.value < |p| && p[r.value] == '.'
    ensures r.Some? ==> forall j | r.value < j < |p| :: p[j] != '.' && p[j] != '/'
    ensures r.None? ==> forall j | 0 <= j < |p| :: p[j] == '.' ==> exists k | j < k < |p| :: p[k] == '/'
  {
    if p == [] then None
    else if p[|p| - 1] == '.' then Some(|p| - 1)
    else if p[|p| - 1] == '/' then None
    else LastDotInName(p[..|p| - 1])
  }

  /** Some character other than `.` stands between the last `/` before `d` and `d`. */
  predicate NonDotBefore(p: Path, d: nat)
    requires d <= |p|
  {
    d > 0 && p[d - 1] != '/' && (p[d - 1] != '.' || NonDotBefore(p, d - 1))
  }

  /**
   * `os.path.splitext(p)`: the extension is the last `.` of the final path
   * component and what follows it, unless that component is only dots up to
   * there (a leading-dot name such as `.bashrc` has no extension).
   */
  function SplitExt(p: Path): (r: (Path, string))
    ensures r.0 + r.1 == p
    ensures r.1 == [] || (r.1[0] == '.' && forall j | 1 <= j < |r.1| :: r.1[j] != '.' && r.1[j] != '/')
    ensures r.1 != [] ==> NonDotBefore(p, |r.0|)
  {
    match LastDotInName(p)
    case None => (p, [])
    case Some(d) => if NonDotBefore(p, d) then (p[..d], p[d..]) else (p, [])
  }

  /** `base<tag><ext>` for `(base, ext) == SplitExt(p)`: a sibling file named after `p`. */
  function Tagged(p: Path, tag: string): (r: Path)
    ensures |r| == |p| + |tag|
    ensures StartsWith(r, SplitExt(p).0 + tag)
  {
    var (base, ext) := SplitExt(p);
    base + tag + ext
  }

  /** A non-empty tag always names a file other than `p`, and two tags of different length name different files. */
  lemma TaggedDiffers(p: Path, tag1: string, tag2: string)
    requires tag1 != []
    requires |tag1| != |tag2|
    ensures Tagged(p, tag1) != p
    ensures Tagged(p, tag1) != Tagged(p, tag2)
  {
  }

  /**
   * `os.path.relpath(path, base)` for a `path` that starts with `base` as a
   * string: `.` for `base` itself, the remainder for a path inside `base`, and
   * a climb out of `base` for a sibling whose name merely begins with
   * `base`'s last component (`/srv/output_old/v.mp4` against `/srv/output`).
   */
  function RelUnder(path: Path, base: Path): (r: Path)
    requires StartsWith(path, base)
  {
    if |path| == |base| then "."
    else if path[|base|] == '/' then path[|base| + 1..]
    else "../" + path[|base| - |Basename(base)|..]
  }

  /** For a path strictly inside `base`, joining `base` with the relative path gives the path back. */
  lemma {:induction false} RelUnderJoin(path: Path, base: Path)
    requires StartsWith(path, base + "/")
    requires !IsAbsolute(path[|base| + 1..])
    requires base != [] && base[|base| - 1] != '/'
    ensures StartsWith(path, base)
    ensures RelUnder(path, base) == path[|base| + 1..]
    ensures Join(base, RelUnder(path, base)) == path
  {
    assert path[..|base|] == (base + "/")[..|base|] == base;
    assert path[|base|] == (base + "/")[|base|] == '/';
    assert path == base + "/" + path[|base| + 1..];
  }
}
