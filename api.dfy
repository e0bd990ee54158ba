/**
 * The web API in front of the pipeline: request validation, naming of the
 * output directory, the default duration window, the choice between the
 * rendered and the adjusted video, the public URL of a video, and the guard
 * that decides which files `GET /video/{path}` may serve.
 *
 * The two POST handlers are methods over the `World`, each tied to a
 * specification function; the clock and the uuid generator are parameters.
 */
module Api {
  import opened Wrappers
  import opened Paths
  import opened Host
  import opened Window
  import opened Video

  // ---------------------------------------------------------------------
  // Request validation: `not text or not text.strip()`
  // ---------------------------------------------------------------------

  /** Python's `str.isspace` for one character: what `str.strip()` removes. */
  predicate IsSpace(c: char) {
    c == ' ' || c == '\t' || c == '\n' || c == '\r' || c == '\U{B}' || c == '\U{C}' ||
    ('\U{1C}' <= c <= '\U{1F}') || c == '\U{85}' || c == '\U{A0}' || c == '\U{1680}' ||
    ('\U{2000}' <= c <= '\U{200A}') || c == '\U{2028}' || c == '\U{2029}' ||
    c == '\U{202F}' || c == '\U{205F}' || c == '\U{3000}'
  }

  /** Every character is whitespace (the empty string included). */
  predicate Blank(s: string) {
    forall i | 0 <= i < |s| :: IsSpace(s[i])
  }

  /** `s.lstrip()`: the suffix left after the leading whitespace. */
  function TrimStart(s: string): (r: string)
    ensures |r| <= |s| && r == s[|s| - |r|..]
    ensures r == [] || !IsSpace(r[0])
    ensures forall i | 0 <= i < |s| - |r| :: IsSpace(s[i])
    decreases |s|
  {
    if s != [] && IsSpace(s[0]) then TrimStart(s[1..]) else s
  }

  /** `s.rstrip()`: the prefix left before the trailing whitespace. */
  function TrimEnd(s: string): (r: string)
    ensures |r| <= |s| && r == s[..|r|]
    ensures r == [] || !IsSpace(r[|r| - 1])
    ensures forall i | |r| <= i < |s| :: IsSpace(s[i])
    decreases |s|
  {
    if s != [] && IsSpace(s[|s| - 1]) then TrimEnd(s[..|s| - 1]) else s
  }

  /** `s.strip()` */
  function Strip(s: string): (r: string) {
    TrimEnd(TrimStart(s))
  }

  /** A string strips to nothing exactly when it is all whitespace. */
  lemma StripEmptyIffBlank(s: string)
    ensures Strip(s) == [] <==> Blank(s)
  {
    var t := TrimStart(s);
    if Strip(s) == [] {
      assert Blank(t);
      assert Blank(s);
    }
  }

  /** The handlers' test on `video_data` / `script`, lines 84 and 212. */
  predicate Rejected(text: string) {
    text == [] || Strip(text) == []
  }

  /** A request text is refused exactly when it is empty or whitespace only. */
  lemma RejectedIffBlank(text: string)
    ensures Rejected(text) <==> Blank(text)
  {
    StripEmptyIffBlank(text);
  }

  // ---------------------------------------------------------------------
  // Output directory: `output/api_<%Y%m%d_%H%M%S>_<uuid[:8]>`
  // ---------------------------------------------------------------------

  /** The fields of `datetime.now()` that `%Y%m%d_%H%M%S` prints. */
  datatype Stamp = Stamp(year: nat, month: nat, day: nat, hour: nat, minute: nat, second: nat)

  predicate ValidStamp(t: Stamp) {
    1 <= t.year <= 9999 && 1 <= t.month <= 12 && 1 <= t.day <= 31 &&
    t.hour < 24 && t.minute < 60 && t.second < 60
  }

  function Pow10(n: nat): (p: nat)
    ensures p >= 1
  {
    if n == 0 then 1 else 10 * Pow10(n - 1)
  }

  predicate IsDigit(c: char) {
    '0' <= c <= '9'
  }

  predicate AllDigits(s: string) {
    forall i | 0 <= i < |s| :: IsDigit(s[i])
  }

  /** `n` in decimal, zero-padded to exactly `width` digits. */
  function Digits(n: nat, width: nat): (r: string)
    requires n < Pow10(width)
    ensures |r| == width && AllDigits(r)
  {
    if width == 0 then []
    else Digits(n / 10, width - 1) + [('0' as int + n % 10) as char]
  }

  /** The number a string of decimal digits denotes. */
  function Value(s: string): nat
    requires AllDigits(s)
  {
    if s == [] then 0
    else 10 * Value(s[..|s| - 1]) + (s[|s| - 1] as int - '0' as int)
  }

  /** Reading back a zero-padded number gives the number. */
  lemma {:induction false} ValueOfDigits(n: nat, width: nat)
    requires n < Pow10(width)
    ensures Value(Digits(n, width)) == n
  {
    if width > 0 {
      var r := Digits(n, width);
      assert r[..|r| - 1] == Digits(n / 10, width - 1);
      ValueOfDigits(n / 10, width - 1);
    }
  }

  /** `strftime("%Y%m%d_%H%M%S")` */
  function FormatStamp(t: Stamp): (r: string)
    requires ValidStamp(t)
    ensures |r| == 15
  {
    Digits(t.year, 4) + Digits(t.month, 2) + Digits(t.day, 2) + "_" +
    Digits(t.hour, 2) + Digits(t.minute, 2) + Digits(t.second, 2)
  }

  /** The inverse of `FormatStamp`: `strptime(r, "%Y%m%d_%H%M%S")` on well-formed text. */
  function ParseStamp(r: string): Option<Stamp> {
    if |r| == 15 && r[8] == '_' && AllDigits(r[..8]) && AllDigits(r[9..]) then
      Some(Stamp(Value(r[..4]), Value(r[4..6]), Value(r[6..8]),
                 Value(r[9..11]), Value(r[11..13]), Value(r[13..15])))
    else None
  }

  /** Every time stamp can be read back from its text. */
  lemma StampRoundTrip(t: Stamp)
    requires ValidStamp(t)
    ensures ParseStamp(FormatStamp(t)) == Some(t)
  {
    var r := FormatStamp(t);
    assert r[..4] == Digits(t.year, 4);
    assert r[4..6] == Digits(t.month, 2);
    assert r[6..8] == Digits(t.day, 2);
    assert r[9..11] == Digits(t.hour, 2);
    assert r[11..13] == Digits(t.minute, 2);
    SecondsSlice(t);
    ValueOfDigits(t.year, 4);
    ValueOfDigits(t.month, 2);
    ValueOfDigits(t.day, 2);
    ValueOfDigits(t.hour, 2);
    ValueOfDigits(t.minute, 2);
    ValueOfDigits(t.second, 2);
    assert r[..8] == Digits(t.year, 4) + Digits(t.month, 2) + Digits(t.day, 2);
    assert r[9..] == Digits(t.hour, 2) + Digits(t.minute, 2) + Digits(t.second, 2);
  }

  /** The last two characters of a stamp's text are its seconds. */
  lemma SecondsSlice(t: Stamp)
    requires ValidStamp(t)
    ensures FormatStamp(t)[13..15] == Digits(t.second, 2)
  {
    var pre := Digits(t.year, 4) + Digits(t.month, 2) + Digits(t.day, 2) + "_" + Digits(t.hour, 2) + Digits(t.minute, 2);
    assert FormatStamp(t) == pre + Digits(t.second, 2);
  }

  /** Python's `s[:n]` */
  function Head(s: string, n: nat): (r: string)
    ensures |r| <= n && StartsWith(s, r)
    ensures |s| >= n ==> |r| == n
  {
    if |s| <= n then s else s[..n]
  }

  /** The directory a request writes into (lines 88-93 and 216-221); `uuid` is `str(uuid.uuid4())`. */
  function OutputDir(requested: Option<string>, t: Stamp, uuid: string): (dir: Path)
    requires ValidStamp(t)
  {
    if requested.Some? && requested.value != [] then requested.value
    else "output/api_" + FormatStamp(t) + "_" + Head(uuid, 8)
  }

  /** Reads the time stamp and the uuid prefix back out of a generated directory name. */
  function ParseAutoDir(dir: Path): Option<(Stamp, string)> {
    if |dir| >= 27 && dir[..11] == "output/api_" && dir[26] == '_' then
      match ParseStamp(dir[11..26])
      case Some(t) => Some((t, dir[27..]))
      case None => None
    else None
  }

  /**
   * A non-empty requested directory is used as given. Otherwise the name
   * lies under `output/` and records the time stamp and the first eight
   * characters of the uuid, both of which can be read back from it.
   */
  lemma OutputDirNaming(requested: Option<string>, t: Stamp, uuid: string)
    requires ValidStamp(t)
    ensures requested.Some? && requested.value != [] ==> OutputDir(requested, t, uuid) == requested.value
    ensures requested.None? || requested.value == [] ==>
      StartsWith(OutputDir(requested, t, uuid), "output/") &&
      ParseAutoDir(OutputDir(requested, t, uuid)) == Some((t, Head(uuid, 8)))
  {
    if requested.None? || requested.value == [] {
      var dir := OutputDir(requested, t, uuid);
      assert dir[..11] == "output/api_";
      assert dir[11..26] == FormatStamp(t);
      assert dir[27..] == Head(uuid, 8);
      StampRoundTrip(t);
    }
  }

  /** Two requests without a directory share one only if stamp and uuid prefix agree. */
  lemma AutoDirsDistinct(t1: Stamp, u1: string, t2: Stamp, u2: string)
    requires ValidStamp(t1) && ValidStamp(t2)
    requires t1 != t2 || Head(u1, 8) != Head(u2, 8)
    ensures OutputDir(None, t1, u1) != OutputDir(None, t2, u2)
  {
    OutputDirNaming(None, t1, u1);
    OutputDirNaming(None, t2, u2);
  }

  // ---------------------------------------------------------------------
  // Default window: `x if x is not None else default`
  // ---------------------------------------------------------------------

  /** The window handed to the duration adjustment (lines 156-157 and 264-265). */
  function DefaultWindow(minReq: Option<real>, maxReq: Option<real>): (w: (real, real)) {
    (minReq.GetOr(60.0), maxReq.GetOr(180.0))
  }

  /**
   * Only a missing bound defaults (to one and three minutes); an explicit 0
   * is kept, and once it reaches the duration adjustment it switches that
   * bound off: a 0 maximum means no ceiling, a 0 minimum no floor.
   */
  lemma ExplicitZeroSwitchesBoundOff(env: Env, s: State, video: Path, minReq: Option<real>, maxReq: Option<real>)
    requires ValidEnv(env)
    ensures DefaultWindow(None, None) == (60.0, 180.0)
    ensures DefaultWindow(Some(0.0), maxReq).0 == 0.0 && DefaultWindow(minReq, Some(0.0)).1 == 0.0
    ensures var (mn, _) := DefaultWindow(minReq, Some(0.0));
      AdjustSpec(env, s, video, Some(mn), Some(0.0)) == AdjustSpec(env, s, video, Some(mn), None)
    ensures var (_, mx) := DefaultWindow(Some(0.0), maxReq);
      AdjustSpec(env, s, video, Some(0.0), Some(mx)) == AdjustSpec(env, s, video, None, Some(mx))
  {
    AdjustZeroMaxIsUnset(env, s, video, Some(DefaultWindow(minReq, Some(0.0)).0));
    AdjustZeroMinIsUnset(env, s, video, Some(DefaultWindow(Some(0.0), maxReq).1));
  }

  // ---------------------------------------------------------------------
  // The public URL of a video and the guard of `GET /video/{path}`
  // ---------------------------------------------------------------------

  /** `os.path.abspath("output")` */
  function OutputBase(env: Env): (base: Path)
    requires ValidEnv(env)
    ensures base != [] && base[|base| - 1] != '/'
  {
    AbsIn(env, "output")
  }

  /** The `video_url` of a response (lines 171-177 and 281-288). */
  function VideoUrl(env: Env, videoPath: Path): (url: string)
    requires ValidEnv(env)
    ensures StartsWith(url, "/video/")
  {
    var abs := AbsIn(env, videoPath);
    var base := OutputBase(env);
    if StartsWith(abs, base) then "/video/" + RelUnder(abs, base)
    else "/video/" + Basename(videoPath)
  }

  /** Why `get_video` refuses a path. */
  datatype Refusal = Traversal | OutsideOutput | NotFound | NotAFile {
    /** The HTTP status of the refusal. */
    function Status(): int {
      if NotFound? then 404 else 400
    }
  }

  /** `p.replace("\\", "/")` */
  function Normalized(p: Path): (r: Path)
    ensures |r| == |p|
    ensures forall i | 0 <= i < |p| :: r[i] == if p[i] == '\\' then '/' else p[i]
  {
    seq(|p|, i requires 0 <= i < |p| => if p[i] == '\\' then '/' else p[i])
  }

  /** A path without backslashes is left as it is. */
  lemma NormalizedKeepsSlashes(p: Path)
    requires forall i | 0 <= i < |p| :: p[i] != '\\'
    ensures Normalized(p) == p
  {
  }

  /** The absolute file a request path names: `abspath(join("output", normalized))`. */
  function Resolved(env: Env, p: Path): (abs: Path)
    requires ValidEnv(env)
  {
    AbsIn(env, Join("output", Normalized(p)))
  }

  /** The checks of `get_video` in their order, given the containment test they use. */
  function Guarded(env: Env, s: State, p: Path, inside: bool): (r: Result<Path, Refusal>)
    requires ValidEnv(env)
  {
    var abs := Resolved(env, p);
    if Contains(p, "..") then Failure(Traversal)
    else if !inside then Failure(OutsideOutput)
    else if !Exists(env, s, abs) then Failure(NotFound)
    else if !IsFile(env, s, abs) then Failure(NotAFile)
    else Success(abs)
  }

  /**
   * `get_video` as written (lines 322-343): the containment test is a plain
   * string prefix test, so a sibling such as `output_old` passes it.
   */
  function GetVideoAsWritten(env: Env, s: State, p: Path): (r: Result<Path, Refusal>)
    requires ValidEnv(env)
    ensures r.Success? ==> StartsWith(r.value, OutputBase(env)) && IsFile(env, s, r.value)
  {
    Guarded(env, s, p, StartsWith(Resolved(env, p), OutputBase(env)))
  }

  /** `path` is `base` or lies below it. */
  predicate Inside(path: Path, base: Path) {
    path == base || StartsWith(path, base + "/")
  }

  /** `get_video` with the containment test it evidently intends: the output folder or below. */
  function GetVideo(env: Env, s: State, p: Path): (r: Result<Path, Refusal>)
    requires ValidEnv(env)
    ensures r.Success? ==> Inside(r.value, OutputBase(env)) && IsFile(env, s, r.value)
  {
    Guarded(env, s, p, Inside(Resolved(env, p), OutputBase(env)))
  }

  /**
   * The as-written guard serves files outside the output folder: a request
   * for an absolute path into a sibling folder whose name merely extends
   * `output` (with the server in `/srv`, `/srv/output_old/v.mp4`) has no
   * `..`, survives `join("output", ...)` because it is absolute, and starts
   * with `abspath("output")`. The corrected guard refuses it.
   */
  lemma AsWrittenServesSiblingFolder(env: Env, s: State, p: Path)
    requires ValidEnv(env)
    requires StartsWith(p, OutputBase(env)) && |p| > |OutputBase(env)| && p[|OutputBase(env)|] != '/'
    requires !Contains(p, "..") && forall i | 0 <= i < |p| :: p[i] != '\\'
    requires IsFile(env, s, p)
    ensures !Inside(p, OutputBase(env))
    ensures GetVideoAsWritten(env, s, p) == Success(p)
    ensures GetVideo(env, s, p) == Failure(OutsideOutput)
  {
    var base := OutputBase(env);
    NormalizedKeepsSlashes(p);
    assert Resolved(env, p) == p;
    assert !StartsWith(p, base + "/") by {
      assert (base + "/")[|base|] == '/';
    }
    GuardedServes(env, s, p, true);
    GuardedOutside(env, s, p);
  }

  /** A request passing the `..` test and the containment test gets its file when it is one. */
  lemma GuardedServes(env: Env, s: State, p: Path, inside: bool)
    requires ValidEnv(env)
    requires !Contains(p, "..") && inside && IsFile(env, s, Resolved(env, p))
    ensures Guarded(env, s, p, inside) == Success(Resolved(env, p))
  {
    AbsIdempotent(env.cwd, Join("output", Normalized(p)));
  }

  /** A request passing the `..` test and failing the containment test is refused as outside. */
  lemma GuardedOutside(env: Env, s: State, p: Path)
    requires ValidEnv(env)
    requires !Contains(p, "..")
    ensures Guarded(env, s, p, false) == Failure(OutsideOutput)
  {
  }

  /**
   * Whatever `GET /video/{path}` serves is a regular file in the output
   * folder or below, reached without `..`; and every such file is served.
   */
  lemma GetVideoServesOnlyOutputFiles(env: Env, s: State, p: Path)
    requires ValidEnv(env)
    ensures GetVideo(env, s, p).Success? <==>
      !Contains(p, "..") && Inside(Resolved(env, p), OutputBase(env)) && IsFile(env, s, Resolved(env, p))
    ensures GetVideo(env, s, p).Success? ==> GetVideo(env, s, p).value == Resolved(env, p)
    ensures GetVideo(env, s, p).Failure? && GetVideo(env, s, p).error == NotFound ==> !Exists(env, s, Resolved(env, p))
  {
    AbsIdempotent(env.cwd, Resolved(env, p));
  }

  /** Being inside a folder implies starting with its name. */
  lemma InsideStartsWith(path: Path, base: Path)
    requires Inside(path, base)
    ensures StartsWith(path, base)
  {
    if path != base {
      assert path[..|base|] == (base + "/")[..|base|];
    }
  }

  /** The corrected guard only narrows the as-written one: it serves nothing the code would refuse. */
  lemma GetVideoNarrowsAsWritten(env: Env, s: State, p: Path)
    requires ValidEnv(env)
    ensures GetVideo(env, s, p).Success? ==> GetVideoAsWritten(env, s, p) == GetVideo(env, s, p)
    ensures GetVideoAsWritten(env, s, p).Failure? ==> GetVideo(env, s, p).Failure?
  {
    var abs := Resolved(env, p);
    var base := OutputBase(env);
    if Inside(abs, base) {
      InsideStartsWith(abs, base);
    }
  }

  /**
   * A video inside the output folder gets the URL `/video/<path below
   * output>`, and requesting that URL serves the same file back, provided
   * the part below `output` has no `..`, no backslash and no leading slash.
   */
  lemma UrlServesTheVideo(env: Env, s: State, videoPath: Path)
    requires ValidEnv(env)
    requires StartsWith(AbsIn(env, videoPath), OutputBase(env) + "/")
    requires var rel := AbsIn(env, videoPath)[|OutputBase(env)| + 1..];
      !IsAbsolute(rel) && !Contains(rel, "..") && forall i | 0 <= i < |rel| :: rel[i] != '\\'
    requires IsFile(env, s, videoPath)
    ensures var rel := AbsIn(env, videoPath)[|OutputBase(env)| + 1..];
      VideoUrl(env, videoPath) == "/video/" + rel &&
      GetVideo(env, s, rel) == Success(AbsIn(env, videoPath))
  {
    var abs := AbsIn(env, videoPath);
    var rel := abs[|OutputBase(env)| + 1..];
    RelUnderJoin(abs, OutputBase(env));
    ResolvedBelowOutput(env, abs);
    assert Resolved(env, rel) == abs;
    AbsIdempotent(env.cwd, videoPath);
  }

  /** The part of an absolute path below the output folder resolves back to that path. */
  lemma ResolvedBelowOutput(env: Env, abs: Path)
    requires ValidEnv(env)
    requires StartsWith(abs, OutputBase(env) + "/")
    requires var rel := abs[|OutputBase(env)| + 1..];
      !IsAbsolute(rel) && forall i | 0 <= i < |rel| :: rel[i] != '\\'
    ensures Resolved(env, abs[|OutputBase(env)| + 1..]) == abs
  {
    var rel := abs[|OutputBase(env)| + 1..];
    RelUnderJoin(abs, OutputBase(env));
    NormalizedKeepsSlashes(rel);
    assert Join("output", rel)[0] == 'o';
    JoinNested(env.cwd, "output", rel);
  }

  // ---------------------------------------------------------------------
  // The POST handlers
  // ---------------------------------------------------------------------

  /** The `message` of a response; `Generated` carries the window that was applied. */
  datatype Message =
    | Generated(minD: real, maxD: real)   // "Video generated successfully (duration: <min>-<max>s)"
    | RenderingFailed                     // no video after rendering
    | GenerationError                     // an exception during generation or rendering
    | SaveFailed                          // the script could not be saved
    | SyntaxErrors                        // scene extraction reported an error
    | NoScenes                            // the script has no Scene class
    | WorkingCodeMissing                  // the review cycles produced no working code

  /** What a POST handler answers: an HTTP error or a `VideoResponse`. */
  datatype Reply =
    | HttpError(status: int)
    | Response(success: bool, videoPath: Option<Path>, videoUrl: Option<string>, message: Message)

  /** The file name both handlers save the script under, relative to the output directory. */
  const ScriptName := "video.py"
  const FinalName := "final_video.mp4"

  /**
   * Lines 161-168 and 269-278: the adjusted video replaces the rendered one
   * only when it is given, exists and is another file; the rendered one is
   * then removed, a failed removal being ignored.
   */
  function ChooseVideo(env: Env, s: State, video: Path, adjusted: Option<Path>): (r: (Path, State))
    requires ValidEnv(env)
    ensures r.0 == video || (adjusted == Some(r.0) && r.0 != video && Exists(env, s, r.0))
    ensures r.0 == video ==> r.1 == s
    ensures r.1.log == s.log && r.1.dirs == s.dirs
  {
    if adjusted.Some? && adjusted.value != [] && Exists(env, s, adjusted.value) && adjusted.value != video then
      (adjusted.value, if Exists(env, s, video) then RemoveStep(env, s, video) else s)
    else (video, s)
  }

  /** The tail both handlers share (lines 154-190 and 262-301), after rendering. */
  function FinishSpec(env: Env, s: State, rendered: Option<Path>, minReq: Option<real>, maxReq: Option<real>): (r: (Reply, State))
    requires ValidEnv(env)
    ensures r.0.Response?
    ensures r.0.success <==> rendered.Some? && rendered.value != [] && Exists(env, s, rendered.value)
    ensures !r.0.success ==> r.1 == s
  {
    if rendered.None? || rendered.value == [] || !Exists(env, s, rendered.value) then
      (Response(false, None, None, RenderingFailed), s)
    else
      var video := rendered.value;
      var (mn, mx) := DefaultWindow(minReq, maxReq);
      var (adjusted, s1) := AdjustSpec(env, s, video, Some(mn), Some(mx));
      var (chosen, s2) := ChooseVideo(env, s1, video, adjusted);
      (Response(true, Some(AbsIn(env, chosen)), Some(VideoUrl(env, chosen)), Generated(mn, mx)), s2)
  }

  /** Rendering a saved script and finishing the request (lines 146 and 154-197, 259-307). */
  function RenderThenFinish(env: Env, s: State, file: Path, dir: Path, minReq: Option<real>, maxReq: Option<real>): (r: (Reply, State))
    requires ValidEnv(env)
    ensures r.0.Response?
    ensures s.log + [Render(file, dir)] <= r.1.log
  {
    var (rendered, s1) := RenderSpec(env, s, file, dir, FinalName);
    if rendered.Raised? then (Response(false, None, None, GenerationError), s1)
    else FinishSpec(env, s1, rendered.value, minReq, maxReq)
  }

  /** `POST /generate/script` after the output directory exists (lines 226-307). */
  function ScriptInDir(env: Env, s: State, script: string, dir: Path, minReq: Option<real>, maxReq: Option<real>): (r: (Reply, State))
    requires ValidEnv(env)
    ensures r.0.Response?
    ensures s.log + [Save(Join(dir, ScriptName))] <= r.1.log
  {
    var file := Join(dir, ScriptName);
    var (saved, s1) := SaveStep(env, s, script, file);
    if !saved then (Response(false, None, None, SaveFailed), s1)
    else match env.tools.scenes(script)
      case Failure(_) => (Response(false, None, None, SyntaxErrors), s1)
      case Success(names) =>
        if names == [] then (Response(false, None, None, NoScenes), s1)
        else RenderThenFinish(env, s1, file, dir, minReq, maxReq)
  }

  /** `POST /generate/script` (lines 212-307). */
  function ScriptSpec(env: Env, s: State, script: string, outReq: Option<string>, t: Stamp, uuid: string,
                      minReq: Option<real>, maxReq: Option<real>): (r: (Reply, State))
    requires ValidEnv(env)
    requires ValidStamp(t)
    ensures r.0.HttpError? ==> r.0.status in {400, 500} && r.1.log == s.log
  {
    if Rejected(script) then (HttpError(400), s)
    else
      var dir := OutputDir(outReq, t, uuid);
      var (made, s1) := MakeDirsStep(env, s, dir);
      if !made then (HttpError(500), s1)
      else ScriptInDir(env, s1, script, dir, minReq, maxReq)
  }

  /** `POST /generate` after the output directory exists (lines 118-197); the workflow is the `generated` oracle. */
  function DescriptionInDir(env: Env, s: State, description: string, dir: Path, minReq: Option<real>, maxReq: Option<real>): (r: (Reply, State))
    requires ValidEnv(env)
    ensures r.0.Response?
    ensures s.log + [Generate(description)] <= r.1.log
  {
    var (generation, s1) := GenerateStep(env, s, description);
    match generation
    case Crashed => (Response(false, None, None, GenerationError), s1)
    case NoWorkingCode => (Response(false, None, None, WorkingCodeMissing), s1)
    case Code(code) =>
      // an empty script is falsy, and refused like no script at all
      if code == [] then (Response(false, None, None, WorkingCodeMissing), s1)
      else
        var file := dir + "/" + ScriptName;
        var (saved, s2) := SaveStep(env, s1, code, file);
        if !saved then (Response(false, None, None, GenerationError), s2)
        else RenderThenFinish(env, s2, file, dir, minReq, maxReq)
  }

  /** `POST /generate` (lines 84-197). */
  function DescriptionSpec(env: Env, s: State, description: string, outReq: Option<string>, t: Stamp, uuid: string,
                           minReq: Option<real>, maxReq: Option<real>): (r: (Reply, State))
    requires ValidEnv(env)
    requires ValidStamp(t)
    ensures r.0.HttpError? ==> r.0.status in {400, 500} && r.1.log == s.log
  {
    if Rejected(description) then (HttpError(400), s)
    else
      var dir := OutputDir(outReq, t, uuid);
      var (made, s1) := MakeDirsStep(env, s, dir);
      if !made then (HttpError(500), s1)
      else DescriptionInDir(env, s1, description, dir, minReq, maxReq)
  }

  // ---------------------------------------------------------------------
  // What the handlers guarantee
  // ---------------------------------------------------------------------

  /**
   * Both handlers answer 400 exactly when the text is empty or whitespace
   * only, and then before touching the filesystem or calling anything.
   */
  lemma BlankRequestRejectedFirst(env: Env, s: State, text: string, outReq: Option<string>, t: Stamp, uuid: string,
                                  minReq: Option<real>, maxReq: Option<real>)
    requires ValidEnv(env)
    requires ValidStamp(t)
    ensures ScriptSpec(env, s, text, outReq, t, uuid, minReq, maxReq).0 == HttpError(400) <==> Blank(text)
    ensures DescriptionSpec(env, s, text, outReq, t, uuid, minReq, maxReq).0 == HttpError(400) <==> Blank(text)
    ensures Blank(text) ==> ScriptSpec(env, s, text, outReq, t, uuid, minReq, maxReq).1 == s
    ensures Blank(text) ==> DescriptionSpec(env, s, text, outReq, t, uuid, minReq, maxReq).1 == s
  {
    RejectedIffBlank(text);
  }

  /**
   * A script whose scene extraction reports an error, or finds no scene,
   * gets a failure response and is never rendered: the only call made is
   * saving it.
   */
  lemma SceneCheckPrecedesRender(env: Env, s: State, script: string, outReq: Option<string>, t: Stamp, uuid: string,
                                 minReq: Option<real>, maxReq: Option<real>)
    requires ValidEnv(env)
    requires ValidStamp(t)
    requires env.tools.scenes(script).Failure? || env.tools.scenes(script) == Success([])
    ensures var (reply, s') := ScriptSpec(env, s, script, outReq, t, uuid, minReq, maxReq);
      (reply.Response? ==> !reply.success) &&
      (s'.log == s.log || s'.log == s.log + [Save(Join(OutputDir(outReq, t, uuid), ScriptName))])
  {
    if !Rejected(script) {
      var dir := OutputDir(outReq, t, uuid);
      var (made, s1) := MakeDirsStep(env, s, dir);
      if made {
        var (saved, s2) := SaveStep(env, s1, script, Join(dir, ScriptName));
        assert ScriptInDir(env, s1, script, dir, minReq, maxReq).1 == s2;
      }
    }
  }

  /**
   * When the review cycles leave no working code, or only an empty script,
   * `POST /generate` answers WorkingCodeMissing and neither saves nor renders
   * anything: the generation is the last call made.
   */
  lemma NoCodeNothingSaved(env: Env, s: State, description: string, dir: Path, minReq: Option<real>, maxReq: Option<real>)
    requires ValidEnv(env)
    requires var g := env.tools.generated(description, |s.log|); g.NoWorkingCode? || g == Code([])
    ensures DescriptionInDir(env, s, description, dir, minReq, maxReq) ==
      (Response(false, None, None, WorkingCodeMissing), s.(log := s.log + [Generate(description)]))
  {
  }

  /** An adjusted video that is a regular file, other than the original in name and on disk, is the one chosen. */
  lemma ChooseAdjustedFile(env: Env, s: State, video: Path, adjusted: Path)
    requires ValidEnv(env)
    requires adjusted != [] && IsFile(env, s, adjusted)
    requires adjusted != video ==> AbsIn(env, adjusted) != AbsIn(env, video)
    ensures var (chosen, s') := ChooseVideo(env, s, video, Some(adjusted));
      chosen == adjusted && IsFile(env, s', adjusted) && (adjusted != video ==> !IsFile(env, s', video))
  {
  }

  /**
   * Once rendering produced a video: the response is a success even when
   * the adjustment fails. When the adjustment returns a video, that video
   * is the one reported, it is a regular file, and if it is not the
   * rendered video the rendered video is gone.
   */
  lemma FinishReportsAdjustedVideo(env: Env, s: State, video: Path, minReq: Option<real>, maxReq: Option<real>)
    requires ValidEnv(env)
    requires video != [] && Exists(env, s, video)
    ensures var (mn, mx) := DefaultWindow(minReq, maxReq);
      var (adjusted, _) := AdjustSpec(env, s, video, Some(mn), Some(mx));
      var (reply, s') := FinishSpec(env, s, Some(video), minReq, maxReq);
      reply.Response? && reply.success && reply.message == Generated(mn, mx) &&
      (adjusted.None? ==> reply.videoPath == Some(AbsIn(env, video))) &&
      (adjusted.Some? ==>
        reply.videoPath == Some(AbsIn(env, adjusted.value)) &&
        reply.videoUrl == Some(VideoUrl(env, adjusted.value)) &&
        IsFile(env, s', adjusted.value) &&
        (adjusted.value != video ==> !IsFile(env, s', video)))
  {
    var (mn, mx) := DefaultWindow(minReq, maxReq);
    var (adjusted, s1) := AdjustSpec(env, s, video, Some(mn), Some(mx));
    AdjustLeavesOnlyResult(env, s, video, Some(mn), Some(mx));
    if adjusted.Some? {
      AdjustPathsDistinct(env, video);
      assert |AdjustedPath(video)| > 0 && |FinalPath(video)| > 0;
      ChooseAdjustedFile(env, s1, video, adjusted.value);
    }
  }

  // ---------------------------------------------------------------------
  // The handlers, step by step over the machine
  // ---------------------------------------------------------------------

  method ChooseVideoIn(w: World, video: Path, adjusted: Option<Path>) returns (chosen: Path)
    requires ValidEnv(w.env)
    modifies w
    ensures (chosen, w.Now()) == ChooseVideo(w.env, old(w.Now()), video, adjusted)
  {
    chosen := video;
    if adjusted.Some? && adjusted.value != [] {
      var there := w.PathExists(adjusted.value);
      if there && adjusted.value != video {
        var old_there := w.PathExists(video);
        if old_there {
          w.Remove(video);
        }
        chosen := adjusted.value;
      }
    }
  }

  method Finish(w: World, rendered: Option<Path>, minReq: Option<real>, maxReq: Option<real>) returns (reply: Reply)
    requires ValidEnv(w.env)
    modifies w
    ensures (reply, w.Now()) == FinishSpec(w.env, old(w.Now()), rendered, minReq, maxReq)
  {
    if rendered.None? || rendered.value == [] {
      return Response(false, None, None, RenderingFailed);
    }
    var video := rendered.value;
    var there := w.PathExists(video);
    if !there {
      return Response(false, None, None, RenderingFailed);
    }
    var (mn, mx) := DefaultWindow(minReq, maxReq);
    var adjusted := AdjustVideoDuration(w, video, Some(mn), Some(mx));
    var chosen := ChooseVideoIn(w, video, adjusted);
    reply := Response(true, Some(AbsIn(w.env, chosen)), Some(VideoUrl(w.env, chosen)), Generated(mn, mx));
  }

  method GenerateVideoFromScript(w: World, script: string, outReq: Option<string>, t: Stamp, uuid: string,
                                 minReq: Option<real>, maxReq: Option<real>) returns (reply: Reply)
    requires ValidEnv(w.env)
    requires ValidStamp(t)
    modifies w
    ensures (reply, w.Now()) == ScriptSpec(w.env, old(w.Now()), script, outReq, t, uuid, minReq, maxReq)
  {
    if Rejected(script) {
      return HttpError(400);
    }
    var dir := OutputDir(outReq, t, uuid);
    var made := w.MakeDirs(dir);
    if !made {
      return HttpError(500);
    }
    ghost var s1 := w.Now();
    assert ScriptSpec(w.env, old(w.Now()), script, outReq, t, uuid, minReq, maxReq) ==
      ScriptInDir(w.env, s1, script, dir, minReq, maxReq);
    var file := Join(dir, ScriptName);
    var saved := w.Save(script, file);
    if !saved {
      return Response(false, None, None, SaveFailed);
    }
    var names := w.env.tools.scenes(script);
    if names.Failure? {
      return Response(false, None, None, SyntaxErrors);
    }
    if names.value == [] {
      return Response(false, None, None, NoScenes);
    }
    assert ScriptInDir(w.env, s1, script, dir, minReq, maxReq) ==
      RenderThenFinish(w.env, w.Now(), file, dir, minReq, maxReq);
    var rendered := RenderAndConcat(w, file, dir, FinalName);
    if rendered.Raised? {
      return Response(false, None, None, GenerationError);
    }
    reply := Finish(w, rendered.value, minReq, maxReq);
  }

  method GenerateVideoFromDescription(w: World, description: string, outReq: Option<string>, t: Stamp, uuid: string,
                                      minReq: Option<real>, maxReq: Option<real>) returns (reply: Reply)
    requires ValidEnv(w.env)
    requires ValidStamp(t)
    modifies w
    ensures (reply, w.Now()) == DescriptionSpec(w.env, old(w.Now()), description, outReq, t, uuid, minReq, maxReq)
  {
    if Rejected(description) {
      return HttpError(400);
    }
    var dir := OutputDir(outReq, t, uuid);
    var made := w.MakeDirs(dir);
    if !made {
      return HttpError(500);
    }
    var generation := w.Generate(description);
    if generation.Crashed? {
      return Response(false, None, None, GenerationError);
    }
    if generation.NoWorkingCode? || generation.code == [] {
      return Response(false, None, None, WorkingCodeMissing);
    }
    var file := dir + "/" + ScriptName;
    var saved := w.Save(generation.code, file);
    if !saved {
      return Response(false, None, None, GenerationError);
    }
    var rendered := RenderAndConcat(w, file, dir, FinalName);
    if rendered.Raised? {
      return Response(false, None, None, GenerationError);
    }
    reply := Finish(w, rendered.value, minReq, maxReq);
  }
}
