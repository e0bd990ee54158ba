/**
 * src/manim_generator/utils/video.py: rendering and concatenating scenes,
 * and bringing a video's duration into a `[min, max]` window by looping and
 * trimming with ffmpeg.
 *
 * Each operation is a method over the `World` whose contract ties its result
 * and the new machine state to a specification function of the old state;
 * the lemmas below state what the functions guarantee.
 */
module Video {
  import opened Wrappers
  import opened Paths
  import opened Host
  import opened Window

  /** One line of an ffmpeg concat manifest (each line is written followed by a newline). */
  function FileLine(p: Path): (line: string)
    ensures StartsWith(line, "file '") && EndsWith(line, "'")
    ensures |line| == |p| + 7 && line[6..|line| - 1] == p
  {
    "file '" + p + "'"
  }

  /** The temporary concat manifest that extension writes next to its output. */
  function ManifestFor(output: Path): Path {
    output + ".concat.txt"
  }

  /** The `n` identical manifest lines that loop `absInput` `n` times. */
  function LoopLines(absInput: Path, n: nat): (lines: seq<string>)
    ensures |lines| == n && forall i | 0 <= i < n :: lines[i] == FileLine(absInput)
  {
    Repeat(FileLine(absInput), n)
  }

  // ---------------------------------------------------------------------
  // trim_video_to_duration and extend_video_to_duration
  // ---------------------------------------------------------------------

  /** `trim_video_to_duration`: true exactly when ffmpeg exits with status 0. */
  function TrimSpec(env: Env, s: State, input: Path, output: Path, target: real): (r: (bool, State))
    requires ValidEnv(env)
    ensures r.1.log == s.log + [Trim(input, target, output)]
    ensures r.0 ==> r.1.files == s.files[AbsIn(env, output) := Media]
  {
    var (status, s1) := RunStep(env, s, Trim(input, target, output));
    (status == 0, s1)
  }

  /** The file an overshooting loop result is trimmed into: `<base>_trimmed<ext>` next to it. */
  function TrimScratch(output: Path): Path {
    Tagged(output, "_trimmed")
  }

  /** The scratch file and the file it replaces are different files. */
  lemma ScratchIsAnotherFile(env: Env, output: Path)
    requires ValidEnv(env)
    ensures AbsIn(env, TrimScratch(output)) != AbsIn(env, output)
  {
    TaggedKeepsKind(output, "_trimmed");
    LengthsSeparateAbs(env, TrimScratch(output), output);
  }

  /**
   * Trimming an overshooting loop result back to `target`: ffmpeg writes the
   * trimmed copy to a scratch file, which then replaces the looped file.
   */
  function OvershootTrim(env: Env, s: State, output: Path, target: real): (r: (bool, State))
    requires ValidEnv(env)
    ensures r.1.log == s.log + [Trim(output, target, TrimScratch(output))] && r.1.dirs == s.dirs
    ensures r.0 == (env.tools.status(Trim(output, target, TrimScratch(output)), |s.log|) == 0)
    ensures r.0 ==> IsFile(env, r.1, output) && !IsFile(env, r.1, TrimScratch(output))
    ensures r.0 ==> forall q | q in r.1.files :: q in s.files || q == AbsIn(env, output)
    ensures !r.0 ==> r.1.files == s.files
  {
    var scratch := TrimScratch(output);
    ScratchIsAnotherFile(env, output);
    var (ok, s1) := TrimSpec(env, s, output, scratch, target);
    if !ok then (false, s1) else ReplaceStep(env, s1, scratch, output)
  }

  /** `extend_video_to_duration` once the input has probed at `0 < current < target`. */
  function LoopSpec(env: Env, s: State, input: Path, output: Path, target: real, current: real): (r: (bool, State))
    requires ValidEnv(env)
    requires 0.0 < current < target
    ensures s.log <= r.1.log
  {
    var list := ManifestFor(output);
    var s1 := WriteListStep(env, s, list, LoopLines(AbsIn(env, input), LoopsNeeded(target, current)));
    var (status, s2) := RunStep(env, s1, Concat(list, ListedAt(env, s1, list), output));
    var s3 := RemoveStep(env, s2, list);
    if status != 0 then (false, s3)
    else
      var (d, s4) := ProbeStep(env, s3, output);
      if d.Some? && d.value != 0.0 && d.value > target then OvershootTrim(env, s4, output, target)
      else (true, s4)
  }

  /**
   * `extend_video_to_duration`: an input already long enough is copied; a
   * zero-length input ends in the catch-all (division by zero); otherwise
   * the input is looped and an overshoot trimmed back.
   */
  function ExtendSpec(env: Env, s: State, input: Path, output: Path, target: real): (r: (bool, State))
    requires ValidEnv(env)
    ensures s.log + [Probe(input)] <= r.1.log
  {
    var (d, s1) := ProbeStep(env, s, input);
    if d.None? then (false, s1)
    else if d.value >= target then CopyStep(env, s1, input, output)
    else if d.value == 0.0 then (false, s1)
    else LoopSpec(env, s1, input, output, target, d.value)
  }

  /** The loop as written: an overshoot is trimmed with ffmpeg reading and writing the same path. */
  function LoopSpecAsWritten(env: Env, s: State, input: Path, output: Path, target: real, current: real): (r: (bool, State))
    requires ValidEnv(env)
    requires 0.0 < current < target
    ensures s.log <= r.1.log
  {
    var list := ManifestFor(output);
    var s1 := WriteListStep(env, s, list, LoopLines(AbsIn(env, input), LoopsNeeded(target, current)));
    var (status, s2) := RunStep(env, s1, Concat(list, ListedAt(env, s1, list), output));
    var s3 := RemoveStep(env, s2, list);
    if status != 0 then (false, s3)
    else
      var (d, s4) := ProbeStep(env, s3, output);
      if d.Some? && d.value != 0.0 && d.value > target then TrimSpec(env, s4, output, output, target)
      else (true, s4)
  }

  /** `extend_video_to_duration` as written, with the in-place trim. */
  function ExtendSpecAsWritten(env: Env, s: State, input: Path, output: Path, target: real): (r: (bool, State))
    requires ValidEnv(env)
    ensures s.log + [Probe(input)] <= r.1.log
  {
    var (d, s1) := ProbeStep(env, s, input);
    if d.None? then (false, s1)
    else if d.value >= target then CopyStep(env, s1, input, output)
    else if d.value == 0.0 then (false, s1)
    else LoopSpecAsWritten(env, s1, input, output, target, d.value)
  }

  // ---------------------------------------------------------------------
  // adjust_video_duration
  // ---------------------------------------------------------------------

  /** Distinct paths of the same kind (both relative or both absolute) and different length resolve to distinct files. */
  lemma LengthsSeparateAbs(env: Env, p: Path, q: Path)
    requires ValidEnv(env)
    requires IsAbsolute(p) == IsAbsolute(q)
    requires |p| != |q|
    ensures AbsIn(env, p) != AbsIn(env, q)
  {
  }

  /** `<base>_adjusted<ext>`: where extension writes. */
  function AdjustedPath(video: Path): Path {
    Tagged(video, "_adjusted")
  }

  /** `<base>_final<ext>`: where trimming writes. */
  function FinalPath(video: Path): Path {
    Tagged(video, "_final")
  }

  /** The trim step of `adjust_video_duration`, on `path` whose duration is `current`. */
  function TrimPhase(env: Env, s: State, original: Path, path: Path, maxD: Option<real>, current: real): (r: (Option<Path>, State))
    requires ValidEnv(env)
    ensures s.log <= r.1.log
  {
    if TrimDue(maxD, current) then
      var final := FinalPath(original);
      var (ok, s1) := TrimSpec(env, s, path, final, maxD.value);
      if !ok then (None, s1)
      else (Some(final), if path != final && Exists(env, s1, path) then RemoveStep(env, s1, path) else s1)
    else (Some(path), s)
  }

  /** The extension step of `adjust_video_duration`, followed by its trim step. */
  function ExtendPhase(env: Env, s: State, video: Path, minD: Option<real>, maxD: Option<real>, current: real): (r: (Option<Path>, State))
    requires ValidEnv(env)
    requires TooShort(minD, current)
    ensures ExtendSpec(env, s, video, AdjustedPath(video), ExtendTarget(minD, maxD)).1.log <= r.1.log
  {
    var temp := AdjustedPath(video);
    var (ok, s1) := ExtendSpec(env, s, video, temp, ExtendTarget(minD, maxD));
    if !ok then (None, s1)
    else if Exists(env, s1, temp) then
      var s2 := if video != temp then RemoveStep(env, s1, video) else s1;
      var (d, s3) := ProbeStep(env, s2, temp);
      if d.None? then (None, s3)
      else TrimPhase(env, s3, video, temp, maxD, d.value)
    else TrimPhase(env, s1, video, video, maxD, current)
  }

  /** `adjust_video_duration(video, minD, maxD)`: the path of the adjusted video, or None. */
  function AdjustSpec(env: Env, s: State, video: Path, minD: Option<real>, maxD: Option<real>): (r: (Option<Path>, State))
    requires ValidEnv(env)
    ensures s.log <= r.1.log
  {
    if minD.None? && maxD.None? then (Some(video), s)
    else
      var (d, s1) := ProbeStep(env, s, video);
      if d.None? then (None, s1)
      else if OnlyMaxAndWithin(minD, maxD, d.value) then (Some(video), s1)
      else if !NeedsAdjustment(minD, maxD, d.value) then (Some(video), s1)
      else if TooShort(minD, d.value) then ExtendPhase(env, s1, video, minD, maxD, d.value)
      else TrimPhase(env, s1, video, video, maxD, d.value)
  }

  /** The extension step as written, on top of `ExtendSpecAsWritten`. */
  function ExtendPhaseAsWritten(env: Env, s: State, video: Path, minD: Option<real>, maxD: Option<real>, current: real): (r: (Option<Path>, State))
    requires ValidEnv(env)
    requires TooShort(minD, current)
    ensures ExtendSpecAsWritten(env, s, video, AdjustedPath(video), ExtendTarget(minD, maxD)).1.log <= r.1.log
  {
    var temp := AdjustedPath(video);
    var (ok, s1) := ExtendSpecAsWritten(env, s, video, temp, ExtendTarget(minD, maxD));
    if !ok then (None, s1)
    else if Exists(env, s1, temp) then
      var s2 := if video != temp then RemoveStep(env, s1, video) else s1;
      var (d, s3) := ProbeStep(env, s2, temp);
      if d.None? then (None, s3)
      else TrimPhase(env, s3, video, temp, maxD, d.value)
    else TrimPhase(env, s1, video, video, maxD, current)
  }

  /** `adjust_video_duration` as written, with the in-place overshoot trim of the extension. */
  function AdjustSpecAsWritten(env: Env, s: State, video: Path, minD: Option<real>, maxD: Option<real>): (r: (Option<Path>, State))
    requires ValidEnv(env)
    ensures s.log <= r.1.log
  {
    if minD.None? && maxD.None? then (Some(video), s)
    else
      var (d, s1) := ProbeStep(env, s, video);
      if d.None? then (None, s1)
      else if OnlyMaxAndWithin(minD, maxD, d.value) then (Some(video), s1)
      else if !NeedsAdjustment(minD, maxD, d.value) then (Some(video), s1)
      else if TooShort(minD, d.value) then ExtendPhaseAsWritten(env, s1, video, minD, maxD, d.value)
      else TrimPhase(env, s1, video, video, maxD, d.value)
  }

  // ---------------------------------------------------------------------
  // render_and_concat
  // ---------------------------------------------------------------------

  /** The folder manim writes `-qh` renders of `script` to: `<media>/videos/<script stem>/1080p60`. */
  function VideosDir(mediaDir: Path, script: Path): Path {
    Join(Join(Join(mediaDir, "videos"), SplitExt(Basename(script)).0), "1080p60")
  }

  /** Where manim writes the scene named `scene`. */
  function ScenePath(videosDir: Path, scene: string): Path {
    Join(videosDir, scene + ".mp4")
  }

  /** The concat manifest for `scenes`: one line per scene, in the given order. */
  function SceneLines(env: Env, videosDir: Path, scenes: seq<string>): (lines: seq<string>)
    requires ValidEnv(env)
    ensures |lines| == |scenes|
    ensures forall i | 0 <= i < |scenes| :: lines[i] == FileLine(AbsIn(env, ScenePath(videosDir, scenes[i])))
  {
    seq(|scenes|, i requires 0 <= i < |scenes| => FileLine(AbsIn(env, ScenePath(videosDir, scenes[i]))))
  }

  /** The scenes, in order, whose rendered file is not on disk (each gets a warning). */
  function MissingScenes(env: Env, s: State, videosDir: Path, scenes: seq<string>): (missing: seq<string>)
    requires ValidEnv(env)
    ensures |missing| <= |scenes|
  {
    if scenes == [] then []
    else
      var last := scenes[|scenes| - 1];
      MissingScenes(env, s, videosDir, scenes[..|scenes| - 1])
        + if Exists(env, s, ScenePath(videosDir, last)) then [] else [last]
  }

  /** The warnings name exactly the scenes whose file is missing. */
  lemma {:induction false} MissingScenesExactly(env: Env, s: State, videosDir: Path, scenes: seq<string>, x: string)
    requires ValidEnv(env)
    ensures x in MissingScenes(env, s, videosDir, scenes) <==> x in scenes && !Exists(env, s, ScenePath(videosDir, x))
  {
    if scenes != [] {
      var init := scenes[..|scenes| - 1];
      MissingScenesExactly(env, s, videosDir, init, x);
      assert scenes == init + [scenes[|scenes| - 1]];
    }
  }

  /** Taking one more scene adds it to the warnings exactly when its file is missing. */
  lemma MissingScenesSnoc(env: Env, s: State, videosDir: Path, scenes: seq<string>, i: nat)
    requires ValidEnv(env)
    requires i < |scenes|
    ensures MissingScenes(env, s, videosDir, scenes[..i + 1]) ==
      MissingScenes(env, s, videosDir, scenes[..i]) + if Exists(env, s, ScenePath(videosDir, scenes[i])) then [] else [scenes[i]]
  {
    assert scenes[..i + 1][..i] == scenes[..i];
  }

  /** One more scene adds its line at the end of the manifest. */
  lemma SceneLinesSnoc(env: Env, videosDir: Path, scenes: seq<string>, i: nat)
    requires ValidEnv(env)
    requires i < |scenes|
    ensures SceneLines(env, videosDir, scenes[..i + 1]) ==
      SceneLines(env, videosDir, scenes[..i]) + [FileLine(AbsIn(env, ScenePath(videosDir, scenes[i])))]
  {
    var a := SceneLines(env, videosDir, scenes[..i + 1]);
    var b := SceneLines(env, videosDir, scenes[..i]) + [FileLine(AbsIn(env, ScenePath(videosDir, scenes[i])))];
    assert |a| == |b|;
    forall j | 0 <= j < |a|
      ensures a[j] == b[j]
    {
    }
  }

  /** The manifest `render_and_concat` writes into the media directory. */
  function SceneListPath(mediaDir: Path): Path {
    Join(mediaDir, "ffmpeg_concat_list.txt")
  }

  /** `open(script).read()` succeeds: the script is a saved text file. */
  predicate Readable(env: Env, s: State, script: Path)
    requires ValidEnv(env)
  {
    IsFile(env, s, script) && s.files[AbsIn(env, script)].Script?
  }

  /**
   * The end of `render_and_concat`: ffmpeg concatenates what the manifest
   * lists into `out`; only on success is the manifest deleted and `out`
   * returned (which exists unless it is the manifest itself).
   */
  function ConcatSpec(env: Env, s: State, list: Path, out: Path): (r: (Exit<Option<Path>>, State))
    requires ValidEnv(env)
    requires IsAbsolute(out)
    ensures r.1.log == s.log + [Concat(list, ListedAt(env, s, list), out)]
    ensures env.tools.status(Concat(list, ListedAt(env, s, list), out), |s.log|) == 0 ==>
      r.0 == Returned(Some(out)) && !IsFile(env, r.1, list) && (IsFile(env, r.1, out) <==> out != AbsIn(env, list))
    ensures env.tools.status(Concat(list, ListedAt(env, s, list), out), |s.log|) != 0 ==>
      r.0 == Returned(None) && r.1.files == s.files
  {
    var (st, s1) := RunStep(env, s, Concat(list, ListedAt(env, s, list), out));
    if st != 0 then (Returned(None), s1)
    else (Returned(Some(out)), RemoveStep(env, s1, list))
  }

  /** `render_and_concat(script, mediaDir, finalName)` up to, and not including, playback. */
  function RenderSpec(env: Env, s: State, script: Path, mediaDir: Path, finalName: string): (r: (Exit<Option<Path>>, State))
    requires ValidEnv(env)
    ensures s.log + [Render(script, mediaDir)] <= r.1.log
  {
    var (status, s1) := RunStep(env, s, Render(script, mediaDir));
    if status != 0 then (Returned(None), s1)
    else if !Readable(env, s1, script) then (Raised, s1)
    else
      var names := env.tools.scenes(s1.files[AbsIn(env, script)].code);
      var videosDir := VideosDir(mediaDir, script);
      if !Exists(env, s1, videosDir) then (Returned(None), s1)
      else
        var list := SceneListPath(mediaDir);
        if names.Failure? then (Raised, WriteListStep(env, s1, list, []))
        else
          var s2 := WriteListStep(env, s1, list, SceneLines(env, videosDir, names.value));
          ConcatSpec(env, s2, list, AbsIn(env, Join(mediaDir, finalName)))
  }

  // ---------------------------------------------------------------------
  // What adjust_video_duration guarantees
  // ---------------------------------------------------------------------

  /** With no window at all the input comes back untouched and nothing is probed. */
  lemma AdjustWithoutBoundsIsIdentity(env: Env, s: State, video: Path)
    requires ValidEnv(env)
    ensures AdjustSpec(env, s, video, None, None) == (Some(video), s)
  {
  }

  /** When the first probe gives no duration the result is None; no duration is made up. */
  lemma AdjustFailsWithoutDuration(env: Env, s: State, video: Path, minD: Option<real>, maxD: Option<real>)
    requires ValidEnv(env)
    requires minD.Some? || maxD.Some?
    requires ProbeStep(env, s, video).0.None?
    ensures AdjustSpec(env, s, video, minD, maxD) == (None, s.(log := s.log + [Probe(video)]))
  {
  }

  /**
   * A video that is neither shorter than a set minimum nor longer than a set
   * maximum (a bound of 0 being unset) comes back under its own name, and the
   * only call made is the probe: no file is created or removed.
   */
  lemma AdjustKeepsVideoWithinWindow(env: Env, s: State, video: Path, minD: Option<real>, maxD: Option<real>, current: Seconds)
    requires ValidEnv(env)
    requires minD.Some? || maxD.Some?
    requires ProbeStep(env, s, video).0 == Some(current)
    requires !TooShort(minD, current) && !TooLong(maxD, current)
    ensures AdjustSpec(env, s, video, minD, maxD) == (Some(video), s.(log := s.log + [Probe(video)]))
  {
  }

  /**
   * Extension runs exactly when a minimum is set and the video is shorter:
   * its first act, probing the input again, is the second call made.
   */
  lemma AdjustExtendsIffTooShort(env: Env, s: State, video: Path, minD: Option<real>, maxD: Option<real>, current: Seconds)
    requires ValidEnv(env)
    requires minD.Some? || maxD.Some?
    requires ProbeStep(env, s, video).0 == Some(current)
    ensures var log := AdjustSpec(env, s, video, minD, maxD).1.log;
      (|log| > |s.log| + 1 && log[|s.log| + 1] == Probe(video)) <==> TooShort(minD, current)
  {
    var s1 := s.(log := s.log + [Probe(video)]);
    if TooShort(minD, current) {
      assert !OnlyMaxAndWithin(minD, maxD, current);
    } else if NeedsAdjustment(minD, maxD, current) && TrimDue(maxD, current) {
      assert !OnlyMaxAndWithin(minD, maxD, current);
      var final := FinalPath(video);
      assert TrimPhase(env, s1, video, video, maxD, current).1.log[|s.log| + 1] == Trim(video, maxD.value, final);
    }
  }

  /**
   * When extension loops, it aims at the minimum capped by a set maximum,
   * and the manifest ffmpeg reads lists the absolute input path once per
   * copy, `floor(target / duration) + 1` times, to produce `<base>_adjusted<ext>`.
   */
  lemma AdjustLoopsTowardsTarget(env: Env, s: State, video: Path, minD: Option<real>, maxD: Option<real>, current: Seconds, again: Seconds)
    requires ValidEnv(env)
    requires ProbeStep(env, s, video).0 == Some(current)
    requires TooShort(minD, current)
    requires env.tools.duration(AbsIn(env, video), |s.log| + 1) == Some(again)
    requires 0.0 < again < (if IsSet(maxD) then Min(minD.value, maxD.value) else minD.value)
    ensures var target := if IsSet(maxD) then Min(minD.value, maxD.value) else minD.value;
      var log := AdjustSpec(env, s, video, minD, maxD).1.log;
      |log| > |s.log| + 2 &&
      log[|s.log| + 2] == Concat(ManifestFor(AdjustedPath(video)),
                                 LoopLines(AbsIn(env, video), LoopsNeeded(target, again)),
                                 AdjustedPath(video))
  {
    var target := ExtendTarget(minD, maxD);
    var s1 := s.(log := s.log + [Probe(video)]);
    assert !OnlyMaxAndWithin(minD, maxD, current);
    assert ProbeStep(env, s1, video).0 == Some(again);
    ExtendLoopsWithManifest(env, s1, video, AdjustedPath(video), target, again);
  }

  /** Looping writes a manifest of `floor(target / duration) + 1` identical lines and hands it to ffmpeg. */
  lemma ExtendLoopsWithManifest(env: Env, s: State, input: Path, output: Path, target: real, current: Seconds)
    requires ValidEnv(env)
    requires ProbeStep(env, s, input).0 == Some(current)
    requires 0.0 < current < target
    ensures var log := ExtendSpec(env, s, input, output, target).1.log;
      |log| > |s.log| + 1 &&
      log[|s.log| + 1] == Concat(ManifestFor(output), LoopLines(AbsIn(env, input), LoopsNeeded(target, current)), output)
  {
    var s1 := s.(log := s.log + [Probe(input)]);
    var list := ManifestFor(output);
    var lines := LoopLines(AbsIn(env, input), LoopsNeeded(target, current));
    var s2 := WriteListStep(env, s1, list, lines);
    assert ListedAt(env, s2, list) == lines;
    assert RunStep(env, s2, Concat(list, lines, output)).1.log == s1.log + [Concat(list, lines, output)];
  }

  /** An input already as long as the target is copied as it is: no ffmpeg call, success exactly when the input is a file. */
  lemma ExtendCopiesLongEnoughInput(env: Env, s: State, input: Path, output: Path, target: real, current: Seconds)
    requires ValidEnv(env)
    requires ProbeStep(env, s, input).0 == Some(current)
    requires current >= target
    ensures var (ok, s') := ExtendSpec(env, s, input, output, target);
      ok == IsFile(env, s, input) && s'.log == s.log + [Probe(input)] &&
      s'.files == if ok then s.files[AbsIn(env, output) := s.files[AbsIn(env, input)]] else s.files
  {
  }

  /** A zero-length input cannot be looped: extension fails (the division by zero is caught) after the probe alone. */
  lemma ExtendFailsOnEmptyInput(env: Env, s: State, input: Path, output: Path, target: real)
    requires ValidEnv(env)
    requires ProbeStep(env, s, input).0 == Some(0.0)
    requires target > 0.0
    ensures ExtendSpec(env, s, input, output, target) == (false, s.(log := s.log + [Probe(input)]))
  {
  }

  /**
   * After a successful loop, a result longer than the target is trimmed back
   * to the target into `<base>_trimmed<ext>`, which then replaces the looped
   * file; extension succeeds exactly when that trim does, and then the output
   * is a file and the scratch file is gone.
   */
  lemma ExtendTrimsOvershootViaScratch(env: Env, s: State, input: Path, output: Path, target: real, current: Seconds, looped: Seconds)
    requires ValidEnv(env)
    requires ProbeStep(env, s, input).0 == Some(current)
    requires 0.0 < current < target
    requires var lines := LoopLines(AbsIn(env, input), LoopsNeeded(target, current));
      env.tools.status(Concat(ManifestFor(output), lines, output), |s.log| + 1) == 0
    requires env.tools.duration(AbsIn(env, output), |s.log| + 2) == Some(looped)
    requires looped > target
    ensures var lines := LoopLines(AbsIn(env, input), LoopsNeeded(target, current));
      var trim := Trim(output, target, TrimScratch(output));
      var (ok, s') := ExtendSpec(env, s, input, output, target);
      s'.log == s.log + [Probe(input)] + [Concat(ManifestFor(output), lines, output), Probe(output), trim] &&
      ok == (env.tools.status(trim, |s.log| + 3) == 0) &&
      (ok ==> IsFile(env, s', output) && !IsFile(env, s', TrimScratch(output)))
  {
    var s1 := s.(log := s.log + [Probe(input)]);
    assert ExtendSpec(env, s, input, output, target) == LoopSpec(env, s1, input, output, target, current);
    LoopTrimsOvershootViaScratch(env, s1, input, output, target, current, looped);
  }

  /** The loop part of the above: concat, probe of the result, then the trim into the scratch file. */
  lemma LoopTrimsOvershootViaScratch(env: Env, s: State, input: Path, output: Path, target: real, current: Seconds, looped: Seconds)
    requires ValidEnv(env)
    requires 0.0 < current < target
    requires var lines := LoopLines(AbsIn(env, input), LoopsNeeded(target, current));
      env.tools.status(Concat(ManifestFor(output), lines, output), |s.log|) == 0
    requires env.tools.duration(AbsIn(env, output), |s.log| + 1) == Some(looped)
    requires looped > target
    ensures var lines := LoopLines(AbsIn(env, input), LoopsNeeded(target, current));
      var trim := Trim(output, target, TrimScratch(output));
      var (ok, s') := LoopSpec(env, s, input, output, target, current);
      s'.log == s.log + [Concat(ManifestFor(output), lines, output), Probe(output), trim] &&
      ok == (env.tools.status(trim, |s.log| + 2) == 0) &&
      (ok ==> IsFile(env, s', output) && !IsFile(env, s', TrimScratch(output)))
  {
    var s4 := LoopedAndProbed(env, s, input, output, target, current, looped);
    var concat := Concat(ManifestFor(output), LoopLines(AbsIn(env, input), LoopsNeeded(target, current)), output);
    var trim := Trim(output, target, TrimScratch(output));
    assert LoopSpec(env, s, input, output, target, current) == OvershootTrim(env, s4, output, target);
    assert s4.log + [trim] == s.log + [concat, Probe(output), trim];
  }

  /**
   * The loop as written trims the overshoot with ffmpeg reading and writing
   * one file, which ffmpeg refuses with a non-zero exit: extension then fails
   * although the looped output is on disk.
   */
  lemma AsWrittenOvershootTrimFails(env: Env, s: State, input: Path, output: Path, target: real, current: Seconds, looped: Seconds)
    requires ValidEnv(env)
    requires ProbeStep(env, s, input).0 == Some(current)
    requires 0.0 < current < target
    requires var lines := LoopLines(AbsIn(env, input), LoopsNeeded(target, current));
      env.tools.status(Concat(ManifestFor(output), lines, output), |s.log| + 1) == 0
    requires env.tools.duration(AbsIn(env, output), |s.log| + 2) == Some(looped)
    requires looped > target
    requires env.tools.status(Trim(output, target, output), |s.log| + 3) != 0
    ensures var (ok, s') := ExtendSpecAsWritten(env, s, input, output, target);
      !ok && IsFile(env, s', output) &&
      s'.log[|s'.log| - 1] == Trim(output, target, output)
  {
    var s1 := s.(log := s.log + [Probe(input)]);
    var s4 := LoopedAndProbed(env, s1, input, output, target, current, looped);
    assert ExtendSpecAsWritten(env, s, input, output, target) == TrimSpec(env, s4, output, output, target);
  }

  /**
   * As written, a video shorter than a set minimum whose looped extension
   * overshoots the target makes adjustment return None once ffmpeg refuses
   * the in-place trim, and `<base>_adjusted<ext>` is left on disk.
   */
  lemma AsWrittenAdjustFailsOnOvershoot(env: Env, s: State, video: Path, minD: Option<real>, maxD: Option<real>,
                                        current: Seconds, s1: State, again: Seconds, looped: Seconds)
    requires ValidEnv(env)
    requires ProbeStep(env, s, video) == (Some(current), s1)
    requires TooShort(minD, current)
    requires ProbeStep(env, s1, video).0 == Some(again) && 0.0 < again < ExtendTarget(minD, maxD)
    requires var target := ExtendTarget(minD, maxD);
      var lines := LoopLines(AbsIn(env, video), LoopsNeeded(target, again));
      env.tools.status(Concat(ManifestFor(AdjustedPath(video)), lines, AdjustedPath(video)), |s1.log| + 1) == 0
    requires env.tools.duration(AbsIn(env, AdjustedPath(video)), |s1.log| + 2) == Some(looped)
    requires looped > ExtendTarget(minD, maxD)
    requires env.tools.status(Trim(AdjustedPath(video), ExtendTarget(minD, maxD), AdjustedPath(video)), |s1.log| + 3) != 0
    ensures var (r, s') := AdjustSpecAsWritten(env, s, video, minD, maxD);
      r == None && IsFile(env, s', AdjustedPath(video))
  {
    var e := ExtendSpecAsWritten(env, s1, video, AdjustedPath(video), ExtendTarget(minD, maxD));
    AsWrittenOvershootTrimFails(env, s1, video, AdjustedPath(video), ExtendTarget(minD, maxD), again, looped);
    assert ExtendPhaseAsWritten(env, s1, video, minD, maxD, current) == (None, e.1);
    assert !OnlyMaxAndWithin(minD, maxD, current);
    assert AdjustSpecAsWritten(env, s, video, minD, maxD) == ExtendPhaseAsWritten(env, s1, video, minD, maxD, current);
  }

  /**
   * The state the loop reaches after a successful concat and the probe of its
   * result: the looped output is a file and the log holds the concat and the probe.
   */
  function LoopedAndProbed(env: Env, s: State, input: Path, output: Path, target: real, current: Seconds, looped: Seconds): (r: State)
    requires ValidEnv(env)
    requires 0.0 < current < target
    requires var lines := LoopLines(AbsIn(env, input), LoopsNeeded(target, current));
      env.tools.status(Concat(ManifestFor(output), lines, output), |s.log|) == 0
    requires env.tools.duration(AbsIn(env, output), |s.log| + 1) == Some(looped)
    requires looped > target
    ensures IsFile(env, r, output) && |r.log| == |s.log| + 2
    ensures r.log == s.log + [Concat(ManifestFor(output), LoopLines(AbsIn(env, input), LoopsNeeded(target, current)), output), Probe(output)]
    ensures var list := ManifestFor(output);
      var s1 := WriteListStep(env, s, list, LoopLines(AbsIn(env, input), LoopsNeeded(target, current)));
      var s3 := RemoveStep(env, RunStep(env, s1, Concat(list, ListedAt(env, s1, list), output)).1, list);
      r == ProbeStep(env, s3, output).1 && ProbeStep(env, s3, output).0 == Some(looped)
  {
    var lines := LoopLines(AbsIn(env, input), LoopsNeeded(target, current));
    var list := ManifestFor(output);
    var s1 := WriteListStep(env, s, list, lines);
    assert ListedAt(env, s1, list) == lines;
    var s2 := RunStep(env, s1, Concat(list, lines, output)).1;
    var s3 := RemoveStep(env, s2, list);
    LengthsSeparateAbs(env, output, list);
    ProbeStep(env, s3, output).1
  }

  /** Every ffmpeg call recorded at or after position `from` of `log` exited with status 0. */
  predicate FfmpegSucceeded(env: Env, log: seq<Command>, from: nat) {
    forall i | from <= i < |log| && (log[i].Concat? || log[i].Trim?) :: env.tools.status(log[i], i) == 0
  }

  lemma SucceededAcross(env: Env, log: seq<Command>, log': seq<Command>, from: nat)
    requires from <= |log| && log <= log'
    requires FfmpegSucceeded(env, log, from) && FfmpegSucceeded(env, log', |log|)
    ensures FfmpegSucceeded(env, log', from)
  {
    forall i | from <= i < |log'| && (log'[i].Concat? || log'[i].Trim?)
      ensures env.tools.status(log'[i], i) == 0
    {
      if i < |log| {
        assert log'[i] == log[i];
      }
    }
  }

  /** Extension reports success only if every ffmpeg call it made exited with status 0. */
  lemma ExtendSucceedsOnlyIfFfmpegDoes(env: Env, s: State, input: Path, output: Path, target: real)
    requires ValidEnv(env)
    ensures var (ok, s') := ExtendSpec(env, s, input, output, target);
      ok ==> FfmpegSucceeded(env, s'.log, |s.log|)
  {
    var (d, s1) := ProbeStep(env, s, input);
    var (ok, s') := ExtendSpec(env, s, input, output, target);
    if ok {
      if d.value >= target {
        assert s'.log == s.log + [Probe(input)];
      } else {
        assert (ok, s') == LoopSpec(env, s1, input, output, target, d.value);
        LoopSucceedsOnlyIfFfmpegDoes(env, s1, input, output, target, d.value);
        assert s'.log[|s.log|] == s1.log[|s.log|] == Probe(input);
        SucceededPastProbe(env, s'.log, |s.log|);
      }
    }
  }

  /** The loop-and-trim part of extension succeeds only if its concat, and any trim after it, did. */
  lemma LoopSucceedsOnlyIfFfmpegDoes(env: Env, s: State, input: Path, output: Path, target: real, current: real)
    requires ValidEnv(env)
    requires 0.0 < current < target
    ensures var (ok, s') := LoopSpec(env, s, input, output, target, current);
      ok ==> FfmpegSucceeded(env, s'.log, |s.log|)
  {
    var list := ManifestFor(output);
    var s1 := WriteListStep(env, s, list, LoopLines(AbsIn(env, input), LoopsNeeded(target, current)));
    var cmd := Concat(list, ListedAt(env, s1, list), output);
    var (status, s2) := RunStep(env, s1, cmd);
    if status == 0 {
      var s3 := RemoveStep(env, s2, list);
      var (d, s4) := ProbeStep(env, s3, output);
      assert s4.log == s.log + [cmd, Probe(output)];
      SucceededThenProbe(env, s.log, cmd, output);
      if d.Some? && d.value != 0.0 && d.value > target {
        OvershootTrimSucceedsOnlyIfFfmpegDoes(env, s4, output, target, |s.log|);
      }
    }
  }

  /** A successful overshoot trim keeps every ffmpeg call from `from` on successful. */
  lemma OvershootTrimSucceedsOnlyIfFfmpegDoes(env: Env, s: State, output: Path, target: real, from: nat)
    requires ValidEnv(env)
    requires from <= |s.log| && FfmpegSucceeded(env, s.log, from)
    ensures var (ok, s') := OvershootTrim(env, s, output, target);
      ok ==> FfmpegSucceeded(env, s'.log, from)
  {
    var (ok, s') := OvershootTrim(env, s, output, target);
    if ok {
      assert s'.log[|s.log|] == Trim(output, target, TrimScratch(output));
      SucceededAcross(env, s.log, s'.log, from);
    }
  }

  /** The trim step yields a path only if its trim exited with status 0. */
  lemma TrimPhaseSucceedsOnlyIfFfmpegDoes(env: Env, s: State, original: Path, path: Path, maxD: Option<real>, current: real)
    requires ValidEnv(env)
    ensures var (r, s') := TrimPhase(env, s, original, path, maxD, current);
      r.Some? ==> FfmpegSucceeded(env, s'.log, |s.log|)
  {
  }

  /** The extension step yields a path only if every ffmpeg call it made exited with status 0. */
  lemma ExtendPhaseSucceedsOnlyIfFfmpegDoes(env: Env, s: State, video: Path, minD: Option<real>, maxD: Option<real>, current: real)
    requires ValidEnv(env)
    requires TooShort(minD, current)
    ensures var (r, s') := ExtendPhase(env, s, video, minD, maxD, current);
      r.Some? ==> FfmpegSucceeded(env, s'.log, |s.log|)
  {
    var temp := AdjustedPath(video);
    var (ok, s1) := ExtendSpec(env, s, video, temp, ExtendTarget(minD, maxD));
    if ok {
      ExtendSucceedsOnlyIfFfmpegDoes(env, s, video, temp, ExtendTarget(minD, maxD));
      if Exists(env, s1, temp) {
        var s2 := if video != temp then RemoveStep(env, s1, video) else s1;
        var (d, s3) := ProbeStep(env, s2, temp);
        if d.Some? {
          var (r, s4) := TrimPhase(env, s3, video, temp, maxD, d.value);
          if r.Some? {
            TrimPhaseSucceedsOnlyIfFfmpegDoes(env, s3, video, temp, maxD, d.value);
            SucceededAcross(env, s1.log, s3.log, |s.log|);
            SucceededAcross(env, s3.log, s4.log, |s.log|);
          }
        }
      } else {
        var (r, s4) := TrimPhase(env, s1, video, video, maxD, current);
        if r.Some? {
          TrimPhaseSucceedsOnlyIfFfmpegDoes(env, s1, video, video, maxD, current);
          SucceededAcross(env, s1.log, s4.log, |s.log|);
        }
      }
    }
  }

  /**
   * `adjust_video_duration` returns a path only if every ffmpeg call it made
   * (loop, trim back in place, final trim) exited with status 0: any failure
   * of ffmpeg makes the result None.
   */
  lemma AdjustSucceedsOnlyIfFfmpegDoes(env: Env, s: State, video: Path, minD: Option<real>, maxD: Option<real>)
    requires ValidEnv(env)
    ensures var (r, s') := AdjustSpec(env, s, video, minD, maxD);
      r.Some? ==> FfmpegSucceeded(env, s'.log, |s.log|)
  {
    if minD.Some? || maxD.Some? {
      var (d, s1) := ProbeStep(env, s, video);
      if d.Some? && !OnlyMaxAndWithin(minD, maxD, d.value) && NeedsAdjustment(minD, maxD, d.value) {
        var (r, s') := AdjustSpec(env, s, video, minD, maxD);
        if TooShort(minD, d.value) {
          assert (r, s') == ExtendPhase(env, s1, video, minD, maxD, d.value);
          ExtendPhaseSucceedsOnlyIfFfmpegDoes(env, s1, video, minD, maxD, d.value);
        } else {
          assert (r, s') == TrimPhase(env, s1, video, video, maxD, d.value);
          TrimPhaseSucceedsOnlyIfFfmpegDoes(env, s1, video, video, maxD, d.value);
        }
        if r.Some? {
          assert s'.log[|s.log|] == s1.log[|s.log|] == Probe(video);
          SucceededPastProbe(env, s'.log, |s.log|);
        }
      }
    }
  }

  /** A successful ffmpeg call followed by a probe is a successful stretch of the log. */
  lemma SucceededThenProbe(env: Env, log: seq<Command>, cmd: Command, p: Path)
    requires env.tools.status(cmd, |log|) == 0
    ensures FfmpegSucceeded(env, log + [cmd, Probe(p)], |log|)
  {
    var log' := log + [cmd, Probe(p)];
    assert log'[|log|] == cmd && log'[|log| + 1] == Probe(p);
  }

  /** A probe is not an ffmpeg call: skipping one keeps every call after it successful. */
  lemma SucceededPastProbe(env: Env, log: seq<Command>, from: nat)
    requires from < |log| && log[from].Probe?
    requires FfmpegSucceeded(env, log, from + 1)
    ensures FfmpegSucceeded(env, log, from)
  {
  }

  /** Tagging a name keeps it relative or absolute as it was. */
  lemma TaggedKeepsKind(p: Path, tag: string)
    requires tag != [] && tag[0] != '/'
    ensures IsAbsolute(Tagged(p, tag)) == IsAbsolute(p)
  {
    var (base, ext) := SplitExt(p);
    if base == [] {
      assert p == ext;
    } else {
      assert Tagged(p, tag)[0] == base[0] == p[0];
    }
  }

  /** The input, `<base>_adjusted<ext>`, `<base>_final<ext>` and the loop manifest are four different files. */
  lemma AdjustPathsDistinct(env: Env, video: Path)
    requires ValidEnv(env)
    ensures AbsIn(env, video) != AbsIn(env, AdjustedPath(video))
    ensures AbsIn(env, video) != AbsIn(env, FinalPath(video))
    ensures AbsIn(env, AdjustedPath(video)) != AbsIn(env, FinalPath(video))
    ensures AbsIn(env, ManifestFor(AdjustedPath(video))) != AbsIn(env, AdjustedPath(video))
  {
    var temp, final := AdjustedPath(video), FinalPath(video);
    TaggedKeepsKind(video, "_adjusted");
    TaggedKeepsKind(video, "_final");
    assert ManifestFor(temp)[0] == temp[0];
    LengthsSeparateAbs(env, video, temp);
    LengthsSeparateAbs(env, video, final);
    LengthsSeparateAbs(env, temp, final);
    LengthsSeparateAbs(env, ManifestFor(temp), temp);
  }

  /** A successful extension leaves its output on disk and no other new file (its manifest is gone). */
  lemma ExtendCreatesOnlyOutput(env: Env, s: State, input: Path, output: Path, target: real)
    requires ValidEnv(env)
    requires AbsIn(env, ManifestFor(output)) != AbsIn(env, output)
    ensures var (ok, s') := ExtendSpec(env, s, input, output, target);
      ok ==> IsFile(env, s', output) && forall q | q in s'.files :: q in s.files || q == AbsIn(env, output)
  {
    var (d, s1) := ProbeStep(env, s, input);
    if d.Some? && 0.0 < d.value < target {
      var list := ManifestFor(output);
      var s2 := WriteListStep(env, s1, list, LoopLines(AbsIn(env, input), LoopsNeeded(target, d.value)));
      var (status, s3) := RunStep(env, s2, Concat(list, ListedAt(env, s2, list), output));
      if status == 0 {
        var s4 := RemoveStep(env, s3, list);
        assert IsFile(env, s4, output);
        assert forall q | q in s4.files :: q in s.files || q == AbsIn(env, output);
      }
    }
  }

  /** The trim step yields the path it was given or `<base>_final<ext>`, which then exists alone. */
  lemma TrimPhaseLeavesOnlyResult(env: Env, s: State, original: Path, path: Path, maxD: Option<real>, current: real)
    requires ValidEnv(env)
    requires IsFile(env, s, path)
    requires AbsIn(env, path) != AbsIn(env, FinalPath(original))
    ensures var (r, s') := TrimPhase(env, s, original, path, maxD, current);
      r.Some? ==>
        (r.value == path || r.value == FinalPath(original)) && IsFile(env, s', r.value) &&
        (forall q | q in s'.files :: q in s.files || q == AbsIn(env, r.value)) &&
        (r.value != path ==> !IsFile(env, s', path))
  {
    if TrimDue(maxD, current) {
      var final := FinalPath(original);
      var (ok, s1) := TrimSpec(env, s, path, final, maxD.value);
      if ok && path != final {
        assert Exists(env, s1, path);
        var s2 := RemoveStep(env, s1, path);
        assert forall q | q in s2.files :: q in s1.files;
      }
    }
  }

  /** The extension step yields `<base>_adjusted<ext>` or `<base>_final<ext>`, alone on disk, and the input is gone. */
  lemma ExtendPhaseLeavesOnlyResult(env: Env, s: State, video: Path, minD: Option<real>, maxD: Option<real>, current: real)
    requires ValidEnv(env)
    requires TooShort(minD, current)
    ensures var (r, s') := ExtendPhase(env, s, video, minD, maxD, current);
      r.Some? ==>
        (r.value == AdjustedPath(video) || r.value == FinalPath(video)) && IsFile(env, s', r.value) &&
        (forall q | q in s'.files :: q in s.files || q == AbsIn(env, r.value)) &&
        !IsFile(env, s', video)
  {
    var temp, final := AdjustedPath(video), FinalPath(video);
    AdjustPathsDistinct(env, video);
    var (ok, s1) := ExtendSpec(env, s, video, temp, ExtendTarget(minD, maxD));
    if ok {
      ExtendCreatesOnlyOutput(env, s, video, temp, ExtendTarget(minD, maxD));
      assert Exists(env, s1, temp);
      var s2 := RemoveStep(env, s1, video);
      var (d, s3) := ProbeStep(env, s2, temp);
      assert IsFile(env, s3, temp) && !IsFile(env, s3, video);
      if d.Some? {
        var (r, s4) := TrimPhase(env, s3, video, temp, maxD, d.value);
        TrimPhaseLeavesOnlyResult(env, s3, video, temp, maxD, d.value);
        if r.Some? {
          forall q | q in s4.files
            ensures q in s.files || q == AbsIn(env, r.value)
          {
            if q == AbsIn(env, temp) {
              assert r.value == temp;
            }
          }
        }
      }
    }
  }

  /**
   * A successful adjustment returns the input, `<base>_adjusted<ext>` or
   * `<base>_final<ext>`; the returned file exists; it is the only file the
   * call leaves behind (the loop manifest and any intermediate are removed);
   * and when it is not the input, the input has been removed.
   */
  lemma AdjustLeavesOnlyResult(env: Env, s: State, video: Path, minD: Option<real>, maxD: Option<real>)
    requires ValidEnv(env)
    requires minD.Some? || maxD.Some?
    ensures var (r, s') := AdjustSpec(env, s, video, minD, maxD);
      r.Some? ==>
        r.value in {video, AdjustedPath(video), FinalPath(video)} && IsFile(env, s', r.value) &&
        (forall q | q in s'.files :: q in s.files || q == AbsIn(env, r.value)) &&
        (r.value != video ==> !IsFile(env, s', video))
  {
    var (d, s1) := ProbeStep(env, s, video);
    if d.Some? && !OnlyMaxAndWithin(minD, maxD, d.value) && NeedsAdjustment(minD, maxD, d.value) {
      AdjustPathsDistinct(env, video);
      if TooShort(minD, d.value) {
        ExtendPhaseLeavesOnlyResult(env, s1, video, minD, maxD, d.value);
      } else {
        TrimPhaseLeavesOnlyResult(env, s1, video, video, maxD, d.value);
      }
    }
  }

  /** With a maximum given, a minimum of 0 behaves exactly like no minimum. */
  lemma AdjustZeroMinIsUnset(env: Env, s: State, video: Path, maxD: Option<real>)
    requires ValidEnv(env)
    requires maxD.Some?
    ensures AdjustSpec(env, s, video, Some(0.0), maxD) == AdjustSpec(env, s, video, None, maxD)
  {
  }

  /** With a minimum given, a maximum of 0 behaves exactly like no maximum. */
  lemma AdjustZeroMaxIsUnset(env: Env, s: State, video: Path, minD: Option<real>)
    requires ValidEnv(env)
    requires minD.Some?
    ensures AdjustSpec(env, s, video, minD, Some(0.0)) == AdjustSpec(env, s, video, minD, None)
  {
    var (d, s1) := ProbeStep(env, s, video);
    if d.Some? && TooShort(minD, d.value) {
      assert ExtendTarget(minD, Some(0.0)) == ExtendTarget(minD, None);
    }
  }

  // ---------------------------------------------------------------------
  // What render_and_concat guarantees
  // ---------------------------------------------------------------------

  /** A failed render ends the pipeline with None before anything else is touched. */
  lemma RenderFailureStops(env: Env, s: State, script: Path, mediaDir: Path, finalName: string)
    requires ValidEnv(env)
    requires env.tools.status(Render(script, mediaDir), |s.log|) != 0
    ensures RenderSpec(env, s, script, mediaDir, finalName) == (Returned(None), s.(log := s.log + [Render(script, mediaDir)]))
  {
  }

  /** Without the `videos/<stem>/1080p60` folder the result is None and no manifest is written. */
  lemma RenderNeedsVideosFolder(env: Env, s: State, script: Path, mediaDir: Path, finalName: string)
    requires ValidEnv(env)
    requires var (status, s1) := RunStep(env, s, Render(script, mediaDir));
      status == 0 && Readable(env, s1, script) && !Exists(env, s1, VideosDir(mediaDir, script))
    ensures RenderSpec(env, s, script, mediaDir, finalName) == (Returned(None), RunStep(env, s, Render(script, mediaDir)).1)
  {
  }

  /**
   * After a successful render, ffmpeg is handed a manifest with exactly one
   * line per scene, in the order the scenes appear in the script, whether or
   * not each scene's file exists.
   */
  lemma RenderConcatenatesScenesInOrder(env: Env, s: State, s1: State, script: Path, mediaDir: Path, finalName: string, scenes: seq<string>)
    requires ValidEnv(env)
    requires RunStep(env, s, Render(script, mediaDir)) == (0, s1)
    requires Readable(env, s1, script) && Exists(env, s1, VideosDir(mediaDir, script))
    requires env.tools.scenes(s1.files[AbsIn(env, script)].code) == Success(scenes)
    ensures RenderSpec(env, s, script, mediaDir, finalName).1.log ==
      s.log + [Render(script, mediaDir)] + [SceneConcat(env, script, mediaDir, finalName, scenes)]
  {
    var list := SceneListPath(mediaDir);
    var s2 := WriteListStep(env, s1, list, SceneLines(env, VideosDir(mediaDir, script), scenes));
    RenderReachesConcat(env, s, s1, script, mediaDir, finalName, scenes);
    assert SceneConcat(env, script, mediaDir, finalName, scenes) ==
      Concat(list, ListedAt(env, s2, list), AbsIn(env, Join(mediaDir, finalName)));
  }

  /**
   * If that ffmpeg call succeeds the result is the absolute path of
   * `<mediaDir>/<finalName>`, which then exists unless it is the manifest
   * itself, and the manifest is deleted.
   */
  lemma RenderReturnsFinalVideo(env: Env, s: State, s1: State, script: Path, mediaDir: Path, finalName: string, scenes: seq<string>)
    requires ValidEnv(env)
    requires RunStep(env, s, Render(script, mediaDir)) == (0, s1)
    requires Readable(env, s1, script) && Exists(env, s1, VideosDir(mediaDir, script))
    requires env.tools.scenes(s1.files[AbsIn(env, script)].code) == Success(scenes)
    requires env.tools.status(SceneConcat(env, script, mediaDir, finalName, scenes), |s.log| + 1) == 0
    ensures var (r, s') := RenderSpec(env, s, script, mediaDir, finalName);
      var out := AbsIn(env, Join(mediaDir, finalName));
      r == Returned(Some(out)) && !IsFile(env, s', SceneListPath(mediaDir)) &&
      (IsFile(env, s', out) <==> out != AbsIn(env, SceneListPath(mediaDir)))
  {
    var list := SceneListPath(mediaDir);
    var s2 := WriteListStep(env, s1, list, SceneLines(env, VideosDir(mediaDir, script), scenes));
    RenderReachesConcat(env, s, s1, script, mediaDir, finalName, scenes);
    assert SceneConcat(env, script, mediaDir, finalName, scenes) ==
      Concat(list, ListedAt(env, s2, list), AbsIn(env, Join(mediaDir, finalName)));
    assert |s2.log| == |s.log| + 1;
  }

  /** If that ffmpeg call fails the result is None and the manifest stays. */
  lemma RenderFailureKeepsManifest(env: Env, s: State, s1: State, script: Path, mediaDir: Path, finalName: string, scenes: seq<string>)
    requires ValidEnv(env)
    requires RunStep(env, s, Render(script, mediaDir)) == (0, s1)
    requires Readable(env, s1, script) && Exists(env, s1, VideosDir(mediaDir, script))
    requires env.tools.scenes(s1.files[AbsIn(env, script)].code) == Success(scenes)
    requires env.tools.status(SceneConcat(env, script, mediaDir, finalName, scenes), |s.log| + 1) != 0
    ensures var (r, s') := RenderSpec(env, s, script, mediaDir, finalName);
      r == Returned(None) && IsFile(env, s', SceneListPath(mediaDir))
  {
    var list := SceneListPath(mediaDir);
    var s2 := WriteListStep(env, s1, list, SceneLines(env, VideosDir(mediaDir, script), scenes));
    RenderReachesConcat(env, s, s1, script, mediaDir, finalName, scenes);
    assert SceneConcat(env, script, mediaDir, finalName, scenes) ==
      Concat(list, ListedAt(env, s2, list), AbsIn(env, Join(mediaDir, finalName)));
    assert |s2.log| == |s.log| + 1;
  }

  /** The ffmpeg call that joins `scenes`, in order, into `<mediaDir>/<finalName>`. */
  function SceneConcat(env: Env, script: Path, mediaDir: Path, finalName: string, scenes: seq<string>): Command
    requires ValidEnv(env)
  {
    Concat(SceneListPath(mediaDir), SceneLines(env, VideosDir(mediaDir, script), scenes), AbsIn(env, Join(mediaDir, finalName)))
  }

  /** Past the render and the folder checks, `render_and_concat` is the concatenation stage. */
  lemma RenderReachesConcat(env: Env, s: State, s1: State, script: Path, mediaDir: Path, finalName: string, scenes: seq<string>)
    requires ValidEnv(env)
    requires RunStep(env, s, Render(script, mediaDir)) == (0, s1)
    requires Readable(env, s1, script) && Exists(env, s1, VideosDir(mediaDir, script))
    requires env.tools.scenes(s1.files[AbsIn(env, script)].code) == Success(scenes)
    ensures RenderSpec(env, s, script, mediaDir, finalName) ==
      ConcatSpec(env, WriteListStep(env, s1, SceneListPath(mediaDir), SceneLines(env, VideosDir(mediaDir, script), scenes)),
        SceneListPath(mediaDir), AbsIn(env, Join(mediaDir, finalName)))
  {
  }

  // ---------------------------------------------------------------------
  // The trim outcome and the second probe of adjust_video_duration
  // ---------------------------------------------------------------------

  /**
   * A due trim cuts `path` to the maximum into `<base>_final<ext>` of the
   * original name, and yields that name exactly when ffmpeg exits with 0.
   */
  lemma TrimPhaseTrimsToMax(env: Env, s: State, original: Path, path: Path, maxD: Option<real>, current: real)
    requires ValidEnv(env)
    requires TrimDue(maxD, current)
    ensures var (r, s') := TrimPhase(env, s, original, path, maxD, current);
      var t := Trim(path, maxD.value, FinalPath(original));
      s'.log == s.log + [t] &&
      r == (if env.tools.status(t, |s.log|) == 0 then Some(FinalPath(original)) else None)
  {
  }

  /**
   * A video longer than a set maximum, and not shorter than a set minimum, is
   * trimmed to the maximum into `<base>_final<ext>`: the result is that name
   * exactly when the trim exits with 0, and None otherwise.
   */
  lemma AdjustTrimsTooLong(env: Env, s: State, video: Path, minD: Option<real>, maxD: Option<real>, current: Seconds)
    requires ValidEnv(env)
    requires ProbeStep(env, s, video).0 == Some(current)
    requires !TooShort(minD, current) && TooLong(maxD, current) && current != 0.0
    ensures var (r, s') := AdjustSpec(env, s, video, minD, maxD);
      var t := Trim(video, maxD.value, FinalPath(video));
      s'.log == s.log + [Probe(video)] + [t] &&
      r == (if env.tools.status(t, |s.log| + 1) == 0 then Some(FinalPath(video)) else None)
  {
    assert !OnlyMaxAndWithin(minD, maxD, current);
    var s1 := s.(log := s.log + [Probe(video)]);
    TrimPhaseTrimsToMax(env, s1, video, video, maxD, current);
  }

  /**
   * After a successful extension, `<base>_adjusted<ext>` is probed again; a
   * length over a set maximum is then trimmed to the maximum into
   * `<base>_final<ext>`, which is the result exactly when the trim exits with 0.
   */
  lemma ExtendPhaseTrimsAfterExtension(env: Env, s: State, video: Path, minD: Option<real>, maxD: Option<real>, current: real, s1: State, again: Seconds)
    requires ValidEnv(env)
    requires TooShort(minD, current)
    requires ExtendSpec(env, s, video, AdjustedPath(video), ExtendTarget(minD, maxD)) == (true, s1)
    requires env.tools.duration(AbsIn(env, AdjustedPath(video)), |s1.log|) == Some(again)
    requires TrimDue(maxD, again)
    ensures var (r, s') := ExtendPhase(env, s, video, minD, maxD, current);
      var t := Trim(AdjustedPath(video), maxD.value, FinalPath(video));
      s'.log == s1.log + [Probe(AdjustedPath(video))] + [t] &&
      r == (if env.tools.status(t, |s1.log| + 1) == 0 then Some(FinalPath(video)) else None)
  {
    var s3 := SecondProbe(env, s, video, minD, maxD, current, s1);
    var t := Trim(AdjustedPath(video), maxD.value, FinalPath(video));
    assert ExtendPhase(env, s, video, minD, maxD, current) == TrimPhase(env, s3, video, AdjustedPath(video), maxD, again);
    TrimPhaseTrimsToMax(env, s3, video, AdjustedPath(video), maxD, again);
    assert TrimPhase(env, s3, video, AdjustedPath(video), maxD, again).1.log == s3.log + [t];
  }

  /**
   * When the second probe, of `<base>_adjusted<ext>` after a successful
   * extension, gives no duration, the extension step gives None: no duration
   * is made up.
   */
  lemma ExtendPhaseFailsWithoutSecondDuration(env: Env, s: State, video: Path, minD: Option<real>, maxD: Option<real>, current: real, s1: State)
    requires ValidEnv(env)
    requires TooShort(minD, current)
    requires ExtendSpec(env, s, video, AdjustedPath(video), ExtendTarget(minD, maxD)) == (true, s1)
    requires env.tools.duration(AbsIn(env, AdjustedPath(video)), |s1.log|).None?
    ensures var (r, s') := ExtendPhase(env, s, video, minD, maxD, current);
      r == None && s'.log == s1.log + [Probe(AdjustedPath(video))]
  {
    var s3 := SecondProbe(env, s, video, minD, maxD, current, s1);
  }

  /**
   * The state after a successful extension to `s1`, the removal of the input
   * and the second probe; the extension step continues from it.
   */
  function SecondProbe(env: Env, s: State, video: Path, minD: Option<real>, maxD: Option<real>, current: real, s1: State): (r: State)
    requires ValidEnv(env)
    requires TooShort(minD, current)
    requires ExtendSpec(env, s, video, AdjustedPath(video), ExtendTarget(minD, maxD)) == (true, s1)
    ensures r.log == s1.log + [Probe(AdjustedPath(video))]
    ensures var d := env.tools.duration(AbsIn(env, AdjustedPath(video)), |s1.log|);
      ExtendPhase(env, s, video, minD, maxD, current) ==
        if d.None? then (None, r) else TrimPhase(env, r, video, AdjustedPath(video), maxD, d.value)
  {
    var temp := AdjustedPath(video);
    AdjustPathsDistinct(env, video);
    ExtendCreatesOnlyOutput(env, s, video, temp, ExtendTarget(minD, maxD));
    var s2 := RemoveStep(env, s1, video);
    assert IsFile(env, s2, temp);
    ProbeStep(env, s2, temp).1
  }

  /** A failed extension makes adjustment return None, leaving whatever the extension left on disk. */
  lemma AdjustStopsWhenExtensionFails(env: Env, s: State, video: Path, minD: Option<real>, maxD: Option<real>, current: Seconds)
    requires ValidEnv(env)
    requires ProbeStep(env, s, video).0 == Some(current)
    requires TooShort(minD, current)
    requires !ExtendSpec(env, ProbeStep(env, s, video).1, video, AdjustedPath(video), ExtendTarget(minD, maxD)).0
    ensures AdjustSpec(env, s, video, minD, maxD) ==
      (None, ExtendSpec(env, ProbeStep(env, s, video).1, video, AdjustedPath(video), ExtendTarget(minD, maxD)).1)
  {
    assert !OnlyMaxAndWithin(minD, maxD, current);
  }

  /**
   * A video shorter than a set minimum whose extension comes out longer than
   * a set maximum is trimmed, from `<base>_adjusted<ext>`, to the maximum into
   * `<base>_final<ext>`; the result is that name exactly when the trim exits with 0.
   */
  lemma AdjustTrimsAfterExtension(env: Env, s: State, video: Path, minD: Option<real>, maxD: Option<real>, current: Seconds, s1: State, again: Seconds)
    requires ValidEnv(env)
    requires ProbeStep(env, s, video).0 == Some(current)
    requires TooShort(minD, current)
    requires ExtendSpec(env, ProbeStep(env, s, video).1, video, AdjustedPath(video), ExtendTarget(minD, maxD)) == (true, s1)
    requires env.tools.duration(AbsIn(env, AdjustedPath(video)), |s1.log|) == Some(again)
    requires TrimDue(maxD, again)
    ensures var (r, s') := AdjustSpec(env, s, video, minD, maxD);
      var t := Trim(AdjustedPath(video), maxD.value, FinalPath(video));
      s'.log == s1.log + [Probe(AdjustedPath(video))] + [t] &&
      r == (if env.tools.status(t, |s1.log| + 1) == 0 then Some(FinalPath(video)) else None)
  {
    assert !OnlyMaxAndWithin(minD, maxD, current);
    ExtendPhaseTrimsAfterExtension(env, ProbeStep(env, s, video).1, video, minD, maxD, current, s1, again);
  }

  /** Adjustment gives None when the second probe gives no duration. */
  lemma AdjustFailsWithoutSecondDuration(env: Env, s: State, video: Path, minD: Option<real>, maxD: Option<real>, current: Seconds)
    requires ValidEnv(env)
    requires ProbeStep(env, s, video).0 == Some(current)
    requires TooShort(minD, current)
    requires var (ok, s1) := ExtendSpec(env, ProbeStep(env, s, video).1, video, AdjustedPath(video), ExtendTarget(minD, maxD));
      ok && env.tools.duration(AbsIn(env, AdjustedPath(video)), |s1.log|).None?
    ensures AdjustSpec(env, s, video, minD, maxD).0 == None
  {
    assert !OnlyMaxAndWithin(minD, maxD, current);
    var s0 := ProbeStep(env, s, video).1;
    var s1 := ExtendSpec(env, s0, video, AdjustedPath(video), ExtendTarget(minD, maxD)).1;
    ExtendPhaseFailsWithoutSecondDuration(env, s0, video, minD, maxD, current, s1);
  }

  // ---------------------------------------------------------------------
  // The operations, step by step over the machine
  // ---------------------------------------------------------------------

  /** Writes the lines of the loop manifest, one per copy (video.py:246-249). */
  method LoopManifest(absInput: Path, loops: nat) returns (lines: seq<string>)
    ensures lines == LoopLines(absInput, loops)
  {
    lines := [];
    for i := 0 to loops
      invariant |lines| == i
      invariant forall j | 0 <= j < i :: lines[j] == FileLine(absInput)
    {
      lines := lines + [FileLine(absInput)];
    }
  }

  /**
   * Writes one manifest line per scene, in the order given, whether or not the
   * scene's file exists; the scenes whose file is missing are the warnings
   * logged on the way (video.py:80-90).
   */
  method SceneManifest(w: World, videosDir: Path, scenes: seq<string>) returns (lines: seq<string>, missing: seq<string>)
    requires ValidEnv(w.env)
    ensures lines == SceneLines(w.env, videosDir, scenes)
    ensures missing == MissingScenes(w.env, w.Now(), videosDir, scenes)
  {
    ghost var now := w.Now();
    lines, missing := [], [];
    for i := 0 to |scenes|
      invariant lines == SceneLines(w.env, videosDir, scenes[..i])
      invariant missing == MissingScenes(w.env, now, videosDir, scenes[..i])
    {
      var path := ScenePath(videosDir, scenes[i]);
      var present := w.PathExists(path);
      MissingScenesSnoc(w.env, now, videosDir, scenes, i);
      SceneLinesSnoc(w.env, videosDir, scenes, i);
      if !present {
        missing := missing + [scenes[i]];
      }
      lines := lines + [FileLine(AbsIn(w.env, path))];
    }
    assert scenes[..|scenes|] == scenes;
  }

  method TrimVideoToDuration(w: World, input: Path, output: Path, target: real) returns (ok: bool)
    requires ValidEnv(w.env)
    modifies w
    ensures (ok, w.Now()) == TrimSpec(w.env, old(w.Now()), input, output, target)
  {
    var status := w.Run(Trim(input, target, output));
    ok := status == 0;
  }

  method ExtendVideoToDuration(w: World, input: Path, output: Path, target: real) returns (ok: bool)
    requires ValidEnv(w.env)
    modifies w
    ensures (ok, w.Now()) == ExtendSpec(w.env, old(w.Now()), input, output, target)
  {
    var current := w.Probe(input);
    if current.None? {
      return false;
    }
    if current.value >= target {
      ok := w.Copy(input, output);
      return;
    }
    if current.value == 0.0 {
      // int(target / 0.0) raises ZeroDivisionError, which the catch-all turns into False
      return false;
    }
    ghost var s1 := w.Now();
    var loops := LoopsNeeded(target, current.value);
    var list := ManifestFor(output);
    var lines := LoopManifest(AbsIn(w.env, input), loops);
    w.WriteList(list, lines);
    var listed := w.ReadList(list);
    var status := w.Run(Concat(list, listed, output));
    w.Remove(list);
    if status != 0 {
      return false;
    }
    var final := w.Probe(output);
    if final.Some? && final.value != 0.0 && final.value > target {
      var scratch := TrimScratch(output);
      ok := TrimVideoToDuration(w, output, scratch, target);
      if ok {
        ok := w.Replace(scratch, output);
      }
      return;
    }
    return true;
  }

  method AdjustVideoDuration(w: World, video: Path, minD: Option<real>, maxD: Option<real>) returns (r: Option<Path>)
    requires ValidEnv(w.env)
    modifies w
    ensures (r, w.Now()) == AdjustSpec(w.env, old(w.Now()), video, minD, maxD)
  {
    if minD.None? && maxD.None? {
      return Some(video);
    }
    var current := w.Probe(video);
    if current.None? {
      return None;
    }
    if OnlyMaxAndWithin(minD, maxD, current.value) {
      return Some(video);
    }
    if !NeedsAdjustment(minD, maxD, current.value) {
      return Some(video);
    }
    var path, duration := video, current.value;
    if TooShort(minD, current.value) {
      ghost var s1 := w.Now();
      var temp := AdjustedPath(video);
      var ok := ExtendVideoToDuration(w, video, temp, ExtendTarget(minD, maxD));
      if !ok {
        return None;
      }
      var made := w.PathExists(temp);
      if made {
        if video != temp {
          w.Remove(video);
        }
        path := temp;
        var again := w.Probe(temp);
        if again.None? {
          return None;
        }
        duration := again.value;
      }
    }
    if TrimDue(maxD, duration) {
      var final := FinalPath(video);
      var ok := TrimVideoToDuration(w, path, final, maxD.value);
      if !ok {
        return None;
      }
      var stale := w.PathExists(path);
      if path != final && stale {
        w.Remove(path);
      }
      return Some(final);
    }
    return Some(path);
  }

  method RenderAndConcat(w: World, script: Path, mediaDir: Path, finalName: string) returns (r: Exit<Option<Path>>)
    requires ValidEnv(w.env)
    modifies w
    ensures (r, w.Now()) == RenderSpec(w.env, old(w.Now()), script, mediaDir, finalName)
  {
    var status := w.Run(Render(script, mediaDir));
    if status != 0 {
      return Returned(None);
    }
    var a := AbsIn(w.env, script);
    if !(a in w.files && w.files[a].Script?) {
      // open(script_file).read() raises
      return Raised;
    }
    var names := w.env.tools.scenes(w.files[a].code);
    var videosDir := VideosDir(mediaDir, script);
    var found := w.PathExists(videosDir);
    if !found {
      return Returned(None);
    }
    var list := SceneListPath(mediaDir);
    if names.Failure? {
      // the manifest is opened, then iterating over the returned exception raises TypeError
      w.WriteList(list, []);
      return Raised;
    }
    ghost var s1 := w.Now();
    var lines, missing := SceneManifest(w, videosDir, names.value);
    w.WriteList(list, lines);
    var out := AbsIn(w.env, Join(mediaDir, finalName));
    assert w.Now() == WriteListStep(w.env, s1, list, SceneLines(w.env, videosDir, names.value));
    assert RenderSpec(w.env, old(w.Now()), script, mediaDir, finalName) == ConcatSpec(w.env, w.Now(), list, out);
    r := ConcatStage(w, list, out);
  }

  /** The concatenation stage of `render_and_concat`: one ffmpeg call on the manifest, which is removed on success. */
  method ConcatStage(w: World, list: Path, out: Path) returns (r: Exit<Option<Path>>)
    requires ValidEnv(w.env)
    requires IsAbsolute(out)
    modifies w
    ensures (r, w.Now()) == ConcatSpec(w.env, old(w.Now()), list, out)
  {
    var listed := w.ReadList(list);
    var st := w.Run(Concat(list, listed, out));
    if st != 0 {
      return Returned(None);
    }
    w.Remove(list);
    return Returned(Some(out));
  }
}
