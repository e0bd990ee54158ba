# Manim video pipeline: render, concatenate, fit to a duration window

This project models the rendering back end of the Manim LLM video generator
and proves what it guarantees. A Manim script is rendered scene by scene.
The scene videos are concatenated with ffmpeg through a concat manifest.
The result is then brought into a `[min, max]` duration window: it is looped
when it is too short and trimmed when it is too long. A small web API sits in
front of this pipeline. It validates requests, names output directories,
applies a default window of one to three minutes, reports the path and URL of
the final video, and serves videos back through a path guard.

The model is in six modules:

- `Wrappers` (`wrappers.dfy`): `Option` and `Result`.
- `Paths` (`paths.dfy`): the POSIX path functions the code calls (`join`, `abspath`, `basename`, `splitext`, `relpath`), written out on strings.
- `Host` (`host.dfy`): the machine. A `World` object holds the filesystem (regular files with their content, directories) and the log of every external call. It changes in place. Each primitive (`os.path.exists`, ffprobe, running manim or ffmpeg, `os.remove`, `shutil.copy2`, writing a manifest, saving a script, `os.makedirs`, the code-generation workflow, and a move of one file over another that only the corrected overshoot trim uses) is a `World` method. Each method is tied to a pure step function on a `State` snapshot.
- `Window` (`window.dfy`): the duration-window arithmetic. This covers Python truthiness of the bounds (a bound of `0.0` counts as unset), the extension target and the loop count.
- `Video` (`video.dfy`): `render_and_concat`, `extend_video_to_duration`, `trim_video_to_duration` and `adjust_video_duration`. Each is a method over the `World`. Its `ensures` equates its result and the new state with a pure function of the old state. The lemmas state what those functions guarantee.
- `Api` (`api.dfy`): request validation, output-directory naming, the default window, choosing between the rendered and the adjusted video, `video_url`, the `get_video` guard, and both POST handlers as methods over the `World`.

External programs are oracles. `Tools` answers each call from the call itself and its position in the log. So every lemma holds for every sequence of answers manim, ffmpeg, ffprobe, scene extraction, script saving and the LLM workflow could give. The clock and the uuid generator are parameters of the handlers.

Two behaviours of the code are worth stating up front. First, `extend_video_to_duration` probes the looped file again and trims any overshoot back to the extension target (`src/manim_generator/utils/video.py:283-285`). As written, that trim names the looped file as both ffmpeg's input and its output. ffmpeg refuses that with a non-zero exit, so the extension returns False and `adjust_video_duration` returns `None`, leaving `<base>_adjusted<ext>` on disk. The outcome of the overshoot branch is therefore the exit status of that trim, not a 60 s video. This is recorded under "## Findings". The rest of the model trims into `<base>_trimmed<ext>` and then moves that file over the looped one (`Video.OvershootTrim`). Second, `render_and_concat` raises when the saved script cannot be read, and when scene extraction returns an error object, which it then iterates. Both are modelled as `Raised`.

## Model

| member | source | states |
|---|---|---|
| Paths.Join | src/manim_generator/utils/video.py:73 | `os.path.join`: the result ends with the second part; a relative second part is appended under the first; an absolute one replaces it |
| Paths.Abs | src/manim_generator/utils/video.py:89 | `os.path.abspath`: the result is absolute, and an absolute path is kept as it is |
| Paths.AbsIdempotent | src/manim_generator/utils/video.py:92-93 | resolving an already resolved path changes nothing |
| Paths.Basename | src/manim_generator/utils/video.py:69 | `os.path.basename`: the longest suffix without a slash, preceded by a slash when it is not the whole path |
| Paths.SplitExt | src/manim_generator/utils/video.py:387 | `os.path.splitext`: base and extension concatenate to the path; the extension is empty or a dot followed by neither dots nor slashes, with a non-dot character before it in the last component |
| Paths.Tagged | src/manim_generator/utils/video.py:387-388 | `<base><tag><ext>` is longer than the path by exactly the length of the tag, and starts with base and tag |
| Paths.TaggedDiffers | src/manim_generator/utils/video.py:388 | a non-empty tag never names the input, and tags of different lengths name different files |
| Paths.RelUnderJoin | src/manim_generator/api.py:173-175 | for a path strictly inside a folder, `relpath` is the remainder after `folder/`, and joining the folder with it gives the path back |
| Host.AbsIn | src/manim_generator/utils/video.py:89 | every file the model touches is keyed by an absolute path |
| Host.ProbeStep | src/manim_generator/utils/video.py:177-206 | ffprobe records one call and changes no file; a path that is not a regular file has no duration |
| Host.RunStep | src/manim_generator/utils/video.py:36-57 | running manim or ffmpeg logs the command; a non-zero status changes nothing; a zero status from ffmpeg writes exactly its output file |
| Host.RemoveStep | src/manim_generator/utils/video.py:273-276 | `os.remove` with errors ignored: the path is no longer a file and every other file is untouched |
| Host.ReplaceStep | src/manim_generator/utils/video.py:285 | moving a file over another succeeds exactly when the source is a file; the target then holds the source's content, the source is gone and no other file changes; on failure nothing changes (corrected overshoot trim; the source as written has no move) |
| Host.World.Replace | src/manim_generator/utils/video.py:285 | the in-place move agrees with `ReplaceStep` (corrected overshoot trim; the source as written has no move) |
| Host.CopyStep | src/manim_generator/utils/video.py:232-233 | `shutil.copy2` succeeds exactly when the source is a file, and the target then holds the source's content; on failure nothing changes |
| Host.WriteListStep | src/manim_generator/utils/video.py:246-249 | writing a manifest leaves a file holding exactly the given lines; directories and log untouched |
| Host.ListedAt | src/manim_generator/utils/video.py:259 | ffmpeg reads the lines the manifest file holds |
| Host.SaveStep | src/manim_generator/api.py:227 | saving logs the call; on success the file holds the code; on failure no file changes |
| Host.MakeDirsStep | src/manim_generator/api.py:95 | `os.makedirs(exist_ok=True)` fails exactly when a regular file is in the way, and otherwise leaves the directory existing |
| Host.GenerateStep | src/manim_generator/api.py:118-137 | the code-generation workflow is one logged call that changes no file |
| Host.World.PathExists | src/manim_generator/utils/video.py:74 | `os.path.exists` answers whether the resolved path is a file or a directory |
| Host.World.Probe | src/manim_generator/utils/video.py:177-206 | the in-place probe agrees with `ProbeStep` |
| Host.World.Run | src/manim_generator/utils/video.py:36-57 | the in-place tool run agrees with `RunStep` |
| Host.World.Remove | src/manim_generator/utils/video.py:273-276 | the in-place removal agrees with `RemoveStep` |
| Host.World.Copy | src/manim_generator/utils/video.py:232-233 | the in-place copy agrees with `CopyStep` |
| Host.World.WriteList | src/manim_generator/utils/video.py:246-249 | the in-place manifest write agrees with `WriteListStep` |
| Host.World.ReadList | src/manim_generator/utils/video.py:259 | reading a manifest gives `ListedAt` |
| Host.World.Save | src/manim_generator/api.py:227 | the in-place save agrees with `SaveStep` |
| Host.World.MakeDirs | src/manim_generator/api.py:95 | the in-place `makedirs` agrees with `MakeDirsStep` |
| Host.World.Generate | src/manim_generator/api.py:118-137 | the in-place workflow call agrees with `GenerateStep` |
| Window.OnlyMaxAndWithinNeedsNothing | src/manim_generator/utils/video.py:365-384 | the early return for "only a maximum, and within it" never changes the outcome: no adjustment would be needed anyway |
| Window.ExtendTarget | src/manim_generator/utils/video.py:391-394 | extension aims at the minimum, capped by a set maximum: at most each set bound and equal to one of them |
| Window.LoopsNeeded | src/manim_generator/utils/video.py:238 | `int(target/current)+1` copies: at least two, `k-1` copies reach at most the target and `k` copies exceed it |
| Window.LoopsNeededIsLeast | src/manim_generator/utils/video.py:238 | no smaller number of copies exceeds the target |
| Window.SevenLoopsForTenSecondsToAMinute | src/manim_generator/utils/video.py:238 | a 10 s clip extended to 60 s is looped 7 times |
| Video.FileLine | src/manim_generator/utils/video.py:90 | a manifest line is `file '<path>'` with the path recoverable between the quotes |
| Video.LoopLines | src/manim_generator/utils/video.py:246-249 | the loop manifest is exactly `n` identical lines naming the input |
| Video.TrimSpec | src/manim_generator/utils/video.py:293-335 | trimming logs one ffmpeg call; on success the output is written |
| Video.LoopSpec | src/manim_generator/utils/video.py:244-287 | looping only appends to the call log |
| Video.ExtendSpec | src/manim_generator/utils/video.py:209-290 | extension always starts by probing its input |
| Video.LengthsSeparateAbs | src/manim_generator/utils/video.py:387-388 | two names of the same kind and different lengths resolve to different files |
| Video.TrimPhase | src/manim_generator/utils/video.py:411-422 | the final trim step only appends to the call log |
| Video.ExtendPhase | src/manim_generator/utils/video.py:390-409 | the extension step continues the call log of `extend_video_to_duration` |
| Video.AdjustSpec | src/manim_generator/utils/video.py:338-424 | adjustment only appends to the call log |
| Video.SceneLines | src/manim_generator/utils/video.py:80-90 | the render manifest has one line per scene, the i-th naming the absolute path of the i-th scene's file |
| Video.MissingScenes | src/manim_generator/utils/video.py:81-88 | there are no more warnings than scenes |
| Video.MissingScenesExactly | src/manim_generator/utils/video.py:82-88 | a scene is warned about exactly when it is listed and its file does not exist |
| Video.RenderSpec | src/manim_generator/utils/video.py:13-174 | `render_and_concat` always starts by running manim |
| Video.ConcatSpec | src/manim_generator/utils/video.py:92-133 | the concatenation stage logs one ffmpeg call on the manifest's lines; on success it returns the absolute output path, the manifest is gone and the output exists unless it is the manifest; on failure it returns `None` and no file changes |
| Video.AdjustWithoutBoundsIsIdentity | src/manim_generator/utils/video.py:352-353 | with both bounds `None` the input comes back and nothing is called |
| Video.AdjustFailsWithoutDuration | src/manim_generator/utils/video.py:355-358 | when the first probe gives no duration the result is `None` after that probe alone |
| Video.AdjustKeepsVideoWithinWindow | src/manim_generator/utils/video.py:365-384 | a video neither below a set minimum nor above a set maximum comes back under its own name after the probe alone; no file changes |
| Video.AdjustExtendsIffTooShort | src/manim_generator/utils/video.py:391-396 | extension starts exactly when the minimum is set (non-zero) and the video is shorter |
| Video.AdjustLoopsTowardsTarget | src/manim_generator/utils/video.py:391-396 | when extension loops, ffmpeg is given `<base>_adjusted<ext>.concat.txt` holding `floor(target/duration)+1` lines naming the input, with target `min(min, max)` or `min` |
| Video.ExtendLoopsWithManifest | src/manim_generator/utils/video.py:238-262 | looping hands ffmpeg a manifest of `LoopsNeeded` identical lines naming the absolute input |
| Video.ExtendCopiesLongEnoughInput | src/manim_generator/utils/video.py:230-235 | an input at least as long as the target is copied without ffmpeg; success exactly when the input is a file |
| Video.ExtendFailsOnEmptyInput | src/manim_generator/utils/video.py:238 | a zero-length input makes extension fail after the probe alone (the division by zero is caught) |
| Video.ExtendTrimsOvershootViaScratch | src/manim_generator/utils/video.py:278-285 | an overshooting loop result is trimmed back to the target into `<base>_trimmed<ext>`, which then replaces it; extension succeeds exactly when that trim does, and then the output is a file and the scratch file is gone |
| Video.LoopTrimsOvershootViaScratch | src/manim_generator/utils/video.py:262-287 | after a good concat, a probe over the target leads to one trim into the scratch file, whose status decides the result |
| Video.LoopedAndProbed | src/manim_generator/utils/video.py:262-283 | after a good concat the looped output is a file, and the log holds the concat and the probe of the output |
| Video.ScratchIsAnotherFile | src/manim_generator/utils/video.py:285 | the scratch file and the looped file it replaces are different files (corrected overshoot trim; the source as written has no scratch file) |
| Video.OvershootTrim | src/manim_generator/utils/video.py:283-285 | trimming an overshoot logs one ffmpeg call into the scratch file; on success the looped file exists and the scratch file is gone, with no other new file; on failure no file changes (corrected overshoot trim; the source as written trims in place and has no move) |
| Video.LoopSpecAsWritten | src/manim_generator/utils/video.py:244-287 | the loop as written, with the trim reading and writing the output, only appends to the call log |
| Video.ExtendSpecAsWritten | src/manim_generator/utils/video.py:209-290 | extension as written always starts by probing its input |
| Video.AsWrittenOvershootTrimFails | src/manim_generator/utils/video.py:283-285 | as written, when ffmpeg refuses to trim a file onto itself, extension fails with the trim as the last call, although the looped output is on disk |
| Video.ExtendPhaseAsWritten | src/manim_generator/utils/video.py:391-422 | the extension step as written, on the as-written extension, continues the call log of that extension |
| Video.AdjustSpecAsWritten | src/manim_generator/utils/video.py:338-424 | adjustment as written only appends to the call log |
| Video.AsWrittenAdjustFailsOnOvershoot | src/manim_generator/utils/video.py:283-285 | as written, a video below a set minimum whose looped extension overshoots the target makes adjustment return `None` once ffmpeg refuses the in-place trim, with `<base>_adjusted<ext>` left on disk |
| Video.TrimPhaseTrimsToMax | src/manim_generator/utils/video.py:412-422 | a due trim logs one ffmpeg call cutting its input to the maximum into `<base>_final<ext>`; the result is that name exactly when the trim exits with 0, and `None` otherwise |
| Video.AdjustTrimsTooLong | src/manim_generator/utils/video.py:412-422 | a video longer than a set maximum and not shorter than a set minimum is probed, then trimmed to the maximum into `<base>_final<ext>`; the result is that name exactly when the trim exits with 0 |
| Video.ExtendPhaseTrimsAfterExtension | src/manim_generator/utils/video.py:400-422 | after a successful extension, `<base>_adjusted<ext>` is probed again; a length over a set maximum is trimmed to the maximum into `<base>_final<ext>`, which is the result exactly when the trim exits with 0 |
| Video.AdjustTrimsAfterExtension | src/manim_generator/utils/video.py:391-422 | the same for the whole adjustment: a short video whose extension exceeds the maximum ends in the trim of `<base>_adjusted<ext>` into `<base>_final<ext>` |
| Video.ExtendPhaseFailsWithoutSecondDuration | src/manim_generator/utils/video.py:400-409 | when the second probe, of `<base>_adjusted<ext>`, gives no duration, the result is `None` right after that probe |
| Video.AdjustFailsWithoutSecondDuration | src/manim_generator/utils/video.py:391-409 | the same for the whole adjustment |
| Video.SecondProbe | src/manim_generator/utils/video.py:400-409 | after a successful extension, the input is removed and `<base>_adjusted<ext>` probed; no duration gives `None`, a duration continues with the trim check on `<base>_adjusted<ext>` |
| Video.AdjustStopsWhenExtensionFails | src/manim_generator/utils/video.py:391-397 | a failed extension makes adjustment return `None`, leaving the state the extension left |
| Video.SucceededAcross | src/manim_generator/utils/video.py:278-285 | ffmpeg successes of two consecutive stretches of the log combine |
| Video.ExtendSucceedsOnlyIfFfmpegDoes | src/manim_generator/utils/video.py:278-285 | extension reports success only if every ffmpeg call it made exited with 0 |
| Video.LoopSucceedsOnlyIfFfmpegDoes | src/manim_generator/utils/video.py:262-287 | the loop-and-trim part succeeds only if its concat and any trim after it exited with 0 |
| Video.OvershootTrimSucceedsOnlyIfFfmpegDoes | src/manim_generator/utils/video.py:283-285 | a successful overshoot trim keeps a run of successful ffmpeg calls successful (corrected overshoot trim) |
| Video.SucceededPastProbe | src/manim_generator/utils/video.py:177-206 | a probe is not an ffmpeg call, so it never breaks a run of successful ffmpeg calls |
| Video.TrimPhaseSucceedsOnlyIfFfmpegDoes | src/manim_generator/utils/video.py:414-415 | the final trim step yields a path only if its trim exited with 0 |
| Video.ExtendPhaseSucceedsOnlyIfFfmpegDoes | src/manim_generator/utils/video.py:396-397 | the extension step yields a path only if every ffmpeg call in it exited with 0 |
| Video.AdjustSucceedsOnlyIfFfmpegDoes | src/manim_generator/utils/video.py:396-397 | adjustment returns a path only if every ffmpeg call it made exited with 0; any failure gives `None` |
| Video.TaggedKeepsKind | src/manim_generator/utils/video.py:388 | tagging a name keeps it relative or absolute |
| Video.AdjustPathsDistinct | src/manim_generator/utils/video.py:387-388 | the input, `<base>_adjusted<ext>`, `<base>_final<ext>` and the loop manifest are four different files |
| Video.ExtendCreatesOnlyOutput | src/manim_generator/utils/video.py:244-287 | a successful extension leaves its output as a file and no other new file; its manifest is gone |
| Video.TrimPhaseLeavesOnlyResult | src/manim_generator/utils/video.py:411-424 | the trim step yields its input or `<base>_final<ext>`, which exists as the only new file, and a trimmed intermediate is removed |
| Video.ExtendPhaseLeavesOnlyResult | src/manim_generator/utils/video.py:396-409 | the extension step yields `<base>_adjusted<ext>` or `<base>_final<ext>` as the only new file, and the input is removed |
| Video.AdjustLeavesOnlyResult | src/manim_generator/utils/video.py:386-424 | a successful adjustment returns the input, `<base>_adjusted<ext>` or `<base>_final<ext>`; that file exists, it is the only file left behind, and a replaced input is removed |
| Video.AdjustZeroMinIsUnset | src/manim_generator/utils/video.py:362 | with a maximum given, a minimum of 0 behaves exactly like no minimum |
| Video.AdjustZeroMaxIsUnset | src/manim_generator/utils/video.py:412 | with a minimum given, a maximum of 0 behaves exactly like no maximum |
| Video.RenderFailureStops | src/manim_generator/utils/video.py:55-57 | a non-zero render status gives `None` with nothing done after the render |
| Video.RenderNeedsVideosFolder | src/manim_generator/utils/video.py:73-76 | without `videos/<stem>/1080p60` the result is `None` and no manifest is written |
| Video.RenderConcatenatesScenesInOrder | src/manim_generator/utils/video.py:78-110 | after a good render, manim then ffmpeg are the only calls, and ffmpeg gets one manifest line per scene in extraction order |
| Video.RenderReturnsFinalVideo | src/manim_generator/utils/video.py:92-133 | when that ffmpeg call succeeds the result is `abspath(join(media_dir, final))`, which exists unless it is the manifest, and the manifest is deleted |
| Video.RenderFailureKeepsManifest | src/manim_generator/utils/video.py:128-130 | when that ffmpeg call fails the result is `None` and the manifest stays on disk |
| Video.RenderReachesConcat | src/manim_generator/utils/video.py:59-92 | past the render, a readable script, the scene folder and a good extraction, `render_and_concat` continues with the manifest write and the concatenation stage |
| Video.LoopManifest | src/manim_generator/utils/video.py:246-249 | the loop writes exactly the loop manifest lines |
| Video.SceneManifest | src/manim_generator/utils/video.py:80-90 | the loop writes exactly the render manifest lines and warns about exactly the missing scenes, in order |
| Video.TrimVideoToDuration | src/manim_generator/utils/video.py:293-335 | the method agrees with `TrimSpec` |
| Video.ExtendVideoToDuration | src/manim_generator/utils/video.py:209-290 | the method agrees with `ExtendSpec` |
| Video.AdjustVideoDuration | src/manim_generator/utils/video.py:338-424 | the method agrees with `AdjustSpec` |
| Video.ConcatStage | src/manim_generator/utils/video.py:92-133 | the method agrees with `ConcatSpec` |
| Video.RenderAndConcat | src/manim_generator/utils/video.py:13-133 | the method agrees with `RenderSpec` |
| Api.TrimStart | src/manim_generator/api.py:84 | `lstrip`: a suffix of the text that starts with a non-space, after only whitespace |
| Api.TrimEnd | src/manim_generator/api.py:84 | `rstrip`: a prefix of the text that ends with a non-space, before only whitespace |
| Api.StripEmptyIffBlank | src/manim_generator/api.py:84 | `strip()` gives the empty string exactly when every character is Python whitespace |
| Api.RejectedIffBlank | src/manim_generator/api.py:84 | `not text or not text.strip()` holds exactly for empty or whitespace-only text |
| Api.Digits | src/manim_generator/api.py:91 | zero-padded numbers have exactly the field width and only digits |
| Api.ValueOfDigits | src/manim_generator/api.py:91 | a zero-padded number reads back as the number |
| Api.FormatStamp | src/manim_generator/api.py:91 | `%Y%m%d_%H%M%S` is 15 characters long |
| Api.StampRoundTrip | src/manim_generator/api.py:91 | every time stamp is read back from its text |
| Api.Head | src/manim_generator/api.py:92 | `s[:n]` is a prefix of at most `n` characters, exactly `n` when the string is long enough |
| Api.OutputDirNaming | src/manim_generator/api.py:88-93 | a non-empty requested directory is used as given; otherwise the directory is under `output/` and both the stamp and the first 8 uuid characters are read back from its name |
| Api.AutoDirsDistinct | src/manim_generator/api.py:216-221 | two generated directories coincide only if stamp and uuid prefix do |
| Api.ExplicitZeroSwitchesBoundOff | src/manim_generator/api.py:264-265 | missing bounds default to 60 and 180, an explicit 0 is kept, and a kept 0 then disables that bound in the adjustment |
| Api.OutputBase | src/manim_generator/api.py:282 | `abspath("output")` is non-empty and has no trailing slash |
| Api.VideoUrl | src/manim_generator/api.py:281-288 | every `video_url` starts with `/video/` |
| Api.Normalized | src/manim_generator/api.py:326 | backslashes become slashes, nothing else changes |
| Api.NormalizedKeepsSlashes | src/manim_generator/api.py:326 | a path without backslashes is left as it is |
| Api.GetVideoAsWritten | src/manim_generator/api.py:322-349 | as written, a served path starts with `abspath("output")` as a string and is a regular file |
| Api.GetVideo | src/manim_generator/api.py:322-349 | a served path is `abspath("output")` or lies below it, and is a regular file |
| Api.AsWrittenServesSiblingFolder | src/manim_generator/api.py:329-337 | as written, a request for an absolute path into a sibling folder whose name extends `output` (no `..`, no backslash, a regular file) is served although it lies outside the output folder; the corrected guard refuses it |
| Api.GuardedServes | src/manim_generator/api.py:339-349 | a request that passes the `..` and containment tests gets its file when it is a regular file |
| Api.GuardedOutside | src/manim_generator/api.py:336-337 | a request without `..` failing the containment test is refused as outside |
| Api.GetVideoServesOnlyOutputFiles | src/manim_generator/api.py:322-343 | a request is served exactly when it has no `..`, resolves inside the output folder and names a regular file; 404 means the path does not exist |
| Api.InsideStartsWith | src/manim_generator/api.py:336 | a path inside a folder starts with the folder's name |
| Api.GetVideoNarrowsAsWritten | src/manim_generator/api.py:336-337 | the corrected guard serves nothing the code as written refuses, and serves the same file |
| Api.UrlServesTheVideo | src/manim_generator/api.py:171-177 | a video below the output folder gets `/video/<path below output>`, and requesting that path serves the same file |
| Api.ChooseVideo | src/manim_generator/api.py:269-278 | the reported video is the rendered one, or the adjusted one when it is given, exists and differs; only then is anything removed |
| Api.FinishSpec | src/manim_generator/api.py:262-301 | the response is a success exactly when rendering gave an existing path; otherwise nothing changes |
| Api.RenderThenFinish | src/manim_generator/api.py:259-307 | rendering and finishing always give a `VideoResponse`, after running manim |
| Api.ScriptInDir | src/manim_generator/api.py:225-307 | once the directory exists the answer is a `VideoResponse`, after saving the script to `<dir>/video.py` |
| Api.ScriptSpec | src/manim_generator/api.py:200-307 | an HTTP error is 400 or 500 and comes before any external call |
| Api.DescriptionInDir | src/manim_generator/api.py:117-197 | once the directory exists the answer is a `VideoResponse`, after running the workflow |
| Api.NoCodeNothingSaved | src/manim_generator/api.py:136-153 | when the workflow leaves no working code, or an empty script, the answer is `WorkingCodeMissing` and nothing is saved or rendered |
| Api.DescriptionSpec | src/manim_generator/api.py:69-197 | an HTTP error is 400 or 500 and comes before any external call |
| Api.BlankRequestRejectedFirst | src/manim_generator/api.py:84-85 | both handlers answer 400 exactly for empty or whitespace-only text, and then leave the machine unchanged |
| Api.SceneCheckPrecedesRender | src/manim_generator/api.py:238-250 | a script whose scene extraction fails or finds nothing gets a failure response, and nothing but the save is called: no render |
| Api.ChooseAdjustedFile | src/manim_generator/api.py:269-278 | an adjusted video that is a file other than the original is chosen, stays a file, and the original is removed |
| Api.FinishReportsAdjustedVideo | src/manim_generator/api.py:154-184 | with a rendered video the response is a success even when adjustment fails; when adjustment returns a path, that file is reported, exists, and the rendered file is gone if it differs |
| Api.ChooseVideoIn | src/manim_generator/api.py:269-278 | the method agrees with `ChooseVideo` |
| Api.Finish | src/manim_generator/api.py:262-301 | the method agrees with `FinishSpec` |
| Api.GenerateVideoFromScript | src/manim_generator/api.py:200-307 | the method agrees with `ScriptSpec` |
| Api.GenerateVideoFromDescription | src/manim_generator/api.py:69-197 | the method agrees with `DescriptionSpec` |

## Left out

- Process I/O: launching subprocesses and streaming their output line by line (`src/manim_generator/utils/video.py:36-53`, `110-126`). Each tool call is one oracle answer: an exit status, and for manim the files it writes.
- Playback of the final video and its player fallbacks (`src/manim_generator/utils/video.py:135-172`). It is best effort and does not affect the return value.
- ffprobe's invocation and JSON parsing inside `get_video_duration`. The probe is an oracle returning `Option` of a non-negative real. A path that is not a regular file has no duration.
- Media semantics. What concat or a stream-copy trim actually produces, and keyframe imprecision, are left to the oracle; re-probes are oracle answers, not computed lengths.
- Floating point. Durations are exact reals. The formatting of `str(target_duration)` in the trim command and all log and message texts are not modelled; `Message` records which message was chosen and the window it reports.
- Timeouts. A tool that times out is treated like one that exits non-zero. When looping times out, the code leaves its manifest behind (the removal at `video.py:273-276` is skipped); the model always removes it.
- Partial outputs of a failing tool. A tool that fails leaves the filesystem unchanged.
- Path normalisation. `Paths.Abs` joins a relative path to the working directory without collapsing `.`, `..` or repeated slashes. `os.makedirs` creating missing parents, and `os.remove` of a path that is a directory, are not modelled beyond "a directory is added" and "a directory stays".
- Write failures of `open(..., "w")` for the manifests.
- `extract_scene_class_names`, `save_code_to_file` and the LLM workflow (`ManimWorkflow`, `artifact_manager`) are not part of this model. They are oracles: scene extraction returns a list or an error (an exception it raises is not distinguished from one it returns), saving succeeds or not and returns the name it was given, and the workflow ends with code, no working code, or an exception.
- The workflow configuration (`src/manim_generator/api.py:98-115`), FastAPI routing, pydantic models, `FileResponse` and the `error` text of responses.
- `src/manim_generator/api_server.py`: argument parsing and starting the server.
- Api.FormatStamp: pads years below 1000 to four digits, which `strftime("%Y")` does only on some platforms.
- Video.RenderSpec: the renderer's own output is an oracle, so the model does not claim that the scene files named in the manifest exist.

## Findings

| source | as written | input that shows it | evidently intended | confidence | as-written member | corrected member |
|---|---|---|---|---|---|---|
| src/manim_generator/utils/video.py:283-285 | an overshooting loop result is trimmed with `trim_video_to_duration(output_path, output_path, ...)`: ffmpeg reads and writes one file, which it refuses with exit status 1 | minimum 60 s, maximum 180 s, a 10 s clip: it is looped 7 times to about 70 s, the in-place trim fails, extension returns False, `adjust_video_duration` returns `None` with `<base>_adjusted<ext>` left on disk | trim into a separate file, then move it over the looped file | not executed | Video.AsWrittenAdjustFailsOnOvershoot | Video.ExtendTrimsOvershootViaScratch |
| src/manim_generator/api.py:336-337 | the guard tests `abs_video_path.startswith(abs_output_base)` as a plain string prefix, so a sibling folder whose name begins with `output` passes; an absolute request path survives `os.path.join("output", ...)` | server working directory `/srv`, request path `/srv/output_old/v.mp4`, a file at that path: it is served | serve only `abspath("output")` itself or paths below it (`== base` or starts with `base + "/"`) | not executed | Api.AsWrittenServesSiblingFolder | Api.GetVideo |
