/**
 * The machine the pipeline runs on: a filesystem, the external programs it
 * calls (manim, ffmpeg, ffprobe) and the collaborators this model does not
 * cover (saving a script, the code-generation workflow, scene-name
 * extraction).
 *
 * Every external program is an oracle: `Tools` answers each call from the
 * call itself and its position in the call log, so what is proved about the
 * pipeline holds for every sequence of answers the programs could give.
 * Paths in the filesystem are absolute (`Abs` of what the program passed).
 */
module Host {
  import opened Wrappers
  import opened Paths

  /** A duration as ffprobe reports it, in seconds. */
  type Seconds = r: real | r >= 0.0

  /** What a regular file holds, as far as the pipeline cares. */
  datatype Content =
    | Media                                  // a rendered or processed video
    | Script(code: string)                   // a saved manim script
    | ConcatList(lines: seq<string>)         // an ffmpeg concat manifest

  /** One call out of the model, recorded in the order it was made. */
  datatype Command =
    | Render(script: Path, mediaDir: Path)                 // manim -qh <script> --write_all --media_dir <dir>
    | Concat(list: Path, lines: seq<string>, output: Path) // ffmpeg -f concat -safe 0 -i <list> -c copy <output>; `lines` is what <list> held
    | Trim(input: Path, limit: real, output: Path)         // ffmpeg -i <input> -t <limit> -c copy -y <output>
    | Probe(path: Path)                                    // ffprobe -v error -show_entries format=duration -of json <path>
    | Save(path: Path)                                     // save_code_to_file(code, filename=<path>)
    | Generate(description: string)                        // generate, run and review code from a description

  /** Files and directories a successful render writes. */
  datatype Written = Written(files: map<Path, Content>, dirs: set<Path>)

  /** How a Python function ends: it returns a value or an exception escapes it. */
  datatype Exit<+T> = Returned(value: T) | Raised

  /** What the code-generation workflow ends with. */
  datatype Generation = Code(code: string) | NoWorkingCode | Crashed

  datatype Tools = Tools(
    status: (Command, nat) -> int,                       // exit status of the n-th call
    duration: (Path, nat) -> Option<Seconds>,            // ffprobe's answer for an existing file
    rendered: (Command, nat) -> Written,                 // output of a successful render
    scenes: string -> Result<seq<string>, string>,       // scene class names in textual order, or a syntax error
    saved: (Path, nat) -> bool,                          // whether saving the script succeeded
    generated: (string, nat) -> Generation               // outcome of the code-generation workflow
  )

  datatype Env = Env(cwd: Path, tools: Tools)

  predicate ValidEnv(env: Env) {
    IsAbsolute(env.cwd)
  }

  /** A snapshot of the machine: regular files, directories, and every call made so far. */
  datatype State = State(files: map<Path, Content>, dirs: set<Path>, log: seq<Command>)

  function AbsIn(env: Env, p: Path): (r: Path)
    requires ValidEnv(env)
    ensures IsAbsolute(r)
  {
    Abs(env.cwd, p)
  }

  /** `os.path.exists(p)` */
  predicate Exists(env: Env, s: State, p: Path)
    requires ValidEnv(env)
  {
    AbsIn(env, p) in s.files || AbsIn(env, p) in s.dirs
  }

  /** `os.path.isfile(p)` */
  predicate IsFile(env: Env, s: State, p: Path)
    requires ValidEnv(env)
  {
    AbsIn(env, p) in s.files
  }

  /** ffprobe: no duration for a file that is not there; otherwise whatever the tool answers. */
  function ProbeStep(env: Env, s: State, p: Path): (r: (Option<Seconds>, State))
    requires ValidEnv(env)
    ensures r.1 == s.(log := s.log + [Probe(p)])
    ensures !IsFile(env, s, p) ==> r.0 == None
  {
    var d := if IsFile(env, s, p) then env.tools.duration(AbsIn(env, p), |s.log|) else None;
    (d, s.(log := s.log + [Probe(p)]))
  }

  /** The file a command writes when it succeeds. */
  function Effect(env: Env, s: State, cmd: Command): (r: State)
    requires ValidEnv(env)
  {
    match cmd
    case Render(_, _) =>
      var w := env.tools.rendered(cmd, |s.log|);
      s.(files := s.files + w.files, dirs := s.dirs + w.dirs)
    case Concat(_, _, out) => s.(files := s.files[AbsIn(env, out) := Media])
    case Trim(_, _, out) => s.(files := s.files[AbsIn(env, out) := Media])
    case _ => s
  }

  /** Runs manim or ffmpeg: the exit status is the oracle's; only a zero status leaves an output behind. */
  function RunStep(env: Env, s: State, cmd: Command): (r: (int, State))
    requires ValidEnv(env)
    requires cmd.Render? || cmd.Concat? || cmd.Trim?
    ensures r.1.log == s.log + [cmd] && r.1.dirs == s.dirs + (if r.0 == 0 && cmd.Render? then env.tools.rendered(cmd, |s.log|).dirs else {})
    ensures r.0 != 0 ==> r.1 == s.(log := s.log + [cmd])
    ensures r.0 == 0 && !cmd.Render? ==> r.1.files == s.files[AbsIn(env, cmd.output) := Media]
  {
    var status := env.tools.status(cmd, |s.log|);
    var s' := if status == 0 then Effect(env, s, cmd) else s;
    (status, s'.(log := s.log + [cmd]))
  }

  /** `os.remove(p)` with any error ignored: a regular file disappears, anything else stays. */
  function RemoveStep(env: Env, s: State, p: Path): (r: State)
    requires ValidEnv(env)
    ensures !IsFile(env, r, p) && r.dirs == s.dirs && r.log == s.log
    ensures forall q | q in s.files && q != AbsIn(env, p) :: q in r.files && r.files[q] == s.files[q]
  {
    s.(files := s.files - {AbsIn(env, p)})
  }

  /** `shutil.copy2(src, dst)`: fails when `src` is not a regular file. */
  function CopyStep(env: Env, s: State, src: Path, dst: Path): (r: (bool, State))
    requires ValidEnv(env)
    ensures r.0 == IsFile(env, s, src)
    ensures r.0 ==> IsFile(env, r.1, dst) && r.1.files[AbsIn(env, dst)] == s.files[AbsIn(env, src)]
    ensures !r.0 ==> r.1 == s
  {
    if IsFile(env, s, src) then (true, s.(files := s.files[AbsIn(env, dst) := s.files[AbsIn(env, src)]]))
    else (false, s)
  }

  /**
   * `os.replace(src, dst)`: the file at `src` takes the place of `dst` and
   * `src` is gone; fails, changing nothing, when `src` is not a regular file.
   */
  function ReplaceStep(env: Env, s: State, src: Path, dst: Path): (r: (bool, State))
    requires ValidEnv(env)
    ensures r.0 == IsFile(env, s, src)
    ensures r.0 ==> IsFile(env, r.1, dst) && r.1.files[AbsIn(env, dst)] == s.files[AbsIn(env, src)]
    ensures r.0 && AbsIn(env, src) != AbsIn(env, dst) ==> !IsFile(env, r.1, src)
    ensures r.0 ==> forall q | q in r.1.files :: q in s.files || q == AbsIn(env, dst)
    ensures r.0 ==> forall q | q in s.files && q != AbsIn(env, src) && q != AbsIn(env, dst) :: q in r.1.files && r.1.files[q] == s.files[q]
    ensures r.1.dirs == s.dirs && r.1.log == s.log
    ensures !r.0 ==> r.1 == s
  {
    if IsFile(env, s, src) then
      (true, s.(files := (s.files - {AbsIn(env, src)})[AbsIn(env, dst) := s.files[AbsIn(env, src)]]))
    else (false, s)
  }

  /** Writing an ffmpeg concat manifest. */
  function WriteListStep(env: Env, s: State, p: Path, lines: seq<string>): (r: State)
    requires ValidEnv(env)
    ensures IsFile(env, r, p) && r.files[AbsIn(env, p)] == ConcatList(lines)
    ensures r.dirs == s.dirs && r.log == s.log
  {
    s.(files := s.files[AbsIn(env, p) := ConcatList(lines)])
  }

  /** The manifest ffmpeg reads from `list`: empty when there is none. */
  function ListedAt(env: Env, s: State, list: Path): (r: seq<string>)
    requires ValidEnv(env)
    ensures IsFile(env, s, list) && s.files[AbsIn(env, list)].ConcatList? ==> r == s.files[AbsIn(env, list)].lines
  {
    if IsFile(env, s, list) && s.files[AbsIn(env, list)].ConcatList? then s.files[AbsIn(env, list)].lines else []
  }

  /** `save_code_to_file(code, filename=p)`, whose success is the oracle's. */
  function SaveStep(env: Env, s: State, code: string, p: Path): (r: (bool, State))
    requires ValidEnv(env)
    ensures r.1.log == s.log + [Save(p)] && r.1.dirs == s.dirs
    ensures r.0 ==> IsFile(env, r.1, p) && r.1.files[AbsIn(env, p)] == Script(code)
    ensures !r.0 ==> r.1.files == s.files
  {
    var ok := env.tools.saved(AbsIn(env, p), |s.log|);
    var s' := s.(log := s.log + [Save(p)]);
    if ok then (true, s'.(files := s.files[AbsIn(env, p) := Script(code)])) else (false, s')
  }

  /**
   * `os.makedirs(p, exist_ok=True)`: refused (an exception) when a regular
   * file is in the way; otherwise the directory exists afterwards.
   */
  function MakeDirsStep(env: Env, s: State, p: Path): (r: (bool, State))
    requires ValidEnv(env)
    ensures r.0 <==> !IsFile(env, r.1, p)
    ensures r.0 ==> Exists(env, r.1, p) && r.1.files == s.files && r.1.log == s.log
    ensures !r.0 ==> r.1 == s
  {
    if IsFile(env, s, p) then (false, s) else (true, s.(dirs := s.dirs + {AbsIn(env, p)}))
  }

  /** The code-generation workflow for a description. */
  function GenerateStep(env: Env, s: State, description: string): (r: (Generation, State))
    ensures r.1 == s.(log := s.log + [Generate(description)])
  {
    (env.tools.generated(description, |s.log|), s.(log := s.log + [Generate(description)]))
  }

  /**
   * The machine as the pipeline sees it while it runs: the filesystem and the
   * call log change in place, the tools and the working directory do not.
   */
  class World {
    const env: Env
    var files: map<Path, Content>
    var dirs: set<Path>
    var log: seq<Command>

    function Now(): State
      reads this
    {
      State(files, dirs, log)
    }

    constructor (env: Env, files: map<Path, Content>, dirs: set<Path>)
      requires ValidEnv(env)
      ensures this.env == env && Now() == State(files, dirs, [])
    {
      this.env := env;
      this.files := files;
      this.dirs := dirs;
      this.log := [];
    }

    method PathExists(p: Path) returns (b: bool)
      requires ValidEnv(env)
      ensures b == Exists(env, Now(), p)
    {
      var a := AbsIn(env, p);
      b := a in files || a in dirs;
    }

    method Probe(p: Path) returns (d: Option<Seconds>)
      requires ValidEnv(env)
      modifies this
      ensures (d, Now()) == ProbeStep(env, old(Now()), p)
    {
      var a := AbsIn(env, p);
      d := if a in files then env.tools.duration(a, |log|) else None;
      log := log + [Command.Probe(p)];
    }

    method Run(cmd: Command) returns (status: int)
      requires ValidEnv(env)
      requires cmd.Render? || cmd.Concat? || cmd.Trim?
      modifies this
      ensures (status, Now()) == RunStep(env, old(Now()), cmd)
    {
      status := env.tools.status(cmd, |log|);
      if status == 0 {
        var s := Effect(env, Now(), cmd);
        files, dirs := s.files, s.dirs;
      }
      log := log + [cmd];
    }

    method Remove(p: Path)
      requires ValidEnv(env)
      modifies this
      ensures Now() == RemoveStep(env, old(Now()), p)
    {
      files := files - {AbsIn(env, p)};
    }

    method Copy(src: Path, dst: Path) returns (ok: bool)
      requires ValidEnv(env)
      modifies this
      ensures (ok, Now()) == CopyStep(env, old(Now()), src, dst)
    {
      var a := AbsIn(env, src);
      ok := a in files;
      if ok {
        files := files[AbsIn(env, dst) := files[a]];
      }
    }

    method Replace(src: Path, dst: Path) returns (ok: bool)
      requires ValidEnv(env)
      modifies this
      ensures (ok, Now()) == ReplaceStep(env, old(Now()), src, dst)
    {
      var a := AbsIn(env, src);
      ok := a in files;
      if ok {
        files := (files - {a})[AbsIn(env, dst) := files[a]];
      }
    }

    method WriteList(p: Path, lines: seq<string>)
      requires ValidEnv(env)
      modifies this
      ensures Now() == WriteListStep(env, old(Now()), p, lines)
    {
      files := files[AbsIn(env, p) := ConcatList(lines)];
    }

    method ReadList(p: Path) returns (lines: seq<string>)
      requires ValidEnv(env)
      ensures lines == ListedAt(env, Now(), p)
    {
      var a := AbsIn(env, p);
      lines := if a in files && files[a].ConcatList? then files[a].lines else [];
    }

    method Save(code: string, p: Path) returns (ok: bool)
      requires ValidEnv(env)
      modifies this
      ensures (ok, Now()) == SaveStep(env, old(Now()), code, p)
    {
      ok := env.tools.saved(AbsIn(env, p), |log|);
      if ok {
        files := files[AbsIn(env, p) := Script(code)];
      }
      log := log + [Command.Save(p)];
    }

    method MakeDirs(p: Path) returns (ok: bool)
      requires ValidEnv(env)
      modifies this
      ensures (ok, Now()) == MakeDirsStep(env, old(Now()), p)
    {
      var a := AbsIn(env, p);
      ok := a !in files;
      if ok {
        dirs := dirs + {a};
      }
    }

    method Generate(description: string) returns (g: Generation)
      modifies this
      ensures (g, Now()) == GenerateStep(env, old(Now()), description)
    {
      g := env.tools.generated(description, |log|);
      log := log + [Command.Generate(description)];
    }
  }
}
