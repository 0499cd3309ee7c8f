/** What the plugin sees of hatch and of the machine it runs on: the error
    kinds it raises, paths, the environment's `[tool.hatch.envs.<name>]`
    options, the facts a hatch environment supplies, and a host whose files,
    process environment and issued commands are plain values. */
module Host {
  import opened Text

  datatype Option<T> = None | Some(value: T)

  /** The exceptions the modelled code raises or lets through. */
  datatype Error =
    | FileNotFound(path: string)
      // `read_text`/`read_bytes` on a missing file
    | LockFileError(message: string)
      // raised by `lock_file_version` when the marker line is missing
    | InvalidVersion(text: string)
      // `packaging.version.Version` refusing its argument
    | NotImplemented(message: string)
      // `current_python_version` without a virtual environment
    | NotRelative(path: string, root: string)
      // `Path.relative_to` when `path` is not under `root`
    | CommandFailed(argv: seq<string>)
      // `check_command` when the command exits with an error

  datatype Result<T> = Ok(value: T) | Err(error: Error) {
    predicate IsOk() { Ok? }
  }

  /** `pathlib.Path(dir) / name` on paths written with `/` and no trailing slash. */
  function Child(dir: string, name: string): (p: string)
    ensures StartsWith(p, dir + "/") && p[|dir| + 1..] == name
  {
    assert (dir + "/" + name)[..|dir| + 1] == dir + "/";
    dir + "/" + name
  }

  /** `path.relative_to(root).as_posix()`. */
  function RelativePosix(path: string, root: string): (r: Result<string>)
    ensures r.Ok? <==> path == root || StartsWith(path, root + "/")
    ensures path != root && r.Ok? ==> Child(root, r.value) == path
  {
    if path == root then Ok(".")
    else if StartsWith(path, root + "/") then
      assert path == path[..|root| + 1] + path[|root| + 1..];
      Ok(path[|root| + 1..])
    else Err(NotRelative(path, root))
  }

  /** The options a `pip-compile` environment reads from its hatch config.
      A boolean option is `None` when absent; the list options are empty when absent. */
  datatype Config = Config(
    lockDirectory: Option<string>,        // "lock-directory"
    pipCompileHashes: Option<bool>,       // "pip-compile-hashes"
    pipCompileVerbose: Option<bool>,      // "pip-compile-verbose"
    pipCompileArgs: seq<string>,          // "pip-compile-args"
    pipCompileInstallArgs: seq<string>)   // "pip-compile-install-args"

  /** What hatch supplies about one environment. */
  datatype Environment = Environment(
    name: string,
    root: string,                         // project root
    projectName: string,                  // `metadata.name`
    dependencies: seq<string>,            // declared requirement strings, in order
    config: Config,
    lockFile: string,                     // `piptools_lock_file`
    constraintsFile: Option<string>,      // `piptools_constraints_file`
    pythonExecutable: string,             // `virtual_env.python_info.executable`
    pythonVersion: Option<string>,        // `virtual_env.environment["python_version"]`, None without a virtual env
    uvVerbosityFlags: seq<string>,        // what `add_verbosity_flag(..., adjustment=-1)` appends
    skipInstall: bool,
    devMode: bool)

  /** A command the plugin has the host run. */
  datatype Command =
    | PipInstall(args: seq<string>)       // hatch's `construct_pip_install_command(args)`, then run
    | Exec(argv: seq<string>)             // an argument vector run as given
    | RunPipCompile                       // the environment's `run_pip_compile()`

  /** The machine: file contents by path, the process environment, and every
      command run so far, oldest first. */
  class Host {
    var files: map<string, string>
    var environ: map<string, string>
    var log: seq<Command>

    constructor(files: map<string, string>, environ: map<string, string>)
      ensures this.files == files && this.environ == environ && log == []
    {
      this.files := files;
      this.environ := environ;
      log := [];
    }

    /** `platform.check_command` / `plugin_check_command`: the command is recorded. */
    method Run(c: Command)
      modifies this
      ensures log == old(log) + [c]
      ensures files == old(files) && environ == old(environ)
    {
      log := log + [c];
    }

    /** A resolver run: the command is recorded, and the resolver reads
        `input` and writes `output`, whose text `resolve` gives as a function
        of the input's text. Without its input the resolver fails and
        `check_command` raises. */
    method RunResolver(argv: seq<string>, input: string, output: string, resolve: string -> string) returns (r: Result<()>)
      modifies this
      ensures log == old(log) + [Exec(argv)]
      ensures r.Ok? <==> input in old(files)
      ensures r.Ok? ==> files == old(files)[output := resolve(old(files)[input])]
      ensures r.Err? ==> files == old(files) && r.error == CommandFailed(argv)
      ensures environ == old(environ)
    {
      log := log + [Exec(argv)];
      if input !in files {
        return Err(CommandFailed(argv));
      }
      files := files[output := resolve(files[input])];
      return Ok(());
    }

    /** `Path.write_text` */
    method WriteText(path: string, text: string)
      modifies this
      ensures files == old(files)[path := text]
      ensures log == old(log) && environ == old(environ)
    {
      files := files[path := text];
    }

    /** `Path.unlink`, and the removal of a temporary directory's file. */
    method Unlink(path: string)
      modifies this
      ensures files == old(files) - {path}
      ensures log == old(log) && environ == old(environ)
    {
      files := files - {path};
    }

    /** `os.environ.update(updates)` */
    method UpdateEnviron(updates: map<string, string>)
      modifies this
      ensures environ == old(environ) + updates
      ensures files == old(files) && log == old(log)
    {
      environ := environ + updates;
    }
  }

  /** `Path.read_text`: the file's text, or the error for a missing file. */
  function ReadText(files: map<string, string>, path: string): (r: Result<string>)
    ensures r.Ok? <==> path in files
    ensures r.Ok? ==> r.value == files[path]
  {
    if path in files then Ok(files[path]) else Err(FileNotFound(path))
  }
}
