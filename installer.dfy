/** The installers of `hatch_pip_compile/installer.py`: how the locked
    dependencies and the project itself get into the environment with `pip`,
    `uv` or `pip-sync`. The host is a command log and a map of file texts. */
module Installer {
  import opened Host
  import opened Base

  datatype InstallerKind =
    | Pip      // `PipInstaller`
    | Uv       // `UvInstaller`
    | PipSync  // `PipSyncInstaller`

  /** The class-level `pypi_dependencies`. */
  function InstallerPypi(kind: InstallerKind): seq<string> {
    match kind
    case Pip => []
    case Uv => ["uv"]
    case PipSync => ["pip-tools"]
  }

  /** What the installer's state looks like from outside: the command log,
      the files, and the install-once flag of its base. */
  datatype State = State(log: seq<Command>, files: map<string, string>, installed: bool)

  /** `construct_pip_install_command(args)`: hatch's `pip install` for `pip`
      and `pip-sync`, `python -m uv pip install` plus the verbosity flags and
      the arguments for `uv`. */
  function InstallCommand(kind: InstallerKind, env: Environment, args: seq<string>): (c: Command)
    ensures kind != Uv ==> c == PipInstall(args)
    ensures kind == Uv ==>
      && c.Exec? && |c.argv| == 5 + |env.uvVerbosityFlags| + |args|
      && c.argv[..5] == ["python", "-m", "uv", "pip", "install"]
      && c.argv[5..5 + |env.uvVerbosityFlags|] == env.uvVerbosityFlags
      && c.argv[|c.argv| - |args|..] == args
  {
    if kind == Uv then
      var argv := ["python", "-m", "uv", "pip", "install"] + env.uvVerbosityFlags + args;
      assert argv[..5] == ["python", "-m", "uv", "pip", "install"];
      assert argv[5..5 + |env.uvVerbosityFlags|] == env.uvVerbosityFlags;
      assert argv[|argv| - |args|..] == args;
      Exec(argv)
    else PipInstall(args)
  }

  /** The arguments of `install_project` (`editable` false) and of
      `install_project_dev_mode` (`editable` true). */
  function ProjectArgs(env: Environment, editable: bool): seq<string> {
    if editable then ["--no-deps", "--editable", env.root] else ["--no-deps", env.root]
  }

  /** `PipInstaller`'s arguments: the user's install arguments, then the lockfile. */
  function RequirementArgs(env: Environment): seq<string> {
    env.config.pipCompileInstallArgs + ["--requirement", env.lockFile]
  }

  /** The `pip-sync` argument vector. */
  function SyncArgv(env: Environment): seq<string> {
    [env.pythonExecutable, "-m", "piptools", "sync",
     if env.config.pipCompileVerbose == Some(true) then "--verbose" else "--quiet",
     "--python-executable", env.pythonExecutable]
    + env.config.pipCompileInstallArgs + [env.lockFile]
  }

  /** The state after `install_pypi_dependencies`. */
  function PypiState(kind: InstallerKind, s: State, inSync: bool): State {
    var step := InstallStep(InstallerPypi(kind), s.installed, inSync);
    State(s.log + step.commands, s.files, step.installed)
  }

  /** The state after `install_dependencies`. */
  function DependenciesState(kind: InstallerKind, env: Environment, s: State, inSync: bool): State {
    var p := PypiState(kind, s, inSync);
    match kind
    case PipSync =>
      if env.dependencies == [] then State(p.log + [Exec(SyncArgv(env))], p.files - {env.lockFile}, p.installed)
      else State(p.log + [Exec(SyncArgv(env))], p.files, p.installed)
    case _ =>
      if env.lockFile !in p.files then p
      else State(p.log + [InstallCommand(kind, env, RequirementArgs(env))], p.files, p.installed)
  }

  /** The state after `PluginInstaller.install_project` or `install_project_dev_mode`. */
  function ProjectState(kind: InstallerKind, env: Environment, editable: bool, s: State, inSync: bool): State {
    var p := PypiState(kind, s, inSync);
    State(p.log + [InstallCommand(kind, env, ProjectArgs(env, editable))], p.files, p.installed)
  }

  /** The state after `PipSyncInstaller._full_install`. */
  function FullInstallState(env: Environment, s: State, inSync: bool): State {
    var compiled := State(s.log + [RunPipCompile], s.files, s.installed);
    var synced := DependenciesState(PipSync, env, compiled, inSync);
    if env.skipInstall then synced else ProjectState(PipSync, env, env.devMode, synced, inSync)
  }

  /** The state after `sync_dependencies`. */
  function SyncState(kind: InstallerKind, env: Environment, s: State, inSync: bool): State {
    if kind == PipSync then FullInstallState(env, s, inSync)
    else DependenciesState(kind, env, PypiState(kind, s, inSync), inSync)
  }

  /** The `pip-sync` command: `--verbose` exactly when `pip-compile-verbose`
      is true, the user's install arguments, and the lockfile last. */
  lemma SyncArgvLayout(env: Environment)
    ensures
      var argv := SyncArgv(env);
      var extra := env.config.pipCompileInstallArgs;
      && |argv| == 8 + |extra|
      && argv[..4] == [env.pythonExecutable, "-m", "piptools", "sync"]
      && (argv[4] == "--verbose" <==> env.config.pipCompileVerbose == Some(true))
      && (argv[4] != "--verbose" ==> argv[4] == "--quiet")
      && argv[5..7] == ["--python-executable", env.pythonExecutable]
      && argv[7..|argv| - 1] == extra
      && argv[|argv| - 1] == env.lockFile
  {
    var argv := SyncArgv(env);
    var head := [env.pythonExecutable, "-m", "piptools", "sync",
      if env.config.pipCompileVerbose == Some(true) then "--verbose" else "--quiet",
      "--python-executable", env.pythonExecutable];
    assert argv == head + env.config.pipCompileInstallArgs + [env.lockFile];
    assert argv[..4] == head[..4];
    assert argv[5..7] == head[5..7];
    assert argv[7..|argv| - 1] == env.config.pipCompileInstallArgs;
    assert "--quiet" != "--verbose" by {
      assert "--quiet"[2] != "--verbose"[2];
    }
  }

  /** With `pip` or `uv` and no lockfile on disk, `install_dependencies`
      issues nothing beyond the PyPI step; with one, it installs from it. */
  lemma {:induction false} DependenciesWithoutLockfile(kind: InstallerKind, env: Environment, s: State, inSync: bool)
    requires kind != PipSync
    ensures
      var p := PypiState(kind, s, inSync);
      var after := DependenciesState(kind, env, s, inSync);
      && after.files == s.files
      && (env.lockFile !in s.files ==> after.log == p.log)
      && (env.lockFile in s.files ==> after.log == p.log + [InstallCommand(kind, env, RequirementArgs(env))])
  {
  }

  /** `pip-sync` with no dependencies leaves no lockfile behind, even when one
      existed; with dependencies the files are untouched. The full install
      behaves the same way. */
  lemma PipSyncLockfileLifecycle(env: Environment, s: State, inSync: bool)
    ensures env.dependencies == [] ==> env.lockFile !in DependenciesState(PipSync, env, s, inSync).files
    ensures env.dependencies == [] ==> env.lockFile !in FullInstallState(env, s, inSync).files
    ensures env.dependencies == [] ==> FullInstallState(env, s, inSync).files == s.files - {env.lockFile}
    ensures env.dependencies != [] ==> FullInstallState(env, s, inSync).files == s.files
  {
  }

  /** The full install runs the compile step, then the PyPI step, then
      `pip-sync`, then, unless `skip-install`, one `pip install` of the
      project, editable exactly in dev mode; the second PyPI step issues
      nothing because the first one set the flag. */
  lemma FullInstallOrder(env: Environment, s: State, inSync: bool)
    ensures
      var step := InstallStep(["pip-tools"], s.installed, inSync);
      var project := if env.skipInstall then [] else [PipInstall(ProjectArgs(env, env.devMode))];
      && FullInstallState(env, s, inSync).log == s.log + [RunPipCompile] + step.commands + [Exec(SyncArgv(env))] + project
      && FullInstallState(env, s, inSync).installed
  {
    var step := InstallStep(["pip-tools"], s.installed, inSync);
    InstallStepIdempotent(["pip-tools"], s.installed, inSync, inSync);
    var compiled := State(s.log + [RunPipCompile], s.files, s.installed);
    var synced := DependenciesState(PipSync, env, compiled, inSync);
    assert synced.log == s.log + [RunPipCompile] + step.commands + [Exec(SyncArgv(env))];
    assert synced.installed;
  }

  /** A file written and then removed is gone, whatever was there before. */
  lemma WriteThenRemove<K, V>(m: map<K, V>, k: K, v: V)
    ensures m[k := v] - {k} == m - {k}
  {
  }

  /** A PluginInstaller: a `HatchPipCompileBase` of one of the three kinds. */
  class PluginInstaller {
    const kind: InstallerKind
    const environment: Environment
    const base: HatchPipCompileBase

    ghost predicate Valid() {
      base.environment == environment && base.pypiDependencies == InstallerPypi(kind)
    }

    constructor(kind: InstallerKind, environment: Environment)
      ensures this.kind == kind && this.environment == environment && Valid()
      ensures fresh(base) && !base.pypiDependenciesInstalled
    {
      this.kind := kind;
      this.environment := environment;
      base := new HatchPipCompileBase(environment, InstallerPypi(kind));
    }

    /** The installer's state on `host`. */
    function StateOf(host: Host): State
      reads this, base, host
    {
      State(host.log, host.files, base.pypiDependenciesInstalled)
    }

    /** `install_dependencies` of `PipInstaller`, `UvInstaller` or `PipSyncInstaller`. */
    method InstallDependencies(host: Host, inSync: bool)
      requires Valid()
      modifies base, host
      ensures StateOf(host) == DependenciesState(kind, environment, old(StateOf(host)), inSync)
      ensures host.environ == old(host.environ)
    {
      ghost var start := StateOf(host);
      base.InstallPypiDependencies(host, inSync);
      assert StateOf(host) == PypiState(kind, start, inSync);
      if kind == PipSync {
        ghost var files := host.files;
        var cmd := [environment.pythonExecutable, "-m", "piptools", "sync",
          if environment.config.pipCompileVerbose == Some(true) then "--verbose" else "--quiet",
          "--python-executable", environment.pythonExecutable];
        if environment.dependencies == [] {
          host.WriteText(environment.lockFile, "");
        }
        cmd := cmd + environment.config.pipCompileInstallArgs;
        cmd := cmd + [environment.lockFile];
        host.Run(Exec(cmd));
        if environment.dependencies == [] {
          host.Unlink(environment.lockFile);
          WriteThenRemove(files, environment.lockFile, "");
        }
      } else {
        if environment.lockFile !in host.files {
          return;
        }
        var args := environment.config.pipCompileInstallArgs + ["--requirement", environment.lockFile];
        host.Run(InstallCommand(kind, environment, args));
      }
    }

    /** `PluginInstaller.install_project` (`editable` false) and
        `install_project_dev_mode` (`editable` true), before `pip-sync`
        reroutes them. */
    method InstallProjectAs(host: Host, editable: bool, inSync: bool)
      requires Valid()
      modifies base, host
      ensures StateOf(host) == ProjectState(kind, environment, editable, old(StateOf(host)), inSync)
      ensures host.environ == old(host.environ)
    {
      base.InstallPypiDependencies(host, inSync);
      var args := if editable then ["--no-deps", "--editable", environment.root] else ["--no-deps", environment.root];
      host.Run(InstallCommand(kind, environment, args));
    }

    /** `PipSyncInstaller._full_install` */
    method FullInstall(host: Host, inSync: bool)
      requires Valid() && kind == PipSync
      modifies base, host
      ensures StateOf(host) == FullInstallState(environment, old(StateOf(host)), inSync)
      ensures host.environ == old(host.environ)
    {
      host.Run(RunPipCompile);
      InstallDependencies(host, inSync);
      if !environment.skipInstall {
        InstallProjectAs(host, environment.devMode, inSync);
      }
    }

    /** `sync_dependencies`: the PyPI step then `install_dependencies`, or the
        full install for `pip-sync`. */
    method SyncDependencies(host: Host, inSync: bool)
      requires Valid()
      modifies base, host
      ensures StateOf(host) == SyncState(kind, environment, old(StateOf(host)), inSync)
      ensures host.environ == old(host.environ)
    {
      if kind == PipSync {
        FullInstall(host, inSync);
      } else {
        base.InstallPypiDependencies(host, inSync);
        InstallDependencies(host, inSync);
      }
    }

    /** `install_project`: the full install for `pip-sync`. */
    method InstallProject(host: Host, inSync: bool)
      requires Valid()
      modifies base, host
      ensures kind != PipSync ==> StateOf(host) == ProjectState(kind, environment, false, old(StateOf(host)), inSync)
      ensures kind == PipSync ==> StateOf(host) == FullInstallState(environment, old(StateOf(host)), inSync)
      ensures host.environ == old(host.environ)
    {
      if kind == PipSync {
        FullInstall(host, inSync);
      } else {
        InstallProjectAs(host, false, inSync);
      }
    }

    /** `install_project_dev_mode`: the full install for `pip-sync`. */
    method InstallProjectDevMode(host: Host, inSync: bool)
      requires Valid()
      modifies base, host
      ensures kind != PipSync ==> StateOf(host) == ProjectState(kind, environment, true, old(StateOf(host)), inSync)
      ensures kind == PipSync ==> StateOf(host) == FullInstallState(environment, old(StateOf(host)), inSync)
      ensures host.environ == old(host.environ)
    {
      if kind == PipSync {
        FullInstall(host, inSync);
      } else {
        InstallProjectAs(host, true, inSync);
      }
    }
  }
}
