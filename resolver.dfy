/** The resolver command lines of `hatch_pip_compile/resolver.py`: the
    argument vector `get_pip_compile_args` assembles from the environment's
    options, its constraints file and the upgrade requests found in the
    process environment, for the `pip-compile` and the `uv` resolvers. */
module Resolver {
  import opened Text
  import opened Host

  /** `PipCompileResolver` or `UvResolver`. */
  datatype Kind = PipCompile | Uv

  /** `pypi_dependencies`: what the resolver installs into the environment first. */
  function PypiDependencies(kind: Kind): seq<string> {
    match kind
    case PipCompile => ["pip-tools"]
    case Uv => ["uv"]
  }

  /** `resolver_options` */
  function ResolverOptions(kind: Kind): seq<string> {
    match kind
    case PipCompile => ["--resolver=backtracking", "--strip-extras"]
    case Uv => []
  }

  /** `resolver_executable`, for the environment's Python. */
  function ResolverExecutable(kind: Kind, python: string): seq<string> {
    match kind
    case PipCompile => [python, "-m", "piptools", "compile"]
    case Uv => [python, "-m", "uv", "pip", "compile"]
  }

  /** `os.getenv(key)` */
  function GetEnv(environ: map<string, string>, key: string): Option<string> {
    if key in environ then Some(environ[key]) else None
  }

  /** A variable that is set to a non-empty text: `bool(os.getenv(key))`. */
  predicate IsSetNonEmpty(environ: map<string, string>, key: string) {
    key in environ && environ[key] != ""
  }

  const UpgradeVariable: string := "PIP_COMPILE_UPGRADE"
  const UpgradePackageVariable: string := "PIP_COMPILE_UPGRADE_PACKAGE"

  /** `--upgrade-package=<name>` for one comma-separated entry, stripped. */
  function PackageArg(entry: string): string {
    "--upgrade-package=" + Strip(entry)
  }

  /** One `--upgrade-package=<name>` per comma-separated entry, in order. */
  function PackageArgs(entries: seq<string>): (args: seq<string>)
    ensures |args| == |entries|
    ensures forall k :: 0 <= k < |entries| ==> args[k] == PackageArg(entries[k])
  {
    if entries == [] then []
    else [PackageArg(entries[0])] + PackageArgs(entries[1..])
  }

  lemma {:induction false} PackageArgsSnoc(entries: seq<string>, entry: string)
    ensures PackageArgs(entries + [entry]) == PackageArgs(entries) + [PackageArg(entry)]
  {
    if entries != [] {
      assert (entries + [entry])[1..] == entries[1..] + [entry];
      PackageArgsSnoc(entries[1..], entry);
    }
  }

  /** `upgrade_args` */
  function UpgradeArgs(environ: map<string, string>): seq<string> {
    if IsSetNonEmpty(environ, UpgradeVariable) then ["--upgrade"] else []
  }

  /** `upgrade_package_args` */
  function UpgradePackageArgs(environ: map<string, string>): seq<string> {
    if IsSetNonEmpty(environ, UpgradePackageVariable) then PackageArgs(Split(environ[UpgradePackageVariable], ','))
    else []
  }

  /** `--verbose` when `pip-compile-verbose` is `True`, `--quiet` otherwise. */
  function VerbosityFlag(config: Config): string {
    if config.pipCompileVerbose == Some(true) then "--verbose" else "--quiet"
  }

  /** `--generate-hashes` only when `pip-compile-hashes` is `True` (default `False`). */
  function HashArgs(config: Config): seq<string> {
    if config.pipCompileHashes == Some(true) then ["--generate-hashes"] else []
  }

  function ConstraintArgs(constraintsFile: Option<string>): seq<string> {
    match constraintsFile
    case None => []
    case Some(path) => ["--constraint", path]
  }

  /** The executable, the verbosity flag, `--no-header` and the resolver's options. */
  function CommandHead(kind: Kind, env: Environment): seq<string> {
    ResolverExecutable(kind, env.pythonExecutable) + [VerbosityFlag(env.config), "--no-header"] + ResolverOptions(kind)
  }

  /** The argument vector `get_pip_compile_args` returns. */
  function PipCompileArgs(kind: Kind, env: Environment, environ: map<string, string>, input: string, output: string): seq<string> {
    CommandHead(kind, env) + HashArgs(env.config) + ConstraintArgs(env.constraintsFile) + env.config.pipCompileArgs
    + UpgradeArgs(environ) + UpgradePackageArgs(environ) + ["--output-file", output, input]
  }

  /** The first half of `get_pip_compile_args`: the upgrade arguments read
      from the process environment. */
  method UpgradeRequests(environ: map<string, string>) returns (upgradeArgs: seq<string>, upgradePackageArgs: seq<string>)
    ensures upgradeArgs == UpgradeArgs(environ)
    ensures upgradePackageArgs == UpgradePackageArgs(environ)
  {
    var upgrade := IsSetNonEmpty(environ, UpgradeVariable);
    var upgradePackages := GetEnv(environ, UpgradePackageVariable);
    if upgradePackages == Some("") {
      upgradePackages := None;
    }
    upgradeArgs := [];
    upgradePackageArgs := [];
    if upgrade {
      upgradeArgs := upgradeArgs + ["--upgrade"];
    }
    if upgradePackages.Some? {
      var entries := Split(upgradePackages.value, ',');
      for i := 0 to |entries|
        invariant upgradePackageArgs == PackageArgs(entries[..i])
      {
        PackageArgsSnoc(entries[..i], entries[i]);
        TakeOneMore(entries, i);
        upgradePackageArgs := upgradePackageArgs + [PackageArg(entries[i])];
      }
      assert entries[..|entries|] == entries;
    }
  }

  /** `get_pip_compile_args`, building the list step by step as the source does. */
  method GetPipCompileArgs(kind: Kind, env: Environment, environ: map<string, string>, input: string, output: string)
    returns (cmd: seq<string>)
    ensures cmd == PipCompileArgs(kind, env, environ, input, output)
  {
    var upgradeArgs, upgradePackageArgs := UpgradeRequests(environ);
    cmd := ResolverExecutable(kind, env.pythonExecutable) + [VerbosityFlag(env.config), "--no-header"] + ResolverOptions(kind);
    ghost var stage := CommandHead(kind, env);
    if env.config.pipCompileHashes == Some(true) {
      cmd := cmd + ["--generate-hashes"];
    }
    assert cmd == stage + HashArgs(env.config);
    stage := stage + HashArgs(env.config);
    if env.constraintsFile.Some? {
      cmd := cmd + ["--constraint", env.constraintsFile.value];
    }
    assert cmd == stage + ConstraintArgs(env.constraintsFile);
    stage := stage + ConstraintArgs(env.constraintsFile);
    cmd := cmd + env.config.pipCompileArgs;
    cmd := cmd + upgradeArgs;
    cmd := cmd + upgradePackageArgs;
    assert cmd == stage + env.config.pipCompileArgs + UpgradeArgs(environ) + UpgradePackageArgs(environ);
    cmd := cmd + ["--output-file", output, input];
  }

  /** The head of the argument vector: the executable, the verbosity flag,
      `--no-header`, then the resolver's options. */
  lemma CommandHeadLayout(kind: Kind, env: Environment)
    ensures
      var head := CommandHead(kind, env);
      var exe := ResolverExecutable(kind, env.pythonExecutable);
      && |head| == |exe| + 2 + |ResolverOptions(kind)|
      && head[..|exe|] == exe
      && head[|exe|] == (if env.config.pipCompileVerbose == Some(true) then "--verbose" else "--quiet")
      && head[|exe| + 1] == "--no-header"
      && head[|exe| + 2..] == ResolverOptions(kind)
  {
    var exe := ResolverExecutable(kind, env.pythonExecutable);
    Slices3(exe, [VerbosityFlag(env.config), "--no-header"], ResolverOptions(kind));
  }

  /** The optional flags after the head: `--generate-hashes` exactly when
      hashes are on, then `--constraint <path>` exactly when there is a
      constraints file. */
  lemma PipCompileArgsFlags(kind: Kind, env: Environment, environ: map<string, string>, input: string, output: string)
    ensures
      var cmd := PipCompileArgs(kind, env, environ, input, output);
      var p := |CommandHead(kind, env)|;
      var q := p + |HashArgs(env.config)|;
      var r := q + |ConstraintArgs(env.constraintsFile)|;
      && r <= |cmd|
      && cmd[..p] == CommandHead(kind, env)
      && (q == p + 1 <==> env.config.pipCompileHashes == Some(true))
      && (q == p + 1 ==> cmd[p] == "--generate-hashes")
      && (r == q + 2 <==> env.constraintsFile.Some?)
      && (r == q + 2 ==> cmd[q] == "--constraint" && cmd[q + 1] == env.constraintsFile.value)
  {
    Slices7(CommandHead(kind, env), HashArgs(env.config), ConstraintArgs(env.constraintsFile), env.config.pipCompileArgs,
      UpgradeArgs(environ), UpgradePackageArgs(environ), ["--output-file", output, input]);
  }

  /** The rest of the argument vector: the user's arguments, `--upgrade`
      exactly when requested, one `--upgrade-package=` per entry, and last
      `--output-file <output> <input>`. */
  lemma PipCompileArgsTail(kind: Kind, env: Environment, environ: map<string, string>, input: string, output: string)
    ensures
      var cmd := PipCompileArgs(kind, env, environ, input, output);
      var r := |CommandHead(kind, env)| + |HashArgs(env.config)| + |ConstraintArgs(env.constraintsFile)|;
      var u := r + |env.config.pipCompileArgs|;
      var v := u + |UpgradeArgs(environ)|;
      var w := v + |UpgradePackageArgs(environ)|;
      && |cmd| == w + 3
      && cmd[r..u] == env.config.pipCompileArgs
      && (v == u + 1 <==> IsSetNonEmpty(environ, UpgradeVariable))
      && (v == u + 1 ==> cmd[u] == "--upgrade")
      && cmd[v..w] == UpgradePackageArgs(environ)
      && cmd[w..] == ["--output-file", output, input]
  {
    Slices7(CommandHead(kind, env), HashArgs(env.config), ConstraintArgs(env.constraintsFile), env.config.pipCompileArgs,
      UpgradeArgs(environ), UpgradePackageArgs(environ), ["--output-file", output, input]);
  }

  /** Seven parts laid end to end, each found again at its offset. */
  lemma Slices7<T>(a: seq<T>, b: seq<T>, c: seq<T>, d: seq<T>, e: seq<T>, f: seq<T>, g: seq<T>)
    ensures
      var x := a + b + c + d + e + f + g;
      var i, j, k := |a| + |b|, |a| + |b| + |c|, |a| + |b| + |c| + |d|;
      var l, m := k + |e|, k + |e| + |f|;
      && |x| == m + |g|
      && x[..|a|] == a && x[|a|..i] == b && x[i..j] == c && x[j..k] == d
      && x[k..l] == e && x[l..m] == f && x[m..] == g
  {
  }

  /** Three parts laid end to end, each found again at its offset. */
  lemma Slices3<T>(a: seq<T>, b: seq<T>, c: seq<T>)
    ensures
      var x := a + b + c;
      x[..|a|] == a && x[|a|..|a| + |b|] == b && x[|a| + |b|..] == c
  {
  }

  /** The `pip-compile` resolver adds `--resolver=backtracking` and
      `--strip-extras`; `uv` adds nothing and runs as `<python> -m uv pip compile`. */
  lemma ResolverKinds(python: string)
    ensures ResolverOptions(PipCompile) == ["--resolver=backtracking", "--strip-extras"]
    ensures ResolverOptions(Uv) == [] && ResolverExecutable(Uv, python) == [python, "-m", "uv", "pip", "compile"]
  {
  }

  /** Package names without commas and surrounding whitespace, joined by commas
      into the variable, come back as one `--upgrade-package=<name>` each, in order. */
  lemma UpgradePackagesRoundTrip(environ: map<string, string>, packages: seq<string>)
    requires packages != [] && Join(",", packages) != ""
    requires forall k :: 0 <= k < |packages| ==> ',' !in packages[k] && Strip(packages[k]) == packages[k]
    requires UpgradePackageVariable in environ && environ[UpgradePackageVariable] == Join(",", packages)
    ensures |UpgradePackageArgs(environ)| == |packages|
    ensures forall k :: 0 <= k < |packages| ==> UpgradePackageArgs(environ)[k] == "--upgrade-package=" + packages[k]
  {
    SplitOfJoin(packages, ',');
    assert UpgradePackageArgs(environ) == PackageArgs(packages);
  }
}
