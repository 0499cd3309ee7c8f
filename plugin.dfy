/** The older `pip-compile` environment class of `hatch_pip_compile/plugin.py`:
    where its lockfile lives, the `pip-compile` command it runs on a temporary
    `<env>.in` file, the banner it writes over the result, and the
    order-sensitive header comparison behind `dependencies_in_sync`. */
module Plugin {
  import opened Text
  import opened Host
  import opened Patterns
  import opened Header

  /** `_config_lock_directory`: the `lock-directory` option, or `<root>/.hatch`. */
  function ConfigLockDirectory(config: Config, root: string): string {
    match config.lockDirectory
    case Some(dir) => dir
    case None => Child(root, ".hatch")
  }

  /** The lockfile path `__init__` stores: `<lock directory>/<name>.lock`. */
  function LockFilePath(config: Config, root: string, name: string): string {
    Child(ConfigLockDirectory(config, root), name + ".lock")
  }

  /** Without a `lock-directory` option the lockfile is `<root>/.hatch/<name>.lock`;
      with one it is `<lock-directory>/<name>.lock`. */
  lemma LockFilePathDefault(config: Config, root: string, name: string)
    ensures config.lockDirectory.None? ==> LockFilePath(config, root, name) == root + "/.hatch/" + name + ".lock"
    ensures config.lockDirectory.Some? ==> LockFilePath(config, root, name) == config.lockDirectory.value + "/" + name + ".lock"
  {
  }

  /** Environments sharing a lock directory never share a lockfile. */
  lemma LockFilesDistinct(config: Config, root: string, a: string, b: string)
    requires a != b
    ensures LockFilePath(config, root, a) != LockFilePath(config, root, b)
  {
    var dir := ConfigLockDirectory(config, root);
    var pa, pb := LockFilePath(config, root, a), LockFilePath(config, root, b);
    assert pa[|dir| + 1..] == a + ".lock" && pb[|dir| + 1..] == b + ".lock";
    assert a + ".lock" != b + ".lock" by {
      if |a| == |b| {
        var k :| 0 <= k < |a| && a[k] != b[k];
        assert (a + ".lock")[k] != (b + ".lock")[k];
      }
    }
  }

  // ----- The compile command -----

  /** `pip-compile-hashes`, default `True`: only an explicit `False` turns it off. */
  predicate HashesOn(config: Config) {
    config.pipCompileHashes != Some(false)
  }

  /** The fixed part of the `pip-compile` command line. */
  function CompileHead(python: string, output: string): seq<string> {
    [python, "-m", "piptools", "compile", "--quiet", "--strip-extras", "--no-header",
     "--output-file", output, "--resolver=backtracking"]
  }

  /** The command `_pip_compile_command` runs. */
  function CompileArgv(env: Environment, output: string, input: string): seq<string> {
    CompileHead(env.pythonExecutable, output)
    + (if HashesOn(env.config) then ["--generate-hashes"] else [])
    + env.config.pipCompileArgs
    + [input]
  }

  /** The command is the fixed part, `--generate-hashes` exactly when the
      option is not `False`, the user's `pip-compile-args`, and last the input file. */
  lemma CompileArgvShape(env: Environment, output: string, input: string)
    ensures var cmd, args := CompileArgv(env, output, input), env.config.pipCompileArgs;
      && cmd[..10] == CompileHead(env.pythonExecutable, output)
      && (|cmd| == 12 + |args| <==> HashesOn(env.config))
      && (|cmd| == 11 + |args| <==> !HashesOn(env.config))
      && (HashesOn(env.config) ==> cmd[10] == "--generate-hashes")
      && cmd[|cmd| - 1 - |args|..|cmd| - 1] == args
      && cmd[|cmd| - 1] == input
  {
    var cmd, args := CompileArgv(env, output, input), env.config.pipCompileArgs;
    var h := if HashesOn(env.config) then ["--generate-hashes"] else [];
    assert cmd == CompileHead(env.pythonExecutable, output) + h + args + [input];
    assert cmd[|cmd| - 1 - |args|..|cmd| - 1] == args;
  }

  /** The banner's rule line: 84 `#` characters. */
  function Repeat(c: char, n: nat): (s: string)
    ensures |s| == n && forall j :: 0 <= j < n ==> s[j] == c
  {
    if n == 0 then [] else [c] + Repeat(c, n - 1)
  }

  function Rule(): string {
    Repeat('#', 84)
  }

  const Padlock: char := '\U{1F512}'

  /** `# 🔒 hatch-pip-compile 🔒` */
  const Title: string := "# " + [Padlock] + " hatch-pip-compile " + [Padlock]

  /** `dedent(prefix).strip()`: the banner, with every dependency on a
      `# - ` line of its own. An empty list still leaves a bare `# - ` line. */
  function Banner(deps: seq<string>): string {
    Join("\n", [Rule(), Title, "#", "# - " + Join("\n# - ", deps), "#", Rule()])
  }

  /** The text `_post_process_lockfile` writes: the banner, an empty line and
      the resolver's output with its `-r <dir>/<name>.in` reference replaced by
      `<project name> (pyproject.toml)`. Only `/` separates the directory here. */
  function PostProcessedText(deps: seq<string>, projectName: string, name: string, raw: string): string {
    Banner(deps) + "\n\n" + SubInputRefs(raw, {'/'}, name + ".in", projectName + " (pyproject.toml)")
  }

  /** The banner's lines. */
  function BannerLines(deps: seq<string>): seq<string> {
    [Rule(), Title, "#"] + (if deps == [] then ["# - "] else EntryLines(deps)) + ["#", Rule()]
  }

  lemma {:induction false} EntriesText(deps: seq<string>)
    requires deps != []
    ensures "# - " + Join("\n# - ", deps) == Join("\n", EntryLines(deps))
  {
    if |deps| > 1 {
      EntriesText(deps[1..]);
      var rest := Join("\n# - ", deps[1..]);
      assert Join("\n# - ", deps) == deps[0] + "\n# - " + rest;
      assert EntryLines(deps) == ["# - " + deps[0]] + EntryLines(deps[1..]);
      JoinAppend("\n", ["# - " + deps[0]], EntryLines(deps[1..]));
      assert "# - " + (deps[0] + "\n# - " + rest) == ("# - " + deps[0]) + "\n" + ("# - " + rest);
    } else {
      assert EntryLines(deps) == ["# - " + deps[0]];
    }
  }

  /** A joined sublist in the middle of a list joins like the sublist's items. */
  lemma JoinSplice(xs: seq<string>, ys: seq<string>, zs: seq<string>)
    requires xs != [] && ys != [] && zs != []
    ensures Join("\n", xs + [Join("\n", ys)] + zs) == Join("\n", xs + ys + zs)
  {
    JoinAppend("\n", xs, [Join("\n", ys)]);
    JoinAppend("\n", xs + [Join("\n", ys)], zs);
    JoinAppend("\n", xs, ys);
    JoinAppend("\n", xs + ys, zs);
  }

  /** The banner is its lines joined by newlines. */
  lemma BannerJoin(deps: seq<string>)
    ensures Banner(deps) == Join("\n", BannerLines(deps))
  {
    var E := if deps == [] then ["# - "] else EntryLines(deps);
    assert "# - " + Join("\n# - ", deps) == Join("\n", E) by {
      if deps != [] {
        EntriesText(deps);
      }
    }
    var head, tail := [Rule(), Title, "#"], ["#", Rule()];
    assert [Rule(), Title, "#", Join("\n", E), "#", Rule()] == head + [Join("\n", E)] + tail;
    JoinSplice(head, E, tail);
  }

  /** The title is printable text and padlocks. */
  lemma TitleChars()
    ensures forall j :: 0 <= j < |Title| ==> Title[j] == Padlock || ' ' <= Title[j] <= 'z'
  {
  }

  /** The rule and the title are comment lines of one line each, and neither
      is a `# - ` entry line. */
  lemma BannerFixedLines()
    ensures StartsWith(Rule(), "#") && !StartsWith(Rule(), "# - ") && NoLineBreaks(Rule())
    ensures StartsWith(Title, "#") && !StartsWith(Title, "# - ") && NoLineBreaks(Title)
  {
    assert Rule()[..1] == "#" && Rule()[1] == '#';
    assert Title[..1] == "#" && Title[2] == Padlock;
    TitleChars();
  }

  /** A short list of single lines, element by element. */
  lemma SingleLineList(xs: seq<string>)
    requires |xs| <= 3
    requires forall k :: 0 <= k < |xs| ==> NoLineBreaks(xs[k])
    ensures AllNoLineBreaks(xs)
  {
  }

  /** The banner's lines are single lines when the dependencies are. */
  lemma BannerLinesNoLineBreaks(deps: seq<string>)
    requires AllNoLineBreaks(deps)
    ensures AllNoLineBreaks(BannerLines(deps))
  {
    var E := if deps == [] then ["# - "] else EntryLines(deps);
    assert NoLineBreaks("#");
    BannerFixedLines();
    SingleLineList([Rule(), Title, "#"]);
    SingleLineList(["#", Rule()]);
    assert AllNoLineBreaks(E) by {
      if deps == [] {
        assert NoLineBreaks("# - ");
      } else {
        EntryLinesNoLineBreaks(deps);
      }
    }
    AllNoLineBreaksConcat([Rule(), Title, "#"], E);
    AllNoLineBreaksConcat([Rule(), Title, "#"] + E, ["#", Rule()]);
  }

  /** The lines of the text `_post_process_lockfile` writes: the banner's
      lines, an empty line, then the body's lines. */
  lemma PostProcessedLines(deps: seq<string>, projectName: string, name: string, raw: string)
    requires AllNoLineBreaks(deps)
    ensures SplitLines(PostProcessedText(deps, projectName, name, raw))
      == BannerLines(deps) + [""] + SplitLines(SubInputRefs(raw, {'/'}, name + ".in", projectName + " (pyproject.toml)"))
  {
    var body := SubInputRefs(raw, {'/'}, name + ".in", projectName + " (pyproject.toml)");
    var lines := BannerLines(deps);
    assert PostProcessedText(deps, projectName, name, raw) == Join("\n", lines) + "\n" + ("\n" + body) by {
      BannerJoin(deps);
    }
    BannerLinesNoLineBreaks(deps);
    SplitLinesOfSections(PostProcessedText(deps, projectName, name, raw), lines, body);
  }

  /** The banner reads back as the dependencies, in order; an empty list reads
      back as one empty entry. */
  lemma PostProcessedHeader(deps: seq<string>, projectName: string, name: string, raw: string)
    requires AllNoLineBreaks(deps)
    ensures HeaderOf(PostProcessedText(deps, projectName, name, raw)) == if deps == [] then [""] else deps
  {
    PostProcessedLines(deps, projectName, name, raw);
    HeaderOfBannerLines(deps, SplitLines(SubInputRefs(raw, {'/'}, name + ".in", projectName + " (pyproject.toml)")));
  }

  /** The `# - ` line of an empty dependency list is one empty entry. */
  lemma PlaceholderEntry()
    ensures HeaderEntries(["# - "]) == [""] && AllComments(["# - "])
  {
    assert "# - "[4..] == "" && StartsWith("# - ", "#") && StartsWith("# - ", "# - ");
    assert HeaderEntries(["# - "]) == [""] + HeaderEntries([]);
  }

  /** Whatever follows the banner and its empty line, the scan stops there. */
  lemma HeaderOfBannerLines(deps: seq<string>, rest: seq<string>)
    ensures HeaderEntries(BannerLines(deps) + [""] + rest) == if deps == [] then [""] else deps
  {
    var E := if deps == [] then ["# - "] else EntryLines(deps);
    var plain := [Rule(), Title, "#"];
    var tail := ["#", Rule()] + ([""] + rest);
    assert BannerLines(deps) + [""] + rest == plain + (E + tail) by {
      Associate5(plain, E, ["#", Rule()], [""], rest);
    }
    assert HeaderEntries(plain + (E + tail)) == HeaderEntries(E + tail) by {
      BannerFixedLines();
      HeaderEntriesSkipAll(plain, E + tail);
    }
    assert HeaderEntries(tail) == [] by {
      BannerFixedLines();
      HeaderEntriesSkipAll(["#", Rule()], [""] + rest);
      HeaderEntriesStop("", rest);
    }
    assert HeaderEntries(E) == (if deps == [] then [""] else deps) && AllComments(E) by {
      if deps == [] {
        PlaceholderEntry();
      } else {
        HeaderEntriesOfEntryLines(deps);
      }
    }
    HeaderEntriesAppend(E, tail);
  }

  // ----- The environment -----

  class PipCompileEnvironment {
    const environment: Environment
    const lockFile: string

    /** `__init__`: the lockfile path is fixed when the environment is created. */
    constructor(environment: Environment)
      ensures this.environment == environment
      ensures lockFile == LockFilePath(environment.config, environment.root, environment.name)
    {
      this.environment := environment;
      lockFile := LockFilePath(environment.config, environment.root, environment.name);
    }

    /** The argument vector of `_pip_compile_command`, grown as the source grows it. */
    method CompileCommand(output: string, input: string) returns (cmd: seq<string>)
      ensures cmd == CompileArgv(environment, output, input)
    {
      cmd := CompileHead(environment.pythonExecutable, output);
      if environment.config.pipCompileHashes != Some(false) {
        cmd := cmd + ["--generate-hashes"];
      }
      cmd := cmd + environment.config.pipCompileArgs;
      cmd := cmd + [input];
    }

    /** `_post_process_lockfile`: the banner over the resolver's output. */
    method PostProcessLockfile(host: Host) returns (r: Result<()>)
      modifies host
      ensures r.Ok? <==> lockFile in old(host.files)
      ensures r.Ok? ==> host.files == old(host.files)[lockFile :=
        PostProcessedText(environment.dependencies, environment.projectName, environment.name, old(host.files)[lockFile])]
      ensures r.Err? ==> host.files == old(host.files)
      ensures host.log == old(host.log) && host.environ == old(host.environ)
    {
      var text := ReadText(host.files, lockFile);
      if text.Err? {
        return Err(text.error);
      }
      var newText := PostProcessedText(environment.dependencies, environment.projectName, environment.name, text.value);
      host.WriteText(lockFile, newText);
      return Ok(());
    }

    /** `_pip_compile_command`: install pip-tools, run the resolver on
        `input` (`resolve` gives the text it writes to `output`), then
        post-process the lockfile. A resolver failure stops it there. */
    method PipCompileCommand(host: Host, output: string, input: string, resolve: string -> string) returns (r: Result<()>)
      modifies host
      ensures host.log == old(host.log) + [PipInstall(["pip-tools"]), Exec(CompileArgv(environment, output, input))]
      ensures input !in old(host.files) ==>
        r == Err(CommandFailed(CompileArgv(environment, output, input))) && host.files == old(host.files)
      ensures input in old(host.files) ==>
        var resolved := old(host.files)[output := resolve(old(host.files)[input])];
        && (r.Ok? <==> lockFile in resolved)
        && (r.Ok? ==> host.files == resolved[lockFile :=
              PostProcessedText(environment.dependencies, environment.projectName, environment.name, resolved[lockFile])])
        && (r.Err? ==> host.files == resolved)
      ensures host.environ == old(host.environ)
    {
      host.Run(PipInstall(["pip-tools"]));
      var cmd := CompileCommand(output, input);
      r := host.RunResolver(cmd, input, output, resolve);
      if r.Err? {
        return;
      }
      r := PostProcessLockfile(host);
    }

    /** `_pip_compile_cli`: the dependencies go to `<tmpdir>/<name>.in`, each
        followed by a newline, the resolver turns that text into the
        lockfile, and the temporary file goes away with its directory. */
    method PipCompileCli(host: Host, tmpDir: string, resolve: string -> string)
      requires Child(tmpDir, environment.name + ".in") !in host.files
      requires Child(tmpDir, environment.name + ".in") != lockFile
      modifies host
      ensures host.log == old(host.log) + [PipInstall(["pip-tools"]),
        Exec(CompileArgv(environment, lockFile, Child(tmpDir, environment.name + ".in")))]
      ensures host.files == old(host.files)[lockFile :=
        PostProcessedText(environment.dependencies, environment.projectName, environment.name,
          resolve(Terminated(environment.dependencies)))]
      ensures host.environ == old(host.environ)
    {
      var input := Child(tmpDir, environment.name + ".in");
      ghost var before := host.files;
      ghost var produced := resolve(Terminated(environment.dependencies));
      ghost var final := PostProcessedText(environment.dependencies, environment.projectName, environment.name, produced);
      host.WriteText(input, Terminated(environment.dependencies));
      var r := PipCompileCommand(host, lockFile, input, resolve);
      assert host.files == before[input := Terminated(environment.dependencies)][lockFile := produced][lockFile := final];
      host.Unlink(input);
      TemporaryInput(before, input, lockFile, Terminated(environment.dependencies), produced, final);
    }

    /** `_lock_file_compare`: the header entries, each followed by a newline,
        against the dependencies written the same way. */
    method LockFileCompare(files: map<string, string>) returns (r: Result<bool>)
      ensures r.Ok? <==> lockFile in files
      ensures r.Ok? ==> (r.value <==> Terminated(HeaderOf(files[lockFile])) == Terminated(environment.dependencies))
      ensures r.Ok? && AllNoLineBreaks(environment.dependencies) ==>
        (r.value <==> HeaderOf(files[lockFile]) == environment.dependencies)
    {
      var text := ReadText(files, lockFile);
      if text.Err? {
        return Err(text.error);
      }
      var lines := SplitLines(text.value);
      var parsed := [];
      var i := 0;
      while i < |lines|
        invariant i <= |lines|
        invariant parsed + HeaderEntries(lines[i..]) == HeaderEntries(lines)
      {
        assert lines[i..][0] == lines[i] && lines[i..][1..] == lines[i + 1..];
        if StartsWith(lines[i], "# - ") {
          parsed := parsed + [lines[i][4..]];
        } else if !StartsWith(lines[i], "#") {
          break;
        }
        i := i + 1;
      }
      var expected := Join("\n", parsed + [""]);
      var current := Join("\n", environment.dependencies + [""]);
      assert parsed == HeaderOf(text.value);
      if AllNoLineBreaks(environment.dependencies) {
        HeaderOfEntriesSingleLine(text.value);
        SingleLines(environment.dependencies);
        TerminatedInjective(parsed, environment.dependencies);
      }
      return Ok(expected == current);
    }

    /** `dependencies_in_sync`: with dependencies, a missing lockfile or a
        header that disagrees means out of sync; otherwise hatch decides
        (`hostInSync`), and without dependencies the lockfile is not looked at. */
    method DependenciesInSync(files: map<string, string>, hostInSync: bool) returns (inSync: bool)
      ensures environment.dependencies != [] && lockFile !in files ==> !inSync
      ensures environment.dependencies != [] && lockFile in files ==>
        (inSync <==> hostInSync && Terminated(HeaderOf(files[lockFile])) == Terminated(environment.dependencies))
      ensures environment.dependencies == [] ==> inSync == hostInSync
    {
      if |environment.dependencies| > 0 && lockFile !in files {
        return false;
      } else if |environment.dependencies| > 0 && lockFile in files {
        var expected := LockFileCompare(files);
        if expected == Ok(false) {
          return false;
        }
      }
      return hostInSync;
    }
  }

  /** A temporary file written, the lockfile written twice, the temporary
      file removed: only the lockfile's last text remains. */
  lemma TemporaryInput<K, V>(m: map<K, V>, input: K, lock: K, t: V, v: V, w: V)
    requires input !in m && input != lock
    ensures m[input := t][lock := v][lock := w] - {input} == m[lock := w]
  {
  }

  lemma SingleLines(items: seq<string>)
    requires AllNoLineBreaks(items)
    ensures forall k :: 0 <= k < |items| ==> '\n' !in items[k]
  {
    forall k | 0 <= k < |items| ensures '\n' !in items[k] {
      assert NoLineBreaks(items[k]);
    }
  }

  /** Header entries come from single lines. */
  lemma HeaderOfEntriesSingleLine(text: string)
    ensures forall k :: 0 <= k < |HeaderOf(text)| ==> '\n' !in HeaderOf(text)[k]
  {
    SplitLinesNoLineBreaks(text);
    HeaderEntriesNoLineBreaks(SplitLines(text));
    var h := HeaderOf(text);
    forall k | 0 <= k < |h| ensures '\n' !in h[k] {
      assert NoLineBreaks(h[k]);
    }
  }

  /** Right after `_pip_compile_cli`, an environment with dependencies finds
      its lockfile's header in agreement, so hatch alone decides whether it is
      in sync. */
  lemma CompareAfterPostProcess(deps: seq<string>, projectName: string, name: string, raw: string)
    requires deps != [] && AllNoLineBreaks(deps)
    ensures Terminated(HeaderOf(PostProcessedText(deps, projectName, name, raw))) == Terminated(deps)
  {
    PostProcessedHeader(deps, projectName, name, raw);
  }

  /** Without dependencies the banner's bare `# - ` line reads as one empty
      entry, so the header comparison would fail; `dependencies_in_sync`
      never asks it in that case. */
  lemma CompareEmptyAfterPostProcess(projectName: string, name: string, raw: string)
    ensures Terminated(HeaderOf(PostProcessedText([], projectName, name, raw))) != Terminated([])
  {
    PostProcessedHeader([], projectName, name, raw);
    assert Terminated([""]) == "\n" by {
      TerminatedPlaceholder([""]);
    }
    assert Terminated([]) == "";
  }

  /** The one empty entry, newline-terminated, is a lone newline. */
  lemma TerminatedPlaceholder(xs: seq<string>)
    requires xs == [""]
    ensures Join("\n", xs + [""]) == "\n"
  {
    assert xs + [""] == ["", ""];
    assert ["", ""][1..] == [""];
  }
}
