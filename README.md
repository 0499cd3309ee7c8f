# hatch-pip-compile, modelled in Dafny

This project models the core of `hatch-pip-compile`, a hatch environment plugin that locks
an environment's dependencies with `pip-compile` or `uv`. The modelled parts are:

- the lockfile header codec of `lock.py`. `process_lock` writes a comment header. The header
  records the Python version, the constraints file's SHA-256 digest and the declared
  dependencies. The readers and comparators read that header back to decide whether the
  lockfile is stale.
- the older environment class of `plugin.py`, with:
  - its lockfile path;
  - its `pip-compile` command and temporary `<env>.in` input;
  - its banner;
  - the order-sensitive header comparison behind `dependencies_in_sync`.
- the resolver argument vector of `resolver.py`.
- the `hatch-pip-compile` command of `cli.py`, with:
  - environment selection and validation;
  - the environment variables set on entry and restored on exit;
  - the `hatch env run` loop.
- the install-once flag of `base.py`.
- the `pip`, `uv` and `pip-sync` installers of `installer.py`.

The modules are:

- `Text`: Python string operations as the source uses them (`splitlines`, `join`, `split`,
  `strip`, `replace`, `sorted`).
- `Host`: the outside world. Files are a map from path to text, the process environment is a
  map, and commands are appended to a log.
- `Patterns`: hand-written matchers for the regular expressions the source uses.
- `Header`: the `# - ` header scan shared by `lock.py` and `plugin.py`.
- `Lock`, `Plugin`, `Resolver`, `Cli`, `Base`, `Installer`: one module per source file.

Classes whose fields the source updates become Dafny classes:

- `HatchPipCompileBase`, with its flag;
- `HatchCommandRunner`, with its selection and its saved variables;
- `PipCompileEnvironment` and `PluginInstaller`, with their host effects.

Loops become methods with invariants, proved against a specification function:

- `read_header_requirements` and `_lock_file_compare`;
- the `for` loop of `get_pip_compile_args`;
- the loop of `hatch_cli`.

The rest becomes functions and lemmas.

Two behaviours of the code are worth knowing:

- `get_pip_compile_args` generates hashes only when `pip-compile-hashes` is `True`, so hashes
  are off by default there. `_pip_compile_command` in `plugin.py` turns them on by default.
- `_lock_file_compare` compares ordered lists, and `compare_requirements` compares sets.

## Model

| member | source | states |
|---|---|---|
| Lock.ParseVersionText | hatch_pip_compile/lock.py:93-105 | a `major.minor` text as `process_lock` writes it parses back to exactly that release, with no suffix |
| Lock.VersionEqualityExamples | hatch_pip_compile/lock.py:117-127 | version equality ignores trailing zeros (`3.11 == 3.11.0`) but `3.11 != 3.11.4`, while both share major and minor |
| Lock.ProcessLockText | hatch_pip_compile/lock.py:29-62 | the text is produced only when the Python version is known and the lockfile (and the constraints file, if configured) can be read |
| Lock.ProcessLock | hatch_pip_compile/lock.py:29-63 | on success the lockfile, and nothing else, holds the post-processed text; on error no file changes; the log and environment are untouched |
| Lock.LockTextLines | hatch_pip_compile/lock.py:33-62 | the lines written are `#`, the autogenerated line, `#`, the optional `[constraints]` line and `#`, one `# - d` per dependency in order, `#`, an empty line, then the rewritten body's lines |
| Lock.HeaderOfLines | hatch_pip_compile/lock.py:65-77 | scanning those header lines followed by an empty line yields the dependencies, whatever follows |
| Lock.LockTextHeader | hatch_pip_compile/lock.py:40-77 | the header scan of the written text returns exactly the dependencies in declared order |
| Lock.LockTextVersion | hatch_pip_compile/lock.py:33-101 | searching the written text for the autogenerated line captures the `major.minor` that was written |
| Lock.LockTextSha | hatch_pip_compile/lock.py:54-149 | the `[constraints]` search on the written text captures the digest that was written |
| Lock.ProcessLockReadBack | hatch_pip_compile/lock.py:29-149 | after `process_lock`: the header reads back as the dependencies; `compare_requirements` on them is true; `lock_file_version` is the running `major.minor`; `compare_python_versions` logs no warning; `compare_constraint_sha` of the constraints file's hash is true |
| Lock.CurrentPythonVersion | hatch_pip_compile/lock.py:79-91 | without a virtual environment the result is the `NotImplementedError` message, and only then |
| Lock.ReadHeaderRequirements | hatch_pip_compile/lock.py:65-77 | fails exactly when the lockfile is missing; otherwise returns the `# - ` entries up to the first line that is not a comment |
| Lock.LockFileVersion | hatch_pip_compile/lock.py:93-105 | `LockFileError` is raised exactly when the lockfile exists and contains no autogenerated line |
| Lock.ComparePythonVersions | hatch_pip_compile/lock.py:107-127 | the result is full version equality; a warning is logged exactly when major or minor differ and `verbose` is not `False` |
| Lock.CompareRequirements | hatch_pip_compile/lock.py:129-139 | true exactly when the requirements and the header entries have the same elements, whatever the order and repetitions |
| Lock.SameElements | hatch_pip_compile/lock.py:139 | two lists give equal sets exactly when every element of one is in the other |
| Lock.CompareConstraintSha | hatch_pip_compile/lock.py:141-149 | false without a `[constraints]` line; otherwise true exactly when the captured digest and the argument agree after stripping |
| Lock.GetFileContentHash | hatch_pip_compile/lock.py:151-157 | a hash is returned exactly when the lockfile exists, and it is the digest of the text with CR LF replaced by LF |
| Lock.ConstraintDigestIsContentHash | hatch_pip_compile/lock.py:47-157 | the `[constraints]` digest `process_lock` writes equals what `get_file_content_hash` computes for the constraints file as another environment's lockfile, so `compare_constraint_sha` of that hash is true |
| Lock.ContentHashIgnoresCrlf | hatch_pip_compile/lock.py:151-157 | a text saved with CR LF line endings hashes like the same text with LF endings |
| Lock.ReadLockRequirements | hatch_pip_compile/lock.py:159-169 | with no dependencies the result is empty and the lockfile is not read; otherwise it fails exactly when the lockfile is missing |
| Patterns.RewriteInputRef | hatch_pip_compile/lock.py:42-46 | a `-r <dir><sep><env>.in` token, with `/` or `\` as separator, is replaced and the scan resumes right after it |
| Patterns.SubInputRefsUnchanged | hatch_pip_compile/lock.py:42-46 | text in which the pattern matches nowhere comes back unchanged |
| Patterns.NoSeparatorNoInputRef | hatch_pip_compile/lock.py:43 | text without a separator character contains no match |
| Patterns.RewriteConstraintRef | hatch_pip_compile/lock.py:56-60 | `-c <token>` becomes `-c <path>` whatever the token was |
| Patterns.SubConstraintRefsUnchanged | hatch_pip_compile/lock.py:56-60 | text without `-c ` comes back unchanged |
| Text.ReplaceCrlfUndoesToCrlf | hatch_pip_compile/lock.py:49 | replacing CR LF by LF undoes converting LF to CR LF |
| Text.SplitLinesOfTerminated | hatch_pip_compile/plugin.py:78 | the temporary input file, each dependency followed by a newline, splits back into the dependencies |
| Text.TerminatedInjective | hatch_pip_compile/plugin.py:169-171 | two lists of single lines, each newline-terminated and joined, give equal texts exactly when the lists are equal |
| Plugin.LockFilePathDefault | hatch_pip_compile/plugin.py:28-44 | the lockfile is `<root>/.hatch/<name>.lock` without `lock-directory`, and `<lock-directory>/<name>.lock` with it |
| Plugin.LockFilesDistinct | hatch_pip_compile/plugin.py:28 | environments with different names never share a lockfile |
| Plugin.PipCompileEnvironment.constructor | hatch_pip_compile/plugin.py:23-28 | the lockfile path is fixed at construction |
| Plugin.CompileArgvShape | hatch_pip_compile/plugin.py:51-66 | the fixed head, then `--generate-hashes` exactly when `pip-compile-hashes` is not `False`, then the user's `pip-compile-args`, and last the input file |
| Plugin.PipCompileEnvironment.CompileCommand | hatch_pip_compile/plugin.py:51-66 | the list built step by step is the command above |
| Plugin.PipCompileEnvironment.PipCompileCommand | hatch_pip_compile/plugin.py:46-68 | installs pip-tools, runs the compile command, then post-processes the lockfile the resolver wrote from the input; without the input file the resolver fails and nothing is written |
| Plugin.PipCompileEnvironment.PipCompileCli | hatch_pip_compile/plugin.py:70-79 | the resolver reads a temporary `<name>.in` holding each dependency followed by a newline; afterwards only the lockfile has changed, holding the post-processed resolution of that text |
| Plugin.PipCompileEnvironment.PostProcessLockfile | hatch_pip_compile/plugin.py:135-155 | the lockfile, and nothing else, is overwritten with the banner, an empty line and the rewritten body; a missing lockfile is an error |
| Plugin.PostProcessedLines | hatch_pip_compile/plugin.py:139-154 | the written lines are the banner's lines, one `# - d` per dependency, an empty line, then the body's lines |
| Plugin.HeaderOfBannerLines | hatch_pip_compile/plugin.py:139-168 | every banner line is a comment, and the empty line after it stops the scan |
| Plugin.PostProcessedHeader | hatch_pip_compile/plugin.py:139-168 | the banner reads back as the dependencies in order; an empty list reads back as one empty entry |
| Plugin.PipCompileEnvironment.LockFileCompare | hatch_pip_compile/plugin.py:157-171 | true exactly when the newline-terminated header entries equal the newline-terminated dependencies; for single-line dependencies, exactly when the lists are equal in order |
| Plugin.CompareAfterPostProcess | hatch_pip_compile/plugin.py:135-171 | right after post-processing, a non-empty dependency list compares equal to the header |
| Plugin.CompareEmptyAfterPostProcess | hatch_pip_compile/plugin.py:139-171 | with no dependencies the banner's bare `# - ` line makes the comparison false |
| Plugin.PipCompileEnvironment.DependenciesInSync | hatch_pip_compile/plugin.py:115-125 | with dependencies, a missing lockfile or a disagreeing header means out of sync; otherwise the host decides, and without dependencies the lockfile is not consulted |
| Resolver.CommandHeadLayout | hatch_pip_compile/resolver.py:42-49 | the argv starts with the resolver executable, then `--verbose` exactly when `pip-compile-verbose` is `True` (else `--quiet`), then `--no-header`, then the resolver's options |
| Resolver.ResolverKinds | hatch_pip_compile/resolver.py:61-100 | `pip-compile` adds `--resolver=backtracking --strip-extras`; `uv` adds nothing and runs as `<python> -m uv pip compile` |
| Resolver.PipCompileArgsFlags | hatch_pip_compile/resolver.py:50-53 | `--generate-hashes` appears exactly when `pip-compile-hashes` is `True`; `--constraint <path>` appears exactly when there is a constraints file |
| Resolver.PipCompileArgsTail | hatch_pip_compile/resolver.py:32-57 | user arguments, then `--upgrade` exactly when `PIP_COMPILE_UPGRADE` is non-empty, then the package arguments, then `--output-file <output> <input>` last |
| Resolver.PackageArgs | hatch_pip_compile/resolver.py:39-41 | one `--upgrade-package=<entry stripped>` per entry, in input order |
| Resolver.UpgradeRequests | hatch_pip_compile/resolver.py:32-41 | the `for` loop yields the upgrade and package arguments of the specification |
| Resolver.GetPipCompileArgs | hatch_pip_compile/resolver.py:28-58 | the list built step by step is the specified argument vector |
| Resolver.UpgradePackagesRoundTrip | hatch_pip_compile/resolver.py:33-41 | comma-joined package names in `PIP_COMPILE_UPGRADE_PACKAGE` come back as one `--upgrade-package=<name>` each, in order |
| Cli.SupportedEnvironments | hatch_pip_compile/cli.py:143-145 | an environment is supported exactly when its `type` is `pip-compile` |
| Cli.HatchCommandRunner.constructor | hatch_pip_compile/cli.py:25-32 | the options are stored as given and no variables are remembered yet |
| Cli.HatchCommandRunner.PostInit | hatch_pip_compile/cli.py:34-57 | `default` is chosen when nothing is given and it is supported, otherwise `NoEnvironment`; with `--all` the selection is every supported environment; success exactly when the selection lies in the supported set; the error lists exactly the unknown names and the sorted supported names |
| Cli.ListOf | hatch_pip_compile/cli.py:49 | `list(set)` holds every element once |
| Text.Sort | hatch_pip_compile/cli.py:96 | `sorted` returns a sorted permutation of its input |
| Text.SortedUnique | hatch_pip_compile/cli.py:96 | two sorted lists with the same elements are equal, so the order does not depend on the input order |
| Cli.SortedList | hatch_pip_compile/cli.py:55 | the supported names sorted, each once |
| Cli.EnterVars | hatch_pip_compile/cli.py:63-75 | always `__PIP_COMPILE_FORCE__=1`; `PIP_COMPILE_UPGRADE=1` exactly when upgrading everything; the comma-joined packages under the given variable exactly when not upgrading everything and the list is non-empty; `__enter__` uses `PIP_COMPILE_UPGRADE_PACKAGES` (Cli.EnvVarsAsWritten), the corrected map of the Findings uses `PIP_COMPILE_UPGRADE_PACKAGE` (Cli.EnvVars) |
| Cli.Former | hatch_pip_compile/cli.py:76-78 | the saved values are exactly the previous values of the variables about to be written that were set |
| Cli.HatchCommandRunner.Enter | hatch_pip_compile/cli.py:59-80 | saves the old values of the variables it writes, then sets the variables as written, the package list under `PIP_COMPILE_UPGRADE_PACKAGES`; nothing else changes |
| Cli.HatchCommandRunner.Exit | hatch_pip_compile/cli.py:82-86 | writes the saved values back |
| Cli.EnterExitRestores | hatch_pip_compile/cli.py:76-86 | after enter and exit, every variable set before has its old value, and variables not set before keep the value enter gave them |
| Cli.EnvCommands | hatch_pip_compile/cli.py:96-106 | one `hatch env run --env <e> -- python --version` per environment, in order |
| Cli.RunUntilFailure | hatch_pip_compile/cli.py:96-125 | the environments visited are a prefix of the order that ends at the first failure, or the whole order when only the last one or none fails |
| Cli.RunInOrder | hatch_pip_compile/cli.py:96-125 | the loop logs the commands of exactly those environments and exits with 1 exactly when one of them fails |
| Cli.HatchCommandRunner.HatchCli | hatch_pip_compile/cli.py:88-125 | environments are visited in sorted order; exit code 1 exactly when a selected environment fails |
| Cli.UpgradePackagesLostAsWritten | hatch_pip_compile/cli.py:70 | as written, the packages given on the command line produce no `--upgrade-package` argument |
| Cli.UpgradePackagesReachResolver | hatch_pip_compile/cli.py:69-70 | under the variable name the resolver reads, each package becomes `--upgrade-package=<name>`, in order |
| Cli.UpgradeReachesResolver | hatch_pip_compile/cli.py:64-65 | `--upgrade` on the command line becomes `--upgrade` for the resolver |
| Base.InstallStep | hatch_pip_compile/base.py:30-48 | no command and an unchanged flag without PyPI packages; afterwards the flag is set exactly when it was set or there are packages; an install is issued exactly when there are packages, the flag was unset and the host reports them missing |
| Base.HatchPipCompileBase.constructor | hatch_pip_compile/base.py:23-28 | a new instance has nothing installed |
| Base.HatchPipCompileBase.InstallPypiDependencies | hatch_pip_compile/base.py:30-48 | the log grows by the step's commands and the flag becomes the step's flag; files and environment are untouched |
| Installer.InstallCommand | hatch_pip_compile/installer.py:91-104 | `pip` and `pip-sync` use hatch's `pip install`; `uv` runs `python -m uv pip install`, then the verbosity flags, then the arguments last |
| Installer.SyncArgvLayout | hatch_pip_compile/installer.py:123-138 | `python -m piptools sync`, `--verbose` exactly when `pip-compile-verbose` is `True` (else `--quiet`), `--python-executable <python>`, the user's install arguments, then the lockfile last |
| Installer.DependenciesWithoutLockfile | hatch_pip_compile/installer.py:70-81 | `pip` and `uv` issue nothing beyond the PyPI step without a lockfile, and otherwise install with the user's arguments then `--requirement <lockfile>` |
| Installer.PipSyncLockfileLifecycle | hatch_pip_compile/installer.py:134-141 | with no dependencies, `pip-sync` leaves no lockfile behind; with dependencies it changes no file |
| Installer.FullInstallOrder | hatch_pip_compile/installer.py:143-158 | compile, then the PyPI step, then `pip-sync`, then (unless `skip-install`) the project install, editable exactly in dev mode; the second PyPI step issues nothing |
| Installer.PluginInstaller.constructor | hatch_pip_compile/installer.py:84-112 | the base carries the kind's PyPI packages and starts with nothing installed |
| Installer.PluginInstaller.InstallDependencies | hatch_pip_compile/installer.py:70-141 | the new state is the specified dependency-install state |
| Installer.PluginInstaller.InstallProjectAs | hatch_pip_compile/installer.py:42-62 | the PyPI step, then one install of `--no-deps <root>`, with `--editable` in dev mode |
| Installer.PluginInstaller.FullInstall | hatch_pip_compile/installer.py:143-158 | the new state is the specified full-install state |
| Installer.PluginInstaller.SyncDependencies | hatch_pip_compile/installer.py:29-164 | the PyPI step then `install_dependencies`, or the full install for `pip-sync` |
| Installer.PluginInstaller.InstallProject | hatch_pip_compile/installer.py:42-173 | the project install, or the full install for `pip-sync` |
| Installer.PluginInstaller.InstallProjectDevMode | hatch_pip_compile/installer.py:52-182 | the editable project install, or the full install for `pip-sync` |

## Left out

- Real file I/O, `tempfile`, `mkdir`, subprocesses and `safe_activation` are not modelled. Files are a map from path to text, and commands are entries in a log.
- The exit status of `hatch env run` is a parameter, the set of failing environments.
- hatchling's `dependencies_in_sync` oracle is a boolean parameter, `inSync` or `hostInSync`.
- `environment.run_pip_compile`, which `_full_install` calls, is one abstract `RunPipCompile` log entry. Its effect on files is not modelled.
- The resolver's own effect is a function parameter, `resolve`, from the text of its input file to the text it writes.
- `Path.read_text` translates `\r\n` and `\r` to `\n`, and `write_text` writes `os.linesep`. The model reads and writes texts verbatim. A resolver output with `\r\n` or lone `\r` line endings is therefore written back with them where the source writes `\n`. The header readers see the same lines either way, because the line splitting already breaks lines at `\r\n` and `\r`.
- SHA-256 (FIPS 180-4) is an arbitrary function parameter. Only the CR LF to LF normalisation before it is modelled.
- Requirements are opaque strings compared by equality. PEP 508 parsing by `packaging.Requirement` is not modelled.
- Versions are a release (dot-separated decimal numbers) and an uninterpreted suffix. Full PEP 440 parsing and comparison of pre-, post-, dev- and local parts is not modelled; a suffix compares by text.
- pip-tools' `parse_requirements` of the lockfile body in `read_lock_requirements` is a function parameter. Only its short-circuit for an empty dependency list is modelled.
- Regular expressions are modelled only for the patterns the source uses: `-r \S*[\\/]<env>\.in`, `-r \S*/<env>\.in`, `-c \S*` and the two `re.search` patterns. Environment names are taken to contain no regex metacharacters, as the source does not escape them.
- `add_verbosity_flag` of hatch is an environment field: the flags it adds to the `uv` command.
- The order of `list(set)` in `__post_init__` is not determined. Cli.ListOf promises only that every element appears once.
- The error message of `click.BadParameter` is not rendered. The error carries the unknown names as a set and the supported names sorted.
- Console output through `rich`, logging, JSON decoding of `hatch env show` and `click` option parsing are not modelled.
- `_root_requirements`, `_pip_sync_cli`, `install_project_dev_mode` and `sync_dependencies` of `plugin.py` are not modelled. They run the modelled `_pip_compile_cli` and then a `pip-sync` command through the host.
- The staleness decision and the constraint environment (`lockfile_up_to_date`, `constraint_env`, and where `piptools_constraints_file` comes from) are not modelled. No modelled source file defines them.
- The readers of `__PIP_COMPILE_FORCE__` are not part of this model.
- `hatch_pip_compile/hooks.py` only registers the plugin, and `hatch_pip_compile/exceptions.py` only declares exceptions. `LockFileError`, which `lock.py` imports, is an error variant.
- Lock.ProcessLockReadBack: it requires single-line dependencies, a hash with no whitespace and a constraints path with no whitespace. Without these, the header lines or the `\S*` match could split differently.

## Findings

| source | as written | input that shows it | evidently intended | confidence | as-written member | corrected member |
|---|---|---|---|---|---|---|
| hatch_pip_compile/cli.py:70 | `__enter__` stores the `--upgrade-package` list in `PIP_COMPILE_UPGRADE_PACKAGES`, but `get_pip_compile_args` (hatch_pip_compile/resolver.py:33) reads `PIP_COMPILE_UPGRADE_PACKAGE` | `hatch-pip-compile -P requests` with `PIP_COMPILE_UPGRADE_PACKAGE` unset: the resolver argv gets no `--upgrade-package=requests` | the package list is stored under the name the resolver reads, so each package becomes `--upgrade-package=<name>` | not executed | Cli.EnvVarsAsWritten, Cli.UpgradePackagesLostAsWritten | Cli.EnvVars, Cli.UpgradePackagesReachResolver |
