/** `HatchPipCompileBase` of `hatch_pip_compile/base.py`: a tool that needs
    packages from PyPI (the resolver, the installer) installs them into the
    environment at most once per instance. */
module Base {
  import opened Host

  /** What one `install_pypi_dependencies` call issues and the flag after it. */
  datatype PypiStep = PypiStep(commands: seq<Command>, installed: bool)

  /** `install_pypi_dependencies` given the declared PyPI packages, the
      `pypi_dependencies_installed` flag and whether hatchling reports the
      packages as already present. */
  function InstallStep(pypi: seq<string>, installed: bool, inSync: bool): (step: PypiStep)
    ensures step.installed <==> installed || pypi != []
    ensures step.commands != [] <==> pypi != [] && !installed && !inSync
    ensures step.commands == [] || step.commands == [PipInstall(pypi)]
  {
    if pypi == [] then PypiStep([], installed)
    else if installed then PypiStep([], installed)
    else PypiStep(if inSync then [] else [PipInstall(pypi)], true)
  }

  /** A second call after any first one issues nothing and keeps the flag,
      whatever hatchling reports the second time. */
  lemma InstallStepIdempotent(pypi: seq<string>, installed: bool, inSync: bool, inSyncAgain: bool)
    ensures
      var first := InstallStep(pypi, installed, inSync);
      InstallStep(pypi, first.installed, inSyncAgain) == PypiStep([], first.installed)
  {
  }

  class HatchPipCompileBase {
    const environment: Environment
    const pypiDependencies: seq<string>
    var pypiDependenciesInstalled: bool

    /** `__init__`: nothing installed yet. */
    constructor(environment: Environment, pypiDependencies: seq<string>)
      ensures this.environment == environment && this.pypiDependencies == pypiDependencies
      ensures !pypiDependenciesInstalled
    {
      this.environment := environment;
      this.pypiDependencies := pypiDependencies;
      pypiDependenciesInstalled := false;
    }

    /** `install_pypi_dependencies`; `inSync` is hatchling's `dependencies_in_sync` answer. */
    method InstallPypiDependencies(host: Host, inSync: bool)
      modifies this, host
      ensures var step := InstallStep(pypiDependencies, old(pypiDependenciesInstalled), inSync);
        host.log == old(host.log) + step.commands && pypiDependenciesInstalled == step.installed
      ensures host.files == old(host.files) && host.environ == old(host.environ)
    {
      if pypiDependencies == [] {
        return;
      } else if pypiDependenciesInstalled {
        return;
      }
      if !inSync {
        host.Run(PipInstall(pypiDependencies));
      }
      pypiDependenciesInstalled := true;
    }
  }
}
