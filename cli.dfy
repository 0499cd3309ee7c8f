/** The `hatch-pip-compile` command of `hatch_pip_compile/cli.py`: which
    environments to lock, the process environment that tells the plugin to
    re-lock (and what to upgrade), and the `hatch` command run per environment. */
module Cli {
  import opened Text
  import opened Host
  import Resolver

  /** `hatch env show --json`, reduced to each environment's `type` entry. */
  type EnvShow = map<string, Option<string>>

  /** `_get_supported_environments`: the environments of type `pip-compile`. */
  function SupportedEnvironments(envShow: EnvShow): (supported: set<string>)
    ensures forall e :: e in supported <==> e in envShow && envShow[e] == Some("pip-compile")
  {
    set e | e in envShow && envShow[e] == Some("pip-compile")
  }

  /** The `click.BadParameter` errors of `__post_init__`. */
  datatype CliError =
    | NoEnvironment
      // neither `--all` nor a name, and no `default` environment
    | Unsupported(unknown: set<string>, supported: seq<string>)
      // the names outside the supported set, and the supported names sorted

  const NoEnvironmentMessage: string := "Either `--all` or an environment name must be specified"

  const ForceVariable: string := "__PIP_COMPILE_FORCE__"

  /** The variable `__enter__` writes the package list to. */
  const UpgradePackagesVariable: string := "PIP_COMPILE_UPGRADE_PACKAGES"

  /** The variables `__enter__` sets, with the package list stored under
      `packageVariable`: always the force flag; the upgrade flag when
      upgrading everything, which overrides the package list; otherwise the
      packages joined by commas, if any. */
  function EnterVars(packageVariable: string, upgrade: bool, packages: seq<string>): (vars: map<string, string>)
    requires packageVariable != ForceVariable && packageVariable != Resolver.UpgradeVariable
    ensures ForceVariable in vars && vars[ForceVariable] == "1"
    ensures Resolver.UpgradeVariable in vars <==> upgrade
    ensures packageVariable in vars <==> !upgrade && packages != []
    ensures packageVariable in vars ==> vars[packageVariable] == Join(",", packages)
    ensures |vars.Keys| <= 2
  {
    assert ForceVariable != Resolver.UpgradeVariable by {
      assert ForceVariable[0] != Resolver.UpgradeVariable[0];
    }
    if upgrade then map[ForceVariable := "1", Resolver.UpgradeVariable := "1"]
    else if packages != [] then map[ForceVariable := "1", packageVariable := Join(",", packages)]
    else map[ForceVariable := "1"]
  }

  /** The variables as `__enter__` writes them: the package list goes to
      `PIP_COMPILE_UPGRADE_PACKAGES`. */
  function EnvVarsAsWritten(upgrade: bool, packages: seq<string>): map<string, string> {
    assert UpgradePackagesVariable != ForceVariable by {
      assert UpgradePackagesVariable[0] != ForceVariable[0];
    }
    assert UpgradePackagesVariable != Resolver.UpgradeVariable by {
      assert |UpgradePackagesVariable| != |Resolver.UpgradeVariable|;
    }
    EnterVars(UpgradePackagesVariable, upgrade, packages)
  }

  /** The variables with the package list under the name the resolver reads,
      `PIP_COMPILE_UPGRADE_PACKAGE`. */
  function EnvVars(upgrade: bool, packages: seq<string>): map<string, string> {
    assert Resolver.UpgradePackageVariable != ForceVariable by {
      assert Resolver.UpgradePackageVariable[0] != ForceVariable[0];
    }
    assert Resolver.UpgradePackageVariable != Resolver.UpgradeVariable by {
      assert |Resolver.UpgradePackageVariable| != |Resolver.UpgradeVariable|;
    }
    EnterVars(Resolver.UpgradePackageVariable, upgrade, packages)
  }

  /** `former_env_vars`: the old values of the variables about to be written
      that were set before. */
  function Former(environ: map<string, string>, vars: map<string, string>): (former: map<string, string>)
    ensures former.Keys == environ.Keys * vars.Keys
    ensures forall k :: k in former ==> former[k] == environ[k]
  {
    map k | k in vars.Keys && k in environ :: environ[k]
  }

  /** `__exit__` after `__enter__`: every variable that was set before has its
      old value again, whether or not it was overwritten; the variables that
      were not set before keep the value `__enter__` gave them. */
  lemma EnterExitRestores(environ: map<string, string>, vars: map<string, string>)
    ensures
      var after := environ + vars + Former(environ, vars);
      && after.Keys == environ.Keys + vars.Keys
      && (forall k :: k in environ ==> after[k] == environ[k])
      && (forall k :: k in vars && k !in environ ==> after[k] == vars[k])
  {
    var former := Former(environ, vars);
    var after := environ + vars + former;
    forall k | k in environ ensures after[k] == environ[k] {
      if k in vars {
        assert k in former;
      }
    }
  }

  /** The command `hatch_cli` runs for one environment. */
  function EnvCommand(env: string): seq<string> {
    ["hatch", "env", "run", "--env", env, "--", "python", "--version"]
  }

  /** The commands run for the given environments, in order. */
  function EnvCommands(envs: seq<string>): (cmds: seq<Command>)
    ensures |cmds| == |envs|
    ensures forall k :: 0 <= k < |envs| ==> cmds[k] == Exec(EnvCommand(envs[k]))
  {
    if envs == [] then [] else EnvCommands(envs[..|envs| - 1]) + [Exec(EnvCommand(envs[|envs| - 1]))]
  }

  /** The environments `hatch_cli` gets to, in the order given, when the
      environments in `failing` make their command fail: every one up to and
      including the first failure. */
  function RunUntilFailure(order: seq<string>, failing: set<string>): (ran: seq<string>)
    ensures |ran| <= |order| && ran == order[..|ran|]
    ensures forall k :: 0 <= k < |ran| - 1 ==> ran[k] !in failing
    ensures ran == order || (ran != [] && ran[|ran| - 1] in failing)
    ensures ran == order <==> forall k :: 0 <= k < |order| - 1 ==> order[k] !in failing
  {
    if order == [] then []
    else if order[0] in failing then
      assert order[0] == order[..1][0];
      [order[0]]
    else
      var rest := RunUntilFailure(order[1..], failing);
      assert order == [order[0]] + order[1..];
      assert forall k :: 1 <= k < |order| ==> order[k] == order[1..][k - 1];
      [order[0]] + rest
  }

  /** Running the remaining environments after a prefix that all succeeded. */
  lemma {:induction false} RunUntilFailurePrefix(order: seq<string>, failing: set<string>, i: nat)
    requires i < |order| && forall k :: 0 <= k < i ==> order[k] !in failing
    requires order[i] in failing
    ensures RunUntilFailure(order, failing) == order[..i + 1]
  {
    if i > 0 {
      RunUntilFailurePrefix(order[1..], failing, i - 1);
      assert order[1..][..i] == order[1..i + 1];
      assert order[..i + 1] == [order[0]] + order[1..i + 1];
    }
  }

  /** Runs where nothing fails visit every environment. */
  lemma {:induction false} RunUntilFailureAll(order: seq<string>, failing: set<string>)
    requires forall k :: 0 <= k < |order| ==> order[k] !in failing
    ensures RunUntilFailure(order, failing) == order
  {
    if order != [] {
      RunUntilFailureAll(order[1..], failing);
      assert order == [order[0]] + order[1..];
    }
  }

  /** `list(names)`: the elements of a set, once each, in some order. */
  method ListOf(names: set<string>) returns (xs: seq<string>)
    ensures forall e :: e in xs <==> e in names
    ensures |xs| == |names|
  {
    xs := [];
    var rest := names;
    while rest != {}
      invariant rest <= names
      invariant forall e :: e in xs <==> e in names && e !in rest
      invariant |xs| + |rest| == |names|
      decreases |rest|
    {
      var e :| e in rest;
      xs := xs + [e];
      rest := rest - {e};
    }
  }

  /** Sorting keeps exactly the elements it was given. */
  lemma SortMembers(xs: seq<string>)
    ensures forall e :: e in Sort(xs) <==> e in xs
  {
    forall e ensures e in Sort(xs) <==> e in xs {
      assert e in Sort(xs) <==> e in multiset(Sort(xs));
      assert e in xs <==> e in multiset(xs);
    }
  }

  /** `sorted(names)` */
  method SortedList(names: set<string>) returns (sorted: seq<string>)
    ensures IsSorted(sorted) && |sorted| == |names|
    ensures forall e :: e in sorted <==> e in names
  {
    var listed := ListOf(names);
    sorted := Sort(listed);
    SortMembers(listed);
    assert |sorted| == |multiset(sorted)| == |multiset(listed)| == |listed|;
  }

  /** `HatchCommandRunner`: the selected environments and the upgrade options. */
  class HatchCommandRunner {
    var environments: seq<string>
    const upgrade: bool
    const upgradeAll: bool
    const upgradePackages: seq<string>
    var formerEnvVars: map<string, string>
    var supportedEnvironments: set<string>

    /** The dataclass constructor, before `__post_init__`. */
    constructor(environments: seq<string>, upgrade: bool, upgradeAll: bool, upgradePackages: seq<string>)
      ensures this.environments == environments && this.upgrade == upgrade
      ensures this.upgradeAll == upgradeAll && this.upgradePackages == upgradePackages
      ensures formerEnvVars == map[]
    {
      this.environments := environments;
      this.upgrade := upgrade;
      this.upgradeAll := upgradeAll;
      this.upgradePackages := upgradePackages;
      formerEnvVars := map[];
      supportedEnvironments := {};
    }

    /** `__post_init__`: the selection defaults to `default`, or is every
        supported environment with `--all`, and must lie in the supported set. */
    method PostInit(envShow: EnvShow) returns (err: Option<CliError>)
      modifies this
      ensures supportedEnvironments == SupportedEnvironments(envShow)
      ensures formerEnvVars == old(formerEnvVars)
      ensures old(environments) == [] && !upgradeAll && "default" in supportedEnvironments ==>
        err == None && environments == ["default"]
      ensures old(environments) == [] && !upgradeAll && "default" !in supportedEnvironments ==>
        err == Some(NoEnvironment)
      ensures upgradeAll ==>
        && err == None && |environments| == |supportedEnvironments|
        && forall e :: e in environments <==> e in supportedEnvironments
      ensures old(environments) != [] && !upgradeAll ==> environments == old(environments)
      ensures err != Some(NoEnvironment) ==>
        (err == None <==> forall e :: e in environments ==> e in supportedEnvironments)
      ensures err.Some? && err.value.Unsupported? ==>
        && (forall e :: e in err.value.unknown <==> e in environments && e !in supportedEnvironments)
        && IsSorted(err.value.supported)
        && (forall e :: e in err.value.supported <==> e in supportedEnvironments)
    {
      supportedEnvironments := SupportedEnvironments(envShow);
      if environments == [] && "default" in supportedEnvironments && !upgradeAll {
        environments := ["default"];
      } else if environments == [] && !upgradeAll {
        return Some(NoEnvironment);
      } else if upgradeAll {
        environments := ListOf(supportedEnvironments);
      }
      var unsupported := (set e | e in environments) - supportedEnvironments;
      if unsupported != {} {
        var e :| e in unsupported;
        assert e in environments && e !in supportedEnvironments;
        var sorted := SortedList(supportedEnvironments);
        return Some(Unsupported(unsupported, sorted));
      }
      forall e | e in environments ensures e in supportedEnvironments {
        assert e !in unsupported;
      }
      err := None;
    }

    /** `__enter__`: remember the old values, then set the variables. */
    method Enter(host: Host)
      modifies this, host
      ensures formerEnvVars == Former(old(host.environ), EnvVarsAsWritten(upgrade, upgradePackages))
      ensures host.environ == old(host.environ) + EnvVarsAsWritten(upgrade, upgradePackages)
      ensures host.files == old(host.files) && host.log == old(host.log)
      ensures environments == old(environments) && supportedEnvironments == old(supportedEnvironments)
    {
      var envVars := map[ForceVariable := "1"];
      if upgrade {
        envVars := envVars[Resolver.UpgradeVariable := "1"];
      } else if upgradePackages != [] {
        envVars := envVars[UpgradePackagesVariable := Join(",", upgradePackages)];
      }
      formerEnvVars := map k | k in envVars.Keys && k in host.environ :: host.environ[k];
      host.UpdateEnviron(envVars);
    }

    /** `__exit__`: put the remembered values back. */
    method Exit(host: Host)
      modifies host
      ensures host.environ == old(host.environ) + formerEnvVars
      ensures host.files == old(host.files) && host.log == old(host.log)
    {
      host.UpdateEnviron(formerEnvVars);
    }

    /** `hatch_cli`: one `hatch env run` per environment in sorted order,
        stopping with exit code 1 at the first that fails. */
    method HatchCli(host: Host, failing: set<string>) returns (exit: Option<int>)
      modifies host
      ensures var ran := RunUntilFailure(Sort(environments), failing);
        host.log == old(host.log) + EnvCommands(ran)
      ensures exit == None <==> forall e :: e in environments ==> e !in failing
      ensures exit.Some? ==> exit.value == 1
      ensures host.files == old(host.files) && host.environ == old(host.environ)
    {
      var order := Sort(environments);
      exit := RunInOrder(host, order, failing);
      SortMembers(environments);
    }
  }

  /** The loop of `hatch_cli` over environments already in order. */
  method RunInOrder(host: Host, order: seq<string>, failing: set<string>) returns (exit: Option<int>)
    modifies host
    ensures host.log == old(host.log) + EnvCommands(RunUntilFailure(order, failing))
    ensures exit == None <==> forall k :: 0 <= k < |order| ==> order[k] !in failing
    ensures exit.Some? ==> exit.value == 1
    ensures host.files == old(host.files) && host.environ == old(host.environ)
  {
    var i := 0;
    while i < |order|
      invariant 0 <= i <= |order|
      invariant host.log == old(host.log) + EnvCommands(order[..i])
      invariant forall k :: 0 <= k < i ==> order[k] !in failing
      invariant host.files == old(host.files) && host.environ == old(host.environ)
    {
      host.Run(Exec(EnvCommand(order[i])));
      assert host.log == old(host.log) + EnvCommands(order[..i + 1]) by {
        TakeOneMore(order, i);
      }
      if order[i] in failing {
        RunUntilFailurePrefix(order, failing, i);
        return Some(1);
      }
      i := i + 1;
    }
    assert order[..i] == order;
    RunUntilFailureAll(order, failing);
    exit := None;
  }

  /** As written, a package list given on the command line never reaches the
      resolver: `__enter__` stores it under `PIP_COMPILE_UPGRADE_PACKAGES`, and
      `get_pip_compile_args` reads `PIP_COMPILE_UPGRADE_PACKAGE`. */
  lemma UpgradePackagesLostAsWritten(environ: map<string, string>, packages: seq<string>)
    requires Resolver.UpgradePackageVariable !in environ
    ensures Resolver.UpgradePackageArgs(environ + EnvVarsAsWritten(false, packages)) == []
  {
    assert UpgradePackagesVariable != Resolver.UpgradePackageVariable by {
      assert |UpgradePackagesVariable| != |Resolver.UpgradePackageVariable|;
    }
    assert ForceVariable != Resolver.UpgradePackageVariable by {
      assert ForceVariable[0] != Resolver.UpgradePackageVariable[0];
    }
    assert Resolver.UpgradePackageVariable !in environ + EnvVarsAsWritten(false, packages);
  }

  /** With the variable name the resolver reads, each package named on the
      command line becomes one `--upgrade-package=<name>`, in order. */
  lemma UpgradePackagesReachResolver(environ: map<string, string>, packages: seq<string>)
    requires packages != [] && Join(",", packages) != ""
    requires forall k :: 0 <= k < |packages| ==> ',' !in packages[k] && Strip(packages[k]) == packages[k]
    ensures
      var args := Resolver.UpgradePackageArgs(environ + EnvVars(false, packages));
      && |args| == |packages|
      && forall k :: 0 <= k < |packages| ==> args[k] == "--upgrade-package=" + packages[k]
  {
    Resolver.UpgradePackagesRoundTrip(environ + EnvVars(false, packages), packages);
  }

  /** `--upgrade` on the command line becomes `--upgrade` for the resolver. */
  lemma UpgradeReachesResolver(environ: map<string, string>, packages: seq<string>)
    ensures Resolver.UpgradeArgs(environ + EnvVarsAsWritten(true, packages)) == ["--upgrade"]
  {
    assert (environ + EnvVarsAsWritten(true, packages))[Resolver.UpgradeVariable] == "1";
  }
}
