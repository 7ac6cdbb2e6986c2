/**
 * `git-ftp:deploy` (`GitFtpDeployerCommand::handle`): a strictly sequential
 * gate. The working tree must be clean, every commit pushed, the build must
 * pass unless skipped, the environment must validate and the user confirm;
 * only then is `git-ftp` run. The first gate that fails ends the command
 * with FAILURE; an exception ends it as a crash. Every answer from outside
 * (git, the filesystem, the build, the prompts, git-ftp) is an oracle.
 */
module DeployCommand {
  import opened Optional
  import opened PhpText
  import opened GitStatus
  import opened FileTree
  import opened TreeDisplay
  import opened FtpDeploy

  /** The options of `git-ftp:deploy {--env=} {--skip-build} {--force}`. */
  datatype Cli = Cli(env: Option<string>, skipBuild: bool, force: bool)

  /**
   * What the outside world answers: the outputs of `git status --porcelain`
   * and `git rev-parse` (`None` when git failed), the filesystem, the
   * `git rev-list --count` output per range, what running the build command
   * gives, the index picked at the environment prompt, the answer to the
   * confirmation (`None` for accepting the default), and what running a
   * given `git-ftp` command line gives. A process answers whether it exited
   * with 0, or throws: neither the build nor `git-ftp` is given a timeout,
   * so Symfony's default of 60 seconds applies and running past it throws.
   */
  datatype World = World(statusOutput: Option<string>, fs: string -> FsEntry,
                         branchOutput: Option<string>, revList: string -> Option<string>,
                         build: Outcome<bool>, choice: nat, confirmAnswer: Option<bool>,
                         gitFtp: string -> Outcome<bool>)

  /** One step the command takes, in the order it takes them. */
  datatype Gate =
    | StatusGate
    | UnpushedGate
    | BuildGate
    | ValidateGate(env: string)
    | ConfirmGate(env: string)
    | GitFtpGate(command: string)

  /** `Command::SUCCESS`, `Command::FAILURE`, or an exception that escapes `handle`. */
  datatype ExitCode = Success | Failure | Crash(message: string)

  /** The exit code, the steps taken, and the change tree printed when the tree is dirty. */
  datatype Run = Run(exit: ExitCode, trace: seq<Gate>, shown: seq<ConsoleLine>)

  /** The tail of the run from `deployViaFtp` on: its result and the steps it took. */
  datatype Stage = Stage(result: Outcome<bool>, trace: seq<Gate>)

  /** Symfony's refusal to ask a choice question with no choices. */
  const NoChoices: string := "Choice question must have at least 1 choice available."

  /** Position of a step in the fixed order of `handle`. */
  function Rank(g: Gate): nat {
    match g
    case StatusGate => 0
    case UnpushedGate => 1
    case BuildGate => 2
    case ValidateGate(_) => 3
    case ConfirmGate(_) => 4
    case GitFtpGate(_) => 5
  }

  /** The steps appear in the order of `handle`, each at most once. */
  predicate InOrder(trace: seq<Gate>) {
    forall i, j :: 0 <= i < j < |trace| ==> Rank(trace[i]) < Rank(trace[j])
  }

  /**
   * `checkGitStatus`, given what `getUncommittedChanges` returned: passes
   * exactly when that is the empty result; otherwise the change tree is
   * printed and the gate fails.
   */
  function CheckGitStatus(changes: Outcome<Changes>): (r: Outcome<(bool, seq<ConsoleLine>)>)
    ensures changes.Throws? ==> r.Throws?
    ensures r.Returns? ==> (r.value.0 <==> changes == Returns(Clean))
    ensures r.Returns? && r.value.0 ==> r.value.1 == []
    ensures r.Returns? && !r.value.0 ==> DisplayChangesTree(changes.value.changes) == Returns(r.value.1)
  {
    match changes
    case Throws(m) => Throws(m)
    case Returns(Clean) => Returns((true, []))
    case Returns(Dirty(cs)) =>
      match DisplayChangesTree(cs)
      case Throws(m) => Throws(m)
      case Returns(shown) => Returns((false, shown))
  }

  /** What `getUncommittedChanges`, as written, answers in world `w`. */
  function ChangesOf(w: World): Outcome<Changes> {
    GetUncommittedChangesAsWritten(w.statusOutput, w.fs)
  }

  /** What the corrected `getUncommittedChanges` answers in world `w`. */
  function IntendedChangesOf(w: World): Outcome<Changes> {
    GetUncommittedChanges(w.statusOutput, w.fs)
  }

  /**
   * `checkUnpushedCommits`: passes exactly when the count is 0. A failed
   * count reads as 1 and so fails the gate. On failure the branch is asked
   * for again to word the warning.
   */
  function CheckUnpushedCommits(w: World): (r: Outcome<bool>)
    ensures r.Throws? <==> w.branchOutput.None?
    ensures r.Returns? ==> (r.value <==> GetUnpushedCommitsCount(w.branchOutput, w.revList) == Returns(0))
  {
    match GetUnpushedCommitsCount(w.branchOutput, w.revList)
    case Throws(m) => Throws(m)
    case Returns(count) =>
      if count == 0 then Returns(true)
      else
        match GetCurrentBranch(w.branchOutput)
        case Throws(m) => Throws(m)
        case Returns(_) => Returns(false)
  }

  /** `if ($env = $this->option("env"))`: the option is used when it is PHP-truthy. */
  predicate EnvGiven(cli: Cli) {
    cli.env.Some? && !PhpEmpty(cli.env.value)
  }

  /**
   * `getEnvironment`: a truthy `--env` verbatim, unchecked; otherwise one of
   * the configured names, picked at a prompt that cannot be put with none.
   */
  function GetEnvironment(cli: Cli, w: World, cfg: Config): (r: Outcome<string>)
    ensures EnvGiven(cli) ==> r == Returns(cli.env.value)
    ensures !EnvGiven(cli) ==> (r.Throws? <==> cfg.environments == [])
    ensures !EnvGiven(cli) && r.Returns? ==> r.value in EnvironmentNames(cfg)
  {
    if EnvGiven(cli) then Returns(cli.env.value)
    else
      var names := EnvironmentNames(cfg);
      if names == [] then Throws(NoChoices) else Returns(names[w.choice % |names|])
  }

  /** `confirmDeployment`: the user's answer, "no" when they take the default. */
  function ConfirmDeployment(answer: Option<bool>): (yes: bool)
    ensures yes ==> answer == Some(true)
    ensures answer == Some(true) ==> yes
  {
    answer.GetOr(false)
  }

  /** `checkGitStatus` passes: git status succeeded with nothing to report. */
  predicate TreeClean(w: World) {
    ChangesOf(w) == Returns(Clean)
  }

  /** `checkUnpushedCommits` passes: the unpushed count is 0. */
  predicate AllPushed(w: World) {
    GetUnpushedCommitsCount(w.branchOutput, w.revList) == Returns(0)
  }

  /** The build step does not stop the command: skipped, or exited with 0. */
  predicate BuildPasses(cli: Cli, w: World) {
    cli.skipBuild || w.build == Returns(true)
  }

  /** Every check before `deployViaFtp` passes. */
  predicate ChecksPass(cli: Cli, w: World) {
    TreeClean(w) && AllPushed(w) && BuildPasses(cli, w)
  }

  /** An environment was chosen, it validates, and the user said yes. */
  predicate Approved(cli: Cli, w: World, cfg: Config) {
    GetEnvironment(cli, w, cfg).Returns?
    && ValidateEnvironment(cfg, GetEnvironment(cli, w, cfg).value)
    && ConfirmDeployment(w.confirmAnswer)
  }

  /** The configuration of the chosen, validated environment. */
  function ApprovedConfig(cli: Cli, w: World, cfg: Config): EnvConfig
    requires Approved(cli, w, cfg)
  {
    LookupEnvironment(cfg.environments, GetEnvironment(cli, w, cfg).value).value
  }

  /** The `git-ftp` command line for the chosen, validated environment. */
  function ApprovedCommand(cli: Cli, w: World, cfg: Config): string
    requires Approved(cli, w, cfg)
  {
    BuildGitFtpCommand(ApprovedConfig(cli, w, cfg), cfg.options)
  }

  /**
   * `git-ftp` is run: the deployment is approved and the environment has a
   * `path` key, the one key validation does not look at that `deploy`
   * reads directly.
   */
  predicate Uploads(cli: Cli, w: World, cfg: Config) {
    Approved(cli, w, cfg) && !ApprovedConfig(cli, w, cfg).path.Missing?
  }

  /**
   * `deployViaFtp` once the environment is chosen: validate it, ask for
   * confirmation, then deploy; the result is whether `git-ftp` succeeded.
   * Only `deploy` throws: on an absent `path` key, or from `git-ftp`.
   */
  function DeployTo(cfg: Config, env: string, w: World): (s: Stage)
    ensures InOrder(s.trace)
    ensures forall i :: 0 <= i < |s.trace| ==> Rank(s.trace[i]) >= 3
    ensures |s.trace| == 3 ==> s.trace[2].GitFtpGate?
    ensures s.result.Throws? ==> ValidateEnvironment(cfg, env) && ConfirmDeployment(w.confirmAnswer)
    ensures s.result == Returns(true) <==>
              ValidateEnvironment(cfg, env) && ConfirmDeployment(w.confirmAnswer)
              && !LookupEnvironment(cfg.environments, env).value.path.Missing?
              && w.gitFtp(BuildGitFtpCommand(LookupEnvironment(cfg.environments, env).value, cfg.options))
                 == Returns(true)
  {
    if !ValidateEnvironment(cfg, env) then Stage(Returns(false), [ValidateGate(env)])
    else if !ConfirmDeployment(w.confirmAnswer) then
      Stage(Returns(false), [ValidateGate(env), ConfirmGate(env)])
    else
      match Deploy(cfg, env, w.gitFtp)
      case Throws(m) => Stage(Throws(m), [ValidateGate(env), ConfirmGate(env)])
      case Returns(run) =>
        Stage(run.result, [ValidateGate(env), ConfirmGate(env), GitFtpGate(run.command)])
  }

  /**
   * `deployViaFtp`: pick the environment, then validate, confirm and deploy;
   * the result is whether `git-ftp` succeeded.
   */
  function DeployViaFtp(cli: Cli, w: World, cfg: Config): (s: Stage)
    ensures InOrder(s.trace)
    ensures forall i :: 0 <= i < |s.trace| ==> Rank(s.trace[i]) >= 3
    ensures |s.trace| == 3 ==> s.trace[2].GitFtpGate?
    ensures s.trace == [] <==> GetEnvironment(cli, w, cfg).Throws?
    ensures s.trace == [] ==> s.result.Throws?
    ensures s.result == Returns(true) <==>
              Uploads(cli, w, cfg) && w.gitFtp(ApprovedCommand(cli, w, cfg)) == Returns(true)
  {
    match GetEnvironment(cli, w, cfg)
    case Throws(m) => Stage(Throws(m), [])
    case Returns(env) => DeployTo(cfg, env, w)
  }

  /**
   * Validation, confirmation and `git-ftp` are each reached exactly when
   * the step before passed, all for the chosen environment, and `git-ftp`
   * with the command built for it.
   */
  lemma DeployViaFtpSteps(cli: Cli, w: World, cfg: Config)
    ensures var t := DeployViaFtp(cli, w, cfg).trace;
            (forall env :: ValidateGate(env) in t <==> GetEnvironment(cli, w, cfg) == Returns(env))
            && (forall env :: ConfirmGate(env) in t <==>
                  GetEnvironment(cli, w, cfg) == Returns(env) && ValidateEnvironment(cfg, env))
            && (forall c :: GitFtpGate(c) in t <==> Uploads(cli, w, cfg) && c == ApprovedCommand(cli, w, cfg))
  {
    var t := DeployViaFtp(cli, w, cfg).trace;
    match GetEnvironment(cli, w, cfg)
    case Throws(_) =>
    case Returns(env) =>
      if !ValidateEnvironment(cfg, env) {
        assert t == [ValidateGate(env)];
      } else if !ConfirmDeployment(w.confirmAnswer) {
        assert t == [ValidateGate(env), ConfirmGate(env)];
      } else if Deploy(cfg, env, w.gitFtp).Throws? {
        assert t == [ValidateGate(env), ConfirmGate(env)];
      } else {
        var run := Deploy(cfg, env, w.gitFtp).value;
        assert t == [ValidateGate(env), ConfirmGate(env), GitFtpGate(run.command)];
      }
  }

  /** The exit code for a stage result. */
  function ExitOf(r: Outcome<bool>): ExitCode {
    match r
    case Throws(m) => Crash(m)
    case Returns(ok) => if ok then Success else Failure
  }

  /** The steps before `deployViaFtp`: both checks and, unless skipped, the build. */
  function Checks(cli: Cli): seq<Gate> {
    [StatusGate, UnpushedGate] + (if cli.skipBuild then [] else [BuildGate])
  }

  /**
   * The rest of `handle()` once both checks are behind it: the build unless
   * skipped, then `deployViaFtp`.
   */
  function FromBuild(cli: Cli, w: World, cfg: Config, shown: seq<ConsoleLine>): (r: Run)
    ensures r.shown == shown
    ensures |r.trace| >= 2 && r.trace[0] == StatusGate && r.trace[1] == UnpushedGate && InOrder(r.trace)
    ensures !BuildPasses(cli, w) ==>
              r.trace == [StatusGate, UnpushedGate, BuildGate] && r.exit == ExitOf(w.build) && r.exit != Success
    ensures BuildPasses(cli, w) ==>
              r.trace == Checks(cli) + DeployViaFtp(cli, w, cfg).trace
              && r.exit == ExitOf(DeployViaFtp(cli, w, cfg).result)
    ensures r.exit == Success <==>
              BuildPasses(cli, w) && Uploads(cli, w, cfg) && w.gitFtp(ApprovedCommand(cli, w, cfg)) == Returns(true)
  {
    if !BuildPasses(cli, w) then Run(ExitOf(w.build), Checks(cli), shown)
    else
      var s := DeployViaFtp(cli, w, cfg);
      ChecksThenLater(cli, s.trace);
      Run(ExitOf(s.result), Checks(cli) + s.trace, shown)
  }

  /** The checks followed by ordered later steps are still in order. */
  lemma ChecksThenLater(cli: Cli, later: seq<Gate>)
    requires InOrder(later)
    requires forall i :: 0 <= i < |later| ==> Rank(later[i]) >= 3
    ensures |Checks(cli) + later| >= 2
    ensures (Checks(cli) + later)[0] == StatusGate && (Checks(cli) + later)[1] == UnpushedGate
    ensures InOrder(Checks(cli) + later)
  {
    var t := Checks(cli) + later;
    var n := |Checks(cli)|;
    forall i, j | 0 <= i < j < |t|
      ensures Rank(t[i]) < Rank(t[j])
    {
      if j >= n {
        assert t[j] == later[j - n];
        if i >= n {
          assert t[i] == later[i - n];
        }
      }
    }
  }

  /**
   * The gates of `handle()` in order, given what `getUncommittedChanges`
   * returned, stopping at the first that does not pass. The run succeeds
   * exactly when the tree is clean, every gate passes and `git-ftp` succeeds.
   */
  function GatedRun(changes: Outcome<Changes>, cli: Cli, w: World, cfg: Config): (r: Run)
    ensures |r.trace| >= 1 && r.trace[0] == StatusGate && InOrder(r.trace)
    ensures r.exit == Success <==>
              changes == Returns(Clean) && AllPushed(w) && BuildPasses(cli, w)
              && Uploads(cli, w, cfg) && w.gitFtp(ApprovedCommand(cli, w, cfg)) == Returns(true)
  {
    match CheckGitStatus(changes)
    case Throws(m) => Run(Crash(m), [StatusGate], [])
    case Returns((clean, shown)) =>
      if !clean then Run(Failure, [StatusGate], shown)
      else
        match CheckUnpushedCommits(w)
        case Throws(m) => Run(Crash(m), [StatusGate, UnpushedGate], [])
        case Returns(pushed) =>
          if !pushed then Run(Failure, [StatusGate, UnpushedGate], [])
          else FromBuild(cli, w, cfg, [])
  }

  /**
   * `handle()`: the gates in order, stopping at the first that does not
   * pass. Each step is taken exactly when every earlier one passed, and the
   * command succeeds exactly when every gate passes and `git-ftp` succeeds.
   * An exception from git, the build or `git-ftp` ends it as a crash.
   */
  function Handle(cli: Cli, w: World, cfg: Config): (r: Run)
    ensures |r.trace| >= 1 && r.trace[0] == StatusGate
    ensures InOrder(r.trace)
    ensures !TreeClean(w) ==> r.trace == [StatusGate] && r.exit != Success
    ensures TreeClean(w) && !AllPushed(w) ==> r.trace == [StatusGate, UnpushedGate] && r.exit != Success
    ensures TreeClean(w) && AllPushed(w) && !BuildPasses(cli, w) ==>
              r.trace == [StatusGate, UnpushedGate, BuildGate] && r.exit == ExitOf(w.build)
    ensures ChecksPass(cli, w) ==>
              r.trace == Checks(cli) + DeployViaFtp(cli, w, cfg).trace
              && r.exit == ExitOf(DeployViaFtp(cli, w, cfg).result)
    ensures r.exit == Success <==>
              ChecksPass(cli, w) && Uploads(cli, w, cfg) && w.gitFtp(ApprovedCommand(cli, w, cfg)) == Returns(true)
    ensures r.shown != [] ==> r.exit == Failure && r.trace == [StatusGate]
  {
    GatedRun(ChangesOf(w), cli, w, cfg)
  }

  /**
   * The checks of `handle` run in sequence: the unpushed check only on a
   * clean tree, the build only after both checks pass and when not skipped.
   */
  lemma HandleCheckSteps(cli: Cli, w: World, cfg: Config)
    ensures var r := Handle(cli, w, cfg);
            (UnpushedGate in r.trace <==> TreeClean(w))
            && (BuildGate in r.trace <==> TreeClean(w) && AllPushed(w) && !cli.skipBuild)
  {
    var t := Handle(cli, w, cfg).trace;
    var later := DeployViaFtp(cli, w, cfg).trace;
    HandleTraceShape(cli, w, cfg);
    CheckStepsOfTrace(t, TreeClean(w), AllPushed(w), BuildPasses(cli, w), cli, later);
  }

  /** The trace of `handle()` by which checks passed, in the terms `CheckStepsOfTrace` takes. */
  lemma HandleTraceShape(cli: Cli, w: World, cfg: Config)
    ensures var t := Handle(cli, w, cfg).trace;
            var later := DeployViaFtp(cli, w, cfg).trace;
            (forall i :: 0 <= i < |later| ==> Rank(later[i]) >= 3)
            && (!TreeClean(w) ==> t == [StatusGate])
            && (TreeClean(w) && !AllPushed(w) ==> t == [StatusGate, UnpushedGate])
            && (TreeClean(w) && AllPushed(w) && !BuildPasses(cli, w) ==> t == [StatusGate, UnpushedGate, BuildGate])
            && (ChecksPass(cli, w) ==> t == Checks(cli) + later)
  {
  }

  /** Which checks a trace of the shape `handle` leaves shows, from which checks passed. */
  lemma CheckStepsOfTrace(t: seq<Gate>, clean: bool, pushed: bool, passes: bool, cli: Cli, later: seq<Gate>)
    requires !passes ==> !cli.skipBuild
    requires !clean ==> t == [StatusGate]
    requires clean && !pushed ==> t == [StatusGate, UnpushedGate]
    requires clean && pushed && !passes ==> t == [StatusGate, UnpushedGate, BuildGate]
    requires clean && pushed && passes ==> t == Checks(cli) + later
    requires forall i :: 0 <= i < |later| ==> Rank(later[i]) >= 3
    ensures UnpushedGate in t <==> clean
    ensures BuildGate in t <==> clean && pushed && !cli.skipBuild
  {
    if clean && pushed && passes {
      InConcat(Checks(cli), later);
      assert UnpushedGate !in later && BuildGate !in later;
    }
  }

  /**
   * Validation, confirmation and `git-ftp` are reached only once every check
   * passed, each for the chosen environment and each only after the one
   * before it let the command through.
   */
  lemma HandleDeploySteps(cli: Cli, w: World, cfg: Config)
    ensures var r := Handle(cli, w, cfg);
            (forall env :: ValidateGate(env) in r.trace <==>
               ChecksPass(cli, w) && GetEnvironment(cli, w, cfg) == Returns(env))
            && (forall env :: ConfirmGate(env) in r.trace <==>
                  ChecksPass(cli, w) && GetEnvironment(cli, w, cfg) == Returns(env)
                  && ValidateEnvironment(cfg, env))
            && (forall c :: GitFtpGate(c) in r.trace <==>
                  ChecksPass(cli, w) && Uploads(cli, w, cfg) && c == ApprovedCommand(cli, w, cfg))
  {
    if ChecksPass(cli, w) {
      DeployStepsAfterChecks(cli, w, cfg, Handle(cli, w, cfg).trace);
    } else {
      FailedChecksStopEarly(cli, w, cfg);
    }
  }

  /** `--force` is declared but never read: flipping it changes nothing. */
  lemma HandleIgnoresForce(cli: Cli, w: World, cfg: Config)
    ensures Handle(cli, w, cfg) == Handle(cli.(force := !cli.force), w, cfg)
  {
    var cli' := cli.(force := !cli.force);
    assert GetEnvironment(cli', w, cfg) == GetEnvironment(cli, w, cfg);
    assert DeployViaFtp(cli', w, cfg) == DeployViaFtp(cli, w, cfg);
    assert FromBuild(cli', w, cfg, []) == FromBuild(cli, w, cfg, []);
    assert BuildPasses(cli', w) == BuildPasses(cli, w);
  }

  /**
   * A dirty tree stops the command at the first gate, with the change tree
   * printed; nothing is built or uploaded.
   */
  lemma DirtyTreeStopsDeploy(cli: Cli, w: World, cfg: Config, cs: ChangeSet)
    requires ChangesOf(w) == Returns(Dirty(cs))
    requires NoPathBelowEarlierFile(cs.files)
    ensures Handle(cli, w, cfg) == Run(Failure, [StatusGate], DisplayChangesTree(cs).value)
  {
  }

  /**
   * An `--env` value that names no configured environment is taken as given
   * and only refused by validation, after the checks and the build.
   */
  lemma UnknownEnvironmentFailsAtValidation(cli: Cli, w: World, cfg: Config)
    requires EnvGiven(cli) && cli.env.value !in EnvironmentNames(cfg)
    requires ChecksPass(cli, w)
    ensures Handle(cli, w, cfg) == Run(Failure, Checks(cli) + [ValidateGate(cli.env.value)], [])
  {
    assert LookupEnvironment(cfg.environments, cli.env.value).None?;
  }

  /** Accepting the default answer at the confirmation prompt never deploys. */
  lemma DefaultAnswerNeverDeploys(cli: Cli, w: World, cfg: Config)
    requires w.confirmAnswer.None?
    ensures Handle(cli, w, cfg).exit != Success
    ensures forall g :: g in Handle(cli, w, cfg).trace ==> !g.GitFtpGate?
  {
    HandleDeploySteps(cli, w, cfg);
  }

  /**
   * The command `git-ftp` is given carries the chosen environment's
   * non-empty user and password, read back verbatim when neither holds a
   * double quote, and its host followed by its path as the target.
   */
  lemma UploadUsesValidatedCredentials(cli: Cli, w: World, cfg: Config, c: string)
    requires GitFtpGate(c) in Handle(cli, w, cfg).trace
    requires forall i :: 0 <= i < |cfg.environments| ==>
               '"' !in Interpolate(cfg.environments[i].1.username)
               && '"' !in Interpolate(cfg.environments[i].1.password)
    ensures Uploads(cli, w, cfg) && c == ApprovedCommand(cli, w, cfg)
    ensures var e := ApprovedConfig(cli, w, cfg);
            var inv := ReadGitFtpCommand(c);
            inv.Some?
            && inv.value.user == e.username.value && !PhpEmpty(inv.value.user)
            && inv.value.passwd == e.password.value && !PhpEmpty(inv.value.passwd)
            && inv.value.target == e.host.value + RemotePath(e)
  {
    HandleDeploySteps(cli, w, cfg);
    var env := GetEnvironment(cli, w, cfg).value;
    ValidatedDeployCarriesCredentials(cfg, env, w.gitFtp);
  }

  /** The later steps of a trace that continues past the checks are those `deployViaFtp` took. */
  lemma DeployStepsAfterChecks(cli: Cli, w: World, cfg: Config, trace: seq<Gate>)
    requires trace == Checks(cli) + DeployViaFtp(cli, w, cfg).trace
    ensures forall env :: ValidateGate(env) in trace <==> GetEnvironment(cli, w, cfg) == Returns(env)
    ensures forall env :: ConfirmGate(env) in trace <==>
              GetEnvironment(cli, w, cfg) == Returns(env) && ValidateEnvironment(cfg, env)
    ensures forall c :: GitFtpGate(c) in trace <==> Uploads(cli, w, cfg) && c == ApprovedCommand(cli, w, cfg)
  {
    var s := DeployViaFtp(cli, w, cfg);
    DeployViaFtpSteps(cli, w, cfg);
    InConcat(Checks(cli), s.trace);
    assert forall g :: g in Checks(cli) ==> Rank(g) <= 2;
  }

  /** When a check fails, no step after the build is taken. */
  lemma FailedChecksStopEarly(cli: Cli, w: World, cfg: Config)
    requires !ChecksPass(cli, w)
    ensures forall g :: g in Handle(cli, w, cfg).trace ==> Rank(g) <= 2
  {
    var r := Handle(cli, w, cfg);
    if !TreeClean(w) {
      assert r.trace == [StatusGate];
    } else if !AllPushed(w) {
      assert r.trace == [StatusGate, UnpushedGate];
    } else {
      assert r.trace == [StatusGate, UnpushedGate, BuildGate];
    }
  }

  lemma InConcat(a: seq<Gate>, b: seq<Gate>)
    ensures forall g :: g in a + b <==> g in a || g in b
  {
  }

  /**
   * An exception from a process `handle()` runs ends the command as a crash
   * at that step: from the build, which then is the last step, and from
   * `git-ftp`, after the command line was handed to it.
   */
  lemma ProcessExceptionsCrash(cli: Cli, w: World, cfg: Config)
    requires TreeClean(w) && AllPushed(w)
    ensures !cli.skipBuild && w.build.Throws? ==>
              Handle(cli, w, cfg) == Run(Crash(w.build.message), [StatusGate, UnpushedGate, BuildGate], [])
    ensures BuildPasses(cli, w) && Uploads(cli, w, cfg) && w.gitFtp(ApprovedCommand(cli, w, cfg)).Throws? ==>
              Handle(cli, w, cfg).exit == Crash(w.gitFtp(ApprovedCommand(cli, w, cfg)).message)
              && GitFtpGate(ApprovedCommand(cli, w, cfg)) in Handle(cli, w, cfg).trace
  {
    if BuildPasses(cli, w) && Uploads(cli, w, cfg) {
      HandleDeploySteps(cli, w, cfg);
      var env := GetEnvironment(cli, w, cfg).value;
      assert DeployViaFtp(cli, w, cfg) == DeployTo(cfg, env, w);
    }
  }

  /**
   * An approved environment without a `path` key crashes the command once
   * the user has confirmed: the summary line reads the absent key before
   * `git-ftp` is run.
   */
  lemma MissingPathCrashes(cli: Cli, w: World, cfg: Config)
    requires ChecksPass(cli, w) && Approved(cli, w, cfg)
    requires ApprovedConfig(cli, w, cfg).path.Missing?
    ensures var env := GetEnvironment(cli, w, cfg).value;
            Handle(cli, w, cfg)
            == Run(Crash(UndefinedKey("path")), Checks(cli) + [ValidateGate(env), ConfirmGate(env)], [])
  {
  }

  /**
   * `handle()` as the program itself says it should behave: the status
   * check reads the untrimmed `git status` output, and with `--force` (whose
   * description reads "Force deployment even with uncommitted changes", and
   * which both checks name in their "Use --force flag to deploy anyway"
   * hint) a dirty tree or unpushed commits are reported but do not stop the
   * deployment.
   */
  function HandleWithForce(cli: Cli, w: World, cfg: Config): (r: Run)
    ensures !cli.force ==> r == GatedRun(IntendedChangesOf(w), cli, w, cfg)
    ensures cli.force ==> r == ForcedHandle(cli, w, cfg)
    ensures |r.trace| >= 1 && r.trace[0] == StatusGate && InOrder(r.trace)
    ensures !cli.force ==>
              (r.exit == Success <==>
                 IntendedChangesOf(w) == Returns(Clean) && AllPushed(w) && BuildPasses(cli, w)
                 && Uploads(cli, w, cfg) && w.gitFtp(ApprovedCommand(cli, w, cfg)) == Returns(true))
  {
    if !cli.force then GatedRun(IntendedChangesOf(w), cli, w, cfg) else ForcedHandle(cli, w, cfg)
  }

  /**
   * The intended `handle()` under `--force`: both checks are still run and
   * reported, and only a crash in them stops the command. It succeeds
   * exactly when both checks ran without crashing, the build passes, and
   * `git-ftp` is run and succeeds.
   */
  function ForcedHandle(cli: Cli, w: World, cfg: Config): (r: Run)
    ensures |r.trace| >= 1 && r.trace[0] == StatusGate && InOrder(r.trace)
    ensures r.exit == Success <==>
              CheckGitStatus(IntendedChangesOf(w)).Returns? && w.branchOutput.Some? && BuildPasses(cli, w)
              && Uploads(cli, w, cfg) && w.gitFtp(ApprovedCommand(cli, w, cfg)) == Returns(true)
  {
    match CheckGitStatus(IntendedChangesOf(w))
    case Throws(m) => Run(Crash(m), [StatusGate], [])
    case Returns((_, shown)) => ForcedFromUnpushed(cli, w, cfg, shown)
  }

  /** The forced run once the status check has reported: the unpushed check, which only a crash ends. */
  function ForcedFromUnpushed(cli: Cli, w: World, cfg: Config, shown: seq<ConsoleLine>): (r: Run)
    ensures |r.trace| >= 2 && r.trace[0] == StatusGate && r.trace[1] == UnpushedGate && InOrder(r.trace)
    ensures r.exit == Success <==>
              w.branchOutput.Some? && BuildPasses(cli, w)
              && Uploads(cli, w, cfg) && w.gitFtp(ApprovedCommand(cli, w, cfg)) == Returns(true)
  {
    match CheckUnpushedCommits(w)
    case Throws(m) => Run(Crash(m), [StatusGate, UnpushedGate], shown)
    case Returns(_) => FromBuild(cli, w, cfg, shown)
  }

  /**
   * With `--force` given, a dirty tree still ends `handle()` at the first
   * gate, where the intended behaviour goes on to the unpushed check.
   */
  lemma ForceStillStopsAtDirtyTree(cli: Cli, w: World, cfg: Config, cs: ChangeSet)
    requires cli.force
    requires ChangesOf(w) == Returns(Dirty(cs))
    requires NoPathBelowEarlierFile(cs.files)
    requires CheckGitStatus(IntendedChangesOf(w)).Returns?
    ensures Handle(cli, w, cfg).exit == Failure && Handle(cli, w, cfg).trace == [StatusGate]
    ensures UnpushedGate in HandleWithForce(cli, w, cfg).trace
  {
    DirtyTreeStopsDeploy(cli, w, cfg, cs);
    var shown := CheckGitStatus(IntendedChangesOf(w)).value.1;
    var t := HandleWithForce(cli, w, cfg).trace;
    assert t == ForcedFromUnpushed(cli, w, cfg, shown).trace;
    assert t[1] == UnpushedGate;
  }
}
