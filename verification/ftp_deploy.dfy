/**
 * `GitFtpDeployService`: the environment check and the `git-ftp push`
 * command line built from one environment's configuration. Running the
 * command is an oracle of the caller.
 */
module FtpDeploy {
  import opened Optional
  import opened PhpText

  /**
   * One key of an environment's configuration array: absent, present and
   * null, or present with a string. PHP tells the first two apart: `??`,
   * `isset` and `empty` treat both alike, but reading an absent key with
   * `$config["key"]` throws.
   */
  datatype ConfigValue = Missing | Null | Value(value: string)

  /** One entry of `git-ftp-deployer.environments`. */
  datatype EnvConfig = EnvConfig(host: ConfigValue, username: ConfigValue,
                                 password: ConfigValue, path: ConfigValue)

  /** `git-ftp-deployer.git_ftp_options`; `None` is an option that is null or not set. */
  datatype FtpOptions = FtpOptions(force: Option<bool>, verbose: Option<bool>, autoInit: Option<bool>)

  /** The package configuration: the environments in key order, and the git-ftp options. */
  datatype Config = Config(environments: seq<(string, EnvConfig)>, options: FtpOptions)

  /** The configured environment names, in key order (`array_keys`). */
  function EnvironmentNames(cfg: Config): (names: seq<string>)
    ensures |names| == |cfg.environments|
    ensures forall i :: 0 <= i < |names| ==> names[i] == cfg.environments[i].0
  {
    seq(|cfg.environments|, i requires 0 <= i < |cfg.environments| => cfg.environments[i].0)
  }

  /** `$environments[$name]`, or `None` when `isset` fails. */
  function LookupEnvironment(envs: seq<(string, EnvConfig)>, name: string): (r: Option<EnvConfig>)
    ensures r.None? <==> forall i :: 0 <= i < |envs| ==> envs[i].0 != name
    ensures r.Some? ==> exists i :: 0 <= i < |envs| && envs[i] == (name, r.value)
  {
    if envs == [] then None
    else if envs[0].0 == name then Some(envs[0].1)
    else
      var r := LookupEnvironment(envs[1..], name);
      assert forall i :: 1 <= i < |envs| ==> envs[i] == envs[1..][i - 1];
      r
  }

  /** `!empty($config["key"])`: a string value other than "" and "0". */
  predicate Filled(v: ConfigValue) {
    v.Value? && !PhpEmpty(v.value)
  }

  /** `validateEnvironment($environment)`. */
  function ValidateEnvironment(cfg: Config, name: string): (ok: bool)
    ensures LookupEnvironment(cfg.environments, name).None? ==> !ok
    ensures LookupEnvironment(cfg.environments, name).Some? ==>
              var e := LookupEnvironment(cfg.environments, name).value;
              (ok <==> Filled(e.host) && Filled(e.username) && Filled(e.password))
  {
    match LookupEnvironment(cfg.environments, name)
    case None => false
    case Some(e) => Filled(e.host) && Filled(e.username) && Filled(e.password)
  }

  /**
   * A value interpolated into a PHP string: null prints as "". An absent key
   * is never interpolated, because reading it throws first (see `Deploy`).
   */
  function Interpolate(v: ConfigValue): string {
    if v.Value? then v.value else ""
  }

  /** `$options[$key] ?? false`. */
  function IsSet(v: Option<bool>): bool {
    v.Some? && v.value
  }

  const Push: string := "git-ftp push"
  const ForceFlag: string := " --force"
  const VerboseFlag: string := " --verbose"
  const AutoInitFlag: string := " --auto-init"
  const UserOpen: string := " --user \""
  const PasswdOpen: string := " --passwd \""
  const Quote: string := "\""
  const SyncrootOpen: string := " --syncroot . "
  const DefaultPath: string := "/website/"

  /** `$config["path"] ?? "/website/"`: only an absent or null path takes the default. */
  function RemotePath(e: EnvConfig): (p: string)
    ensures !e.path.Value? ==> p == DefaultPath
    ensures e.path.Value? ==> p == e.path.value
  {
    if e.path.Value? then e.path.value else DefaultPath
  }

  function FlagText(on: bool, flag: string): string {
    if on then flag else ""
  }

  /** The enabled flags, in the order force, verbose, auto-init. */
  function FlagsText(opts: FtpOptions): string {
    FlagText(IsSet(opts.force), ForceFlag)
    + (FlagText(IsSet(opts.verbose), VerboseFlag)
    + FlagText(IsSet(opts.autoInit), AutoInitFlag))
  }

  /** ` --user "U" --passwd "P" --syncroot . ` followed by host and path. */
  function CredentialTail(e: EnvConfig): string {
    UserOpen + (Interpolate(e.username) + (Quote
    + (PasswdOpen + (Interpolate(e.password) + (Quote
    + (SyncrootOpen + (Interpolate(e.host) + RemotePath(e))))))))
  }

  /**
   * `buildGitFtpCommand($config)`: `git-ftp push`, the enabled flags, then
   * user and password in double quotes, `--syncroot .` and host followed by
   * path. The credentials go in verbatim.
   */
  function BuildGitFtpCommand(e: EnvConfig, opts: FtpOptions): (cmd: string)
    ensures |Push| + |CredentialTail(e)| <= |cmd|
    ensures cmd[..|Push|] == Push
    ensures cmd[|cmd| - |CredentialTail(e)|..] == CredentialTail(e)
  {
    ConcatEnds(Push, FlagsText(opts), CredentialTail(e));
    Push + (FlagsText(opts) + CredentialTail(e))
  }

  /** The first and last parts of a three-part concatenation can be sliced back out. */
  lemma ConcatEnds(a: string, b: string, c: string)
    ensures |a| + |c| <= |a + (b + c)|
    ensures (a + (b + c))[..|a|] == a
    ensures (a + (b + c))[|a + (b + c)| - |c|..] == c
  {
    assert (a + (b + c))[|a| + |b|..] == c;
  }

  /** What a reader of the command line recovers from it. */
  datatype GitFtpInvocation = GitFtpInvocation(force: bool, verbose: bool, autoInit: bool,
                                               user: string, passwd: string, target: string)

  /** `s` without its prefix `p`, if it has it. */
  function StripPrefix(s: string, p: string): (r: Option<string>)
    ensures r.Some? <==> |p| <= |s| && s[..|p|] == p
    ensures r.Some? ==> s == p + r.value
  {
    if |p| <= |s| && s[..|p|] == p then
      assert s == s[..|p|] + s[|p|..];
      Some(s[|p|..])
    else None
  }

  /** An optional flag at the front of `s`: whether it is there, and what follows. */
  function TakeFlag(s: string, flag: string): (r: (bool, string))
    ensures r.0 ==> s == flag + r.1
    ensures !r.0 ==> r.1 == s
  {
    match StripPrefix(s, flag)
    case Some(rest) => (true, rest)
    case None => (false, s)
  }

  /** The index of the first `c` in `s`, or `|s|`. */
  function FirstIndex(s: string, c: char): (k: nat)
    ensures k <= |s|
    ensures forall j :: 0 <= j < k ==> s[j] != c
    ensures k < |s| ==> s[k] == c
  {
    if s == [] then 0 else if s[0] == c then 0 else 1 + FirstIndex(s[1..], c)
  }

  /** A double-quoted field: the text up to the next `"`, and what follows the quote. */
  function TakeQuoted(s: string): (r: Option<(string, string)>)
    ensures r.Some? ==> s == r.value.0 + (Quote + r.value.1) && '"' !in r.value.0
    ensures r.None? <==> '"' !in s
  {
    var k := FirstIndex(s, '"');
    if k == |s| then None
    else
      assert s == s[..k] + (Quote + s[k + 1..]);
      Some((s[..k], s[k + 1..]))
  }

  /** The optional flags at the front of what follows `git-ftp push`. */
  function ReadFlags(s: string): (bool, bool, bool, string) {
    var (f, s1) := TakeFlag(s, ForceFlag);
    var (v, s2) := TakeFlag(s1, VerboseFlag);
    var (a, s3) := TakeFlag(s2, AutoInitFlag);
    (f, v, a, s3)
  }

  /**
   * Reads a `git-ftp push` command line back the way a shell splitting on
   * double quotes would: the flags, the user and password between their
   * quotes, and the target after `--syncroot .`.
   */
  function ReadGitFtpCommand(cmd: string): Option<GitFtpInvocation> {
    match StripPrefix(cmd, Push)
    case None => None
    case Some(s0) =>
      var (f, v, a, s3) := ReadFlags(s0);
      match ReadCredentials(s3)
      case None => None
      case Some((user, passwd, target)) => Some(GitFtpInvocation(f, v, a, user, passwd, target))
  }

  /** User, password and target from what follows the flags. */
  function ReadCredentials(s3: string): Option<(string, string, string)> {
    match StripPrefix(s3, UserOpen)
    case None => None
    case Some(s4) =>
      match TakeQuoted(s4)
      case None => None
      case Some((user, s5)) =>
        match ReadPasswordAndTarget(s5)
        case None => None
        case Some((passwd, target)) => Some((user, passwd, target))
  }

  /** Password and target from what follows the user's closing quote. */
  function ReadPasswordAndTarget(s5: string): Option<(string, string)> {
    match StripPrefix(s5, PasswdOpen)
    case None => None
    case Some(s6) =>
      match TakeQuoted(s6)
      case None => None
      case Some((passwd, s7)) =>
        match StripPrefix(s7, SyncrootOpen)
        case None => None
        case Some(target) => Some((passwd, target))
  }

  lemma StripPrefixOfConcat(p: string, t: string)
    ensures StripPrefix(p + t, p) == Some(t)
  {
    assert (p + t)[..|p|] == p;
    assert (p + t)[|p|..] == t;
  }

  lemma StripPrefixMismatch(s: string, p: string, i: nat)
    requires i < |p| && i < |s| && s[i] != p[i]
    ensures StripPrefix(s, p) == None
  {
    if |p| <= |s| {
      assert s[..|p|][i] != p[i];
    }
  }

  lemma TakeQuotedOfConcat(u: string, t: string)
    requires '"' !in u
    ensures TakeQuoted(u + (Quote + t)) == Some((u, t))
  {
    var s := u + (Quote + t);
    var k := FirstIndex(s, '"');
    assert s[|u|] == '"';
    assert k == |u|;
    assert s[..k] == u;
    assert s[k + 1..] == t;
  }

  /**
   * The flags read back from a built command are exactly the options that
   * are set, whatever the credentials contain.
   */
  lemma ReadFlagsOfBuilt(opts: FtpOptions, rest: string)
    requires |rest| > 3 && rest[3] == 'u'
    ensures ReadFlags(FlagsText(opts) + rest)
            == (IsSet(opts.force), IsSet(opts.verbose), IsSet(opts.autoInit), rest)
  {
    var a := FlagText(IsSet(opts.autoInit), AutoInitFlag) + rest;
    var va := FlagText(IsSet(opts.verbose), VerboseFlag) + a;
    assert FlagsText(opts) + rest == FlagText(IsSet(opts.force), ForceFlag) + va;
    FlagStep(IsSet(opts.autoInit), AutoInitFlag, rest);
    FlagStep(IsSet(opts.verbose), VerboseFlag, a);
    FlagStep(IsSet(opts.force), ForceFlag, va);
  }

  /**
   * A flag that is on is read off the front and one that is off is not,
   * when what follows differs from the flag at its fourth character.
   */
  lemma FlagStep(on: bool, flag: string, rest: string)
    requires |flag| > 3 && |rest| > 3 && rest[3] != flag[3]
    ensures TakeFlag(FlagText(on, flag) + rest, flag) == (on, rest)
    ensures |FlagText(on, flag) + rest| > 3
    ensures (FlagText(on, flag) + rest)[3] == if on then flag[3] else rest[3]
  {
    if on {
      StripPrefixOfConcat(flag, rest);
    } else {
      assert FlagText(on, flag) + rest == rest;
      StripPrefixMismatch(rest, flag, 3);
    }
  }

  /**
   * The built command reads back as the configuration it came from: the
   * flags that are set, the user and password verbatim, and host followed by
   * path as the target, provided neither credential holds a double quote.
   */
  lemma {:induction false} BuildGitFtpCommandReadsBack(e: EnvConfig, opts: FtpOptions)
    requires '"' !in Interpolate(e.username) && '"' !in Interpolate(e.password)
    ensures ReadGitFtpCommand(BuildGitFtpCommand(e, opts))
            == Some(GitFtpInvocation(IsSet(opts.force), IsSet(opts.verbose), IsSet(opts.autoInit),
                                     Interpolate(e.username), Interpolate(e.password),
                                     Interpolate(e.host) + RemotePath(e)))
  {
    var u, pw := Interpolate(e.username), Interpolate(e.password);
    var target := Interpolate(e.host) + RemotePath(e);
    var tail := CredentialTail(e);
    StripPrefixOfConcat(Push, FlagsText(opts) + tail);
    ReadCredentialsOfTail(u, pw, target, tail);
    UserOpenFront(u + (Quote + (PasswdOpen + (pw + (Quote + (SyncrootOpen + target))))));
    ReadFlagsOfBuilt(opts, tail);
  }

  /** `--user` starts with the letter that tells it apart from every flag. */
  lemma UserOpenFront(t: string)
    ensures |UserOpen + t| > 3 && (UserOpen + t)[3] == 'u'
  {
    assert (UserOpen + t)[3] == UserOpen[3];
  }

  /** The credential part of a built command reads back verbatim. */
  lemma ReadCredentialsOfTail(u: string, pw: string, target: string, tail: string)
    requires '"' !in u && '"' !in pw
    requires tail == UserOpen + (u + (Quote + (PasswdOpen + (pw + (Quote + (SyncrootOpen + target))))))
    ensures ReadCredentials(tail) == Some((u, pw, target))
  {
    var s5 := PasswdOpen + (pw + (Quote + (SyncrootOpen + target)));
    StripPrefixOfConcat(UserOpen, u + (Quote + s5));
    TakeQuotedOfConcat(u, s5);
    ReadPasswordOfTail(pw, target, s5);
  }

  lemma ReadPasswordOfTail(pw: string, target: string, s5: string)
    requires '"' !in pw
    requires s5 == PasswdOpen + (pw + (Quote + (SyncrootOpen + target)))
    ensures ReadPasswordAndTarget(s5) == Some((pw, target))
  {
    var s7 := SyncrootOpen + target;
    StripPrefixOfConcat(PasswdOpen, pw + (Quote + s7));
    TakeQuotedOfConcat(pw, s7);
    StripPrefixOfConcat(SyncrootOpen, target);
  }

  /** PHP's message when `$config["host"]` is read from a null `$config`. */
  const NullConfigAccess: string := "Trying to access array offset on value of type null"

  /** PHP's message when `$config[key]` is read and the key is absent. */
  function UndefinedKey(key: string): string {
    "Undefined array key \"" + key + "\""
  }

  /**
   * The first key `deploy` reads that is absent, in the order it reads them:
   * host and path for the summary, then username and password when building
   * the command (the path is read there only through `??`).
   */
  function FirstMissingKey(e: EnvConfig): (k: Option<string>)
    ensures k.None? <==> !e.host.Missing? && !e.path.Missing? && !e.username.Missing? && !e.password.Missing?
    ensures e.host.Missing? ==> k == Some("host")
    ensures !e.host.Missing? && e.path.Missing? ==> k == Some("path")
    ensures !e.host.Missing? && !e.path.Missing? && e.username.Missing? ==> k == Some("username")
    ensures !e.host.Missing? && !e.path.Missing? && !e.username.Missing? && e.password.Missing?
            ==> k == Some("password")
  {
    if e.host.Missing? then Some("host")
    else if e.path.Missing? then Some("path")
    else if e.username.Missing? then Some("username")
    else if e.password.Missing? then Some("password")
    else None
  }

  /**
   * A `git-ftp` run: the command line given to the shell and what running it
   * gave, whether it exited with 0 or the exception `Process::run` threw
   * (a time-out, for one).
   */
  datatype FtpRun = FtpRun(command: string, result: Outcome<bool>)

  /**
   * `deploy($environment)`: the command built from that environment's
   * configuration is run; `gitFtp` says what running a command line gives.
   * An environment that is not configured makes the first read of its host
   * throw, and so does reading any key it lacks.
   */
  function Deploy(cfg: Config, name: string, gitFtp: string -> Outcome<bool>): (r: Outcome<FtpRun>)
    ensures LookupEnvironment(cfg.environments, name).None? ==> r == Throws(NullConfigAccess)
    ensures LookupEnvironment(cfg.environments, name).Some? ==>
              var e := LookupEnvironment(cfg.environments, name).value;
              (r.Throws? <==> FirstMissingKey(e).Some?)
              && (r.Throws? ==> r.message == UndefinedKey(FirstMissingKey(e).value))
    ensures r.Returns? ==>
              r.value.command == BuildGitFtpCommand(LookupEnvironment(cfg.environments, name).value, cfg.options)
              && r.value.result == gitFtp(r.value.command)
  {
    match LookupEnvironment(cfg.environments, name)
    case None => Throws(NullConfigAccess)
    case Some(e) =>
      match FirstMissingKey(e)
      case Some(key) => Throws(UndefinedKey(key))
      case None =>
        var cmd := BuildGitFtpCommand(e, cfg.options);
        Returns(FtpRun(cmd, gitFtp(cmd)))
  }

  /**
   * An environment that passes validation reaches `git-ftp` exactly when it
   * has a `path` key (null or not), and the command it runs carries the
   * configured, non-empty user and password and the host, read back
   * verbatim when the credentials hold no double quote.
   */
  lemma ValidatedDeployCarriesCredentials(cfg: Config, name: string, gitFtp: string -> Outcome<bool>)
    requires ValidateEnvironment(cfg, name)
    requires var e := LookupEnvironment(cfg.environments, name).value;
             '"' !in Interpolate(e.username) && '"' !in Interpolate(e.password)
    ensures var e := LookupEnvironment(cfg.environments, name).value;
            Deploy(cfg, name, gitFtp).Returns? <==> !e.path.Missing?
    ensures var e := LookupEnvironment(cfg.environments, name).value;
            e.path.Missing? ==> Deploy(cfg, name, gitFtp) == Throws(UndefinedKey("path"))
    ensures var e := LookupEnvironment(cfg.environments, name).value;
            var inv := ReadGitFtpCommand(BuildGitFtpCommand(e, cfg.options));
            inv.Some?
            && inv.value.user == e.username.value && !PhpEmpty(inv.value.user)
            && inv.value.passwd == e.password.value && !PhpEmpty(inv.value.passwd)
            && inv.value.target == e.host.value + RemotePath(e)
  {
    var e := LookupEnvironment(cfg.environments, name).value;
    BuildGitFtpCommandReadsBack(e, cfg.options);
  }
}
