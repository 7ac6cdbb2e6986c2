# git-ftp:deploy, modelled in Dafny

A model of the core of `laravel-git-ftp-deployer`. This Laravel command uploads a
project with `git-ftp`, but only after a series of safety checks. The model covers:

- **GitStatus** (`git_status.dfy`). How `git status --porcelain` output becomes a
  change set (`getUncommittedChanges`, `parseGitStatusOutput`, `addDirectoryFiles`).
  It also covers the current branch and the unpushed-commit count.
- **FileTree** (`file_tree.dfy`). How the changed paths become an insertion-ordered
  trie (`buildFileTree`). It also covers the depth-first walk that draws it
  (`flattenTree`): connectors, child prefixes, one shared file counter and the
  joined raw paths.
- **TreeDisplay** (`tree_display.dfy`). The column arithmetic of `displayTree`: total
  width, padded numbers, dots, and the status colour of each file row.
- **FtpDeploy** (`ftp_deploy.dfy`). `validateEnvironment`, `buildGitFtpCommand` and
  `deploy`. A reader of the command line (`ReadGitFtpCommand`) is the command's partner
  for the round trip.
- **DeployCommand** (`deploy_command.dfy`). `handle` and the `check*`,
  `getEnvironment`, `confirmDeployment` and `deployViaFtp` steps, modelled as one
  pure gate function. It returns the exit code, the steps taken and the tree printed
  for a dirty working copy. `Handle` is the command as it stands: its status check
  parses the trimmed `git status` output (`GetUncommittedChangesAsWritten`).
  `HandleWithForce` is the command as the program's own texts describe it: the
  status check parses the untrimmed output (`GetUncommittedChanges`), and
  `--force` is honoured.
- **PhpText** (`php_text.dfy`) and **Optional** (`option.dfy`). The PHP built-ins the
  code relies on (`trim`, `empty`, `explode`/`implode`, `str_replace`, `str_repeat`,
  `str_pad`, `(int)`), plus nullable values and thrown exceptions.

Everything outside the process becomes a parameter:

- the outputs of `git status`, `git rev-parse` and `git rev-list`, where `None` means
  the command failed;
- the filesystem (`is_dir` and the recursive listing, including a listing that throws
  part-way);
- what running the build command gives;
- the environment prompt and the confirmation prompt;
- what running a given `git-ftp` command line gives.

A process run by the command either exits, with 0 or not, or throws. Neither the
build (src/Commands/GitFtpDeployerCommand.php:93-97) nor `git-ftp`
(src/Services/GitFtpDeployService.php:30-34, 85) is given a timeout. Symfony's
default of 60 seconds therefore applies, and a run past it throws out of `handle()`.
The model carries this as `Outcome<bool>`, and the exception ends the command as a crash.

The configuration is a `Config` value. Its environments are kept in key order. Each
key of an environment is absent, null, or a string (`ConfigValue`). `deploy` reads
`$config["host"]` and `$config["path"]` directly, so an absent key throws there.

`validateEnvironment` checks host, username and password only. It never reads the path.

The `--force` option is declared with the description "Force deployment even with
uncommitted changes" (src/Commands/GitFtpDeployerCommand.php:11). Both checks print
"Use --force flag to deploy anyway" when they fail (lines 66 and 84). `handle()` never
reads the option. `Handle` follows the code, and `HandleWithForce` models what those
texts promise.

## Model

| member | source | states |
|---|---|---|
| PhpText.Trim | src/Services/GitStatusService.php:18 | The result has no strippable character at either end. It is a slice of the input, and only strippable characters were removed around it. |
| PhpText.Explode | src/Services/GitStatusService.php:61 | No part contains the separator, and joining the parts with it gives back the input. |
| PhpText.ExplodeImplode | src/Services/GitStatusService.php:107 | Splitting a join of separator-free parts gives back the parts. |
| PhpText.PadLeft | src/Services/GitStatusService.php:169 | The width is max(len, width). The input sits at the right end, and every character before it is the pad character. |
| PhpText.IntCastOfPadded | src/Services/GitStatusService.php:169 | `(int)` of a space-padded decimal gives back the number. |
| PhpText.IntCastOfDecimal | src/Services/GitStatusService.php:49 | `(int)` of the decimal text of n is n. |
| GitStatus.ParseLine | src/Services/GitStatusService.php:63-72 | A line that is empty after trim is skipped. Any other line gives a code of at most two characters, a path with no backslash, and status untracked exactly when the trimmed code is `??`. |
| GitStatus.NormalizeSeparators | src/Services/GitStatusService.php:70 | Every backslash becomes `/`, every other character is unchanged and the length is the same, so no backslash is left. |
| GitStatus.ClassifyCode | src/Services/GitStatusService.php:72 | A two-character code is untracked exactly when it is `??`. |
| GitStatus.AddDirectoryFiles | src/Services/GitStatusService.php:87-102 | The listed files are appended in listing order, each with the directory's status or `modified`. The directory itself is appended when the listing threw. A listed path overwrites any earlier status, as the assignment at :95 does. Every other earlier status is unchanged, no unrelated key is added, and consistency is preserved. |
| GitStatus.AddParsedLine | src/Services/GitStatusService.php:72-78 | The line's status is recorded under its path. Then either the path or the directory's expanded files (each with that status) are appended. |
| GitStatus.ParseGitStatusOutput | src/Services/GitStatusService.php:58-85 | The files are each line's contribution in line order. Every file has a status, and no recorded path holds a backslash. |
| GitStatus.GetUncommittedChanges | src/Services/GitStatusService.php:10-25 | The corrected reading, which trims only for the emptiness test and parses the untrimmed output. Throws exactly when git failed. Returns the empty result exactly when the trimmed output is PHP-empty; otherwise the change set is consistent. |
| GitStatus.GetUncommittedChangesAsWritten | src/Services/GitStatusService.php:10-25 | The code as it stands, which parses the trimmed text. Throws exactly when git failed. Returns the empty result exactly when the trimmed output is PHP-empty; otherwise the change set is consistent. |
| GitStatus.PorcelainRoundTrip | src/Services/GitStatusService.php:10-85 | Reading back what git prints for well-formed entries gives the clean result for no entries. Otherwise it gives exactly the entries' paths in order, each classified by its code. |
| GitStatus.AsWrittenDropsFirstPathCharacter | src/Services/GitStatusService.php:18-24 | On " M src/app.js\n" the code as written records the path "rc/app.js". |
| GitStatus.CounterexampleIsPorcelain | src/Services/GitStatusService.php:18-24 | That output is exactly what git prints for one unstaged change to src/app.js, an input the round trip covers. |
| GitStatus.GetCurrentBranch | src/Services/GitStatusService.php:27-36 | Throws exactly when git failed; otherwise returns the trimmed output. |
| GitStatus.GetUnpushedCommitsCount | src/Services/GitStatusService.php:38-50 | Throws exactly when the branch cannot be read. A failed count reads as 1, never 0. |
| GitStatus.UnpushedCountReadsGitOutput | src/Services/GitStatusService.php:38-50 | When git prints n and a newline, the count is n. |
| FileTree.Insert | src/Services/GitStatusService.php:106-116 | The level's keys are unchanged when the first segment is already a key; otherwise that segment is appended last. Distinct sibling names are preserved at every level. |
| FileTree.InsertLeaves | src/Services/GitStatusService.php:107-115 | After inserting a path, the leaves are that path plus the old leaves not strictly below it. |
| FileTree.BuildFileTree | src/Services/GitStatusService.php:104-119 | The built tree has distinct sibling names at every level. |
| FileTree.BuildFileTreeLeaves | src/Services/GitStatusService.php:104-119 | The leaves are exactly the input paths (as segment lists) that no later path overwrote by ending strictly above them. |
| FileTree.BuildFileTreeKeyOrder | src/Services/GitStatusService.php:104-119 | The top-level keys are the paths' first segments, each once, ordered by the first path that uses them. |
| FileTree.ChildBuilt | src/Services/GitStatusService.php:107-115 | The directory under a key is the tree built from the paths below that key, in input order, each with the key removed from its front. |
| FileTree.BuildFileTreeNestedKeyOrder | src/Services/GitStatusService.php:104-119 | At every level, the keys are the next segments of the paths that reach that level, each once, ordered by the first such path. |
| FileTree.LeavesNoRepeats | src/Services/GitStatusService.php:104-119 | A tree whose levels have distinct keys has no two leaves with the same segments. |
| FileTree.TreeLeavesArePaths | src/Services/GitStatusService.php:104-119 | For prefix-free input, the leaves are exactly the input paths. |
| FileTree.FlattenFrom | src/Services/GitStatusService.php:125-150 | One row per node, and the shared counter ends advanced by the number of file rows. |
| FileTree.FlattenNumbered | src/Services/GitStatusService.php:125-150 | The file rows are numbered consecutively from the counter the walk started with. |
| FileTree.FlattenTree | src/Services/GitStatusService.php:121-155 | One row per node. There are as many file rows as leaves, numbered 1..n in order. |
| FileTree.FlattenRawPaths | src/Services/GitStatusService.php:133-141 | In order, the file rows carry the leaves' segments joined with "/", in depth-first key order. |
| FileTree.FlattenLayout | src/Services/GitStatusService.php:126-148 | Key k's row comes after the rows of the keys before it. It uses "└── " for the last key and "├── " otherwise, and it is a file row exactly for a leaf. A directory's row is followed at once by its children's rows, drawn with the prefix plus "    " or "│   " and numbered on from the shared counter. |
| FileTree.TreeListsChangedFiles | src/Services/GitStatusService.php:104-155 | For prefix-free input, a path appears as some file row's raw path exactly when it is one of the input paths. |
| FileTree.FileRowsDistinct | src/Services/GitStatusService.php:104-155 | No two file rows carry the same raw path. |
| TreeDisplay.MaxFileLabelWidth | src/Services/GitStatusService.php:162 | Bounds every file label's width, and is attained by some file label (or is 0). |
| TreeDisplay.TotalWidth | src/Services/GitStatusService.php:163 | At least 50 and at least every file label plus 10; equal to 50 or to the widest label plus 10. |
| TreeDisplay.NumberText | src/Services/GitStatusService.php:169 | At least two characters wide, and `(int)` reads it back as the number. |
| TreeDisplay.DotCount | src/Services/GitStatusService.php:170-171 | At least one dot. When there is room, label, dots and number fill exactly the total width. When there is none, exactly one dot, as `max(1, …)` gives. |
| TreeDisplay.StatusOf | src/Services/GitStatusService.php:173-174 | The recorded status of the path, or `modified` for an unknown path. |
| TreeDisplay.RenderLine | src/Services/GitStatusService.php:165-180 | A directory row prints its label as is. A file row is green exactly when its status is untracked. |
| TreeDisplay.DisplayTree | src/Services/GitStatusService.php:157-182 | One console line per row and none for no rows. Directory rows are plain; file rows are coloured by status. |
| TreeDisplay.FileRowsAligned | src/Services/GitStatusService.php:162-177 | In every file row, the padded number ends at column total+2 and reads back as the row's number. The status word starts at column total+3. |
| TreeDisplay.DisplayChangesTree | src/Services/GitStatusService.php:52-56 | Throws exactly when a path lies below a file inserted earlier; otherwise prints one line per tree node. |
| TreeDisplay.ChangedFilesShownWithStatus | src/Services/GitStatusService.php:52-56 | For prefix-free changes the tree is shown. The file rows' raw paths are exactly the changed files, with no path on two rows, so every changed file gets exactly one numbered row. Each row is coloured by the status recorded for that file. |
| FtpDeploy.EnvironmentNames | src/Commands/GitFtpDeployerCommand.php:138 | The configured names, in key order. |
| FtpDeploy.LookupEnvironment | src/Services/GitFtpDeployService.php:10-16 | None exactly when no environment has that name; otherwise a configured entry of that name. |
| FtpDeploy.ValidateEnvironment | src/Services/GitFtpDeployService.php:9-19 | False for an unknown name. Otherwise true exactly when host, username and password are all set and non-empty under PHP `empty` ("" and "0" count as empty). The path is not looked at. |
| FtpDeploy.RemotePath | src/Services/GitFtpDeployService.php:58 | "/website/" only for an absent or null path; an empty path is kept. |
| FtpDeploy.BuildGitFtpCommand | src/Services/GitFtpDeployService.php:53-79 | Starts with `git-ftp push` and ends with ` --user "U" --passwd "P" --syncroot . ` followed by host and path. |
| FtpDeploy.ReadFlagsOfBuilt | src/Services/GitFtpDeployService.php:62-72 | The flags read back are exactly the options that are true, in the order force, verbose, auto-init, with absent counting as false. This holds whatever the credentials are. |
| FtpDeploy.BuildGitFtpCommandReadsBack | src/Services/GitFtpDeployService.php:53-79 | For credentials without a double quote, the command reads back as the set flags, the user and password verbatim, and host followed by path. |
| FtpDeploy.FirstMissingKey | src/Services/GitFtpDeployService.php:25-57 | None exactly when all four keys are present. Otherwise it names the first absent key in the order `deploy` reads them: host and path for the summary lines, then username and password. |
| FtpDeploy.Deploy | src/Services/GitFtpDeployService.php:21-58 | For an unconfigured environment, throws PHP's null-offset error. For an environment lacking a key, throws "Undefined array key" naming the first absent key. Otherwise runs the command built from that environment's configuration and reports what running it gave: exit 0, another exit, or an exception. |
| FtpDeploy.ValidatedDeployCarriesCredentials | src/Services/GitFtpDeployService.php:18-76 | A validated environment reaches `git-ftp` exactly when it has a `path` key; without one, `deploy` throws "Undefined array key \"path\"". The command's user and password are the configured non-empty values, and its target is host followed by path. |
| DeployCommand.CheckGitStatus | src/Commands/GitFtpDeployerCommand.php:53-69 | Given what `getUncommittedChanges` returned: crashes when that threw, and passes exactly when it is the empty result. Otherwise it prints the change tree, or crashes when the tree cannot be built. |
| DeployCommand.CheckUnpushedCommits | src/Commands/GitFtpDeployerCommand.php:71-87 | Passes exactly when the count is 0, and throws exactly when the branch cannot be read. |
| DeployCommand.GetEnvironment | src/Commands/GitFtpDeployerCommand.php:133-141 | A truthy `--env` is used verbatim, without checking. Otherwise one of the configured names is chosen, and the prompt throws when there are none. |
| DeployCommand.ConfirmDeployment | src/Commands/GitFtpDeployerCommand.php:143-154 | Yes only on an explicit yes; the default answer is no. |
| DeployCommand.DeployTo | src/Commands/GitFtpDeployerCommand.php:113-130 | For a chosen environment, validation, confirmation and `git-ftp` come in that order. A crash happens only after the user said yes. The result is true exactly when the environment validates, the user says yes, the environment has a `path` key, and `git-ftp` exits with 0 on the command built for it. |
| DeployCommand.DeployViaFtp | src/Commands/GitFtpDeployerCommand.php:110-131 | The steps come in order. No step is taken exactly when choosing the environment throws, and then the stage crashes. The result is true exactly when the deployment is approved, the environment has a `path` key, and `git-ftp` exits with 0. |
| DeployCommand.DeployViaFtpSteps | src/Commands/GitFtpDeployerCommand.php:110-131 | Validation, confirmation and `git-ftp` are each reached exactly when the step before passed, all for the chosen environment. `git-ftp` is reached only when the environment has a `path` key, and with the command built for it. |
| DeployCommand.FromBuild | src/Commands/GitFtpDeployerCommand.php:39-46 | A build that was not skipped and did not exit with 0 ends the run after the build step. A non-zero exit gives FAILURE, and an exception (such as the 60-second time-out) gives a crash. Otherwise `deployViaFtp` decides. |
| DeployCommand.GatedRun | src/Commands/GitFtpDeployerCommand.php:25-51 | Given what `getUncommittedChanges` returned, the steps come in order from the status check. The run succeeds exactly when that result is clean, nothing is unpushed, the build passes, the approved environment has a `path` key, and `git-ftp` exits with 0. |
| DeployCommand.Handle | src/Commands/GitFtpDeployerCommand.php:25-51 | `handle()` as written, with the status check on the trimmed output. Steps run in the order status, unpushed, build, validate, confirm, git-ftp, and the first failure stops the run. A failing build gives FAILURE, or a crash when it threw. SUCCESS exactly when every gate passes and `git-ftp` exits with 0. |
| DeployCommand.HandleCheckSteps | src/Commands/GitFtpDeployerCommand.php:29-41 | The unpushed check runs exactly on a clean tree. The build runs exactly when both checks passed and `--skip-build` is not set. |
| DeployCommand.HandleDeploySteps | src/Commands/GitFtpDeployerCommand.php:110-131 | Validation, confirmation and `git-ftp` are reached exactly after every check passed, each for the chosen environment; `git-ftp` also needs a `path` key. |
| DeployCommand.DeployStepsAfterChecks | src/Commands/GitFtpDeployerCommand.php:44 | Past the checks, the later steps are those `deployViaFtp` took. |
| DeployCommand.FailedChecksStopEarly | src/Commands/GitFtpDeployerCommand.php:29-41 | When a check fails, no step after the build is taken. |
| DeployCommand.HandleIgnoresForce | src/Commands/GitFtpDeployerCommand.php:11-51 | The outcome does not depend on `--force`. |
| DeployCommand.DirtyTreeStopsDeploy | src/Commands/GitFtpDeployerCommand.php:53-69 | When the status check, as written, finds changes whose tree can be built, the run ends with FAILURE at the first gate and prints that tree. |
| DeployCommand.UnknownEnvironmentFailsAtValidation | src/Commands/GitFtpDeployerCommand.php:110-122 | An `--env` naming no configured environment is only refused at validation, after the checks and the build. |
| DeployCommand.DefaultAnswerNeverDeploys | src/Commands/GitFtpDeployerCommand.php:143-154 | Taking the default at the confirmation prompt never runs `git-ftp` and never succeeds. |
| DeployCommand.UploadUsesValidatedCredentials | src/Commands/GitFtpDeployerCommand.php:110-131 | The command given to `git-ftp` carries the chosen environment's non-empty credentials, and host followed by path. |
| DeployCommand.ProcessExceptionsCrash | src/Commands/GitFtpDeployerCommand.php:39-46 | Past both checks, an exception from the build ends the run as a crash with the build as the last step. An exception from `git-ftp` ends it as a crash after `git-ftp` was given the approved command. |
| DeployCommand.MissingPathCrashes | src/Services/GitFtpDeployService.php:26 | An approved environment without a `path` key crashes with "Undefined array key \"path\"" right after confirmation, before `git-ftp` runs. |
| DeployCommand.HandleWithForce | src/Commands/GitFtpDeployerCommand.php:11-84 | The intended command. Without `--force` it is the gated run on the corrected status reading, and it succeeds exactly when that reading is clean and every later gate passes. With `--force` it is the forced run. Either way the steps come in order. |
| DeployCommand.ForcedHandle | src/Commands/GitFtpDeployerCommand.php:62-84 | With `--force`, on the corrected status reading, a dirty tree or unpushed commits no longer stop the run. It succeeds exactly when both checks ran without crashing, the build passes, the approved environment has a `path` key, and `git-ftp` exits with 0. |
| DeployCommand.ForceStillStopsAtDirtyTree | src/Commands/GitFtpDeployerCommand.php:29-31 | With `--force` and a dirty tree, `handle()` still fails at the first gate. The intended run goes on to the unpushed check whenever its status check does not crash. |

## Left out

- Running `git`, the build command and `git-ftp` is not modelled. Each becomes an oracle result. For `git` it is the output, or `None` for a non-zero exit. For the build and `git-ftp` it is an exit with 0 or not, or an exception.
- A time-out of the three `git` processes is not modelled. A `git` command past Symfony's 60-second default would throw `ProcessTimedOutException`, but the model gives `git` only an output or `None`. For `git rev-list` such a crash would replace the count of 1 that a failed run gives.
- GitStatus.ParseLine: cuts a line at code points, while PHP's `substr` cuts at bytes. The two agree whenever the first three characters of the line are ASCII. That holds for every line of the corrected reading, which starts with the two-character code and a blank. On the as-written reading the first line is shifted by one column, and the two differ when its path starts with a multi-byte character.
- Output streaming, TTY mode, and every `info`/`warn`/`error`/`line` message are not modelled. The one exception is the change tree printed for a dirty working copy, whose colour tags become a `Color` value.
- `is_dir` and `RecursiveDirectoryIterator` are not modelled. They become the filesystem oracle `FsEntry`: not a directory, or the files listed (in the order the iterator yields them) plus whether the listing completed.
- `createFtpProcess` (src/Services/GitFtpDeployService.php:81-86) is not modelled: the bash wrapping and its quoting. `Deploy` hands the unwrapped command line to the oracle.
- `mb_strwidth` is not modelled. Display width is taken as the number of code points, which equals the width for everything the tree itself draws.
- Laravel's `env()` conversions (strings such as "true" or "null") and the config repository are not modelled. The configuration is a `Config` value. Only string, null and absent values are modelled for an environment's keys.
- Dot-notation reads (`environments.{name}` in `deploy` and `confirmDeployment`) are not modelled. They are taken as plain key lookups, which differ only for environment names that contain a dot.
- The non-interactive behaviour of `choice` and `confirm` is not modelled. The choice oracle is an index, reduced modulo the number of names, so every answer picks one of the names offered.
- A second `getCurrentBranch` call (src/Commands/GitFtpDeployerCommand.php:80) is taken to see the same git state as the first.
- PHP's conversion of numeric-string array keys to integers is not modelled.
- Exponent, hexadecimal and overflowing forms in the `(int)` cast are not modelled.
- Paths that lie below an earlier file are not given to the tree builder. That case is the PHP Error `DisplayChangesTree` returns.
- TreeDisplay.FileRowsAligned: stated only for rows numbered below 10^9. For numbers with more digits, the minimum of one dot can push the columns right.
- FtpDeploy.BuildGitFtpCommandReadsBack: stated only for credentials without a double quote. The code inserts credentials verbatim, so a quote in a credential changes how the command line splits.
- DeployCommand.HandleIgnoresForce: `handle()` as written. The behaviour `--force` promises is modelled separately as `HandleWithForce`.

## Findings

| source | as written | input that shows it | evidently intended | confidence | as-written member | corrected member |
|---|---|---|---|---|---|---|
| src/Services/GitStatusService.php:18-24 | The whole output is trimmed before it is parsed. The first line then loses the blank that starts its status code, and every field is read one column early. `Handle` runs the command with this reading. | `git status --porcelain` prints " M src/app.js\n"; the path recorded is "rc/app.js" | Trim only for the emptiness test and parse the untrimmed lines, so the path is "src/app.js". `HandleWithForce` runs the command with this reading. | not executed | GitStatus.AsWrittenDropsFirstPathCharacter | GitStatus.PorcelainRoundTrip |
| src/Commands/GitFtpDeployerCommand.php:11-84 | `--force` is declared as "Force deployment even with uncommitted changes", and both checks say "Use --force flag to deploy anyway". `handle()` never reads the option. | `git-ftp:deploy --force` on a working copy with " M src/app.js" | With `--force`, a dirty tree or unpushed commits are reported but deployment continues | not executed | DeployCommand.ForceStillStopsAtDirtyTree | DeployCommand.HandleWithForce |
