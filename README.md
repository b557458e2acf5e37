# unirun, modelled in Dafny

unirun is a universal launcher for JavaScript projects. `unirun [script]`
looks at the project root and does four things:

- It picks the package manager from the lockfile present.
- With `--build`, it builds first.
- It chooses the script to run. That is the argument, else the only
  matching script, else the user's pick among several, else a framework
  command.
- It spawns the chosen script through the manager, or runs a literal command.

The repository also holds a pipeline of pre-flight checks
(src/pipeline/index.ts), which the launcher in src/index.ts does not call:

- The dependency check offers `<manager> install` when `node_modules` is
  missing or empty.
- The env check offers to copy `.env` from an example file.
- The port check reads the port a script names. When that port is taken, it
  offers another port, a kill of the process holding it, or to go on anyway.

`runPipeline` runs all three in that order, and `runMinimalPipeline` the
first two. An exception from a check ends either run with
`shouldContinue = false`.

The model has one module per source file:

| module | file |
|---|---|
| `Detector` | `detector.dfy` |
| `Manager` | `manager.dfy` |
| `Monorepo` | `monorepo.dfy` |
| `Config` | `config.dfy` |
| `Executor` | `executor.dfy` |
| `Dependencies` | `dependencies.dfy` |
| `Env` | `env.dfy` |
| `Port` | `port.dfy` |
| `Pipeline` | `pipeline.dfy` |
| `Cli` | `cli.dfy` |

Four support modules sit beside them:

- `Wrappers` holds `Option`.
- `Search` finds the first entry of a list that is present or that yields a
  value.
- `Text` holds characters, digits, split/join and trimming.
- `Effects` defines the observable effects a run performs. These are prompts,
  spawned children, port probes, kill attempts and file copies, recorded as a
  trace.

Everything the program learns from outside is an input of the model:

- The files at the project root are a `set<string>`.
- Each prompt's answer is an input.
- Each `detect-port` probe result is an input.
- Each child's success is an input.
- The `netstat` listing is an input.

The checkers are functions from those inputs to an effect trace and a result.
`runPipeline`, `runMinimalPipeline` and the command-line action work through
mutable locals and early exits. They are methods, specified against those
functions.

## Model

| member | source | states |
|---|---|---|
| Detector.DetectScript | src/core/detector.ts:3-24 | The result is the first candidate of the mode's priority list whose script is present with a non-empty command, none before it qualifying; `None` exactly when no candidate qualifies |
| Detector.DetectedIsTruthyCandidate | src/core/detector.ts:13-18 | A detected name is one of the mode's candidates and names a non-empty script of the manifest |
| Detector.NoScriptsNoResult | src/core/detector.ts:4 | A manifest without `scripts` (`pkg.scripts \|\| {}`) detects nothing |
| Detector.OnlyCandidatesMatter | src/core/detector.ts:16-18 | Two manifests that agree on the mode's candidates detect the same script, whatever else they hold |
| Detector.DevWinsInDevMode | tests/detector.test.ts:15-23 | A non-empty `dev` script is chosen in dev mode over every other script |
| Detector.EmptyCommandIsSkipped | src/core/detector.ts:17 | A script whose command is the empty string is falsy and is passed over for the next candidate |
| Detector.DetectorExamples | tests/detector.test.ts:4-33 | The three expectations of the detector's tests |
| Manager.DetectManager | src/core/manager.ts:5-10 | yarn iff `yarn.lock`; pnpm iff `pnpm-lock.yaml` without `yarn.lock`; bun iff `bun.lockb` alone; npm iff no lockfile |
| Manager.DetectManagerIsFirstLockfile | src/core/manager.ts:6-9 | The manager is that of the first lockfile of the checked order that exists, npm when none does |
| Monorepo.DetectMonorepo | src/core/monorepo.ts:5-9 | turbo iff `turbo.json`; nx iff `nx.json` without `turbo.json`; null iff neither |
| Monorepo.DetectMonorepoIsFirstMarker | src/core/monorepo.ts:6-8 | The tool is that of the first marker file that exists |
| Config.ReadFirst | src/utils/config.ts:15-25 | The loop loads the first candidate file that exists and stops there, whatever its parse gives |
| Config.ReadConfig | src/utils/config.ts:12-28 | When `.unirunrc` exists its parse alone decides, a parse failure giving null without a look at `.unirunrc.json`. `.unirunrc.json` is loaded only when `.unirunrc` is absent, and without either file the result is null |
| Config.ResultIsLoaded | src/utils/config.ts:15-27 | Any configuration returned is the parse of an existing config file |
| Executor.Command | src/core/executor.ts:4-21 | A script runs as `<manager> run <command>`; a literal command runs with `preferLocal`, its program and arguments free of spaces and joining back with single spaces to the command |
| Executor.LiteralIsTheOnlyDecomposition | src/core/executor.ts:15-16 | For space-free pieces, joining with spaces to the command holds iff they are exactly the program and arguments spawned |
| Executor.ConsecutiveSpacesGiveEmptyArgument | src/core/executor.ts:15 | `split(' ')` splits on single spaces: `next  dev` runs `next` with arguments `""` and `dev` |
| Executor.Execute | src/core/executor.ts:4-21 | The child spawned is `Command`; `execute` returns iff the child succeeds, otherwise the launcher exits with status 1 |
| Text.JoinSplit | src/core/executor.ts:15 | Joining the pieces of a split with the separator gives back the string |
| Text.SplitJoin | src/core/executor.ts:15 | Splitting the join of separator-free pieces gives back the pieces |
| Text.Split | src/checkers/port.ts:79 | `split` gives at least one piece, and no piece holds the separator |
| Text.TrimIsSlice | src/checkers/port.ts:84 | `trim` keeps one contiguous slice of the line, which neither starts nor ends with whitespace |
| Text.TrimStripsWhitespace | src/checkers/port.ts:84 | Everything `trim` drops, before and after that slice, is whitespace |
| Text.LastToken | src/checkers/port.ts:84-85 | The last token is a whitespace-free suffix of the trimmed line, preceded by whitespace unless it is the whole trimmed line, and non-empty when the trimmed line is |
| Text.DigitPrefixIs | src/checkers/port.ts:129-132 | The greedy `\d+` at a position takes exactly the maximal run of digits there |
| Text.DigitsValueOfNatToString | src/checkers/port.ts:138 | `parseInt(_, 10)` of a rendered number gives the number back |
| Dependencies.InstallInvocation | src/checkers/dependencies.ts:28 | The install child is `<manager> install` |
| Dependencies.EnsureDependencies | src/checkers/dependencies.ts:11-66 | A populated `node_modules` gives no effect, and one that cannot be listed throws before any prompt. Otherwise one confirm prompt first, the install only on a yes, and a throw iff the prompt fails or the accepted install fails; every effect is that prompt or that install |
| Dependencies.DecliningNeverThrows | src/checkers/dependencies.ts:34-40 | Whenever `node_modules` can be listed, a declined install never throws and spawns nothing |
| Dependencies.MissingIsLikeEmpty | src/checkers/dependencies.ts:15-64 | A missing and an empty `node_modules` are handled alike, for every answer to the prompt |
| Env.ChooseExample | src/checkers/env.ts:12-27 | The chosen example is one of the three example files and exists; none exactly when none of them exists |
| Env.ExampleOrder | src/checkers/env.ts:12-27 | `.env.example` is preferred to `.env.template`, and both to `env.example` |
| Env.EnsureEnvFile | src/checkers/env.ts:10-59 | An existing `.env` or no example gives no effect. Otherwise the effects are exactly one prompt naming the chosen example, then, on a yes, one copy from it to `.env`. It throws iff that prompt fails; a failed copy is swallowed. `.env` exists afterwards iff it did before or an accepted copy succeeded; only `.env` is ever added, and anything but a yes changes nothing |
| Env.SecondRunIsQuiet | src/checkers/env.ts:22-24 | Once `.env` exists, running the check again asks nothing and changes nothing |
| Port.MatchAtShape | src/checkers/port.ts:129-138 | A match at a position is the keyword (any case), a non-empty run of separators and a maximal run of digits, and its number is the value of those digits; there is a match iff such a capture exists |
| Port.NumberAfterSkipsSeparators | src/checkers/port.ts:129-132 | After the keyword the whole run of separators is skipped, at least one being needed, and the digits right after it are read |
| Port.SeparatorEnd | src/checkers/port.ts:129-132 | The end of the separator run: every character before it is a separator, and the one at it is not |
| Port.DigitIsNoSeparator | src/checkers/port.ts:129-132 | Neither `\s` nor `=` nor `:` holds a digit |
| Port.ReadDigits | src/checkers/port.ts:137-138 | A number is read iff a digit stands at the position |
| Port.LeftmostIsLeftmost | src/checkers/port.ts:136 | `match` finds a match with no match starting before it, and finds none only when there is none |
| Port.MatchPatternIsLeftmostMatch | src/checkers/port.ts:136 | `script.match` gives the match at the leftmost position that has one, and null iff no position has one |
| Port.ExtractPortFromScript | src/checkers/port.ts:126-143 | The port is the number of the first pattern, in list order, that matches anywhere; null iff no pattern matches |
| Port.FirstMatchingPatternDecides | src/checkers/port.ts:135-140 | A pattern that matches, with no pattern before it matching, decides the port |
| Port.MatchWrittenOut | src/checkers/port.ts:129-138 | A keyword, one separator and a run of digits not followed by another digit are a match worth those digits |
| Port.DashPatternsNeedDash | src/checkers/port.ts:129-130 | `--port` and `-p` never match a script without a dash |
| Port.PortOptionAfterCommand | src/checkers/port.ts:127-129 | `node server.js --port 4000` gives 4000 |
| Port.AssignmentMatches | src/checkers/port.ts:131 | `PORT=5000 node server.js` matches the `PORT` pattern with 5000 |
| Port.PortAssignmentBeforeCommand | src/checkers/port.ts:127-139 | `PORT=5000 node server.js` gives 5000 |
| Port.LongOptionIsTriedFirst | src/checkers/port.ts:128-139 | `-p 4000 --port 3000` gives 3000, because `--port` is tried before `-p` |
| Port.RenderedPortIsExtracted | src/checkers/port.ts:127-129 | A script containing just `--port <n>` yields `n` |
| Port.ExtractIsCaseInsensitive | src/checkers/port.ts:129-132 | Scripts that differ only in letter case yield the same port |
| Port.CheckPortAvailability | src/checkers/port.ts:10-65 | The result is the desired port or the probe's alternative. It differs from the desired port iff the port is taken and the user picks the alternative, or picks the kill and the re-probe still finds the port taken. The effects are, in order: the probe; when the port is taken, the prompt offering the probe's alternative; when the kill is picked, the kill attempt and then the re-probe. There is never a spawn |
| Port.FreePortIsQuiet | src/checkers/port.ts:14-19 | A free desired port is returned after one probe, with no prompt |
| Port.NetstatPid | src/checkers/port.ts:78-79 | The output is split into lines, and any pid found is a non-empty run of digits |
| Port.NetstatPidIsFirstOffer | src/checkers/port.ts:78-95 | The pid found is that of the first line of the listing that offers one, the last line included; there is none iff no line offers one |
| Port.SingleLineListing | src/checkers/port.ts:78-91 | A listing of one line, without a newline, yields that line's pid |
| Port.PidOfLines | src/checkers/port.ts:82-94 | Any pid the loop over the lines finds is a non-empty run of digits |
| Port.PidOfLinesIsFirstOffer | src/checkers/port.ts:82-94 | The loop finds the pid of the first offering line, whichever line that is, the last included; it finds none iff no line offers one |
| Port.LinePid | src/checkers/port.ts:83-87 | A line offers a pid iff it matches `:<port>\s` and its last token is numeric; the pid is that token |
| Port.WindowsKill | src/checkers/port.ts:74-98 | There is one `taskkill /F /PID <pid>` iff `netstat -ano` succeeded and some line offers a pid, and its pid is the one the first offering line gives |
| Port.TaskKill | src/checkers/port.ts:89 | The kill command is `taskkill /F /PID <pid>` |
| Port.MentionedLineHasToken | src/checkers/port.ts:83-85 | A line that mentions the port has a non-empty last token |
| Port.NonNumericLineIsSkipped | src/checkers/port.ts:82-93 | A line whose last token is not numeric is skipped, and the search goes on with the following lines |
| Port.SkippedLine | src/checkers/port.ts:82-93 | A line that offers no pid leaves the result to the lines after it |
| Port.FirstOfferingLineWins | src/checkers/port.ts:82-91 | The first line that offers a pid decides; later lines are never looked at |
| Pipeline.DependencyStep | src/pipeline/index.ts:31-34 | The dependency check runs only when a manifest is given. Step 1 throws iff `node_modules` cannot be listed, or an install is needed and its prompt fails or the accepted install fails |
| Pipeline.EnvCheck | src/pipeline/index.ts:36-37 | Step 2 throws only when its prompt fails |
| Pipeline.DetectedPort | src/pipeline/index.ts:41-43 | A port is checked iff the script is non-empty and names a non-zero port |
| Pipeline.RunPipeline | src/pipeline/index.ts:25-63 | Continue iff neither the dependency step nor the env step threw. A throw ends the run: no later step's effect and no port. Otherwise the effects are the dependency, env and port steps in order, and a modified port is reported iff the check returns a port other than the detected one; that port is the probe's alternative |
| Pipeline.RunMinimalPipeline | src/pipeline/index.ts:68-83 | The same continue rule; the dependency effects, then the env effects unless the dependency step threw; never a port probe, prompt or kill, and never a modified port |
| Pipeline.ZeroPortIsNotChecked | src/pipeline/index.ts:42-43 | A script naming port 0 skips the availability check, 0 being falsy |
| Cli.Mode | src/index.ts:38 | `--prod` selects prod mode, otherwise dev mode; never build mode |
| Cli.SelectTarget | src/index.ts:31-62 | The argument, when given, is the target. Otherwise the single match is the target. Several matches are decided by the prompt: an error fails the selection, a dismissal or an empty pick cancels it, and any other pick selects that script. No match falls back to the framework command, and nothing is found iff that is absent too |
| Cli.SelectionPrompt | src/index.ts:44-51 | The selection prompt appears iff there is no argument and several matches, and it offers exactly those matches |
| Cli.BuildInvocation | src/index.ts:22-27 | A build child is spawned iff `--build` is given and a build target exists |
| Cli.SelectionOutcome | src/index.ts:53-75 | The launcher returns iff a target was selected and its child succeeds. It exits with 0 iff the prompt was cancelled, and with 1 in every other case |
| Cli.Action | src/index.ts:16-76 | A failed build exits with 1 right after the build spawn. Otherwise the outcome follows the selection, and the effects are the build spawn, the selection prompt and the main spawn in that order, with at most one prompt and two spawns |
| Cli.Launch | src/index.ts:30-70 | The outcome is that of the selection. The effects are the selection prompt, then the spawn of the selected target, if any: at most one prompt and one spawn |

## Left out

- Console output and colours are left out. So is the text of prompts and log
  lines. Prompts are recorded by what they offer.
- `async`/`await` is treated as sequential execution. No two steps ever run
  concurrently.
- Process spawning, `detect-port`, `netstat`, `readdirSync`, `copyFileSync`
  and `JSON.parse` are not modelled. Their results are inputs, failures
  included. A `node_modules` that `readdirSync` cannot list is
  `NodeModules.Unlistable`, and a confirm prompt that throws answers
  `Confirmation.ConfirmFailed`.
- `readPackageJson` (src/utils/parser.ts) is not part of this model. The
  manifest arrives as the scripts mapping and as `hasManifest`.
- `detectMatchingScripts` and `detectFrameworkCommand` are not part of this
  model. src/core/detector.ts does not define them. They are the inputs
  `matching` and `framework` of `Cli.Action`.
- `Cli.Action` takes the build target as an input. src/index.ts reads
  `.value` and `.type` from the result of `detectScript('build', …)`, but the
  detector in this repository returns a bare script name. The two do not
  fit together, so the model leaves that join open.
- `Cli.SelectTarget` and `Cli.Action` require a picked answer to index one of
  the offered matches. The select prompt can only return one of its choices.
- The Unix branch of `killPortProcess` (`lsof` then `kill -9`) is left out.
  Only the Windows `netstat`/`taskkill` branch is modelled, by
  `Port.WindowsKill`. In the port check, a kill attempt appears as one
  `FreePort` effect, whatever the platform.
- `Port.IsPid` narrows `!isNaN(Number(pid))` to a non-empty run of decimal
  digits. Tokens such as `0x1F`, `1e3` or `Infinity`, which `Number` also
  accepts, are treated as non-numeric.
- `Port.ExtractPortFromScript` returns the exact value of the digits.
  `parseInt` in the source loses precision above 2^53, that is from some
  16-digit values on.
- `Port.CaselessAt` folds ASCII letters only. It does not model the
  canonicalisation the `i` flag applies to non-ASCII characters. That makes
  no difference, because every keyword letter is ASCII.
- The monorepo detection, the configuration lookup and both pipelines
  (`runPipeline` and `runMinimalPipeline`) are modelled on their own,
  because src/index.ts calls none of them.
- The argument parsing of `cac` is left out. The script argument and the
  flags are inputs of `Cli.Action`.
