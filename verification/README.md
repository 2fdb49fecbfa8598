# nyush command-line validation, modelled in Dafny

This project models the validation front end of `nyush`, a small Unix shell
written in C (`nyush.c`). It covers everything the shell does with a line
before it starts processes:

- trimming the line;
- the pipe checks: a blank line is a no-op, a pipe at either end is refused,
  and the pipe count must match the number of stages;
- splitting the line into stages;
- classifying tokens against the name class of `NAME_REGEX`;
- building each stage (`buildCommand`), in the source's order of checks;
- dispatching the built-ins `cd`, `exit`, `jobs` and `fg` against the shell's
  persistent state.

The model is functional. The build loop takes the per-stage builder as a
parameter, and `RunLine` passes it `buildCommand` with `fileExists` fixed. Strings are `seq<char>`, and a C string is the
sequence of characters before its terminating NUL. The builder's result is a
datatype with one constructor per way `buildCommand` can end: "Invalid
command", "invalid file", a silent abort on an empty stage, a built-in
directive, or a `command_t`. A line ends in one of `LineOutcome`'s cases:
blank, rejected pipes, the first stage that failed, a dispatched built-in, or
the pipeline handed to `execute`.

The environment enters as parameters:

- `isRegular: string -> bool` stands for `fileExists` (the result of `stat`).
- `chdir: (string, string) -> DirChange` takes the process's working
  directory and the argument of `cd`. It says whether `chdir` succeeds, which
  directory the process then stands in, and whether `getcwd` reports it. The
  session keeps both that directory and the shell's cached copy `cwd`.
- `beyond: nat -> char` is the memory after the trimmed line.
  `numCharOccurences` can read past the line's end. In the shell `beyond(0)`
  is the terminating NUL. `RunLine` accepts any `beyond`. The lemmas that rely
  on the NUL require `beyond(0) == '\0'`: `DoublePipeUndercounted` and
  `SinglePipeCountPasses`. `CountExactUpToOne` needs only `beyond(0)` to
  differ from the counted character.

Modules, leaf first:

- `Wrappers`: `Option`.
- `Text`: `trim`, splitting with empty fields dropped (`strtok_r`), character
  counts.
- `Tokens`: `getTokenType`, `isBuiltInCommand` and the name class.
- `Builder`: `buildCommand`.
- `Builtins`: `executeBuiltInCommand` and `changeDirectory`.
- `CommandLine`: `numCharOccurences` and `executeCommandLine` up to `execute`.

## Behaviour kept as written

- Tokens are split on the space character only (nyush.c:341). A tab stays
  inside its token, which then fails the name class and makes the stage
  "Invalid command".
- The keywords `cd`, `fg`, `exit` and `jobs` are recognised at the first
  token of every stage, not only the first stage. So `ls | cd x` is "Invalid
  command" rather than a program named `cd`.
- The input file's existence (nyush.c:413) is checked before the output
  target and the trailing-token count. So `cat < missing extra` reports
  "invalid file".
- A stage of spaces only, such as the middle of `a | | b`, ends the line
  without a message (nyush.c:370-371).
- The stage-count check uses `numCharOccurences` as written, with its
  drifting probe. See Findings.
- The name class is the bracket expression of nyush.c:32 read as a POSIX
  extended regular expression in the C locale, where a backslash inside
  brackets is an ordinary member. The members are the letters, the digits and
  `_ \ # $ % & + , . / : ; = ? @ ~ -`.

## Model

| member | source | states |
|---|---|---|
| Text.Trim | nyush.c:171-185 | the result is a contiguous slice of the input; everything dropped before and after it is whitespace; it neither starts nor ends with whitespace; it is empty exactly when the input is all whitespace |
| Text.TrimIsStrip | nyush.c:171-185 | any slice whose outside is whitespace and whose ends are not is what trim returns, so trim is the plain strip |
| Text.TrimIdempotent | nyush.c:171-185 | trimming a trimmed line changes nothing |
| Text.Split | nyush.c:238-242 | the fields strtok_r returns are non-empty and hold no delimiter |
| Text.SplitKeepsContent | nyush.c:238-242 | the fields, concatenated, are the line with its delimiters removed: nothing else is lost or reordered |
| Text.JoinSplitSqueeze | nyush.c:238-242 | the fields, joined with one delimiter each, are the line with every run of delimiters shrunk to one and the runs at either end removed, the squeeze being defined character by character; so each field is a whole maximal run of non-delimiters |
| Text.SplitEmpty | nyush.c:341-371 | there is no field exactly when the string is only delimiters |
| Text.SplitJoin | nyush.c:237-246 | on a line whose pipes each sit between non-pipes, joining the fields with a pipe gives back the line, and there is one more field than pipes |
| Tokens.Classify | nyush.c:508-532 | `<`, `>`, `>>` are operators wherever they stand; the four keywords are built-ins exactly when they are the stage's first token; any other token is ARG exactly when it is non-empty and all its characters are in the name class, else UNKNOWN; PROGRAM is never returned |
| Tokens.MetacharactersExcluded | nyush.c:29-32 | space, tab, the pipe, `>`, `<`, `*`, `!`, the backquote, both quote marks and `^` are outside the name class |
| Tokens.ForeignCharacterUnknown | nyush.c:527-531 | a non-operator token with any character outside the name class is UNKNOWN, whatever its position |
| Builder.Scan | nyush.c:341-368 | the token loop succeeds exactly when there is no UNKNOWN token, at most one `<` and at most one output operator, and then it has recorded where they stand |
| Builder.ScanOfWords | nyush.c:341-368 | the same, in terms of the tokens' text: every token is a name or an operator, one `<` and one `>`/`>>` at most |
| Builder.UnknownTokenRejected | nyush.c:360-363 | a token that is neither a name nor an operator makes the stage "Invalid command" |
| Builder.RepeatedRedirectRejected | nyush.c:346-359 | a second `<`, or a second `>`/`>>` in any mix, makes the stage "Invalid command" |
| Builder.Build | nyush.c:327-478 | a silent abort happens exactly when the stage is only spaces; a built-in comes only from a stage allowed one; an input or output file only from a stage allowed that redirection |
| Builder.FirstTokenNotName | nyush.c:398-453 | a stage whose first token is not a name (an operator, say) is "Invalid command" |
| Builder.BuiltinPlacement | nyush.c:373-397 | a stage opening with a keyword is dispatched or "Invalid command"; it is dispatched exactly when built-ins are allowed, there are 2 tokens for cd/fg or 1 for exit/jobs, and the argument is a name, so no redirection is present; the directive carries that argument |
| Builder.ExternalCommandSpec | nyush.c:398-477 | Build yields a command exactly when the tokens are argv followed by the redirections, both orders allowed; argv is a non-empty run of names not opening with a keyword; each operator is allowed at this position and is followed by a name; the input file is a regular file; the program is `/usr/bin/` + name and a regular file, or the name verbatim when it holds `/`; `append` is set exactly for `>>` |
| Builder.BuiltCommandAccepted | nyush.c:398-477 | the soundness half: every command Build returns has that layout, argc = tokens − 2 × redirections, argv is the prefix and the paths are the tokens after their operators |
| Builder.LayoutBuilds | nyush.c:398-449 | on such a layout only program resolution can still fail, and it then yields "invalid file" |
| Builder.ResolveProgram | nyush.c:440-449 | a name without `/` resolves to `/usr/bin/` + name if that is a regular file and otherwise fails; a name with `/` is used verbatim without a check |
| Builder.ProgramMissingReported | nyush.c:440-446 | a correct layout whose program is not a regular file under `/usr/bin/` is "invalid file" |
| Builder.MisplacedRedirectRejected | nyush.c:374-382 | a redirection in a stage that may not hold it is "Invalid command", never "invalid file", built-in or not |
| Builder.InputMissingReported | nyush.c:400-416 | with well-formed, correctly placed tokens, a `<` whose target is not a regular file is "invalid file", whatever the output target or token count |
| Builder.ChecksPassLayout | nyush.c:398-439 | once the redirection and token-count checks pass, the command assembled from the tokens has an accepted layout: argv is a non-empty run of names followed by the redirections, each with a name as target |
| Builder.InvalidFileCauses | nyush.c:407-446 | "invalid file" follows only well-formed, correctly placed tokens opened by a program name; its cause is a `<` whose target is a name but not a regular file, or an otherwise accepted layout whose program, without `/`, is not a regular file under `/usr/bin/` |
| Builtins.ChangeDirectory | nyush.c:113-130 | the target is resolved from the process's directory; a refused chdir reports "Error: Invalid directory" and changes nothing; an accepted one moves the process and, when getcwd reports, caches the new directory with no message; when getcwd fails, the cache is emptied and the getcwd message is written; the job count and exit status never change |
| Builtins.Dispatch | nyush.c:480-499 | only cd changes the working directory, only exit changes the exit status (to 0), no built-in changes the suspended-job count, jobs and fg change nothing and print nothing, and the cache stays coherent with the process's directory |
| Builtins.ExitSpec | nyush.c:487-493 | exit ends the shell with status 0 exactly when no job is suspended; otherwise it writes "Error: there are suspended jobs" and changes nothing |
| Builtins.RunKeepsCache | nyush.c:113-130 | over any sequence of built-ins the cached directory is the process's, or empty after getcwd failed |
| Builtins.ExitAfterBuiltins | nyush.c:55 | the job count starts at 0 and no sequence of built-ins changes it, so exit always succeeds |
| CommandLine.DriftCount | nyush.c:208-216 | the drifting loop counts at least the matches so far and at most one per remaining step |
| CommandLine.CountExactUpToOne | nyush.c:208-216 | on a line with at most one pipe, the count is exact |
| CommandLine.DoublePipeUndercounted | nyush.c:208-246 | a line of `a`, two pipes and `b` is counted as one pipe, yet strtok_r yields two stages, so the stage-count check passes |
| CommandLine.IntendedStageCheck | nyush.c:237-246 | with every pipe counted, the check passes a line with no pipe at either end exactly when no two pipes are adjacent |
| CommandLine.SinglePipeCountPasses | nyush.c:232-246 | a line with at most one pipe and no pipe at either end passes all the pipe checks |
| CommandLine.BuildStages | nyush.c:249-259 | a launched pipeline has one command per stage and keeps the commands already built; a rejection names a stage at or after the current one |
| CommandLine.BuildStagesSpec | nyush.c:247-259 | for any per-stage builder that yields built-ins only where they are allowed, as buildCommand does: the loop launches exactly when every stage builds; a rejection names the first stage that failed, with its "Invalid command", "invalid file" or silent outcome; a built-in is dispatched only in a one-stage pipeline |
| CommandLine.BlankLine | nyush.c:221-225 | a line does nothing exactly when it is all whitespace |
| CommandLine.BoundaryPipeRejected | nyush.c:232-236 | a trimmed line starting or ending with a pipe is rejected with "Error: Invalid command" before any stage is built |
| CommandLine.LaunchSpec | nyush.c:237-261 | a line reaches execute exactly when it passes the pipe checks and every stage builds, with the stages' commands in order |
| CommandLine.PipelineShape | nyush.c:247-254 | a pipeline reaching execute is non-empty, only its first command has an input file and only its last has an output file |
| CommandLine.BuiltinOnlyAlone | nyush.c:247-257 | a built-in runs only when the line has one stage, with that stage's directive; a line changes the session only through cd or exit, and never changes the suspended-job count |
| CommandLine.FirstFailureStops | nyush.c:249-257 | the first stage that fails ends the line: earlier stages all built and nothing reaches execute |

## Findings

| source | as written | input that shows it | evidently intended | confidence | as-written member | corrected member |
|---|---|---|---|---|---|---|
| nyush.c:208-216 | the probe `str[i]` reads i characters ahead of the scan after i matches, so it skips a pipe that follows a matched one and can read past the terminating NUL | `a`, two pipes, `b` (the line a-pipe-pipe-b): one pipe is counted and strtok_r yields two stages, so the check at nyush.c:243 passes and the line runs as if it had one pipe | every pipe counted, so a line with two adjacent pipes is "Invalid command" | high; not executed | CommandLine.DoublePipeUndercounted | CommandLine.IntendedStageCheck |

`RunLine` keeps the counter as written, because it models what the shell
does. `StageCountIntended` is the corrected check. `IntendedStageCheck`
proves that the corrected check refuses exactly the lines with adjacent pipes.

## Left out

- `execute` (nyush.c:272-325): forking, `dup2`, `execvp`, `waitpid` and its
  debug output are process plumbing. The model ends with the pipeline handed to
  it (`LineOutcome.Launch`).
- `readLine` and the `main` loop: reading standard input, truncation at
  100 characters, and compiling the regular expression.
- The signal handlers (nyush.c:133-143) only change process dispositions.
- `printPrompt` (nyush.c:149-168) only displays the prompt.
- `getcwd`, `chdir` and `stat` are replaced by the `chdir` and `isRegular`
  parameters. `fileExists` ignores a failing `stat`, so it is a bare predicate
  here.
- Fixed-size buffers: the 500-entry token and stage arrays, the 1024-byte
  path buffers and the aliasing of argv into the line buffer. Tokens are owned
  sequences with no capacity limit.
- Job control: `jobs` and `fg` are inert and nothing changes
  `suspended_jobs_cnt`, so there is no job table.
- CommandLine.NumCharOccurences: its agreement with the true pipe count is
  stated only for lines with at most one pipe. Beyond that the result depends
  on the memory after the line, and DoublePipeUndercounted shows it is wrong.
