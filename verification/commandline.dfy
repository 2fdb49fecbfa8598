/**
 * The line-level validation of nyush.c (executeCommandLine up to the call of
 * execute, nyush.c:220-258) and its pipe counter numCharOccurences
 * (nyush.c:208-216), kept with the counter's drifting probe.
 */
module CommandLine {
  import opened Wrappers
  import opened Text
  import opened Tokens
  import opened Builder
  import opened Builtins

  /**
   * The memory numCharOccurences reads at offset j from the start of the
   * trimmed line: the line itself, then whatever follows it. In the shell
   * `beyond(0)` is the terminating NUL, and the lemmas that depend on it
   * require `beyond(0) == '\0'`; `beyond(j)` for j > 0 is whatever the line
   * buffer (or memory after it) holds there.
   */
  function MemAt(s: string, beyond: nat -> char, j: nat): char {
    if j < |s| then s[j] else beyond(j - |s|)
  }

  /**
   * The loop of numCharOccurences from step k with i matches so far: step k
   * reads offset k + i, not k, so after the first match the probe runs ahead
   * of the scan.
   */
  function DriftCount(s: string, c: char, beyond: nat -> char, k: nat, i: nat): (r: nat)
    requires k <= |s|
    ensures i <= r <= i + (|s| - k)
    decreases |s| - k
  {
    if k == |s| then i
    else DriftCount(s, c, beyond, k + 1, if MemAt(s, beyond, k + i) == c then i + 1 else i)
  }

  /** numCharOccurences(s, c) as written (nyush.c:208-216). */
  function NumCharOccurences(s: string, c: char, beyond: nat -> char): (r: nat)
    ensures r <= |s|
  {
    DriftCount(s, c, beyond, 0, 0)
  }

  /** The character the probe reads at step j after i matches. */
  function Probe(s: string, beyond: nat -> char, i: nat, j: nat): char {
    MemAt(s, beyond, j + i)
  }

  /** While the probe meets no `c` from step k up to step p, the count stays at i. */
  lemma {:induction false} DriftSkips(s: string, c: char, beyond: nat -> char, k: nat, p: nat, i: nat)
    requires k <= p <= |s|
    requires forall j :: k <= j < p ==> Probe(s, beyond, i, j) != c
    ensures DriftCount(s, c, beyond, k, i) == DriftCount(s, c, beyond, p, i)
    decreases p - k
  {
    if k < p {
      assert Probe(s, beyond, i, k) != c;
      DriftSkips(s, c, beyond, k + 1, p, i);
    }
  }

  /**
   * On a line with at most one `c`, followed by a terminator that is not
   * `c`, numCharOccurences counts correctly.
   */
  lemma CountExactUpToOne(s: string, c: char, beyond: nat -> char)
    requires Count(s, c) <= 1 && beyond(0) != c
    ensures NumCharOccurences(s, c, beyond) == Count(s, c)
  {
    if c !in s {
      DriftSkips(s, c, beyond, 0, |s|, 0);
      CountAbsent(s, c);
    } else {
      var p :| 0 <= p < |s| && s[p] == c;
      OnlyOccurrence(s, c, p);
      DriftSkips(s, c, beyond, 0, p, 0);
      assert DriftCount(s, c, beyond, p, 0) == DriftCount(s, c, beyond, p + 1, 1);
      ProbeRunsPastEnd(s, c, beyond, p);
      DriftSkips(s, c, beyond, p + 1, |s|, 1);
    }
  }

  /** The one occurrence of `c` at p: none before it or after it, and the count is one. */
  lemma OnlyOccurrence(s: string, c: char, p: nat)
    requires Count(s, c) <= 1 && p < |s| && s[p] == c
    ensures c !in s[..p] && c !in s[p + 1..] && Count(s, c) == 1
  {
    SliceAround(s, p);
    CountAppend(s[..p], [c] + s[p + 1..], c);
    assert s[..p] + ([c] + s[p + 1..]) == s;
    CountPositive([c] + s[p + 1..], c);
    if c in s[..p] {
      CountPositive(s[..p], c);
    }
    CountAroundSeparator(s[..p], s[p + 1..], c);
    if c in s[p + 1..] {
      CountPositive(s[p + 1..], c);
    }
  }

  /** After the match at p the probe reads one ahead: the rest of the line, then the terminator. */
  lemma ProbeRunsPastEnd(s: string, c: char, beyond: nat -> char, p: nat)
    requires p < |s| && c !in s[p + 1..] && beyond(0) != c
    ensures forall j :: p + 1 <= j < |s| ==> Probe(s, beyond, 1, j) != c
  {
    forall j | p + 1 <= j < |s|
      ensures Probe(s, beyond, 1, j) != c
    {
      if j + 1 < |s| {
        assert s[j + 1] == s[p + 1..][j - p];
      }
    }
  }

  lemma {:induction false} CountPositive(s: string, c: char)
    requires c in s
    ensures Count(s, c) > 0
    decreases |s|
  {
    if s[0] != c {
      assert c in s[1..];
      CountPositive(s[1..], c);
    }
  }

  /**
   * On "a||b" the probe skips the second `|`: numCharOccurences reports one
   * pipe where there are two, and strtok_r yields two stages, so the
   * stage-count check of nyush.c:243 passes.
   */
  lemma DoublePipeUndercounted(beyond: nat -> char)
    requires beyond(0) == '\0'
    ensures NumCharOccurences("a||b", '|', beyond) == 1
    ensures Count("a||b", '|') == 2
    ensures NumCharOccurences("a||b", '|', beyond) + 1 == |Split("a||b", '|')|
  {
    var s := "a||b";
    assert s[1..] == "||b" && s[1..][1..] == "|b" && s[1..][1..][1..] == "b" && s[3..] == "b";
    assert "b"[1..] == "" && "||b"[0] == '|';
    assert FieldLen("||b", '|') == 0;
    assert FieldLen(s, '|') == 1;
    assert FieldLen("b", '|') == 1;
    assert "b"[..1] == "b" && "b"[1..] == "" && s[..1] == "a";
    assert Split("b", '|') == ["b"];
    assert Split("|b", '|') == ["b"];
    assert Split("||b", '|') == ["b"];
    assert Split(s, '|') == ["a", "b"];
  }

  /**
   * The stage-count check as evidently intended: every pipe counted, so it
   * holds exactly when stages and pipes agree.
   */
  predicate StageCountIntended(line: string) {
    Count(line, '|') + 1 == |Split(line, '|')|
  }

  /**
   * The intended check passes a line without a pipe at either end exactly
   * when no two pipes are adjacent; in particular it rejects "a||b".
   */
  lemma IntendedStageCheck(line: string)
    requires |line| > 0 && line[0] != '|' && line[|line| - 1] != '|'
    ensures StageCountIntended(line) <==> WellSeparated(line, '|')
  {
    FieldCountMatchesIffWellSeparated(line, '|');
  }

  /** Where each stage sits decides what it may contain (nyush.c:247, 252-253). */
  function PermFor(i: nat, n: nat): Perm {
    Perm(i == 0, i + 1 == n, n == 1)
  }

  /** How the handling of one line ends. */
  datatype LineOutcome =
    | Blank                                        // nothing but whitespace: nothing happens
    | BadPipes                                     // "Invalid command" before any stage is built
    | StageRejected(stage: nat, failure: BuildOutcome)  // the first stage that did not build
    | RanBuiltin(directive: Directive, effect: Effect)  // a lone built-in, dispatched
    | Launch(pipeline: seq<Command>)               // the commands handed to execute

  /** buildCommand with fileExists fixed: the builder each stage of a line goes through. */
  function StageBuilder(isRegular: string -> bool): (string, Perm) -> BuildOutcome {
    (stage, perm) => Build(stage, perm, isRegular)
  }

  /**
   * The build loop of nyush.c:249-259 from stage i on, with the commands built
   * so far; `build` is the per-stage builder.
   */
  function BuildStages(stages: seq<string>, i: nat, built: seq<Command>, s: Session,
                       build: (string, Perm) -> BuildOutcome, chdir: (string, string) -> DirChange): (o: LineOutcome)
    requires i <= |stages| && |built| == i
    ensures o.Launch? ==> |o.pipeline| == |stages| && o.pipeline[..i] == built
    ensures o.StageRejected? ==> i <= o.stage < |stages|
    decreases |stages| - i
  {
    if i == |stages| then Launch(built)
    else match build(stages[i], PermFor(i, |stages|))
      case Cmd(c) =>
        assert (built + [c])[..i] == built;
        BuildStages(stages, i + 1, built + [c], s, build, chdir)
      case RunBuiltin(d) => RanBuiltin(d, Dispatch(s, d, chdir))
      case failure => StageRejected(i, failure)
  }

  /**
   * executeCommandLine (nyush.c:220-258) on one raw line: trim, the blank
   * line, the boundary-pipe check, the stage-count check with the drifting
   * counter, then building each stage in order. `beyond` is the memory after
   * the trimmed line, `isRegular` stands for fileExists and `chdir` for the
   * operating system's answer to a directory change.
   */
  function RunLine(s: Session, raw: string, beyond: nat -> char,
                   isRegular: string -> bool, chdir: (string, string) -> DirChange): LineOutcome
  {
    var line := Trim(raw);
    if |line| == 0 then Blank
    else if line[0] == '|' || line[|line| - 1] == '|' then BadPipes
    else
      var stages := Split(line, '|');
      if NumCharOccurences(line, '|', beyond) + 1 != |stages| then BadPipes
      else BuildStages(stages, 0, [], s, StageBuilder(isRegular), chdir)
  }

  /** The line written to standard error for an outcome, if any. */
  function Diagnostic(o: LineOutcome): Option<Diag> {
    match o
    case Blank => None
    case BadPipes => Some(InvalidCommandMsg)
    case StageRejected(_, InvalidFile) => Some(InvalidFileMsg)
    case StageRejected(_, SilentAbort) => None
    case StageRejected(_, _) => Some(InvalidCommandMsg)
    case RanBuiltin(_, e) => e.diag
    case Launch(_) => None
  }

  /** The session after a line: only a dispatched built-in changes it. */
  function SessionAfter(s: Session, o: LineOutcome): Session {
    if o.RanBuiltin? then o.effect.session else s
  }

  // ---------------------------------------------------------------------------
  // Properties of a line

  /** The stages a trimmed line splits into on `|`. */
  function Stages(raw: string): seq<string> {
    Split(Trim(raw), '|')
  }

  /** The line-level checks of nyush.c:221-246 all pass. */
  predicate PipesOk(raw: string, beyond: nat -> char) {
    var line := Trim(raw);
    && |line| > 0
    && line[0] != '|' && line[|line| - 1] != '|'
    && NumCharOccurences(line, '|', beyond) + 1 == |Split(line, '|')|
  }

  /** Every stage from 0 to i - 1 built to the command recorded for it. */
  predicate BuiltUpTo(stages: seq<string>, i: nat, built: seq<Command>, build: (string, Perm) -> BuildOutcome)
    requires i <= |stages| && |built| == i
  {
    forall j :: 0 <= j < i ==> build(stages[j], PermFor(j, |stages|)) == Cmd(built[j])
  }

  lemma BuiltUpToExtend(stages: seq<string>, i: nat, built: seq<Command>, c: Command,
                         build: (string, Perm) -> BuildOutcome)
    requires i < |stages| && |built| == i && BuiltUpTo(stages, i, built, build)
    requires build(stages[i], PermFor(i, |stages|)) == Cmd(c)
    ensures BuiltUpTo(stages, i + 1, built + [c], build)
  {
    var next := built + [c];
    forall j | 0 <= j < i + 1
      ensures build(stages[j], PermFor(j, |stages|)) == Cmd(next[j])
    {
      if j < i {
        assert next[j] == built[j];
      }
    }
  }

  /** A builder that yields a built-in only where built-ins are allowed, as buildCommand does. */
  ghost predicate BuiltinsWherePermitted(build: (string, Perm) -> BuildOutcome) {
    forall stage, perm :: build(stage, perm).RunBuiltin? ==> perm.builtin
  }

  lemma StageBuilderPermits(isRegular: string -> bool)
    ensures BuiltinsWherePermitted(StageBuilder(isRegular))
  {
    forall stage, perm | StageBuilder(isRegular)(stage, perm).RunBuiltin?
      ensures perm.builtin
    {
      assert StageBuilder(isRegular)(stage, perm) == Build(stage, perm, isRegular);
    }
  }

  /**
   * The build loop stops at the first stage that does not build: it launches
   * exactly when every stage builds, it dispatches a built-in only when the
   * pipeline has one stage, and a rejection names the first failing stage.
   */
  lemma {:induction false} BuildStagesSpec(stages: seq<string>, i: nat, built: seq<Command>, s: Session,
                                           build: (string, Perm) -> BuildOutcome, chdir: (string, string) -> DirChange)
    requires i <= |stages| && |built| == i
    requires BuiltUpTo(stages, i, built, build) && BuiltinsWherePermitted(build)
    ensures var o := BuildStages(stages, i, built, s, build, chdir);
      && (o.Launch? || o.StageRejected? || o.RanBuiltin?)
      && (o.Launch? <==> forall j :: i <= j < |stages| ==> build(stages[j], PermFor(j, |stages|)).Cmd?)
      && (o.Launch? ==> BuiltUpTo(stages, |stages|, o.pipeline, build))
      && (o.StageRejected? ==>
            && (forall j :: i <= j < o.stage ==> build(stages[j], PermFor(j, |stages|)).Cmd?)
            && build(stages[o.stage], PermFor(o.stage, |stages|)) == o.failure
            && (o.failure == InvalidCommand || o.failure == InvalidFile || o.failure == SilentAbort))
      && (o.RanBuiltin? ==>
            && |stages| == 1 && i == 0
            && build(stages[0], PermFor(0, 1)) == RunBuiltin(o.directive)
            && o.effect == Dispatch(s, o.directive, chdir))
    decreases |stages| - i
  {
    if i < |stages| {
      match build(stages[i], PermFor(i, |stages|)) {
        case Cmd(c) =>
          BuiltUpToExtend(stages, i, built, c, build);
          BuildStagesSpec(stages, i + 1, built + [c], s, build, chdir);
        case _ =>
      }
    }
  }

  /** A line of whitespace only does nothing, and only such a line is blank. */
  lemma BlankLine(s: Session, raw: string, beyond: nat -> char, isRegular: string -> bool, chdir: (string, string) -> DirChange)
    ensures RunLine(s, raw, beyond, isRegular, chdir) == Blank <==> AllSpace(raw)
  {
    var line := Trim(raw);
    if |line| > 0 && line[0] != '|' && line[|line| - 1] != '|'
       && NumCharOccurences(line, '|', beyond) + 1 == |Split(line, '|')| {
      StageBuilderPermits(isRegular);
      BuildStagesSpec(Split(line, '|'), 0, [], s, StageBuilder(isRegular), chdir);
    }
  }

  /** A trimmed line that opens or closes with `|` is "Invalid command" before any stage is built. */
  lemma BoundaryPipeRejected(s: Session, raw: string, beyond: nat -> char,
                             isRegular: string -> bool, chdir: (string, string) -> DirChange)
    requires |Trim(raw)| > 0 && (Trim(raw)[0] == '|' || Trim(raw)[|Trim(raw)| - 1] == '|')
    ensures RunLine(s, raw, beyond, isRegular, chdir) == BadPipes
    ensures Diagnostic(RunLine(s, raw, beyond, isRegular, chdir)) == Some(InvalidCommandMsg)
    ensures Message(Diagnostic(RunLine(s, raw, beyond, isRegular, chdir)).value) == "Error: Invalid command"
  {
  }

  /**
   * A line is handed to execute exactly when it passes the pipe checks and
   * every stage builds, and then the pipeline holds the stages' commands in order.
   */
  lemma LaunchSpec(s: Session, raw: string, beyond: nat -> char,
                   isRegular: string -> bool, chdir: (string, string) -> DirChange, cmds: seq<Command>)
    ensures var stages := Stages(raw);
      RunLine(s, raw, beyond, isRegular, chdir) == Launch(cmds) <==>
        && PipesOk(raw, beyond)
        && |cmds| == |stages|
        && forall j :: 0 <= j < |stages| ==> Build(stages[j], PermFor(j, |stages|), isRegular) == Cmd(cmds[j])
  {
    var stages := Stages(raw);
    if PipesOk(raw, beyond) {
      StageBuilderPermits(isRegular);
      BuildStagesSpec(stages, 0, [], s, StageBuilder(isRegular), chdir);
      var o := BuildStages(stages, 0, [], s, StageBuilder(isRegular), chdir);
      if |cmds| == |stages| && forall j :: 0 <= j < |stages| ==> Build(stages[j], PermFor(j, |stages|), isRegular) == Cmd(cmds[j]) {
        assert o.Launch?;
        assert o.pipeline == cmds by {
          forall j | 0 <= j < |stages| ensures o.pipeline[j] == cmds[j] {
            assert Build(stages[j], PermFor(j, |stages|), isRegular) == Cmd(o.pipeline[j]);
          }
        }
      }
    }
  }

  /**
   * Every pipeline handed to execute is non-empty, only its first command may
   * read a file and only its last may write one.
   */
  lemma PipelineShape(s: Session, raw: string, beyond: nat -> char,
                      isRegular: string -> bool, chdir: (string, string) -> DirChange)
    requires RunLine(s, raw, beyond, isRegular, chdir).Launch?
    ensures var cmds := RunLine(s, raw, beyond, isRegular, chdir).pipeline;
      && |cmds| == |Stages(raw)| > 0
      && (forall j :: 0 <= j < |cmds| && cmds[j].infile.Some? ==> j == 0)
      && (forall j :: 0 <= j < |cmds| && cmds[j].outfile.Some? ==> j == |cmds| - 1)
  {
    var stages := Stages(raw);
    StageBuilderPermits(isRegular);
    BuildStagesSpec(stages, 0, [], s, StageBuilder(isRegular), chdir);
    var cmds := RunLine(s, raw, beyond, isRegular, chdir).pipeline;
    forall j | 0 <= j < |cmds|
      ensures cmds[j].infile.Some? ==> j == 0
      ensures cmds[j].outfile.Some? ==> j == |cmds| - 1
    {
      assert Build(stages[j], PermFor(j, |stages|), isRegular) == Cmd(cmds[j]);
    }
  }

  /**
   * A built-in runs only as the sole stage of its line, and its effect is the
   * dispatch of the directive that stage built; only cd and exit change the
   * session, and no line changes the suspended-job count.
   */
  lemma BuiltinOnlyAlone(s: Session, raw: string, beyond: nat -> char,
                         isRegular: string -> bool, chdir: (string, string) -> DirChange)
    ensures var o := RunLine(s, raw, beyond, isRegular, chdir);
      && (o.RanBuiltin? ==>
            && |Stages(raw)| == 1
            && Build(Stages(raw)[0], Perm(true, true, true), isRegular) == RunBuiltin(o.directive)
            && o.effect == Dispatch(s, o.directive, chdir))
      && (!o.RanBuiltin? ==> SessionAfter(s, o) == s)
      && (SessionAfter(s, o) != s ==> o.RanBuiltin? && (o.directive.Cd? || o.directive == Exit))
      && SessionAfter(s, o).suspendedJobs == s.suspendedJobs
  {
    if PipesOk(raw, beyond) {
      StageBuilderPermits(isRegular);
      BuildStagesSpec(Stages(raw), 0, [], s, StageBuilder(isRegular), chdir);
    }
  }

  /**
   * The first stage that fails to build ends the line with its own outcome:
   * every earlier stage built, and nothing is handed to execute.
   */
  lemma FirstFailureStops(s: Session, raw: string, beyond: nat -> char,
                          isRegular: string -> bool, chdir: (string, string) -> DirChange)
    requires RunLine(s, raw, beyond, isRegular, chdir).StageRejected?
    ensures var o := RunLine(s, raw, beyond, isRegular, chdir);
      var stages := Stages(raw);
      && PipesOk(raw, beyond)
      && o.stage < |stages|
      && (forall j :: 0 <= j < o.stage ==> Build(stages[j], PermFor(j, |stages|), isRegular).Cmd?)
      && Build(stages[o.stage], PermFor(o.stage, |stages|), isRegular) == o.failure
      && (o.failure == InvalidCommand || o.failure == InvalidFile || o.failure == SilentAbort)
  {
    StageBuilderPermits(isRegular);
    BuildStagesSpec(Stages(raw), 0, [], s, StageBuilder(isRegular), chdir);
  }

  /**
   * A line with no pipe at either end and at most one pipe inside always
   * passes the stage-count check: there the counter is exact.
   */
  lemma SinglePipeCountPasses(raw: string, beyond: nat -> char)
    requires beyond(0) == '\0'
    requires var line := Trim(raw);
      |line| > 0 && line[0] != '|' && line[|line| - 1] != '|' && Count(line, '|') <= 1
    ensures PipesOk(raw, beyond)
  {
    var line := Trim(raw);
    CountExactUpToOne(line, '|', beyond);
    assert WellSeparated(line, '|') by {
      forall i, j | 0 <= i < |line| && 0 <= j < |line| && j == i + 1 && line[i] == '|'
        ensures line[j] != '|'
      {
        if line[j] == '|' {
          assert line == line[..i] + [line[i], line[j]] + line[j + 1..];
          CountAppend(line[..i] + [line[i], line[j]], line[j + 1..], '|');
          CountAppend(line[..i], [line[i], line[j]], '|');
        }
      }
    }
    SplitJoin(line, '|');
  }
}
