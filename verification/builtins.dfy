/**
 * The built-ins of nyush.c (executeBuiltInCommand, changeDirectory) as a
 * small state machine over the shell's persistent state.
 */
module Builtins {
  import opened Wrappers
  import opened Builder

  /**
   * The state a built-in can touch: the shell's cached copy of the working
   * directory (cwd, shown in the prompt), the process's working directory as
   * the operating system keeps it, the suspended-job counter
   * (suspended_jobs_cnt, never changed by this shell) and the exit status once
   * the shell has exited.
   */
  datatype Session = Session(cwd: string, processDir: string, suspendedJobs: nat, exitStatus: Option<int>)

  /**
   * What the operating system does with chdir(target) while the process
   * stands in some directory: refuse it, or move the process to newDir, after
   * which getcwd either reports newDir (cwdKnown) or fails.
   */
  datatype DirChange = Refused | Entered(newDir: string, cwdKnown: bool)

  /** The cached directory is the process's own, or empty after getcwd failed. */
  predicate CacheCoherent(s: Session) {
    s.cwd == s.processDir || s.cwd == ""
  }

  /** The diagnostics the shell writes to standard error. */
  datatype Diag =
    | InvalidCommandMsg
    | InvalidFileMsg
    | InvalidDirectoryMsg
    | SuspendedJobsMsg
    | GetcwdFailedMsg

  /** The exact line written for each diagnostic. */
  function Message(d: Diag): string {
    match d
    case InvalidCommandMsg => "Error: Invalid command"
    case InvalidFileMsg => "Error: invalid file"
    case InvalidDirectoryMsg => "Error: Invalid directory"
    case SuspendedJobsMsg => "Error: there are suspended jobs"
    case GetcwdFailedMsg => "getcwd(...) failed. unable to determine current dir"
  }

  /** The state after a built-in and the diagnostic it wrote, if any. */
  datatype Effect = Effect(session: Session, diag: Option<Diag>)

  /**
   * changeDirectory (nyush.c:123-130) with setCurrentDirectory
   * (nyush.c:113-120). The target is resolved against the process's current
   * directory. A refused chdir reports "Invalid directory" and leaves the
   * state alone; an accepted one moves the process and caches what getcwd
   * reports, or the empty string with a diagnostic when getcwd fails.
   */
  function ChangeDirectory(s: Session, dir: string, chdir: (string, string) -> DirChange): (e: Effect)
    ensures e.session.suspendedJobs == s.suspendedJobs && e.session.exitStatus == s.exitStatus
    ensures chdir(s.processDir, dir) == Refused <==> e == Effect(s, Some(InvalidDirectoryMsg))
    ensures chdir(s.processDir, dir) == Refused ==> Message(e.diag.value) == "Error: Invalid directory"
    ensures chdir(s.processDir, dir).Entered? ==> e.session.processDir == chdir(s.processDir, dir).newDir
    ensures e.diag.None? <==> chdir(s.processDir, dir).Entered? && chdir(s.processDir, dir).cwdKnown
    ensures e.diag.None? ==> e.session.cwd == e.session.processDir
    ensures chdir(s.processDir, dir).Entered? && !chdir(s.processDir, dir).cwdKnown ==>
              e == Effect(s.(processDir := chdir(s.processDir, dir).newDir, cwd := ""), Some(GetcwdFailedMsg))
  {
    match chdir(s.processDir, dir)
    case Refused => Effect(s, Some(InvalidDirectoryMsg))
    case Entered(path, known) =>
      if known then Effect(s.(processDir := path, cwd := path), None)
      else Effect(s.(processDir := path, cwd := ""), Some(GetcwdFailedMsg))
  }

  /** executeBuiltInCommand (nyush.c:480-499). */
  function Dispatch(s: Session, d: Directive, chdir: (string, string) -> DirChange): (e: Effect)
    ensures e.session.suspendedJobs == s.suspendedJobs
    ensures e.session.cwd != s.cwd || e.session.processDir != s.processDir ==> d.Cd?
    ensures e.session.exitStatus != s.exitStatus ==> d == Exit && e.session.exitStatus == Some(0)
    ensures d.Jobs? || d.Fg? ==> e == Effect(s, None)
    ensures CacheCoherent(s) ==> CacheCoherent(e.session)
  {
    match d
    case Cd(dir) => ChangeDirectory(s, dir, chdir)
    case Fg(_) => Effect(s, None)
    case Jobs => Effect(s, None)
    case Exit =>
      if s.suspendedJobs == 0 then Effect(s.(exitStatus := Some(0)), None)
      else Effect(s, Some(SuspendedJobsMsg))
  }

  /**
   * exit ends the shell with status 0 exactly when no job is suspended;
   * otherwise it reports the suspended jobs and changes nothing.
   */
  lemma ExitSpec(s: Session, chdir: (string, string) -> DirChange)
    ensures var e := Dispatch(s, Exit, chdir);
      && (s.suspendedJobs == 0 <==> e.session.exitStatus == Some(0) && e.diag.None?)
      && (s.suspendedJobs == 0 ==> e.session == s.(exitStatus := Some(0)))
      && (s.suspendedJobs > 0 ==> e == Effect(s, Some(SuspendedJobsMsg)))
      && (s.suspendedJobs > 0 ==> Message(e.diag.value) == "Error: there are suspended jobs")
  {
  }

  /** No built-in ever changes the suspended-job count, so from a fresh shell exit always succeeds. */
  lemma ExitAfterBuiltins(s: Session, ds: seq<Directive>, chdir: (string, string) -> DirChange)
    requires s.suspendedJobs == 0
    ensures Run(s, ds, chdir).suspendedJobs == 0
    ensures Dispatch(Run(s, ds, chdir), Exit, chdir).session.exitStatus == Some(0)
  {
    RunKeepsJobs(s, ds, chdir);
  }

  /** The state after a sequence of built-ins, each dispatched on the state the previous one left. */
  function Run(s: Session, ds: seq<Directive>, chdir: (string, string) -> DirChange): Session
    decreases |ds|
  {
    if |ds| == 0 then s else Run(Dispatch(s, ds[0], chdir).session, ds[1..], chdir)
  }

  lemma {:induction false} RunKeepsJobs(s: Session, ds: seq<Directive>, chdir: (string, string) -> DirChange)
    ensures Run(s, ds, chdir).suspendedJobs == s.suspendedJobs
    decreases |ds|
  {
    if |ds| > 0 {
      RunKeepsJobs(Dispatch(s, ds[0], chdir).session, ds[1..], chdir);
    }
  }

  /** A run of built-ins keeps the cached directory coherent with the process's. */
  lemma {:induction false} RunKeepsCache(s: Session, ds: seq<Directive>, chdir: (string, string) -> DirChange)
    requires CacheCoherent(s)
    ensures CacheCoherent(Run(s, ds, chdir))
    decreases |ds|
  {
    if |ds| > 0 {
      RunKeepsCache(Dispatch(s, ds[0], chdir).session, ds[1..], chdir);
    }
  }
}
