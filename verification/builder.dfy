/**
 * The per-stage command builder of nyush.c (buildCommand, nyush.c:327-478):
 * tokenising one pipeline stage, the token scan, the built-in checks, the
 * redirection layout checks and program resolution.
 */
module Builder {
  import opened Wrappers
  import opened Text
  import opened Tokens

  /** Which constructs a stage may hold, decided by its position in the pipeline. */
  datatype Perm = Perm(inputRedirect: bool, outputRedirect: bool, builtin: bool)

  /** command_t (nyush.c:45-52); argv is NULL-terminated there, argc is |argv| here. */
  datatype Command = Command(
    file: string,
    argv: seq<string>,
    infile: Option<string>,
    outfile: Option<string>,
    append: bool)

  /** A built-in accepted by the builder, with its argument. */
  datatype Directive = Cd(dir: string) | Fg(job: string) | Exit | Jobs

  /** Every way buildCommand can end. */
  datatype BuildOutcome =
    | InvalidCommand             // "Error: Invalid command"
    | InvalidFile                // "Error: invalid file"
    | SilentAbort                // NULL without a message: the stage has no token
    | RunBuiltin(directive: Directive)
    | Cmd(command: Command)

  /** The directory a program name without '/' is looked up in. */
  const BinDir: string := "/usr/bin/"

  /** The tokens of a stage: strtok_r on the space character alone (nyush.c:341). */
  function Words(stage: string): seq<string> {
    Split(stage, ' ')
  }

  /** The kind of every token; only the token at index 0 may be a keyword. */
  function Kinds(words: seq<string>): (ks: seq<TokenKind>)
    ensures |ks| == |words|
    ensures forall k :: 0 <= k < |words| ==> ks[k] == Classify(words[k], k == 0)
  {
    seq(|words|, k requires 0 <= k < |words| => Classify(words[k], k == 0))
  }

  predicate IsOutput(k: TokenKind) {
    k == OutputTruncate || k == OutputAppend
  }

  /** The indices of the input and output operators seen so far (-1 in the source when absent). */
  datatype Marks = Marks(input: Option<nat>, output: Option<nat>)

  /** Among the first n kinds: no UNKNOWN, at most one `<`, at most one output operator. */
  predicate OpsOk(ks: seq<TokenKind>, n: nat)
    requires n <= |ks|
  {
    && (forall k :: 0 <= k < n ==> ks[k] != Unknown)
    && (forall i, j :: 0 <= i < n && 0 <= j < n && ks[i] == InputRedirect && ks[j] == InputRedirect ==> i == j)
    && (forall i, j :: 0 <= i < n && 0 <= j < n && IsOutput(ks[i]) && IsOutput(ks[j]) ==> i == j)
  }

  /** `mark` records the `<` among the first n kinds, or there is none. */
  predicate InputMarked(ks: seq<TokenKind>, n: nat, mark: Option<nat>)
    requires n <= |ks|
  {
    match mark
    case None => forall k :: 0 <= k < n ==> ks[k] != InputRedirect
    case Some(i) => i < n && ks[i] == InputRedirect
  }

  /** `mark` records the output operator among the first n kinds, or there is none. */
  predicate OutputMarked(ks: seq<TokenKind>, n: nat, mark: Option<nat>)
    requires n <= |ks|
  {
    match mark
    case None => forall k :: 0 <= k < n ==> !IsOutput(ks[k])
    case Some(i) => i < n && IsOutput(ks[i])
  }

  /**
   * The token loop of buildCommand (nyush.c:341-368) from index k on: it stops
   * at the first UNKNOWN token or repeated operator, otherwise records where
   * the operators are.
   */
  function ScanFrom(ks: seq<TokenKind>, k: nat, m: Marks): (r: Option<Marks>)
    requires k <= |ks|
    requires OpsOk(ks, k) && InputMarked(ks, k, m.input) && OutputMarked(ks, k, m.output)
    ensures r.Some? <==> OpsOk(ks, |ks|)
    ensures r.Some? ==> InputMarked(ks, |ks|, r.value.input) && OutputMarked(ks, |ks|, r.value.output)
    decreases |ks| - k
  {
    if k == |ks| then Some(m)
    else if ks[k] == InputRedirect then
      if m.input.Some? then ScanStops(ks, k, m); None
      else ScanStep(ks, k, m, m.(input := Some(k))); ScanFrom(ks, k + 1, m.(input := Some(k)))
    else if IsOutput(ks[k]) then
      if m.output.Some? then ScanStops(ks, k, m); None
      else ScanStep(ks, k, m, m.(output := Some(k))); ScanFrom(ks, k + 1, m.(output := Some(k)))
    else if ks[k] == Unknown then ScanStops(ks, k, m); None
    else ScanStep(ks, k, m, m); ScanFrom(ks, k + 1, m)
  }

  /** The marks after index k of the scan: the operator there recorded, if it is one. */
  predicate StepMarks(ks: seq<TokenKind>, k: nat, m: Marks, next: Marks)
    requires k < |ks|
  {
    && next.input == (if ks[k] == InputRedirect then Some(k) else m.input)
    && next.output == (if IsOutput(ks[k]) then Some(k) else m.output)
  }

  /** One more token that is neither UNKNOWN nor a repeated operator keeps the scan going. */
  lemma ScanStep(ks: seq<TokenKind>, k: nat, m: Marks, next: Marks)
    requires k < |ks|
    requires OpsOk(ks, k) && InputMarked(ks, k, m.input) && OutputMarked(ks, k, m.output)
    requires ks[k] != Unknown
    requires ks[k] == InputRedirect ==> m.input.None?
    requires IsOutput(ks[k]) ==> m.output.None?
    requires StepMarks(ks, k, m, next)
    ensures OpsOk(ks, k + 1) && InputMarked(ks, k + 1, next.input) && OutputMarked(ks, k + 1, next.output)
  {
  }

  /** An UNKNOWN token or a repeated operator at index k rules the whole token list out. */
  lemma ScanStops(ks: seq<TokenKind>, k: nat, m: Marks)
    requires k < |ks|
    requires InputMarked(ks, k, m.input) && OutputMarked(ks, k, m.output)
    requires || ks[k] == Unknown
             || (ks[k] == InputRedirect && m.input.Some?)
             || (IsOutput(ks[k]) && m.output.Some?)
    ensures !OpsOk(ks, |ks|)
  {
  }

  function Scan(ks: seq<TokenKind>): (r: Option<Marks>)
    ensures r.Some? <==> OpsOk(ks, |ks|)
    ensures r.Some? ==> InputMarked(ks, |ks|, r.value.input) && OutputMarked(ks, |ks|, r.value.output)
  {
    ScanFrom(ks, 0, Marks(None, None))
  }

  /** The built-in branch of buildCommand (nyush.c:374-397). */
  function BuildBuiltin(words: seq<string>, kind: TokenKind, m: Marks, perm: Perm): BuildOutcome
    requires |words| > 0 && IsBuiltin(kind)
  {
    if !perm.builtin then InvalidCommand
    else if m.input.Some? || m.output.Some? then InvalidCommand
    else if kind == BuiltinCd || kind == BuiltinFg then
      if |words| != 2 then InvalidCommand
      else RunBuiltin(if kind == BuiltinCd then Cd(words[1]) else Fg(words[1]))
    else if |words| != 1 then InvalidCommand
    else RunBuiltin(if kind == BuiltinExit then Exit else Jobs)
  }

  /** The operator at index i is directly followed by an ARG token. */
  predicate TargetIsArg(ks: seq<TokenKind>, i: nat) {
    i + 1 < |ks| && ks[i + 1] == Arg
  }

  function Min(a: nat, b: nat): nat {
    if a < b then a else b
  }

  /** The token-count check of nyush.c:426-439. */
  predicate RedirectsTrail(n: nat, m: Marks) {
    match (m.input, m.output)
    case (Some(i), Some(o)) => n == Min(i, o) + 4
    case (Some(i), None) => n == i + 2
    case (None, Some(o)) => n == o + 2
    case (None, None) => true
  }

  /** Program resolution (nyush.c:440-449): None stands for "invalid file". */
  function ResolveProgram(name: string, isRegular: string -> bool): (r: Option<string>)
    ensures r.Some? ==> r.value == ProgramPath(name)
    ensures r.None? <==> '/' !in name && !isRegular(BinDir + name)
  {
    if '/' !in name then
      if isRegular(BinDir + name) then Some(BinDir + name) else None
    else Some(name)
  }

  /** The path a program token stands for: itself when it holds '/', else under BinDir. */
  function ProgramPath(name: string): string {
    if '/' in name then name else BinDir + name
  }

  /** The external-command branch of buildCommand (nyush.c:398-449, 455-477). */
  function BuildExternal(words: seq<string>, ks: seq<TokenKind>, m: Marks, perm: Perm,
                         isRegular: string -> bool): BuildOutcome
    requires |ks| == |words| > 0
    requires InputMarked(ks, |ks|, m.input) && OutputMarked(ks, |ks|, m.output)
  {
    var n := |words|;
    if !perm.inputRedirect && m.input.Some? then InvalidCommand
    else if !perm.outputRedirect && m.output.Some? then InvalidCommand
    else if m.input.Some? && !TargetIsArg(ks, m.input.value) then InvalidCommand
    else if m.input.Some? && !isRegular(words[m.input.value + 1]) then InvalidFile
    else if m.output.Some? && !TargetIsArg(ks, m.output.value) then InvalidCommand
    else if !RedirectsTrail(n, m) then InvalidCommand
    else match ResolveProgram(words[0], isRegular)
      case None => InvalidFile
      case Some(file) =>
        var argc := n - (if m.input.Some? then 2 else 0) - (if m.output.Some? then 2 else 0);
        Cmd(Command(
          file,
          words[..argc],
          if m.input.Some? then Some(words[m.input.value + 1]) else None,
          if m.output.Some? then Some(words[m.output.value + 1]) else None,
          m.output.Some? && ks[m.output.value] == OutputAppend))
  }

  /**
   * buildCommand (nyush.c:327-478) on one stage: the scan, the empty-stage
   * abort, then the built-in or external-command checks, in the source's order.
   */
  function Build(stage: string, perm: Perm, isRegular: string -> bool): (r: BuildOutcome)
    ensures r.RunBuiltin? ==> perm.builtin
    ensures r.Cmd? && r.command.infile.Some? ==> perm.inputRedirect
    ensures r.Cmd? && r.command.outfile.Some? ==> perm.outputRedirect
    ensures r == SilentAbort <==> forall k :: 0 <= k < |stage| ==> stage[k] == ' '
  {
    var words := Words(stage);
    var ks := Kinds(words);
    SplitEmpty(stage, ' ');
    match Scan(ks)
    case None => InvalidCommand
    case Some(m) =>
      if |words| == 0 then SilentAbort
      else if IsBuiltin(ks[0]) then BuildBuiltin(words, ks[0], m, perm)
      else if ks[0] == Arg then BuildExternal(words, ks, m, perm, isRegular)
      else InvalidCommand
  }

  // ---------------------------------------------------------------------------
  // The stage's tokens, described without the scan

  predicate IsOutputOp(w: string) {
    w == ">" || w == ">>"
  }

  /** Every token is a name or an operator, with at most one `<` and at most one `>`/`>>`. */
  predicate WellFormedWords(words: seq<string>) {
    && (forall k :: 0 <= k < |words| ==> IsName(words[k]) || words[k] in Operators)
    && (forall i, j :: 0 <= i < |words| && 0 <= j < |words| && words[i] == "<" && words[j] == "<" ==> i == j)
    && (forall i, j :: 0 <= i < |words| && 0 <= j < |words| && IsOutputOp(words[i]) && IsOutputOp(words[j]) ==> i == j)
  }

  /**
   * The token scan succeeds exactly on well-formed tokens, and then it has
   * found the `<` and the output operator wherever they are.
   */
  lemma ScanOfWords(words: seq<string>)
    ensures var r := Scan(Kinds(words));
      && (r.Some? <==> WellFormedWords(words))
      && (r.Some? ==>
        && (r.value.input.None? <==> forall k :: 0 <= k < |words| ==> words[k] != "<")
        && (r.value.input.Some? ==> r.value.input.value < |words| && words[r.value.input.value] == "<")
        && (r.value.output.None? <==> forall k :: 0 <= k < |words| ==> !IsOutputOp(words[k]))
        && (r.value.output.Some? ==> r.value.output.value < |words| && IsOutputOp(words[r.value.output.value])))
  {
    var ks := Kinds(words);
    assert forall k :: 0 <= k < |words| ==> (ks[k] == InputRedirect <==> words[k] == "<");
    assert forall k :: 0 <= k < |words| ==> (IsOutput(ks[k]) <==> IsOutputOp(words[k]));
    assert forall k :: 0 <= k < |words| ==> (ks[k] == Unknown <==> !IsName(words[k]) && words[k] !in Operators);
  }

  /** A token that is neither a name nor an operator makes the stage "Invalid command", wherever it stands. */
  lemma UnknownTokenRejected(stage: string, perm: Perm, isRegular: string -> bool, k: nat)
    requires k < |Words(stage)|
    requires !IsName(Words(stage)[k]) && Words(stage)[k] !in Operators
    ensures Build(stage, perm, isRegular) == InvalidCommand
  {
    ScanOfWords(Words(stage));
  }

  /** A second `<`, or a second output operator in any mix of `>` and `>>`, makes the stage "Invalid command". */
  lemma RepeatedRedirectRejected(stage: string, perm: Perm, isRegular: string -> bool, i: nat, j: nat)
    requires i < j < |Words(stage)|
    requires || (Words(stage)[i] == "<" && Words(stage)[j] == "<")
             || (IsOutputOp(Words(stage)[i]) && IsOutputOp(Words(stage)[j]))
    ensures Build(stage, perm, isRegular) == InvalidCommand
  {
    ScanOfWords(Words(stage));
  }

  /** A stage whose first token is not a name (an operator, say) is "Invalid command". */
  lemma FirstTokenNotName(stage: string, perm: Perm, isRegular: string -> bool)
    requires |Words(stage)| > 0 && !IsName(Words(stage)[0])
    ensures Build(stage, perm, isRegular) == InvalidCommand
  {
    ScanOfWords(Words(stage));
  }

  // ---------------------------------------------------------------------------
  // Built-ins

  /** Number of tokens a built-in takes, itself included. */
  function Arity(keyword: string): nat {
    if keyword == "cd" || keyword == "fg" then 2 else 1
  }

  /**
   * A stage opening with a keyword is either dispatched or "Invalid command".
   * It is dispatched exactly when built-ins are allowed, the token count is
   * the keyword's arity and the argument (for cd and fg) is a name, so no
   * redirection can be present; the directive carries that argument.
   */
  lemma BuiltinPlacement(stage: string, perm: Perm, isRegular: string -> bool)
    requires |Words(stage)| > 0 && Words(stage)[0] in Keywords
    ensures var words := Words(stage);
      var r := Build(stage, perm, isRegular);
      && (r == InvalidCommand || r.RunBuiltin?)
      && (r.RunBuiltin? <==>
            perm.builtin && |words| == Arity(words[0]) && (|words| == 2 ==> IsName(words[1])))
      && (r.RunBuiltin? ==>
            r.directive == match words[0]
              case "cd" => Cd(words[1])
              case "fg" => Fg(words[1])
              case "exit" => Exit
              case _ => Jobs)
  {
    var words := Words(stage);
    var ks := Kinds(words);
    KeywordKind(words);
    if perm.builtin && |words| == Arity(words[0]) && (|words| == 2 ==> IsName(words[1])) {
      BuiltinTokensOk(words, ks);
    }
    match Scan(ks) {
      case None =>
      case Some(m) =>
        if BuildBuiltin(words, ks[0], m, perm).RunBuiltin? && |words| == 2 {
          KindsLocateOperators(words);
          assert ks[1] != Unknown;
        }
    }
  }

  /** The kind of a keyword opening a stage, and the arity it implies. */
  lemma KeywordKind(words: seq<string>)
    requires |words| > 0 && words[0] in Keywords
    ensures var k := Kinds(words)[0];
      && IsBuiltin(k)
      && (k == BuiltinCd <==> words[0] == "cd")
      && (k == BuiltinFg <==> words[0] == "fg")
      && (k == BuiltinExit <==> words[0] == "exit")
      && ((k == BuiltinCd || k == BuiltinFg) <==> Arity(words[0]) == 2)
  {
  }

  /** A keyword followed by at most one name passes the token scan without any operator. */
  lemma BuiltinTokensOk(words: seq<string>, ks: seq<TokenKind>)
    requires ks == Kinds(words) && 0 < |words| <= 2 && IsBuiltin(ks[0])
    requires |words| == 2 ==> IsName(words[1])
    ensures OpsOk(ks, |ks|)
    ensures forall k :: 0 <= k < |ks| ==> ks[k] != InputRedirect && !IsOutput(ks[k])
  {
    if |words| == 2 {
      NameIsNoOperator(words[1]);
      assert ks[1] == Arg;
    }
  }

  // ---------------------------------------------------------------------------
  // External commands

  /** The operator text that produces the given append flag. */
  function OutputOp(append: bool): string {
    if append then ">>" else ">"
  }

  /** The tokens after argv in an accepted stage: nothing, one redirection, or both in either order. */
  predicate RedirectionTail(tail: seq<string>, c: Command) {
    match (c.infile, c.outfile)
    case (None, None) => tail == [] && !c.append
    case (Some(i), None) => tail == ["<", i] && !c.append
    case (None, Some(o)) => tail == [OutputOp(c.append), o]
    case (Some(i), Some(o)) =>
      || tail == ["<", i, OutputOp(c.append), o]
      || tail == [OutputOp(c.append), o, "<", i]
  }

  /**
   * The token layout of an external command, stated without the source's
   * checks: the tokens are argv followed by the redirections; argv is a
   * non-empty run of names not opening with a keyword; each redirection is
   * allowed where the stage stands and targets a name; the input file is a
   * regular file.
   */
  predicate AcceptedLayout(words: seq<string>, perm: Perm, isRegular: string -> bool, c: Command) {
    && 0 < |c.argv| <= |words|
    && words[..|c.argv|] == c.argv
    && RedirectionTail(words[|c.argv|..], c)
    && (forall k :: 0 <= k < |c.argv| ==> IsName(c.argv[k]))
    && c.argv[0] !in Keywords
    && (c.infile.Some? ==> perm.inputRedirect && IsName(c.infile.value) && isRegular(c.infile.value))
    && (c.outfile.Some? ==> perm.outputRedirect && IsName(c.outfile.value))
  }

  /** A command with that layout whose program resolves: under BinDir to a regular file, or verbatim when it holds '/'. */
  predicate AcceptedExternal(words: seq<string>, perm: Perm, isRegular: string -> bool, c: Command) {
    && AcceptedLayout(words, perm, isRegular, c)
    && c.file == ProgramPath(c.argv[0])
    && ('/' !in c.argv[0] ==> isRegular(c.file))
  }

  /**
   * What the proofs below need of the kinds: where the operators are, that
   * ARG tokens are names and that no later token is a built-in or PROGRAM.
   */
  predicate OperatorKinds(words: seq<string>, ks: seq<TokenKind>) {
    && |ks| == |words|
    && (forall k :: 0 <= k < |words| ==> (ks[k] == InputRedirect <==> words[k] == "<"))
    && (forall k :: 0 <= k < |words| ==> (ks[k] == OutputTruncate <==> words[k] == ">"))
    && (forall k :: 0 <= k < |words| ==> (ks[k] == OutputAppend <==> words[k] == ">>"))
    && (forall k :: 0 <= k < |words| ==> ks[k] == Arg ==> IsName(words[k]))
    && (forall k :: 0 <= k < |words| ==> ks[k] != Program && (k > 0 ==> !IsBuiltin(ks[k])))
  }

  lemma KindsLocateOperators(words: seq<string>)
    ensures OperatorKinds(words, Kinds(words))
  {
  }

  /** The redirection part of a command BuildExternal accepted sits after argv in the expected shape. */
  lemma {:induction false} AcceptedTail(words: seq<string>, ks: seq<TokenKind>, m: Marks, c: Command)
    requires |ks| == |words| > 0 && OperatorKinds(words, ks)
    requires InputMarked(ks, |ks|, m.input) && OutputMarked(ks, |ks|, m.output)
    requires m.input.Some? ==> TargetIsArg(ks, m.input.value)
    requires m.output.Some? ==> TargetIsArg(ks, m.output.value)
    requires RedirectsTrail(|words|, m)
    requires c.infile == (if m.input.Some? then Some(words[m.input.value + 1]) else None)
    requires c.outfile == (if m.output.Some? then Some(words[m.output.value + 1]) else None)
    requires c.append == (m.output.Some? && ks[m.output.value] == OutputAppend)
    requires |c.argv| == |words| - (if m.input.Some? then 2 else 0) - (if m.output.Some? then 2 else 0)
    ensures RedirectionTail(words[|c.argv|..], c)
    ensures c.infile.Some? ==> IsName(c.infile.value)
    ensures c.outfile.Some? ==> IsName(c.outfile.value)
  {
    var argc := |c.argv|;
    match (m.input, m.output) {
      case (None, None) =>
        assert words[argc..] == [];
      case (Some(i), None) =>
        InputOnlyTail(words, ks, i, c);
      case (None, Some(o)) =>
        OutputOnlyTail(words, ks, o, c);
      case (Some(i), Some(o)) =>
        AcceptedBothTail(words, ks, i, o, c);
    }
  }

  /** Both redirections: they follow argv, in either order, each with its target. */
  lemma AcceptedBothTail(words: seq<string>, ks: seq<TokenKind>, i: nat, o: nat, c: Command)
    requires OperatorKinds(words, ks) && i < |ks| && o < |ks|
    requires ks[i] == InputRedirect && IsOutput(ks[o]) && TargetIsArg(ks, i) && TargetIsArg(ks, o)
    requires |words| == Min(i, o) + 4 && |c.argv| == |words| - 4
    requires c.infile == Some(words[i + 1]) && c.outfile == Some(words[o + 1])
    requires c.append == (ks[o] == OutputAppend)
    ensures RedirectionTail(words[|c.argv|..], c)
  {
    OutputOpAt(words, ks, o, c.append);
    if i < o {
      assert o == i + 2;
    } else {
      assert i == o + 2;
    }
    BothRedirectionsTail(words, c);
  }

  /** Only `<`: it follows argv, with its target. */
  lemma InputOnlyTail(words: seq<string>, ks: seq<TokenKind>, i: nat, c: Command)
    requires OperatorKinds(words, ks) && i + 2 == |words| && ks[i] == InputRedirect
    requires |c.argv| == i && c.infile == Some(words[i + 1]) && c.outfile.None? && !c.append
    ensures RedirectionTail(words[|c.argv|..], c)
  {
    TwoTokenTail(words, i);
  }

  /** Only an output operator: it follows argv, with its target. */
  lemma OutputOnlyTail(words: seq<string>, ks: seq<TokenKind>, o: nat, c: Command)
    requires OperatorKinds(words, ks) && o + 2 == |words| && IsOutput(ks[o])
    requires |c.argv| == o && c.infile.None? && c.outfile == Some(words[o + 1])
    requires c.append == (ks[o] == OutputAppend)
    ensures RedirectionTail(words[|c.argv|..], c)
  {
    OutputOpAt(words, ks, o, c.append);
    TwoTokenTail(words, o);
  }

  lemma BothRedirectionsTail(words: seq<string>, c: Command)
    requires |c.argv| + 4 == |words| && c.infile.Some? && c.outfile.Some?
    requires var a := |c.argv|;
      || (words[a] == "<" && words[a + 1] == c.infile.value
          && words[a + 2] == OutputOp(c.append) && words[a + 3] == c.outfile.value)
      || (words[a] == OutputOp(c.append) && words[a + 1] == c.outfile.value
          && words[a + 2] == "<" && words[a + 3] == c.infile.value)
    ensures RedirectionTail(words[|c.argv|..], c)
  {
    FourTokenTail(words, |c.argv|);
  }

  lemma TwoTokenTail(words: seq<string>, a: nat)
    requires a + 2 == |words|
    ensures words[a..] == [words[a], words[a + 1]]
  {
  }

  lemma FourTokenTail(words: seq<string>, a: nat)
    requires a + 4 == |words|
    ensures words[a..] == [words[a], words[a + 1], words[a + 2], words[a + 3]]
  {
  }

  /** The output operator's text is the one its append flag stands for. */
  lemma OutputOpAt(words: seq<string>, ks: seq<TokenKind>, o: nat, append: bool)
    requires OperatorKinds(words, ks) && o < |words| && IsOutput(ks[o])
    requires append == (ks[o] == OutputAppend)
    ensures OutputOp(append) == words[o]
  {
  }

  /** The argv of a command BuildExternal accepted holds names only: every operator lies past it. */
  lemma {:induction false} AcceptedArgv(words: seq<string>, ks: seq<TokenKind>, m: Marks, argc: nat)
    requires |ks| == |words| > 0 && argc <= |words| && OperatorKinds(words, ks)
    requires ks[0] == Arg
    requires OpsOk(ks, |ks|) && InputMarked(ks, |ks|, m.input) && OutputMarked(ks, |ks|, m.output)
    requires m.input.Some? ==> argc <= m.input.value
    requires m.output.Some? ==> argc <= m.output.value
    ensures forall k :: 0 <= k < argc ==> IsName(words[k])
  {
    forall k | 0 <= k < argc ensures IsName(words[k]) {
      assert ks[k] != InputRedirect && !IsOutput(ks[k]);
      assert ks[k] == Arg;
    }
  }

  /** The checks BuildExternal makes before it resolves the program (nyush.c:400-439) all pass. */
  predicate ChecksPass(words: seq<string>, ks: seq<TokenKind>, m: Marks, perm: Perm, isRegular: string -> bool)
    requires |ks| == |words| > 0
    requires InputMarked(ks, |ks|, m.input) && OutputMarked(ks, |ks|, m.output)
  {
    && (m.input.Some? ==> perm.inputRedirect && TargetIsArg(ks, m.input.value) && isRegular(words[m.input.value + 1]))
    && (m.output.Some? ==> perm.outputRedirect && TargetIsArg(ks, m.output.value))
    && RedirectsTrail(|words|, m)
  }

  /** The command BuildExternal assembles once its checks pass and the program resolves to `name`'s path. */
  function CheckedCommand(words: seq<string>, ks: seq<TokenKind>, m: Marks): Command
    requires |ks| == |words| > 0
    requires InputMarked(ks, |ks|, m.input) && OutputMarked(ks, |ks|, m.output)
    requires m.input.Some? ==> TargetIsArg(ks, m.input.value)
    requires m.output.Some? ==> TargetIsArg(ks, m.output.value)
    requires RedirectsTrail(|words|, m)
  {
    var argc := |words| - (if m.input.Some? then 2 else 0) - (if m.output.Some? then 2 else 0);
    Command(
      ProgramPath(words[0]),
      words[..argc],
      if m.input.Some? then Some(words[m.input.value + 1]) else None,
      if m.output.Some? then Some(words[m.output.value + 1]) else None,
      m.output.Some? && ks[m.output.value] == OutputAppend)
  }

  /** Once those checks pass, the tokens have an accepted layout: the one BuildExternal assembles. */
  lemma ChecksPassLayout(words: seq<string>, ks: seq<TokenKind>, m: Marks, perm: Perm, isRegular: string -> bool)
    requires ks == Kinds(words) && |ks| > 0 && ks[0] == Arg
    requires OpsOk(ks, |ks|) && InputMarked(ks, |ks|, m.input) && OutputMarked(ks, |ks|, m.output)
    requires ChecksPass(words, ks, m, perm, isRegular)
    ensures AcceptedLayout(words, perm, isRegular, CheckedCommand(words, ks, m))
  {
    var c := CheckedCommand(words, ks, m);
    var argc := |c.argv|;
    KindsLocateOperators(words);
    AcceptedTail(words, ks, m, c);
    AcceptedArgv(words, ks, m, argc);
    assert forall k :: 0 <= k < argc ==> c.argv[k] == words[k];
    assert 0 < argc;
    assert c.argv[0] !in Keywords;
  }

  /** Every command BuildExternal produces is one its tokens describe. */
  lemma ExternalAccepted(words: seq<string>, ks: seq<TokenKind>, m: Marks, perm: Perm, isRegular: string -> bool)
    requires ks == Kinds(words) && |ks| > 0 && ks[0] == Arg
    requires OpsOk(ks, |ks|) && InputMarked(ks, |ks|, m.input) && OutputMarked(ks, |ks|, m.output)
    requires BuildExternal(words, ks, m, perm, isRegular).Cmd?
    ensures AcceptedExternal(words, perm, isRegular, BuildExternal(words, ks, m, perm, isRegular).command)
  {
    assert ChecksPass(words, ks, m, perm, isRegular);
    ChecksPassLayout(words, ks, m, perm, isRegular);
    var c := CheckedCommand(words, ks, m);
    assert BuildExternal(words, ks, m, perm, isRegular).command == c;
    assert c.argv[0] == words[0];
  }

  /** Every command Build produces is one its tokens describe. */
  lemma BuiltCommandAccepted(stage: string, perm: Perm, isRegular: string -> bool)
    requires Build(stage, perm, isRegular).Cmd?
    ensures AcceptedExternal(Words(stage), perm, isRegular, Build(stage, perm, isRegular).command)
  {
    var words := Words(stage);
    var ks := Kinds(words);
    var m := Scan(ks).value;
    ExternalAccepted(words, ks, m, perm, isRegular);
  }

  /** Where an accepted command's operators stand among its tokens. */
  predicate OperatorsAt(words: seq<string>, c: Command, m: Marks) {
    && (m.input.Some? <==> c.infile.Some?)
    && (m.input.None? ==> forall k :: 0 <= k < |words| ==> words[k] != "<")
    && (m.input.Some? ==>
          |c.argv| <= m.input.value && m.input.value + 1 < |words|
          && words[m.input.value] == "<" && words[m.input.value + 1] == c.infile.value)
    && (m.output.Some? <==> c.outfile.Some?)
    && (m.output.None? ==> forall k :: 0 <= k < |words| ==> !IsOutputOp(words[k]))
    && (m.output.Some? ==>
          |c.argv| <= m.output.value && m.output.value + 1 < |words|
          && words[m.output.value] == OutputOp(c.append) && words[m.output.value + 1] == c.outfile.value)
    && RedirectsTrail(|words|, m)
    && |c.argv| == |words| - (if m.input.Some? then 2 else 0) - (if m.output.Some? then 2 else 0)
  }

  /** A name is none of the operators. */
  lemma NameIsNoOperator(w: string)
    requires IsName(w)
    ensures w != "<" && !IsOutputOp(w) && w !in Operators
  {
    assert "<"[0] == '<' && ">"[0] == '>' && ">>"[0] == '>';
    assert !IsName("<") && !IsName(">") && !IsName(">>");
  }

  /** From index a on, every token is a name or an operator, and the operators stand exactly where m says. */
  predicate OperatorsFrom(words: seq<string>, a: nat, m: Marks) {
    && a <= |words|
    && (m.input.Some? ==> a <= m.input.value < |words|)
    && (m.output.Some? ==> a <= m.output.value < |words|)
    && (forall k :: a <= k < |words| ==> IsName(words[k]) || words[k] in Operators)
    && (forall k :: a <= k < |words| ==> (words[k] == "<" <==> m.input == Some(k)))
    && (forall k :: a <= k < |words| ==> (IsOutputOp(words[k]) <==> m.output == Some(k)))
  }

  /**
   * Tokens made of names up to index a, then a tail whose operators stand
   * exactly at the recorded positions, are well formed.
   */
  lemma {:induction false} OperatorsOnlyAt(words: seq<string>, a: nat, m: Marks)
    requires OperatorsFrom(words, a, m)
    requires forall k :: 0 <= k < a ==> IsName(words[k])
    ensures WellFormedWords(words)
    ensures forall k :: 0 <= k < |words| ==> (words[k] == "<" <==> m.input == Some(k))
    ensures forall k :: 0 <= k < |words| ==> (IsOutputOp(words[k]) <==> m.output == Some(k))
  {
    forall k | 0 <= k < a
      ensures words[k] != "<" && !IsOutputOp(words[k]) && words[k] !in Operators
    {
      NameIsNoOperator(words[k]);
    }
  }

  lemma InputTail(words: seq<string>, a: nat)
    requires |words| == a + 2 && words[a] == "<" && IsName(words[a + 1])
    ensures OperatorsFrom(words, a, Marks(Some(a), None))
  {
    NameIsNoOperator(words[a + 1]);
  }

  lemma OutputTail(words: seq<string>, a: nat, append: bool)
    requires |words| == a + 2 && words[a] == OutputOp(append) && IsName(words[a + 1])
    ensures OperatorsFrom(words, a, Marks(None, Some(a)))
  {
    NameIsNoOperator(words[a + 1]);
  }

  lemma InputOutputTail(words: seq<string>, a: nat, append: bool)
    requires |words| == a + 4 && words[a] == "<" && IsName(words[a + 1])
    requires words[a + 2] == OutputOp(append) && IsName(words[a + 3])
    ensures OperatorsFrom(words, a, Marks(Some(a), Some(a + 2)))
  {
    NameIsNoOperator(words[a + 1]);
    NameIsNoOperator(words[a + 3]);
  }

  lemma OutputInputTail(words: seq<string>, a: nat, append: bool)
    requires |words| == a + 4 && words[a] == OutputOp(append) && IsName(words[a + 1])
    requires words[a + 2] == "<" && IsName(words[a + 3])
    ensures OperatorsFrom(words, a, Marks(Some(a + 2), Some(a)))
  {
    NameIsNoOperator(words[a + 1]);
    NameIsNoOperator(words[a + 3]);
  }

  /** The operator positions implied by a redirection tail after a run of names. */
  lemma {:induction false} TailOperators(words: seq<string>, c: Command) returns (m: Marks)
    requires 0 < |c.argv| <= |words|
    requires forall k :: 0 <= k < |c.argv| ==> IsName(words[k])
    requires RedirectionTail(words[|c.argv|..], c)
    requires c.infile.Some? ==> IsName(c.infile.value)
    requires c.outfile.Some? ==> IsName(c.outfile.value)
    ensures OperatorsAt(words, c, m)
    ensures WellFormedWords(words)
  {
    var a := |c.argv|;
    var tail := words[a..];
    assert |words| == a + |tail|;
    match (c.infile, c.outfile) {
      case (None, None) =>
        m := Marks(None, None);
        assert a == |words|;
      case (Some(i), None) =>
        m := Marks(Some(a), None);
        assert words[a] == tail[0] && words[a + 1] == tail[1];
        InputTail(words, a);
      case (None, Some(o)) =>
        m := Marks(None, Some(a));
        assert words[a] == tail[0] && words[a + 1] == tail[1];
        OutputTail(words, a, c.append);
      case (Some(i), Some(o)) =>
        assert words[a] == tail[0] && words[a + 1] == tail[1] && words[a + 2] == tail[2] && words[a + 3] == tail[3];
        if tail[0] == "<" {
          m := Marks(Some(a), Some(a + 2));
          InputOutputTail(words, a, c.append);
        } else {
          m := Marks(Some(a + 2), Some(a));
          OutputInputTail(words, a, c.append);
        }
    }
    OperatorsOnlyAt(words, a, m);
  }

  /** The operator positions implied by the tail of an accepted command. */
  lemma AcceptedOperators(words: seq<string>, perm: Perm, isRegular: string -> bool, c: Command)
    returns (m: Marks)
    requires AcceptedLayout(words, perm, isRegular, c)
    ensures OperatorsAt(words, c, m)
    ensures WellFormedWords(words)
  {
    assert forall k :: 0 <= k < |c.argv| ==> words[k] == c.argv[k];
    m := TailOperators(words, c);
  }

  /**
   * With the operators where the tail puts them, BuildExternal's checks all
   * pass up to program resolution, which alone decides between "invalid file" and `c`.
   */
  lemma {:induction false} ExternalBuildsLayout(words: seq<string>, ks: seq<TokenKind>, m: Marks, perm: Perm,
                                                isRegular: string -> bool, c: Command)
    requires ks == Kinds(words) && |ks| > 0
    requires InputMarked(ks, |ks|, m.input) && OutputMarked(ks, |ks|, m.output)
    requires AcceptedLayout(words, perm, isRegular, c) && OperatorsAt(words, c, m)
    ensures BuildExternal(words, ks, m, perm, isRegular) ==
      if '/' !in c.argv[0] && !isRegular(BinDir + c.argv[0]) then InvalidFile
      else Cmd(c.(file := ProgramPath(c.argv[0])))
  {
    if m.input.Some? {
      assert ks[m.input.value + 1] == Arg;
    }
    if m.output.Some? {
      assert ks[m.output.value + 1] == Arg;
      assert ks[m.output.value] == OutputAppend <==> c.append;
    }
    assert words[..|c.argv|] == c.argv;
  }

  /** Build on a stage whose tokens have an accepted layout: only program resolution can still fail. */
  lemma {:induction false} LayoutBuilds(stage: string, perm: Perm, isRegular: string -> bool, c: Command)
    requires AcceptedLayout(Words(stage), perm, isRegular, c)
    ensures Build(stage, perm, isRegular) ==
      if '/' !in c.argv[0] && !isRegular(BinDir + c.argv[0]) then InvalidFile
      else Cmd(c.(file := ProgramPath(c.argv[0])))
  {
    var words := Words(stage);
    var ks := Kinds(words);
    var pos := AcceptedOperators(words, perm, isRegular, c);
    ScanOfWords(words);
    var m := Scan(ks).value;
    assert m == pos;
    assert words[0] == c.argv[0];
    assert ks[0] == Arg;
    ExternalBuildsLayout(words, ks, m, perm, isRegular, c);
  }

  /**
   * Build yields an external command exactly when the stage's tokens describe
   * it: the builder's ordered checks accept precisely the layouts above.
   */
  lemma ExternalCommandSpec(stage: string, perm: Perm, isRegular: string -> bool, c: Command)
    ensures Build(stage, perm, isRegular) == Cmd(c) <==> AcceptedExternal(Words(stage), perm, isRegular, c)
  {
    if Build(stage, perm, isRegular) == Cmd(c) {
      BuiltCommandAccepted(stage, perm, isRegular);
    }
    if AcceptedExternal(Words(stage), perm, isRegular, c) {
      LayoutBuilds(stage, perm, isRegular, c);
      assert c.(file := ProgramPath(c.argv[0])) == c;
    }
  }

  /** A program name without '/' that is not a regular file under BinDir is "invalid file", checked last. */
  lemma ProgramMissingReported(stage: string, perm: Perm, isRegular: string -> bool, c: Command)
    requires AcceptedLayout(Words(stage), perm, isRegular, c)
    requires '/' !in c.argv[0] && !isRegular(BinDir + c.argv[0])
    ensures Build(stage, perm, isRegular) == InvalidFile
  {
    LayoutBuilds(stage, perm, isRegular, c);
  }

  // ---------------------------------------------------------------------------
  // Which message wins

  /**
   * A redirection operator in a stage that may not hold it is always
   * "Invalid command": the placement check comes before any file check, and a
   * built-in with a redirection is refused as well.
   */
  lemma MisplacedRedirectRejected(stage: string, perm: Perm, isRegular: string -> bool, k: nat)
    requires k < |Words(stage)|
    requires || (Words(stage)[k] == "<" && !perm.inputRedirect)
             || (IsOutputOp(Words(stage)[k]) && !perm.outputRedirect)
    ensures Build(stage, perm, isRegular) == InvalidCommand
  {
    ScanOfWords(Words(stage));
  }

  /**
   * Once the tokens are well formed, the program token is a name and the
   * redirections are allowed, a `<` whose target names no regular file is
   * "invalid file", whatever follows: the output target and the token count
   * are checked only after it.
   */
  lemma InputMissingReported(stage: string, perm: Perm, isRegular: string -> bool, i: nat)
    requires WellFormedWords(Words(stage))
    requires |Words(stage)| > 0 && IsName(Words(stage)[0]) && Words(stage)[0] !in Keywords
    requires perm.inputRedirect
    requires forall k :: 0 <= k < |Words(stage)| && IsOutputOp(Words(stage)[k]) ==> perm.outputRedirect
    requires i + 1 < |Words(stage)| && Words(stage)[i] == "<"
    requires IsName(Words(stage)[i + 1]) && !isRegular(Words(stage)[i + 1])
    ensures Build(stage, perm, isRegular) == InvalidFile
  {
    var words := Words(stage);
    ScanOfWords(words);
    var m := Scan(Kinds(words)).value;
    assert m.input == Some(i);
  }

  /**
   * "invalid file" only ever follows well-formed, correctly placed tokens
   * opened by a program name, and has one of two causes: an input file named
   * by a name that is not a regular file, or an otherwise accepted layout whose
   * program name is not a regular file under BinDir.
   */
  lemma InvalidFileCauses(stage: string, perm: Perm, isRegular: string -> bool)
    requires Build(stage, perm, isRegular) == InvalidFile
    ensures var words := Words(stage);
      && WellFormedWords(words)
      && |words| > 0 && IsName(words[0]) && words[0] !in Keywords
      && (forall k :: 0 <= k < |words| && words[k] == "<" ==> perm.inputRedirect)
      && (forall k :: 0 <= k < |words| && IsOutputOp(words[k]) ==> perm.outputRedirect)
      && (|| (exists i :: 0 <= i < |words| - 1 && words[i] == "<" && IsName(words[i + 1]) && !isRegular(words[i + 1]))
          || ((exists c :: AcceptedLayout(words, perm, isRegular, c)) && '/' !in words[0] && !isRegular(BinDir + words[0])))
  {
    var words := Words(stage);
    var ks := Kinds(words);
    ScanOfWords(words);
    var m := Scan(ks).value;
    assert ks[0] == Arg;
    ExternalInvalidFile(words, ks, m, perm, isRegular);
  }

  /** The two causes of "invalid file" in BuildExternal. */
  lemma ExternalInvalidFile(words: seq<string>, ks: seq<TokenKind>, m: Marks, perm: Perm, isRegular: string -> bool)
    requires ks == Kinds(words) && |ks| > 0 && ks[0] == Arg
    requires OpsOk(ks, |ks|) && InputMarked(ks, |ks|, m.input) && OutputMarked(ks, |ks|, m.output)
    requires BuildExternal(words, ks, m, perm, isRegular) == InvalidFile
    ensures || (exists i :: 0 <= i < |words| - 1 && words[i] == "<" && IsName(words[i + 1]) && !isRegular(words[i + 1]))
            || ((exists c :: AcceptedLayout(words, perm, isRegular, c)) && '/' !in words[0] && !isRegular(BinDir + words[0]))
  {
    KindsLocateOperators(words);
    if m.input.Some? && TargetIsArg(ks, m.input.value) && !isRegular(words[m.input.value + 1]) {
      var i := m.input.value;
      assert words[i] == "<" && IsName(words[i + 1]);
    } else {
      assert ChecksPass(words, ks, m, perm, isRegular);
      ChecksPassLayout(words, ks, m, perm, isRegular);
      assert AcceptedLayout(words, perm, isRegular, CheckedCommand(words, ks, m));
    }
  }
}
