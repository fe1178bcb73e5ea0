/**
 * The terminal panel: the lines it shows, how shell messages become lines,
 * how the output of a run is split into lines, and how a typed command is
 * dispatched (forwarded to the shell, a built-in, `run <file>`, or unknown).
 * The runner and the shell are reached through abstract replies.
 */
module Terminal {
  import opened Wrappers
  import opened Strings
  import Languages
  import FileSystem

  datatype LineType = InputLine | OutputLine | ErrorLine | SystemLine | SuccessLine

  datatype Line = Line(kind: LineType, content: string)

  datatype Tab = TerminalTab | ShellTab

  /**
   * The panel's state. `workspacePath` is `""` when no project is open (the
   * property is then undefined or empty, both falsy).
   */
  datatype Session = Session(
    lines: seq<Line>,
    workspacePath: string,
    shellActive: bool,
    activeTab: Tab,
    shellId: string,
    showShellPicker: bool)

  const Newline: set<char> := {'\n'}

  // ---------------------------------------------------------------------------
  // Shell messages
  // ---------------------------------------------------------------------------

  /** A message from a shell: the id of the shell that sent it, its type and its text. */
  datatype ShellMessage = ShellMessage(shellId: string, kind: string, data: string)

  /** `error` and `system` keep their type; every other type is shown as output. */
  function LineTypeOf(kind: string): (t: LineType)
    ensures t == ErrorLine <==> kind == "error"
    ensures t == SystemLine <==> kind == "system"
    ensures t == OutputLine <==> kind != "error" && kind != "system"
  {
    if kind == "error" then ErrorLine
    else if kind == "system" then SystemLine
    else OutputLine
  }

  /** `handleMessage`: a message of the panel's own shell adds one line; others are ignored. */
  function HandleMessage(s: Session, m: ShellMessage): (s': Session)
    ensures m.shellId != s.shellId ==> s' == s
    ensures m.shellId == s.shellId ==> s' == s.(lines := s.lines + [Line(LineTypeOf(m.kind), m.data)])
  {
    if m.shellId == s.shellId then s.(lines := s.lines + [Line(LineTypeOf(m.kind), m.data)]) else s
  }

  const ShellClosedText: string := "🔌 Shell Docker fermé"

  /** `handleClosed`: the panel's own shell closing marks it inactive and says so. */
  function HandleClosed(s: Session, closedId: string): (s': Session)
    ensures closedId != s.shellId ==> s' == s
    ensures closedId == s.shellId ==> s' == s.(shellActive := false, lines := s.lines + [Line(SystemLine, ShellClosedText)])
  {
    if closedId == s.shellId then s.(shellActive := false, lines := s.lines + [Line(SystemLine, ShellClosedText)]) else s
  }

  /** What the shell subscription delivers: a message or a close, each tagged with a shell id. */
  datatype ShellSignal = MessageSignal(message: ShellMessage) | ClosedSignal(closedId: string)

  function SignalId(e: ShellSignal): string {
    match e
    case MessageSignal(m) => m.shellId
    case ClosedSignal(id) => id
  }

  function OnSignal(s: Session, e: ShellSignal): Session {
    match e
    case MessageSignal(m) => HandleMessage(s, m)
    case ClosedSignal(id) => HandleClosed(s, id)
  }

  /** The session after a run of signals, handled in arrival order. */
  function OnSignals(s: Session, es: seq<ShellSignal>): Session
    decreases |es|
  {
    if es == [] then s else OnSignals(OnSignal(s, es[0]), es[1..])
  }

  /** The number of signals addressed to shell `id`. */
  function CountFor(es: seq<ShellSignal>, id: string): nat
    decreases |es|
  {
    if es == [] then 0 else (if SignalId(es[0]) == id then 1 else 0) + CountFor(es[1..], id)
  }

  /**
   * Shell signals only ever append: the earlier lines stay a prefix, one line
   * is added per signal of the panel's own shell, the shell can only go from
   * active to inactive, and no other field changes.
   */
  lemma {:induction false} SignalsOnlyAppend(s: Session, es: seq<ShellSignal>)
    ensures s.lines <= OnSignals(s, es).lines
    ensures |OnSignals(s, es).lines| == |s.lines| + CountFor(es, s.shellId)
    ensures OnSignals(s, es).shellActive ==> s.shellActive
    ensures OnSignals(s, es) == s.(lines := OnSignals(s, es).lines, shellActive := OnSignals(s, es).shellActive)
    decreases |es|
  {
    if es != [] {
      var t := OnSignal(s, es[0]);
      SignalsOnlyAppend(t, es[1..]);
    }
  }

  /** Signals from any other shell leave the session exactly as it was. */
  lemma {:induction false} StaleSignalsIgnored(s: Session, es: seq<ShellSignal>)
    requires forall i :: 0 <= i < |es| ==> SignalId(es[i]) != s.shellId
    ensures OnSignals(s, es) == s
    decreases |es|
  {
    if es != [] {
      StaleSignalsIgnored(s, es[1..]);
    }
  }

  // ---------------------------------------------------------------------------
  // executeInDocker
  // ---------------------------------------------------------------------------

  /** The parts of a text that `forEach(line => if (line.trim()) ...)` keeps, in order. */
  function KeepNonBlank(parts: seq<string>): (kept: seq<string>)
    ensures forall i :: 0 <= i < |kept| ==> !IsBlank(kept[i])
    ensures forall x :: x in kept <==> x in parts && !IsBlank(x)
    ensures |kept| <= |parts|
    decreases |parts|
  {
    if |parts| == 0 then []
    else if IsBlank(parts[0]) then KeepNonBlank(parts[1..])
    else [parts[0]] + KeepNonBlank(parts[1..])
  }

  /** Filtering distributes over concatenation: order is kept and nothing moves across. */
  lemma {:induction false} KeepNonBlankAppend(a: seq<string>, b: seq<string>)
    ensures KeepNonBlank(a + b) == KeepNonBlank(a) + KeepNonBlank(b)
    decreases |a|
  {
    if |a| == 0 {
      assert a + b == b;
    } else {
      assert (a + b)[0] == a[0] && (a + b)[1..] == a[1..] + b;
      KeepNonBlankAppend(a[1..], b);
    }
  }

  /** Without blank parts, nothing is dropped. */
  lemma {:induction false} KeepNonBlankAll(parts: seq<string>)
    requires forall i :: 0 <= i < |parts| ==> !IsBlank(parts[i])
    ensures KeepNonBlank(parts) == parts
    decreases |parts|
  {
    if |parts| > 0 {
      KeepNonBlankAll(parts[1..]);
    }
  }

  /** The lines shown for a text: its `\n`-separated pieces that are not blank. */
  function TextLines(text: string): (lines: seq<string>)
    ensures forall i :: 0 <= i < |lines| ==> !IsBlank(lines[i]) && NoneIn(lines[i], Newline)
  {
    var parts := Split(text, Newline);
    assert forall x :: x in KeepNonBlank(parts) ==> NoneIn(x, Newline);
    KeepNonBlank(parts)
  }

  /** A text whose lines are all non-blank is shown exactly: joining the shown lines gives it back. */
  lemma TextLinesRoundTrip(text: string)
    requires forall i :: 0 <= i < |Split(text, Newline)| ==> !IsBlank(Split(text, Newline)[i])
    ensures Join(TextLines(text), '\n') == text
  {
    KeepNonBlankAll(Split(text, Newline));
    JoinSplit(text, '\n');
  }

  /** An empty or whitespace-only text shows no line. */
  lemma BlankTextShowsNothing(text: string)
    requires IsBlank(text)
    ensures TextLines(text) == []
  {
    var parts := Split(text, Newline);
    JoinSplit(text, '\n');
    forall x | x in parts ensures IsBlank(x) {
      BlankPart(parts, x, text);
    }
    if |TextLines(text)| > 0 {
      assert TextLines(text)[0] in KeepNonBlank(parts);
    }
  }

  /** Every piece of a blank text is blank. */
  lemma {:induction false} BlankPart(parts: seq<string>, x: string, text: string)
    requires IsBlank(text) && Join(parts, '\n') == text && x in parts
    ensures IsBlank(x)
    decreases |parts|
  {
    if parts[0] == x {
      if |parts| > 1 {
        assert Join(parts, '\n') == parts[0] + ['\n'] + Join(parts[1..], '\n');
      }
      forall i | 0 <= i < |x| ensures IsJsWhitespace(x[i]) {
        assert text[i] == x[i];
      }
    } else {
      var rest := Join(parts[1..], '\n');
      assert text == parts[0] + ['\n'] + rest;
      assert IsBlank(rest) by {
        forall i | 0 <= i < |rest| ensures IsJsWhitespace(rest[i]) {
          assert rest[i] == text[|parts[0]| + 1 + i];
        }
      }
      BlankPart(parts[1..], x, rest);
    }
  }

  function LinesOf(kind: LineType, texts: seq<string>): (lines: seq<Line>)
    ensures |lines| == |texts|
    ensures forall i :: 0 <= i < |texts| ==> lines[i] == Line(kind, texts[i])
  {
    seq(|texts|, i requires 0 <= i < |texts| => Line(kind, texts[i]))
  }

  /** What the runner sends back: a result record, or a rejection with its `message` and its string form. */
  datatype RunnerReply =
    | Replied(success: bool, output: string, error: string, executionTime: nat, exitCode: int)
    | Rejected(message: string, text: string)

  /** The request `executeInDocker` sends to the runner. */
  datatype RunRequest = RunRequest(filePath: string, workspacePath: string, language: string)

  const NoProjectText: string := "Aucun projet ouvert. Ouvrez un dossier d'abord."

  /**
   * The name shown for a path, `split(/[/\\]/).pop() || filePath`: the last
   * segment with its directories stripped, or the whole path when that
   * segment is empty (a path ending in a separator).
   */
  function FileName(filePath: string): (name: string)
    ensures EndsWith(filePath, name)
    ensures name != "" <==> filePath != ""
    ensures LastPathSegment(filePath) != "" ==>
      && NoneIn(name, PathSeparators)
      && (|name| == |filePath| || filePath[|filePath| - |name| - 1] in PathSeparators)
    ensures LastPathSegment(filePath) == "" ==> name == filePath
  {
    var seg := LastPathSegment(filePath);
    if seg == "" then filePath else seg
  }

  /** A file below any directory is shown by its own name. */
  lemma FileNameOfChild(dir: string, sep: char, base: string)
    requires sep in PathSeparators
    requires base != "" && NoneIn(base, PathSeparators)
    ensures FileName(dir + [sep] + base) == base
  {
    LastPathSegmentOfChild(dir, sep, base);
  }

  /** A path ending in a separator is shown whole. */
  lemma FileNameOfTrailingSeparator(filePath: string)
    requires |filePath| > 0 && filePath[|filePath| - 1] in PathSeparators
    ensures FileName(filePath) == filePath
  {
  }

  function StartedText(filePath: string, language: string): string {
    "▶ Exécution de " + FileName(filePath) + " (" + language + ")..."
  }

  function FinishedText(executionTime: nat, exitCode: int): string {
    "✓ Exécution terminée en " + NatToString(executionTime) + "ms (code: " + IntToString(exitCode) + ")"
  }

  const UnknownErrorText: string := "Erreur inconnue"

  function FailedText(reason: string): string {
    "✗ Erreur: " + reason
  }

  /**
   * The lines added for the runner's reply: on success the output lines, the
   * error-stream lines, then a completion line when a duration was reported;
   * otherwise one error line.
   */
  function ReplyLines(reply: RunnerReply): (lines: seq<Line>)
    ensures reply.Replied? && reply.success ==>
      var out := TextLines(reply.output);
      var err := TextLines(reply.error);
      && |lines| == |out| + |err| + (if reply.executionTime > 0 then 1 else 0)
      && lines[..|out|] == LinesOf(OutputLine, out)
      && lines[|out|..|out| + |err|] == LinesOf(ErrorLine, err)
    ensures (reply.Replied? && reply.success && reply.executionTime > 0) <==> (|lines| > 0 && lines[|lines| - 1].kind == SuccessLine)
    ensures reply.Replied? && reply.success && reply.executionTime > 0 ==>
      lines[|lines| - 1] == Line(SuccessLine, FinishedText(reply.executionTime, reply.exitCode))
    ensures reply.Replied? && !reply.success ==>
      lines == [Line(ErrorLine, FailedText(if reply.error != "" then reply.error else UnknownErrorText))]
    ensures reply.Rejected? ==>
      lines == [Line(ErrorLine, FailedText(if reply.message != "" then reply.message else reply.text))]
  {
    match reply
    case Replied(success, output, error, executionTime, exitCode) =>
      if success then
        var out := LinesOf(OutputLine, TextLines(output));
        var err := LinesOf(ErrorLine, TextLines(error));
        var done := if executionTime > 0 then [Line(SuccessLine, FinishedText(executionTime, exitCode))] else [];
        assert (out + err + done)[..|out|] == out;
        assert (out + err + done)[|out|..|out| + |err|] == err;
        out + err + done
      else [Line(ErrorLine, FailedText(if error != "" then error else UnknownErrorText))]
    case Rejected(message, text) =>
      [Line(ErrorLine, FailedText(if message != "" then message else text))]
  }

  function Contents(lines: seq<Line>): (texts: seq<string>)
    ensures |texts| == |lines|
    ensures forall i :: 0 <= i < |lines| ==> texts[i] == lines[i].content
  {
    seq(|lines|, i requires 0 <= i < |lines| => lines[i].content)
  }

  /**
   * Nothing of a successful run's output is lost or altered when none of its
   * lines is blank: the output lines shown, joined by newlines, are the output.
   */
  lemma ReplyShowsWholeOutput(reply: RunnerReply)
    requires reply.Replied? && reply.success
    requires forall i :: 0 <= i < |Split(reply.output, Newline)| ==> !IsBlank(Split(reply.output, Newline)[i])
    ensures Join(Contents(ReplyLines(reply)[..|TextLines(reply.output)|]), '\n') == reply.output
  {
    var out := TextLines(reply.output);
    assert Contents(ReplyLines(reply)[..|out|]) == out;
    TextLinesRoundTrip(reply.output);
  }

  /** A failed run or a rejection shows one error line naming a reason that is never empty when the runner gave one. */
  lemma FailureNamesReason(reply: RunnerReply)
    requires !(reply.Replied? && reply.success)
    ensures |ReplyLines(reply)| == 1 && ReplyLines(reply)[0].kind == ErrorLine
    ensures reply.Replied? && reply.error != "" ==> EndsWith(ReplyLines(reply)[0].content, reply.error)
    ensures reply.Rejected? && reply.message != "" ==> EndsWith(ReplyLines(reply)[0].content, reply.message)
  {
    var line := ReplyLines(reply)[0].content;
    if reply.Replied? && reply.error != "" {
      assert line == "✗ Erreur: " + reply.error;
      assert line[|line| - |reply.error|..] == reply.error;
    }
    if reply.Rejected? && reply.message != "" {
      assert line == "✗ Erreur: " + reply.message;
      assert line[|line| - |reply.message|..] == reply.message;
    }
  }

  /**
   * `executeInDocker(filePath, language)`: with no project open, one error line
   * and no request; otherwise a start line, the request, and the reply's lines.
   */
  function ExecuteInDocker(s: Session, filePath: string, language: string, reply: RunnerReply): (r: (Session, Option<RunRequest>))
    ensures r.1.None? <==> s.workspacePath == ""
    ensures r.1.Some? ==> r.1.value == RunRequest(filePath, s.workspacePath, language)
    ensures s.workspacePath == "" ==> r.0.lines == s.lines + [Line(ErrorLine, NoProjectText)]
    ensures s.workspacePath != "" ==> r.0.lines == s.lines + [Line(SystemLine, StartedText(filePath, language))] + ReplyLines(reply)
    ensures r.0 == s.(lines := r.0.lines)
  {
    if s.workspacePath == "" then (s.(lines := s.lines + [Line(ErrorLine, NoProjectText)]), None)
    else
      var lines := s.lines + [Line(SystemLine, StartedText(filePath, language))] + ReplyLines(reply);
      (s.(lines := lines), Some(RunRequest(filePath, s.workspacePath, language)))
  }

  // ---------------------------------------------------------------------------
  // executeCommand
  // ---------------------------------------------------------------------------

  /** The terminal's own extension table for `run`. */
  function LangMap(ext: string): (language: Option<string>)
    ensures language.Some? ==> language.value in Languages.SupportedLanguages
  {
    match ext
    case "py" => Some("python")
    case "js" => Some("javascript")
    case "ts" => Some("typescript")
    case "java" => Some("java")
    case "go" => Some("go")
    case "rs" => Some("rust")
    case "rb" => Some("ruby")
    case "php" => Some("php")
    case "c" => Some("c")
    case "cpp" => Some("cpp")
    case _ => None
  }

  /** Where the terminal's table has an entry, the editor's table agrees with it. */
  lemma LangMapAgreesWithEditor(ext: string)
    requires LangMap(ext).Some?
    ensures FileSystem.ExtensionLanguage(ext) == LangMap(ext)
  {
  }

  /** Every language `run` can request has a runner configuration. */
  lemma RunLanguagesAreRunnable(ext: string)
    requires LangMap(ext).Some?
    ensures Languages.LanguageConfig(LangMap(ext).value).Some?
  {
  }

  /** The extension `run` looks up: the text after the last `.`, lowercased (the whole name when there is no dot). */
  function RunExtension(file: string): (ext: string)
    ensures NoneIn(ext, Dot) && |ext| <= |file|
  {
    var seg := LastSegment(file, Dot);
    assert NoneIn(Lower(seg), Dot) by {
      forall j | 0 <= j < |seg| ensures Lower(seg)[j] !in Dot {
        assert Lower(seg)[j] == LowerChar(seg[j]);
      }
    }
    Lower(seg)
  }

  lemma DotlessFileIsItsOwnExtension(file: string)
    requires NoneIn(file, Dot)
    ensures RunExtension(file) == Lower(file)
  {
    assert file[|file| - |file|..] == file;
    LastSegmentUnique(file, Dot, LastSegment(file, Dot), file);
  }

  /** The path handed to the runner: under the project when one is open. */
  function RunPath(workspacePath: string, file: string): (p: string)
    ensures workspacePath == "" ==> p == file
    ensures workspacePath != "" ==> StartsWith(p, workspacePath + "/") && EndsWith(p, file)
  {
    if workspacePath != "" then workspacePath + "/" + file else file
  }

  /** What a command led to. */
  datatype Dispatch =
    | Ignored
    | SentToShell(shellId: string, data: string)
    | Cleared
    | HelpShown
    | ShellPickerShown
    | RunRequested(filePath: string, language: string)
    | UnknownExtension(ext: string)
    | UnknownCommand

  const ClearedText: string := "🐳 Terminal effacé"

  const HelpLines: seq<Line> := [
    Line(SystemLine, "Commandes disponibles:"),
    Line(OutputLine, "  run <file>     - Exécuter un fichier dans Docker"),
    Line(OutputLine, "  shell          - Ouvrir un shell Docker interactif"),
    Line(OutputLine, "  clear          - Effacer le terminal"),
    Line(OutputLine, "  help           - Afficher cette aide"),
    Line(OutputLine, ""),
    Line(SystemLine, "Ou utilisez le bouton \"Exécuter\" dans l'éditeur (F5)")
  ]

  function InputEcho(cmd: string): Line {
    Line(InputLine, "$ " + cmd)
  }

  /** The file named by `run <file>`: the command without its first `run `, trimmed. */
  function RunTarget(cmd: string): string
    requires StartsWith(cmd, "run ")
  {
    Trim(ReplaceFirst(cmd, "run ", ""))
  }

  lemma RunTargetIsTrimmedRest(cmd: string)
    requires StartsWith(cmd, "run ")
    ensures RunTarget(cmd) == Trim(cmd[4..])
  {
    assert "" + cmd[4..] == cmd[4..];
  }

  /** `run <file>`: a mapped extension asks for a run; any other is reported. */
  function RunCommand(s: Session, cmd: string): (r: (Session, Dispatch))
    requires StartsWith(cmd, "run ")
    ensures r.1.RunRequested? || r.1.UnknownExtension?
    ensures r.1.RunRequested? <==> LangMap(RunExtension(Trim(cmd[4..]))).Some?
    ensures r.1.RunRequested? ==>
      && r.1.language in Languages.SupportedLanguages
      && r.1.language == LangMap(RunExtension(Trim(cmd[4..]))).value
      && r.1.filePath == RunPath(s.workspacePath, Trim(cmd[4..]))
      && r.0 == s.(lines := s.lines + [InputEcho(cmd)])
    ensures r.1.UnknownExtension? ==>
      && r.1.ext == RunExtension(Trim(cmd[4..]))
      && r.0 == s.(lines := s.lines + [InputEcho(cmd), Line(ErrorLine, "Extension non reconnue: ." + r.1.ext)])
  {
    RunTargetIsTrimmedRest(cmd);
    var file := RunTarget(cmd);
    var ext := RunExtension(file);
    match LangMap(ext)
    case None =>
      (s.(lines := s.lines + [InputEcho(cmd), Line(ErrorLine, "Extension non reconnue: ." + ext)]), UnknownExtension(ext))
    case Some(language) =>
      (s.(lines := s.lines + [InputEcho(cmd)]), RunRequested(RunPath(s.workspacePath, file), language))
  }

  /** No mapped language is `plaintext`, so `langMap[ext] || 'plaintext'` is `plaintext` exactly when `ext` is unmapped. */
  lemma LangMapNeverPlaintext(ext: string)
    ensures LangMap(ext).GetOr("plaintext") == "plaintext" <==> LangMap(ext).None?
  {
  }

  const UnknownCommandSuffix: string := ". Tapez \"help\" pour l'aide."

  /** The built-ins, for a command the shell does not take. */
  function Interpret(s: Session, cmd: string): (r: (Session, Dispatch))
    ensures r.1 == Cleared <==> cmd == "clear"
    ensures r.1 == HelpShown <==> cmd == "help"
    ensures r.1 == ShellPickerShown <==> cmd == "shell"
    ensures r.1 == Cleared ==> r.0 == s.(lines := [Line(SystemLine, ClearedText)])
    ensures r.1 == HelpShown ==> r.0 == s.(lines := s.lines + [InputEcho(cmd)] + HelpLines)
    ensures r.1 == ShellPickerShown ==> r.0 == s.(lines := s.lines + [InputEcho(cmd)], showShellPicker := true)
    ensures r.1.RunRequested? || r.1.UnknownExtension? <==> StartsWith(cmd, "run ")
    ensures StartsWith(cmd, "run ") ==> r == RunCommand(s, cmd)
    ensures r.1 == UnknownCommand <==> !StartsWith(cmd, "run ") && cmd != "clear" && cmd != "help" && cmd != "shell"
    ensures r.1 == UnknownCommand ==>
      r.0 == s.(lines := s.lines + [InputEcho(cmd), Line(ErrorLine, "Commande non reconnue: " + cmd + UnknownCommandSuffix)])
    ensures r.1 != Ignored && !r.1.SentToShell?
  {
    var echoed := s.lines + [InputEcho(cmd)];
    assert cmd in {"clear", "help", "shell"} ==> !StartsWith(cmd, "run ") by {
      if cmd in {"clear", "help", "shell"} {
        assert cmd[0] != 'r';
      }
    }
    if cmd == "clear" then (s.(lines := [Line(SystemLine, ClearedText)]), Cleared)
    else if cmd == "help" then (s.(lines := echoed + HelpLines), HelpShown)
    else if cmd == "shell" then (s.(lines := echoed, showShellPicker := true), ShellPickerShown)
    else if StartsWith(cmd, "run ") then RunCommand(s, cmd)
    else (s.(lines := echoed + [Line(ErrorLine, "Commande non reconnue: " + cmd + UnknownCommandSuffix)]), UnknownCommand)
  }

  /**
   * `executeCommand(cmd)`: a blank command does nothing; with the shell tab of
   * an active shell every command goes to the shell; otherwise the command is
   * echoed and the built-ins `clear`, `help`, `shell` and `run <file>` are
   * interpreted, anything else being reported as unknown.
   */
  function ExecuteCommand(s: Session, cmd: string): (r: (Session, Dispatch))
    ensures IsBlank(cmd) ==> r == (s, Ignored)
    ensures r.1 == Ignored <==> IsBlank(cmd)
    ensures r.1.SentToShell? <==> !IsBlank(cmd) && s.shellActive && s.activeTab == ShellTab
    ensures r.1.SentToShell? ==> r.1 == SentToShell(s.shellId, cmd) && r.0 == s.(lines := s.lines + [InputEcho(cmd)])
    ensures !IsBlank(cmd) && !(s.shellActive && s.activeTab == ShellTab) ==> r == Interpret(s, cmd)
  {
    if IsBlank(cmd) then (s, Ignored)
    else if s.shellActive && s.activeTab == ShellTab then
      (s.(lines := s.lines + [InputEcho(cmd)]), SentToShell(s.shellId, cmd))
    else Interpret(s, cmd)
  }

  /** Blank input is exactly what `cmd.trim()` finds empty. */
  lemma IgnoredIffTrimEmpty(s: Session, cmd: string)
    ensures ExecuteCommand(s, cmd).1 == Ignored <==> Trim(cmd) == ""
  {
    TrimEmptyIffBlank(cmd);
  }

  /** Only `clear` forgets earlier lines; every other command keeps them as a prefix. */
  lemma OnlyClearForgets(s: Session, cmd: string)
    requires ExecuteCommand(s, cmd).1 != Cleared
    ensures s.lines <= ExecuteCommand(s, cmd).0.lines
  {
    var r := ExecuteCommand(s, cmd);
    if r.1 != Ignored {
      assert r.0.lines[..|s.lines|] == s.lines;
    }
  }

  /** A command typed and, when it asks for a run, executed with the runner's reply. */
  function Submit(s: Session, cmd: string, reply: RunnerReply): (r: (Session, Option<RunRequest>))
  {
    var (s1, d) := ExecuteCommand(s, cmd);
    if d.RunRequested? then ExecuteInDocker(s1, d.filePath, d.language, reply) else (s1, None)
  }

  /** The runner is called only for a `run` of a mapped extension in an open project, with the language and path the command names. */
  lemma SubmitCallsRunnerOnlyForRuns(s: Session, cmd: string, reply: RunnerReply)
    ensures var (_, request) := Submit(s, cmd, reply);
      request.Some? <==>
        && !IsBlank(cmd) && !(s.shellActive && s.activeTab == ShellTab)
        && StartsWith(cmd, "run ") && LangMap(RunExtension(Trim(cmd[4..]))).Some?
        && s.workspacePath != ""
    ensures var (_, request) := Submit(s, cmd, reply);
      request.Some? ==>
        && request.value.language == LangMap(RunExtension(Trim(cmd[4..]))).value
        && request.value.filePath == s.workspacePath + "/" + Trim(cmd[4..])
  {
    var (s1, d) := ExecuteCommand(s, cmd);
    if !IsBlank(cmd) && !(s.shellActive && s.activeTab == ShellTab) && StartsWith(cmd, "run ") {
      assert cmd != "clear" && cmd != "help" && cmd != "shell" by {
        assert cmd[..4] == "run ";
      }
    }
  }
}
