/**
 * `InteractiveShell`: one long-lived TTY container running a language REPL
 * or `/bin/sh`. The shell's state is the container it owns, whether an
 * attached stream exists and the `isRunning` flag; every Docker call is an
 * input outcome, and what the shell emits is returned as a list of events.
 */
module InteractiveShell {
  import opened Wrappers
  import opened Strings
  import Languages

  // ---------------------------------------------------------------------------
  // Shell profiles
  // ---------------------------------------------------------------------------

  datatype ShellProfile = ShellProfile(image: string, shell: seq<string>)

  const DefaultProfile: ShellProfile := ShellProfile("alpine:latest", ["/bin/sh"])

  /** `LANGUAGE_SHELLS[key]`. */
  function LanguageShell(key: string): Option<ShellProfile> {
    match key
    case "python" => Some(ShellProfile("python:3.11-slim", ["python"]))
    case "javascript" => Some(ShellProfile("node:20-alpine", ["node"]))
    case "ruby" => Some(ShellProfile("ruby:3.2-slim", ["irb"]))
    case "php" => Some(ShellProfile("php:8.2-cli", ["php", "-a"]))
    case "bash" => Some(DefaultProfile)
    case "default" => Some(DefaultProfile)
    case _ => None
  }

  /** An optional string that JavaScript treats as true: present and not empty. */
  predicate Given(o: Option<string>) {
    o.Some? && o.value != ""
  }

  datatype ShellConfig = ShellConfig(image: string, workspacePath: Option<string>, language: Option<string>)

  /** The profile of the requested language, falling back to `default`. */
  function ProfileFor(language: Option<string>): (p: ShellProfile)
    ensures Given(language) && LanguageShell(language.value).Some? ==> p == LanguageShell(language.value).value
    ensures !(Given(language) && LanguageShell(language.value).Some?) ==> p == DefaultProfile
    ensures |p.shell| > 0 && p.image != ""
  {
    if Given(language) then LanguageShell(language.value).GetOr(DefaultProfile) else DefaultProfile
  }

  /** The four REPL languages run in the same images as the code runner uses for them. */
  lemma ShellImagesMatchRunner(l: Languages.Language)
    requires l in {Languages.Python, Languages.JavaScript, Languages.Ruby, Languages.Php}
    ensures LanguageShell(Languages.Key(l)).Some?
    ensures LanguageShell(Languages.Key(l)).value.image == Languages.Image(l)
  {
  }

  /** The container spec of `start`. */
  datatype ShellSpec = ShellSpec(
    image: string,
    cmd: seq<string>,
    workingDir: string,
    tty: bool,
    openStdin: bool,
    stdinOnce: bool,
    autoRemove: bool,
    binds: Option<seq<string>>)

  /**
   * The spec: an explicit image replaces the profile's image only; the
   * workspace is mounted read-write at `/workspace` and used as working
   * directory only when one is given; the TTY and stdin stay open.
   */
  function BuildShellSpec(config: ShellConfig): (spec: ShellSpec)
    ensures spec.cmd == ProfileFor(config.language).shell
    ensures spec.image == (if config.image != "" then config.image else ProfileFor(config.language).image)
    ensures spec.tty && spec.openStdin && !spec.stdinOnce && spec.autoRemove
    ensures spec.binds.Some? <==> Given(config.workspacePath)
    ensures Given(config.workspacePath) ==>
      spec.binds == Some([config.workspacePath.value + ":/workspace"]) && spec.workingDir == "/workspace"
    ensures !Given(config.workspacePath) ==> spec.workingDir == "/"
  {
    var profile := ProfileFor(config.language);
    var image := if config.image != "" then config.image else profile.image;
    if Given(config.workspacePath) then
      ShellSpec(image, profile.shell, "/workspace", true, true, false, true, Some([config.workspacePath.value + ":/workspace"]))
    else
      ShellSpec(image, profile.shell, "/", true, true, false, true, None)
  }

  /** Overriding the image never changes the command the container runs. */
  lemma ImageOverrideKeepsCommand(config: ShellConfig, image: string)
    ensures BuildShellSpec(config.(image := image)).cmd == BuildShellSpec(config).cmd
    ensures BuildShellSpec(config.(image := image)).workingDir == BuildShellSpec(config).workingDir
    ensures image != "" ==> BuildShellSpec(config.(image := image)).image == image
  {
  }

  // ---------------------------------------------------------------------------
  // The output filter
  // ---------------------------------------------------------------------------

  /** The characters the filter deletes: C0 controls except tab, line feed and carriage return. */
  predicate IsStrippedControl(c: char) {
    c <= '\U{0008}' || c == '\U{000B}' || c == '\U{000C}' || ('\U{000E}' <= c <= '\U{001F}')
  }

  /** `text.replace(/[\x00-\x08\x0B\x0C\x0E-\x1F]/g, '')`. */
  function FilterControl(text: string): (r: string)
    ensures forall i :: 0 <= i < |r| ==> !IsStrippedControl(r[i])
    ensures |r| <= |text|
    decreases |text|
  {
    if |text| == 0 then []
    else (if IsStrippedControl(text[0]) then [] else [text[0]]) + FilterControl(text[1..])
  }

  /** The filter works character by character: it distributes over concatenation. */
  lemma {:induction false} FilterControlAppend(a: string, b: string)
    ensures FilterControl(a + b) == FilterControl(a) + FilterControl(b)
    decreases |a|
  {
    if |a| == 0 {
      assert a + b == b;
    } else {
      assert (a + b)[0] == a[0];
      assert (a + b)[1..] == a[1..] + b;
      FilterControlAppend(a[1..], b);
    }
  }

  /** Text without stripped controls passes unchanged; in particular the filter is idempotent. */
  lemma {:induction false} FilterControlKeepsClean(text: string)
    requires forall i :: 0 <= i < |text| ==> !IsStrippedControl(text[i])
    ensures FilterControl(text) == text
    decreases |text|
  {
    if |text| > 0 {
      FilterControlKeepsClean(text[1..]);
      assert text == [text[0]] + text[1..];
    }
  }

  lemma FilterControlIdempotent(text: string)
    ensures FilterControl(FilterControl(text)) == FilterControl(text)
  {
    FilterControlKeepsClean(FilterControl(text));
  }

  /** Escape is deleted; tab, line feed and carriage return are kept. */
  lemma FilterControlExamples()
    ensures FilterControl(['\U{001B}']) == []
    ensures FilterControl(['\t', '\n', '\r']) == ['\t', '\n', '\r']
  {
    FilterControlKeepsClean(['\t', '\n', '\r']);
  }

  /** A character that is neither deleted by the filter nor whitespace. */
  predicate Visible(c: char) {
    !IsStrippedControl(c) && !IsJsWhitespace(c)
  }

  /** The filtered text is blank exactly when the raw text has no visible character. */
  lemma {:induction false} FilteredBlankIff(text: string)
    ensures IsBlank(FilterControl(text)) <==> forall i :: 0 <= i < |text| ==> !Visible(text[i])
    decreases |text|
  {
    if |text| > 0 {
      FilteredBlankIff(text[1..]);
      var head := if IsStrippedControl(text[0]) then [] else [text[0]];
      assert FilterControl(text) == head + FilterControl(text[1..]);
      BlankAppend(head, FilterControl(text[1..]));
      NoneVisibleCons(text);
    }
  }

  /** No character is visible exactly when the first is not and none of the rest is. */
  lemma NoneVisibleCons(text: string)
    requires |text| > 0
    ensures (forall i :: 0 <= i < |text| ==> !Visible(text[i])) <==>
      !Visible(text[0]) && forall i :: 0 <= i < |text[1..]| ==> !Visible(text[1..][i])
  {
    assert forall i :: 1 <= i < |text| ==> text[i] == text[1..][i - 1];
  }

  // ---------------------------------------------------------------------------
  // The shell's state and events
  // ---------------------------------------------------------------------------

  datatype Shell = Shell(container: Option<string>, containerId: Option<string>, streamAttached: bool, running: bool)

  const NewShell: Shell := Shell(None, None, false, false)

  datatype MessageType = Output | Error | System

  datatype ShellEvent = Message(kind: MessageType, data: string) | Close

  const ReadyText: string := "✓ Shell prêt. Tapez vos commandes."
  const ClosedText: string := "🔌 Shell fermé"

  function StartingText(image: string): string {
    "🐳 Démarrage du shell interactif (" + image + ")..."
  }

  function PullingText(image: string): string {
    "📥 Téléchargement de l'image " + image + "..."
  }

  function Failure(message: string): ShellEvent {
    Message(Error, "Erreur: " + message)
  }

  /** The outcome of one awaited Docker call. */
  datatype Outcome = Ok | Failed(message: string)

  datatype Creation = CreatedContainer(id: string) | CreateFailed(message: string)

  /** How `inspect`, `pull`, `createContainer`, `start` and `attach` end. */
  datatype StartEnvironment = StartEnvironment(inspect: Outcome, pull: Outcome, create: Creation, start: Outcome, attach: Outcome)

  /** The shell afterwards, `start`'s answer, the events, and the spec if a container was requested. */
  datatype Started = Started(shell: Shell, ok: bool, events: seq<ShellEvent>, spec: Option<ShellSpec>)

  predicate ImagePresent(env: StartEnvironment) {
    env.inspect.Ok? || env.pull.Ok?
  }

  predicate StartsCleanly(env: StartEnvironment) {
    ImagePresent(env) && env.create.CreatedContainer? && env.start.Ok? && env.attach.Ok?
  }

  /**
   * `start(config)`: announce, pull the image when `inspect` fails, create the
   * container, start it (the shell is running from here), attach, and report
   * ready. The first failure is reported as an error and answers false.
   */
  function Start(s: Shell, config: ShellConfig, env: StartEnvironment): (r: Started)
    ensures r.ok <==> StartsCleanly(env)
    ensures r.ok ==> r.shell.running && r.shell.streamAttached && r.shell.container == Some(env.create.id)
    ensures |r.events| > 0 && r.events[0] == Message(System, StartingText(BuildShellSpec(config).image))
    ensures r.ok ==> r.events[|r.events| - 1] == Message(System, ReadyText)
    ensures !r.ok ==> r.events[|r.events| - 1].Message? && r.events[|r.events| - 1].kind == Error
    ensures Close !in r.events
    ensures r.spec.Some? <==> ImagePresent(env)
    ensures r.spec.Some? ==> r.spec.value == BuildShellSpec(config)
    ensures !ImagePresent(env) || env.create.CreateFailed? ==> r.shell == s
  {
    var spec := BuildShellSpec(config);
    var opening := [Message(System, StartingText(spec.image))];
    var head := if env.inspect.Ok? then opening else opening + [Message(System, PullingText(spec.image))];
    if !ImagePresent(env) then Started(s, false, head + [Failure(env.pull.message)], None)
    else
      match env.create
      case CreateFailed(m) => Started(s, false, head + [Failure(m)], Some(spec))
      case CreatedContainer(id) =>
        var created := s.(container := Some(id), containerId := Some(id));
        if env.start.Failed? then Started(created, false, head + [Failure(env.start.message)], Some(spec))
        else
          var running := created.(running := true);
          if env.attach.Failed? then Started(running, false, head + [Failure(env.attach.message)], Some(spec))
          else Started(running.(streamAttached := true), true, head + [Message(System, ReadyText)], Some(spec))
  }

  /**
   * A failed attach happens after the running flag is set: `start` answers
   * false, yet the shell reports itself active and keeps its container.
   */
  lemma FailedAttachLeavesShellActive(s: Shell, config: ShellConfig, env: StartEnvironment)
    requires ImagePresent(env) && env.create.CreatedContainer? && env.start.Ok? && env.attach.Failed?
    ensures !Start(s, config, env).ok
    ensures IsActive(Start(s, config, env).shell)
    ensures Start(s, config, env).shell.container.Some?
  {
  }

  /** What the attached stream and the container's wait deliver after `start`. */
  datatype StreamEvent = Data(text: string) | End | StreamError(message: string) | WaitResolved | WaitRejected

  /**
   * The handlers installed by `start`: data is filtered and forwarded when not
   * blank; the end of the stream and a resolved wait stop the shell and emit
   * `close`; a rejected wait only stops it.
   */
  function OnStreamEvent(s: Shell, e: StreamEvent): (r: (Shell, seq<ShellEvent>))
    ensures e.Data? ==> r.0 == s && (r.1 != [] <==> exists i :: 0 <= i < |e.text| && Visible(e.text[i]))
    ensures e.Data? && r.1 != [] ==> r.1 == [Message(Output, FilterControl(e.text))]
    ensures e.StreamError? ==> r == (s, [Message(Error, e.message)])
    ensures e.End? || e.WaitResolved? || e.WaitRejected? ==> r.0 == s.(running := false)
    ensures Close in r.1 <==> e.End? || e.WaitResolved?
  {
    match e
    case Data(text) =>
      var clean := FilterControl(text);
      FilteredBlankIff(text);
      TrimEmptyIffBlank(clean);
      if Trim(clean) != "" then (s, [Message(Output, clean)]) else (s, [])
    case End => (s.(running := false), [Message(System, ClosedText), Close])
    case StreamError(message) => (s, [Message(Error, message)])
    case WaitResolved => (s.(running := false), [Close])
    case WaitRejected => (s.(running := false), [])
  }

  // ---------------------------------------------------------------------------
  // write, resize, stop
  // ---------------------------------------------------------------------------

  /** `isActive()`. */
  predicate IsActive(s: Shell) {
    s.running
  }

  /** `write(data)`: the data sent to the stream, if any. */
  function Write(s: Shell, data: string): (sent: Option<string>)
    ensures sent.Some? <==> s.streamAttached && IsActive(s)
    ensures sent.Some? ==> sent.value == data
  {
    if s.streamAttached && s.running then Some(data) else None
  }

  function WriteLine(s: Shell, data: string): Option<string> {
    Write(s, data + "\n")
  }

  /** `writeLine(d)` sends `d` followed by a line feed, under the same guard as `write`. */
  lemma WriteLineAddsNewline(s: Shell, data: string)
    ensures WriteLine(s, data).Some? <==> Write(s, data).Some?
    ensures WriteLine(s, data).Some? ==> WriteLine(s, data).value == Write(s, data).value + "\n"
  {
  }

  /** `resize(cols, rows)`: the resize request sent, if any; its failure changes nothing. */
  function Resize(s: Shell, cols: int, rows: int): (request: Option<(int, int)>)
    ensures request.Some? <==> s.container.Some? && IsActive(s)
    ensures request.Some? ==> request.value == (cols, rows)
  {
    if s.container.Some? && s.running then Some((cols, rows)) else None
  }

  datatype StopCall = EndStream | StopContainer(id: string, timeoutSeconds: nat) | RemoveContainer(id: string, force: bool)

  /**
   * `stop()`: clear the running flag, end and drop the stream, stop and
   * force-remove the container (failures ignored), drop it, emit `close`.
   * The container id stays readable.
   */
  function Stop(s: Shell): (r: (Shell, seq<StopCall>, seq<ShellEvent>))
    ensures !IsActive(r.0) && !r.0.streamAttached && r.0.container == None
    ensures r.0.containerId == s.containerId
    ensures r.2 == [Close]
    ensures (EndStream in r.1) <==> s.streamAttached
    ensures s.container.Some? ==> |r.1| >= 2 && r.1[|r.1| - 2..] == [StopContainer(s.container.value, 1), RemoveContainer(s.container.value, true)]
    ensures s.container.None? ==> forall c :: c in r.1 ==> c == EndStream
  {
    var ending := if s.streamAttached then [EndStream] else [];
    var removing := match s.container
      case Some(id) => [StopContainer(id, 1), RemoveContainer(id, true)]
      case None => [];
    (Shell(None, s.containerId, false, false), ending + removing, [Close])
  }

  /** A second `stop` calls nothing in Docker and leaves the shell as the first left it. */
  lemma StopIdempotent(s: Shell)
    ensures Stop(Stop(s).0).0 == Stop(s).0
    ensures Stop(Stop(s).0).1 == []
  {
  }

  /** After `stop`, or after the stream ends, input and resizes are dropped. */
  lemma StoppedShellIgnoresInput(s: Shell, data: string, cols: int, rows: int)
    ensures Write(Stop(s).0, data) == None && Resize(Stop(s).0, cols, rows) == None
    ensures Write(OnStreamEvent(s, End).0, data) == None
    ensures Write(OnStreamEvent(s, WaitResolved).0, data) == None
  {
  }
}
