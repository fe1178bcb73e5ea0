/**
 * `CodeRunner.runCode`: run one source file in a throw-away, network-less
 * container of its language's image and collect what it printed. Every Docker
 * call is an input outcome of `RunEnvironment`; the run records the calls it
 * makes and the progress messages it reports.
 */
module CodeRunner {
  import opened Wrappers
  import opened Strings
  import opened Languages
  import opened Images
  import Demux

  // ---------------------------------------------------------------------------
  // Image availability
  // ---------------------------------------------------------------------------

  /** `imageManager.listImages()`: the listing, or a failure. */
  datatype ImageListing = ListingFailed | Listed(images: seq<ImageSummary>)


  /** The repository part of an image reference: `name.split(':')[0]`. */
  function Repository(name: string): string {
    FirstSegment(name, Colon)
  }

  /** A local tag counts for `name` when it is `name` or merely starts with its repository. */
  predicate TagMatches(tag: string, name: string) {
    tag == name || StartsWith(tag, Repository(name))
  }

  /**
   * `isImageAvailable(name)`: some tag of some listed image matches; a failed
   * listing reads as "not available".
   */
  function IsImageAvailable(name: string, listing: ImageListing): (available: bool)
    ensures available <==> listing.Listed? && exists t :: t in AllTags(listing.images) && TagMatches(t, name)
  {
    match listing
    case ListingFailed => false
    case Listed(images) =>
      exists i :: 0 <= i < |images| && images[i].repoTags.Some? && exists t :: t in images[i].repoTags.value && TagMatches(t, name)
  }

  /** The repository of a reference is the text before its first colon. */
  lemma RepositoryBeforeColon(name: string, k: nat)
    requires k < |name| && name[k] == ':' && NoneIn(name[..k], Colon)
    ensures Repository(name) == name[..k]
  {
  }

  /**
   * The match is loose: a listing that holds only `repo:v2` makes `repo:v1`
   * count as available, although that tag is not present (`python:3.12`
   * stands in for `python:3.11-slim`).
   */
  lemma OtherTagOfRepositoryCounts(repo: string, v1: string, v2: string)
    requires NoneIn(repo, Colon) && v1 != v2
    ensures IsImageAvailable(repo + ":" + v1, Listed([ImageSummary(Some([repo + ":" + v2]))]))
    ensures repo + ":" + v1 !in AllTags([ImageSummary(Some([repo + ":" + v2]))])
  {
    var name, tag := repo + ":" + v1, repo + ":" + v2;
    assert name[..|repo|] == repo && tag[..|repo|] == repo;
    RepositoryBeforeColon(name, |repo|);
    assert TagMatches(tag, name);
    SingleImageTags(tag);
    assert name != tag by {
      assert name[|repo| + 1..] == v1 && tag[|repo| + 1..] == v2;
    }
  }

  // ---------------------------------------------------------------------------
  // ensureImage
  // ---------------------------------------------------------------------------

  datatype PullOutcome = PullSucceeded | PullFailed

  /** What `runCode` passes to `onProgress`. */
  datatype Progress =
    | CheckingImage(image: string)
    | Downloading(image: string)
    | ImageReady(image: string)
    | CreatingContainer
    | Executing

  function ProgressText(p: Progress): string {
    match p
    case CheckingImage(image) => "Vérification de l'image " + image + "..."
    case Downloading(image) => "Téléchargement de l'image " + image + "..."
    case ImageReady(image) => "Image " + image + " prête"
    case CreatingContainer => "Création du conteneur..."
    case Executing => "Exécution du code..."
  }

  /** The answer of `ensureImage`, whether it pulled, and what it reported. */
  datatype Ensured = Ensured(ready: bool, pulled: bool, progress: seq<Progress>)

  /**
   * `ensureImage(image)`: an available image is ready at once; otherwise the
   * image is pulled, and it is ready exactly when the pull succeeds.
   */
  function EnsureImage(image: string, listing: ImageListing, pull: PullOutcome): (r: Ensured)
    ensures r.ready <==> IsImageAvailable(image, listing) || pull == PullSucceeded
    ensures r.pulled <==> !IsImageAvailable(image, listing)
    ensures r.progress == [] <==> !r.pulled
    ensures r.pulled ==> r.progress[0] == Downloading(image)
    ensures r.pulled && r.ready ==> r.progress == [Downloading(image), ImageReady(image)]
  {
    if IsImageAvailable(image, listing) then Ensured(true, false, [])
    else
      match pull
      case PullSucceeded => Ensured(true, true, [Downloading(image), ImageReady(image)])
      case PullFailed => Ensured(false, true, [Downloading(image)])
  }

  // ---------------------------------------------------------------------------
  // The container spec
  // ---------------------------------------------------------------------------

  const MemoryLimit: nat := 256 * 1024 * 1024
  const CpuPeriod: nat := 100000
  const CpuQuota: nat := 50000

  /** The timeout raced against `container.wait()`, in milliseconds. */
  const TimeoutMillis: nat := 30000

  datatype HostConfig = HostConfig(
    binds: seq<string>,
    autoRemove: bool,
    networkMode: string,
    memory: nat,
    memorySwap: nat,
    cpuPeriod: nat,
    cpuQuota: nat)

  datatype RunSpec = RunSpec(
    image: string,
    name: string,
    cmd: seq<string>,
    workingDir: string,
    hostConfig: HostConfig,
    tty: bool,
    attachStdout: bool,
    attachStderr: bool)

  /** The file's path inside the container: `/workspace/` + the relative path, `\` turned into `/`. */
  function ContainerFilePath(relativePath: string): (p: string)
    ensures StartsWith(p, "/workspace/")
    ensures p[11..] == ReplaceChar(relativePath, '\\', '/')
    ensures NoneIn(p, {'\\'})
  {
    var p := "/workspace/" + ReplaceChar(relativePath, '\\', '/');
    assert p[11..] == ReplaceChar(relativePath, '\\', '/');
    p
  }

  /**
   * The sandbox every run gets: the workspace mounted read-only, no network,
   * 256 MiB of memory and no extra swap, half a CPU, removed on exit, no TTY,
   * both output streams attached.
   */
  predicate Sandboxed(spec: RunSpec, workspacePath: string) {
    && spec.workingDir == "/workspace"
    && spec.hostConfig.binds == [workspacePath + ":/workspace:ro"]
    && spec.hostConfig.autoRemove
    && spec.hostConfig.networkMode == "none"
    && spec.hostConfig.memory == spec.hostConfig.memorySwap == MemoryLimit
    && spec.hostConfig.cpuQuota * 2 == spec.hostConfig.cpuPeriod == CpuPeriod
    && !spec.tty && spec.attachStdout && spec.attachStderr
  }

  function BuildRunSpec(l: Language, workspacePath: string, relativePath: string, name: string): (spec: RunSpec)
    ensures Sandboxed(spec, workspacePath)
    ensures spec.image == Image(l) && spec.name == name
    ensures spec.cmd == Command(l, ContainerFilePath(relativePath))
  {
    RunSpec(
      Image(l),
      name,
      Command(l, ContainerFilePath(relativePath)),
      "/workspace",
      HostConfig([workspacePath + ":/workspace:ro"], true, "none", MemoryLimit, MemoryLimit, CpuPeriod, CpuQuota),
      false,
      true,
      true)
  }

  /**
   * The command of an interpreted language ends with the container path of the
   * file; that of a compiled language compiles that path first.
   */
  lemma RunCommandNamesFile(l: Language, workspacePath: string, relativePath: string, name: string)
    ensures var spec := BuildRunSpec(l, workspacePath, relativePath, name);
      var p := "/workspace/" + ReplaceChar(relativePath, '\\', '/');
      && (!Compiles(l) ==> spec.cmd[|spec.cmd| - 1] == p)
      && (Compiles(l) ==> spec.cmd[..2] == ["sh", "-c"] && StartsWith(spec.cmd[2], Compiler(l) + " " + p + " "))
  {
    var spec := BuildRunSpec(l, workspacePath, relativePath, name);
    var p := ContainerFilePath(relativePath);
    assert p == p[..11] + p[11..];
  }

  // ---------------------------------------------------------------------------
  // The result record
  // ---------------------------------------------------------------------------

  /** What `runCode` puts in `error`. */
  datatype RunError =
    | UnsupportedLanguage(language: string)
    | ImageUnavailable(image: string)
    | TimeLimitExceeded
    | Thrown(message: string)
    | UnknownError
    | Stderr(text: seq<Demux.byte>)

  /** The text shown for each error; standard error is shown as it was printed. */
  function ErrorMessage(e: RunError): Option<string> {
    match e
    case UnsupportedLanguage(language) => Some("Langage non supporté: " + language)
    case ImageUnavailable(image) => Some("Impossible de télécharger l'image " + image)
    case TimeLimitExceeded => Some("Exécution interrompue: temps limite dépassé (30s)")
    case Thrown(message) => Some(message)
    case UnknownError => Some("Erreur inconnue")
    case Stderr(_) => None
  }

  datatype ExecutionResult = ExecutionResult(
    success: bool,
    output: seq<Demux.byte>,
    error: Option<RunError>,
    exitCode: Option<int>,
    executionTime: Option<nat>)

  /** How the wait for the container ends: it exits, `wait()` throws, or the 30 s timer fires first. */
  datatype WaitOutcome = Exited(statusCode: int) | WaitThrew(message: string) | TimedOut

  /** The catch block: a `Timeout` rejection, an error without message, or any other error. */
  function CaughtError(message: string): (e: RunError)
    ensures e == TimeLimitExceeded <==> message == "Timeout"
    ensures e == UnknownError <==> message == ""
    ensures !e.Stderr? && !e.UnsupportedLanguage? && !e.ImageUnavailable?
    ensures e.Thrown? ==> ErrorMessage(e) == Some(message)
  {
    if message == "Timeout" then TimeLimitExceeded
    else if message == "" then UnknownError
    else Thrown(message)
  }

  /** A run that threw after the image check: no output, no exit code, but a duration. */
  function Caught(message: string, elapsed: nat): (r: ExecutionResult)
    ensures !r.success && r.output == [] && r.exitCode == None
    ensures r.error == Some(CaughtError(message)) && r.executionTime == Some(elapsed)
  {
    ExecutionResult(false, [], Some(CaughtError(message)), None, Some(elapsed))
  }

  /**
   * The record built once the wait ends: success exactly on status 0, the
   * demultiplexed standard output, standard error when there is any, the status
   * as exit code; a timeout or a failed wait goes through the catch block.
   */
  function AssembleResult(wait: WaitOutcome, chunks: seq<seq<Demux.byte>>, elapsed: nat): (r: ExecutionResult)
    ensures r.success <==> wait == Exited(0)
    ensures r.exitCode.Some? <==> wait.Exited?
    ensures wait.Exited? ==> r.exitCode == Some(wait.statusCode)
    ensures wait.Exited? ==> r.output == Demux.DemuxStream(chunks).stdout
    ensures wait.Exited? ==> (r.error == None <==> Demux.DemuxStream(chunks).stderr == [])
    ensures wait.Exited? && r.error.Some? ==> r.error.value == Stderr(Demux.DemuxStream(chunks).stderr)
    ensures wait == TimedOut ==> r == ExecutionResult(false, [], Some(TimeLimitExceeded), None, Some(elapsed))
    ensures r.executionTime == Some(elapsed)
  {
    match wait
    case Exited(code) =>
      var streams := Demux.DemuxStream(chunks);
      ExecutionResult(code == 0, streams.stdout, if streams.stderr == [] then None else Some(Stderr(streams.stderr)),
        Some(code), Some(elapsed))
    case WaitThrew(message) => Caught(message, elapsed)
    case TimedOut => Caught("Timeout", elapsed)
  }

  // ---------------------------------------------------------------------------
  // runCode
  // ---------------------------------------------------------------------------

  datatype RunConfig = RunConfig(filePath: string, workspacePath: string, language: string)

  /** The outcome of one awaited Docker call: it completes or throws. */
  datatype Step = Completed | Threw(message: string)

  /**
   * Everything a run learns from outside: the listing and pull answers,
   * `path.relative(workspacePath, filePath)`, the container name, how each
   * container call ends, the chunks the attach stream delivers before the wait
   * ends, and the elapsed milliseconds.
   */
  datatype RunEnvironment = RunEnvironment(
    listing: ImageListing,
    pull: PullOutcome,
    relativePath: string,
    containerName: string,
    create: Step,
    attach: Step,
    start: Step,
    chunks: seq<seq<Demux.byte>>,
    wait: WaitOutcome,
    elapsed: nat)

  datatype DockerCall = ListImages | Pull(image: string) | Create(spec: RunSpec) | Attach | Start | Wait

  datatype RunOutcome = RunOutcome(result: ExecutionResult, calls: seq<DockerCall>, progress: seq<Progress>)

  /** The image is ready: the language is known and `ensureImage` answered true. */
  predicate ImageReadyFor(config: RunConfig, env: RunEnvironment) {
    var lang := LanguageConfig(config.language);
    lang.Some? && (IsImageAvailable(Image(lang.value), env.listing) || env.pull == PullSucceeded)
  }

  /** The container was created, attached and started, so the run waits on it. */
  predicate ReachesWait(config: RunConfig, env: RunEnvironment) {
    ImageReadyFor(config, env) && env.create == Completed && env.attach == Completed && env.start == Completed
  }

  /** create, attach, start and wait, with the first throw going to the catch block. */
  function RunContainer(spec: RunSpec, env: RunEnvironment): (r: (ExecutionResult, seq<DockerCall>))
    ensures |r.1| >= 1 && r.1[0] == Create(spec)
    ensures r.0.executionTime == Some(env.elapsed)
    ensures env.create == Completed && env.attach == Completed && env.start == Completed ==>
      r == (AssembleResult(env.wait, env.chunks, env.elapsed), [Create(spec), Attach, Start, Wait])
    ensures !(env.create == Completed && env.attach == Completed && env.start == Completed) ==>
      !r.0.success && r.0.output == [] && r.0.exitCode == None && Wait !in r.1
  {
    match (env.create, env.attach, env.start)
    case (Threw(m), _, _) => (Caught(m, env.elapsed), [Create(spec)])
    case (Completed, Threw(m), _) => (Caught(m, env.elapsed), [Create(spec), Attach])
    case (Completed, Completed, Threw(m)) => (Caught(m, env.elapsed), [Create(spec), Attach, Start])
    case (Completed, Completed, Completed) => (AssembleResult(env.wait, env.chunks, env.elapsed), [Create(spec), Attach, Start, Wait])
  }

  /**
   * `runCode(config)`. An unknown language fails at once, naming the language,
   * without any Docker call; an image that cannot be made ready fails before
   * any container exists; otherwise one sandboxed container runs the file and
   * the result is assembled from how its wait ends.
   */
  function RunCode(config: RunConfig, env: RunEnvironment): (o: RunOutcome)
    ensures LanguageConfig(config.language).None? ==>
      o == RunOutcome(ExecutionResult(false, [], Some(UnsupportedLanguage(config.language)), None, None), [], [])
    ensures o.result.success <==> ReachesWait(config, env) && env.wait == Exited(0)
    ensures o.result.executionTime.Some? <==> ImageReadyFor(config, env)
    ensures o.result.executionTime.Some? ==> o.result.executionTime == Some(env.elapsed)
    ensures LanguageConfig(config.language).Some? && !ImageReadyFor(config, env) ==>
      o.result.error == Some(ImageUnavailable(Image(LanguageConfig(config.language).value)))
    ensures o.result.exitCode.Some? <==> ReachesWait(config, env) && env.wait.Exited?
    ensures ReachesWait(config, env) ==> o.result == AssembleResult(env.wait, env.chunks, env.elapsed)
    ensures !ReachesWait(config, env) ==> o.result.output == []
    ensures forall c :: c in o.calls && c.Create? ==>
      && ImageReadyFor(config, env)
      && Sandboxed(c.spec, config.workspacePath)
      && c.spec.cmd == Command(LanguageConfig(config.language).value, ContainerFilePath(env.relativePath))
  {
    match LanguageConfig(config.language)
    case None =>
      RunOutcome(ExecutionResult(false, [], Some(UnsupportedLanguage(config.language)), None, None), [], [])
    case Some(l) =>
      var image := Image(l);
      var ensured := EnsureImage(image, env.listing, env.pull);
      var checks := [ListImages] + (if ensured.pulled then [Pull(image)] else []);
      var reported := [CheckingImage(image)] + ensured.progress;
      if !ensured.ready then
        RunOutcome(ExecutionResult(false, [], Some(ImageUnavailable(image)), None, None), checks, reported)
      else
        var spec := BuildRunSpec(l, config.workspacePath, env.relativePath, env.containerName);
        var (result, calls) := RunContainer(spec, env);
        assert forall c :: c in calls && c.Create? ==> c == Create(spec);
        RunOutcome(result, checks + calls, reported + [CreatingContainer, Executing])
  }
}
