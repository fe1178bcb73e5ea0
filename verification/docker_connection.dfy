/**
 * `DockerManager`: which Docker client the manager holds, the two-attempt
 * connection probe of `checkConnection`, `ping`, and the normalisation of
 * connection errors into user-facing text. Every Docker API call is an
 * abstract outcome given as a parameter.
 */
module DockerConnection {
  import opened Wrappers

  datatype Platform = Win32 | OtherPlatform

  const NamedPipe: string := "//./pipe/docker_engine"
  const UnixSocket: string := "/var/run/docker.sock"

  /** The socket the manager addresses by default: the named pipe on Windows, the Unix socket elsewhere. */
  function SocketPath(platform: Platform): (path: string)
    ensures path == NamedPipe <==> platform == Win32
    ensures path == UnixSocket <==> platform != Win32
  {
    if platform == Win32 then NamedPipe else UnixSocket
  }

  /**
   * A client: the default one, configured from the environment (`DOCKER_HOST`),
   * or one bound to an explicit socket path.
   */
  datatype Client = EnvironmentClient | SocketClient(socketPath: string)

  /** The manager's state: the client the other managers are handed. */
  datatype Manager = Manager(client: Client)

  function NewManager(platform: Platform): (m: Manager)
    ensures m.client.SocketClient? && m.client.socketPath == SocketPath(platform)
  {
    Manager(SocketClient(SocketPath(platform)))
  }

  /** What a rejected Docker call carries: a system error code, if any, and its message (`""` when absent). */
  datatype DockerError = DockerError(code: Option<string>, message: string)

  /** The fields `checkConnection` reads from `info()` and `version()`. */
  datatype EngineInfo = EngineInfo(operatingSystem: string, architecture: string, containers: nat, images: nat)

  /** One attempt: `info()` then, only if it resolved, `version()`. */
  datatype Attempt = Attempt(info: Result<EngineInfo, DockerError>, version: Result<string, DockerError>)

  /** The engine data of an attempt, or the error of the first call that threw. */
  function Probe(a: Attempt): (r: Result<(EngineInfo, string), DockerError>)
    ensures r.Success? <==> a.info.Success? && a.version.Success?
    ensures r.Success? ==> r.value == (a.info.value, a.version.value)
    ensures a.info.Failure? ==> r == Failure(a.info.error)
    ensures a.info.Success? && a.version.Failure? ==> r == Failure(a.version.error)
  {
    var info :- a.info;
    var version :- a.version;
    Success((info, version))
  }

  const NotRunningText: string := "Docker n'est pas démarré ou n'est pas installé"
  const PermissionText: string := "Permissions insuffisantes pour accéder à Docker"
  const DefaultErrorText: string := "Erreur de connexion à Docker"

  /** `getErrorMessage(error)`: fixed text for a missing or refused socket and for a permission error, else the message or a default. */
  function ErrorMessage(e: DockerError): (text: string)
    ensures e.code == Some("ENOENT") || e.code == Some("ECONNREFUSED") ==> text == NotRunningText
    ensures e.code == Some("EACCES") ==> text == PermissionText
    ensures e.code !in {Some("ENOENT"), Some("ECONNREFUSED"), Some("EACCES")} ==>
      text == (if e.message != "" then e.message else DefaultErrorText)
  {
    if e.code == Some("ENOENT") || e.code == Some("ECONNREFUSED") then NotRunningText
    else if e.code == Some("EACCES") then PermissionText
    else if e.message != "" then e.message
    else DefaultErrorText
  }

  /** Whatever the error, the text shown is never empty. */
  lemma ErrorMessageNeverEmpty(e: DockerError)
    ensures ErrorMessage(e) != ""
  {
  }

  /** The record `checkConnection` returns. */
  datatype DockerInfo = DockerInfo(
    isConnected: bool,
    version: Option<string>,
    os: Option<string>,
    architecture: Option<string>,
    containerCount: Option<nat>,
    imageCount: Option<nat>,
    error: Option<string>,
    usedHost: Option<string>)

  /** `DOCKER_HOST ?? <default socket>`: only an unset variable falls back, an empty one is kept. */
  function UsedHost(dockerHost: Option<string>, platform: Platform): (host: string)
    ensures dockerHost.Some? ==> host == dockerHost.value
    ensures dockerHost.None? ==> host == SocketPath(platform)
  {
    dockerHost.GetOr(SocketPath(platform))
  }

  function Connected(engine: (EngineInfo, string), host: string): (d: DockerInfo)
    ensures d.isConnected && d.error.None? && d.usedHost == Some(host)
  {
    var (info, version) := engine;
    DockerInfo(true, Some(version), Some(info.operatingSystem), Some(info.architecture),
      Some(info.containers), Some(info.images), None, Some(host))
  }

  /** The result of `checkConnection`, the manager afterwards, and the clients tried in order. */
  datatype Check = Check(info: DockerInfo, manager: Manager, tried: seq<Client>)

  /**
   * `checkConnection()`: try the environment client; if either of its calls
   * throws, try a client on the platform socket; the manager adopts the client
   * that answered. When both fail the error text comes from the FIRST
   * attempt's error.
   */
  function CheckConnection(m: Manager, platform: Platform, dockerHost: Option<string>, first: Attempt, fallback: Attempt): (c: Check)
    ensures c.info.isConnected <==> Probe(first).Success? || Probe(fallback).Success?
    ensures Probe(first).Success? ==>
      && c.tried == [EnvironmentClient]
      && c.manager.client == EnvironmentClient
      && c.info == Connected(Probe(first).value, UsedHost(dockerHost, platform))
    ensures Probe(first).Failure? ==> c.tried == [EnvironmentClient, SocketClient(SocketPath(platform))]
    ensures Probe(first).Failure? && Probe(fallback).Success? ==>
      && c.manager.client == SocketClient(SocketPath(platform))
      && c.info == Connected(Probe(fallback).value, UsedHost(dockerHost, platform))
    ensures !c.info.isConnected ==>
      && c.manager == m
      && c.info == DockerInfo(false, None, None, None, None, None, Some(ErrorMessage(Probe(first).error)), None)
  {
    var socket := SocketClient(SocketPath(platform));
    match Probe(first)
    case Success(engine) =>
      Check(Connected(engine, UsedHost(dockerHost, platform)), Manager(EnvironmentClient), [EnvironmentClient])
    case Failure(error) =>
      match Probe(fallback)
      case Success(engine) =>
        Check(Connected(engine, UsedHost(dockerHost, platform)), Manager(socket), [EnvironmentClient, socket])
      case Failure(_) =>
        Check(DockerInfo(false, None, None, None, None, None, Some(ErrorMessage(error)), None), m, [EnvironmentClient, socket])
  }

  /** When the first attempt answers, the fallback attempt has no bearing on anything. */
  lemma FirstAttemptDecides(m: Manager, platform: Platform, dockerHost: Option<string>, first: Attempt, f1: Attempt, f2: Attempt)
    requires Probe(first).Success?
    ensures CheckConnection(m, platform, dockerHost, first, f1) == CheckConnection(m, platform, dockerHost, first, f2)
  {
  }

  /** When both attempts fail, which error the fallback raised does not change the result. */
  lemma FallbackErrorDiscarded(m: Manager, platform: Platform, dockerHost: Option<string>, first: Attempt, f1: Attempt, f2: Attempt)
    requires Probe(first).Failure? && Probe(f1).Failure? && Probe(f2).Failure?
    ensures CheckConnection(m, platform, dockerHost, first, f1) == CheckConnection(m, platform, dockerHost, first, f2)
  {
  }

  /** The client is replaced exactly when some attempt answered, and then by the client that answered. */
  lemma ClientReplacedOnlyOnSuccess(m: Manager, platform: Platform, dockerHost: Option<string>, first: Attempt, fallback: Attempt)
    ensures var c := CheckConnection(m, platform, dockerHost, first, fallback);
      c.manager != m ==> c.info.isConnected && c.manager.client == c.tried[|c.tried| - 1]
  {
  }

  /** `ping()`: true when the held client answers, false when the call throws; it never throws itself. */
  function Ping(m: Manager, answers: Client -> bool): bool {
    answers(m.client)
  }

  /** After a successful probe, `ping` addresses the client that just answered. */
  lemma PingUsesConnectedClient(m: Manager, platform: Platform, dockerHost: Option<string>, first: Attempt, fallback: Attempt, answers: Client -> bool)
    requires CheckConnection(m, platform, dockerHost, first, fallback).info.isConnected
    ensures var c := CheckConnection(m, platform, dockerHost, first, fallback);
      Ping(c.manager, answers) == answers(c.tried[|c.tried| - 1])
  {
  }
}
