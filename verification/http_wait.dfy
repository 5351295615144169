/** The HTTP wait strategy: a builder that collects how to probe a started
    container over HTTP, and the readiness loop that probes it until a
    response is accepted, the container exits, or the deadline passes.

    The network, the container runtime and the clock are inputs: each
    attempt of the loop is given a `Probe` (what inspecting the container
    reports and how the server answers a request), and the deadline is the
    end of the finite sequence of attempts that fit before it. */
module HttpWait {
  import opened Common
  import Text
  import Utf8
  import Base64

  // ---------------------------------------------------------------------
  // Responses and the acceptance rule
  // ---------------------------------------------------------------------

  /** A response as the readiness check sees it: its status code and the
      text of its body. */
  datatype Response = Response(status: int, body: string)

  /** `Response.ok` of the Fetch standard: a status from 200 to 299. */
  predicate IsOk(r: Response) {
    200 <= r.status <= 299
  }

  /** A registered readiness predicate, one per builder call:
      `forStatusCode`, `forStatusCodeMatching`, `forResponsePredicate`. */
  datatype ResponsePredicate =
    | StatusIs(code: int)
    | StatusMatches(statusTest: int -> bool)
    | BodyMatches(bodyTest: string -> bool)

  predicate Holds(p: ResponsePredicate, r: Response) {
    match p
    case StatusIs(code) => r.status == code
    case StatusMatches(test) => test(r.status)
    case BodyMatches(test) => test(r.body)
  }

  /** The acceptance rule: a missing response is never accepted; with no
      predicate registered a response is accepted when it is `ok`; otherwise
      every registered predicate must hold of that same response. */
  predicate Accepted(predicates: seq<ResponsePredicate>, response: Option<Response>): (accepted: bool)
    ensures accepted ==> response.Some?
    ensures accepted && |predicates| == 0 ==> 200 <= response.value.status <= 299
    ensures accepted ==> forall i :: 0 <= i < |predicates| ==> Holds(predicates[i], response.value)
  {
    response.Some? &&
    if |predicates| == 0 then IsOk(response.value)
    else forall i :: 0 <= i < |predicates| ==> Holds(predicates[i], response.value)
  }

  // ---------------------------------------------------------------------
  // Configuration, requests and what one attempt observes
  // ---------------------------------------------------------------------

  /** The `Authorization` value of section 2 of RFC 7617: "Basic " and the
      base64 of the UTF-8 bytes of `user:password`. */
  function BasicAuthorization(username: string, password: string): string {
    BasicScheme + Base64.Encode(Utf8.Encode(username + ":" + password))
  }

  const BasicScheme := "Basic "

  /** Reads a Basic `Authorization` value back into user and password, as a
      server does: strip the scheme, base64-decode, UTF-8-decode, and cut at
      the first colon. */
  function ParseBasicAuthorization(value: string): Option<(string, string)> {
    if |value| < |BasicScheme| || value[..|BasicScheme|] != BasicScheme then None
    else match Base64.Decode(value[|BasicScheme|..])
      case None => None
      case Some(octets) =>
        match Utf8.Decode(octets)
        case None => None
        case Some(text) => Text.SplitAtFirst(text, ':')
  }

  /** The URL probed: `protocol://host:hostPort path`. */
  function ProbeUrl(protocol: string, host: string, hostPort: nat, path: string): (url: string)
    ensures var head := protocol + "://" + host + ":";
      |head| < |url| - |path| && url[..|head|] == head && url[|url| - |path|..] == path &&
      (forall k :: |head| <= k < |url| - |path| ==> Text.IsDigit(url[k])) &&
      Text.DecimalValue(url[|head|..|url| - |path|]) == hostPort
  {
    var head, digits := protocol + "://" + host + ":", Text.Decimal(hostPort);
    var url := head + digits + path;
    assert url[..|head|] == head && url[|url| - |path|..] == path;
    assert url[|head|..|url| - |path|] == digits;
    Text.DecimalRoundTrip(hostPort);
    url
  }

  /** Everything the strategy's fields hold, as one value. */
  datatype StrategyConfig = StrategyConfig(
    path: string,
    port: int,
    abortOnContainerExit: bool,
    startupTimeoutMs: nat,
    protocol: string,
    httpMethod: string,
    headers: map<string, string>,
    predicates: seq<ResponsePredicate>,
    allowInsecure: bool,
    readTimeoutMs: int)

  /** The request one attempt sends; `allowInsecure` selects the dispatcher
      that skips certificate verification. */
  datatype HttpRequest = HttpRequest(url: string, httpMethod: string, headers: map<string, string>, allowInsecure: bool)

  /** How the server answers one request: a response, or a transport error
      (refused connection, reset, per-attempt read timeout, ...). */
  datatype Reply = Replied(response: Response) | TransportError

  /** What inspecting the container reports: its `State.Status`, or an error. */
  datatype Inspection = Status(status: string) | InspectError

  /** The world as one attempt finds it. */
  datatype Probe = Probe(inspection: Inspection, server: HttpRequest -> Reply)

  /** What one attempt yields: the response, if any, and whether it found the
      container exited. */
  datatype AttemptResult = AttemptResult(response: Option<Response>, exited: bool)

  const ExitStatus := "exited"

  /** The request an attempt sends once the strategy's port is bound to
      `hostPort`: the probe URL, the configured method and headers, and the
      insecure flag. */
  function RequestFor(c: StrategyConfig, host: string, hostPort: nat): HttpRequest {
    HttpRequest(ProbeUrl(c.protocol, host, hostPort, c.path), c.httpMethod, c.headers, c.allowInsecure)
  }

  /** One attempt. The URL needs the host port bound to the strategy's port:
      without a binding the lookup throws and the attempt yields nothing. When
      watching for exit the container is inspected first: an error yields
      nothing, status "exited" yields nothing and marks the exit. Otherwise the
      request is sent; a transport error yields nothing. */
  function Attempt(c: StrategyConfig, host: string, bindings: map<int, nat>, probe: Probe): (a: AttemptResult)
    ensures c.port !in bindings ==> a == AttemptResult(None, false)
    ensures a.exited <==> c.abortOnContainerExit && c.port in bindings && probe.inspection == Status(ExitStatus)
    ensures a.exited ==> a.response.None?
    ensures a.response.Some? ==>
      c.port in bindings &&
      !(c.abortOnContainerExit && (probe.inspection.InspectError? || probe.inspection == Status(ExitStatus))) &&
      probe.server(RequestFor(c, host, bindings[c.port])) == Replied(a.response.value)
  {
    if c.port !in bindings then AttemptResult(None, false)
    else
      var request := RequestFor(c, host, bindings[c.port]);
      if c.abortOnContainerExit && probe.inspection.InspectError? then AttemptResult(None, false)
      else if c.abortOnContainerExit && probe.inspection == Status(ExitStatus) then AttemptResult(None, true)
      else match probe.server(request)
        case Replied(r) => AttemptResult(Some(r), false)
        case TransportError => AttemptResult(None, false)
  }

  /** The check that ends the retry loop: an exit the strategy watches for,
      or an accepted response. */
  predicate Done(c: StrategyConfig, a: AttemptResult): (done: bool)
    ensures done ==> (c.abortOnContainerExit && a.exited) || a.response.Some?
    ensures !c.abortOnContainerExit ==> (done <==> Accepted(c.predicates, a.response))
  {
    (c.abortOnContainerExit && a.exited) || Accepted(c.predicates, a.response)
  }

  /** The index of the first attempt that ends the loop, if any does. */
  function FirstDone(c: StrategyConfig, host: string, bindings: map<int, nat>, probes: seq<Probe>): (r: Option<nat>)
    ensures r.Some? ==> r.value < |probes| && Done(c, Attempt(c, host, bindings, probes[r.value]))
    ensures r.Some? ==> forall j :: 0 <= j < r.value ==> !Done(c, Attempt(c, host, bindings, probes[j]))
    ensures r.None? ==> forall j :: 0 <= j < |probes| ==> !Done(c, Attempt(c, host, bindings, probes[j]))
  {
    if |probes| == 0 then None
    else if Done(c, Attempt(c, host, bindings, probes[0])) then Some(0)
    else match FirstDone(c, host, bindings, probes[1..])
      case None => None
      case Some(i) => Some(i + 1)
  }

  // ---------------------------------------------------------------------
  // Outcomes of the wait
  // ---------------------------------------------------------------------

  /** Success, or the message of the error the wait throws. */
  datatype WaitOutcome = Ready | Failed(message: string)

  /** The container's last log output as the runtime streams it, or the
      failure to obtain it. */
  datatype LogFetch = Logs(chunks: seq<string>) | LogsUnavailable

  /** How many log lines are asked for after an exit. */
  const LogTail: nat := 50

  const ExitHead := "Container exited during HTTP healthCheck"
  const ExitPrefix := ExitHead + ", last " + Text.Decimal(LogTail) + " logs: "
  const ExitFallback := ExitHead + ", failed to get last logs"

  function TimeoutMessage(c: StrategyConfig): string {
    "URL " + c.path + " not accessible after " + Text.Decimal(c.startupTimeoutMs) + "ms"
  }

  /** Each streamed chunk, trimmed. */
  function TrimmedLines(chunks: seq<string>): (lines: seq<string>)
    ensures |lines| == |chunks|
    ensures forall k :: 0 <= k < |chunks| ==> lines[k] == Text.Trim(chunks[k])
  {
    seq(|chunks|, k requires 0 <= k < |chunks| => Text.Trim(chunks[k]))
  }

  function ExitMessage(logs: LogFetch): string {
    match logs
    case Logs(chunks) => ExitPrefix + Text.Join(TrimmedLines(chunks), "\n")
    case LogsUnavailable => ExitFallback
  }

  /** The outcome of `waitUntilReady` over the attempts that fit before the
      deadline: ready at the first accepted response; failing with the log-
      bearing error at an exit; failing with the timeout error when no attempt
      ends the loop. */
  function Wait(c: StrategyConfig, host: string, bindings: map<int, nat>, probes: seq<Probe>, logs: LogFetch): (outcome: WaitOutcome)
    ensures outcome == Ready ==> exists i :: 0 <= i < |probes| && Accepted(c.predicates, Attempt(c, host, bindings, probes[i]).response)
    ensures outcome.Failed? ==>
      outcome.message == TimeoutMessage(c) || (c.abortOnContainerExit && outcome.message == ExitMessage(logs))
    ensures |probes| == 0 ==> outcome == Failed(TimeoutMessage(c))
  {
    match FirstDone(c, host, bindings, probes)
    case None => Failed(TimeoutMessage(c))
    case Some(i) =>
      if c.abortOnContainerExit && Attempt(c, host, bindings, probes[i]).exited then Failed(ExitMessage(logs))
      else Ready
  }

  // ---------------------------------------------------------------------
  // The strategy object
  // ---------------------------------------------------------------------

  class HttpWaitStrategy {
    const path: string
    const port: int
    const abortOnContainerExit: bool
    /** Set by the base wait strategy, which is not part of this model. */
    var startupTimeoutMs: nat
    var protocol: string
    var httpMethod: string
    var headers: map<string, string>
    var predicates: seq<ResponsePredicate>
    var allowInsecure: bool
    var readTimeoutMs: int

    function Config(): StrategyConfig
      reads this
    {
      StrategyConfig(path, port, abortOnContainerExit, startupTimeoutMs, protocol, httpMethod,
                     headers, predicates, allowInsecure, readTimeoutMs)
    }

    constructor (path: string, port: int, abortOnContainerExit: bool, startupTimeoutMs: nat)
      ensures Config() == StrategyConfig(path, port, abortOnContainerExit, startupTimeoutMs,
                                         "http", "GET", map[], [], false, 1000)
    {
      this.path := path;
      this.port := port;
      this.abortOnContainerExit := abortOnContainerExit;
      this.startupTimeoutMs := startupTimeoutMs;
      protocol := "http";
      httpMethod := "GET";
      headers := map[];
      predicates := [];
      allowInsecure := false;
      readTimeoutMs := 1000;
    }

    method ForStatusCode(statusCode: int) returns (self: HttpWaitStrategy)
      modifies this
      ensures self == this
      ensures Config() == old(Config()).(predicates := old(predicates) + [StatusIs(statusCode)])
    {
      predicates := predicates + [StatusIs(statusCode)];
      self := this;
    }

    method ForStatusCodeMatching(test: int -> bool) returns (self: HttpWaitStrategy)
      modifies this
      ensures self == this
      ensures Config() == old(Config()).(predicates := old(predicates) + [StatusMatches(test)])
    {
      predicates := predicates + [StatusMatches(test)];
      self := this;
    }

    method ForResponsePredicate(test: string -> bool) returns (self: HttpWaitStrategy)
      modifies this
      ensures self == this
      ensures Config() == old(Config()).(predicates := old(predicates) + [BodyMatches(test)])
    {
      predicates := predicates + [BodyMatches(test)];
      self := this;
    }

    method WithMethod(httpMethod: string) returns (self: HttpWaitStrategy)
      modifies this
      ensures self == this
      ensures Config() == old(Config()).(httpMethod := httpMethod)
    {
      this.httpMethod := httpMethod;
      self := this;
    }

    /** Merges `extra` into the headers: every existing key is kept unless
        `extra` gives it a new value, and every key of `extra` is added. */
    method WithHeaders(extra: map<string, string>) returns (self: HttpWaitStrategy)
      modifies this
      ensures self == this
      ensures Config() == old(Config()).(headers := headers)
      ensures headers.Keys == old(headers).Keys + extra.Keys
      ensures forall k :: k in extra ==> headers[k] == extra[k]
      ensures forall k :: k in old(headers) && k !in extra ==> headers[k] == old(headers)[k]
    {
      headers := headers + extra;
      self := this;
    }

    /** Sets the `Authorization` header to the Basic credentials and leaves
        every other header as it was. */
    method WithBasicCredentials(username: string, password: string) returns (self: HttpWaitStrategy)
      modifies this
      ensures self == this
      ensures Config() == old(Config()).(headers := headers)
      ensures headers == old(headers)["Authorization" := BasicAuthorization(username, password)]
    {
      var encoded := Base64.Encode(Utf8.Encode(username + ":" + password));
      headers := headers["Authorization" := BasicScheme + encoded];
      self := this;
    }

    method WithReadTimeout(timeoutMs: int) returns (self: HttpWaitStrategy)
      modifies this
      ensures self == this
      ensures Config() == old(Config()).(readTimeoutMs := timeoutMs)
    {
      readTimeoutMs := timeoutMs;
      self := this;
    }

    method UsingTls() returns (self: HttpWaitStrategy)
      modifies this
      ensures self == this
      ensures Config() == old(Config()).(protocol := "https")
    {
      protocol := "https";
      self := this;
    }

    method AllowInsecure() returns (self: HttpWaitStrategy)
      modifies this
      ensures self == this
      ensures Config() == old(Config()).(allowInsecure := true)
    {
      allowInsecure := true;
      self := this;
    }

    /** The check run after each attempt: true ends the retry loop. It walks
        the predicates in registration order and stops at the first that
        fails. */
    method Check(response: Option<Response>, containerExited: bool) returns (done: bool)
      ensures done == Done(Config(), AttemptResult(response, containerExited))
    {
      if abortOnContainerExit && containerExited {
        return true;
      }
      if response.None? {
        return false;
      } else if |predicates| == 0 {
        return IsOk(response.value);
      } else {
        for i := 0 to |predicates|
          invariant forall j :: 0 <= j < i ==> Holds(predicates[j], response.value)
        {
          if !Holds(predicates[i], response.value) {
            return false;
          }
        }
        return true;
      }
    }

    /** The error thrown after an exit: the trimmed log chunks joined by
        newlines, or the fallback message when the logs cannot be fetched. */
    method HandleContainerExit(logs: LogFetch) returns (failure: WaitOutcome)
      ensures failure == Failed(ExitMessage(logs))
    {
      match logs
      case LogsUnavailable =>
        failure := Failed(ExitFallback);
      case Logs(chunks) =>
        var lastLogs: seq<string> := [];
        for k := 0 to |chunks|
          invariant lastLogs == TrimmedLines(chunks[..k])
        {
          lastLogs := lastLogs + [Text.Trim(chunks[k])];
        }
        assert chunks[..|chunks|] == chunks;
        failure := Failed(ExitPrefix + Text.Join(lastLogs, "\n"));
    }

    /** `waitUntilReady`: one attempt per probe until the check ends the loop
        or the probes (the time before the deadline) run out. */
    method WaitUntilReady(host: string, bindings: map<int, nat>, probes: seq<Probe>, logs: LogFetch)
      returns (outcome: WaitOutcome)
      ensures outcome == Wait(Config(), host, bindings, probes, logs)
    {
      var containerExited := false;
      var i := 0;
      while i < |probes|
        invariant 0 <= i <= |probes|
        invariant !containerExited
        invariant forall j :: 0 <= j < i ==> !Done(Config(), Attempt(Config(), host, bindings, probes[j]))
      {
        var attempt := Attempt(Config(), host, bindings, probes[i]);
        if attempt.exited {
          containerExited := true;
        }
        var done := Check(attempt.response, containerExited);
        if done {
          ghost var first := FirstDone(Config(), host, bindings, probes);
          assert first == Some(i);
          if abortOnContainerExit && containerExited {
            outcome := HandleContainerExit(logs);
          } else {
            outcome := Ready;
          }
          return;
        }
        i := i + 1;
      }
      outcome := Failed(TimeoutMessage(Config()));
    }
  }
}
