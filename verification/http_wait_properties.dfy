/** What the HTTP wait strategy guarantees, stated over the model in
    `HttpWait`: the acceptance rule, how attempts end the wait, which inputs
    the wait ignores, the Basic credentials and the probe URL. */
module HttpWaitProperties {
  import opened Common
  import opened HttpWait
  import Text
  import Utf8
  import Base64

  // ---------------------------------------------------------------------
  // Acceptance of one response
  // ---------------------------------------------------------------------

  /** With no predicate registered, a response is accepted exactly when it is
      `ok`; a missing response never is. */
  lemma AcceptedWithoutPredicates(r: Response)
    ensures Accepted([], Some(r)) <==> 200 <= r.status <= 299
    ensures !Accepted([], None)
  {
  }

  /** With predicates registered, a response is accepted exactly when each of
      them holds of it, whatever `ok` says; a missing response never is. */
  lemma AcceptedWithPredicates(predicates: seq<ResponsePredicate>, r: Response)
    requires |predicates| > 0
    ensures Accepted(predicates, Some(r)) <==> forall i :: 0 <= i < |predicates| ==> Holds(predicates[i], r)
    ensures !Accepted(predicates, None)
  {
  }

  /** A single `forStatusCode(code)` accepts exactly the responses with that
      status, even ones that are not `ok`. */
  lemma ForStatusCodeAlone(code: int, r: Response)
    ensures Accepted([StatusIs(code)], Some(r)) <==> r.status == code
  {
    assert Holds([StatusIs(code)][0], r) <==> r.status == code;
  }

  /** An attempt that found the container exited carries no response, and
      only happens when the strategy watches for exits. */
  lemma ExitedAttemptHasNoResponse(c: StrategyConfig, host: string, bindings: map<int, nat>, probe: Probe)
    ensures Attempt(c, host, bindings, probe).exited ==>
      c.abortOnContainerExit && Attempt(c, host, bindings, probe).response.None?
  {
  }

  /** Registering more predicates never accepts more responses: each
      predicate is one more condition on the same response. */
  lemma AcceptedNarrows(predicates: seq<ResponsePredicate>, more: seq<ResponsePredicate>, response: Option<Response>)
    requires |predicates| > 0
    ensures Accepted(predicates + more, response) ==> Accepted(predicates, response)
  {
    if Accepted(predicates + more, response) {
      forall i | 0 <= i < |predicates| ensures Holds(predicates[i], response.value) {
        assert (predicates + more)[i] == predicates[i];
      }
    }
  }

  /** With the strategy's port bound and no reason to stop at inspection,
      an attempt sends exactly the request built from the probe URL for the
      bound host port, the configured method, headers and insecure flag, and
      yields the server's response, or nothing on a transport error. */
  lemma AttemptSendsRequest(c: StrategyConfig, host: string, bindings: map<int, nat>, probe: Probe)
    requires c.port in bindings
    requires c.abortOnContainerExit ==> probe.inspection.Status? && probe.inspection.status != ExitStatus
    ensures var request := HttpRequest(ProbeUrl(c.protocol, host, bindings[c.port], c.path),
                                       c.httpMethod, c.headers, c.allowInsecure);
      Attempt(c, host, bindings, probe) ==
        AttemptResult(if probe.server(request).Replied? then Some(probe.server(request).response) else None, false)
  {
  }

  // ---------------------------------------------------------------------
  // How the wait ends
  // ---------------------------------------------------------------------

  /** Attempt `i` is accepted and no earlier attempt ended the loop. */
  predicate AcceptedFirst(c: StrategyConfig, host: string, bindings: map<int, nat>, probes: seq<Probe>, i: int) {
    0 <= i < |probes| && Accepted(c.predicates, Attempt(c, host, bindings, probes[i]).response)
    && forall j :: 0 <= j < i ==> !Done(c, Attempt(c, host, bindings, probes[j]))
  }

  /** The wait succeeds exactly when some attempt's response is accepted and
      no earlier attempt ended the loop. */
  lemma ReadyIff(c: StrategyConfig, host: string, bindings: map<int, nat>, probes: seq<Probe>, logs: LogFetch)
    ensures Wait(c, host, bindings, probes, logs) == Ready <==> exists i :: AcceptedFirst(c, host, bindings, probes, i)
  {
    var first := FirstDone(c, host, bindings, probes);
    if Wait(c, host, bindings, probes, logs) == Ready {
      assert AcceptedFirst(c, host, bindings, probes, first.value);
    }
    if exists i :: AcceptedFirst(c, host, bindings, probes, i) {
      var i :| AcceptedFirst(c, host, bindings, probes, i);
      assert Done(c, Attempt(c, host, bindings, probes[i]));
      assert first == Some(i);
    }
  }

  /** When no attempt ends the loop the wait fails with the timeout error
      "URL {path} not accessible after {startupTimeoutMs}ms". */
  lemma TimeoutWhenNothingAccepted(c: StrategyConfig, host: string, bindings: map<int, nat>, probes: seq<Probe>, logs: LogFetch)
    requires forall j :: 0 <= j < |probes| ==> !Done(c, Attempt(c, host, bindings, probes[j]))
    ensures Wait(c, host, bindings, probes, logs) == Failed(TimeoutMessage(c))
  {
    assert FirstDone(c, host, bindings, probes).None?;
  }

  /** An exit observed before any acceptance fails the wait with the log-
      bearing error, whatever the later attempts would have seen. */
  lemma ExitFailsWithLogs(c: StrategyConfig, host: string, bindings: map<int, nat>, probes: seq<Probe>, k: nat, logs: LogFetch)
    requires c.abortOnContainerExit && c.port in bindings
    requires k < |probes| && probes[k].inspection == Status(ExitStatus)
    requires forall j :: 0 <= j < k ==> !Done(c, Attempt(c, host, bindings, probes[j]))
    ensures Wait(c, host, bindings, probes, logs) == Failed(ExitMessage(logs))
  {
    assert FirstDone(c, host, bindings, probes) == Some(k);
  }

  /** The host port is looked up before the container is inspected: when the
      strategy's port is not bound, no attempt gets as far as seeing an exit
      or sending a request, and the wait times out even if the container has
      exited. */
  lemma UnboundPortTimesOut(c: StrategyConfig, host: string, bindings: map<int, nat>, probes: seq<Probe>, logs: LogFetch)
    requires c.port !in bindings
    ensures Wait(c, host, bindings, probes, logs) == Failed(TimeoutMessage(c))
  {
    assert FirstDone(c, host, bindings, probes).None?;
  }

  /** Without `abortOnContainerExit` the wait ends only by acceptance or by
      the timeout error. */
  lemma WithoutAbortReadyOrTimeout(c: StrategyConfig, host: string, bindings: map<int, nat>, probes: seq<Probe>, logs: LogFetch)
    requires !c.abortOnContainerExit
    ensures Wait(c, host, bindings, probes, logs) in {Ready, Failed(TimeoutMessage(c))}
  {
  }

  /** Without `abortOnContainerExit` the container is never inspected: two
      runs whose servers answer alike end alike, whatever inspection would
      have reported. */
  lemma {:induction false} WithoutAbortIgnoresInspection(c: StrategyConfig, host: string, bindings: map<int, nat>,
                                                         probes: seq<Probe>, others: seq<Probe>)
    requires !c.abortOnContainerExit
    requires |probes| == |others|
    requires forall j :: 0 <= j < |probes| ==> probes[j].server == others[j].server
    ensures FirstDone(c, host, bindings, probes) == FirstDone(c, host, bindings, others)
    ensures forall logs :: Wait(c, host, bindings, probes, logs) == Wait(c, host, bindings, others, logs)
  {
    if |probes| > 0 {
      assert Attempt(c, host, bindings, probes[0]) == Attempt(c, host, bindings, others[0]);
      WithoutAbortIgnoresInspection(c, host, bindings, probes[1..], others[1..]);
    }
  }

  /** A swallowed error (an attempt that yields no response and no exit) is
      "not ready yet": the wait continues as if that attempt had not been
      made. */
  lemma {:induction false} SwallowedAttemptRetries(c: StrategyConfig, host: string, bindings: map<int, nat>,
                                                   probes: seq<Probe>, logs: LogFetch)
    requires |probes| > 0
    requires Attempt(c, host, bindings, probes[0]) == AttemptResult(None, false)
    ensures Wait(c, host, bindings, probes, logs) == Wait(c, host, bindings, probes[1..], logs)
  {
    var first := FirstDone(c, host, bindings, probes[1..]);
    if first.Some? {
      assert probes[1..][first.value] == probes[first.value + 1];
    }
  }

  lemma {:induction false} FirstDoneExtends(c: StrategyConfig, host: string, bindings: map<int, nat>,
                                            probes: seq<Probe>, later: seq<Probe>)
    requires FirstDone(c, host, bindings, probes).Some?
    ensures FirstDone(c, host, bindings, probes + later) == FirstDone(c, host, bindings, probes)
  {
    assert (probes + later)[0] == probes[0];
    if !Done(c, Attempt(c, host, bindings, probes[0])) {
      assert (probes + later)[1..] == probes[1..] + later;
      FirstDoneExtends(c, host, bindings, probes[1..], later);
    }
  }

  /** Once an attempt has ended the loop, attempts that would have come after
      it change nothing: the outcome is fixed when it is reached. */
  lemma LaterAttemptsIrrelevant(c: StrategyConfig, host: string, bindings: map<int, nat>,
                                probes: seq<Probe>, later: seq<Probe>, logs: LogFetch)
    requires FirstDone(c, host, bindings, probes).Some?
    ensures Wait(c, host, bindings, probes + later, logs) == Wait(c, host, bindings, probes, logs)
  {
    FirstDoneExtends(c, host, bindings, probes, later);
    var i := FirstDone(c, host, bindings, probes).value;
    assert (probes + later)[i] == probes[i];
  }

  /** The two failures can be told apart by their messages. */
  lemma FailuresDistinct(c: StrategyConfig, logs: LogFetch)
    ensures TimeoutMessage(c) != ExitMessage(logs)
  {
    assert TimeoutMessage(c)[0] == 'U';
    assert ExitHead[0] == 'C';
    match logs
    case LogsUnavailable =>
      assert ExitMessage(logs)[0] == ExitHead[0];
    case Logs(chunks) =>
      assert ExitMessage(logs)[0] == ExitHead[0];
  }

  /** The exit error carries the trimmed log chunks: when none of them holds
      a newline, they can be read back from the message. */
  lemma ExitMessageCarriesLogs(chunks: seq<string>)
    requires |chunks| > 0
    requires forall k :: 0 <= k < |chunks| ==> '\n' !in Text.Trim(chunks[k])
    ensures |ExitPrefix| <= |ExitMessage(Logs(chunks))|
    ensures ExitMessage(Logs(chunks))[..|ExitPrefix|] == ExitPrefix
    ensures Text.Split(ExitMessage(Logs(chunks))[|ExitPrefix|..], '\n') == TrimmedLines(chunks)
  {
    var lines := TrimmedLines(chunks);
    var m := ExitMessage(Logs(chunks));
    assert m[|ExitPrefix|..] == Text.Join(lines, "\n");
    Text.SplitJoin(lines, '\n');
  }

  /** An exit whose log stream delivers no chunk fails with the prefix alone:
      joining no lines gives the empty text. */
  lemma ExitMessageWithoutChunks()
    ensures ExitMessage(Logs([])) == ExitPrefix
  {
  }

  /** The scenario of a service whose health endpoint answers 503 for its
      first `n` attempts and 200 afterwards, probed with `forStatusCode(200)`:
      the wait succeeds, at attempt `n` and not earlier. */
  lemma SlowStartScenario(c: StrategyConfig, host: string, bindings: map<int, nat>, probes: seq<Probe>, n: nat, logs: LogFetch)
    requires c.predicates == [StatusIs(200)] && c.port in bindings
    requires n < |probes|
    requires forall j, req :: 0 <= j < n ==> probes[j].server(req) == Replied(Response(503, ""))
    requires forall req :: probes[n].server(req) == Replied(Response(200, ""))
    requires forall j :: 0 <= j <= n ==> probes[j].inspection == Status("running")
    ensures FirstDone(c, host, bindings, probes) == Some(n)
    ensures Wait(c, host, bindings, probes, logs) == Ready
  {
    forall j | 0 <= j < n
      ensures !Done(c, Attempt(c, host, bindings, probes[j]))
    {
      assert Attempt(c, host, bindings, probes[j]).response == Some(Response(503, ""));
      assert !Holds(c.predicates[0], Response(503, ""));
    }
    assert Attempt(c, host, bindings, probes[n]).response == Some(Response(200, ""));
    assert Done(c, Attempt(c, host, bindings, probes[n]));
  }

  // ---------------------------------------------------------------------
  // Basic credentials and the probe URL
  // ---------------------------------------------------------------------

  /** The `Authorization` value set by `withBasicCredentials` reads back as
      the user and password it was built from, provided the user contains no
      colon (section 2 of RFC 7617 forbids one). */
  lemma BasicAuthorizationRoundTrip(username: string, password: string)
    requires ':' !in username
    ensures ParseBasicAuthorization(BasicAuthorization(username, password)) == Some((username, password))
  {
    var text := username + ":" + password;
    var encoded := Base64.Encode(Utf8.Encode(text));
    var value := BasicAuthorization(username, password);
    assert value[..|BasicScheme|] == BasicScheme;
    assert value[|BasicScheme|..] == encoded;
    Base64.DecodeEncode(Utf8.Encode(text));
    Utf8.DecodeEncode(text);
    Text.SplitAtFirstConcat(username, ':', password);
  }

  /** The octets that are base64-encoded for Basic credentials are the UTF-8
      of the user, one colon octet, and the UTF-8 of the password. */
  lemma BasicCredentialOctets(username: string, password: string)
    ensures Utf8.Encode(username + ":" + password) == Utf8.Encode(username) + [0x3A] + Utf8.Encode(password)
  {
    Utf8.EncodeAppend(username + ":", password);
    Utf8.EncodeAppend(username, ":");
    assert Utf8.Encode(":") == [0x3A] by {
      Utf8.EncodeAscii(":");
    }
  }

  /** The text before the first colon of a URL: its scheme. */
  function Scheme(url: string): string {
    match Text.SplitAtFirst(url, ':')
    case None => url
    case Some((before, _)) => before
  }

  /** The probe URL's scheme is the strategy's protocol. */
  lemma ProbeUrlScheme(protocol: string, host: string, hostPort: nat, path: string)
    requires ':' !in protocol
    ensures Scheme(ProbeUrl(protocol, host, hostPort, path)) == protocol
  {
    var rest := "//" + host + ":" + Text.Decimal(hostPort) + path;
    assert ProbeUrl(protocol, host, hostPort, path) == protocol + [':'] + rest;
    Text.SplitAtFirstConcat(protocol, ':', rest);
  }

  /** A client of the builder: calls chain on one object, predicates are kept
      in call order, and later headers override earlier ones under the same
      key. */
  method BuilderChain()
  {
    var s := new HttpWaitStrategy("/health", 8080, false, 60000);
    var t := s.ForStatusCode(200);
    t := t.ForResponsePredicate(body => body == "OK");
    assert t == s && |s.predicates| == 2 && s.predicates[0] == StatusIs(200);
    t := t.WithHeaders(map["X-Token" := "a", "Authorization" := "none"]);
    t := t.WithBasicCredentials("user", "secret");
    assert s.headers["X-Token"] == "a";
    assert s.headers["Authorization"] == BasicAuthorization("user", "secret");
  }

  /** A client of the builder: the probe URL's scheme is "http" until
      `usingTls` makes it "https". */
  method TlsSwitch(host: string, hostPort: nat)
  {
    var s := new HttpWaitStrategy("/health", 8080, false, 60000);
    ProbeUrlScheme(s.protocol, host, hostPort, s.path);
    assert Scheme(ProbeUrl(s.protocol, host, hostPort, s.path)) == "http";
    var t := s.UsingTls();
    ProbeUrlScheme(s.protocol, host, hostPort, s.path);
    assert Scheme(ProbeUrl(s.protocol, host, hostPort, s.path)) == "https";
  }
}
