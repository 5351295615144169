# Testcontainers for Node: HTTP wait strategy and image-existence cache

This project models two pieces of testcontainers-node.

**The HTTP wait strategy** (`HttpWaitStrategy`). A container is not considered
started until an HTTP endpoint on one of its ports answers acceptably.

- The strategy is a builder object. Its chained calls choose:
  - the readiness predicates (`forStatusCode`, `forStatusCodeMatching`,
    `forResponsePredicate`);
  - the request method and headers, including a Basic `Authorization` header;
  - the per-attempt read timeout;
  - TLS, and TLS without certificate verification.
- `waitUntilReady` runs a retry loop over attempts. Each attempt:
  - builds `protocol://host:hostPort path`;
  - when asked to, first inspects the container and stops on status "exited";
  - sends the request;
  - swallows every error as "not ready yet".
- The loop stops in one of three ways:
  - at the first accepted response (ready);
  - at an observed exit, failing with an error that carries the container's
    last log output (50 lines are asked for), as the streamed chunks, each
    trimmed, joined by newlines;
  - when the deadline passes, failing with
    "URL {path} not accessible after {startupTimeoutMs}ms".

**The image-existence cache** (`imageExists(name)`).

- A name that is not yet remembered is inspected once through the container runtime.
- "Image exists" and "no such image" are remembered for the rest of the
  process, so a repeat query is answered without a second inspection.
  Remembering "no such image" is the cache's intended behaviour as assumed
  here; the unit test does not pin it down (see "## Left out").
- Any other inspection error propagates and is not remembered.

The modules, in order of dependence:

- `Common`: Option and Result.
- `Text`: the JavaScript string operations the strategy uses:
  - decimal rendering of integers in template strings;
  - `String.prototype.trim`;
  - `Array.prototype.join`.

  `Text` also holds inverses that serve only the round-trip lemmas: splitting
  at a separator undoes the join of the exit message, and cutting at the first
  colon reads Basic credentials back, as a server does.
- `Utf8`: the UTF-8 encoding behind `Buffer.from(string)`, with a strict decoder.
- `Base64`: RFC 4648 base64 as `Buffer.toString("base64")` writes it, with a
  canonical decoder.
- `HttpWait`:
  - the strategy as a class whose fields the builder methods update;
  - a `StrategyConfig` value that snapshots those fields;
  - pure specification functions for one attempt (`Attempt`), the acceptance
    rule (`Accepted`, `Done`) and the whole wait (`FirstDone`, `Wait`);
  - the methods `Check`, `HandleContainerExit` and `WaitUntilReady`, whose
    loops are proved equal to those functions.
- `HttpWaitProperties`: lemmas about the wait and the builder, and two
  client methods that exercise the class itself: `BuilderChain` (chained
  calls, predicate order, header override) and `TlsSwitch` (the scheme
  before and after `usingTls`).
- `ImageCache`:
  - the cache as a pure step function `Answer`, and its fold `Replay` over a
    sequence of queries;
  - a class `ImageExistsCache` that holds the remembered map and counts inspections;
  - `UnitTestCases`, which runs the four unit-test cases against the class
    itself (the lemmas state the same cases over `Replay`).

The outside world becomes input:

- Each attempt of the retry loop is given a `Probe`. It holds what inspecting the
  container reports, and the server as a function from the request (URL,
  method, headers, insecure flag) to a reply or a transport error.
- The deadline is the end of the finite sequence of probes: the attempts that
  fit before the startup timeout.
- The log stream is given as its chunks, or as the failure to obtain them.
- For the cache, each query carries the answer the runtime would give to an inspection.

## Model

| member | source | states |
|---|---|---|
| HttpWait.HttpWaitStrategy.constructor | packages/testcontainers/src/wait-strategies/http-wait-strategy.ts:13-27 | a new strategy has the given path, port and exit option, protocol "http", method "GET", no headers, no predicates, certificate checks on, and a read timeout of 1000 ms |
| HttpWait.HttpWaitStrategy.ForStatusCode | packages/testcontainers/src/wait-strategies/http-wait-strategy.ts:29-32 | appends a status-equality predicate after those already registered, changes nothing else and returns the same object |
| HttpWait.HttpWaitStrategy.ForStatusCodeMatching | packages/testcontainers/src/wait-strategies/http-wait-strategy.ts:34-37 | appends a predicate on the status code, changes nothing else and returns the same object |
| HttpWait.HttpWaitStrategy.ForResponsePredicate | packages/testcontainers/src/wait-strategies/http-wait-strategy.ts:39-42 | appends a predicate on the body text, changes nothing else and returns the same object |
| HttpWait.HttpWaitStrategy.WithMethod | packages/testcontainers/src/wait-strategies/http-wait-strategy.ts:44-47 | replaces the request method and nothing else |
| HttpWait.HttpWaitStrategy.WithHeaders | packages/testcontainers/src/wait-strategies/http-wait-strategy.ts:49-52 | the new header keys are the old ones plus the given ones; a given key takes the given value; every other old header keeps its value |
| HttpWait.HttpWaitStrategy.WithBasicCredentials | packages/testcontainers/src/wait-strategies/http-wait-strategy.ts:54-58 | sets `Authorization` to "Basic " followed by the base64 of the UTF-8 of `user:password`; every other header is unchanged |
| HttpWait.HttpWaitStrategy.WithReadTimeout | packages/testcontainers/src/wait-strategies/http-wait-strategy.ts:60-63 | replaces the read timeout and nothing else |
| HttpWait.HttpWaitStrategy.UsingTls | packages/testcontainers/src/wait-strategies/http-wait-strategy.ts:65-68 | switches the protocol to "https" and nothing else |
| HttpWait.HttpWaitStrategy.AllowInsecure | packages/testcontainers/src/wait-strategies/http-wait-strategy.ts:70-73 | turns off certificate verification and nothing else |
| HttpWait.HttpWaitStrategy.Check | packages/testcontainers/src/wait-strategies/http-wait-strategy.ts:111-129 | the loop's verdict is true exactly when the exit is watched for and was seen, or a response exists and is accepted: `ok` when there are no predicates, otherwise every registered predicate holds |
| HttpWait.ProbeUrl | packages/testcontainers/src/wait-strategies/http-wait-strategy.ts:86-88 | the URL is `protocol://host:` followed by decimal digits that read back as the bound host port, followed by the path |
| HttpWait.Attempt | packages/testcontainers/src/wait-strategies/http-wait-strategy.ts:84-110 | without a binding for the port the attempt yields nothing; an exit is seen exactly when exits are watched for, the port is bound and inspection reports "exited", and it carries no response; a response is only yielded when the port is bound, inspection did not stop the attempt, and the server replied it to the request for the bound port |
| HttpWait.Accepted | packages/testcontainers/src/wait-strategies/http-wait-strategy.ts:116-128 | an accepted response exists; with no predicates it is `ok` (200..299); with predicates, every one of them holds of it |
| HttpWait.Done | packages/testcontainers/src/wait-strategies/http-wait-strategy.ts:111-128 | the loop ends only at a watched exit or at a present response; without `abortOnContainerExit` it ends exactly at an accepted response |
| HttpWait.FirstDone | packages/testcontainers/src/wait-strategies/http-wait-strategy.ts:83-136 | the index returned ends the loop and no earlier attempt does; None means that no attempt before the deadline ends the loop |
| HttpWait.Wait | packages/testcontainers/src/wait-strategies/http-wait-strategy.ts:83-143 | success means some attempt's response was accepted; a failure carries the timeout message, or the exit message when exits are watched for; with no attempt before the deadline the wait times out |
| HttpWait.HttpWaitStrategy.WaitUntilReady | packages/testcontainers/src/wait-strategies/http-wait-strategy.ts:75-143 | the outcome of the retry loop is the one `Wait` defines: ready at the first accepted attempt, the exit error at an exit seen first, the timeout error otherwise |
| HttpWait.HttpWaitStrategy.HandleContainerExit | packages/testcontainers/src/wait-strategies/http-wait-strategy.ts:145-166 | the error is "Container exited during HTTP healthCheck, last 50 logs: " followed by the trimmed chunks joined by newlines, or the fallback message when the logs cannot be fetched |
| HttpWaitProperties.AcceptedWithoutPredicates | packages/testcontainers/src/wait-strategies/http-wait-strategy.ts:116-119 | with no predicates, a response is accepted if and only if its status is in 200..299; a missing response never is |
| HttpWaitProperties.AcceptedWithPredicates | packages/testcontainers/src/wait-strategies/http-wait-strategy.ts:120-128 | with predicates, a response is accepted if and only if every predicate holds of it, whatever its status; a missing response never is |
| HttpWaitProperties.ForStatusCodeAlone | packages/testcontainers/src/wait-strategies/http-wait-strategy.ts:29-32 | a single `forStatusCode(code)` accepts exactly the responses with that status, including non-2xx ones |
| HttpWaitProperties.AcceptedNarrows | packages/testcontainers/src/wait-strategies/http-wait-strategy.ts:29-42 | once a predicate is registered, registering more never makes a rejected response accepted |
| HttpWaitProperties.AttemptSendsRequest | packages/testcontainers/src/wait-strategies/http-wait-strategy.ts:86-106 | with the port bound and inspection not stopping the attempt, the server receives exactly the request built from `protocol://host:hostPort path`, the method, the headers and the insecure flag, and the attempt yields its response, or nothing on a transport error |
| HttpWaitProperties.ExitedAttemptHasNoResponse | packages/testcontainers/src/wait-strategies/http-wait-strategy.ts:90-97 | an attempt sees an exit only when exits are watched for, and then sends no request |
| HttpWaitProperties.ReadyIff | packages/testcontainers/src/wait-strategies/http-wait-strategy.ts:83-143 | the wait succeeds if and only if some attempt's response is accepted before any attempt ends the loop |
| HttpWaitProperties.TimeoutWhenNothingAccepted | packages/testcontainers/src/wait-strategies/http-wait-strategy.ts:130-135 | when no attempt ends the loop, the wait fails with "URL {path} not accessible after {startupTimeoutMs}ms" |
| HttpWaitProperties.ExitFailsWithLogs | packages/testcontainers/src/wait-strategies/http-wait-strategy.ts:90-140 | with exits watched for and the port bound, an inspection reporting "exited" at an attempt before which nothing ended the loop fails the wait with the log-bearing error |
| HttpWaitProperties.UnboundPortTimesOut | packages/testcontainers/src/wait-strategies/http-wait-strategy.ts:86-91 | the host port is looked up before the container is inspected, so with the strategy's port unbound the wait always times out, even if the container has exited |
| HttpWaitProperties.WithoutAbortReadyOrTimeout | packages/testcontainers/src/wait-strategies/http-wait-strategy.ts:90-97 | when exits are not watched for, the wait only succeeds or times out |
| HttpWaitProperties.WithoutAbortIgnoresInspection | packages/testcontainers/src/wait-strategies/http-wait-strategy.ts:90-97 | when exits are not watched for, the container's status has no influence: runs with the same servers end alike |
| HttpWaitProperties.SwallowedAttemptRetries | packages/testcontainers/src/wait-strategies/http-wait-strategy.ts:107-109 | an attempt whose error is swallowed counts as "not ready yet": the wait goes on as if it had not been made |
| HttpWaitProperties.FirstDoneExtends | packages/testcontainers/src/wait-strategies/http-wait-strategy.ts:83-136 | once some attempt ends the loop, further attempts do not move the stopping point |
| HttpWaitProperties.LaterAttemptsIrrelevant | packages/testcontainers/src/wait-strategies/http-wait-strategy.ts:83-136 | once some attempt ends the loop, the outcome does not depend on anything after it |
| HttpWaitProperties.FailuresDistinct | packages/testcontainers/src/wait-strategies/http-wait-strategy.ts:131-160 | the timeout error and the exit error always have different messages |
| HttpWaitProperties.ExitMessageCarriesLogs | packages/testcontainers/src/wait-strategies/http-wait-strategy.ts:155-158 | the exit error starts with its fixed prefix, and the trimmed chunks can be read back by splitting the rest at newlines, for at least one chunk, provided no trimmed chunk holds a newline |
| HttpWaitProperties.ExitMessageWithoutChunks | packages/testcontainers/src/wait-strategies/http-wait-strategy.ts:152-158 | an exit whose log stream delivers nothing fails with exactly the prefix "Container exited during HTTP healthCheck, last 50 logs: " |
| HttpWaitProperties.SlowStartScenario | packages/testcontainers/src/wait-strategies/http-wait-strategy.ts:111-129 | with `forStatusCode(200)`, a server answering 503 for n attempts and 200 afterwards makes the wait stop at attempt n and succeed |
| HttpWaitProperties.BasicAuthorizationRoundTrip | packages/testcontainers/src/wait-strategies/http-wait-strategy.ts:54-58 | the Basic header value decodes back to exactly the user and password it was built from, when the user has no colon |
| HttpWaitProperties.BasicCredentialOctets | packages/testcontainers/src/wait-strategies/http-wait-strategy.ts:55 | the octets that are base64-encoded are the UTF-8 of the user, one colon octet, then the UTF-8 of the password |
| HttpWaitProperties.ProbeUrlScheme | packages/testcontainers/src/wait-strategies/http-wait-strategy.ts:86-88 | the scheme of the probed URL is the strategy's protocol |
| Text.Decimal | packages/testcontainers/src/wait-strategies/http-wait-strategy.ts:86-88 | how `${n}` renders a non-negative integer: non-empty, only digits, no leading zero except for 0; it reads back as n (`Text.DecimalRoundTrip`) |
| Text.DecimalRoundTrip | packages/testcontainers/src/wait-strategies/http-wait-strategy.ts:86 | the decimal rendering of the host port reads back as the same number |
| Text.DecimalInjective | packages/testcontainers/src/wait-strategies/http-wait-strategy.ts:86 | different ports render as different text |
| Text.Trim | packages/testcontainers/src/wait-strategies/http-wait-strategy.ts:155 | the result is a contiguous slice of the input; everything outside it is JavaScript whitespace; it neither starts nor ends with whitespace |
| Text.TrimIdempotent | packages/testcontainers/src/wait-strategies/http-wait-strategy.ts:155 | trimming twice is trimming once |
| Text.Join | packages/testcontainers/src/wait-strategies/http-wait-strategy.ts:158 | `join` of no strings is the empty text and of one string is that string; for at least one line without the separator, splitting undoes it (`Text.SplitJoin`) |
| Text.SplitJoin | packages/testcontainers/src/wait-strategies/http-wait-strategy.ts:158 | for at least one line, joining lines that contain no separator and then splitting at it gives the lines back |
| Text.SplitAtFirst | packages/testcontainers/src/wait-strategies/http-wait-strategy.ts:55 | None if and only if the character is absent; otherwise the text is `before + [c] + after`, with no `c` in `before` |
| Utf8.Encode | packages/testcontainers/src/wait-strategies/http-wait-strategy.ts:55 | a string of n characters encodes to between n and 4n bytes |
| Utf8.DecodeEncode | packages/testcontainers/src/wait-strategies/http-wait-strategy.ts:55 | strict UTF-8 decoding gives back every encoded string |
| Utf8.EncodeAscii | packages/testcontainers/src/wait-strategies/http-wait-strategy.ts:55 | ASCII text encodes to one byte per character, of the same value |
| Base64.Encode | packages/testcontainers/src/wait-strategies/http-wait-strategy.ts:55 | the text has four characters for every started group of three bytes |
| Base64.DecodeEncode | packages/testcontainers/src/wait-strategies/http-wait-strategy.ts:55 | canonical base64 decoding gives back every encoded byte sequence |
| Base64.EncodeAlphabet | packages/testcontainers/src/wait-strategies/http-wait-strategy.ts:55 | every character of the encoding is in the RFC 4648 alphabet, except "=" padding in the last two positions |
| ImageCache.Answer | packages/testcontainers/src/container-runtime/utils/image-exists.test.ts:20-58 | the runtime is asked exactly when the name is not remembered; only the queried name can be added, and remembered answers never change; a remembered name is answered from memory; an error leaves the name unremembered and carries the runtime's message; on a miss, found gives true and "no such image" gives false (that "no such image" is remembered is an assumption about the intended behaviour of the cache that the unit test, which never repeats a query after it, does not pin down) |
| ImageCache.Replay | packages/testcontainers/src/container-runtime/utils/image-exists.test.ts:15-58 | one result per query; at most one inspection per query; a remembered answer is never forgotten or changed |
| ImageCache.RememberedAnswerIsFinal | packages/testcontainers/src/container-runtime/utils/image-exists.test.ts:30-40 | once a name is remembered, every later query for it returns the remembered answer, whatever the runtime would now say (that "no such image" is remembered is an assumption about the intended behaviour of the cache that the unit test, which never repeats a query after it, does not pin down) |
| ImageCache.EveryNameRemembered | packages/testcontainers/src/container-runtime/utils/image-exists.test.ts:30-50 | without other errors, every queried name ends up remembered, and nothing else is added (that "no such image" is remembered is an assumption about the intended behaviour of the cache that the unit test, which never repeats a query after it, does not pin down) |
| ImageCache.OneInspectionPerNewName | packages/testcontainers/src/container-runtime/utils/image-exists.test.ts:30-40 | without other errors, the runtime is inspected exactly once per distinct name not remembered at the start (that "no such image" is remembered is an assumption about the intended behaviour of the cache that the unit test, which never repeats a query after it, does not pin down) |
| ImageCache.ErrorIsNotRemembered | packages/testcontainers/src/container-runtime/utils/image-exists.test.ts:52-58 | an error other than "no such image" propagates with its message, and the next query for that name inspects again |
| ImageCache.OtherNamesNotServed | packages/testcontainers/src/container-runtime/utils/image-exists.test.ts:42-58 | a remembered "no such image" for one name does not answer a query for another name |
| ImageCache.ReturnsTrueWhenImageExists | packages/testcontainers/src/container-runtime/utils/image-exists.test.ts:20-28 | on a fresh cache, an existing image yields true |
| ImageCache.ReturnsPreviousResultFromCache | packages/testcontainers/src/container-runtime/utils/image-exists.test.ts:30-40 | two queries for an existing image both yield true, with a single inspection, whatever the second inspection would have said |
| ImageCache.ReturnsFalseWhenNoSuchImage | packages/testcontainers/src/container-runtime/utils/image-exists.test.ts:42-50 | on a fresh cache, "no such image" yields false |
| ImageCache.ThrowsWhenUnableToInspect | packages/testcontainers/src/container-runtime/utils/image-exists.test.ts:52-58 | on a fresh cache, any other inspection error is raised with its message |
| ImageCache.ImageExistsCache.constructor | packages/testcontainers/src/container-runtime/utils/image-exists.test.ts:16-18 | a freshly loaded module remembers nothing and has made no inspection |
| ImageCache.ImageExistsCache.ImageExists | packages/testcontainers/src/container-runtime/utils/image-exists.test.ts:20-58 | the object's new state and result are one `Answer` step, and the inspection count goes up exactly when the runtime was asked; a remembered name is answered from memory without an inspection |

## Left out

- The HTTP client and its agent are not modelled. This covers undici's `request`, the insecure `Agent`, and the `AbortSignal` read timeout. An attempt's reply is an input, and the insecure flag is passed along in the request.
- Real time is not modelled. This covers `IntervalRetry`, the sleep between attempts, and the clock. The deadline is the end of the given attempts, so the read timeout's second use, as the retry interval, has no effect in the model.
- `startupTimeoutMs` is taken as a constructor argument. It belongs to the base wait strategy, which is not part of this model, and only enters the timeout message here.
- Debug and error logging is not modelled. The container runtime client, Dockerode and `BoundPorts` are not modelled either: the runtime host and the port bindings are inputs, and a missing binding makes the attempt fail and be retried.
- Reading the response body is simplified. The model reads it as text once, before the predicates run, so single-use bodies and a `text()` call that rejects are not modelled. The predicate and status callbacks are pure Dafny functions, so a callback that throws is not modelled either.
- `undiciResponseToFetchResponse` is not part of this model. `ok` is taken from the Fetch standard as a status in 200..299.
- HttpWait.HttpWaitStrategy.WithHeaders: headers are a map, so the key order of the JavaScript object is not modelled.
- Text.Decimal: renders only non-negative integers. Host ports and timeouts are non-negative, and JavaScript number formatting of fractions or exponents is not modelled.
- Utf8.Encode: strings are sequences of Unicode scalar values. A JavaScript string holding a lone UTF-16 surrogate, which `Buffer.from` turns into U+FFFD, cannot be expressed.
- Log streaming is modelled as its result. The chunks arrive as a finite sequence, or the fetch fails as a whole, so a stream that errors part-way is not modelled.
- The image cache's source, `image-exists.ts`, is not part of this model. Its behaviour is taken from its unit test, plus an assumption about the cache's intended behaviour that the unit test does not pin down: "no such image" is remembered and other errors are not.
- ImageCache.Answer: remembering "no such image" rests on that assumption alone. The unit test never queries a name again after "no such image". An implementation that remembers only images found to exist would ask the runtime again after "no such image". For it, RememberedAnswerIsFinal, EveryNameRemembered and OneInspectionPerNewName would hold only for found names.
- ImageCache.ImageExistsCache.ImageExists: concurrent callers are not modelled. The cache is intended to let them share one in-flight inspection, but the model is sequential.
- Classifying an inspection error as "no such image" is an input (`NotFound`), because the error's text is produced by the runtime.
- The repository's integration tests for the Azurite, Weaviate and Datastore emulator modules and for the port forwarder drive real containers through vendor SDKs or `curl`. None of them calls the HTTP wait strategy directly, and they are outside the modelled core.
- The timeout failure is a plain `Error` with the message "URL {path} not accessible after {startupTimeoutMs}ms". The code throws no dedicated timeout error type naming the strategy and the elapsed time, so the model has none either.
