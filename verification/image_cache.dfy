/** The memoised image-existence check `imageExists(name)`: the first query
    for an image name inspects the image through the runtime; what it learns
    (present, or "no such image") is remembered for the process, so a repeat
    query is answered without a second inspection; any other inspection error
    propagates and is not remembered.

    The runtime's inspection is an input: each query is given the answer the
    runtime would give if it were asked now. */
module ImageCache {
  import opened Common

  /** What inspecting an image reports: it exists, the runtime rejects with
      "no such image", or it rejects with any other error. */
  datatype InspectAnswer = Found | NotFound | OtherError(message: string)

  /** One query: the image name, and what the runtime would answer. */
  datatype Query = Query(name: string, answer: InspectAnswer)

  /** One query against the remembered answers: the new remembered answers,
      the result, and whether the runtime was asked. */
  datatype Step = Step(known: map<string, bool>, result: Result<bool>, inspected: bool)

  function Answer(known: map<string, bool>, q: Query): (s: Step)
    ensures s.inspected <==> q.name !in known
    ensures known.Keys <= s.known.Keys <= known.Keys + {q.name}
    ensures forall n :: n in known ==> s.known[n] == known[n]
    ensures q.name in s.known ==> s.result == Ok(s.known[q.name])
    ensures s.result.Err? ==> q.name !in s.known && q.answer == OtherError(s.result.message)
    ensures q.name !in known && q.answer == Found ==> s.result == Ok(true)
    ensures q.name !in known && q.answer == NotFound ==> s.result == Ok(false)
  {
    if q.name in known then Step(known, Ok(known[q.name]), false)
    else match q.answer
      case Found => Step(known[q.name := true], Ok(true), true)
      case NotFound => Step(known[q.name := false], Ok(false), true)
      case OtherError(message) => Step(known, Err(message), true)
  }

  /** A run of queries in order: the remembered answers at the end, each
      query's result, and how many inspections were made. */
  datatype Trace = Trace(known: map<string, bool>, results: seq<Result<bool>>, inspections: nat)

  function Replay(known: map<string, bool>, queries: seq<Query>): (t: Trace)
    ensures |t.results| == |queries|
    ensures t.inspections <= |queries|
    ensures known.Keys <= t.known.Keys
    ensures forall n :: n in known ==> t.known[n] == known[n]
    decreases |queries|
  {
    if |queries| == 0 then Trace(known, [], 0)
    else
      var s := Answer(known, queries[0]);
      var t := Replay(s.known, queries[1..]);
      Trace(t.known, [s.result] + t.results, t.inspections + if s.inspected then 1 else 0)
  }

  /** The names of the queries. */
  function Names(queries: seq<Query>): set<string> {
    set k | 0 <= k < |queries| :: queries[k].name
  }

  predicate NoOtherErrors(queries: seq<Query>) {
    forall k :: 0 <= k < |queries| ==> !queries[k].answer.OtherError?
  }

  /** A remembered name is answered from memory by every later query for it,
      whatever the runtime would say. */
  lemma {:induction false} RememberedAnswerIsFinal(known: map<string, bool>, queries: seq<Query>, name: string)
    requires name in known
    ensures forall k :: 0 <= k < |queries| && queries[k].name == name ==>
      Replay(known, queries).results[k] == Ok(known[name])
    decreases |queries|
  {
    if |queries| > 0 {
      var s := Answer(known, queries[0]);
      RememberedAnswerIsFinal(s.known, queries[1..], name);
      forall k | 1 <= k < |queries| && queries[k].name == name
        ensures Replay(known, queries).results[k] == Ok(known[name])
      {
        assert queries[1..][k - 1] == queries[k];
      }
    }
  }

  lemma NamesCons(queries: seq<Query>)
    requires |queries| > 0
    ensures Names(queries) == {queries[0].name} + Names(queries[1..])
  {
    var rest := Names(queries[1..]);
    forall n | n in Names(queries) ensures n in {queries[0].name} + rest {
      var k :| 0 <= k < |queries| && queries[k].name == n;
      if k > 0 { assert queries[1..][k - 1] == queries[k]; }
    }
    forall n | n in rest ensures n in Names(queries) {
      var k :| 0 <= k < |queries| - 1 && queries[1..][k].name == n;
      assert queries[k + 1].name == n;
    }
  }

  lemma NewNamesCons(before: set<string>, name: string, rest: set<string>)
    ensures name in before ==> |({name} + rest) - before| == |rest - (before + {name})|
    ensures name !in before ==> |({name} + rest) - before| == |rest - (before + {name})| + 1
  {
    if name in before {
      assert ({name} + rest) - before == rest - (before + {name});
    } else {
      assert ({name} + rest) - before == {name} + (rest - (before + {name}));
    }
  }

  /** One query, then the rest: how a replay unfolds. */
  lemma ReplayCons(known: map<string, bool>, queries: seq<Query>)
    requires |queries| > 0
    ensures var s := Answer(known, queries[0]);
      var t := Replay(s.known, queries[1..]);
      Replay(known, queries).known == t.known &&
      Replay(known, queries).inspections == t.inspections + if s.inspected then 1 else 0
  {
  }

  lemma NoOtherErrorsTail(queries: seq<Query>)
    requires |queries| > 0 && NoOtherErrors(queries)
    ensures !queries[0].answer.OtherError? && NoOtherErrors(queries[1..])
  {
    forall k | 0 <= k < |queries| - 1 ensures !queries[1..][k].answer.OtherError? {
      assert queries[1..][k] == queries[k + 1];
    }
  }

  /** Without other errors, a query remembers its name, and asks the runtime
      exactly when the name was not remembered before. */
  lemma AnswerRemembers(known: map<string, bool>, q: Query)
    requires !q.answer.OtherError?
    ensures Answer(known, q).known.Keys == known.Keys + {q.name}
    ensures Answer(known, q).inspected == (q.name !in known)
  {
  }

  /** Without other errors, every queried name ends up remembered. */
  lemma {:induction false} EveryNameRemembered(known: map<string, bool>, queries: seq<Query>)
    requires NoOtherErrors(queries)
    ensures Replay(known, queries).known.Keys == known.Keys + Names(queries)
    decreases |queries|
  {
    if |queries| > 0 {
      var s := Answer(known, queries[0]);
      NoOtherErrorsTail(queries);
      EveryNameRemembered(s.known, queries[1..]);
      ReplayCons(known, queries);
      AnswerRemembers(known, queries[0]);
      NamesCons(queries);
    }
  }

  /** Without other errors, the runtime is asked exactly once per name that
      was not already remembered. */
  lemma {:induction false} OneInspectionPerNewName(known: map<string, bool>, queries: seq<Query>)
    requires NoOtherErrors(queries)
    ensures Replay(known, queries).inspections == |Names(queries) - known.Keys|
    decreases |queries|
  {
    if |queries| > 0 {
      var q := queries[0];
      var s := Answer(known, q);
      NoOtherErrorsTail(queries);
      OneInspectionPerNewName(s.known, queries[1..]);
      ReplayCons(known, queries);
      AnswerRemembers(known, q);
      NamesCons(queries);
      NewNamesCons(known.Keys, q.name, Names(queries[1..]));
    }
  }

  /** An error other than "no such image" is not remembered: the next query
      for that name asks the runtime again. */
  lemma ErrorIsNotRemembered(known: map<string, bool>, name: string, message: string, next: InspectAnswer)
    requires name !in known
    ensures Replay(known, [Query(name, OtherError(message)), Query(name, next)]).inspections == 2
    ensures Replay(known, [Query(name, OtherError(message)), Query(name, next)]).results[0] == Err(message)
  {
    var queries := [Query(name, OtherError(message)), Query(name, next)];
    assert queries[1..] == [Query(name, next)];
    assert queries[1..][1..] == [];
  }

  /** A cache entry for one name never answers a query for another: after
      "no such image" for one image, an error while inspecting a different
      image still propagates. */
  lemma OtherNamesNotServed(known: map<string, bool>, cached: string, other: string, message: string)
    requires other != cached && other !in known
    ensures Replay(known, [Query(cached, NotFound), Query(other, OtherError(message))]).results[1] == Err(message)
  {
    var queries := [Query(cached, NotFound), Query(other, OtherError(message))];
    assert queries[1..] == [Query(other, OtherError(message))];
    assert queries[1..][1..] == [];
  }

  // ---------------------------------------------------------------------
  // The four cases of the unit test, each on a fresh cache
  // ---------------------------------------------------------------------

  /** "returns true when image exists" */
  lemma ReturnsTrueWhenImageExists(name: string)
    ensures Replay(map[], [Query(name, Found)]).results == [Ok(true)]
  {
    assert [Query(name, Found)][1..] == [];
  }

  /** "returns previous result from cache": the second query is answered
      from memory, whatever the runtime would now say, and the runtime is
      asked once. */
  lemma ReturnsPreviousResultFromCache(name: string, later: InspectAnswer)
    ensures Replay(map[], [Query(name, Found), Query(name, later)]).results == [Ok(true), Ok(true)]
    ensures Replay(map[], [Query(name, Found), Query(name, later)]).inspections == 1
  {
    var queries := [Query(name, Found), Query(name, later)];
    assert queries[1..] == [Query(name, later)];
    assert queries[1..][1..] == [];
  }

  /** "returns false when image inspect fails because image does not exist" */
  lemma ReturnsFalseWhenNoSuchImage(name: string)
    ensures Replay(map[], [Query(name, NotFound)]).results == [Ok(false)]
  {
    assert [Query(name, NotFound)][1..] == [];
  }

  /** "throws when unable to inspect image": the error propagates with its
      message. */
  lemma ThrowsWhenUnableToInspect(name: string, message: string)
    ensures Replay(map[], [Query(name, OtherError(message))]).results == [Err(message)]
  {
    assert [Query(name, OtherError(message))][1..] == [];
  }

  // ---------------------------------------------------------------------
  // The module-level state, as an object
  // ---------------------------------------------------------------------

  /** The cache the module keeps between calls, with a count of the
      inspections made so far. A fresh object is the state after the module
      is loaded anew. */
  class ImageExistsCache {
    var known: map<string, bool>
    var inspections: nat

    constructor ()
      ensures known == map[] && inspections == 0
    {
      known := map[];
      inspections := 0;
    }

    /** `imageExists(name)`, with `answer` standing for what the runtime's
        image inspection would report. */
    method ImageExists(name: string, answer: InspectAnswer) returns (result: Result<bool>)
      modifies this
      ensures var s := Answer(old(known), Query(name, answer));
        known == s.known && result == s.result &&
        inspections == old(inspections) + if s.inspected then 1 else 0
      ensures name in old(known) ==> result == Ok(old(known)[name]) && inspections == old(inspections)
    {
      if name in known {
        return Ok(known[name]);
      }
      inspections := inspections + 1;
      match answer
      case Found =>
        known := known[name := true];
        result := Ok(true);
      case NotFound =>
        known := known[name := false];
        result := Ok(false);
      case OtherError(message) =>
        result := Err(message);
    }
  }

  /** The unit test's cases against the object, each on a fresh cache. */
  method UnitTestCases(name: string, message: string)
  {
    var cache := new ImageExistsCache();
    var r := cache.ImageExists(name, Found);
    assert r == Ok(true);

    cache := new ImageExistsCache();
    r := cache.ImageExists(name, Found);
    r := cache.ImageExists(name, Found);
    assert r == Ok(true) && cache.inspections == 1;

    cache := new ImageExistsCache();
    r := cache.ImageExists(name, NotFound);
    assert r == Ok(false);

    cache := new ImageExistsCache();
    r := cache.ImageExists(name, OtherError(message));
    assert r == Err(message);
  }
}
