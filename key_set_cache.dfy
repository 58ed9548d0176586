/** The one-slot memo of the identity provider's key set (`_get_jwks` under
    `lru_cache(maxsize=1)`): the first successful fetch is kept for the life
    of the process; a failed fetch is not kept, so the next call fetches again. */
module KeySetCache {
  import opened PyValues
  import opened Errors

  /** What one request to the key-set endpoint gives: a JSON body, a
      `URLError`, or a body that `json.loads` rejects. */
  datatype FetchOutcome = Body(doc: Json) | UrlError | NotJson

  /** The key-set endpoint of the identity-provider domain. */
  function JwksUrl(domain: string): string
  {
    "https://" + domain + "/.well-known/jwks.json"
  }

  /** One call of `_get_jwks`: what it returns, the memo afterwards, and
      whether it went to the network. */
  datatype Step = Step(result: Result<Json>, memo: Option<Json>, fetched: bool)

  /** A call against the memo `memo`, where `fetch` is what the network would
      give if it were asked. */
  function Lookup(memo: Option<Json>, fetch: FetchOutcome): (s: Step)
    ensures memo.Some? ==> s == Step(Ok(memo.value), memo, false)
    ensures memo.None? ==> s.fetched
    ensures s.result.Ok? <==> s.memo.Some?
    ensures s.memo.Some? ==> s.result == Ok(s.memo.value)
    ensures memo.None? && fetch.Body? ==> s.result == Ok(fetch.doc)
    ensures memo.None? && fetch.UrlError? ==> s.result == Fail(JwksFetchError)
    ensures memo.None? && fetch.NotJson? ==> s == Step(Err(Crash(ValueError)), None, true)
  {
    match memo
    case Some(doc) => Step(Ok(doc), memo, false)
    case None =>
      match fetch
      case Body(doc) => Step(Ok(doc), Some(doc), true)
      case UrlError => Step(Fail(JwksFetchError), None, true)
      case NotJson => Step(Err(Crash(ValueError)), None, true)
  }

  /** Consecutive calls, the i-th of which would see `fetches[i]` from the
      network: their results, the final memo and how many went to the network. */
  datatype Run = Run(results: seq<Result<Json>>, memo: Option<Json>, requests: nat)

  function Calls(memo: Option<Json>, fetches: seq<FetchOutcome>): (run: Run)
    ensures |run.results| == |fetches|
    ensures run.requests <= |fetches|
    decreases |fetches|
  {
    if fetches == [] then Run([], memo, 0)
    else
      var s := Lookup(memo, fetches[0]);
      var rest := Calls(s.memo, fetches[1..]);
      Run([s.result] + rest.results, rest.memo, rest.requests + (if s.fetched then 1 else 0))
  }

  /** The number of calls up to and including the first fetch that gives a body. */
  function UntilFirstBody(fetches: seq<FetchOutcome>): (n: nat)
    ensures n <= |fetches|
  {
    if fetches == [] then 0
    else if fetches[0].Body? then 1
    else 1 + UntilFirstBody(fetches[1..])
  }

  /** Once a key set is held, every later call returns it without a request. */
  lemma {:induction false} HeldKeySetIsFinal(doc: Json, fetches: seq<FetchOutcome>)
    ensures Calls(Some(doc), fetches) == Run(seq(|fetches|, _ => Ok(doc)), Some(doc), 0)
    decreases |fetches|
  {
    if fetches != [] {
      HeldKeySetIsFinal(doc, fetches[1..]);
    }
  }

  /** From an empty memo, calls go to the network until the first one that
      gets a body, and never again; every call that succeeds returns that
      same key set. */
  lemma {:induction false} FetchesUntilFirstBody(fetches: seq<FetchOutcome>)
    ensures Calls(None, fetches).requests == UntilFirstBody(fetches)
    ensures forall i, j ::
              && 0 <= i < |fetches| && 0 <= j < |fetches|
              && Calls(None, fetches).results[i].Ok? && Calls(None, fetches).results[j].Ok?
              ==> Calls(None, fetches).results[i] == Calls(None, fetches).results[j]
    decreases |fetches|
  {
    if fetches != [] {
      var run := Calls(None, fetches);
      if fetches[0].Body? {
        HeldKeySetIsFinal(fetches[0].doc, fetches[1..]);
      } else {
        FetchesUntilFirstBody(fetches[1..]);
        assert forall i :: 0 < i < |fetches| ==> run.results[i] == Calls(None, fetches[1..]).results[i - 1];
      }
    }
  }

  /** The memo of `_get_jwks`. `requests` counts the calls that went to the
      network; it exists only for the proof. */
  class JwksMemo {
    var memo: Option<Json>
    ghost var requests: nat

    constructor ()
      ensures memo == None && requests == 0
    {
      memo := None;
      requests := 0;
    }

    /** `_get_jwks()`, with the network request to the key-set endpoint of
        `domain` given as `fetch`. */
    method GetKeySet(domain: string, fetch: string -> FetchOutcome) returns (r: Result<Json>)
      modifies this
      ensures var s := Lookup(old(memo), fetch(JwksUrl(domain)));
        && r == s.result && memo == s.memo
        && requests == old(requests) + (if s.fetched then 1 else 0)
    {
      if memo.Some? {
        return Ok(memo.value);
      }
      requests := requests + 1;
      var outcome := fetch(JwksUrl(domain));
      match outcome {
        case Body(doc) =>
          memo := Some(doc);
          r := Ok(doc);
        case UrlError =>
          r := Fail(JwksFetchError);
        case NotJson =>
          r := Err(Crash(ValueError));
      }
    }
  }

  /** Two calls in a row on a fresh memo, the network answering `fetch1` to
      the first request and `fetch2` to any later one: a first call that
      succeeds is the only request and the second call returns the same key
      set; after a failed first call, the second call asks the network again. */
  method TwoCalls(domain: string, fetch1: string -> FetchOutcome, fetch2: string -> FetchOutcome)
    returns (first: Result<Json>, second: Result<Json>)
    ensures first.Ok? ==> second == first
    ensures first.Err? ==> second == Lookup(None, fetch2(JwksUrl(domain))).result
  {
    var cache := new JwksMemo();
    first := cache.GetKeySet(domain, fetch1);
    second := cache.GetKeySet(domain, fetch2);
    assert first.Ok? ==> cache.requests == 1;
  }
}
