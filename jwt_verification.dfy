/** Token verification (`verify_decode_jwt`): fetch the key set, read the
    token's unverified header, select the signing key by its key identifier
    (`kid`), and hand token and key to the JWT library, whose outcome is
    mapped to fixed errors. Header decoding and signature and claims
    checking are the library's and appear here as parameters. */
module JwtVerification {
  import opened PyValues
  import opened Errors
  import opened KeySetCache

  /** The deployment's settings: identity-provider domain, allowed
      signature algorithms, expected audience. */
  datatype Config = Config(domain: string, algorithms: seq<string>, audience: string)

  /** The issuer a token must name: `https://{domain}/`. */
  function Issuer(config: Config): string
  {
    "https://" + config.domain + "/"
  }

  /** The arguments of `jwt.decode`. */
  datatype DecodeRequest = DecodeRequest(token: string, key: Object, algorithms: seq<string>, audience: string, issuer: string)

  /** The outcome classes of `jwt.decode`: the claims payload, or the
      exception it raised. */
  datatype DecodeOutcome = Decoded(payload: Object) | Expired | ClaimsInvalid | OtherFailure

  /** The members of a key that the selected key keeps. */
  const KeyMembers: set<string> := {"kty", "kid", "use", "n", "e"}

  /** The selected key: the key's `kty`, `kid`, `use`, `n` and `e`, each
      `None` when the key lacks it, and nothing else. */
  function ProjectKey(key: Object): (k: Object)
    ensures k.Keys == KeyMembers
    ensures forall m :: m in KeyMembers ==> k[m] == Get(key, m)
  {
    map["kty" := Get(key, "kty"), "kid" := Get(key, "kid"), "use" := Get(key, "use"),
        "n" := Get(key, "n"), "e" := Get(key, "e")]
  }

  /** A key-set entry whose `kid` (None when absent) equals `kid`. */
  predicate Matches(entry: Json, kid: Json)
  {
    entry.JObj? && Get(entry.fields, "kid") == kid
  }

  /** The first `i` entries are keys that do not match. */
  predicate PassedOver(entries: seq<Json>, kid: Json, i: nat)
    requires i <= |entries|
  {
    forall j :: 0 <= j < i ==> entries[j].JObj? && !Matches(entries[j], kid)
  }

  /** The values that `for key in jwks.get('keys', [])` visits; `.get` on a
      document that is not an object, or on a visited string, raises
      `AttributeError`, and a number, boolean or null is not iterable. */
  function KeyEntries(jwks: Json): (r: Result<seq<Json>>)
    ensures !jwks.JObj? ==> r == Err(Crash(AttributeError))
    ensures jwks.JObj? && "keys" !in jwks.fields ==> r == Ok([])
    ensures jwks.JObj? && "keys" in jwks.fields ==>
      var keys := jwks.fields["keys"];
      && (keys.JArr? ==> r == Ok(keys.items))
      && (keys == JObj(map[]) || keys == JStr("") ==> r == Ok([]))
      && ((keys.JObj? && keys != JObj(map[])) || (keys.JStr? && keys != JStr("")) ==> r == Err(Crash(AttributeError)))
      && (keys.JNum? || keys.JBool? || keys.JNull? ==> r == Err(Crash(TypeError)))
  {
    if !jwks.JObj? then
      Err(Crash(AttributeError))
    else
      match GetOr(jwks.fields, "keys", JArr([]))
      case JArr(items) => Ok(items)
      case JObj(m) => if m == map[] then Ok([]) else Err(Crash(AttributeError))
      case JStr(s) => if s == "" then Ok([]) else Err(Crash(AttributeError))
      case _ => Err(Crash(TypeError))
  }

  /** The key the loop settles on: the projection of the first entry that
      matches, `None` when no entry does, and `AttributeError` when an entry
      before the first match is not an object. */
  function FirstMatch(entries: seq<Json>, kid: Json): (r: Result<Option<Object>>)
    decreases |entries|
  {
    if entries == [] then Ok(None)
    else if !entries[0].JObj? then Err(Crash(AttributeError))
    else if Matches(entries[0], kid) then Ok(Some(ProjectKey(entries[0].fields)))
    else FirstMatch(entries[1..], kid)
  }

  lemma PassedOverTail(entries: seq<Json>, kid: Json, i: nat)
    requires 0 < i <= |entries|
    ensures PassedOver(entries, kid, i) <==>
              entries[0].JObj? && !Matches(entries[0], kid) && PassedOver(entries[1..], kid, i - 1)
  {
    assert forall j :: 0 < j < i ==> entries[j] == entries[1..][j - 1];
  }

  /** The key selected is that of the first entry in array order that matches. */
  lemma {:induction false} FirstMatchIsFirst(entries: seq<Json>, kid: Json, i: nat)
    requires i < |entries| && PassedOver(entries, kid, i) && Matches(entries[i], kid)
    ensures FirstMatch(entries, kid) == Ok(Some(ProjectKey(entries[i].fields)))
    decreases i
  {
    if i > 0 {
      PassedOverTail(entries, kid, i);
      FirstMatchIsFirst(entries[1..], kid, i - 1);
    }
  }

  /** No key is selected exactly when every entry is a key that does not match. */
  lemma {:induction false} FirstMatchNone(entries: seq<Json>, kid: Json)
    ensures FirstMatch(entries, kid) == Ok(None) <==> PassedOver(entries, kid, |entries|)
    decreases |entries|
  {
    if entries != [] {
      PassedOverTail(entries, kid, |entries|);
      FirstMatchNone(entries[1..], kid);
    }
  }

  /** The loop raises exactly when it reaches an entry that is not an object
      before any match, and what it raises is `AttributeError`. */
  lemma {:induction false} FirstMatchRaises(entries: seq<Json>, kid: Json)
    ensures FirstMatch(entries, kid).Err? <==>
              exists i :: 0 <= i < |entries| && PassedOver(entries, kid, i) && !entries[i].JObj?
    ensures FirstMatch(entries, kid).Err? ==> FirstMatch(entries, kid) == Err(Crash(AttributeError))
    decreases |entries|
  {
    if entries != [] {
      var rest := entries[1..];
      FirstMatchRaises(rest, kid);
      assert PassedOver(entries, kid, 0);
      if entries[0].JObj? && !Matches(entries[0], kid) {
        forall i | 0 < i < |entries| && PassedOver(entries, kid, i) && !entries[i].JObj?
          ensures PassedOver(rest, kid, i - 1) && !rest[i - 1].JObj?
        {
          PassedOverTail(entries, kid, i);
        }
        forall k | 0 <= k < |rest| && PassedOver(rest, kid, k) && !rest[k].JObj?
          ensures PassedOver(entries, kid, k + 1) && !entries[k + 1].JObj?
        {
          PassedOverTail(entries, kid, k + 1);
        }
      } else if entries[0].JObj? {
        forall i | 0 < i < |entries|
          ensures !PassedOver(entries, kid, i)
        {
          PassedOverTail(entries, kid, i);
        }
      }
    }
  }

  /** The selected key carries the token's `kid`. */
  lemma FirstMatchKid(entries: seq<Json>, kid: Json)
    requires FirstMatch(entries, kid).Ok? && FirstMatch(entries, kid).value.Some?
    ensures FirstMatch(entries, kid).value.value.Keys == KeyMembers
    ensures FirstMatch(entries, kid).value.value["kid"] == kid
    decreases |entries|
  {
    if !Matches(entries[0], kid) {
      FirstMatchKid(entries[1..], kid);
    }
  }

  /** `dict.get` gives `None` for a missing member, so a token header whose
      `kid` is JSON null selects a key that has no `kid` at all. */
  lemma NullKidSelectsKeyWithoutKid(entries: seq<Json>, i: nat)
    requires i < |entries| && entries[i].JObj? && "kid" !in entries[i].fields
    requires PassedOver(entries, JNull, i)
    ensures FirstMatch(entries, JNull) == Ok(Some(ProjectKey(entries[i].fields)))
    ensures ProjectKey(entries[i].fields)["kid"] == JNull
  {
    FirstMatchIsFirst(entries, JNull, i);
  }

  /** The `for key in ...: if ...: rsa_key = {...}; break` loop. */
  method SelectKey(entries: seq<Json>, kid: Json) returns (r: Result<Option<Object>>)
    ensures r == FirstMatch(entries, kid)
  {
    var rsaKey: Option<Object> := None;
    var i := 0;
    while i < |entries|
      invariant 0 <= i <= |entries|
      invariant FirstMatch(entries, kid) == FirstMatch(entries[i..], kid)
    {
      var key := entries[i];
      assert entries[i..][1..] == entries[i + 1..];
      if !key.JObj? {
        return Err(Crash(AttributeError));
      }
      if Get(key.fields, "kid") == kid {
        rsaKey := Some(ProjectKey(key.fields));
        break;
      }
      i := i + 1;
    }
    return Ok(rsaKey);
  }

  /** `verify_decode_jwt(token)`, given what `_get_jwks()` returned, what
      `jwt.get_unverified_header` gives for each token (None when it raises)
      and what `jwt.decode` gives for each request. */
  function VerifyDecode(token: string, jwks: Result<Json>, unverifiedHeader: string -> Option<Object>,
                        decode: DecodeRequest -> DecodeOutcome, config: Config): (r: Result<Object>)
  {
    var doc :- jwks;
    var header := unverifiedHeader(token);
    if header.None? then
      Fail(HeaderUnparseable)
    else if "kid" !in header.value then
      Fail(KidMissing)
    else
      var entries :- KeyEntries(doc);
      var found :- FirstMatch(entries, header.value["kid"]);
      if found.None? then
        Fail(KeyNotFound)
      else
        match decode(DecodeRequest(token, found.value, config.algorithms, config.audience, Issuer(config)))
        case Decoded(payload) => Ok(payload)
        case Expired => Fail(TokenExpired)
        case ClaimsInvalid => Fail(ClaimsRejected)
        case OtherFailure => Fail(TokenUnparseable)
  }

  /** The key set is obtained before the token is looked at: a failed
      fetch is what the caller sees, whatever the token. */
  lemma FetchFailureFirst(token: string, jwks: Result<Json>, unverifiedHeader: string -> Option<Object>,
                          decode: DecodeRequest -> DecodeOutcome, config: Config)
    requires jwks.Err?
    ensures VerifyDecode(token, jwks, unverifiedHeader, decode, config) == Err(jwks.raised)
  {
  }

  /** Once the header carries a `kid`, a key-set document whose keys cannot
      be iterated, or a loop that reaches an entry that is not an object
      before any match, escapes as the uncaught Python exception. */
  lemma MalformedKeySetRaises(token: string, doc: Json, unverifiedHeader: string -> Option<Object>,
                              decode: DecodeRequest -> DecodeOutcome, config: Config)
    requires unverifiedHeader(token).Some? && "kid" in unverifiedHeader(token).value
    ensures KeyEntries(doc).Err? ==>
      VerifyDecode(token, Ok(doc), unverifiedHeader, decode, config) == Err(KeyEntries(doc).raised)
    ensures KeyEntries(doc).Ok? && FirstMatch(KeyEntries(doc).value, unverifiedHeader(token).value["kid"]).Err? ==>
      VerifyDecode(token, Ok(doc), unverifiedHeader, decode, config) == Err(Crash(AttributeError))
  {
    if KeyEntries(doc).Ok? {
      FirstMatchRaises(KeyEntries(doc).value, unverifiedHeader(token).value["kid"]);
    }
  }

  /** A token whose header cannot be read, or has no `kid`, is refused with
      401 before any key is looked at. */
  lemma HeaderRefused(token: string, doc: Json, unverifiedHeader: string -> Option<Object>,
                      decode: DecodeRequest -> DecodeOutcome, config: Config)
    requires unverifiedHeader(token).None? || "kid" !in unverifiedHeader(token).value
    ensures var r := VerifyDecode(token, Ok(doc), unverifiedHeader, decode, config);
      && r == (if unverifiedHeader(token).None? then Fail(HeaderUnparseable) else Fail(KidMissing))
      && r.raised.error.statusCode == 401
  {
  }

  /** When the key set holds no key with the token's `kid` (an absent `keys`
      included), the token is refused with `invalid_header` 401, "Unable to
      find the appropriate key.", and the library is never called. */
  lemma NoMatchingKeyRefused(token: string, doc: Json, unverifiedHeader: string -> Option<Object>,
                             decode: DecodeRequest -> DecodeOutcome, config: Config, entries: seq<Json>)
    requires unverifiedHeader(token).Some? && "kid" in unverifiedHeader(token).value
    requires KeyEntries(doc) == Ok(entries)
    requires PassedOver(entries, unverifiedHeader(token).value["kid"], |entries|)
    ensures VerifyDecode(token, Ok(doc), unverifiedHeader, decode, config) == Fail(KeyNotFound)
    ensures KeyNotFound.statusCode == 401
  {
    FirstMatchNone(entries, unverifiedHeader(token).value["kid"]);
  }

  /** Once a key is selected, the library's four outcomes map to: the payload
      untouched, `token_expired` 401, `invalid_claims` 401, `invalid_header` 400. */
  lemma DecodeOutcomeMapped(token: string, doc: Json, unverifiedHeader: string -> Option<Object>,
                            decode: DecodeRequest -> DecodeOutcome, config: Config, entries: seq<Json>, key: Object)
    requires unverifiedHeader(token).Some? && "kid" in unverifiedHeader(token).value
    requires KeyEntries(doc) == Ok(entries)
    requires FirstMatch(entries, unverifiedHeader(token).value["kid"]) == Ok(Some(key))
    ensures var r := VerifyDecode(token, Ok(doc), unverifiedHeader, decode, config);
      match decode(DecodeRequest(token, key, config.algorithms, config.audience, "https://" + config.domain + "/"))
      case Decoded(payload) => r == Ok(payload)
      case Expired => r == Fail(TokenExpired) && r.raised.error.statusCode == 401
      case ClaimsInvalid => r == Fail(ClaimsRejected) && r.raised.error.statusCode == 401
      case OtherFailure => r == Fail(TokenUnparseable) && r.raised.error.statusCode == 400
  {
  }

  /** A token is accepted only through the first key of the key set whose
      `kid` is the token's, with the configured algorithms, audience and
      issuer; the payload is the library's, untouched. */
  lemma VerifiedThroughMatchingKey(token: string, jwks: Result<Json>, unverifiedHeader: string -> Option<Object>,
                                   decode: DecodeRequest -> DecodeOutcome, config: Config)
    requires VerifyDecode(token, jwks, unverifiedHeader, decode, config).Ok?
    ensures jwks.Ok? && unverifiedHeader(token).Some? && "kid" in unverifiedHeader(token).value
    ensures KeyEntries(jwks.value).Ok?
    ensures var kid := unverifiedHeader(token).value["kid"];
      var found := FirstMatch(KeyEntries(jwks.value).value, kid);
      && found.Ok? && found.value.Some?
      && found.value.value.Keys == KeyMembers && found.value.value["kid"] == kid
      && decode(DecodeRequest(token, found.value.value, config.algorithms, config.audience, Issuer(config)))
         == Decoded(VerifyDecode(token, jwks, unverifiedHeader, decode, config).value)
  {
    FirstMatchKid(KeyEntries(jwks.value).value, unverifiedHeader(token).value["kid"]);
  }

  /** `verify_decode_jwt(token)` against the process's key-set memo. */
  method VerifyDecodeJwt(cache: JwksMemo, token: string, fetch: string -> FetchOutcome,
                         unverifiedHeader: string -> Option<Object>, decode: DecodeRequest -> DecodeOutcome,
                         config: Config) returns (r: Result<Object>)
    modifies cache
    ensures var s := Lookup(old(cache.memo), fetch(JwksUrl(config.domain)));
      && r == VerifyDecode(token, s.result, unverifiedHeader, decode, config)
      && cache.memo == s.memo
      && cache.requests == old(cache.requests) + (if s.fetched then 1 else 0)
  {
    var jwks := cache.GetKeySet(config.domain, fetch);
    var doc :- jwks;
    var header := unverifiedHeader(token);
    if header.None? {
      return Fail(HeaderUnparseable);
    }
    if "kid" !in header.value {
      return Fail(KidMissing);
    }
    var entries :- KeyEntries(doc);
    var found :- SelectKey(entries, header.value["kid"]);
    if found.None? {
      return Fail(KeyNotFound);
    }
    var outcome := decode(DecodeRequest(token, found.value, config.algorithms, config.audience, Issuer(config)));
    match outcome {
      case Decoded(payload) => r := Ok(payload);
      case Expired => r := Fail(TokenExpired);
      case ClaimsInvalid => r := Fail(ClaimsRejected);
      case OtherFailure => r := Fail(TokenUnparseable);
    }
  }
}
