/** The route guard (`requires_auth(permission)`): parse the header, verify
    the token, check the permission, in that order, and call the handler
    with the payload only when all three succeed. */
module Guard {
  import opened PyValues
  import opened Errors
  import opened TokenHeader
  import opened Permissions
  import opened KeySetCache
  import opened JwtVerification

  /** What one guarded request does before the handler: the payload or
      what was raised, the key-set memo afterwards, and whether the key set
      was fetched from the network. */
  datatype Attempt = Attempt(result: Result<Object>, memo: Option<Json>, fetched: bool)

  /** The checks of `requires_auth`'s wrapper for `permission`, with the
      memo `memo`, the network answer `fetch` and the JWT library given as
      `unverifiedHeader` and `decode`. */
  function Authorize(permission: string, auth: Option<string>, memo: Option<Json>, fetch: FetchOutcome,
                     unverifiedHeader: string -> Option<Object>, decode: DecodeRequest -> DecodeOutcome,
                     config: Config): (a: Attempt)
    ensures a.result.Ok? ==> CheckPermissions(permission, a.result.value) == Ok(true)
    ensures GetTokenAuthHeader(auth).Err? ==> a == Attempt(Err(GetTokenAuthHeader(auth).raised), memo, false)
    ensures GetTokenAuthHeader(auth).Ok? ==>
      var v := VerifyDecode(GetTokenAuthHeader(auth).value, Lookup(memo, fetch).result, unverifiedHeader, decode, config);
      && (v.Err? ==> a.result == Err(v.raised))
      && (v.Ok? && CheckPermissions(permission, v.value).Err? ==> a.result == Err(CheckPermissions(permission, v.value).raised))
    ensures memo.Some? ==> a.memo == memo && !a.fetched
    ensures GetTokenAuthHeader(auth).Ok? ==> a.memo == Lookup(memo, fetch).memo && a.fetched == Lookup(memo, fetch).fetched
  {
    match GetTokenAuthHeader(auth)
    case Err(e) => Attempt(Err(e), memo, false)
    case Ok(token) =>
      var step := Lookup(memo, fetch);
      var checked :=
        match VerifyDecode(token, step.result, unverifiedHeader, decode, config)
        case Err(e) => Err(e)
        case Ok(payload) =>
          match CheckPermissions(permission, payload)
          case Err(e) => Err(e)
          case Ok(_) => Ok(payload);
      Attempt(checked, step.memo, step.fetched)
  }

  /** The decorated handler `f(payload, *args)` under `requires_auth(permission)`,
      against the process's key-set memo. */
  method RequiresAuth<A, R>(cache: JwksMemo, permission: string, auth: Option<string>,
                            fetch: string -> FetchOutcome, unverifiedHeader: string -> Option<Object>,
                            decode: DecodeRequest -> DecodeOutcome, config: Config,
                            handler: (Object, A) -> R, args: A) returns (r: Result<R>)
    modifies cache
    ensures var a := Authorize(permission, auth, old(cache.memo), fetch(JwksUrl(config.domain)),
                               unverifiedHeader, decode, config);
      && r == (if a.result.Ok? then Ok(handler(a.result.value, args)) else Err(a.result.raised))
      && cache.memo == a.memo
      && cache.requests == old(cache.requests) + (if a.fetched then 1 else 0)
  {
    var token :- GetTokenAuthHeader(auth);
    var payload :- VerifyDecodeJwt(cache, token, fetch, unverifiedHeader, decode, config);
    var _ :- CheckPermissions(permission, payload);
    r := Ok(handler(payload, args));
  }

  /** Without an `Authorization` header, or with an empty one, the request is refused with
      `authorization_header_missing` 401, nothing is fetched, and neither the
      token, the key set nor the permission is looked at. */
  lemma MissingHeaderRevealsNothing(permission: string, auth: Option<string>, memo: Option<Json>, fetch: FetchOutcome,
                                    unverifiedHeader: string -> Option<Object>, decode: DecodeRequest -> DecodeOutcome,
                                    config: Config, permission': string, memo': Option<Json>, fetch': FetchOutcome,
                                    unverifiedHeader': string -> Option<Object>, decode': DecodeRequest -> DecodeOutcome,
                                    config': Config)
    requires auth.None? || auth.value == ""
    ensures Authorize(permission, auth, memo, fetch, unverifiedHeader, decode, config)
         == Attempt(Fail(HeaderMissing), memo, false)
    ensures Authorize(permission, auth, memo, fetch, unverifiedHeader, decode, config).result
         == Authorize(permission', auth, memo', fetch', unverifiedHeader', decode', config').result
  {
  }

  /** The handler's payload is the library's payload, and it is admitted
      exactly when the header, the verification and the permission check all
      succeed. */
  lemma GrantedExactlyWhenAllStepsPass(permission: string, auth: Option<string>, memo: Option<Json>, fetch: FetchOutcome,
                                       unverifiedHeader: string -> Option<Object>, decode: DecodeRequest -> DecodeOutcome,
                                       config: Config)
    ensures var a := Authorize(permission, auth, memo, fetch, unverifiedHeader, decode, config);
      var token := GetTokenAuthHeader(auth);
      a.result.Ok? <==>
        && token.Ok?
        && VerifyDecode(token.value, Lookup(memo, fetch).result, unverifiedHeader, decode, config).Ok?
        && CheckPermissions(permission, VerifyDecode(token.value, Lookup(memo, fetch).result, unverifiedHeader, decode, config).value) == Ok(true)
    ensures var a := Authorize(permission, auth, memo, fetch, unverifiedHeader, decode, config);
      a.result.Ok? ==>
        a.result.value == VerifyDecode(GetTokenAuthHeader(auth).value, Lookup(memo, fetch).result, unverifiedHeader, decode, config).value
  {
  }

  /** A token the library reports as expired is refused with `token_expired`
      401, whatever permission is asked for and whatever the token holds. */
  lemma ExpiryBeforePermission(permission: string, auth: Option<string>, memo: Option<Json>, fetch: FetchOutcome,
                               unverifiedHeader: string -> Option<Object>, decode: DecodeRequest -> DecodeOutcome,
                               config: Config)
    requires GetTokenAuthHeader(auth).Ok? && Lookup(memo, fetch).result.Ok?
    requires var header := unverifiedHeader(GetTokenAuthHeader(auth).value);
      var entries := KeyEntries(Lookup(memo, fetch).result.value);
      && header.Some? && "kid" in header.value && entries.Ok?
      && FirstMatch(entries.value, header.value["kid"]).Ok? && FirstMatch(entries.value, header.value["kid"]).value.Some?
    requires var header := unverifiedHeader(GetTokenAuthHeader(auth).value);
      var key := FirstMatch(KeyEntries(Lookup(memo, fetch).result.value).value, header.value["kid"]).value.value;
      decode(DecodeRequest(GetTokenAuthHeader(auth).value, key, config.algorithms, config.audience, Issuer(config))) == Expired
    ensures Authorize(permission, auth, memo, fetch, unverifiedHeader, decode, config).result == Fail(TokenExpired)
  {
  }

  /** A token that verifies but lacks the permission is refused with 403,
      not 401. */
  lemma ValidTokenWithoutPermissionForbidden(permission: string, auth: Option<string>, memo: Option<Json>, fetch: FetchOutcome,
                                             unverifiedHeader: string -> Option<Object>, decode: DecodeRequest -> DecodeOutcome,
                                             config: Config, grants: seq<string>)
    requires GetTokenAuthHeader(auth).Ok?
    requires var v := VerifyDecode(GetTokenAuthHeader(auth).value, Lookup(memo, fetch).result, unverifiedHeader, decode, config);
      v.Ok? && "permissions" in v.value && v.value["permissions"] == JArr(seq(|grants|, i requires 0 <= i < |grants| => JStr(grants[i])))
    requires permission !in grants
    ensures Authorize(permission, auth, memo, fetch, unverifiedHeader, decode, config).result == Fail(PermissionNotFound)
    ensures PermissionNotFound.statusCode == 403
  {
    var v := VerifyDecode(GetTokenAuthHeader(auth).value, Lookup(memo, fetch).result, unverifiedHeader, decode, config);
    var items := seq(|grants|, i requires 0 <= i < |grants| => JStr(grants[i]));
    forall i | 0 <= i < |items|
      ensures items[i] != JStr(permission)
    {
      assert items[i] == JStr(grants[i]);
    }
  }
}
