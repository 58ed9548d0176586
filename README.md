# Bearer-token authorization of the casting-agency API, in Dafny

This project models the authorization core of the casting-agency REST API
(`auth/auth.py`): the guard that every movie and actor route runs before its
handler. The guard

1. reads the `Authorization` header and extracts a bearer token from it
   (`get_token_auth_header`), splitting on runs of whitespace as Python's
   `str.split()` does and comparing the auth-scheme with `bearer` ignoring
   case (section 2.1 of RFC 6750, section 2.1 of RFC 7235);
2. verifies the token (`verify_decode_jwt`): it obtains the identity
   provider's JSON Web Key Set through a one-slot memo (`_get_jwks`), reads
   the token's unverified header, requires its `kid` member (section 4.1.4
   of RFC 7515), selects the first entry of the key set's `keys` array
   (section 5 of RFC 7517) with that `kid`, keeps only its `kty`, `kid`,
   `use`, `n` and `e`, and hands token and key to the JWT library, whose
   outcome it maps to fixed errors;
3. checks that the required permission is an element of the `permissions`
   claim (`check_permissions`);
4. calls the route handler with the decoded payload as its first argument
   only when all of that succeeded (`requires_auth`).

Every step returns a `Result`: a value, or what the Python code raises.
What it raises is either an `AuthError(code, description, status)` with the
source's exact codes, descriptions and statuses (module `Errors`), or a
Python exception that the code does not catch. Four of those can occur:

- `IndexError`: a header that is non-empty but all whitespace splits into
  no parts, and `parts[0]` fails;
- `AttributeError`: a key-set document that is not an object; a `keys`
  member that is a non-empty object or string, whose members or characters
  the loop visits and calls `.get` on; or an entry of `keys` that is not an
  object, reached before a matching key;
- `TypeError`: a `keys` member that is a number, a boolean or null, which
  cannot be iterated;
- `ValueError`: a key-set response that is not JSON.

These are modelled as their own outcomes, not folded into an AuthError.

Modules, one per part of the source file:

- `PyValues`: `None`/value options, JSON values, `dict.get`.
- `Errors`: `AuthError`, `Raised`, `Result` and the thirteen errors the file raises.
- `TokenHeader`: `str.split()`, with its inverse `Layout`, and `get_token_auth_header`.
- `Permissions`: `check_permissions`.
- `KeySetCache`: the `_get_jwks` memo. `Lookup` is one call as a state step.
  `JwksMemo` is the memo as an object whose `GetKeySet` method updates it.
- `JwtVerification`: key selection and `verify_decode_jwt`. The key-selection
  loop is the method `SelectKey`, proved equal to the recursive `FirstMatch`.
  `VerifyDecode` is the whole function. `VerifyDecodeJwt` is the method that
  runs it against the memo.
- `Guard`: `requires_auth`. `Authorize` gives the checks as a function;
  `RequiresAuth` is the wrapper method that calls the handler.

The parts that are not the repository's own code are parameters:

- the header value;
- the configuration (domain, algorithm list, audience);
- the network's answer to the key-set request (`FetchOutcome`);
- `jwt.get_unverified_header`, as a function from token to an optional header object;
- `jwt.decode`, as a function from its arguments (`DecodeRequest`) to one of four
  outcomes: the payload, expired, claims error, or any other failure.

Behaviours of the code that a reader might not expect, all of which the
model keeps:

- the key set is fetched before the token's header is read, so a failed
  fetch (500) is reported even for a malformed token;
- only a `URLError` becomes `jwks_fetch_error`, and a response that is not
  JSON escapes as `ValueError`;
- the `permissions` claim must be a list, but its elements are not checked
  to be strings;
- parts are separated by any run of whitespace, not only by single spaces;
- a header whose `kid` is JSON null selects the first key whose `kid` is
  absent or null (when every earlier entry is a key), because `dict.get`
  answers `None` for both;
- a `keys` member that is an empty object or an empty string is visited as
  an empty list, so the token is refused with `invalid_header` 401 rather
  than raising.

## Model

| member | source | states |
|---|---|---|
| `TokenHeader.GetTokenAuthHeader` | auth/auth.py:22-51 | A missing or empty header, and only that, gives `authorization_header_missing` 401. A non-empty all-whitespace header, and only that, raises `IndexError`. A returned token is a single non-empty whitespace-free part. |
| `TokenHeader.Split` | auth/auth.py:30 | `str.split()` gives non-empty whitespace-free parts, and none exactly when the string is all whitespace. |
| `TokenHeader.WordLength` | auth/auth.py:30 | The length of the longest whitespace-free prefix: every character before it is not whitespace, and the one at it is. |
| `TokenHeader.SplitLayout` | auth/auth.py:30 | Splitting words laid out with whitespace gaps (non-empty between words) gives back exactly those words. |
| `TokenHeader.LayoutOfSplit` | auth/auth.py:30 | Every string is its split parts laid out with whitespace gaps, non-empty between parts; with SplitLayout, the split is the unique such decomposition. |
| `TokenHeader.ParseLayout` | auth/auth.py:30-51 | For a header made of parts `ws`: a first part that is not `bearer` in any case gives the scheme error whatever the part count. With `bearer`, one part gives "Token not found.", more than two give "must be bearer token.", and two return the second part unchanged. |
| `TokenHeader.AcceptedHeader` | auth/auth.py:30-51 | A header is accepted only if it is exactly a `bearer` scheme and the returned token, with whitespace around and between them. |
| `TokenHeader.BasicSchemeReportedFirst` | auth/auth.py:30-36 | `"Basic a b c"` reports the scheme error, not the part count. |
| `TokenHeader.BearerTokenAccepted` | auth/auth.py:30-51 | A scheme equal to `bearer` in any case, one space and a whitespace-free token give back the token. |
| `Permissions.CheckPermissions` | auth/auth.py:53-67 | Granted iff the claim is present, is a list, and contains the permission as a string. `invalid_claims` 400 iff the claim is present but not a list. Otherwise `unauthorized` 403. |
| `Permissions.AbsentClaimForbidden` | auth/auth.py:54-65 | An absent `permissions` claim counts as the empty list, which gives `unauthorized` 403. |
| `Permissions.OnlyPermissionsClaimMatters` | auth/auth.py:53-54 | Changing any claim other than `permissions` does not change the verdict. |
| `Permissions.GrantSurvivesMoreEntries` | auth/auth.py:61-67 | A granted permission stays granted when entries of any type are added to the list. |
| `KeySetCache.Lookup` | auth/auth.py:69-79 | With a held key set, a call returns it, changes nothing and makes no request. With an empty memo, the call makes a request: a body is returned and kept, a `URLError` gives `jwks_fetch_error` 500, a body that is not JSON raises `ValueError`, and a failure leaves the memo empty. |
| `KeySetCache.Calls` | auth/auth.py:69-79 | A run of calls gives one result per call and makes at most one request per call. |
| `KeySetCache.HeldKeySetIsFinal` | auth/auth.py:69-74 | Once a key set is held, every later call returns it and none makes a request. |
| `KeySetCache.FetchesUntilFirstBody` | auth/auth.py:69-79 | From an empty memo, the requests made are exactly the calls up to and including the first one that gets a body. All successful calls return the same key set. |
| `KeySetCache.JwksMemo.GetKeySet` | auth/auth.py:69-79 | `_get_jwks()` on the memo object: its result, its new memo and its request count are those of `Lookup` on the old memo. |
| `KeySetCache.JwksMemo.constructor` | auth/auth.py:69 | The memo starts empty, with no requests made. |
| `KeySetCache.TwoCalls` | auth/auth.py:69-79 | After a successful first call, the second call returns the same key set. After a failed first call, the second call asks the network again. |
| `JwtVerification.ProjectKey` | auth/auth.py:101-107 | The selected key has exactly the members `kty, kid, use, n, e`, each the key's own value or `None` when absent. |
| `JwtVerification.KeyEntries` | auth/auth.py:99 | An absent `keys`, an empty object and an empty string are the empty list, and a `keys` list is visited as is. A document that is not an object, or a non-empty object or string as `keys`, raises `AttributeError`; a number, boolean or null as `keys` raises `TypeError`. |
| `JwtVerification.FirstMatchIsFirst` | auth/auth.py:98-108 | When entry `i` matches and every earlier entry is a non-matching key, the selected key is the projection of entry `i`, the first match in array order. |
| `JwtVerification.FirstMatchNone` | auth/auth.py:98-114 | No key is selected exactly when every entry is a key whose `kid` differs. |
| `JwtVerification.FirstMatchRaises` | auth/auth.py:99-100 | The loop raises exactly when it reaches a non-object entry before any match, and what it raises is `AttributeError`. |
| `JwtVerification.FirstMatchKid` | auth/auth.py:100-107 | The selected key has the five members, and its `kid` is the token header's `kid`. |
| `JwtVerification.NullKidSelectsKeyWithoutKid` | auth/auth.py:100 | A header `kid` of JSON null selects a key that has no `kid`, when every earlier entry is a key whose `kid` is present and not null. |
| `JwtVerification.SelectKey` | auth/auth.py:98-108 | The `for`/`break` loop returns exactly what FirstMatch specifies. |
| `JwtVerification.FetchFailureFirst` | auth/auth.py:81-82 | A failed key-set fetch is the outcome whatever the token. |
| `JwtVerification.MalformedKeySetRaises` | auth/auth.py:99-100 | Once the token header carries a `kid`, a key-set document that cannot be iterated raises what `KeyEntries` raises (`AttributeError` or `TypeError`), and an entry that is not an object reached before any match raises `AttributeError`; neither becomes an AuthError. |
| `JwtVerification.HeaderRefused` | auth/auth.py:84-96 | Once the key set is obtained, an unreadable token header, or one without `kid`, gives its own `invalid_header` 401. |
| `JwtVerification.NoMatchingKeyRefused` | auth/auth.py:98-114 | When every entry of the key set is a key and none carries the token's `kid` (an absent `keys` included), the token is refused with `invalid_header` 401 "Unable to find the appropriate key." |
| `JwtVerification.DecodeOutcomeMapped` | auth/auth.py:116-142 | Once a key is selected, the library's four outcomes map as follows: payload returned untouched; `token_expired` 401; `invalid_claims` 401; `invalid_header` 400. |
| `JwtVerification.VerifiedThroughMatchingKey` | auth/auth.py:92-124 | Acceptance requires a header `kid` and a selected key carrying that `kid`. The library must accept token and key with the configured algorithms, audience and issuer. The payload is the library's own. |
| `JwtVerification.VerifyDecodeJwt` | auth/auth.py:81-142 | `verify_decode_jwt` against the memo object: its result is `VerifyDecode` of the memo lookup, and the memo is updated as by `Lookup`. |
| `Guard.Authorize` | auth/auth.py:144-153 | An admitted payload passes the permission check. Once the header parses, the memo and the request flag are those of `Lookup`: a fetched key set is kept, a failed fetch leaves the memo empty. The first failing step's error is the outcome: a header failure, with no request and the memo unchanged; otherwise a verification failure; otherwise a permission failure. A held key set is never refetched. |
| `Guard.RequiresAuth` | auth/auth.py:144-153 | The wrapper calls the handler with the payload first, ahead of the arguments, only when `Authorize` admits the request. Otherwise it raises the first failing step's error. The memo changes as `Authorize` says. |
| `Guard.MissingHeaderRevealsNothing` | auth/auth.py:22-28 | With a missing or empty header the result is `authorization_header_missing` 401, whatever the permission, memo, network, token library or configuration. |
| `Guard.GrantedExactlyWhenAllStepsPass` | auth/auth.py:147-152 | A request is admitted iff header parsing, verification and the permission check all succeed, and the handler's payload is the verified payload. |
| `Guard.ExpiryBeforePermission` | auth/auth.py:126-150 | When the library reports the token as expired for the key selected, the outcome is `token_expired` 401 whatever permission is asked for. |
| `Guard.ValidTokenWithoutPermissionForbidden` | auth/auth.py:61-65 | A verified token whose permissions list lacks the permission gives `unauthorized` 403, not 401. |

## Left out

- Flask's `request.headers` and the environment configuration (`load_dotenv`, `os.getenv`, the comma split of the algorithm list): the header value and the configuration are parameters.
- The JWT library (`jwt.get_unverified_header`, signature verification, `aud`/`iss`/`exp` checks inside `jwt.decode`): parameters with the outcome classes the code distinguishes.
- The network request and `json.loads` in `_get_jwks`: a parameter giving a JSON body, a `URLError`, or a body that is not JSON. Other exceptions the request could raise are not modelled.
- JSON numbers are integers only, and key identifiers are compared with structural equality; Python's `True == 1` and `1 == 1.0` across types are not modelled.
- `str.lower()` is modelled for ASCII letters only. This is exact for the comparison with `bearer`: no other character lower-cases to one of its letters.
- Concurrent first use of the memo: calls are sequential.
- The route handlers, the JSON error responses (`app.py`), the database (`database/models.py`) and the end-to-end tests. The handler is a total function of the payload and its arguments; what it raises is not modelled.
- `**kwargs` of the wrapper: the handler's extra arguments are one value of a type parameter.
