# Polaris authentication and authorization, modelled in Dafny

This project models the account and token core of the Polaris media server, and
proves properties of that model:

- **`user::Manager`** (`src/app/user.rs`), in `user.dfy`, module `Users`. It covers:
  - password hashing with PBKDF2;
  - login;
  - Branca tokens scoped to `PolarisAuth` (a session, never expires) or
    `LastFMLink` (linking a Last.fm account, 600 s);
  - authentication, which also re-checks that the account still exists;
  - the admin flag and the linked Last.fm fields.
- **The request guards** `Auth` and `AdminRights` and the `auth` route of the older
  HTTP API (`src/rocket_api.rs`), in `rocket_api.dfy`, module `RocketApi`. These
  include the first-run bootstrap rule: a server with no accounts grants
  admin rights to every request.

Supporting modules:

- `crypto.dfy` (`Crypto`): symbolic PBKDF2/PHC and Branca. A digest is a free constructor
  of password and salt. A token is either an envelope `Sealed(key, payload,
  timestamp)` or `Garbled(text)`, meaning any string that does not authenticate. Branca's
  decoder opens an envelope only under its own key. When the TTL is non-zero it
  also rejects the envelope once `timestamp + ttl < now`.
- `json.dfy` (`Json`): the string-literal escaping used by the JSON form of an
  `Authorization`, `{"username":"…","scope":"PolarisAuth"}`.
- `wrappers.dfy` (`Wrappers`): `Option` and `Result`.

How the model is built:

- The account table is a `map<string, User>` field that the mutating methods of
  the `Manager` class reassign.
- Read-only operations are functions over the current table.
- `storeUp`, a constant of the manager, stands for whether the database can be reached. A connection
  failure, or any other storage error, becomes `Unspecified`. An insert under a
  name that already exists is such a storage error.
- The clock (`SystemTime::now()`) and the salt (`OsRng`) are parameters (`now`,
  `salt`).
- The class invariant `Valid()` holds two facts: no account has the empty
  name, and an account's two Last.fm fields are either both set or both empty.
  Every mutation keeps it. `EmptyUsernameNeverLogsIn` and `LinkedIffLastfmUsername`
  are the properties that rely on it.

## Model

| member | source | states |
|---|---|---|
| `Crypto.Pbkdf2Hash` | src/app/user.rs:286-288 | a PBKDF2 hash is a well-formed PHC string carrying the salt it was made with |
| `Crypto.Pbkdf2VerifyHash` | src/app/user.rs:295-297 | recomputing the derivation under the stored salt matches exactly when the attempt equals the hashed password |
| `Crypto.Pbkdf2Verify` | src/app/user.rs:295-297 | an attempt verifies against a salt and digest exactly when hashing the attempt under that salt gives that PHC string |
| `Crypto.BrancaEncode` | src/app/user.rs:179-186 | encoding seals exactly the given payload under the given key at the given timestamp |
| `Crypto.BrancaDecode` | src/app/user.rs:166-167 | decoding gives the payload exactly when the token is sealed under the given key and is unexpired (`ttl == 0` or `now <= timestamp + ttl`); otherwise it fails |
| `Crypto.BrancaRoundTrip` | src/app/user.rs:166-167 | an envelope opens to its payload exactly under its own key and while `ttl == 0` or `now <= timestamp + ttl`; otherwise decoding fails |
| `Json.UnquoteEscape` | src/app/user.rs:177-178 | an escaped string body followed by a quote reads back as the original text, and the rest is left untouched |
| `Json.UnquoteCanonical` | src/app/user.rs:168-169 | whatever is accepted as a string body is exactly the escaped form of the text read, then a quote, then the rest |
| `Users.DeserializeSerialize` | src/app/user.rs:168-169 | deserialising the serialised `Authorization` gives it back (serialisation is injective) |
| `Users.Serialize` | src/app/user.rs:177-178 | the payload has serde's shape: it starts with `{"username":"` and ends with `,"scope":"<scope name>"}` |
| `Users.Deserialize` | src/app/user.rs:168-169 | a payload that deserialises is exactly the serialisation of the result, so one `Authorization` has one payload |
| `Users.ScopeTtl` | src/app/user.rs:162-165 | the scope table: the TTL is 0 (permanent) exactly for `PolarisAuth`, and 600 seconds for `LastFMLink` |
| `Users.User.IsAdmin` | src/app/user.rs:29-31 | an account is an administrator exactly when its integer `admin` column is non-zero |
| `Users.VerifyPassword` | src/app/user.rs:293-300 | a stored hash verifies an attempt exactly when it is a well-formed PHC string equal to the hash of the attempt under its own salt; an unparsable stored hash verifies nothing |
| `Users.HashPassword` | src/app/user.rs:282-291 | the empty password fails `EmptyPassword`; any other password yields a hash that verifies against that password and no other |
| `Users.Manager.constructor` | src/app/user.rs:64-66 | a manager over a given key, store availability and well-formed account table |
| `Users.Manager.Create` | src/app/user.rs:68-86 | error order is `EmptyUsername`, then `EmptyPassword` (even when both are empty), then `Unspecified` for no connection or an existing name; every failure leaves the table unchanged; success adds exactly one account, leaves the others alone, and sets admin as requested (`admin != 0` iff requested) with a hash that verifies exactly the given password |
| `Users.Manager.Delete` | src/app/user.rs:88-95 | removes exactly that account (a no-op if absent); afterwards every token that decodes to that username fails authentication with `IncorrectUsername` |
| `Users.Manager.SetPassword` | src/app/user.rs:97-106 | `EmptyPassword` before the connection check, with the table unchanged; on success only that account's hash changes, and it verifies exactly the new password; an absent account is a no-op |
| `Users.Manager.SetIsAdmin` | src/app/user.rs:108-116 | on success only that account's admin column changes, to 1 or 0, so `IsAdmin` is the requested flag; an absent account is a no-op |
| `Users.Manager.LastfmLink` | src/app/user.rs:229-245 | sets both Last.fm fields of that account only; afterwards the account is linked and its session key is the given one |
| `Users.Manager.LastfmUnlink` | src/app/user.rs:271-279 | clears both Last.fm fields of that account only; afterwards it is not linked |
| `Users.Manager.GenerateAuthToken` | src/app/user.rs:176-189 | the token is sealed under the server key at `now` and its payload deserialises to the given `Authorization` |
| `Users.Manager.DecodeAuthToken` | src/app/user.rs:156-174 | a garbled token, a foreign key or an expired link token fails `InvalidAuthToken`; the only errors are `InvalidAuthToken` and `IncorrectAuthorizationScope`; success means the token was sealed under the server key for exactly the returned `Authorization` in the requested scope, and a link token is at most 600 s old |
| `Users.Manager.GenerateLastfmLinkToken` | src/app/user.rs:247-252 | the token is sealed under the server key at `now` and carries `{username, LastFMLink}` |
| `Users.Manager.Count` | src/app/user.rs:191-196 | succeeds iff the store is reachable, with the number of accounts, which is zero exactly when there are none |
| `Users.Manager.Exists` | src/app/user.rs:207-216 | succeeds iff the store is reachable, then is true exactly for a present account; failures are `Unspecified` |
| `Users.Manager.IsAdmin` | src/app/user.rs:218-227 | succeeds iff the store is reachable and the account exists (a missing account is `Unspecified`, not `false`); the value is `admin != 0` |
| `Users.Manager.GetLastfmSessionKey` | src/app/user.rs:254-265 | returns the account's session key when one is stored; a stored null is `MissingLastFMCredentials`; no store or no account is `QueryFailed` |
| `Users.Manager.IsLastfmLinked` | src/app/user.rs:267-269 | holds iff the store is reachable, the account exists and it has a session key |
| `Users.Manager.Login` | src/app/user.rs:118-141 | `IncorrectUsername` for an absent account; `IncorrectPassword` when the password does not verify, including when the stored hash is malformed; success exactly when it verifies; the token is sealed under the server key at `now` with payload `{username, PolarisAuth}` |
| `Users.Manager.Authenticate` | src/app/user.rs:143-154 | decoding errors pass through first; then the account must still exist (`IncorrectUsername`, or `Unspecified` without a store); success returns the decoded `Authorization` of an existing account |
| `Users.Manager.TokenRoundTrip` | src/app/user.rs:162-189 | a generated token decoded with its own scope within that scope's time-to-live (TTL) gives its `Authorization` back |
| `Users.Manager.SessionTokenNeverExpires` | src/app/user.rs:163 | a `PolarisAuth` token decodes at any time after issue (TTL 0) |
| `Users.Manager.LinkTokenExpires` | src/app/user.rs:164 | a `LastFMLink` token decodes while `now <= issuedAt + 600` and fails `InvalidAuthToken` afterwards |
| `Users.Manager.ScopeIsBound` | src/app/user.rs:166-172 | a token that opens under the other scope's TTL fails `IncorrectAuthorizationScope`: a token cannot be used across scopes |
| `Users.Manager.IssuedTokenAuthenticatesWhileAccountExists` | src/app/user.rs:143-154 | within its TTL, a generated token authenticates iff its account exists, and fails `IncorrectUsername` otherwise (revocation by deletion) |
| `Users.Manager.LinkedIffLastfmUsername` | src/app/user.rs:237-241 | since linking sets both fields and unlinking clears both, an account is linked exactly when its Last.fm username is stored |
| `Users.Manager.EmptyUsernameNeverLogsIn` | src/app/user.rs:69-71 | no account has the empty name, so a login with it fails `IncorrectUsername` |
| `Users.Manager.LoginTokenAuthenticates` | src/app/user.rs:118-154 | the token from a successful login authenticates with `{username, PolarisAuth}` at any later time while the table is unchanged |
| `RocketApi.CookieToString` | src/rocket_api.rs:46 | a request cookie displays as its name, then `=`, then its value |
| `RocketApi.AuthFromRequestAsWritten` | src/rocket_api.rs:42-50 | as written: succeeds exactly when the private `username` cookie is present, with username `username=<value>` (the cookie's `to_string()`); otherwise `Forbidden` |
| `RocketApi.AuthFromRequest` | src/rocket_api.rs:42-50 | as intended: succeeds exactly when the private `username` cookie is present, with the cookie's value as username; otherwise `Forbidden` |
| `RocketApi.AdminRightsGiven` | src/rocket_api.rs:59-74 | a failed count gives `InternalServerError` before the `Auth` guard is consulted; a count of 0 grants admin; otherwise an `Auth` failure propagates, and `is_admin` of the guard's username gives success, `Forbidden` or `InternalServerError` as it says true, false or fails |
| `RocketApi.AdminRightsFromRequestAsWritten` | src/rocket_api.rs:59-74 | as written: once there are users and a cookie, admin rights hold exactly when `is_admin("username=<value>")` says true |
| `RocketApi.AdminRightsFromRequest` | src/rocket_api.rs:59-74 | as intended: same order of checks, with `is_admin` asked about the cookie's value; success iff the count is 0, or there is a cookie and its user is admin |
| `RocketApi.BootstrapWhileNoAccounts` | src/rocket_api.rs:62-64 | over a reachable store with no accounts, every request holds admin rights, with or without a cookie, in both versions of the guard |
| `RocketApi.NoBootstrapOnceAccountsExist` | src/rocket_api.rs:62-73 | with `is_admin` answering from the account table (src/app/user.rs:218-227), once an account exists the intended guard grants admin rights iff the cookie names an existing account whose admin column is non-zero |
| `RocketApi.AdminCookieRefusedAsWritten` | src/rocket_api.rs:46 | as written, a cookie naming an administrator (with no account called `username=<name>`) gets `InternalServerError`, where the intended guard grants admin rights |
| `RocketApi.CookieJar.constructor` | src/rocket_api.rs:145 | an empty jar of private cookies |
| `RocketApi.CookieJar.GetPrivate` | src/rocket_api.rs:44 | gives the cookie's value exactly when a cookie of that name is set |
| `RocketApi.CookieJar.AddPrivate` | src/rocket_api.rs:148-151 | sets that one cookie and leaves the others |
| `RocketApi.AuthRoute` | src/rocket_api.rs:141-157 | a failing `user::auth` returns its error with the cookies unchanged; otherwise the `username` cookie is set to the submitted username, so the intended `Auth` guard then yields that user (the guard as written yields `username=<name>`); the reply carries `is_admin`'s answer or its error, and the cookie stays set even when `is_admin` then fails |

## Left out

- Diesel, the connection pool and the `users` schema: replaced by an in-memory map. All storage failures are one flag, `storeUp`, fixed when the manager is built, so the store cannot go down between calls.
- `list`, and the `preferences` and `error` submodules of `src/app/user.rs`: they are not part of this model.
- PBKDF2 itself, PHC string parsing and `OsRng`: the digest is symbolic and the salt is a parameter.
- `Users.HashPassword`: does not model the `Unspecified` failure of `Pbkdf2.hash_password` (src/app/user.rs:289), which the symbolic hash cannot produce.
- `Users.Manager.GenerateAuthToken`: does not model its `Unspecified` failures, because they cannot arise in the model:
  - serialisation cannot fail;
  - a clock before the Unix epoch is not possible, since `now` is a `nat`;
  - Branca encoding fails only with a key of the wrong length, and the key type fixes the length.
- Branca internals: XChaCha20-Poly1305, the random nonce (two tokens with equal inputs are equal here), base62 framing, the `as u32` cast of the timestamp, and the overflow check on `timestamp + ttl`.
- serde_json: only the canonical form that serde writes for `Authorization` is read back. Whitespace, other key orders and `\u` escapes are not accepted. Control characters are not escaped, only `"` and `\`. Payloads are strings rather than UTF-8 bytes.
- Rocket: the `State<DB>` and `Cookies` guards are assumed to succeed. The `Forward` outcome never arises. Cookie encryption is not modelled.
- `user::auth`, `user::count` and `user::is_admin` of the older API are not part of this model:
  - the guards and the route take their outcomes as inputs;
  - the guards take `is_admin` as a function of the username it is asked about.
- The other routes of `src/rocket_api.rs` (`version`, `initial_setup`, settings, `trigger_index`, browse, flatten, random, recent): HTTP plumbing over modules not modelled.
- `src/app/thumbnail/read.rs`: file and image decoding through foreign crates.
- Cookie display: only the form of a cookie read from a request is modelled, which has a name and a value and no attributes.
- The concurrent first-run bootstrap race: concurrency is out of scope.
- The `admin` column is an unbounded integer. Its 32-bit width does not matter, because it is only compared with 0.

## Findings

| source | as written | input that shows it | evidently intended | confidence | as-written member | corrected member |
|---|---|---|---|---|---|---|
| src/rocket_api.rs:46 | `Auth.username` is `u.to_string()`, the display of the whole cookie, `username=<value>`; `AdminRights` then asks `is_admin` about that string (line 69) | an account `alice` with the admin flag set, and a request whose private cookie is `username` = `alice`: `is_admin("username=alice")` finds no account and fails, so the request gets `InternalServerError` instead of admin rights | `u.value().to_string()`, the cookie's value | medium, not executed; rests on the documented `Display` of the cookie crate's `Cookie` | `RocketApi.AuthFromRequestAsWritten`, `RocketApi.AdminRightsFromRequestAsWritten`, `RocketApi.AdminCookieRefusedAsWritten` | `RocketApi.AuthFromRequest`, `RocketApi.AdminRightsFromRequest` |

The rest of the model (`AuthRoute`'s guarantee and `NoBootstrapOnceAccountsExist`) uses the corrected guard. The other routes take `Auth` but never read its username, so the finding affects only admin checks.

## Notes on the source

- The scopes are named as in the code: `PolarisAuth` and `LastFMLink`. The decode error is `InvalidAuthToken`.
- `is_admin` on a missing account fails (`get_result` gives `NotFound`, which is mapped to `Unspecified`). It does not return `false`.
- `set_password`, `set_is_admin`, `lastfm_link` and `lastfm_unlink` on a missing account succeed and change nothing, because a Diesel update that matches no row is not an error.
- The older HTTP API authenticates requests with a private `username` cookie, not a token. There, the bootstrap rule and the admin check read the cookie's username.
- The `auth` route discards the success value of `user::auth`. It sets the cookie whenever that call returns without an error.
