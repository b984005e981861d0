# iron-csrf-middleware, modelled in Dafny

The library is a CSRF guard for the Iron web framework. It is a
`BeforeMiddleware` that runs before every request.

- It keeps one anti-forgery token per session. The session storage holds the
  token as a raw string under the key `_csrf_token`.
- On every request it reads the session token. If there is none, or the read
  fails, it issues a fresh token and writes it to the session.
- Only `POST` requests are checked. The parameter `_csrf_token` must be a
  plain string equal to the session token.
- A mismatch is rejected with `400 Bad Request` and reason `"Bad token"`.
- A missing parameter, or one that is not a string, is rejected with
  `400 Bad Request` and reason `"No token"`.
- Every other method passes.

Files:

- `csrf.dfy`, module `Csrf`, has the codec and the live objects:
  - the session-value codec of `CsrfToken` (`GetKey`, `IntoRaw`, `FromRaw`);
  - the request, parameter and error types;
  - the session as a class updated in place (`Session`, with `Fetch` and
    `Store`);
  - the middleware class, whose `Before` method is proved to follow the pure
    specification `BeforeEffect`;
  - the `csrf_token` accessor, as `CsrfTokenOf`.
- `lifetime.dfy`, module `Lifetime`, has what the guard promises:
  - for one request: the outcome table, when the session is written, and
    that the session always ends up holding a token;
  - for a sequence of requests on one session: the token stays stable while
    session reads succeed;
  - the four worked scenarios.

The session storage's `get` is modelled as two steps: look up the raw string
under `get_key()`, then decode it with `from_raw`. Its `set` stores
`into_raw(t)` under `get_key()`. Whether the storage backend fails a read
during the current request is the session's `readFault` flag. That flag is an
input from the environment.

A failed session read is not an error. The code treats it like "no token":
it issues a new token and overwrites any token already stored
(src/lib.rs:95-101). `Lifetime.ReadFaultReplacesToken` shows the result: a
POST that carries the previous token is then refused with `"Bad token"`.

## Model

| member | source | states |
|---|---|---|
| `Csrf.GetKey` | src/lib.rs:33-35 | the session key is the non-empty string `_csrf_token`, equal to the request parameter key `QUERY_KEY` (line 19) |
| `Csrf.IntoRaw` | src/lib.rs:37-39 | the raw string decodes back to the same token when the token is non-empty, and to "no token" when it is empty (also stated by `RawRoundTrip` and `TokenRoundTrip`) |
| `Csrf.FromRaw` | src/lib.rs:41-47 | decoding gives "no token" exactly for the empty string, and otherwise a token holding the string unchanged |
| `Csrf.RawRoundTrip` | src/lib.rs:37-47 | every non-empty raw string decodes to a token whose encoding is that string again |
| `Csrf.TokenRoundTrip` | src/lib.rs:37-47 | a token survives encoding and decoding if and only if its string is non-empty; the empty token comes back as "no token" |
| `Csrf.Submitted` | src/lib.rs:108 | the client token is present exactly when the parameter map has a `String` value under `_csrf_token`, and it is that string |
| `Csrf.Check` | src/lib.rs:104-123 | outcome table: Ok if and only if the method is not POST or the submitted string equals the session token; "No token" if and only if a POST has no string under the key; "Bad token" if and only if a POST submits a different string; every rejection is BadRequest |
| `Csrf.ReadToken` | src/lib.rs:95 | a read fails exactly when the backend fails; a successful read finds a token exactly when a non-empty string is stored under the key, and the token is that string |
| `Csrf.Session.Fetch` | src/lib.rs:95 | reading the session gives what `ReadToken` specifies for its current contents and fault flag |
| `Csrf.Session.Store` | src/lib.rs:100 | storing a token writes its raw string under the token key and changes no other key |
| `Csrf.ComparedToken` | src/lib.rs:95-102 | the token a request is checked against is the stored string when the read succeeds and finds a non-empty one, and the issued token otherwise; it is non-empty whenever the issued token is |
| `Csrf.BeforeEffect` | src/lib.rs:94-124 | one request's effect: the outcome is `Check` against the compared token; afterwards a read finds exactly that token; only the token key may be added or changed, every other key keeps its value |
| `Csrf.CsrfMiddleware.New` | src/lib.rs:67-71 | the middleware keeps the given secret |
| `Csrf.CsrfMiddleware.Before` | src/lib.rs:94-124 | the outcome and the new session contents are those of `BeforeEffect`; afterwards a read of the session finds exactly the token the request was checked against |
| `Csrf.CsrfTokenOf` | src/lib.rs:55-57 | on a session that holds a token and can be read, returns the non-empty string stored under the token key |
| `Lifetime.StoredTokenKept` | src/lib.rs:95-96 | when the read finds a token, the session is not written and the request is checked against exactly that token |
| `Lifetime.MissingTokenIssued` | src/lib.rs:97-101 | when the read finds no token or fails, exactly the issued token is stored under the key, no other key changes, and the same token is used for the check |
| `Lifetime.SessionHoldsToken` | src/lib.rs:95-102 | after any request, with a non-empty issued token, a read of the session finds exactly the token the request was checked against, and it is non-empty |
| `Lifetime.OtherMethodsPass` | src/lib.rs:104-105 | every method other than POST passes, whatever parameters are submitted |
| `Lifetime.PostOutcomes` | src/lib.rs:107-122 | for POST: an equal string passes, a different string is rejected with BadRequest "Bad token", and a missing or non-string parameter with BadRequest "No token" |
| `Lifetime.ReadFaultReplacesToken` | src/lib.rs:95-101 | a failed read while a token is stored overwrites it with the issued token, and a POST carrying the old token is refused with "Bad token" |
| `Lifetime.StableToken` | src/lib.rs:95-96 | while session reads succeed, a session holding token `t` is never written, and every request in a sequence is checked against `t` |
| `Lifetime.FirstRequestFixesToken` | src/lib.rs:95-101 | when the first request finds no token and reads succeed, the first issued token is stored, and every later request is checked against it |
| `Lifetime.ScenarioFreshGet` | src/lib.rs:94-105 | a GET on an empty session passes and leaves the issued token stored |
| `Lifetime.ScenarioPost` | src/lib.rs:104-122 | with session token "abc123": a POST with "abc123" passes, with "wrong" it is "Bad token", and with no parameter it is "No token"; the session is unchanged in each case |

## Left out

- Token issuance, `CsrfToken::new` (src/lib.rs:22-29), is a SHA-256 digest of the secret and the current time. The hash and the clock are not modelled. The token it yields is the `issued` parameter of `Before`. `Before` requires that string to be non-empty, which a hex digest always is. Uniqueness and unpredictability of tokens are not modelled. The middleware keeps its secret, but the secret's only use is as input to the hash.
- The `typemap::Key` impl (src/lib.rs:74-76) is Iron plumbing with no behaviour.
- `StringError` and its `Display`/`Error` impls (src/lib.rs:78-91) are formatting glue. An error is modelled as its status and message.
- Parsing of the request body and query string is not modelled. `Before` takes the parsed parameter map as input. A failed parse, which panics in the source, is not modelled.
- A failed session write panics in the source (src/lib.rs:100). It is not modelled: `Session.Store` always succeeds.
- `CsrfTokenOf`: the source panics when the session cannot be read or holds no token (src/lib.rs:56). The model requires a readable session that holds a token instead.
- iron_sessionstorage is not part of this model. Its `get`/`set` are modelled as the codec applied under `get_key()`, as described above.
- `F64` and `File` parameter values carry no payload. The guard only asks whether a value is a `String`.
- Concurrent requests on one session can race to issue tokens. The model is sequential, one request at a time.
- The comparison is plain string equality, as in the source. Constant-time comparison is not modelled.
- The placeholder test (src/lib.rs:127-133) checks nothing about the library.
