/**
 * A CSRF guard that runs before every request of an Iron web application.
 *
 * The guard keeps one anti-forgery token per session, stored by the session
 * storage under a fixed key, and rejects a POST request whose submitted
 * `_csrf_token` parameter is missing or differs from the session's token.
 *
 * The session is an object the guard updates in place (class `Session`);
 * the decision the guard takes for one request is specified by the pure
 * function `BeforeEffect`, which `CsrfMiddleware.Before` is proved to follow.
 */
module Csrf {

  datatype Option<T> = None | Some(value: T)

  /** The request parameter under which the client submits its token. */
  const QueryKey: string := "_csrf_token"

  /** A CSRF token: an opaque string compared only for equality. */
  datatype CsrfToken = CsrfToken(raw: string)

  // ---------------------------------------------------------------------
  // How a token is kept in the session storage: a raw string under a key.
  // ---------------------------------------------------------------------

  /** The session key the token is stored under; the same string as the
      request parameter key, so one name serves both sides. */
  function GetKey(): (k: string)
    ensures k == QueryKey
    ensures k != []
  {
    "_csrf_token"
  }

  /** The raw string that is written to the session; reading it back gives
      the token again, unless the token is empty. */
  function IntoRaw(t: CsrfToken): (s: string)
    ensures FromRaw(s) == if t.raw == [] then None else Some(t)
  {
    t.raw
  }

  /** Reading back a raw string: the empty string means "no token". */
  function FromRaw(s: string): (r: Option<CsrfToken>)
    ensures r.None? <==> s == []
    ensures r.Some? ==> r.value.raw == s
  {
    if s == [] then None else Some(CsrfToken(s))
  }

  /** Every non-empty raw string survives decoding and re-encoding. */
  lemma RawRoundTrip(s: string)
    requires s != []
    ensures FromRaw(s).Some?
    ensures IntoRaw(FromRaw(s).value) == s
  {
  }

  /** A token survives encoding and decoding exactly when it is non-empty;
      the empty token comes back as "no token". */
  lemma TokenRoundTrip(t: CsrfToken)
    ensures FromRaw(IntoRaw(t)) == Some(t) <==> t.raw != []
    ensures FromRaw(IntoRaw(t)) == None <==> t.raw == []
  {
  }

  // ---------------------------------------------------------------------
  // Requests
  // ---------------------------------------------------------------------

  /** The HTTP method of a request. */
  datatype Method =
    | Options | Get | Post | Put | Delete | Head | Trace | Connect | Patch
    | Extension(name: string)

  /** A parsed request parameter. Floating-point values and uploaded files
      are kept only as their kind. */
  datatype Value =
    | Null
    | Boolean(b: bool)
    | I64(i: int)
    | U64(n: nat)
    | F64
    | String(s: string)
    | File
    | Array(items: seq<Value>)
    | Map(entries: map<string, Value>)

  /** The part of a request the guard looks at: its method and its parsed
      body and query parameters. */
  datatype Request = Request(httpMethod: Method, params: map<string, Value>)

  datatype Status = BadRequest

  datatype IronError = IronError(status: Status, message: string)

  /** The result of the guard: let the request through, or reject it. */
  datatype Outcome = Ok | Err(error: IronError)

  const NoToken: IronError := IronError(BadRequest, "No token")
  const BadToken: IronError := IronError(BadRequest, "Bad token")

  /** The token the client submitted: a plain string under the parameter key,
      or nothing when the key is absent or holds any other kind of value. */
  function Submitted(params: map<string, Value>): (r: Option<string>)
    ensures r.Some? <==> QueryKey in params && params[QueryKey].String?
    ensures r.Some? ==> params[QueryKey] == String(r.value)
  {
    if QueryKey in params then
      match params[QueryKey]
      case String(s) => Some(s)
      case _ => None
    else None
  }

  /** The check made against the session token `token`: only POST is
      checked; it passes when the submitted string equals the token. */
  function Check(httpMethod: Method, params: map<string, Value>, token: string): (r: Outcome)
    ensures r.Ok? <==> httpMethod != Post || Submitted(params) == Some(token)
    ensures r == Err(NoToken) <==> httpMethod == Post && Submitted(params) == None
    ensures r == Err(BadToken) <==>
              httpMethod == Post && Submitted(params).Some? && Submitted(params).value != token
    ensures r.Err? ==> r.error.status == BadRequest
  {
    if httpMethod != Post then Ok
    else if QueryKey in params && params[QueryKey].String? then
      if params[QueryKey].s == token then Ok else Err(BadToken)
    else Err(NoToken)
  }

  // ---------------------------------------------------------------------
  // The session storage
  // ---------------------------------------------------------------------

  /** What reading the token from the session gives: a failure of the
      storage, or the decoded token (None when the key is absent or holds
      the empty string). */
  datatype Read = ReadFailed | ReadOk(token: Option<CsrfToken>)

  function ReadToken(entries: map<string, string>, fails: bool): (r: Read)
    ensures r.ReadFailed? <==> fails
    ensures r.ReadOk? ==> (r.token.Some? <==> GetKey() in entries && entries[GetKey()] != [])
    ensures r.ReadOk? && r.token.Some? ==> r.token.value.raw == entries[GetKey()]
  {
    if fails then ReadFailed
    else if GetKey() in entries then ReadOk(FromRaw(entries[GetKey()]))
    else ReadOk(None)
  }

  /** A session: string values under string keys. `readFault` says whether
      the storage backend fails to read during the current request. */
  class Session {
    var entries: map<string, string>
    var readFault: bool

    constructor (entries: map<string, string>, readFault: bool)
      ensures this.entries == entries && this.readFault == readFault
    {
      this.entries := entries;
      this.readFault := readFault;
    }

    /** Reads the token stored under the token key. */
    method Fetch() returns (r: Read)
      ensures r == ReadToken(entries, readFault)
    {
      r := ReadToken(entries, readFault);
    }

    /** Stores a token under the token key, leaving every other key alone. */
    method Store(t: CsrfToken)
      modifies this`entries
      ensures entries == old(entries)[GetKey() := IntoRaw(t)]
    {
      entries := entries[GetKey() := IntoRaw(t)];
    }
  }

  // ---------------------------------------------------------------------
  // The guard
  // ---------------------------------------------------------------------

  /** The token a request is checked against: the stored one when the read
      succeeds and finds one, the freshly issued one otherwise. */
  function ComparedToken(entries: map<string, string>, readFails: bool, issued: string): (r: string)
    ensures !readFails && GetKey() in entries && entries[GetKey()] != [] ==> r == entries[GetKey()]
    ensures readFails || GetKey() !in entries || entries[GetKey()] == [] ==> r == issued
    ensures issued != [] ==> r != []
  {
    match ReadToken(entries, readFails)
    case ReadOk(Some(t)) => t.raw
    case _ => issued
  }

  /** What one request does: its outcome and the session afterwards. */
  datatype Effect = Effect(outcome: Outcome, entries: map<string, string>)

  /** The decision of the guard for one request, given the session as it is,
      whether reading it fails, and the token that would be issued. */
  function BeforeEffect(entries: map<string, string>, readFails: bool, req: Request,
                        issued: string): (e: Effect)
    ensures e.outcome == Check(req.httpMethod, req.params, ComparedToken(entries, readFails, issued))
    ensures issued != [] ==>
              ReadToken(e.entries, false) == ReadOk(Some(CsrfToken(ComparedToken(entries, readFails, issued))))
    ensures e.entries.Keys <= entries.Keys + {GetKey()}
    ensures forall k :: k in entries && k != GetKey() ==> k in e.entries && e.entries[k] == entries[k]
  {
    match ReadToken(entries, readFails)
    case ReadOk(Some(t)) =>
      Effect(Check(req.httpMethod, req.params, t.raw), entries)
    case _ =>
      Effect(Check(req.httpMethod, req.params, issued),
             entries[GetKey() := IntoRaw(CsrfToken(issued))])
  }

  /** The middleware; its secret seeds token issuance. */
  class CsrfMiddleware {
    const secret: string

    constructor New(secret: string)
      ensures this.secret == secret
    {
      this.secret := secret;
    }

    /** Runs before each request. `issued` is the token that issuing from
        `secret` at the current instant yields (a hex digest, never empty). */
    method Before(session: Session, req: Request, issued: string) returns (r: Outcome)
      requires issued != []
      modifies session`entries
      ensures r == BeforeEffect(old(session.entries), session.readFault, req, issued).outcome
      ensures session.entries == BeforeEffect(old(session.entries), session.readFault, req, issued).entries
      ensures ReadToken(session.entries, false)
              == ReadOk(Some(CsrfToken(ComparedToken(old(session.entries), session.readFault, issued))))
    {
      var read := session.Fetch();
      var token: string;
      if read.ReadOk? && read.token.Some? {
        token := read.token.value.raw;
      } else {
        var newToken := CsrfToken(issued);
        token := newToken.raw;
        session.Store(newToken);
      }

      r := Check(req.httpMethod, req.params, token);
    }
  }

  /** The token stored in the session, for embedding into pages; meaningful
      only once the session holds one and can be read. */
  method CsrfTokenOf(session: Session) returns (s: string)
    requires ReadToken(session.entries, session.readFault).ReadOk?
    requires ReadToken(session.entries, session.readFault).token.Some?
    ensures s != []
    ensures GetKey() in session.entries && session.entries[GetKey()] == s
  {
    var read := session.Fetch();
    s := read.token.value.raw;
  }
}
