/**
 * What the guard promises about one request and about the requests of one
 * session in sequence, stated on the specification `Csrf.BeforeEffect`.
 */
module Lifetime {
  import opened Csrf

  // ---------------------------------------------------------------------
  // One request
  // ---------------------------------------------------------------------

  /** A session that already holds a token is not written to, and that token
      is the one the request is checked against. */
  lemma StoredTokenKept(entries: map<string, string>, readFails: bool, req: Request,
                        issued: string, t: CsrfToken)
    requires ReadToken(entries, readFails) == ReadOk(Some(t))
    ensures BeforeEffect(entries, readFails, req, issued).entries == entries
    ensures BeforeEffect(entries, readFails, req, issued).outcome
            == Check(req.httpMethod, req.params, t.raw)
    ensures ComparedToken(entries, readFails, issued) == t.raw
  {
  }

  /** When the read finds no token or fails, exactly the issued token is
      written under the token key, nothing else changes, and the request is
      checked against that same token. */
  lemma MissingTokenIssued(entries: map<string, string>, readFails: bool, req: Request,
                           issued: string)
    requires !ReadToken(entries, readFails).ReadOk? || ReadToken(entries, readFails).token.None?
    ensures var e := BeforeEffect(entries, readFails, req, issued);
            && e.entries.Keys == entries.Keys + {QueryKey}
            && e.entries[QueryKey] == issued
            && (forall k :: k in entries && k != QueryKey ==> e.entries[k] == entries[k])
            && e.outcome == Check(req.httpMethod, req.params, issued)
    ensures ComparedToken(entries, readFails, issued) == issued
  {
  }

  /** After any request the session holds, readably, the very token the
      request was checked against. */
  lemma SessionHoldsToken(entries: map<string, string>, readFails: bool, req: Request,
                          issued: string)
    requires issued != []
    ensures var e := BeforeEffect(entries, readFails, req, issued);
            ReadToken(e.entries, false)
            == ReadOk(Some(CsrfToken(ComparedToken(entries, readFails, issued))))
    ensures ComparedToken(entries, readFails, issued) != []
  {
  }

  /** Any method other than POST passes, whatever parameters it carries. */
  lemma OtherMethodsPass(entries: map<string, string>, readFails: bool, req: Request,
                         issued: string)
    requires req.httpMethod != Post
    ensures BeforeEffect(entries, readFails, req, issued).outcome == Ok
  {
  }

  /** The outcome table for POST, against the token the request is checked
      against: equal string passes, other string is "Bad token", absent key
      or a value that is not a string is "No token". */
  lemma PostOutcomes(entries: map<string, string>, readFails: bool, req: Request,
                     issued: string)
    requires req.httpMethod == Post
    ensures var tok := ComparedToken(entries, readFails, issued);
            var out := BeforeEffect(entries, readFails, req, issued).outcome;
            && (QueryKey in req.params && req.params[QueryKey] == String(tok) ==> out == Ok)
            && ((QueryKey in req.params && req.params[QueryKey].String? && req.params[QueryKey].s != tok)
                ==> out == Err(IronError(BadRequest, "Bad token")))
            && ((QueryKey !in req.params || !req.params[QueryKey].String?)
                ==> out == Err(IronError(BadRequest, "No token")))
  {
  }

  /** A session read that fails while a token is stored replaces that token
      by the issued one; a POST carrying the old token is then refused. */
  lemma ReadFaultReplacesToken(entries: map<string, string>, req: Request, issued: string,
                               t: CsrfToken)
    requires ReadToken(entries, false) == ReadOk(Some(t))
    requires issued != t.raw
    requires req.httpMethod == Post && QueryKey in req.params && req.params[QueryKey] == String(t.raw)
    ensures BeforeEffect(entries, true, req, issued).entries[GetKey()] == issued
    ensures BeforeEffect(entries, true, req, issued).outcome == Err(BadToken)
  {
  }

  // ---------------------------------------------------------------------
  // The requests of one session, one after the other
  // ---------------------------------------------------------------------

  /** One request as the session sees it: the request itself, whether the
      session read fails during it, and the token issuing would yield. */
  datatype Exchange = Exchange(req: Request, readFails: bool, issued: string)

  /** The session after a sequence of requests. */
  function FinalEntries(entries: map<string, string>, xs: seq<Exchange>): map<string, string>
    decreases |xs|
  {
    if xs == [] then entries
    else FinalEntries(BeforeEffect(entries, xs[0].readFails, xs[0].req, xs[0].issued).entries,
                      xs[1..])
  }

  /** The outcome of each request of a sequence, in order. */
  function Outcomes(entries: map<string, string>, xs: seq<Exchange>): (rs: seq<Outcome>)
    ensures |rs| == |xs|
    decreases |xs|
  {
    if xs == [] then []
    else
      var e := BeforeEffect(entries, xs[0].readFails, xs[0].req, xs[0].issued);
      [e.outcome] + Outcomes(e.entries, xs[1..])
  }

  predicate NoReadFaults(xs: seq<Exchange>)
  {
    forall i :: 0 <= i < |xs| ==> !xs[i].readFails
  }

  /** While reads succeed, a session that holds token `t` keeps it: the
      session is never written, and every request is checked against `t`. */
  lemma {:induction false} StableToken(entries: map<string, string>, xs: seq<Exchange>,
                                       t: CsrfToken)
    requires ReadToken(entries, false) == ReadOk(Some(t))
    requires NoReadFaults(xs)
    ensures FinalEntries(entries, xs) == entries
    ensures forall i :: 0 <= i < |xs| ==>
              Outcomes(entries, xs)[i] == Check(xs[i].req.httpMethod, xs[i].req.params, t.raw)
    decreases |xs|
  {
    if xs != [] {
      StableToken(entries, xs[1..], t);
      var rs := Outcomes(entries, xs);
      forall i | 0 <= i < |xs|
        ensures rs[i] == Check(xs[i].req.httpMethod, xs[i].req.params, t.raw)
      {
        if i > 0 {
          assert rs[i] == Outcomes(entries, xs[1..])[i - 1];
          assert xs[i] == xs[1..][i - 1];
        }
      }
    }
  }

  /** A session's first request fixes its token: if the first read finds no
      token and later reads succeed, exactly the first issued token is
      stored, and every request, the first included, is checked against it. */
  lemma {:induction false} FirstRequestFixesToken(entries: map<string, string>,
                                                  xs: seq<Exchange>)
    requires xs != [] && xs[0].issued != []
    requires ReadToken(entries, xs[0].readFails) == ReadOk(None)
    requires NoReadFaults(xs)
    ensures FinalEntries(entries, xs) == entries[QueryKey := xs[0].issued]
    ensures forall i :: 0 <= i < |xs| ==>
              Outcomes(entries, xs)[i]
              == Check(xs[i].req.httpMethod, xs[i].req.params, xs[0].issued)
  {
    var after := BeforeEffect(entries, xs[0].readFails, xs[0].req, xs[0].issued).entries;
    var t := CsrfToken(xs[0].issued);
    assert ReadToken(after, false) == ReadOk(Some(t));
    assert NoReadFaults(xs[1..]) by {
      forall i | 0 <= i < |xs[1..]| ensures !xs[1..][i].readFails {
        assert xs[1..][i] == xs[i + 1];
      }
    }
    StableToken(after, xs[1..], t);
    var rs := Outcomes(entries, xs);
    forall i | 0 <= i < |xs|
      ensures rs[i] == Check(xs[i].req.httpMethod, xs[i].req.params, xs[0].issued)
    {
      if i > 0 {
        assert rs[i] == Outcomes(after, xs[1..])[i - 1];
        assert xs[i] == xs[1..][i - 1];
      }
    }
  }

  // ---------------------------------------------------------------------
  // Worked scenarios
  // ---------------------------------------------------------------------

  /** A GET on a fresh session passes and leaves the issued token stored. */
  lemma ScenarioFreshGet(issued: string)
    requires issued != []
    ensures var e := BeforeEffect(map[], false, Request(Get, map[]), issued);
            e.outcome == Ok && ReadToken(e.entries, false) == ReadOk(Some(CsrfToken(issued)))
  {
  }

  /** Session token "abc123": a POST with "abc123" passes, with "wrong" it is
      "Bad token", without the parameter it is "No token". */
  lemma ScenarioPost(issued: string)
    ensures var s := map[QueryKey := "abc123"];
            && BeforeEffect(s, false, Request(Post, map[QueryKey := String("abc123")]), issued)
               == Effect(Ok, s)
            && BeforeEffect(s, false, Request(Post, map[QueryKey := String("wrong")]), issued)
               == Effect(Err(IronError(BadRequest, "Bad token")), s)
            && BeforeEffect(s, false, Request(Post, map[]), issued)
               == Effect(Err(IronError(BadRequest, "No token")), s)
  {
  }
}
