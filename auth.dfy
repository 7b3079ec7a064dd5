/** The later revision's `auth` middleware: where the token is taken from,
    and how the verified `sub` claim becomes the user id attached to the
    request. JWT verification itself is a parameter. */
module Auth {
  import opened Wrappers
  import opened Text

  /** The status every refusal answers with. */
  const Unauthorized: int := 401

  /** The parts of a request the middleware reads and writes: the raw
      `Authorization` header, the raw query string, and the user id
      extension. */
  datatype Request = Request(authorization: Option<string>, query: Option<string>, userId: Option<int>)

  /** `HeaderValue::to_str` succeeds only on visible ASCII and tab. */
  predicate VisibleAscii(v: string) {
    forall k :: 0 <= k < |v| ==> v[k] == '\t' || (' ' <= v[k] <= '~')
  }

  /** The first element of `ps` that starts with `prefix`. */
  function FindPrefixed(ps: seq<string>, prefix: string): (r: Option<nat>)
    ensures r.Some? ==> r.value < |ps| && StartsWith(ps[r.value], prefix)
    ensures r.Some? ==> forall k :: 0 <= k < r.value ==> !StartsWith(ps[k], prefix)
    ensures r.None? ==> forall k :: 0 <= k < |ps| ==> !StartsWith(ps[k], prefix)
  {
    if ps == [] then None
    else if StartsWith(ps[0], prefix) then Some(0)
    else match FindPrefixed(ps[1..], prefix)
      case None => None
      case Some(k) => Some(k + 1)
  }

  /** The token from the query string: the first `&`-separated parameter
      starting with "token=", with every leading "token=" stripped. */
  function QueryToken(q: string): Option<string> {
    var ps := Split(q, '&');
    match FindPrefixed(ps, "token=")
    case None => None
    case Some(k) => Some(TrimStartMatches(ps[k], "token="))
  }

  /** The token of a request: from the header when there is one, and then
      only after a "Bearer " prefix; from the query string otherwise. */
  function Token(req: Request): Option<string> {
    match req.authorization
    case Some(v) => if VisibleAscii(v) && StartsWith(v, "Bearer ") then Some(v[7..]) else None
    case None => match req.query case None => None case Some(q) => QueryToken(q)
  }

  /** `auth`. `verify` stands for `verify_token` with the configured secret
      and yields the `sub` claim; the answer is the request as passed on,
      or the refusing status. */
  function Authenticate(req: Request, verify: string -> Option<string>): (r: Result<Request, int>)
    ensures r.Err? ==> r.error == Unauthorized
    ensures r.Ok? <==> Token(req).Some? && verify(Token(req).value).Some? && ParseI32(verify(Token(req).value).value).Ok?
    ensures r.Ok? ==> r.value == req.(userId := Some(ParseI32(verify(Token(req).value).value).value))
    ensures r.Ok? ==> I32Min <= r.value.userId.value <= I32Max
  {
    match Token(req)
    case None => Err(Unauthorized)
    case Some(t) =>
      match verify(t)
      case None => Err(Unauthorized)
      case Some(sub) =>
        match ParseI32(sub)
        case Err(_) => Err(Unauthorized)
        case Ok(id) => Ok(req.(userId := Some(id)))
  }

  // ---------------------------------------------------------------------
  // Properties
  // ---------------------------------------------------------------------

  /** When a header is present the query string is never consulted, even if
      the header is not a usable bearer token. */
  lemma HeaderWins(req: Request, q: Option<string>)
    requires req.authorization.Some?
    ensures Token(req.(query := q)) == Token(req)
    ensures !StartsWith(req.authorization.value, "Bearer ") ==> Token(req) == None
  {
  }

  /** A bearer header yields exactly what follows the prefix. */
  lemma BearerToken(t: string)
    requires VisibleAscii(t)
    ensures Token(Request(Some("Bearer " + t), None, None)) == Some(t)
  {
    var v := "Bearer " + t;
    assert v[..7] == "Bearer ";
    assert v[7..] == t;
    forall k | 0 <= k < |v| ensures v[k] == '\t' || (' ' <= v[k] <= '~') {
      if k >= 7 {
        assert v[k] == t[k - 7];
      }
    }
  }

  /** Stripping a pattern from a text that starts with it strips it from the rest. */
  lemma StripOnce(pat: string, rest: string)
    requires |pat| > 0
    ensures TrimStartMatches(pat + rest, pat) == TrimStartMatches(rest, pat)
  {
    assert (pat + rest)[..|pat|] == pat;
    assert (pat + rest)[|pat|..] == rest;
  }

  /** Every leading repetition of "token=" is stripped. */
  lemma RepeatedPrefix()
    ensures QueryToken("token=token=x") == Some("x")
  {
    var p := "token=";
    var q := p + (p + "x");
    assert q == "token=token=x";
    assert '&' !in q;
    assert Split(q, '&') == [q];
    assert q[..6] == p;
    assert FindPrefixed([q], p) == Some(0);
    StripOnce(p, p + "x");
    StripOnce(p, "x");
    assert !StartsWith("x", p);
  }

  /** A parameter that does not start with "token=" is skipped, and the
      first that does wins, with the rest of the query ignored. */
  lemma FirstTokenParameter(a: string, t: string, b: string)
    requires !StartsWith(a, "token=")
    requires '&' !in a && '&' !in t && '&' !in b
    requires !StartsWith(t, "token=")
    ensures QueryToken(a + "&token=" + t + "&token=" + b) == Some(t)
  {
    var p2 := "token=" + t;
    var p3 := "token=" + b;
    assert '&' !in p2 && '&' !in p3;
    var q := a + "&" + (p2 + "&" + p3);
    assert q == a + "&token=" + t + "&token=" + b;
    SplitCons(a, p2 + "&" + p3);
    SplitCons(p2, p3);
    assert Split(p3, '&') == [p3];
    var ps := Split(q, '&');
    assert ps == [a, p2, p3];
    assert p2[..6] == "token=";
    assert ps[1..] == [p2, p3];
    assert FindPrefixed(ps[1..], "token=") == Some(0);
    assert FindPrefixed(ps, "token=") == Some(1);
    assert p2[6..] == t;
    assert TrimStartMatches(p2, "token=") == TrimStartMatches(t, "token=");
  }

  /** Splitting at the first separator. */
  lemma SplitCons(a: string, rest: string)
    requires '&' !in a
    ensures Split(a + "&" + rest, '&') == [a] + Split(rest, '&')
  {
    var s := a + "&" + rest;
    assert s[|a|] == '&';
    var i := IndexOf(s, '&');
    assert s[..|a|] == a;
    assert s[..i] == a;
    assert s[i + 1..] == rest;
  }

  /** No token, an unverifiable token, and a `sub` that is not an i32 all
      answer 401; the request goes on only with a parsed id attached. */
  lemma Refusals(req: Request, verify: string -> Option<string>)
    ensures Token(req).None? ==> Authenticate(req, verify) == Err(Unauthorized)
    ensures Token(req).Some? && verify(Token(req).value).None? ==> Authenticate(req, verify) == Err(Unauthorized)
    ensures Token(req).Some? && verify(Token(req).value).Some? && ParseI32(verify(Token(req).value).value).Err? ==>
      Authenticate(req, verify) == Err(Unauthorized)
  {
  }
}
