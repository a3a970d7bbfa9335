/** The route guards of src/middlewares/authMiddleware.js: `protect` finds a
    token in the request headers, checks it, takes the user id out of its
    payload and loads that user; `partnerOnly` and `adminOnly` admit by
    role. Signature checking and the database read are parameters: what the
    token library makes of a token, and what the lookup of an id gives. */
module AuthGuard {
  import opened Options
  import opened Records
  import JsText

  /** The two headers a token may come in; absent when not sent. */
  datatype Headers = Headers(authorization: Option<string>, xAuthToken: Option<string>)

  predicate NonEmpty(s: Option<string>)
  {
    s.Some? && s.value != ""
  }

  /** Step 1: an Authorization header that starts with "Bearer" gives the
      piece after its first space (none when it has no space) and hides
      `x-auth-token`; otherwise a non-empty `x-auth-token` is the token. */
  function ExtractToken(h: Headers): (r: Option<string>)
    ensures NonEmpty(h.authorization) && JsText.StartsWith(h.authorization.value, "Bearer") ==>
      r == JsText.SecondPiece(h.authorization.value)
    ensures !(NonEmpty(h.authorization) && JsText.StartsWith(h.authorization.value, "Bearer")) ==>
      r == (if NonEmpty(h.xAuthToken) then h.xAuthToken else None)
  {
    if NonEmpty(h.authorization) && JsText.StartsWith(h.authorization.value, "Bearer") then
      JsText.SecondPiece(h.authorization.value)
    else if NonEmpty(h.xAuthToken) then h.xAuthToken
    else None
  }

  /** A token sent as "Bearer <token>" is the token extracted, whatever
      `x-auth-token` holds. */
  lemma {:induction false} BearerRoundTrip(t: string, x: Option<string>)
    requires ' ' !in t
    ensures ExtractToken(Headers(Some("Bearer " + t), x)) == Some(t)
  {
    var a := "Bearer " + t;
    assert a[..6] == "Bearer";
    assert JsText.StartsWith(a, "Bearer");
    assert ' ' !in a[..6];
    assert a[6] == ' ';
    assert JsText.IndexOfChar(a, ' ') == Some(6) by {
      IndexOfCharAt(a, ' ', 6);
    }
    assert a[7..] == t;
    assert JsText.IndexOfChar(t, ' ').None?;
  }

  /** The first occurrence of `c` is at `i` when `c` is at `i` and not
      before. */
  lemma {:induction false} IndexOfCharAt(s: string, c: char, i: nat)
    requires i < |s| && s[i] == c && c !in s[..i]
    ensures JsText.IndexOfChar(s, c) == Some(i)
  {
    if i > 0 {
      assert s[0] != c by { assert s[0] == s[..i][0]; }
      assert s[1..][..i - 1] == s[..i][1..];
      IndexOfCharAt(s[1..], c, i - 1);
    }
  }

  /** A bare "Bearer" header yields no token and still hides a valid
      `x-auth-token`. */
  lemma BareBearerHidesOtherHeader(x: string)
    requires x != ""
    ensures ExtractToken(Headers(Some("Bearer"), Some(x))) == None
  {
    assert JsText.StartsWith("Bearer", "Bearer");
    assert ' ' !in "Bearer";
  }

  /** The `user` claim of a payload, when present. */
  datatype UserClaim = UserClaim(id: Option<string>)

  /** What a verified token carries: an `id`, a `user` object, or both. */
  datatype Payload = Payload(id: Option<string>, user: Option<UserClaim>)

  /** Step 4: `decoded.id || (decoded.user ? decoded.user.id : null)`, kept
      only when it is a non-empty id. */
  function UserIdOf(p: Payload): (r: Option<Id>)
    ensures NonEmpty(p.id) ==> r == p.id
    ensures !NonEmpty(p.id) ==> r == (if p.user.Some? && NonEmpty(p.user.value.id) then p.user.value.id else None)
    ensures r.Some? ==> r.value != ""
  {
    if NonEmpty(p.id) then p.id
    else if p.user.Some? && NonEmpty(p.user.value.id) then p.user.value.id
    else None
  }

  /** What the token library makes of a token: the payload, or a thrown
      error with its name and message. */
  datatype Verified = Decoded(payload: Payload) | Thrown(name: string, message: string)

  /** What loading the user by id gives: the user, nobody, or a thrown
      error. */
  datatype Lookup = Found(user: User) | Nobody | Failed(name: string, message: string)

  datatype Denial = NoToken | AccountGone | DatabaseDown | SessionExpired | InvalidToken

  /** The end of `protect`: the request goes on with the loaded user, or it
      is answered with a status. */
  datatype Outcome = Next(user: User) | Deny(status: int, reason: Denial)

  /** The catch block: a connection failure is a server error, an expired
      token asks for a new login, anything else is an invalid token. */
  function Caught(name: string, message: string): (r: Outcome)
    ensures r.Deny?
    ensures r.status == 500 <==> JsText.Contains(message, "ETIMEDOUT") || JsText.Contains(message, "topology")
    ensures r.status != 500 ==> r.status == 401
    ensures r.status == 401 && name == "TokenExpiredError" ==> r.reason == SessionExpired
  {
    if JsText.Contains(message, "ETIMEDOUT") || JsText.Contains(message, "topology") then Deny(500, DatabaseDown)
    else if name == "TokenExpiredError" then Deny(401, SessionExpired)
    else Deny(401, InvalidToken)
  }

  /** The message of the error thrown for a payload without a user id. */
  const MissingIdMessage: string := "Invalid Token Payload: Missing User ID"

  /** Step 5: the user loaded, or 401 when the account is gone. */
  function AfterLookup(l: Lookup): (r: Outcome)
    ensures r.Next? <==> l.Found?
    ensures r.Next? ==> r.user == l.user
    ensures r.Deny? ==> r.status == 401 || r.status == 500
  {
    match l
    case Found(u) => Next(u)
    case Nobody => Deny(401, AccountGone)
    case Failed(name, message) => Caught(name, message)
  }

  /** Steps 4 and 5 for a verified payload. */
  function AfterPayload(p: Payload, lookup: Id -> Lookup): (r: Outcome)
    ensures r.Next? <==> UserIdOf(p).Some? && lookup(UserIdOf(p).value).Found?
    ensures r.Next? ==> r.user == lookup(UserIdOf(p).value).user
    ensures r.Deny? ==> r.status == 401 || r.status == 500
  {
    match UserIdOf(p)
    case None => Caught("Error", MissingIdMessage)
    case Some(id) => AfterLookup(lookup(id))
  }

  /** `protect`: no token is 401 at once; a token is verified, its user id
      taken and the user loaded, each failure answered by the catch block. */
  function Protect(h: Headers, verify: string -> Verified, lookup: Id -> Lookup): (r: Outcome)
    ensures !NonEmpty(ExtractToken(h)) ==> r == Deny(401, NoToken)
    ensures r.Next? <==>
      NonEmpty(ExtractToken(h)) && verify(ExtractToken(h).value).Decoded? &&
      UserIdOf(verify(ExtractToken(h).value).payload).Some? &&
      lookup(UserIdOf(verify(ExtractToken(h).value).payload).value).Found?
    ensures r.Next? ==> r.user == lookup(UserIdOf(verify(ExtractToken(h).value).payload).value).user
    ensures r.Deny? ==> r.status == 401 || r.status == 500
  {
    var token := ExtractToken(h);
    if !NonEmpty(token) then Deny(401, NoToken)
    else match verify(token.value)
      case Thrown(name, message) => Caught(name, message)
      case Decoded(payload) => AfterPayload(payload, lookup)
  }

  /** A request without a token is refused before the token library or the
      database is consulted. */
  lemma NoTokenNoWork(h: Headers, v1: string -> Verified, v2: string -> Verified, l1: Id -> Lookup, l2: Id -> Lookup)
    requires !NonEmpty(ExtractToken(h))
    ensures Protect(h, v1, l1) == Protect(h, v2, l2) == Deny(401, NoToken)
  {
  }

  /** `partnerOnly`: a loaded user whose role is "Partner". */
  predicate PartnerOnly(user: Option<User>)
  {
    user.Some? && user.value.role == "Partner"
  }

  /** `adminOnly`: a loaded user whose role is "Admin" or "Super Admin". */
  predicate AdminOnly(user: Option<User>)
  {
    user.Some? && (user.value.role == "Admin" || user.value.role == "Super Admin")
  }

  /** The answer of a role guard: go on, or 403. */
  function Guard(admit: bool): (status: Option<int>)
    ensures admit <==> status.None?
    ensures status.Some? ==> status.value == 403
  {
    if admit then None else Some(403)
  }

  /** No user passes both guards, and a request without a user passes
      neither. */
  lemma GuardsAreExclusive(user: Option<User>)
    ensures !(PartnerOnly(user) && AdminOnly(user))
    ensures user.None? ==> Guard(PartnerOnly(user)) == Some(403) && Guard(AdminOnly(user)) == Some(403)
  {
  }
}
