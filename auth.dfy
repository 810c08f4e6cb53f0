/** Request gating (src/lib/utils/auth.ts): reading the bearer token from the
    `Authorization` header, and the order of the checks `withAuth` runs before a
    route handler sees the caller. Token signing and checking are a library
    call; the model takes `verifyToken` as a function parameter that answers
    the decoded payload or `None` (it catches every failure itself). */
module Auth {
  import opened Common
  import opened Entities

  /** The claims a token carries. */
  datatype JwtPayload = JwtPayload(email: string, role: string)

  // ---------------------------------------------------------------------------
  // `String.prototype.split(' ')`

  /** Splitting on single spaces: `n` spaces give `n + 1` parts, none holding a space. */
  function Split(s: string): (parts: seq<string>)
    ensures |parts| >= 1
    ensures forall k :: 0 <= k < |parts| ==> ' ' !in parts[k]
  {
    if s == [] then [""]
    else
      var rest := Split(s[1..]);
      if s[0] == ' ' then [""] + rest
      else [[s[0]] + rest[0]] + rest[1..]
  }

  /** Gluing parts back together with single spaces. */
  function Join(parts: seq<string>): string
    requires |parts| >= 1
  {
    if |parts| == 1 then parts[0] else parts[0] + " " + Join(parts[1..])
  }

  /** Splitting loses nothing: joining the parts gives the header back. */
  lemma {:induction false} JoinSplit(s: string)
    ensures Join(Split(s)) == s
  {
    if s != [] {
      var rest := Split(s[1..]);
      JoinSplit(s[1..]);
      if s[0] != ' ' {
        if |rest| == 1 {
          assert s == [s[0]] + s[1..];
        } else {
          assert Join(rest) == rest[0] + " " + Join(rest[1..]);
          assert s == [s[0]] + s[1..];
        }
      }
    }
  }

  /** A word without spaces is one part. */
  lemma {:induction false} SplitWord(w: string)
    requires ' ' !in w
    ensures Split(w) == [w]
  {
    if w != [] {
      assert ' ' !in w[1..] by {
        forall k | 0 <= k < |w[1..]| ensures w[1..][k] != ' ' { assert w[1..][k] == w[k + 1]; }
      }
      SplitWord(w[1..]);
      assert [w[0]] + w[1..] == w;
    }
  }

  /** A word without spaces followed by a space is the first part. */
  lemma {:induction false} SplitAfterWord(w: string, r: string)
    requires ' ' !in w
    ensures Split(w + " " + r) == [w] + Split(r)
  {
    if w == [] {
      assert w + " " + r == [' '] + r;
      assert (w + " " + r)[1..] == r;
    } else {
      assert ' ' !in w[1..] by {
        forall k | 0 <= k < |w[1..]| ensures w[1..][k] != ' ' { assert w[1..][k] == w[k + 1]; }
      }
      SplitAfterWord(w[1..], r);
      assert (w + " " + r)[1..] == w[1..] + " " + r;
      assert [w[0]] + w[1..] == w;
    }
  }

  /** Joining space-free parts and splitting again gives the same parts. */
  lemma {:induction false} SplitJoin(parts: seq<string>)
    requires |parts| >= 1
    requires forall k :: 0 <= k < |parts| ==> ' ' !in parts[k]
    ensures Split(Join(parts)) == parts
  {
    if |parts| == 1 {
      SplitWord(parts[0]);
    } else {
      SplitJoin(parts[1..]);
      SplitAfterWord(parts[0], Join(parts[1..]));
      assert [parts[0]] + parts[1..] == parts;
    }
  }

  // ---------------------------------------------------------------------------
  // getTokenFromRequest

  /** The bearer token of an `Authorization` header, or `None`: no header (or an
      empty one), or a header that does not split into exactly `Bearer` and one
      more part. */
  function TokenFromHeader(header: Option<string>): Option<string> {
    if !TruthyStr(header) then None
    else
      var parts := Split(header.value);
      if |parts| != 2 || parts[0] != "Bearer" then None else Some(parts[1])
  }

  /** A header yields token `t` exactly when it is `"Bearer " + t` and `t` has no
      space; so `"bearer t"`, `"Bearer  t"` and `"Bearer a b"` yield nothing. */
  lemma TokenFromHeaderIff(h: string, t: string)
    ensures TokenFromHeader(Some(h)) == Some(t) <==> h == "Bearer " + t && ' ' !in t
  {
    if TokenFromHeader(Some(h)) == Some(t) {
      var parts := Split(h);
      JoinSplit(h);
      assert parts == [parts[0], parts[1]];
      assert Join(parts) == parts[0] + " " + parts[1];
      assert ' ' !in parts[1];
    }
    if h == "Bearer " + t && ' ' !in t {
      assert h == Join(["Bearer", t]);
      SplitJoin(["Bearer", t]);
    }
  }

  /** `getTokenFromRequest` returns null when there is no header. */
  lemma NoHeaderNoToken()
    ensures TokenFromHeader(None) == None && TokenFromHeader(Some("")) == None
  {
  }

  // ---------------------------------------------------------------------------
  // withAuth

  /** The checks `withAuth` runs, in order: a token must be present and
      non-empty (401 "No token provided"), it must verify (401 "Invalid token"),
      and when a role is required the caller must have exactly that role
      (403). The payload handed to the route handler is the decoded token. */
  function Authenticate(header: Option<string>, verify: string -> Option<JwtPayload>, requiredRole: Option<string>)
    : (r: Response<JwtPayload>)
    ensures r.Ok? <==>
      TruthyStr(TokenFromHeader(header)) && verify(TokenFromHeader(header).value).Some? &&
      (TruthyStr(requiredRole) ==> verify(TokenFromHeader(header).value).value.role == requiredRole.value)
    ensures r.Ok? ==> r.value == verify(TokenFromHeader(header).value).value
    ensures r.Fail? && r.status == 403 ==>
      TruthyStr(requiredRole) && TruthyStr(TokenFromHeader(header)) &&
      verify(TokenFromHeader(header).value).Some?
  {
    var token := TokenFromHeader(header);
    if !TruthyStr(token) then Fail(401, "No token provided")
    else
      match verify(token.value)
      case None => Fail(401, "Invalid token")
      case Some(decoded) =>
        if TruthyStr(requiredRole) && decoded.role != requiredRole.value then
          Fail(403, "Insufficient permissions")
        else
          Ok(decoded)
  }

  /** `withAuth(handler, requiredRole)`: the handler runs, with the decoded
      payload as `context.user`, only when every check passes; otherwise the
      check's own failure is the answer. */
  function WithAuth<T>(
    header: Option<string>,
    verify: string -> Option<JwtPayload>,
    requiredRole: Option<string>,
    handler: JwtPayload -> Response<T>)
    : (r: Response<T>)
    ensures Authenticate(header, verify, requiredRole).Fail? ==>
      r == Fail(Authenticate(header, verify, requiredRole).status, Authenticate(header, verify, requiredRole).message)
    ensures Authenticate(header, verify, requiredRole).Ok? ==> r == handler(Authenticate(header, verify, requiredRole).value)
  {
    match Authenticate(header, verify, requiredRole)
    case Fail(status, message) => Fail(status, message)
    case Ok(user) => handler(user)
  }

  /** "Bearer " with nothing after it carries an empty token, which is refused
      as missing before the verifier is consulted. */
  lemma EmptyBearerIsNoToken(verify: string -> Option<JwtPayload>, requiredRole: Option<string>)
    ensures Authenticate(Some("Bearer "), verify, requiredRole) == Fail(401, "No token provided")
  {
    TokenFromHeaderIff("Bearer ", "");
  }

  /** A route wrapped for a role answers only callers whose verified token
      carries exactly that role; everyone else gets a 401 or a 403. */
  lemma RoleGate<T>(
    header: Option<string>,
    verify: string -> Option<JwtPayload>,
    role: string,
    handler: JwtPayload -> Response<T>)
    requires role != ""
    ensures var r := WithAuth(header, verify, Some(role), handler);
      (r.Ok? ==> TokenFromHeader(header).Some? && verify(TokenFromHeader(header).value).Some? &&
                 verify(TokenFromHeader(header).value).value.role == role) &&
      (r.Fail? && r.status !in {401, 403} ==> Authenticate(header, verify, Some(role)).Ok?)
  {
  }

  /** A well-formed bearer header whose token verifies with the required role
      reaches the handler with that very payload. */
  lemma HandlerSeesDecodedPayload<T>(
    t: string,
    verify: string -> Option<JwtPayload>,
    requiredRole: Option<string>,
    handler: JwtPayload -> Response<T>)
    requires t != "" && ' ' !in t
    requires verify(t).Some?
    requires TruthyStr(requiredRole) ==> verify(t).value.role == requiredRole.value
    ensures WithAuth(Some("Bearer " + t), verify, requiredRole, handler) == handler(verify(t).value)
  {
    TokenFromHeaderIff("Bearer " + t, t);
  }
}
