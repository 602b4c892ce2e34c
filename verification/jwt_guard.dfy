/**
 * The guards of src/auth/guards/jwt.guard.ts. Each reads a token (the cookie
 * of an HTTP request, the handshake of a socket), verifies it, and on success
 * binds the verified payload to the request or the socket. Extracting and
 * verifying the token belong to the auth service and are parameters here, as
 * is the `@Public()` marker the reflector reads.
 */
module JwtGuard {
  import opened Wrappers
  import opened Ids
  import opened Responses

  /** What a verified token carries (src/auth/interfaces/user-payload.interface.ts). */
  datatype UserPayload = UserPayload(userId: UserId, username: string)

  /** An Express request, with the `user` the HTTP guard sets. */
  class Request {
    var user: Option<UserPayload>

    constructor()
      ensures user == None
    {
      user := None;
    }
  }

  /** A socket.io connection: its id and `socket.data.user`, set once a token is accepted. */
  class Socket {
    const id: SocketId
    var user: Option<UserPayload>

    constructor(id: SocketId)
      ensures this.id == id && user == None
    {
      this.id := id;
      user := None;
    }
  }

  /** `!token`: a missing token and the empty string are both falsy. */
  predicate NoToken(token: Option<string>)
  {
    token.None? || token.value == ""
  }

  /** The token verifies to a payload. */
  predicate Verified(token: Option<string>, verifyJwt: string -> Option<UserPayload>)
  {
    !NoToken(token) && verifyJwt(token.value).Some?
  }

  /** A guard's verdict: let the request through, binding a user or not, or throw. */
  datatype Decision = Allow(user: Option<UserPayload>) | Reject(error: Exception)

  /**
   * HttpJwtGuard's branch table. A public route lets every request through;
   * any other route needs a token that verifies. A user is bound exactly when
   * the token verifies, public route or not.
   */
  function HttpDecision(isPublic: bool, token: Option<string>, verifyJwt: string -> Option<UserPayload>): (d: Decision)
    ensures d.Reject? <==> !isPublic && !Verified(token, verifyJwt)
    ensures d.Reject? && NoToken(token) ==> d.error == Unauthorized("Unauthorized access: No token provided")
    ensures d.Reject? && !NoToken(token) ==> d.error == Unauthorized("Unauthorized access: Invalid token")
    ensures d.Allow? ==> (d.user.Some? <==> Verified(token, verifyJwt))
    ensures d.Allow? && d.user.Some? ==> d.user == verifyJwt(token.value)
  {
    if NoToken(token) then
      if isPublic then Allow(None) else Reject(Unauthorized("Unauthorized access: No token provided"))
    else match verifyJwt(token.value)
      case None =>
        if isPublic then Allow(None) else Reject(Unauthorized("Unauthorized access: Invalid token"))
      case Some(payload) => Allow(Some(payload))
  }

  /**
   * WsJwtGuard's branch table: no public bypass, so a socket gets through
   * only with a token that verifies, and always with its user bound.
   */
  function WsDecision(token: Option<string>, verifyJwt: string -> Option<UserPayload>): (d: Decision)
    ensures d.Allow? <==> Verified(token, verifyJwt)
    ensures d.Allow? ==> d.user.Some? && d.user == verifyJwt(token.value)
    ensures d.Reject? && NoToken(token) ==> d.error == WsException(CreateErrorResponse("Unauthorized access: No token"))
    ensures d.Reject? && !NoToken(token) ==> d.error == WsException(CreateErrorResponse("Unauthorized access: Invalid token"))
  {
    if NoToken(token) then Reject(WsException(CreateErrorResponse("Unauthorized access: No token")))
    else match verifyJwt(token.value)
      case None => Reject(WsException(CreateErrorResponse("Unauthorized access: Invalid token")))
      case Some(payload) => Allow(Some(payload))
  }

  /** The socket guard lets through exactly what the HTTP guard lets through on a route that is not public, with the same user. */
  lemma WsIsHttpWithoutPublic(token: Option<string>, verifyJwt: string -> Option<UserPayload>)
    ensures WsDecision(token, verifyJwt).Allow? <==> HttpDecision(false, token, verifyJwt).Allow?
    ensures WsDecision(token, verifyJwt).Allow? ==> WsDecision(token, verifyJwt).user == HttpDecision(false, token, verifyJwt).user
  {
  }

  /** Marking a route public only turns rejections into anonymous passes: it never changes the user bound. */
  lemma PublicOnlyAddsAnonymousPasses(token: Option<string>, verifyJwt: string -> Option<UserPayload>)
    ensures HttpDecision(true, token, verifyJwt).Allow?
    ensures HttpDecision(false, token, verifyJwt).Allow? ==> HttpDecision(true, token, verifyJwt) == HttpDecision(false, token, verifyJwt)
    ensures HttpDecision(false, token, verifyJwt).Reject? ==> HttpDecision(true, token, verifyJwt) == Allow(None)
  {
  }

  /** HttpJwtGuard.canActivate: returns true or throws; on a verified token, `request.user` is the payload. */
  method HttpCanActivate(request: Request, isPublic: bool, token: Option<string>, verifyJwt: string -> Option<UserPayload>)
    returns (r: Result<bool, Exception>)
    modifies request
    ensures HttpDecision(isPublic, token, verifyJwt).Reject? ==>
      r == Failure(HttpDecision(isPublic, token, verifyJwt).error) && request.user == old(request.user)
    ensures HttpDecision(isPublic, token, verifyJwt).Allow? ==> r == Success(true)
    ensures Verified(token, verifyJwt) ==> request.user == verifyJwt(token.value)
    ensures !Verified(token, verifyJwt) ==> request.user == old(request.user)
  {
    if NoToken(token) {
      if isPublic {
        return Success(true);
      } else {
        return Failure(Unauthorized("Unauthorized access: No token provided"));
      }
    }
    var userPayload := verifyJwt(token.value);
    if userPayload.None? {
      if isPublic {
        return Success(true);
      } else {
        return Failure(Unauthorized("Unauthorized access: Invalid token"));
      }
    }
    request.user := userPayload;
    return Success(true);
  }

  /** WsJwtGuard.canActivate: returns true or throws; on a verified token, `socket.data.user` is the payload. */
  method WsCanActivate(socket: Socket, token: Option<string>, verifyJwt: string -> Option<UserPayload>)
    returns (r: Result<bool, Exception>)
    modifies socket
    ensures WsDecision(token, verifyJwt).Reject? ==>
      r == Failure(WsDecision(token, verifyJwt).error) && socket.user == old(socket.user)
    ensures WsDecision(token, verifyJwt).Allow? ==> r == Success(true) && socket.user == WsDecision(token, verifyJwt).user
  {
    if NoToken(token) {
      return Failure(WsException(CreateErrorResponse("Unauthorized access: No token")));
    }
    var userPayload := verifyJwt(token.value);
    if userPayload.None? {
      return Failure(WsException(CreateErrorResponse("Unauthorized access: Invalid token")));
    }
    socket.user := userPayload;
    return Success(true);
  }
}
