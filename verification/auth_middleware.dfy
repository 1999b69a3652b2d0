/** The server's request guard: a request passes only with an
    `Authorization: Bearer <token>` header whose token verifies; every other
    request is answered with 401. The token check itself is the parameter
    `verify` (a signature check against the server's secret). */
module AuthMiddleware {
  import opened Wrappers

  /** The user claims carried in a token. */
  datatype User = User(id: int, username: string, role: string)

  /** The payload `jwt.verify` returns for a valid token. */
  datatype Decoded = Decoded(user: User)

  /** A JSON reply `res.status(status).json({ message })`. */
  datatype Reply = Reply(status: int, message: string)

  const NoTokenMessage: string := "No token, authorization denied."
  const BadFormatMessage: string := "Token is not in the correct format."
  const InvalidTokenMessage: string := "Token is not valid."

  /** `parts.join(sep)` */
  function Join(parts: seq<string>, sep: char): string
    requires |parts| >= 1
  {
    if |parts| == 1 then parts[0] else parts[0] + [sep] + Join(parts[1..], sep)
  }

  /** `s.split(sep)` with a one-character separator: the pieces between
      separators, empty pieces included; joining them gives `s` back. */
  function Split(s: string, sep: char): (r: seq<string>)
    ensures |r| >= 1
    ensures forall k :: 0 <= k < |r| ==> sep !in r[k]
    ensures Join(r, sep) == s
  {
    if s == [] then [""]
    else
      var rest := Split(s[1..], sep);
      if s[0] == sep then
        assert s == [sep] + Join(rest, sep);
        [""] + rest
      else
        var r := [[s[0]] + rest[0]] + rest[1..];
        assert r[1..] == rest[1..];
        assert s == [s[0]] + Join(rest, sep);
        r
  }

  /** Splitting a string that starts with a piece free of the separator. */
  lemma {:induction false} SplitAfterPiece(a: string, rest: string, sep: char)
    requires sep !in a
    ensures Split(a + [sep] + rest, sep) == [a] + Split(rest, sep)
    ensures Split(a, sep) == [a]
  {
    if a != [] {
      assert (a + [sep] + rest)[1..] == a[1..] + [sep] + rest;
      SplitAfterPiece(a[1..], rest, sep);
      assert a == [a[0]] + a[1..];
    } else {
      assert a + [sep] + rest == [sep] + rest;
    }
  }

  /** Pieces free of the separator are recovered by splitting their join. */
  lemma {:induction false} SplitJoin(parts: seq<string>, sep: char)
    requires |parts| >= 1 && forall k :: 0 <= k < |parts| ==> sep !in parts[k]
    ensures Split(Join(parts, sep), sep) == parts
  {
    if |parts| == 1 {
      SplitAfterPiece(parts[0], "", sep);
    } else {
      SplitJoin(parts[1..], sep);
      SplitAfterPiece(parts[0], Join(parts[1..], sep), sep);
      assert parts == [parts[0]] + parts[1..];
    }
  }

  const BearerPrefix: string := "Bearer "

  /** The header's format check passes exactly for `"Bearer "` followed by a
      token without spaces (possibly empty), and the token is what follows
      the prefix. A lower-case `bearer` or a second space fails. */
  lemma {:induction false} BearerFormat(header: string)
    ensures var parts := Split(header, ' ');
      (|parts| == 2 && parts[0] == "Bearer") <==>
      (|header| >= 7 && header[..7] == BearerPrefix && ' ' !in header[7..])
    ensures var parts := Split(header, ' ');
      |parts| == 2 && parts[0] == "Bearer" ==> parts[1] == header[7..]
  {
    var parts := Split(header, ' ');
    if |parts| == 2 && parts[0] == "Bearer" {
      assert Join(parts[1..], ' ') == parts[1];
      assert header == "Bearer" + [' '] + parts[1];
    }
    if |header| >= 7 && header[..7] == BearerPrefix && ' ' !in header[7..] {
      var token := header[7..];
      assert header == "Bearer" + [' '] + token;
      SplitJoin(["Bearer", token], ' ');
      assert Join(["Bearer", token], ' ') == "Bearer" + [' '] + Join([token], ' ');
    }
  }

  /** What the middleware does with one request. */
  datatype Outcome = Reject(reply: Reply) | Proceed(user: User)

  /** `authMiddleware` as a decision: a missing or empty header, a header
      that is not two space-separated parts starting with `Bearer`, and a
      token that does not verify each give their own 401 reply; otherwise the
      request proceeds as the token's user. */
  function Authorize(authHeader: Option<string>, verify: string -> Option<Decoded>): (r: Outcome)
    ensures authHeader.None? || authHeader.value == "" ==> r == Reject(Reply(401, NoTokenMessage))
    ensures authHeader.Some? && authHeader.value != "" &&
            !(|authHeader.value| >= 7 && authHeader.value[..7] == BearerPrefix && ' ' !in authHeader.value[7..]) ==>
      r == Reject(Reply(401, BadFormatMessage))
    ensures r.Proceed? <==>
      authHeader.Some? && |authHeader.value| >= 7 && authHeader.value[..7] == BearerPrefix &&
      ' ' !in authHeader.value[7..] && verify(authHeader.value[7..]).Some?
    ensures authHeader.Some? && |authHeader.value| >= 7 && authHeader.value[..7] == BearerPrefix &&
            ' ' !in authHeader.value[7..] && verify(authHeader.value[7..]).None? ==>
      r == Reject(Reply(401, InvalidTokenMessage))
    ensures r.Proceed? ==> r.user == verify(authHeader.value[7..]).value.user
    ensures r.Reject? ==> r.reply.status == 401
  {
    if authHeader.None? || authHeader.value == "" then
      Reject(Reply(401, NoTokenMessage))
    else
      var tokenParts := Split(authHeader.value, ' ');
      BearerFormat(authHeader.value);
      if |tokenParts| != 2 || tokenParts[0] != "Bearer" then
        Reject(Reply(401, BadFormatMessage))
      else
        var token := tokenParts[1];
        match verify(token)
        case Some(decoded) => Proceed(decoded.user)
        case None => Reject(Reply(401, InvalidTokenMessage))
  }

  /** One request passing through the middleware: the header it carries,
      the user attached to it, the replies sent and the calls of `next`. */
  class Exchange {
    const authorization: Option<string>
    var user: Option<User>
    var replies: seq<Reply>
    var nextCalls: nat

    constructor (authorization: Option<string>)
      ensures this.authorization == authorization
      ensures user == None && replies == [] && nextCalls == 0
    {
      this.authorization := authorization;
      user := None;
      replies := [];
      nextCalls := 0;
    }
  }

  /** `authMiddleware(req, res, next)`: exactly one thing happens, either one
      401 reply is sent or `req.user` is set and `next` is called once. */
  method RunAuthMiddleware(ex: Exchange, verify: string -> Option<Decoded>)
    modifies ex
    ensures |ex.replies| + ex.nextCalls == |old(ex.replies)| + old(ex.nextCalls) + 1
    ensures Authorize(ex.authorization, verify).Proceed? ==>
      ex.user == Some(Authorize(ex.authorization, verify).user) &&
      ex.nextCalls == old(ex.nextCalls) + 1 && ex.replies == old(ex.replies)
    ensures Authorize(ex.authorization, verify).Reject? ==>
      ex.replies == old(ex.replies) + [Authorize(ex.authorization, verify).reply] &&
      ex.nextCalls == old(ex.nextCalls) && ex.user == old(ex.user)
  {
    match Authorize(ex.authorization, verify)
    case Proceed(u) =>
      ex.user := Some(u);
      ex.nextCalls := ex.nextCalls + 1;
    case Reject(reply) =>
      ex.replies := ex.replies + [reply];
  }
}
