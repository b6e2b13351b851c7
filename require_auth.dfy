/**
 * The authentication middleware: the checks on the `Authorization` header, the
 * extraction of the bearer token and the outcome of a request it guards.
 *
 * Token verification is a parameter: it yields the user id the token carries, or
 * nothing when the token is invalid or expired.
 */
module RequireAuth {
  import opened Common
  import opened Users

  const BearerPrefix: string := "Bearer "

  /** Why a request is refused; each reason has its own 401 message. */
  datatype Refusal = TokenRequired | BadFormat | TokenMissing | TokenInvalid

  /** The `error` text of the 401 answer. */
  function Message(reason: Refusal): string
  {
    match reason
    case TokenRequired => "Authorization token required"
    case BadFormat => "Invalid authorization format. Expected: Bearer <token>"
    case TokenMissing => "Token not found in authorization header"
    case TokenInvalid => "Invalid or expired token"
  }

  /** The middleware either answers 401 or lets the request through with `req.user` set. */
  datatype AuthOutcome = Rejected(reason: Refusal) | Authenticated(user: Option<UserId>)

  /**
   * `authorization.split(' ')[1]` for a header that starts with the prefix: the text after the
   * prefix up to the next space.
   */
  function BearerToken(header: string): (token: string)
    requires BearerPrefix <= header
    ensures token == Split(header[|BearerPrefix|..], ' ')[0]
    ensures ' ' !in token && token <= header[|BearerPrefix|..]
    ensures token == "" <==> header == BearerPrefix || header[|BearerPrefix|] == ' '
  {
    var rest := header[|BearerPrefix|..];
    assert header == "Bearer" + [' '] + rest;
    SplitAfterWord("Bearer", ' ', rest);
    SplitFirst(rest, ' ');
    Split(header, ' ')[1]
  }

  /** A header built from a token and anything after a space gives that token back. */
  lemma BearerTokenRoundTrip(token: string, more: string)
    requires ' ' !in token
    ensures BearerToken(BearerPrefix + token) == token
    ensures BearerToken(BearerPrefix + token + [' '] + more) == token
  {
    SplitJoin(token, ' ');
    assert (BearerPrefix + token)[|BearerPrefix|..] == token;
    assert (BearerPrefix + token + [' '] + more)[|BearerPrefix|..] == token + [' '] + more;
    SplitAfterWord(token, ' ', more);
    if token == [] {
      assert Split(token, ' ') == [""];
    } else {
      assert Split(token, ' ')[0] == token by {
        SplitFirst(token, ' ');
        OnlyPiece(token);
      }
    }
  }

  /** A string without a space splits into itself alone. */
  lemma {:induction false} OnlyPiece(s: string)
    requires ' ' !in s
    ensures Split(s, ' ') == [s]
  {
    if s != [] {
      OnlyPiece(s[1..]);
      assert [s[0]] + s[1..] == s;
    }
  }

  /**
   * requireAuth: the first failing check decides the 401 message; a verified token lets the
   * request through with `req.user` set to the user the id finds, or to nothing.
   */
  function Authorize(header: Option<string>, verify: string -> Option<UserId>, users: seq<User>): (r: AuthOutcome)
    ensures (header.None? || header.value == "") <==> r == Rejected(TokenRequired)
    ensures header.Some? && header.value != "" && !(BearerPrefix <= header.value) <==>
              r == Rejected(BadFormat)
    ensures r == Rejected(TokenMissing) <==>
              header.Some? && BearerPrefix <= header.value
              && (header.value == BearerPrefix || header.value[|BearerPrefix|] == ' ')
    ensures r == Rejected(TokenInvalid) <==>
              header.Some? && BearerPrefix <= header.value && BearerToken(header.value) != ""
              && verify(BearerToken(header.value)).None?
    ensures r.Authenticated? ==>
              && header.Some? && BearerPrefix <= header.value && BearerToken(header.value) != ""
              && verify(BearerToken(header.value)).Some?
              && var id := verify(BearerToken(header.value)).value;
                 r.user == (if exists u :: u in users && u.id == id then Some(id) else None)
  {
    if header.None? || header.value == "" then Rejected(TokenRequired)
    else if !(BearerPrefix <= header.value) then Rejected(BadFormat)
    else
      var token := BearerToken(header.value);
      if token == "" then Rejected(TokenMissing)
      else match verify(token)
        case None => Rejected(TokenInvalid)
        case Some(id) => Authenticated(if exists u :: u in users && u.id == id then Some(id) else None)
  }

  /** The part of an Express request and response the middleware touches. */
  class Request {
    var user: Option<UserId>
    var nextCalls: nat
    var status: nat
    var error: string

    constructor()
      ensures user.None? && nextCalls == 0 && status == 0 && error == ""
    {
      user := None;
      nextCalls := 0;
      status := 0;
      error := "";
    }

    /** Run the middleware: answer 401 without calling `next`, or set `req.user` and call `next` once. */
    method RequireAuth(header: Option<string>, verify: string -> Option<UserId>, users: seq<User>)
      modifies this
      ensures Authorize(header, verify, users).Rejected? ==>
                && status == 401 && error == Message(Authorize(header, verify, users).reason)
                && nextCalls == old(nextCalls) && user == old(user)
      ensures Authorize(header, verify, users).Authenticated? ==>
                && user == Authorize(header, verify, users).user && nextCalls == old(nextCalls) + 1
                && status == old(status) && error == old(error)
    {
      var outcome := Authorize(header, verify, users);
      match outcome {
        case Rejected(reason) =>
          status := 401;
          error := Message(reason);
        case Authenticated(u) =>
          user := u;
          nextCalls := nextCalls + 1;
      }
    }
  }
}
