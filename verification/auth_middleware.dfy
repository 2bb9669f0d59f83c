/**
 * `authMiddleware` (backend/src/middlewares/auth.middleware.ts): it takes
 * the second space-separated word of the `Authorization` header as the token,
 * verifies it and hands the decoded payload on as `req.user`. `jwt.verify`
 * with the server's secret is the parameter `verify`: None when it throws.
 */
module AuthMiddleware {
  import opened Wrappers
  import opened Js
  import opened Http

  const TokenRequired := "Token requerido"
  const TokenInvalid := "Token inválido"
  const TokenRejected := "Token no válido o expirado"

  /** `authHeader.split(' ')[1]`: undefined when there is no space. */
  function TokenOf(header: string): (t: Option<string>)
    ensures t.Some? <==> ' ' in header
    ensures t.Some? ==> ' ' !in t.value
  {
    var parts := Split(header, ' ');
    SplitHasSecond(header, ' ');
    if |parts| >= 2 then Some(parts[1]) else None
  }

  function Authenticate(header: Option<string>, verify: string -> Option<Value>): (r: Gate<Value>)
    ensures header.None? || header.value == "" ==> r == Reject(MessageReply(401, TokenRequired))
    ensures (header.Some? && header.value != "" && (TokenOf(header.value).None? || TokenOf(header.value).value == ""))
              ==> r == Reject(MessageReply(401, TokenInvalid))
    ensures (header.Some? && TokenOf(header.value).Some? && TokenOf(header.value).value != ""
             && verify(TokenOf(header.value).value).None?)
              ==> r == Reject(MessageReply(401, TokenRejected))
    ensures r.Reject? ==> r.response.status == 401
    ensures r.Next? <==>
      header.Some? && TokenOf(header.value).Some? && TokenOf(header.value).value != ""
      && verify(TokenOf(header.value).value).Some?
    ensures r.Next? ==> r.passed == verify(TokenOf(header.value).value).value
  {
    if header.None? || header.value == "" then Reject(MessageReply(401, TokenRequired))
    else
      var token := TokenOf(header.value);
      if token.None? || token.value == "" then Reject(MessageReply(401, TokenInvalid))
      else match verify(token.value)
        case None => Reject(MessageReply(401, TokenRejected))
        case Some(payload) => Next(payload)
  }

  /**
   * With `"<scheme> <token>"` the token verified is the second word whatever
   * the first is: the scheme is never checked to be `Bearer`.
   */
  lemma SchemeUnchecked(scheme: string, token: string, verify: string -> Option<Value>)
    requires ' ' !in scheme && ' ' !in token && token != ""
    ensures TokenOf(scheme + " " + token) == Some(token)
    ensures Authenticate(Some(scheme + " " + token), verify)
      == if verify(token).Some? then Next(verify(token).value) else Reject(MessageReply(401, TokenRejected))
  {
    SplitAtFirst(scheme, ' ', token);
    SplitWithout(token, ' ');
    assert scheme + " " + token == scheme + [' '] + token;
  }

  /** A header with no space, or ending in the space, carries no token. */
  lemma MissingTokenInvalid(header: string, verify: string -> Option<Value>)
    requires header != ""
    requires ' ' !in header || header[|header| - 1] == ' '
    requires ' ' in header ==> ' ' !in header[..|header| - 1]
    ensures Authenticate(Some(header), verify) == Reject(MessageReply(401, TokenInvalid))
  {
    if ' ' in header {
      var a := header[..|header| - 1];
      SplitAtFirst(a, ' ', "");
      assert a + [' '] + "" == header;
    }
  }
}
