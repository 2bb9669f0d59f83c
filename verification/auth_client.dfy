/**
 * The browser's auth client (frontend/src/lib/auth.ts): the token kept in
 * `localStorage`, and the user id read back out of the token's payload. The
 * `register` and `login` calls are `fetch` wrappers and are not part of this model.
 */
module AuthClient {
  import opened Wrappers
  import opened Js

  const TokenKey := "token"

  /**
   * `window.localStorage` as the client sees it: `available` is false when
   * the code runs without a window, where every storage call does nothing.
   */
  class TokenStore {
    const available: bool
    var items: map<string, string>

    constructor (available: bool, items: map<string, string>)
      ensures this.available == available && this.items == items
    {
      this.available := available;
      this.items := items;
    }

    /** `getToken()`: the stored token, null when there is none or no storage. */
    function GetToken(): (t: Option<string>)
      reads this
      ensures t.Some? <==> available && TokenKey in items
      ensures t.Some? ==> t.value == items[TokenKey]
    {
      if available && TokenKey in items then Some(items[TokenKey]) else None
    }

    /** `setToken(t)`: stores the token under its key; `getToken()` then returns it. */
    method SetToken(token: string)
      modifies this
      ensures items == if available then old(items)[TokenKey := token] else old(items)
      ensures available ==> GetToken() == Some(token)
      ensures !available ==> GetToken() == None
    {
      if available {
        items := items[TokenKey := token];
      }
    }

    /** `logout()`: removes the token and nothing else; `getToken()` then returns null. */
    method Logout()
      modifies this
      ensures items == if available then old(items) - {TokenKey} else old(items)
      ensures GetToken() == None
    {
      if available {
        items := items - {TokenKey};
      }
    }

    /** `isAuthenticated()`: a token is stored, even an empty one. */
    predicate IsAuthenticated()
      reads this
      ensures IsAuthenticated() <==> GetToken().Some?
    {
      GetToken() != None
    }
  }

  /** `s.replace(/from/g, to)` for one character. */
  function ReplaceAll(s: string, from: char, to: char): (r: string)
    ensures |r| == |s|
    ensures forall i :: 0 <= i < |s| ==> r[i] == (if s[i] == from then to else s[i])
  {
    seq(|s|, i requires 0 <= i < |s| => if s[i] == from then to else s[i])
  }

  /** The base64url payload segment rewritten in the standard base64 alphabet. */
  function StandardBase64(segment: string): (r: string)
    ensures |r| == |segment|
    ensures '-' !in r && '_' !in r
    ensures forall i :: 0 <= i < |segment| ==>
      r[i] == (if segment[i] == '-' then '+' else if segment[i] == '_' then '/' else segment[i])
    ensures forall i :: 0 <= i < |segment| && segment[i] != '-' && segment[i] != '_' ==> r[i] == segment[i]
  {
    ReplaceAll(ReplaceAll(segment, '-', '+'), '_', '/')
  }

  /** A segment already in the standard alphabet is left as it is. */
  lemma StandardBase64Idempotent(segment: string)
    ensures StandardBase64(StandardBase64(segment)) == StandardBase64(segment)
  {
  }

  /**
   * `decodeJwtPayload(token)`. `decode` is `atob` (or Buffer's base64
   * decoding) followed by `JSON.parse`; None when either throws.
   */
  function DecodeJwtPayload(token: string, decode: string -> Option<Value>): (r: Value)
    ensures token == "" || '.' !in token ==> r == Null
    ensures |Split(token, '.')| >= 2 <==> '.' in token
    ensures r != Null ==> |Split(token, '.')| >= 2 && decode(StandardBase64(Split(token, '.')[1])) == Some(r)
    ensures token != "" && |Split(token, '.')| >= 2 && decode(StandardBase64(Split(token, '.')[1])).None? ==> r == Null
  {
    SplitHasSecond(token, '.');
    if token == "" then Null
    else
      var parts := Split(token, '.');
      if |parts| < 2 then Null
      else match decode(StandardBase64(parts[1]))
        case None => Null
        case Some(v) => v
  }

  /** Of a token `header.payload.signature`, it is the payload that is decoded. */
  lemma DecodesSecondSegment(header: string, payload: string, signature: string, decode: string -> Option<Value>)
    requires '.' !in header && '.' !in payload
    ensures DecodeJwtPayload(header + "." + payload + "." + signature, decode)
      == if decode(StandardBase64(payload)).Some? then decode(StandardBase64(payload)).value else Null
  {
    var token := header + "." + payload + "." + signature;
    assert token == header + ['.'] + (payload + ['.'] + signature);
    SplitAtFirst(header, '.', payload + ['.'] + signature);
    SplitAtFirst(payload, '.', signature);
  }

  /**
   * `getUserId()` given what `getToken()` returned: the payload's `userId`,
   * else `user_id`, else `id`. A number is returned as it is; a string goes
   * through `Number`, with 0 and NaN giving null; anything else is null.
   */
  function GetUserId(token: Option<string>, decode: string -> Option<Value>, parse: string -> Number): (r: Option<Number>)
    ensures token.None? || token.value == "" ==> r.None?
  {
    if token.None? || token.value == "" then None
    else
      var payload := DecodeJwtPayload(token.value, decode);
      if !Truthy(payload) || !TypeofObject(payload) then None
      else
        var userId := Coalesce(Coalesce(Get(payload, "userId"), Get(payload, "user_id")), Get(payload, "id"));
        match userId
        case Num(n) => Some(n)
        case Str(s) => if NumTruthy(parse(s)) then Some(parse(s)) else None
        case _ => None
  }

  /** The id claim the client reads: `userId`, else `user_id`, else `id`. */
  function IdClaim(fields: Row): Value {
    Coalesce(Coalesce(Field(fields, "userId"), Field(fields, "user_id")), Field(fields, "id"))
  }

  /**
   * Every answer of `getUserId`: null without a token or an object payload;
   * otherwise decided by the id claim alone.
   */
  lemma GetUserIdCases(token: string, decode: string -> Option<Value>, parse: string -> Number)
    requires token != ""
    ensures var payload := DecodeJwtPayload(token, decode);
      !payload.Obj? ==> GetUserId(Some(token), decode, parse).None?
    ensures var payload := DecodeJwtPayload(token, decode);
      payload.Obj? ==>
        var claim := IdClaim(payload.fields);
        GetUserId(Some(token), decode, parse)
          == if claim.Num? then Some(claim.n)
             else if claim.Str? && NumTruthy(parse(claim.s)) then Some(parse(claim.s))
             else None
  {
  }

  /**
   * The payload the server signs, `{ userId, email }`, gives back the user's
   * id, whatever other claims it carries.
   */
  lemma ServerTokenGivesUserId(token: string, decode: string -> Option<Value>, parse: string -> Number,
                               fields: Row, id: int)
    requires token != ""
    requires DecodeJwtPayload(token, decode) == Obj(fields)
    requires "userId" in fields && fields["userId"] == IntValue(id)
    ensures GetUserId(Some(token), decode, parse) == Some(Fin(id as real))
  {
    GetUserIdCases(token, decode, parse);
  }

  /** A payload with a nullish `userId` falls back to `user_id`, and a string id of "0" gives null. */
  lemma UserIdFallback(fields: Row, parse: string -> Number)
    requires Field(fields, "userId") == Null && Field(fields, "user_id") == Str("0")
    requires parse("0") == Fin(0.0)
    ensures IdClaim(fields) == Str("0") && !NumTruthy(parse(IdClaim(fields).s))
  {
  }
}
