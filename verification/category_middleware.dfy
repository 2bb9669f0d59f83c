/**
 * `categoryMiddleware` (backend/src/middlewares/category.middleware.ts): it
 * requires a truthy `name`, then a string whose trimmed form has at least two
 * characters, and hands on the body with the name trimmed.
 */
module CategoryMiddleware {
  import opened Js
  import opened Http

  const NameRequired := "Category name is required"
  const NameTooShort := "Category name must be at least 2 characters long"

  /** The name the middleware accepts: a string of at least two characters once trimmed. */
  predicate AcceptableName(v: Value) {
    v.Str? && |Trim(v.s)| >= 2
  }

  function CheckCategory(body: Row): (r: Gate<Row>)
    ensures r.Next? <==> AcceptableName(Field(body, "name"))
    ensures r.Reject? ==> r.response.status == 400
    ensures r.Reject? && !Truthy(Field(body, "name")) ==> r.response == MessageReply(400, NameRequired)
    ensures r.Reject? && Truthy(Field(body, "name")) ==> r.response == MessageReply(400, NameTooShort)
    ensures r.Next? ==>
      r.passed.Keys == body.Keys
      && r.passed["name"] == Str(Trim(body["name"].s))
      && r.passed - {"name"} == body - {"name"}
  {
    var name := Field(body, "name");
    if !Truthy(name) then Reject(MessageReply(400, NameRequired))
    else if !name.Str? || |Trim(name.s)| < 2 then Reject(MessageReply(400, NameTooShort))
    else Next(body["name" := Str(Trim(name.s))])
  }

  /**
   * A name of spaces only is present, so it passes the first check, and is
   * then refused as too short.
   */
  lemma BlankNameTooShort(body: Row, n: nat)
    requires n >= 1
    requires Field(body, "name") == Str(seq(n, _ => ' '))
    ensures CheckCategory(body) == Reject(MessageReply(400, NameTooShort))
  {
    var s := seq(n, _ => ' ');
    assert s[0] in s;
    assert AllSpace(s);
  }

  /** A body whose name is a trimmed string of two or more characters is handed on unchanged. */
  lemma TrimmedNamePasses(body: Row, t: string)
    requires Field(body, "name") == Str(t) && Trimmed(t) && |t| >= 2
    ensures CheckCategory(body).Next? && CheckCategory(body).passed == body
  {
    var updated := body["name" := Str(t)];
    assert updated == body by {
      UpdateSame(body, "name", Str(t));
    }
    assert CheckCategory(body) == Next(updated) by {
      TrimOfTrimmed(t);
      assert Truthy(Str(t));
    }
  }

  lemma UpdateSame(m: Row, k: string, v: Value)
    requires k in m && m[k] == v
    ensures m[k := v] == m
  {
  }

  /**
   * The body handed on has a name that is already trimmed: a second pass
   * hands it on unchanged.
   */
  lemma CheckCategoryIdempotent(body: Row)
    requires CheckCategory(body).Next?
    ensures CheckCategory(CheckCategory(body).passed).Next?
    ensures CheckCategory(CheckCategory(body).passed).passed == CheckCategory(body).passed
  {
    var first := CheckCategory(body).passed;
    TrimmedNamePasses(first, Trim(body["name"].s));
  }
}
