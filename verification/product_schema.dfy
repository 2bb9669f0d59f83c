/**
 * `productSchema` (backend/src/schemas/product.schema.ts): the field bounds,
 * and the refinement that asks for a category id or a category name.
 * Numbers are coerced with `Number(v)` first; the URL format is a predicate
 * given by the caller.
 */
module ProductSchema {
  import opened Js
  import opened Zod

  const NameTooShort := "Name must be at least 3 characters long"
  const PriceTooLow := "Price must be greater than 0"
  const DescriptionTooShort := "Description must be at least 10 characters long"
  const InvalidUrl := "Must be a valid URL"
  const ImageTooShort := "Image must be at least 10 characters long"
  const CategoryTooShort := "Category must be at least 3 characters long"
  const CategoryIdTooLow := "Category ID must be at least 1"
  const StockTooLow := "Stock must be greater than 0"
  const CurrencyTooShort := "Currency must be at least 3 characters long"
  const NotAnInteger := "Expected integer, received float"
  const CategoryMissing := "Either category or category_id is required"

  /** The conversions and format checks the schema relies on. */
  datatype Env = Env(parse: string -> Number, fraction: real -> string, isUrl: string -> bool)

  function Coerce(v: Value, env: Env): Number {
    ToNumber(v, env.parse, env.fraction)
  }

  /** `z.string().url(...).min(10, ...)`: both checks run, in that order. */
  function ImageUrlIssues(v: Value, isUrl: string -> bool): (r: seq<Issue>)
    ensures r == [] <==> v.Str? && isUrl(v.s) && |v.s| >= 10
  {
    if !v.Str? then [TypeIssue("image_url", "string", v)]
    else
      var url := if !isUrl(v.s) then [Issue(InvalidString, "image_url", InvalidUrl)] else [];
      var length := if |v.s| < 10 then [Issue(TooSmall, "image_url", ImageTooShort)] else [];
      url + length
  }

  /** An optional field: undefined passes, anything else goes through the field's checks. */
  function Optional(v: Value, checks: seq<Issue>): seq<Issue> {
    if v.Undefined? then [] else checks
  }

  /** The issues of the object's fields, in declaration order. */
  function FieldIssues(body: Row, env: Env): seq<Issue> {
    StringMin("name", Field(body, "name"), 3, NameTooShort)
    + NumberChecks("price", Coerce(Field(body, "price"), env), false, NotAnInteger, 0.0, PriceTooLow)
    + StringMin("description", Field(body, "description"), 10, DescriptionTooShort)
    + ImageUrlIssues(Field(body, "image_url"), env.isUrl)
    + Optional(Field(body, "category"), StringMin("category", Field(body, "category"), 3, CategoryTooShort))
    + Optional(Field(body, "category_id"),
               NumberChecks("category_id", Coerce(Field(body, "category_id"), env), true, NotAnInteger, 1.0, CategoryIdTooLow))
    + NumberChecks("stock", Coerce(Field(body, "stock"), env), true, NotAnInteger, 0.0, StockTooLow)
    + StringMin("currency", Field(body, "currency"), 3, CurrencyTooShort)
  }

  /** `category_id != null || (category != null && category.length >= 3)` on the parsed object. */
  predicate HasCategory(body: Row) {
    !Field(body, "category_id").Undefined?
    || (Field(body, "category").Str? && |Field(body, "category").s| >= 3)
  }

  predicate Fatal(issues: seq<Issue>) {
    exists i :: 0 <= i < |issues| && issues[i].code == InvalidType
  }

  /**
   * All issues of `productSchema`: the field issues, then the refinement's
   * issue on path "category" — which runs only when no field had the wrong type.
   */
  function ProductIssues(body: Row, env: Env): seq<Issue> {
    var fields := FieldIssues(body, env);
    if Fatal(fields) || HasCategory(body) then fields
    else fields + [Issue(Custom, "category", CategoryMissing)]
  }

  function IsInteger(n: Number): bool {
    n.Fin? && n.r == n.r.Floor as real
  }

  /**
   * The schema accepts a body exactly when: name has at least 3 characters;
   * the price is a number of at least 0; the description has at least 10
   * characters; image_url is a URL of at least 10; a given category has at
   * least 3 characters; a given category_id is an integer of at least 1;
   * stock is an integer of at least 0; currency has at least 3 characters;
   * and a category_id or a category of at least 3 characters is present.
   */
  lemma ProductSchemaAccepts(body: Row, env: Env)
    ensures ProductIssues(body, env) == [] <==>
      Field(body, "name").Str? && |Field(body, "name").s| >= 3
      && Coerce(Field(body, "price"), env).Fin? && Coerce(Field(body, "price"), env).r >= 0.0
      && Field(body, "description").Str? && |Field(body, "description").s| >= 10
      && Field(body, "image_url").Str? && env.isUrl(Field(body, "image_url").s) && |Field(body, "image_url").s| >= 10
      && (Field(body, "category").Undefined? || (Field(body, "category").Str? && |Field(body, "category").s| >= 3))
      && (Field(body, "category_id").Undefined?
          || (IsInteger(Coerce(Field(body, "category_id"), env)) && Coerce(Field(body, "category_id"), env).r >= 1.0))
      && IsInteger(Coerce(Field(body, "stock"), env)) && Coerce(Field(body, "stock"), env).r >= 0.0
      && Field(body, "currency").Str? && |Field(body, "currency").s| >= 3
      && HasCategory(body)
  {
    var fields := FieldIssues(body, env);
    if fields == [] {
      assert !Fatal(fields);
    }
  }

  /** A price of 0 is accepted, whatever the message says. */
  lemma PriceZeroAccepted(body: Row, env: Env)
    requires Coerce(Field(body, "price"), env) == Fin(0.0)
    ensures NumberChecks("price", Coerce(Field(body, "price"), env), false, NotAnInteger, 0.0, PriceTooLow) == []
  {
  }

  /**
   * When every field has the right type but neither a category_id nor a
   * category of at least 3 characters is given, the last issue is the
   * refinement's, on path "category".
   */
  lemma MissingCategoryReported(body: Row, env: Env)
    requires !Fatal(FieldIssues(body, env)) && !HasCategory(body)
    ensures |ProductIssues(body, env)| > 0
    ensures ProductIssues(body, env)[|ProductIssues(body, env)| - 1] == Issue(Custom, "category", CategoryMissing)
  {
  }

  /** A field of the wrong type suppresses the refinement: its issue is not added. */
  lemma FatalSkipsRefinement(body: Row, env: Env)
    requires Fatal(FieldIssues(body, env))
    ensures ProductIssues(body, env) == FieldIssues(body, env)
    ensures ProductIssues(body, env) != []
  {
  }
}
