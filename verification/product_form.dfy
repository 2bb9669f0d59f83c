/**
 * The product form's state (frontend/src/components/product/ProductForm.tsx):
 * the currency table, the initial state built from the product being
 * edited, the price field's sanitising as the user types, the currency
 * switch, and when the submit button is disabled. Rendering, the category
 * list and the submit handler's network call are not part of this model.
 */
module ProductForm {
  import opened Wrappers
  import opened Js

  /** An entry of `CURRENCY_CONFIG`. */
  datatype CurrencyConfig = CurrencyConfig(decimals: nat, locale: string, symbol: string, separator: char)

  /** `CURRENCY_CONFIG[code]`: undefined for any code but the four. */
  function CurrencyOf(code: Value): (c: Option<CurrencyConfig>)
    ensures c.Some? <==> code.Str? && code.s in {"COP", "USD", "EUR", "GBP"}
    ensures c.Some? ==> (c.value.separator == ',' <==> code.s in {"COP", "EUR"})
    ensures c.Some? ==> (c.value.separator == '.' <==> code.s in {"USD", "GBP"})
    ensures c.Some? ==> c.value.decimals == (if code.s == "COP" then 0 else 2)
    ensures c.Some? ==> c.value.symbol == (if code.s == "EUR" then "€" else if code.s == "GBP" then "£" else "$")
    ensures code == Str("COP") ==> c.Some? && c.value.locale == "es-CO"
    ensures code == Str("USD") ==> c.Some? && c.value.locale == "en-US"
    ensures code == Str("EUR") ==> c.Some? && c.value.locale == "de-DE"
    ensures code == Str("GBP") ==> c.Some? && c.value.locale == "en-GB"
  {
    if code == Str("COP") then Some(CurrencyConfig(0, "es-CO", "$", ','))
    else if code == Str("USD") then Some(CurrencyConfig(2, "en-US", "$", '.'))
    else if code == Str("EUR") then Some(CurrencyConfig(2, "de-DE", "€", ','))
    else if code == Str("GBP") then Some(CurrencyConfig(2, "en-GB", "£", '.'))
    else None
  }

  /** `ProductFormData`, each field as the JavaScript value it holds. */
  datatype FormData = FormData(
    name: Value, description: Value, price: Value, image_url: Value,
    stock: Value, category_id: Value, currency: Value)

  /**
   * The first state, from `initialData` (undefined when a product is being
   * created): falsy text fields become "", a nullish stock becomes "", the
   * category id becomes its string or "", and the currency defaults to USD.
   */
  function InitialForm(initial: Value, fraction: real -> string): (f: FormData)
    ensures f.currency == Str("USD") <==> !Truthy(Get(initial, "currency")) || Get(initial, "currency") == Str("USD")
    ensures f.category_id.Str? && (f.category_id == Str("") <== Nullish(Get(initial, "category_id")))
    ensures !Nullish(Get(initial, "category_id")) ==>
      f.category_id == Str(ToString(Get(initial, "category_id"), fraction))
    ensures f.name == (if Truthy(Get(initial, "name")) then Get(initial, "name") else Str(""))
    ensures f.description == (if Truthy(Get(initial, "description")) then Get(initial, "description") else Str(""))
    ensures f.price == (if Truthy(Get(initial, "price")) then Get(initial, "price") else Str(""))
    ensures f.image_url == (if Truthy(Get(initial, "image_url")) then Get(initial, "image_url") else Str(""))
    ensures f.stock == (if Nullish(Get(initial, "stock")) then Str("") else Get(initial, "stock"))
    ensures f.currency == (if Truthy(Get(initial, "currency")) then Get(initial, "currency") else Str("USD"))
    ensures initial == Undefined ==>
      f == FormData(Str(""), Str(""), Str(""), Str(""), Str(""), Str(""), Str("USD"))
  {
    var categoryId := Get(initial, "category_id");
    FormData(
      Or(Get(initial, "name"), Str("")), Or(Get(initial, "description"), Str("")),
      Or(Get(initial, "price"), Str("")), Or(Get(initial, "image_url"), Str("")),
      Coalesce(Get(initial, "stock"), Str("")),
      if !Nullish(categoryId) then Str(ToString(categoryId, fraction)) else Str(""),
      Or(Get(initial, "currency"), Str("USD")))
  }

  /** A character the price field keeps: a digit or the currency's decimal separator. */
  predicate Allowed(c: char, separator: char) {
    ('0' <= c <= '9') || c == separator
  }

  /** `inputVal.replace(/[^0-9<separator>]/g, '')` */
  function Clean(s: string, separator: char): (r: string)
    ensures |r| <= |s|
    ensures forall i :: 0 <= i < |r| ==> Allowed(r[i], separator)
  {
    if s == [] then []
    else (if Allowed(s[0], separator) then [s[0]] else []) + Clean(s[1..], separator)
  }

  lemma {:induction false} CleanAppend(a: string, b: string, separator: char)
    ensures Clean(a + b, separator) == Clean(a, separator) + Clean(b, separator)
  {
    if a != [] {
      assert (a + b)[1..] == a[1..] + b;
      CleanAppend(a[1..], b, separator);
    } else {
      assert a + b == b;
    }
  }

  /** Text of digits and the separator only is kept whole. */
  lemma {:induction false} CleanKeepsAllowed(s: string, separator: char)
    requires forall i :: 0 <= i < |s| ==> Allowed(s[i], separator)
    ensures Clean(s, separator) == s
  {
    if s != [] {
      CleanKeepsAllowed(s[1..], separator);
      assert [s[0]] + s[1..] == s;
    }
  }

  /** Cleaning twice is cleaning once, and a character is kept exactly when it is allowed. */
  lemma CleanIdempotent(s: string, separator: char)
    ensures Clean(Clean(s, separator), separator) == Clean(s, separator)
    ensures forall c :: c in Clean(s, separator) ==> Allowed(c, separator) && c in s
  {
    CleanKeepsAllowed(Clean(s, separator), separator);
    CleanMembers(s, separator);
  }

  lemma {:induction false} CleanMembers(s: string, separator: char)
    ensures forall c :: c in Clean(s, separator) <==> Allowed(c, separator) && c in s
  {
    if s != [] {
      CleanMembers(s[1..], separator);
      assert s == [s[0]] + s[1..];
    }
  }

  /** `s.replace(from, to)` with a one-character string pattern: the first occurrence only. */
  function ReplaceFirst(s: string, from: char, to: char): (r: string)
    ensures |r| == |s|
    ensures from !in s ==> r == s
  {
    if s == [] then []
    else if s[0] == from then [to] + s[1..]
    else [s[0]] + ReplaceFirst(s[1..], from, to)
  }

  /** The position of the first `c` in `s`. */
  function FirstIndex(s: string, c: char): (i: nat)
    requires c in s
    ensures i < |s| && s[i] == c && c !in s[..i]
  {
    if s[0] == c then 0
    else
      assert c in s[1..] by { assert s == [s[0]] + s[1..]; }
      var j := FirstIndex(s[1..], c);
      assert s[..j + 1] == [s[0]] + s[1..][..j];
      j + 1
  }

  /** Only the first occurrence changes: the text before it is kept, and so is everything after it. */
  lemma {:induction false} ReplaceFirstAt(s: string, from: char, to: char)
    requires from in s
    ensures ReplaceFirst(s, from, to) == s[..FirstIndex(s, from)] + [to] + s[FirstIndex(s, from) + 1..]
  {
    if s[0] == from {
      assert FirstIndex(s, from) == 0 && s[..0] == [];
    } else {
      var t := s[1..];
      assert from in t by { assert s == [s[0]] + t; }
      var j := FirstIndex(t, from);
      assert FirstIndex(s, from) == j + 1;
      ReplaceFirstAt(t, from, to);
      assert ReplaceFirst(s, from, to) == [s[0]] + (t[..j] + [to] + t[j + 1..]);
      assert s[..j + 1] == [s[0]] + t[..j];
      assert s[j + 2..] == t[j + 1..];
    }
  }

  /** The replacement turns one `from` into one `to` when there is a `from`. */
  lemma {:induction false} ReplaceFirstCounts(s: string, from: char, to: char)
    requires from != to
    ensures Occurrences(ReplaceFirst(s, from, to), to) == Occurrences(s, to) + (if from in s then 1 else 0)
    ensures Occurrences(ReplaceFirst(s, from, to), from) == Occurrences(s, from) - (if from in s then 1 else 0)
  {
    if s != [] {
      ReplaceFirstCounts(s[1..], from, to);
      assert s == [s[0]] + s[1..];
      var r := ReplaceFirst(s, from, to);
      if s[0] == from {
        assert r[1..] == s[1..];
      } else {
        assert r[1..] == ReplaceFirst(s[1..], from, to);
      }
    }
  }

  /** The price kept in the form: the cleaned text with the first ',' turned into '.' for ',' currencies. */
  function StoredPrice(cleaned: string, separator: char): string {
    if separator != '.' then ReplaceFirst(cleaned, separator, '.') else cleaned
  }

  /** The library calls the price handlers use. */
  datatype Env = Env(
    parseFloat: string -> Number,
    format: (string, real) -> string,
    formatFixed: (string, nat, Number) -> string,
    parse: string -> Number,
    fraction: real -> string)

  /**
   * The shown price after typing: nothing for empty input, the cleaned text as
   * typed while it ends in the separator, the locale's rendering of the
   * number otherwise, and the previous text when the number is NaN.
   */
  function PriceDisplay(cleaned: string, stored: string, config: CurrencyConfig, previous: string, env: Env): (r: string)
    ensures cleaned == "" ==> r == ""
    ensures cleaned != "" && EndsWith(cleaned, [config.separator]) ==> r == cleaned
  {
    if cleaned == "" then ""
    else if EndsWith(cleaned, [config.separator]) then cleaned
    else
      var num := env.parseFloat(stored);
      if num.Fin? then env.format(config.locale, num.r) else previous
  }

  /** A price typed in a ',' currency is stored with at most one decimal point and no other separator but ','. */
  lemma CommaPriceHasOneDot(input: string, code: Value)
    requires CurrencyOf(code).Some? && CurrencyOf(code).value.separator == ','
    ensures var cleaned := Clean(input, ',');
      Occurrences(StoredPrice(cleaned, ','), '.') == (if ',' in cleaned then 1 else 0)
      && Occurrences(StoredPrice(cleaned, ','), ',') == Occurrences(cleaned, ',') - (if ',' in cleaned then 1 else 0)
  {
    var cleaned := Clean(input, ',');
    ReplaceFirstCounts(cleaned, ',', '.');
    assert '.' !in cleaned;
    OccurrencesPositive(cleaned, '.');
  }

  /** In a '.' currency the stored price is the cleaned text itself. */
  lemma DotPriceIsCleaned(input: string, code: Value)
    requires CurrencyOf(code).Some? && CurrencyOf(code).value.separator == '.'
    ensures StoredPrice(Clean(input, '.'), '.') == Clean(input, '.')
  {
  }

  /** The form's state: the data, the price as shown, and whether a submit is in flight. */
  class ProductFormState {
    var form: FormData
    var display: string
    var submitting: bool

    /** The first render: the initial data, no shown price, not submitting. */
    constructor (initial: Value, fraction: real -> string)
      ensures form == InitialForm(initial, fraction) && display == "" && !submitting
    {
      form := InitialForm(initial, fraction);
      display := "";
      submitting := false;
    }

    /** `disabled={isSubmitting || !formData.name || !formData.price}` */
    predicate SubmitDisabled()
      reads this
    {
      submitting || !Truthy(form.name) || !Truthy(form.price)
    }

    /**
     * The effect on `initialData`: with a price that is not undefined and a
     * known currency, the price becomes its string and the shown price its
     * rendering with the currency's decimals. A null price makes `toString`
     * throw, and nothing changes.
     */
    method LoadInitialData(initial: Value, env: Env) returns (threw: bool)
      modifies this
      ensures var price := Get(initial, "price");
        var code := Get(initial, "currency");
        if price != Undefined && Truthy(code) && CurrencyOf(code).Some? && price != Null then
          var raw := ToString(price, env.fraction);
          var config := CurrencyOf(code).value;
          !threw && form == old(form).(price := Str(raw), currency := code)
          && display == env.formatFixed(config.locale, config.decimals, env.parse(raw))
        else
          threw == (price == Null && Truthy(code) && CurrencyOf(code).Some?)
          && form == old(form) && display == old(display)
      ensures submitting == old(submitting)
    {
      threw := false;
      var price := Get(initial, "price");
      var code := Get(initial, "currency");
      if price != Undefined && Truthy(code) {
        var config := CurrencyOf(code);
        if config.Some? {
          if price == Null {
            threw := true;
            return;
          }
          var raw := ToString(price, env.fraction);
          form := form.(price := Str(raw), currency := code);
          display := env.formatFixed(config.value.locale, config.value.decimals, ToNumber(Str(raw), env.parse, env.fraction));
        }
      }
    }

    /** `handleCurrencyChange`: the new currency, and both the stored and the shown price cleared. */
    method HandleCurrencyChange(code: string)
      modifies this
      ensures form == old(form).(currency := Str(code), price := Str(""))
      ensures display == "" && submitting == old(submitting)
      ensures SubmitDisabled()
    {
      form := form.(currency := Str(code), price := Str(""));
      display := "";
    }

    /**
     * `handlePriceChange`: the typed text keeps only digits and the
     * separator, is stored with the separator normalised, and is shown as
     * `PriceDisplay` says. With a currency outside the table the handler
     * throws before changing anything.
     */
    method HandlePriceChange(input: string, env: Env) returns (threw: bool)
      modifies this
      ensures threw <==> CurrencyOf(old(form.currency)).None?
      ensures threw ==> form == old(form) && display == old(display)
      ensures !threw ==>
        var config := CurrencyOf(old(form.currency)).value;
        var cleaned := Clean(input, config.separator);
        form == old(form).(price := Str(StoredPrice(cleaned, config.separator)))
        && display == PriceDisplay(cleaned, StoredPrice(cleaned, config.separator), config, old(display), env)
      ensures submitting == old(submitting)
      ensures !threw ==>
        (SubmitDisabled() <==> submitting || !Truthy(form.name) || Clean(input, CurrencyOf(form.currency).value.separator) == "")
    {
      var config := CurrencyOf(form.currency);
      if config.None? {
        return true;
      }
      threw := false;
      var separator := config.value.separator;
      var cleaned := Clean(input, separator);
      var stored := if separator != '.' then ReplaceFirst(cleaned, separator, '.') else cleaned;
      form := form.(price := Str(stored));
      display := PriceDisplay(cleaned, stored, config.value, display, env);
    }
  }

  /** A form for a new product starts in USD, empty, with submit disabled. */
  lemma NewFormDisabled(fraction: real -> string)
    ensures InitialForm(Undefined, fraction).currency == Str("USD")
    ensures CurrencyOf(InitialForm(Undefined, fraction).currency) == Some(CurrencyConfig(2, "en-US", "$", '.'))
    ensures !Truthy(InitialForm(Undefined, fraction).name) && !Truthy(InitialForm(Undefined, fraction).price)
  {
  }

  /** "12,50" typed in euros passes the cleaning unchanged and is stored as "12.50". */
  lemma EuroStored()
    ensures Clean("12,50", ',') == "12,50"
    ensures StoredPrice("12,50", ',') == "12.50"
  {
    var typed := "12,50";
    CleanKeepsAllowed(typed, ',');
    assert typed[2] == ',' && typed[0] != ',' && typed[1] != ',';
    ReplaceFirstAt(typed, ',', '.');
    assert FirstIndex(typed, ',') == 2;
  }

  /** "12,50" typed in euros ends in a digit, so it is shown as the locale renders 12.5. */
  lemma EuroExample(env: Env)
    requires env.parseFloat("12.50") == Fin(12.5)
    ensures PriceDisplay(Clean("12,50", ','), StoredPrice("12,50", ','), CurrencyOf(Str("EUR")).value, "", env)
      == env.format("de-DE", 12.5)
  {
    EuroStored();
    assert !EndsWith("12,50", [',']);
  }
}
