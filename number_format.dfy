/**
 * TNumberFormat: the Type property's mapping from a type name to the one-letter
 * code the number formatter understands, the Currency default, and the choice
 * of pattern and formatter made before formatting.
 */
module NumberFormat {
  import opened Wrappers
  import opened Text
  import opened Formatting

  /** The code setType stores for a type name that is already lower case. */
  function CodeOfLowerName(name: string): Option<string> {
    if name == "decimal" then Some("d")
    else if name == "currency" then Some("c")
    else if name == "percentage" then Some("p")
    else if name == "scientific" then Some("e")
    else None
  }

  /** The codes a stored Type can hold. */
  predicate IsTypeCode(code: string) {
    code == "d" || code == "c" || code == "p" || code == "e"
  }

  /** setType's switch over the lower-cased name: one of the four codes, or an invalid name. */
  function TypeCode(name: string): (r: Option<string>)
    ensures r.Some? ==> IsTypeCode(r.value)
  {
    CodeOfLowerName(ToLower(name))
  }

  /** Exactly the four type names are accepted, in any letter case. */
  lemma TypeCodeCases(name: string)
    ensures TypeCode(name).Some? <==>
              ToLower(name) in {"decimal", "currency", "percentage", "scientific"}
    ensures ToLower(name) == "decimal" ==> TypeCode(name) == Some("d")
    ensures ToLower(name) == "currency" ==> TypeCode(name) == Some("c")
    ensures ToLower(name) == "percentage" ==> TypeCode(name) == Some("p")
    ensures ToLower(name) == "scientific" ==> TypeCode(name) == Some("e")
  {
  }

  /** Different accepted names (up to case) give different codes. */
  lemma TypeCodeDistinguishesNames(a: string, b: string)
    requires TypeCode(a).Some? && TypeCode(a) == TypeCode(b)
    ensures ToLower(a) == ToLower(b)
  {
  }

  /** Letter case does not matter. */
  lemma TypeCodeIgnoresCase(name: string)
    ensures TypeCode(name) == TypeCode(ToLower(name))
  {
    ToLowerIdempotent(name);
  }

  /** A culture-specific formatter is built when the culture is non-empty in PHP's sense and differs from the application's. */
  function UsesOwnCulture(culture: string, appCulture: string): (r: bool)
    ensures culture == "" || culture == "0" || culture == appCulture ==> !r
    ensures culture != "" && culture != "0" && culture != appCulture ==> r
  {
    culture != "" && culture != "0" && appCulture != culture
  }

  /** The call getFormattedValue makes on the chosen formatter. */
  datatype FormatCall = FormatCall(culture: string, value: string, pattern: string, currency: string, charset: string)

  /**
   * A TNumberFormat control. The Type and Currency view-state entries are
   * None until set, and their getters answer the defaults then.
   */
  class NumberFormatControl {
    var pattern: string
    var value: string
    var typeCode: Option<string>
    var currency: Option<string>
    var culture: string
    var charset: string

    /** The stored type is always one of the four codes. */
    predicate Valid()
      reads this
    {
      typeCode.Some? ==> IsTypeCode(typeCode.value)
    }

    constructor()
      ensures Valid()
      ensures pattern == "" && value == "" && typeCode.None? && currency.None?
      ensures culture == "" && charset == ""
    {
      pattern, value, typeCode, currency, culture, charset := "", "", None, None, "", "";
    }

    /** getType: the stored code, 'd' by default; always one of the four codes. */
    function GetType(): (r: string)
      reads this
      requires Valid()
      ensures IsTypeCode(r)
      ensures typeCode.None? ==> r == "d"
    {
      typeCode.GetOr("d")
    }

    /** getCurrency: the stored code, 'USD' by default. */
    function GetCurrency(): (r: string)
      reads this
      ensures currency.None? ==> r == "USD"
      ensures currency.Some? ==> r == currency.value
    {
      currency.GetOr("USD")
    }

    /**
     * setType: stores the code of an accepted name; any other name fails with
     * an invalid-data error and leaves the stored type as it was.
     */
    method SetType(name: string) returns (r: Result<()>)
      requires Valid()
      modifies this
      ensures Valid()
      ensures r.Success? <==> TypeCode(name).Some?
      ensures r.Success? ==> typeCode == TypeCode(name) && GetType() == TypeCode(name).value
      ensures r.Failure? ==> typeCode == old(typeCode)
      ensures pattern == old(pattern) && value == old(value) && currency == old(currency)
      ensures culture == old(culture) && charset == old(charset)
    {
      var lower := ToLower(name);
      if lower == "decimal" {
        typeCode := Some("d");
      } else if lower == "currency" {
        typeCode := Some("c");
      } else if lower == "percentage" {
        typeCode := Some("p");
      } else if lower == "scientific" {
        typeCode := Some("e");
      } else {
        return Failure("numberformat_type_invalid");
      }
      r := Success(());
    }

    /**
     * setCurrency: storing the view-state default '' removes the entry, so
     * getCurrency falls back to 'USD'; any other code is stored.
     */
    method SetCurrency(code: string)
      modifies this
      ensures currency == if code == "" then None else Some(code)
      ensures GetCurrency() == if code == "" then "USD" else code
      ensures pattern == old(pattern) && value == old(value) && typeCode == old(typeCode)
      ensures culture == old(culture) && charset == old(charset)
    {
      currency := if code == "" then None else Some(code);
    }

    method SetPattern(text: string)
      modifies this
      ensures pattern == text
      ensures value == old(value) && typeCode == old(typeCode) && currency == old(currency)
      ensures culture == old(culture) && charset == old(charset)
    {
      pattern := text;
    }

    /** The pattern handed to the formatter: the custom Pattern when set, the type code otherwise; never empty. */
    function FormatPattern(): (p: string)
      reads this
      requires Valid()
      ensures p != ""
      ensures pattern != "" ==> p == pattern
      ensures pattern == "" ==> IsTypeCode(p) && p == GetType()
    {
      if |pattern| > 0 then pattern else GetType()
    }

    /**
     * getFormattedValue: initialises the class-wide formatter when missing and
     * answers the formatting call made, on a formatter for the control's own
     * culture or on the class-wide one.
     */
    method FormattedValue(shared: SharedFormatter, appCulture: string) returns (call: FormatCall)
      requires Valid()
      modifies shared
      ensures shared.culture == (if old(shared.culture).Some? then old(shared.culture) else Some(appCulture))
      ensures call.culture == (if UsesOwnCulture(culture, appCulture) then culture else shared.culture.value)
      ensures call.value == value && call.pattern == FormatPattern()
      ensures call.currency == GetCurrency() && call.charset == charset
    {
      var used := shared.Select(UsesOwnCulture(culture, appCulture), culture, appCulture);
      call := FormatCall(used, value, FormatPattern(), GetCurrency(), charset);
    }
  }
}
