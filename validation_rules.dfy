/**
 * The validity rules of PRADO's client-side validators (each variant's
 * evaluateIsValid), over an abstract page: an input is the value the
 * validator reads from its control, type conversion, regular-expression
 * matching and the custom client function are foreign code handed in as
 * total functions, and converted operands live in an ordered domain.
 */
module ValidationRules {
  import opened Wrappers
  import opened Text

  // ---------------------------------------------------------------- page

  /** One option of a list control: its value and whether it is checked (or selected). */
  datatype ListItem = ListItem(value: string, selected: bool)

  /**
   * An input element: `value` is what the validator reads from it (already trimmed),
   * `inputType` its type attribute, and `items` the options of a list control.
   */
  datatype Element = Element(value: string, inputType: string, disabled: bool, items: seq<ListItem>)

  /** The elements of the page by ID; an ID that is not a key has no element. */
  type Document = map<string, Element>

  // ---------------------------------------------------------------- conversion

  /** A converted operand: Integer, Float, Double and Date give numbers (Date as its time stamp), String gives strings. */
  datatype Value = Num(n: real) | Str(s: string)

  /** The foreign code the rules call. */
  datatype Foreign = Foreign(
    toInteger: string -> Option<real>,                // String.prototype.toInteger
    toDouble: string -> Option<real>,                 // String.prototype.toDouble with the DecimalChar option
    toDate: string -> Option<real>,                   // String.prototype.toDate with the DateFormat option, then getTime
    toNumber: string -> Option<real>,                 // ToNumber of a string met in a numeric comparison; None is NaN
    firstMatch: (string, string) -> Option<string>,   // new RegExp(pattern).exec(value): the first match, if any
    custom: (string, string) -> bool)                 // the ClientValidationFunction called with the value

  /** What new String(v) makes of a value: JavaScript's null becomes the text "null". */
  function JsString(v: Option<string>): string {
    match v
    case None => "null"
    case Some(s) => s
  }

  /** TBaseValidator.convert: the operand as the data type, or None when it does not convert. */
  function Convert(f: Foreign, dataType: string, v: Option<string>): (r: Option<Value>)
    ensures dataType == "String" ==> r.Some?
    ensures v.None? && !NumericType(dataType) && dataType != "String" ==> r.None?
    ensures v.None? && dataType == "Date" ==> r.None?
    ensures v.Some? && !NumericType(dataType) ==> r == Some(Str(v.value))
  {
    match dataType
    case "Integer" =>
      (match f.toInteger(JsString(v)) case None => None case Some(n) => Some(Num(n)))
    case "Double" =>
      (match f.toDouble(JsString(v)) case None => None case Some(n) => Some(Num(n)))
    case "Float" =>
      (match f.toDouble(JsString(v)) case None => None case Some(n) => Some(Num(n)))
    case "Date" =>
      if v.None? then None
      else (match f.toDate(v.value) case None => None case Some(n) => Some(Num(n)))
    case "String" => Some(Str(JsString(v)))
    case _ => if v.None? then None else Some(Str(v.value))
  }

  /** The data type decides the kind of every converted operand. */
  predicate NumericType(dataType: string) {
    dataType == "Integer" || dataType == "Double" || dataType == "Float" || dataType == "Date"
  }

  lemma ConvertKind(f: Foreign, dataType: string, v: Option<string>)
    ensures Convert(f, dataType, v).Some? ==> (Convert(f, dataType, v).value.Num? <==> NumericType(dataType))
  {
  }

  /** JavaScript's < on two strings: code-unit by code-unit. */
  predicate StrLess(x: string, y: string)
    decreases |x|
  {
    if x == [] then y != []
    else if y == [] then false
    else if x[0] != y[0] then x[0] < y[0]
    else StrLess(x[1..], y[1..])
  }

  /** JavaScript's < on two operands of the same kind (mixed kinds never arise, by ConvertKind). */
  predicate Less(a: Value, b: Value) {
    match (a, b)
    case (Num(x), Num(y)) => x < y
    case (Str(x), Str(y)) => StrLess(x, y)
    case _ => false
  }

  /** JavaScript's >= on two operands of the same kind: not less. */
  predicate AtLeast(a: Value, b: Value) {
    a.Num? == b.Num? && !Less(a, b)
  }

  // ---------------------------------------------------------------- RequiredField

  /** TRequiredFieldValidator: a file input always passes; otherwise the value must differ from the trimmed initial value. */
  function RequiredFieldHolds(ctl: Element, initialValue: string): (r: bool)
    ensures ctl.inputType == "file" ==> r
    ensures ctl.inputType != "file" && ctl.value == Trim(initialValue) ==> !r
  {
    ctl.inputType == "file" || ctl.value != Trim(initialValue)
  }

  // ---------------------------------------------------------------- Compare

  /** The operator applied to two converted operands; an unknown operator name means Equal. */
  function ApplyOperator(op: string, a: Value, b: Value): bool {
    match op
    case "NotEqual" => a != b
    case "GreaterThan" => Less(b, a)
    case "GreaterThanEqual" => AtLeast(a, b)
    case "LessThan" => Less(a, b)
    case "LessThanEqual" => AtLeast(b, a)
    case _ => a == b
  }

  /**
   * TCompareValidator.compare: false when the left operand does not convert,
   * true when only the right one fails, else the operator's verdict.
   */
  function CompareValues(f: Foreign, dataType: string, op: string, operand1: string, operand2: string): (r: bool)
    ensures Convert(f, dataType, Some(operand1)).None? ==> !r
    ensures Convert(f, dataType, Some(operand1)).Some? && Convert(f, dataType, Some(operand2)).None? ==> r
  {
    match Convert(f, dataType, Some(operand1))
    case None => false
    case Some(a) =>
      match Convert(f, dataType, Some(operand2))
      case None => true
      case Some(b) => ApplyOperator(op, a, b)
  }

  /** TCompareValidator.evaluateIsValid: an empty value passes; the comparee is the other control's value or ValueToCompare. */
  function CompareHolds(f: Foreign, doc: Document, ctl: Element, dataType: string, op: string,
                        controlToCompare: string, valueToCompare: string): (r: bool)
    ensures |ctl.value| == 0 ==> r
    ensures |ctl.value| > 0 && Convert(f, dataType, Some(ctl.value)).None? ==> !r
  {
    if |ctl.value| == 0 then true
    else
      var compareTo := if controlToCompare in doc then doc[controlToCompare].value else valueToCompare;
      CompareValues(f, dataType, op, ctl.value, compareTo)
  }

  // ---------------------------------------------------------------- Range

  /** The options of TRangeValidator; an empty MinValue or MaxValue is an unset one. */
  datatype RangeOptions = RangeOptions(dataType: Option<string>, minValue: string, maxValue: string, strict: bool)

  /** `option || null`: an unset or empty option is null. */
  function OrNull(s: string): Option<string> {
    if s == "" then None else Some(s)
  }

  /** StringLength: the value's length against MinValue (default 0) and MaxValue (default +infinity). */
  function LengthInRange(f: Foreign, o: RangeOptions, len: nat): (r: bool)
    ensures o.minValue == "" && o.maxValue == "" ==> (r <==> !o.strict || len > 0)
    ensures o.minValue != "" && f.toNumber(o.minValue).None? ==> !r
    ensures o.maxValue != "" && f.toNumber(o.maxValue).None? ==> !r
  {
    var n := len as real;
    var minOk :=
      if o.minValue == "" then (if o.strict then n > 0.0 else n >= 0.0)
      else (match f.toNumber(o.minValue)
            case None => false
            case Some(m) => if o.strict then n > m else n >= m);
    var maxOk :=
      if o.maxValue == "" then true
      else (match f.toNumber(o.maxValue)
            case None => false
            case Some(m) => if o.strict then n < m else n <= m);
    minOk && maxOk
  }

  /** The value against converted bounds; a bound that is None is skipped. */
  function WithinBounds(v: Value, min: Option<Value>, max: Option<Value>, strict: bool): bool {
    (min.None? || (if strict then Less(min.value, v) else AtLeast(v, min.value)))
    && (max.None? || (if strict then Less(v, max.value) else AtLeast(max.value, v)))
  }

  /**
   * TRangeValidator.evaluateIsValid as written: an unset bound is converted from
   * JavaScript's null, which the String type turns into the text "null".
   */
  function RangeHoldsAsWritten(f: Foreign, o: RangeOptions, value: string): (r: bool)
    ensures |value| == 0 ==> r
    ensures (|value| > 0 && o.dataType.GetOr("String") != "StringLength"
             && Convert(f, o.dataType.GetOr("String"), Some(value)).None?) ==> !r
  {
    if |value| == 0 then true
    else
      var dt := o.dataType.GetOr("String");
      if dt == "StringLength" then LengthInRange(f, o, |value|)
      else
        match Convert(f, dt, Some(value))
        case None => false
        case Some(v) => WithinBounds(v, Convert(f, dt, OrNull(o.minValue)), Convert(f, dt, OrNull(o.maxValue)), o.strict)
  }

  /** A bound as the range check intends it: an unset bound is no bound at all. */
  function ConvertBound(f: Foreign, dataType: string, bound: string): Option<Value> {
    if bound == "" then None else Convert(f, dataType, Some(bound))
  }

  /** TRangeValidator.evaluateIsValid with unset bounds skipped for every data type. */
  function RangeHolds(f: Foreign, o: RangeOptions, value: string): (r: bool)
    ensures |value| == 0 ==> r
    ensures (|value| > 0 && o.dataType.GetOr("String") != "StringLength"
             && Convert(f, o.dataType.GetOr("String"), Some(value)).None?) ==> !r
  {
    if |value| == 0 then true
    else
      var dt := o.dataType.GetOr("String");
      if dt == "StringLength" then LengthInRange(f, o, |value|)
      else
        match Convert(f, dt, Some(value))
        case None => false
        case Some(v) => WithinBounds(v, ConvertBound(f, dt, o.minValue), ConvertBound(f, dt, o.maxValue), o.strict)
  }

  // ---------------------------------------------------------------- RegularExpression

  /** TRegularExpressionValidator: an empty value passes, otherwise the first match must be the whole value. */
  function RegularExpressionHolds(f: Foreign, expression: string, value: string): (r: bool)
    ensures |value| == 0 ==> r
    ensures r && |value| > 0 ==> f.firstMatch(expression, value) == Some(value)
    ensures f.firstMatch(expression, value).None? ==> (r <==> |value| == 0)
  {
    |value| == 0 || f.firstMatch(expression, value) == Some(value)
  }

  // ---------------------------------------------------------------- Custom

  /** TCustomValidator: the named client function decides; without one the value passes. */
  function CustomHolds(f: Foreign, clientFunction: string, value: string): (r: bool)
    ensures clientFunction == "" ==> r
    ensures clientFunction != "" ==> (r <==> f.custom(clientFunction, value))
  {
    clientFunction == "" || f.custom(clientFunction, value)
  }

  // ---------------------------------------------------------------- ListControl

  /** The selected items' values, in order, leaving out those equal to the initial value. */
  function SelectedValues(items: seq<ListItem>, initial: Option<string>): (values: seq<string>)
    ensures |values| <= |items|
  {
    if items == [] then []
    else
      var rest := SelectedValues(items[1..], initial);
      if items[0].selected && Some(items[0].value) != initial then [items[0].value] + rest else rest
  }

  /** A value is collected exactly when some selected item carries it and it is not the initial value. */
  lemma {:induction false} SelectedValuesMembers(items: seq<ListItem>, initial: Option<string>)
    ensures forall x :: x in SelectedValues(items, initial) <==>
              exists i :: 0 <= i < |items| && items[i].selected && items[i].value == x && Some(x) != initial
    decreases |items|
  {
    if items != [] {
      SelectedValuesMembers(items[1..], initial);
      assert forall i :: 1 <= i < |items| ==> items[i] == items[1..][i - 1];
    }
  }

  /** getSelectedValuesAndChecks: how many items count as selected, and their values. */
  function SelectedValuesAndChecks(items: seq<ListItem>, initial: Option<string>): (nat, seq<string>) {
    var values := SelectedValues(items, initial);
    (|values|, values)
  }

  /** Drops the white space at the start of every piece. */
  function TrimEach(parts: seq<string>): (r: seq<string>)
    ensures |r| == |parts|
  {
    if parts == [] then [] else [TrimStart(parts[0])] + TrimEach(parts[1..])
  }

  lemma {:induction false} TrimEachAt(parts: seq<string>)
    ensures forall k :: 0 <= k < |parts| ==> TrimEach(parts)[k] == TrimStart(parts[k])
    decreases |parts|
  {
    if parts != [] {
      var rest := TrimEach(parts[1..]);
      TrimEachAt(parts[1..]);
      assert TrimEach(parts) == [TrimStart(parts[0])] + rest;
      forall k | 1 <= k < |parts|
        ensures TrimEach(parts)[k] == TrimStart(parts[k])
      {
        assert TrimEach(parts)[k] == rest[k - 1];
        assert parts[1..][k - 1] == parts[k];
      }
    }
  }

  /** getRequiredValues: the Required option split at every comma together with the white space after it. */
  function RequiredValues(required: string): (r: seq<string>)
    ensures required == "" ==> r == []
    ensures required != "" ==> |r| == |SplitComma(required)|
  {
    if required == "" then []
    else
      var parts := SplitComma(required);
      [parts[0]] + TrimEach(parts[1..])
  }

  /** The first required value is the text before the first comma; each later one loses its leading white space. */
  lemma RequiredValuesAt(required: string)
    requires required != ""
    ensures var r, parts := RequiredValues(required), SplitComma(required);
            r[0] == parts[0] && forall k :: 1 <= k < |r| ==> r[k] == TrimStart(parts[k])
  {
    var parts := SplitComma(required);
    var rest := TrimEach(parts[1..]);
    assert RequiredValues(required) == [parts[0]] + rest;
    TrimEachAt(parts[1..]);
    forall k | 1 <= k < |parts|
      ensures ([parts[0]] + rest)[k] == TrimStart(parts[k])
    {
      assert ([parts[0]] + rest)[k] == rest[k - 1];
      assert parts[1..][k - 1] == parts[k];
    }
  }

  /** No required value holds a comma: a comma always separates two values. */
  lemma RequiredValuesHaveNoComma(required: string)
    ensures forall k :: 0 <= k < |RequiredValues(required)| ==> ',' !in RequiredValues(required)[k]
  {
    if required != "" {
      var parts := SplitComma(required);
      var r := RequiredValues(required);
      SplitCommaPieces(required);
      RequiredValuesAt(required);
      forall k | 0 <= k < |r|
        ensures ',' !in r[k]
      {
        if k > 0 {
          var p := parts[k];
          assert r[k] == p[|p| - |r[k]|..];
          assert forall j :: 0 <= j < |r[k]| ==> r[k][j] == p[|p| - |r[k]| + j];
        }
      }
    }
  }

  /** isValidList: every required value is selected and the number of selections is within Min and Max. */
  function IsValidList(required: seq<string>, min: Option<int>, max: Option<int>, checked: nat, values: seq<string>): bool {
    if |required| > 0 && |values| < |required| then false
    else
      (forall k :: 0 <= k < |required| ==> required[k] in values)
      && (min.None? || checked >= min.value)
      && (max.None? || checked <= max.value)
  }

  /** TListControlValidator.evaluateIsValid: a list without items passes. */
  function ListControlHolds(items: seq<ListItem>, required: string, min: Option<int>, max: Option<int>): (r: bool)
    ensures |items| == 0 ==> r
  {
    if |items| == 0 then true
    else
      var selection := SelectedValuesAndChecks(items, None);
      IsValidList(RequiredValues(required), min, max, selection.0, selection.1)
  }

  // ---------------------------------------------------------------- DataType

  /** TDataTypeValidator: an empty value passes, otherwise it must convert. */
  function DataTypeHolds(f: Foreign, dataType: string, value: string): (r: bool)
    ensures |value| == 0 ==> r
    ensures dataType == "String" ==> r
    ensures |value| > 0 && !r ==> Convert(f, dataType, Some(value)).None?
  {
    |value| == 0 || Convert(f, dataType, Some(value)).Some?
  }

  // ---------------------------------------------------------------- Captcha

  /** The sum of the character codes of s. */
  function CharCodeSum(s: string): (r: int)
    ensures r >= 0
  {
    if s == [] then 0 else s[0] as int + CharCodeSum(s[1..])
  }

  /** The checksum loop of TCaptchaValidator.evaluateIsValid, which adds the codes from the last character down. */
  method CaptchaHash(a: string) returns (h: int)
    ensures h == CharCodeSum(a)
  {
    h := 0;
    var i := |a|;
    while i > 0
      invariant 0 <= i <= |a|
      invariant h == CharCodeSum(a[i..])
    {
      i := i - 1;
      assert a[i..][1..] == a[i + 1..];
      h := h + a[i] as int;
    }
    assert a[0..] == a;
  }

  /** TCaptchaValidator: the checksum of the value must equal the token hash sent with the page. */
  function CaptchaHolds(value: string, tokenHash: int): (r: bool)
    ensures value == "" ==> (r <==> tokenHash == 0)
    ensures tokenHash < 0 ==> !r
  {
    CharCodeSum(value) == tokenHash
  }

  // ---------------------------------------------------------------- lemmas

  /** Strings compare as a strict total order: exactly one of less, equal, greater. */
  lemma {:induction false} StrLessTrichotomy(x: string, y: string)
    ensures x == y || StrLess(x, y) || StrLess(y, x)
    ensures !(StrLess(x, y) && StrLess(y, x))
    ensures StrLess(x, y) ==> x != y
    decreases |x|
  {
    if x != [] && y != [] && x[0] == y[0] {
      StrLessTrichotomy(x[1..], y[1..]);
      if x[1..] == y[1..] {
        assert x == [x[0]] + x[1..] && y == [y[0]] + y[1..];
      }
    }
  }

  /** Less is asymmetric and irreflexive on converted operands. */
  lemma LessAsymmetric(a: Value, b: Value)
    ensures Less(a, b) ==> !Less(b, a) && a != b
  {
    if a.Str? && b.Str? {
      StrLessTrichotomy(a.s, b.s);
    }
  }

  /**
   * On operands that both convert, the six operators are consistent with each other:
   * NotEqual negates Equal, GreaterThan is LessThan reversed, and the inclusive
   * comparisons are "strictly beyond or equal".
   */
  lemma {:induction false} OperatorsAreConsistent(f: Foreign, dataType: string, x: string, y: string)
    requires Convert(f, dataType, Some(x)).Some? && Convert(f, dataType, Some(y)).Some?
    ensures CompareValues(f, dataType, "NotEqual", x, y) == !CompareValues(f, dataType, "Equal", x, y)
    ensures CompareValues(f, dataType, "GreaterThan", x, y) == CompareValues(f, dataType, "LessThan", y, x)
    ensures CompareValues(f, dataType, "GreaterThanEqual", x, y)
            == (CompareValues(f, dataType, "GreaterThan", x, y) || CompareValues(f, dataType, "Equal", x, y))
    ensures CompareValues(f, dataType, "LessThanEqual", x, y)
            == (CompareValues(f, dataType, "LessThan", x, y) || CompareValues(f, dataType, "Equal", x, y))
  {
    var a := Convert(f, dataType, Some(x)).value;
    var b := Convert(f, dataType, Some(y)).value;
    ConvertKind(f, dataType, Some(x));
    ConvertKind(f, dataType, Some(y));
    LessAsymmetric(a, b);
    LessAsymmetric(b, a);
    if a.Str? && b.Str? {
      StrLessTrichotomy(a.s, b.s);
    }
  }

  /** An operator name outside the six known ones compares for equality. */
  lemma UnknownOperatorMeansEqual(f: Foreign, dataType: string, op: string, x: string, y: string)
    requires op !in {"Equal", "NotEqual", "GreaterThan", "GreaterThanEqual", "LessThan", "LessThanEqual"}
    ensures CompareValues(f, dataType, op, x, y) == CompareValues(f, dataType, "Equal", x, y)
  {
  }

  /** Conversion failure is asymmetric: swapping a convertible and an inconvertible operand flips the verdict. */
  lemma ConversionFailureIsAsymmetric(f: Foreign, dataType: string, op: string, good: string, bad: string)
    requires Convert(f, dataType, Some(good)).Some? && Convert(f, dataType, Some(bad)).None?
    ensures CompareValues(f, dataType, op, good, bad)
    ensures !CompareValues(f, dataType, op, bad, good)
  {
  }

  /** The Integer scenarios: "abc" never passes, a malformed comparee never blocks, 10 > 5. */
  lemma CompareIntegerScenarios(f: Foreign)
    requires f.toInteger("abc") == None
    requires f.toInteger("5") == Some(5.0) && f.toInteger("10") == Some(10.0)
    ensures !CompareValues(f, "Integer", "Equal", "abc", "5")
    ensures CompareValues(f, "Integer", "Equal", "5", "abc")
    ensures CompareValues(f, "Integer", "GreaterThan", "10", "5")
    ensures !CompareValues(f, "Integer", "LessThanEqual", "10", "5")
  {
  }

  /** An empty input passes the Compare rule whatever it is compared with. */
  lemma CompareEmptyPasses(f: Foreign, doc: Document, ctl: Element, dataType: string, op: string, other: string, constant: string)
    requires ctl.value == ""
    ensures CompareHolds(f, doc, ctl, dataType, op, other, constant)
  {
  }

  /** Trimming is idempotent, so blanks around InitialValue never matter to RequiredField. */
  lemma TrimIdempotent(s: string)
    ensures Trim(Trim(s)) == Trim(s)
  {
    var u := TrimStart(s);
    var w := TrimEnd(u);
    if w != [] {
      assert w[0] == u[0];
      assert TrimStart(w) == w;
    } else {
      assert TrimStart(w) == w;
    }
  }

  /**
   * RequiredField: a file input always passes, any other input fails exactly when
   * its value equals the trimmed initial value, and padding the initial value with
   * blanks changes nothing.
   */
  lemma RequiredFieldCases(ctl: Element, initialValue: string)
    ensures ctl.inputType == "file" ==> RequiredFieldHolds(ctl, initialValue)
    ensures ctl.inputType != "file" ==> (RequiredFieldHolds(ctl, initialValue) <==> ctl.value != Trim(initialValue))
    ensures RequiredFieldHolds(ctl, Trim(initialValue)) == RequiredFieldHolds(ctl, initialValue)
  {
    TrimIdempotent(initialValue);
  }

  /** A strict range is narrower than the inclusive one with the same bounds. */
  lemma {:induction false} StrictRangeImpliesInclusive(f: Foreign, o: RangeOptions, value: string)
    requires o.strict
    ensures RangeHolds(f, o, value) ==> RangeHolds(f, o.(strict := false), value)
  {
    var dt := o.dataType.GetOr("String");
    if |value| > 0 && dt != "StringLength" && Convert(f, dt, Some(value)).Some? {
      var v := Convert(f, dt, Some(value)).value;
      ConvertKind(f, dt, Some(value));
      var min := ConvertBound(f, dt, o.minValue);
      var max := ConvertBound(f, dt, o.maxValue);
      if min.Some? {
        ConvertKind(f, dt, Some(o.minValue));
        LessAsymmetric(min.value, v);
      }
      if max.Some? {
        ConvertKind(f, dt, Some(o.maxValue));
        LessAsymmetric(v, max.value);
      }
    }
  }

  /** Without bounds a non-empty value passes exactly when it converts (or, for StringLength, always). */
  lemma RangeWithoutBounds(f: Foreign, o: RangeOptions, value: string)
    requires o.minValue == "" && o.maxValue == "" && |value| > 0
    ensures o.dataType.GetOr("String") == "StringLength" ==> RangeHolds(f, o, value)
    ensures o.dataType.GetOr("String") != "StringLength" ==>
              (RangeHolds(f, o, value) <==> Convert(f, o.dataType.GetOr("String"), Some(value)).Some?)
  {
  }

  /** Setting a bound can only reject more values: a value in range stays in range when its minimum is unset. */
  lemma UnsettingMinimumWidensRange(f: Foreign, o: RangeOptions, value: string)
    requires o.dataType.GetOr("String") != "StringLength"
    ensures RangeHolds(f, o, value) ==> RangeHolds(f, o.(minValue := ""), value)
  {
  }

  /** When both bounds are set, the intended rule and the code as written agree. */
  lemma RangeAgreesWhenBoundsSet(f: Foreign, o: RangeOptions, value: string)
    requires o.minValue != "" && o.maxValue != ""
    ensures RangeHolds(f, o, value) == RangeHoldsAsWritten(f, o, value)
  {
  }

  /**
   * The code as written converts an unset MinValue from null; under the String type
   * (the default) that is the text "null", so "abc" with only MaxValue "zzz" fails.
   */
  lemma RangeUnsetBoundAsWritten(f: Foreign)
    ensures !RangeHoldsAsWritten(f, RangeOptions(None, "", "zzz", false), "abc")
    ensures RangeHolds(f, RangeOptions(None, "", "zzz", false), "abc")
  {
    assert StrLess("abc", "null");
    assert StrLess("abc", "zzz");
    LessAsymmetric(Str("abc"), Str("zzz"));
  }

  /** The range scenarios: "" passes, 15 is outside 1..10, "abcd" has a length within 2..5. */
  lemma RangeScenarios(f: Foreign)
    requires f.toInteger("15") == Some(15.0) && f.toInteger("1") == Some(1.0) && f.toInteger("10") == Some(10.0)
    requires f.toNumber("2") == Some(2.0) && f.toNumber("5") == Some(5.0)
    ensures RangeHolds(f, RangeOptions(Some("Integer"), "1", "10", false), "")
    ensures !RangeHolds(f, RangeOptions(Some("Integer"), "1", "10", false), "15")
    ensures RangeHolds(f, RangeOptions(Some("StringLength"), "2", "5", false), "abcd")
  {
  }

  /** A non-empty value passes the regular expression only when its first match is all of it. */
  lemma RegularExpressionNeedsWholeMatch(f: Foreign, expression: string, value: string)
    requires |value| > 0
    ensures RegularExpressionHolds(f, expression, value) <==> f.firstMatch(expression, value) == Some(value)
    ensures f.firstMatch(expression, value).None? ==> !RegularExpressionHolds(f, expression, value)
  {
  }

  lemma {:induction false} DistinctSetSize(s: seq<string>)
    requires forall i, j :: 0 <= i < j < |s| ==> s[i] != s[j]
    ensures |set x | x in s| == |s|
  {
    if s != [] {
      DistinctSetSize(s[1..]);
      assert (set x | x in s) == {s[0]} + (set x | x in s[1..]);
      assert s[0] !in (set x | x in s[1..]);
    }
  }

  lemma {:induction false} SetSizeAtMostLength(s: seq<string>)
    ensures |set x | x in s| <= |s|
  {
    if s != [] {
      SetSizeAtMostLength(s[1..]);
      assert (set x | x in s) == {s[0]} + (set x | x in s[1..]);
    }
  }

  lemma {:induction false} SubsetSize(a: set<string>, b: set<string>)
    requires a <= b
    ensures |a| <= |b|
    decreases |a|
  {
    if a != {} {
      var x :| x in a;
      SubsetSize(a - {x}, b - {x});
    }
  }

  /**
   * isValidList's early length check only matters for repeated required values:
   * when the required values are distinct, containing them all already means
   * having at least as many selections.
   */
  lemma RequiredLengthGuardRedundant(required: seq<string>, values: seq<string>)
    requires forall i, j :: 0 <= i < j < |required| ==> required[i] != required[j]
    requires forall k :: 0 <= k < |required| ==> required[k] in values
    ensures |values| >= |required|
  {
    DistinctSetSize(required);
    SetSizeAtMostLength(values);
    SubsetSize(set x | x in required, set x | x in values);
  }

  lemma SplitRepeated(v: string)
    requires ',' !in v
    ensures SplitComma(v + "," + v) == [v, v]
  {
    var s := v + "," + v;
    assert s[|v|] == ',';
    var i := FirstComma(s);
    assert s[..|v|] == v;
    assert forall j :: 0 <= j < |v| ==> s[j] == v[j];
    assert forall j :: |v| < j <= |s| ==> s[..j][|v|] == ',';
    assert i == |v|;
    assert s[i + 1..] == v;
  }

  lemma RequiredRepeated(v: string)
    requires v != "" && ',' !in v && !IsSpace(v[0])
    ensures RequiredValues(v + "," + v) == [v, v]
  {
    SplitRepeated(v);
    RequiredValuesAt(v + "," + v);
    var r := RequiredValues(v + "," + v);
    assert |r| == 2 && r[0] == v && r[1] == TrimStart(v);
  }

  lemma SelectedSingle(v: string)
    ensures SelectedValues([ListItem(v, true)], None) == [v]
  {
    assert [ListItem(v, true)][1..] == [];
  }

  /**
   * A repeated required value counts twice: Required "v,v" rejects a list where
   * the single item v is selected, because one selection is fewer than two
   * required values.
   */
  lemma RepeatedRequiredValueCountsTwice(v: string)
    requires v != "" && ',' !in v && !IsSpace(v[0])
    ensures RequiredValues(v + "," + v) == [v, v]
    ensures !ListControlHolds([ListItem(v, true)], v + "," + v, None, None)
  {
    RequiredRepeated(v);
    SelectedSingle(v);
  }

  /** The checksum of a concatenation is the sum of the checksums. */
  lemma {:induction false} CharCodeSumAppend(s: string, t: string)
    ensures CharCodeSum(s + t) == CharCodeSum(s) + CharCodeSum(t)
    decreases |s|
  {
    if s != [] {
      CharCodeSumAppend(s[1..], t);
      assert (s + t)[0] == s[0];
      assert (s + t)[1..] == s[1..] + t;
    } else {
      assert s + t == t;
    }
  }

  /** The captcha checksum ignores order: rotating the answer still passes. */
  lemma CaptchaIgnoresOrder(s: string, t: string, tokenHash: int)
    ensures CaptchaHolds(s + t, tokenHash) == CaptchaHolds(t + s, tokenHash)
  {
    CharCodeSumAppend(s, t);
    CharCodeSumAppend(t, s);
  }
}
