/**
 * A client-side validator (TBaseValidator and its variants): the state it keeps
 * between validations, what one validation does to it, and the callback-request
 * state machine of TActiveCustomValidator.
 */
module ValidationValidator {
  import opened Wrappers
  import opened Text
  import opened ValidationRules

  /** The variant of a validator with the options its rule reads. */
  datatype Rule =
    | RequiredField(initialValue: string)
    | Compare(dataType: string, op: string, controlToCompare: string, valueToCompare: string)
    | Custom(clientFunction: string)
    | ActiveCustom
    | Range(options: RangeOptions)
    | RegularExpression(expression: string)
    | ListControl(required: string, min: Option<int>, max: Option<int>)
    | DataType(dataType: string)
    | Captcha(tokenHash: int)

  /** Whether the OnValidationSuccess and OnValidationError options hold functions (their bodies are foreign). */
  datatype Hooks = Hooks(onValidationSuccess: bool, onValidationError: bool)

  /** The verdict of every rule that keeps no state of its own. */
  function RuleHolds(f: Foreign, doc: Document, ctl: Element, rule: Rule): (r: bool)
    requires !rule.ActiveCustom?
    ensures |ctl.value| == 0 && (rule.Compare? || rule.Range? || rule.RegularExpression? || rule.DataType?) ==> r
    ensures rule.ListControl? && ctl.items == [] ==> r
  {
    match rule
    case RequiredField(initialValue) => RequiredFieldHolds(ctl, initialValue)
    case Compare(dataType, op, controlToCompare, valueToCompare) =>
      CompareHolds(f, doc, ctl, dataType, op, controlToCompare, valueToCompare)
    case Custom(clientFunction) => CustomHolds(f, clientFunction, ctl.value)
    case Range(options) => RangeHolds(f, options, ctl.value)
    case RegularExpression(expression) => RegularExpressionHolds(f, expression, ctl.value)
    case ListControl(required, min, max) => ListControlHolds(ctl.items, required, min, max)
    case DataType(dataType) => DataTypeHolds(f, dataType, ctl.value)
    case Captcha(tokenHash) => CaptchaHolds(ctl.value, tokenHash)
  }

  // ---------------------------------------------------------------- ActiveCustom

  /** The part of a validator's state that TActiveCustomValidator's callback protocol reads and writes. */
  datatype Remote = Remote(isValid: bool, requestDispatched: bool, validatingValue: Option<string>)

  /** A validator before any validation: valid, no request out, no value validated (null). */
  const InitialRemote := Remote(true, false, None)

  /** A request goes out only when none is outstanding and the stringified value changed. */
  predicate Dispatches(r: Remote, value: string) {
    !r.requestDispatched && value != JsString(r.validatingValue)
  }

  /** evaluateIsValid of TActiveCustomValidator followed by the store into isValid. */
  function RemoteCheck(r: Remote, value: string): (r': Remote)
    ensures Dispatches(r, value) ==> !r'.isValid && r'.requestDispatched && r'.validatingValue == Some(value)
    ensures !Dispatches(r, value) ==> r' == r
  {
    if Dispatches(r, value) then Remote(false, true, Some(value)) else r
  }

  /** callbackOnSuccess: the server's verdict becomes isValid and the request is over. */
  function RemoteSuccess(r: Remote, data: bool): (r': Remote)
    ensures r'.isValid == data && !r'.requestDispatched && r'.validatingValue == r.validatingValue
  {
    Remote(data, false, r.validatingValue)
  }

  /** callbackOnFailure: the request is over and nothing else changes. */
  function RemoteFailure(r: Remote): (r': Remote)
    ensures r' == r.(requestDispatched := false)
  {
    r.(requestDispatched := false)
  }

  /** What can happen to an ActiveCustom validator: a validation of a value, or a callback. */
  datatype RemoteEvent = Check(value: string) | Succeed(data: bool) | Fail

  /** The state after a sequence of events. */
  function RemoteRun(r: Remote, events: seq<RemoteEvent>): Remote
    decreases |events|
  {
    if events == [] then r
    else
      var e := events[0];
      var next := match e
        case Check(value) => RemoteCheck(r, value)
        case Succeed(data) => RemoteSuccess(r, data)
        case Fail => RemoteFailure(r);
      RemoteRun(next, events[1..])
  }

  /** How many requests a sequence of events dispatches. */
  function DispatchCount(r: Remote, events: seq<RemoteEvent>): nat
    decreases |events|
  {
    if events == [] then 0
    else
      var e := events[0];
      match e
      case Check(value) => (if Dispatches(r, value) then 1 else 0) + DispatchCount(RemoteCheck(r, value), events[1..])
      case Succeed(data) => DispatchCount(RemoteSuccess(r, data), events[1..])
      case Fail => DispatchCount(RemoteFailure(r), events[1..])
  }

  /** How many callbacks a sequence of events holds. */
  function CallbackCount(events: seq<RemoteEvent>): nat {
    if events == [] then 0 else (if events[0].Check? then 0 else 1) + CallbackCount(events[1..])
  }

  /** The network answers only a request that is out: a callback arrives only while one is dispatched. */
  predicate Answered(r: Remote, events: seq<RemoteEvent>)
    decreases |events|
  {
    if events == [] then true
    else
      var e := events[0];
      match e
      case Check(value) => Answered(RemoteCheck(r, value), events[1..])
      case Succeed(data) => r.requestDispatched && Answered(RemoteSuccess(r, data), events[1..])
      case Fail => r.requestDispatched && Answered(RemoteFailure(r), events[1..])
  }

  /**
   * The single-slot guard: along any history whose callbacks answer requests,
   * the requests sent minus the callbacks received is one while a request is
   * dispatched and zero otherwise, so never more than one request is in flight.
   */
  lemma {:induction false} AtMostOneRequestInFlight(r: Remote, events: seq<RemoteEvent>)
    requires Answered(r, events)
    ensures (if r.requestDispatched then 1 else 0) + DispatchCount(r, events)
            == CallbackCount(events) + (if RemoteRun(r, events).requestDispatched then 1 else 0)
    decreases |events|
  {
    if events != [] {
      var e := events[0];
      match e
      case Check(value) => AtMostOneRequestInFlight(RemoteCheck(r, value), events[1..]);
      case Succeed(data) => AtMostOneRequestInFlight(RemoteSuccess(r, data), events[1..]);
      case Fail => AtMostOneRequestInFlight(RemoteFailure(r), events[1..]);
    }
  }

  /** While a request is out, no validation sends another one, whatever the value. */
  lemma OutstandingRequestBlocksDispatch(r: Remote, value: string)
    requires r.requestDispatched
    ensures !Dispatches(r, value)
    ensures RemoteCheck(r, value) == r
  {
  }

  /** Once the server has answered, validating the same value again reuses its verdict without a request. */
  lemma AnsweredValueIsReused(r: Remote, value: string, data: bool)
    requires Dispatches(r, value)
    ensures !Dispatches(RemoteSuccess(RemoteCheck(r, value), data), value)
    ensures RemoteCheck(RemoteSuccess(RemoteCheck(r, value), data), value).isValid == data
  {
  }

  /** After a failed request the same value is not sent again, and the validator stays invalid. */
  lemma FailedRequestIsNotRetriedForSameValue(r: Remote, value: string)
    requires Dispatches(r, value)
    ensures !Dispatches(RemoteFailure(RemoteCheck(r, value)), value)
    ensures !RemoteCheck(RemoteFailure(RemoteCheck(r, value)), value).isValid
  {
  }

  /** The text "null" as the first value sends no request: it equals ""+null and the validator stays valid. */
  lemma NullTextIsNeverSent()
    ensures !Dispatches(InitialRemote, "null")
    ensures RemoteCheck(InitialRemote, "null").isValid
    ensures Dispatches(InitialRemote, "")
  {
  }

  // ---------------------------------------------------------------- validator state

  /** A validator's options: what it validates, its rule, its group ("" for none) and its display hooks. */
  datatype ValidatorOptions = ValidatorOptions(
    id: string,
    controlToValidate: string,
    group: string,
    rule: Rule,
    focusOnError: bool,
    focusElementId: string,
    hooks: Hooks,
    observeChanges: bool)    // only an explicit ObserveChanges false turns observation off

  /**
   * A validator's mutable state: enabled, isValid, visible, requestDispatched,
   * validatingValue and the ErrorMessage option, the keys of _isObserving
   * (control ID followed by validator ID), and the parameters of the callback
   * requests sent so far.
   */
  datatype ValidatorState = ValidatorState(
    enabled: bool,
    isValid: bool,
    visible: bool,
    requestDispatched: bool,
    validatingValue: Option<string>,
    errorMessage: string,
    observing: set<string>,
    requests: seq<string>)

  /** The state TBaseValidator.initialize sets up. */
  function InitialState(errorMessage: string): (s: ValidatorState)
    ensures s.enabled && s.isValid && !s.visible && !s.requestDispatched
    ensures s.validatingValue == None && s.observing == {} && s.requests == []
  {
    ValidatorState(true, true, false, false, None, errorMessage, {}, [])
  }

  /** The ActiveCustom part of a state. */
  function RemoteOf(s: ValidatorState): Remote {
    Remote(s.isValid, s.requestDispatched, s.validatingValue)
  }

  /** The control to validate is on the page and not disabled. */
  predicate Active(o: ValidatorOptions, doc: Document) {
    o.controlToValidate in doc && !doc[o.controlToValidate].disabled
  }

  /** The _isObserving keys one validation adds: the control, and for Compare the comparee it looked at. */
  function ObservedBy(o: ValidatorOptions, s: ValidatorState, doc: Document): (keys: set<string>)
    requires Active(o, doc)
    ensures !o.observeChanges ==> keys == {}
    ensures o.observeChanges ==> o.controlToValidate + o.id in keys
  {
    var ctl := doc[o.controlToValidate];
    var own := if o.observeChanges then {o.controlToValidate + o.id} else {};
    var comparee :=
      if o.observeChanges && s.enabled && o.rule.Compare? && |ctl.value| > 0 && o.rule.controlToCompare in doc
      then {o.rule.controlToCompare + o.id} else {};
    own + comparee
  }

  /**
   * updateValidationDisplay: a validator becomes visible unless the hook for its
   * verdict is set while a request is dispatched, in which case nothing happens.
   */
  function VisibleAfter(visible: bool, isValid: bool, requestDispatched: bool, hooks: Hooks): (r: bool)
    ensures !requestDispatched ==> r
    ensures (isValid && !hooks.onValidationSuccess) || (!isValid && !hooks.onValidationError) ==> r
    ensures !r ==> !visible
  {
    var hook := if isValid then hooks.onValidationSuccess else hooks.onValidationError;
    if hook && requestDispatched then visible else true
  }

  /**
   * TBaseValidator.validate: a missing or disabled control makes the validator
   * valid and nothing else; otherwise the rule's verdict becomes isValid (true
   * when the validator is disabled; an ActiveCustom validator may send a request
   * instead), the display is refreshed and the control is observed.
   */
  function Validated(o: ValidatorOptions, s: ValidatorState, doc: Document, f: Foreign): (s': ValidatorState)
    ensures s'.errorMessage == s.errorMessage && s'.enabled == s.enabled
    ensures s.observing <= s'.observing
    ensures !s'.isValid ==> Active(o, doc) && s.enabled
    ensures !o.rule.ActiveCustom? ==>
              s'.requests == s.requests && s'.requestDispatched == s.requestDispatched
              && s'.validatingValue == s.validatingValue
  {
    if !Active(o, doc) then s.(isValid := true)
    else
      var ctl := doc[o.controlToValidate];
      var checked :=
        if !s.enabled then s.(isValid := true)
        else if o.rule.ActiveCustom? then
          (if Dispatches(RemoteOf(s), ctl.value)
           then s.(isValid := false, requestDispatched := true, validatingValue := Some(ctl.value),
                   requests := s.requests + [ctl.value])
           else s)
        else s.(isValid := RuleHolds(f, doc, ctl, o.rule));
      checked.(visible := VisibleAfter(s.visible, checked.isValid, checked.requestDispatched, o.hooks),
               observing := s.observing + ObservedBy(o, s, doc))
  }

  /**
   * What one validation does: a missing or disabled control only makes the
   * validator valid; otherwise a disabled validator is valid, a stateless rule
   * decides, an ActiveCustom validator follows the request protocol; the display
   * follows the verdict and the control is observed. Enabled and ErrorMessage
   * never change.
   */
  lemma ValidatedCases(o: ValidatorOptions, s: ValidatorState, doc: Document, f: Foreign)
    ensures var s' := Validated(o, s, doc, f);
            s'.enabled == s.enabled && s'.errorMessage == s.errorMessage
    ensures var s' := Validated(o, s, doc, f);
            !Active(o, doc) ==> s' == s.(isValid := true)
    ensures var s' := Validated(o, s, doc, f);
            Active(o, doc) && !s.enabled ==>
              s'.isValid && RemoteOf(s') == RemoteOf(s).(isValid := true) && s'.requests == s.requests
    ensures var s' := Validated(o, s, doc, f);
            Active(o, doc) && s.enabled && !o.rule.ActiveCustom? ==>
              s'.isValid == RuleHolds(f, doc, doc[o.controlToValidate], o.rule)
              && RemoteOf(s') == RemoteOf(s).(isValid := s'.isValid) && s'.requests == s.requests
    ensures var s' := Validated(o, s, doc, f);
            var value := if o.controlToValidate in doc then doc[o.controlToValidate].value else "";
            Active(o, doc) && s.enabled && o.rule.ActiveCustom? ==>
              RemoteOf(s') == RemoteCheck(RemoteOf(s), value)
              && s'.requests == s.requests + (if Dispatches(RemoteOf(s), value) then [value] else [])
    ensures var s' := Validated(o, s, doc, f);
            Active(o, doc) ==>
              s'.visible == VisibleAfter(s.visible, s'.isValid, s'.requestDispatched, o.hooks)
              && s'.observing == s.observing + ObservedBy(o, s, doc)
  {
  }

  /** TBaseValidator.reset: valid and shown. */
  function ResetState(s: ValidatorState): (s': ValidatorState)
    ensures s'.isValid && s'.visible
    ensures s'.(isValid := s.isValid, visible := s.visible) == s
  {
    s.(isValid := true, visible := true)
  }

  /** TBaseValidator.hide: reset, then not visible. */
  function HiddenState(s: ValidatorState): (s': ValidatorState)
    ensures s'.isValid && !s'.visible
    ensures s'.(isValid := s.isValid, visible := s.visible) == s
  {
    ResetState(s).(visible := false)
  }

  /** callbackOnSuccess: the server's verdict is stored and displayed; the request is over. */
  function SucceededState(o: ValidatorOptions, s: ValidatorState, data: bool): (s': ValidatorState)
    ensures RemoteOf(s') == RemoteSuccess(RemoteOf(s), data)
    ensures s'.visible
    ensures s'.(isValid := s.isValid, requestDispatched := s.requestDispatched, visible := s.visible) == s
  {
    var answered := s.(isValid := data, requestDispatched := false);
    answered.(visible := VisibleAfter(s.visible, data, false, o.hooks))
  }

  /** callbackOnFailure: the request is over; the verdict and display stay as they were. */
  function FailedState(s: ValidatorState): (s': ValidatorState)
    ensures RemoteOf(s') == RemoteFailure(RemoteOf(s))
    ensures s'.(requestDispatched := s.requestDispatched) == s
  {
    s.(requestDispatched := false)
  }

  // ---------------------------------------------------------------- properties of one validator

  /** The only keys a validation observes are the control's and, for Compare, the comparee's. */
  lemma ObservedKeys(o: ValidatorOptions, s: ValidatorState, doc: Document)
    requires Active(o, doc)
    ensures forall k :: k in ObservedBy(o, s, doc) ==>
              k == o.controlToValidate + o.id || (o.rule.Compare? && k == o.rule.controlToCompare + o.id)
  {
  }

  /** Observation registers each change handler once: validating again adds no key. */
  lemma ObservationIsRegisteredOnce(o: ValidatorOptions, s: ValidatorState, doc: Document, f: Foreign)
    ensures Validated(o, Validated(o, s, doc, f), doc, f).observing == Validated(o, s, doc, f).observing
  {
  }

  /** A rule without state gives the same verdict however often the page is validated. */
  lemma StatelessVerdictIsStable(o: ValidatorOptions, s: ValidatorState, doc: Document, f: Foreign)
    requires !o.rule.ActiveCustom?
    ensures Validated(o, Validated(o, s, doc, f), doc, f).isValid == Validated(o, s, doc, f).isValid
    ensures Validated(o, s, doc, f).requests == s.requests
  {
  }

  /** A validation without a dispatched request always leaves the validator visible when its control is present. */
  lemma ValidationShowsValidator(o: ValidatorOptions, s: ValidatorState, doc: Document, f: Foreign)
    requires Active(o, doc) && !o.rule.ActiveCustom?
    requires !s.requestDispatched
    ensures Validated(o, s, doc, f).visible
  {
  }

  /**
   * An ActiveCustom validation that sends a request is invalid until the answer:
   * with an OnValidationError hook the display is left alone, without one the
   * validator shows.
   */
  lemma DispatchedValidationIsPending(o: ValidatorOptions, s: ValidatorState, doc: Document, f: Foreign)
    requires Active(o, doc) && s.enabled && o.rule.ActiveCustom?
    requires Dispatches(RemoteOf(s), doc[o.controlToValidate].value)
    ensures var s' := Validated(o, s, doc, f);
            !s'.isValid && s'.requestDispatched && |s'.requests| == |s.requests| + 1
            && s'.visible == (s.visible || !o.hooks.onValidationError)
  {
  }

  /** A hidden validator counts as valid whatever it was, and hiding twice is hiding once. */
  lemma HideIsIdempotent(s: ValidatorState)
    ensures HiddenState(HiddenState(s)) == HiddenState(s)
    ensures HiddenState(s).isValid
  {
  }

  // ---------------------------------------------------------------- the validator object

  class Validator {
    const options: ValidatorOptions

    var enabled: bool
    var isValid: bool
    var visible: bool
    var requestDispatched: bool
    var validatingValue: Option<string>
    var errorMessage: string
    var observing: set<string>
    var requests: seq<string>

    /** The validator's state as one value. */
    function State(): ValidatorState
      reads this
    {
      ValidatorState(enabled, isValid, visible, requestDispatched, validatingValue, errorMessage, observing, requests)
    }

    constructor(options: ValidatorOptions, errorMessage: string)
      ensures this.options == options
      ensures State() == InitialState(errorMessage)
    {
      this.options := options;
      enabled := true;
      isValid := true;
      visible := false;
      requestDispatched := false;
      validatingValue := None;
      this.errorMessage := errorMessage;
      observing := {};
      requests := [];
    }

    /** TBaseValidator.validate. */
    method Validate(doc: Document, f: Foreign) returns (valid: bool)
      modifies this
      ensures State() == Validated(options, old(State()), doc, f)
      ensures valid == isValid
    {
      if !Active(options, doc) {
        isValid := true;
        return true;
      }
      var ctl := doc[options.controlToValidate];
      var keys := ObservedBy(options, State(), doc);
      if !enabled {
        isValid := true;
      } else if options.rule.ActiveCustom? {
        if Dispatches(RemoteOf(State()), ctl.value) {
          validatingValue := Some(ctl.value);
          requests := requests + [ctl.value];
          requestDispatched := true;
          isValid := false;
        }
      } else {
        isValid := RuleHolds(f, doc, ctl, options.rule);
      }
      visible := VisibleAfter(visible, isValid, requestDispatched, options.hooks);
      observing := observing + keys;
      valid := isValid;
    }

    /** TBaseValidator.reset. */
    method Reset()
      modifies this
      ensures State() == ResetState(old(State()))
    {
      isValid := true;
      visible := true;
    }

    /** TBaseValidator.hide. */
    method Hide()
      modifies this
      ensures State() == HiddenState(old(State()))
    {
      Reset();
      visible := false;
    }

    /** TActiveCustomValidator.callbackOnSuccess. */
    method CallbackOnSuccess(data: bool)
      modifies this
      ensures State() == SucceededState(options, old(State()), data)
    {
      isValid := data;
      requestDispatched := false;
      visible := VisibleAfter(visible, isValid, requestDispatched, options.hooks);
    }

    /** TActiveCustomValidator.callbackOnFailure. */
    method CallbackOnFailure()
      modifies this
      ensures State() == FailedState(old(State()))
    {
      requestDispatched := false;
    }

    /** The ErrorMessage option is replaced; nothing else changes. */
    method SetErrorMessage(message: string)
      modifies this
      ensures State() == old(State()).(errorMessage := message)
    {
      errorMessage := message;
    }
  }
}
