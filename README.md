# PRADO validation and response core, in Dafny

A Dafny model of the core of PRADO 3, the PHP component framework:

- **Client-side validation** (`validation3.js`).
  - The `Prado.Validation` coordinator keeps one manager per form; the first manager registered for a form wins.
  - Each `ValidationManager` holds its validators, its summaries and the validation groups. It validates, resets and reports one group at a time. Ungrouped validators form a scope of their own.
  - `TBaseValidator` keeps per-validator state (`isValid`, `visible`, `requestDispatched`, the observed controls). Each variant has its own rule: RequiredField, Compare, Custom, Range, RegularExpression, ListControl, DataType and Captcha.
  - `TActiveCustomValidator` is a callback-request state machine with a single request slot.
  - `TValidationSummary` formats error messages as a list, a paragraph or a bulleted list, and shows them inline or in a message box.
- **`TDateFormat`**: resolves a date pattern against the preset table, including "date time" pairs of presets.
- **`TNumberFormat`**: maps a type name to its one-letter code, and chooses between the custom pattern and that code.
- **`TCallbackResponseAdapter` and `TCallbackResponseWriter`**: collect callback output in boundary-framed chunks, and record a redirect instead of performing it.
- **`TSimpleDynamicSql`**: fills the dynamic tokens of a prepared statement, one per mapped property, in order.
- **`THttpResponse`**:
  - the buffer-output lock after `init`;
  - the status and content-type defaults;
  - the Content-Type header decision;
  - the redirect URL rewrite;
  - the headers and mime type of `writeFile`.

State that the source changes in place is modelled as classes with `modifies` clauses: validators, summaries, managers, the coordinator, the controls, the writers, the adapter, the prepared statement and the response. Each method is specified against a pure function of the old state, and the properties are proved as lemmas about those functions. Decision logic and formatting are pure functions.

Foreign code is passed in as parameters:

- data-type conversion, the regular-expression engine and client validation functions, as the fields of a `Foreign` value of total functions;
- the DOM reads, as `Element` and `Document` values;
- the property reader of the SQL mapping, as a function;
- the globalization charset, `mime_content_type`'s answer, `filesize`/`readfile`, the current time and the request's base URL, as plain values.

Output and headers are recorded as sequences, and `exit` is a flag.

Files:

- `wrappers.dfy`: Option and Result.
- `text.dfy`: lower-casing, trimming, search and first-occurrence replacement, `&amp;` decoding, comma splitting and decimal text.
- `validation_rules.dfy`: the validators' rules.
- `validation_validator.dfy`: the validator state and the ActiveCustom protocol.
- `validation_summary.dfy`: summary formatting.
- `validation_manager.dfy`: the manager and the coordinator.
- `date_format.dfy`, `number_format.dfy` and `formatter.dfy`: the class-wide formatter the two share.
- `callback_response.dfy`.
- `redirect_url.dfy`: the URL rewrite that both `httpRedirect` methods share.
- `dynamic_sql.dfy`.
- `http_response.dfy`.

## Model

| member | source | states |
|---|---|---|
| Text.ToLower | prado/framework/I18N/TDateFormat.php:133 | lower-casing keeps the length and lower-cases each ASCII letter in place |
| Text.ToLowerIdempotent | prado/framework/I18N/TNumberFormat.php:125 | lower-casing twice is lower-casing once |
| Text.TrimStartDropsOnlySpace | prado/framework/Web/Javascripts/source/prado/validator/validation3.js:774-777 | the left trim removes only white space and leaves a string that does not start with white space |
| Text.TrimEndDropsOnlySpace | prado/framework/Web/Javascripts/source/prado/validator/validation3.js:774-777 | the right trim removes only white space and leaves a string that does not end with white space |
| Text.IndexOfIsFirst | prado/framework/Data/SqlMap/Statements/TSimpleDynamicSql.php:44 | the position found is an occurrence of the token with none before it; no position means no occurrence |
| Text.DecodeEncodeAmp | prado/framework/Web/THttpResponse.php:335 | replacing '&amp;' by '&' undoes escaping every '&' as '&amp;' |
| Text.DecodeAmpWithoutAmpersand | prado/framework/Web/THttpResponse.php:335 | text without '&' passes through the replacement unchanged |
| Text.DecodeAmpIsSinglePass | prado/framework/Web/THttpResponse.php:335 | the replacement is one left-to-right pass: '&amp;amp;' becomes '&amp;', not '&' |
| Text.NatToDecimal | prado/framework/Web/THttpResponse.php:300 | the decimal text of a length is non-empty, made of digits, and starts with 0 only for 0 |
| Text.DecimalRoundTrip | prado/framework/Web/THttpResponse.php:300 | the decimal text of a length reads back as that length |
| Text.SplitCommaPieces | prado/framework/Web/Javascripts/source/prado/validator/validation3.js:1349-1355 | splitting at commas gives comma-free pieces |
| Text.SplitJoinComma | prado/framework/Web/Javascripts/source/prado/validator/validation3.js:1349-1355 | joining the pieces with commas gives the text back |
| ValidationRules.Convert | prado/framework/Web/Javascripts/source/prado/validator/validation3.js:785-812 | the String type converts every operand, and turns a missing one into "null"; a missing operand of Date or of a non-numeric type other than String does not convert; a present operand of a non-numeric type is kept as its text |
| ValidationRules.ConvertKind | prado/framework/Web/Javascripts/source/prado/validator/validation3.js:785-812 | a converted operand is a number exactly for the Integer, Double, Float and Date types |
| ValidationRules.CompareValues | prado/framework/Web/Javascripts/source/prado/validator/validation3.js:1070-1092 | a left operand that does not convert fails, a right operand that does not convert passes |
| ValidationRules.StrLessTrichotomy | prado/framework/Web/Javascripts/source/prado/validator/validation3.js:1070-1092 | string comparison is a strict total order: exactly one of less, equal, greater |
| ValidationRules.LessAsymmetric | prado/framework/Web/Javascripts/source/prado/validator/validation3.js:1070-1092 | less-than on converted operands is asymmetric and irreflexive |
| ValidationRules.OperatorsAreConsistent | prado/framework/Web/Javascripts/source/prado/validator/validation3.js:1070-1092 | on convertible operands NotEqual negates Equal, GreaterThan is LessThan reversed, and the inclusive operators are strict-or-equal |
| ValidationRules.UnknownOperatorMeansEqual | prado/framework/Web/Javascripts/source/prado/validator/validation3.js:1070-1092 | an operator name outside the six known ones compares for equality |
| ValidationRules.ConversionFailureIsAsymmetric | prado/framework/Web/Javascripts/source/prado/validator/validation3.js:1070-1092 | swapping a convertible and an inconvertible operand flips the verdict, whatever the operator |
| ValidationRules.CompareIntegerScenarios | prado/framework/Web/Javascripts/source/prado/validator/validation3.js:1070-1092 | Integer comparisons: 'abc' never passes, a malformed comparee never blocks, 10 > 5 |
| ValidationRules.CompareHolds | prado/framework/Web/Javascripts/source/prado/validator/validation3.js:1040-1061 | an empty value passes; a non-empty value that does not convert fails, whatever the comparee |
| ValidationRules.CompareEmptyPasses | prado/framework/Web/Javascripts/source/prado/validator/validation3.js:1040-1061 | an empty value passes the Compare rule whatever it is compared with |
| ValidationRules.TrimIdempotent | prado/framework/Web/Javascripts/source/prado/validator/validation3.js:774-777 | trimming twice is trimming once |
| ValidationRules.RequiredFieldHolds | prado/framework/Web/Javascripts/source/prado/validator/validation3.js:988-1001 | a file input always passes; any other input whose value equals the trimmed initial value fails |
| ValidationRules.RequiredFieldCases | prado/framework/Web/Javascripts/source/prado/validator/validation3.js:988-1001 | a file input always passes; any other input fails exactly when its value equals the trimmed initial value; padding the initial value changes nothing |
| ValidationRules.LengthInRange | prado/framework/Web/Javascripts/source/prado/validator/validation3.js:1229-1245 | with neither bound set every length passes, and every positive length when the comparison is strict; a bound that is not a number fails every length |
| ValidationRules.RangeHoldsAsWritten | prado/framework/Web/Javascripts/source/prado/validator/validation3.js:1215-1246 | as written: an empty value passes; a non-empty value that does not convert to the data type fails |
| ValidationRules.RangeHolds | prado/framework/Web/Javascripts/source/prado/validator/validation3.js:1215-1246 | an empty value passes; a non-empty value that does not convert fails (unset bounds skipped: the corrected rule) |
| ValidationRules.StrictRangeImpliesInclusive | prado/framework/Web/Javascripts/source/prado/validator/validation3.js:1215-1246 | StrictComparison only narrows the range |
| ValidationRules.RangeWithoutBounds | prado/framework/Web/Javascripts/source/prado/validator/validation3.js:1215-1246 | without bounds a value passes exactly when it converts, and always for StringLength |
| ValidationRules.UnsettingMinimumWidensRange | prado/framework/Web/Javascripts/source/prado/validator/validation3.js:1215-1246 | unsetting MinValue never rejects a value that passed |
| ValidationRules.RangeAgreesWhenBoundsSet | prado/framework/Web/Javascripts/source/prado/validator/validation3.js:1215-1246 | with both bounds set the code as written and the corrected rule agree |
| ValidationRules.RangeUnsetBoundAsWritten | prado/framework/Web/Javascripts/source/prado/validator/validation3.js:1215-1246 | as written, an unset MinValue under the String type becomes the text 'null', so 'abc' with only MaxValue 'zzz' fails |
| ValidationRules.RangeScenarios | prado/framework/Web/Javascripts/source/prado/validator/validation3.js:1215-1246 | '' passes, 15 is outside 1..10, 'abcd' has a length within 2..5 |
| ValidationRules.RegularExpressionHolds | prado/framework/Web/Javascripts/source/prado/validator/validation3.js:1261-1270 | an empty value passes; a non-empty value passes only when the first match is the whole value; when nothing matches, only the empty value passes |
| ValidationRules.RegularExpressionNeedsWholeMatch | prado/framework/Web/Javascripts/source/prado/validator/validation3.js:1261-1270 | a non-empty value passes only when the first match is the whole value |
| ValidationRules.CustomHolds | prado/framework/Web/Javascripts/source/prado/validator/validation3.js:1126-1136 | without a client function every value passes; with one, the function decides |
| ValidationRules.SelectedValues | prado/framework/Web/Javascripts/source/prado/validator/validation3.js:890-904 | the collected values are no more than the items |
| ValidationRules.SelectedValuesMembers | prado/framework/Web/Javascripts/source/prado/validator/validation3.js:890-904 | a value is collected exactly when a selected item carries it and it is not the initial value |
| ValidationRules.TrimEachAt | prado/framework/Web/Javascripts/source/prado/validator/validation3.js:1349-1355 | each piece loses exactly its leading white space |
| ValidationRules.RequiredValues | prado/framework/Web/Javascripts/source/prado/validator/validation3.js:1349-1355 | no Required option gives no values; otherwise one value per comma-separated piece |
| ValidationRules.RequiredValuesAt | prado/framework/Web/Javascripts/source/prado/validator/validation3.js:1349-1355 | the first value is the text before the first comma, each later one loses its leading white space |
| ValidationRules.RequiredValuesHaveNoComma | prado/framework/Web/Javascripts/source/prado/validator/validation3.js:1349-1355 | no required value holds a comma |
| ValidationRules.RequiredLengthGuardRedundant | prado/framework/Web/Javascripts/source/prado/validator/validation3.js:1323-1344 | for distinct required values, containing them all already implies enough selections |
| ValidationRules.RepeatedRequiredValueCountsTwice | prado/framework/Web/Javascripts/source/prado/validator/validation3.js:1290-1344 | Required 'v,v' rejects a list where only v is selected |
| ValidationRules.ListControlHolds | prado/framework/Web/Javascripts/source/prado/validator/validation3.js:1290-1300 | a list without items passes |
| ValidationRules.DataTypeHolds | prado/framework/Web/Javascripts/source/prado/validator/validation3.js:1372-1378 | an empty value passes; under String every value passes; a non-empty value fails only when it does not convert |
| ValidationRules.CaptchaHolds | prado/framework/Web/Javascripts/source/prado/validator/validation3.js:1389-1396 | the empty value matches exactly the hash 0; a negative hash is never matched |
| ValidationRules.CaptchaHash | prado/framework/Web/Javascripts/source/prado/validator/validation3.js:1389-1396 | the checksum loop, running from the last character down, computes the sum of the character codes |
| ValidationRules.CharCodeSumAppend | prado/framework/Web/Javascripts/source/prado/validator/validation3.js:1389-1396 | the checksum of a concatenation is the sum of the checksums |
| ValidationRules.CaptchaIgnoresOrder | prado/framework/Web/Javascripts/source/prado/validator/validation3.js:1389-1396 | rotating the answer keeps the checksum, so it still passes |
| ValidationValidator.RuleHolds | prado/framework/Web/Javascripts/source/prado/validator/validation3.js:988-1396 | an empty value passes Compare, Range, RegularExpression and DataType; a list without items passes ListControl; the Range case runs the corrected rule, RangeHolds |
| ValidationValidator.RemoteCheck | prado/framework/Web/Javascripts/source/prado/validator/validation3.js:1149-1168 | a request is sent only when none is out and the stringified value changed; sending makes the validator invalid and records the value; otherwise nothing changes |
| ValidationValidator.RemoteSuccess | prado/framework/Web/Javascripts/source/prado/validator/validation3.js:1170-1177 | the server's verdict becomes isValid and the request is over |
| ValidationValidator.RemoteFailure | prado/framework/Web/Javascripts/source/prado/validator/validation3.js:1179-1184 | the request is over and nothing else changes |
| ValidationValidator.AtMostOneRequestInFlight | prado/framework/Web/Javascripts/source/prado/validator/validation3.js:1149-1184 | along any history whose callbacks answer requests, requests sent minus callbacks received is 1 while one is dispatched and 0 otherwise |
| ValidationValidator.OutstandingRequestBlocksDispatch | prado/framework/Web/Javascripts/source/prado/validator/validation3.js:1149-1168 | while a request is out no validation sends another |
| ValidationValidator.AnsweredValueIsReused | prado/framework/Web/Javascripts/source/prado/validator/validation3.js:1149-1177 | after an answer, validating the same value reuses the verdict without a request |
| ValidationValidator.FailedRequestIsNotRetriedForSameValue | prado/framework/Web/Javascripts/source/prado/validator/validation3.js:1149-1184 | after a failed request the same value is not sent again and the validator stays invalid |
| ValidationValidator.NullTextIsNeverSent | prado/framework/Web/Javascripts/source/prado/validator/validation3.js:1149-1168 | the text 'null' as first value sends no request, since it equals ''+null |
| ValidationValidator.InitialState | prado/framework/Web/Javascripts/source/prado/validator/validation3.js:575-598 | a new validator is enabled and valid, not yet shown, has no request out, no validated value and observes nothing |
| ValidationValidator.ObservedBy | prado/framework/Web/Javascripts/source/prado/validator/validation3.js:748-769 | one validation observes the control and, for Compare, the comparee |
| ValidationValidator.VisibleAfter | prado/framework/Web/Javascripts/source/prado/validator/validation3.js:713-741 | a validator becomes visible unless its hook is set while a request is dispatched |
| ValidationValidator.Validated | prado/framework/Web/Javascripts/source/prado/validator/validation3.js:681-708 | ErrorMessage and Enabled never change; the observed controls only grow; a validator is left invalid only when its control is present and it is enabled; a rule other than ActiveCustom sends no request and leaves the request slot as it was |
| ValidationValidator.ResetState | prado/framework/Web/Javascripts/source/prado/validator/validation3.js:669-673 | reset makes the validator valid and shown |
| ValidationValidator.HiddenState | prado/framework/Web/Javascripts/source/prado/validator/validation3.js:660-664 | hide is reset followed by not visible |
| ValidationValidator.SucceededState | prado/framework/Web/Javascripts/source/prado/validator/validation3.js:1170-1177 | the server's verdict is stored and displayed; the request is over |
| ValidationValidator.FailedState | prado/framework/Web/Javascripts/source/prado/validator/validation3.js:1179-1184 | the request is over; verdict and display stay |
| ValidationValidator.ObservedKeys | prado/framework/Web/Javascripts/source/prado/validator/validation3.js:748-769 | the only keys observed are the control's and, for Compare, the comparee's |
| ValidationValidator.ObservationIsRegisteredOnce | prado/framework/Web/Javascripts/source/prado/validator/validation3.js:748-769 | validating again adds no observed key |
| ValidationValidator.StatelessVerdictIsStable | prado/framework/Web/Javascripts/source/prado/validator/validation3.js:681-708 | a rule without state gives the same verdict however often it runs |
| ValidationValidator.ValidationShowsValidator | prado/framework/Web/Javascripts/source/prado/validator/validation3.js:681-741 | a validation without a dispatched request leaves the validator visible when its control is present |
| ValidationValidator.DispatchedValidationIsPending | prado/framework/Web/Javascripts/source/prado/validator/validation3.js:1149-1168 | a validation that sends a request is invalid until the answer |
| ValidationValidator.HideIsIdempotent | prado/framework/Web/Javascripts/source/prado/validator/validation3.js:660-673 | a hidden validator is valid whatever it was, and hiding twice is hiding once |
| ValidationValidator.Validator.constructor | prado/framework/Web/Javascripts/source/prado/validator/validation3.js:575-598 | the new state is the initial state |
| ValidationValidator.Validator.Validate | prado/framework/Web/Javascripts/source/prado/validator/validation3.js:681-708 | the new state is the specified validated state and the verdict is its isValid |
| ValidationValidator.Validator.Reset | prado/framework/Web/Javascripts/source/prado/validator/validation3.js:669-673 | the new state is the reset state |
| ValidationValidator.Validator.Hide | prado/framework/Web/Javascripts/source/prado/validator/validation3.js:660-664 | the new state is the hidden state |
| ValidationValidator.Validator.CallbackOnSuccess | prado/framework/Web/Javascripts/source/prado/validator/validation3.js:1170-1177 | the new state is the succeeded state |
| ValidationValidator.Validator.CallbackOnFailure | prado/framework/Web/Javascripts/source/prado/validator/validation3.js:1179-1184 | the new state is the failed state |
| ValidationValidator.Validator.SetErrorMessage | prado/framework/Web/Javascripts/source/prado/validator/validation3.js:156-169 | the ErrorMessage option is replaced and nothing else changes |
| ValidationSummary.GetMessages | prado/framework/Web/Javascripts/source/prado/validator/validation3.js:437-447 | the non-empty messages, in order |
| ValidationSummary.GetMessagesAppend | prado/framework/Web/Javascripts/source/prado/validator/validation3.js:437-447 | collecting messages distributes over concatenation |
| ValidationSummary.UnknownModeIsBulletList | prado/framework/Web/Javascripts/source/prado/validator/validation3.js:485-497 | every display mode other than List and SingleParagraph formats as BulletList |
| ValidationSummary.ItemsAppend | prado/framework/Web/Javascripts/source/prado/validator/validation3.js:504-517 | the summary body of a concatenation is the concatenation of the bodies |
| ValidationSummary.ItemsIgnoreEmptyMessages | prado/framework/Web/Javascripts/source/prado/validator/validation3.js:504-517 | dropping empty messages first changes nothing: formatSummary agrees with getMessages |
| ValidationSummary.BulletListShape | prado/framework/Web/Javascripts/source/prado/validator/validation3.js:485-517 | the bulleted list of one message, with and without a header |
| ValidationSummary.EmptySummary | prado/framework/Web/Javascripts/source/prado/validator/validation3.js:504-517 | with no messages only the header and the mode's frame remain |
| ValidationSummary.FormatSummary | prado/framework/Web/Javascripts/source/prado/validator/validation3.js:504-517 | HeaderText, when set, opens the summary |
| ValidationSummary.SummaryFrame | prado/framework/Web/Javascripts/source/prado/validator/validation3.js:504-517 | without HeaderText the list opener opens the summary; the mode's closing piece always ends it |
| ValidationSummary.FormatMessageBox | prado/framework/Web/Javascripts/source/prado/validator/validation3.js:523-543 | the loop builds the header followed by one piece per message, in order |
| ValidationSummary.OneLinePerMessage | prado/framework/Web/Javascripts/source/prado/validator/validation3.js:523-543 | outside SingleParagraph mode, messages without line breaks give exactly one line break each |
| ValidationSummary.SingleParagraphBox | prado/framework/Web/Javascripts/source/prado/validator/validation3.js:523-543 | in SingleParagraph mode the messages run on one line separated by spaces |
| ValidationSummary.HiddenView | prado/framework/Web/Javascripts/source/prado/validator/validation3.js:452-465 | the summary is hidden; its content and the message boxes raised are kept |
| ValidationSummary.UpdatedView | prado/framework/Web/Javascripts/source/prado/validator/validation3.js:386-413 | without errors the content and message boxes stay as they were; the summary becomes visible only when it was already visible or there are errors; at most one message box is raised, and none without ShowMessageBox |
| ValidationSummary.RequestedUpdateShowsErrors | prado/framework/Web/Javascripts/source/prado/validator/validation3.js:386-413 | an update that is asked for shows the current errors, and the summary is visible exactly when something shows them |
| ValidationSummary.HiddenSummaryAlwaysRefreshes | prado/framework/Web/Javascripts/source/prado/validator/validation3.js:386-413 | a hidden summary refreshes on any change, even with Refresh off |
| ValidationSummary.InlineUpdateIsIdempotent | prado/framework/Web/Javascripts/source/prado/validator/validation3.js:386-413 | without a message box, updating twice with the same errors is updating once |
| ValidationSummary.Summary.constructor | prado/framework/Web/Javascripts/source/prado/validator/validation3.js:367-378 | a new summary is visible as the page's style says and holds no messages |
| ValidationSummary.Summary.HideSummary | prado/framework/Web/Javascripts/source/prado/validator/validation3.js:452-465 | the summary is hidden; its content stays |
| ValidationSummary.Summary.UpdateSummary | prado/framework/Web/Javascripts/source/prado/validator/validation3.js:386-413 | the new view is the specified updated view |
| ValidationSummary.Summary.ShowMessages | prado/framework/Web/Javascripts/source/prado/validator/validation3.js:399-411 | the refresh step: the formatted messages replace the inline HTML when ShowSummary is on, one message box is raised when ShowMessageBox is on, and the summary becomes visible when either is on |
| ValidationManager.InGroup | prado/framework/Web/Javascripts/source/prado/validator/validation3.js:249-260 | the validators of group g, a subsequence in registration order |
| ValidationManager.NotInGroup | prado/framework/Web/Javascripts/source/prado/validator/validation3.js:266-272 | the validators outside group g, a subsequence in registration order |
| ValidationManager.GroupFilterMembers | prado/framework/Web/Javascripts/source/prado/validator/validation3.js:249-272 | the filters keep exactly the validators with (and without) group g |
| ValidationManager.GroupFilterComplete | prado/framework/Web/Javascripts/source/prado/validator/validation3.js:249-272 | the filters drop no validator of their side |
| ValidationManager.PartitionParts | prado/framework/Web/Javascripts/source/prado/validator/validation3.js:240-272 | the parts of a partition of distinct validators are distinct, drawn from the validators and disjoint |
| ValidationManager.InGroupKeepsOrder | prado/framework/Web/Javascripts/source/prado/validator/validation3.js:249-260 | filtering distributes over concatenation, so registration order is kept |
| ValidationManager.NotInGroupKeepsOrder | prado/framework/Web/Javascripts/source/prado/validator/validation3.js:266-272 | the complement filter distributes over concatenation |
| ValidationManager.GroupFiltersSplit | prado/framework/Web/Javascripts/source/prado/validator/validation3.js:249-272 | every validator lands in exactly one part, once |
| ValidationManager.GroupsOfCharacterized | prado/framework/Web/Javascripts/source/prado/validator/validation3.js:287-292 | the recorded groups are duplicate-free and exactly the non-empty groups of the validators |
| ValidationManager.NoMemberEmptyGroup | prado/framework/Web/Javascripts/source/prado/validator/validation3.js:240-243 | a group no validator has selects no validator |
| ValidationManager.UnknownGroupTouchesNothing | prado/framework/Web/Javascripts/source/prado/validator/validation3.js:240-260 | an unknown group selects nothing and its partition is two empty parts, so nothing is hidden either |
| ValidationManager.PartitionSplits | prado/framework/Web/Javascripts/source/prado/validator/validation3.js:240-272 | for no group or a recorded one, the two parts split all validators |
| ValidationManager.WithError | prado/framework/Web/Javascripts/source/prado/validator/validation3.js:308-314 | the invalid validators, a subsequence in order |
| ValidationManager.ErrorMessages | prado/framework/Web/Javascripts/source/prado/validator/validation3.js:437-447 | one message per validator |
| ValidationManager.ErrorsIn | prado/framework/Web/Javascripts/source/prado/validator/validation3.js:320-332 | at most one message per validator; an invalid first validator's message comes first |
| ValidationManager.NoErrorsWhenAllValid | prado/framework/Web/Javascripts/source/prado/validator/validation3.js:278-314 | no messages when every validator is valid |
| ValidationManager.ErrorsInPicksThenPlucks | prado/framework/Web/Javascripts/source/prado/validator/validation3.js:308-332 | collecting in one pass equals picking the invalid validators then their messages |
| ValidationManager.WithErrorMembers | prado/framework/Web/Javascripts/source/prado/validator/validation3.js:308-314 | the validators with an error are exactly the invalid ones, in order; none exactly when all are valid |
| ValidationManager.ErrorMessagesAt | prado/framework/Web/Javascripts/source/prado/validator/validation3.js:437-447 | the messages are the validators' messages, one each, in order |
| ValidationManager.FocusIndex | prado/framework/Web/Javascripts/source/prado/validator/validation3.js:227-234 | the index names an invalid validator asking for focus |
| ValidationManager.FocusIndexCases | prado/framework/Web/Javascripts/source/prado/validator/validation3.js:227-234 | the focus index is the first invalid validator asking for focus; without one, none qualifies |
| ValidationManager.FocusTarget | prado/framework/Web/Javascripts/source/prado/validator/validation3.js:227-234 | a focus element is named exactly when a validator was picked |
| ValidationManager.FocusOnError | prado/framework/Web/Javascripts/source/prado/validator/validation3.js:227-234 | the loop finds the focus index |
| ValidationManager.ValidateLoop | prado/framework/Web/Javascripts/source/prado/validator/validation3.js:214-222 | each validator, in order, reaches its validated state; verdicts collected |
| ValidationManager.ValidateEach | prado/framework/Web/Javascripts/source/prado/validator/validation3.js:214-222 | every validator in scope is validated with no short-circuit; the verdict is true exactly when all are now valid; other validators keep their state |
| ValidationManager.HideEach | prado/framework/Web/Javascripts/source/prado/validator/validation3.js:214-222 | each validator out of scope is hidden; the others keep their state |
| ValidationManager.ResetEach | prado/framework/Web/Javascripts/source/prado/validator/validation3.js:202-206 | each validator in scope is reset |
| ValidationManager.ValidateScope | prado/framework/Web/Javascripts/source/prado/validator/validation3.js:214-222 | validators in scope are validated, the first invalid one asking for focus is reported, those out of scope hidden |
| ValidationManager.RefreshSummaries | prado/framework/Web/Javascripts/source/prado/validator/validation3.js:320-332 | each summary of the group gets the error messages, every other one is hidden; validators unchanged |
| ValidationManager.ValidateAndSummarize | prado/framework/Web/Javascripts/source/prado/validator/validation3.js:214-222 | validation then a forced summary update with the messages validation left |
| ValidationManager.SummaryScopeIsGroupEquality | prado/framework/Web/Javascripts/source/prado/validator/validation3.js:320-332 | a summary is in scope exactly when its group equals g, with '' standing for no group |
| ValidationManager.RelabelAll | prado/framework/Web/Javascripts/source/prado/validator/validation3.js:156-169 | every validator with the named ID takes the message; no other changes |
| ValidationManager.Manager.constructor | prado/framework/Web/Javascripts/source/prado/validator/validation3.js:187-197 | empty lists; the manager becomes the form's manager unless the form has one |
| ValidationManager.Manager.GetValidatorsWithError | prado/framework/Web/Javascripts/source/prado/validator/validation3.js:308-314 | only invalid validators of the scope, at most one entry per validator; empty exactly when the group is valid |
| ValidationManager.Manager.AddValidator | prado/framework/Web/Javascripts/source/prado/validator/validation3.js:287-292 | the validator is appended and its group recorded the first time it is seen |
| ValidationManager.Manager.AddSummary | prado/framework/Web/Javascripts/source/prado/validator/validation3.js:298-301 | the summary is appended |
| ValidationManager.Manager.UpdateSummary | prado/framework/Web/Javascripts/source/prado/validator/validation3.js:320-332 | summaries of the group get the group's error messages; others are hidden |
| ValidationManager.Manager.Validate | prado/framework/Web/Javascripts/source/prado/validator/validation3.js:214-222 | validators in scope validated, first focus reported, those out of scope hidden, then a forced summary update |
| ValidationManager.Manager.Reset | prado/framework/Web/Javascripts/source/prado/validator/validation3.js:202-206 | validators in scope become valid and shown, and every summary of the scope hides |
| ValidationManager.Manager.OnControlChange | prado/framework/Web/Javascripts/source/prado/validator/validation3.js:748-769 | a visible validator is validated again and its group's summaries updated; a hidden one ignores the change |
| ValidationManager.Coordinator.constructor | prado/framework/Web/Javascripts/source/prado/validator/validation3.js:68 | no form has a manager |
| ValidationManager.Coordinator.Register | prado/framework/Web/Javascripts/source/prado/validator/validation3.js:195-196 | the first manager of a form wins |
| ValidationManager.Coordinator.GetForm | prado/framework/Web/Javascripts/source/prado/validator/validation3.js:95-99 | the first key JavaScript lists for the managers object: the array-index form ID of least value when there is one, otherwise the first registered form; None without forms |
| ValidationManager.LeastIndexName | prado/framework/Web/Javascripts/source/prado/validator/validation3.js:95-99 | the array-index name of least value among the names, None when there is none |
| ValidationManager.FirstKey | prado/framework/Web/Javascripts/source/prado/validator/validation3.js:95-99 | the first key of an object whose keys were added in the given order: the least array index first, otherwise the first name added; None exactly for no names |
| ValidationManager.FirstKeyPrefersIndex | prado/framework/Web/Javascripts/source/prado/validator/validation3.js:95-99 | with "main" registered before "2", getForm answers "2" |
| ValidationManager.FirstKeyOrdersIndices | prado/framework/Web/Javascripts/source/prado/validator/validation3.js:95-99 | with "10", "main" and "9" registered in that order, getForm answers "9" |
| ValidationManager.FirstKeyLeadingZero | prado/framework/Web/Javascripts/source/prado/validator/validation3.js:95-99 | "007" is no array index, so with "main" registered before it getForm answers "main" |
| ValidationManager.Coordinator.Validate | prado/framework/Web/Javascripts/source/prado/validator/validation3.js:79-90 | the form's manager validates and its verdict is the result: its in-scope validators are validated, its out-of-scope ones hidden, its summaries updated, and the validators and summaries of other managers are unchanged; a form without a manager is an error and nothing changes |
| ValidationManager.Coordinator.IsValid | prado/framework/Web/Javascripts/source/prado/validator/validation3.js:108-114 | the form's manager decides; without one the form is valid |
| ValidationManager.Coordinator.Reset | prado/framework/Web/Javascripts/source/prado/validator/validation3.js:119-124 | the manager of GetForm's form resets the group: the group is then valid, its in-scope validators are reset, the out-of-scope ones keep their state, its summaries are hidden, and other managers' validators and summaries are unchanged; without forms nothing happens |
| ValidationManager.Coordinator.AddValidator | prado/framework/Web/Javascripts/source/prado/validator/validation3.js:132-139 | the form's manager takes the validator and records its group, its summaries stay, and every other manager is unchanged; a form without a manager is an error and nothing changes |
| ValidationManager.Coordinator.AddSummary | prado/framework/Web/Javascripts/source/prado/validator/validation3.js:147-154 | the form's manager takes the summary, its validators and groups stay, and every other manager is unchanged; a form without a manager is an error and nothing changes |
| ValidationManager.Coordinator.SetErrorMessage | prado/framework/Web/Javascripts/source/prado/validator/validation3.js:156-169 | in every manager every validator with the named ID takes the message; no other validator changes |
| DateFormat.LookupFindsFirst | prado/framework/I18N/TDateFormat.php:134-138 | the table lookup answers the first entry with the name, and None only when no entry has it |
| DateFormat.GetPreset | prado/framework/I18N/TDateFormat.php:131-139 | a preset is one letter and its name has at least four characters |
| DateFormat.GetPresetCases | prado/framework/I18N/TDateFormat.php:71-77 | each of the twelve names maps to its letter as written, including 'long' to 'd' and 'longdate' to 'D' |
| DateFormat.GetPresetIgnoresCase | prado/framework/I18N/TDateFormat.php:133 | letter case of the name does not matter |
| DateFormat.SpacedNameIsNoPreset | prado/framework/I18N/TDateFormat.php:131-139 | a name holding a space is no preset |
| DateFormat.LongIsNotLongDate | prado/framework/I18N/TDateFormat.php:71-77 | 'long' and 'longdate' are different presets |
| DateFormat.ExplodeFirstSpace | prado/framework/I18N/TDateFormat.php:99 | one part without a space, else two parts split at the first space |
| DateFormat.ResolvePattern | prado/framework/I18N/TDateFormat.php:92-124 | no pattern exactly for the empty string; a pair holds two one-letter codes; a single pattern is non-empty |
| DateFormat.PresetPairResolves | prado/framework/I18N/TDateFormat.php:99-113 | two preset names around the first space give the pair of their codes |
| DateFormat.FirstSpaceSplitIsUnique | prado/framework/I18N/TDateFormat.php:99 | a split at the first space is unique |
| DateFormat.OnlyFirstSpaceSplits | prado/framework/I18N/TDateFormat.php:99 | with a second space the pair check fails and the whole string is looked up |
| DateFormat.SinglePresetResolves | prado/framework/I18N/TDateFormat.php:114-115 | a preset name resolves to its code |
| DateFormat.UnknownPatternIsKept | prado/framework/I18N/TDateFormat.php:119-120 | a string that is neither a pair nor a preset is kept unchanged |
| DateFormat.DateTimeComesFromPresetPair | prado/framework/I18N/TDateFormat.php:101-113 | a date-time result always comes from a pair of preset names |
| DateFormat.UsesOwnCulture | prado/framework/I18N/TDateFormat.php:179 | a culture of its own is used only when it is set and differs from the application's |
| DateFormat.DateFormatControl.SetPattern | prado/framework/I18N/TDateFormat.php:83-86 | getPattern then answers the resolved pattern |
| DateFormat.DateFormatControl.GetPattern | prado/framework/I18N/TDateFormat.php:92-124 | no pattern exactly when none is stored |
| DateFormat.DateFormatControl.SetValue | prado/framework/I18N/TDateFormat.php:157-160 | the value is stored and nothing else changes; a value that is not empty in PHP's sense is what getValue answers from then on |
| DateFormat.DateFormatControl.GetValue | prado/framework/I18N/TDateFormat.php:145-151 | an empty value reads as the current time, any other value as stored |
| DateFormat.DateFormatControl.FormattedDate | prado/framework/I18N/TDateFormat.php:168-191 | the formatter is created once with the application culture; the call uses the own culture when it differs |
| NumberFormat.TypeCode | prado/framework/I18N/TNumberFormat.php:123-141 | an accepted name gives one of the four codes |
| NumberFormat.TypeCodeCases | prado/framework/I18N/TNumberFormat.php:123-136 | exactly decimal, currency, percentage, scientific are accepted, in any case, mapping to d, c, p, e |
| NumberFormat.TypeCodeDistinguishesNames | prado/framework/I18N/TNumberFormat.php:123-136 | different accepted names give different codes |
| NumberFormat.TypeCodeIgnoresCase | prado/framework/I18N/TNumberFormat.php:125 | letter case does not matter |
| NumberFormat.UsesOwnCulture | prado/framework/I18N/TNumberFormat.php:179 | a culture of its own is used only when it is not empty in PHP's sense ("" or "0") and differs from the application's |
| NumberFormat.NumberFormatControl.GetType | prado/framework/I18N/TNumberFormat.php:112-115 | always one of the four codes, 'd' by default |
| NumberFormat.NumberFormatControl.GetCurrency | prado/framework/I18N/TNumberFormat.php:146-149 | 'USD' by default, else the stored code |
| NumberFormat.NumberFormatControl.SetType | prado/framework/I18N/TNumberFormat.php:123-141 | succeeds exactly for an accepted name and stores its code; otherwise fails with the invalid-type error and keeps the stored type |
| NumberFormat.NumberFormatControl.SetCurrency | prado/framework/I18N/TNumberFormat.php:156-159 | getCurrency then answers the code set; setting '' removes the stored value, so getCurrency falls back to 'USD'; the other properties stay |
| NumberFormat.NumberFormatControl.FormatPattern | prado/framework/I18N/TNumberFormat.php:174-175 | never empty: the custom pattern when set, else the type code |
| NumberFormat.NumberFormatControl.FormattedValue | prado/framework/I18N/TNumberFormat.php:167-191 | the formatter is created once; the own culture is used only when set and different from the application's |
| Formatting.SharedFormatter.Select | prado/framework/I18N/TNumberFormat.php:171-179 | the class-wide culture is fixed by the first call; the culture used is the own one or the class-wide one |
| Formatting.FirstCultureSticks | prado/framework/I18N/TNumberFormat.php:171-172 | a later application culture does not replace the first |
| CallbackResponse.Wrap | prado/framework/Web/UI/ActiveControls/TCallbackResponseAdapter.php:153-159 | the framed chunk is the content plus two marks of the boundary |
| CallbackResponse.UnwrapWrap | prado/framework/Web/UI/ActiveControls/TCallbackResponseAdapter.php:153-159 | a reader recovers exactly the content from a framed chunk |
| CallbackResponse.WrapUnwrap | prado/framework/Web/UI/ActiveControls/TCallbackResponseAdapter.php:153-159 | whatever a reader recovers framed back gives the chunk |
| CallbackResponse.CallbackResponseWriter.SetBoundary | prado/framework/Web/UI/ActiveControls/TCallbackResponseAdapter.php:135-146 | getBoundary then answers the value set |
| CallbackResponse.CallbackResponseWriter.Flush | prado/framework/Web/UI/ActiveControls/TCallbackResponseAdapter.php:153-159 | the boundary reader recovers the writer's content |
| CallbackResponse.FlushedPrefix | prado/framework/Web/UI/ActiveControls/TCallbackResponseAdapter.php:58-63 | the output of the first k writers is a prefix of the whole output |
| CallbackResponse.FlushedChunkAt | prado/framework/Web/UI/ActiveControls/TCallbackResponseAdapter.php:58-63 | writer k's chunk follows the chunks of the writers before it |
| CallbackResponse.CallbackResponseAdapter.constructor | prado/framework/Web/UI/ActiveControls/TCallbackResponseAdapter.php:34-40 | no writers, no data and no redirect |
| CallbackResponse.CallbackResponseAdapter.CreateNewHtmlWriter | prado/framework/Web/UI/ActiveControls/TCallbackResponseAdapter.php:48-53 | one fresh empty writer is appended; the earlier output is kept and an empty chunk added |
| CallbackResponse.CallbackResponseAdapter.FlushContent | prado/framework/Web/UI/ActiveControls/TCallbackResponseAdapter.php:58-63 | the loop outputs every writer's chunk in creation order |
| CallbackResponse.CallbackResponseAdapter.GetResponseData | prado/framework/Web/UI/ActiveControls/TCallbackResponseAdapter.php:76-79 | answers the stored data: None after the constructor, the value last set after SetResponseData |
| CallbackResponse.CallbackResponseAdapter.SetResponseData | prado/framework/Web/UI/ActiveControls/TCallbackResponseAdapter.php:68-79 | getResponseData then answers the value set |
| CallbackResponse.CallbackResponseAdapter.HttpRedirect | prado/framework/Web/UI/ActiveControls/TCallbackResponseAdapter.php:85-98 | getRedirectedUrl then answers the rewritten target |
| CallbackResponse.CallbackResponseAdapter.GetRedirectedUrl | prado/framework/Web/UI/ActiveControls/TCallbackResponseAdapter.php:95-98 | answers the recorded target: None after the constructor, the rewritten URL after HttpRedirect |
| Redirect.RedirectTarget | prado/framework/Web/THttpResponse.php:333-335 | the target is no longer than base URL plus URL |
| Redirect.DecodeAmpKeepsPlainPrefix | prado/framework/Web/THttpResponse.php:333-335 | a base URL without '&' passes the replacement unchanged |
| Redirect.EncodeAmpKeepsRootRelative | prado/framework/Web/THttpResponse.php:333 | escaping keeps whether a URL starts with '/' |
| Redirect.RedirectUnescapes | prado/framework/Web/THttpResponse.php:333-335 | an escaped URL redirects to the unescaped URL, behind the base URL when it starts with '/' |
| DynamicSql.SubstituteAll | prado/framework/Data/SqlMap/Statements/TSimpleDynamicSql.php:41-45 | no values leave the SQL unchanged, and so does SQL without the token |
| DynamicSql.MappedValues | prado/framework/Data/SqlMap/Statements/TSimpleDynamicSql.php:41-43 | one value per mapping |
| DynamicSql.ReplaceFirstSkipsPrefix | prado/framework/Data/SqlMap/Statements/TSimpleDynamicSql.php:44 | replacing in text behind a token-free prefix replaces in the rest |
| DynamicSql.TemplateUnfolds | prado/framework/Data/SqlMap/Statements/TSimpleDynamicSql.php:41-46 | a template with one more slot is the shorter template followed by a token and a piece |
| DynamicSql.FillNextSlot | prado/framework/Data/SqlMap/Statements/TSimpleDynamicSql.php:44 | substituting one value fills the next free token slot |
| DynamicSql.TokensFilledInOrder | prado/framework/Data/SqlMap/Statements/TSimpleDynamicSql.php:41-46 | the values fill the token slots in order; surplus tokens remain |
| DynamicSql.NoTokenIsFixpoint | prado/framework/Data/SqlMap/Statements/TSimpleDynamicSql.php:44 | text without the token is unchanged by substitution |
| DynamicSql.SubstituteAllSplits | prado/framework/Data/SqlMap/Statements/TSimpleDynamicSql.php:41-45 | substituting a concatenation of value lists is substituting one after the other |
| DynamicSql.SurplusMappingsChangeNothing | prado/framework/Data/SqlMap/Statements/TSimpleDynamicSql.php:44 | once the tokens are used up, further mappings leave the SQL unchanged |
| DynamicSql.PreparedStatement.SetPreparedSql | prado/framework/Data/SqlMap/Statements/TSimpleDynamicSql.php:46 | the statement holds the new SQL and counts one more write |
| DynamicSql.SimpleDynamicSql.MapDynamicParameter | prado/framework/Data/SqlMap/Statements/TSimpleDynamicSql.php:38-47 | the statement's SQL becomes the tokens substituted in mapping order, written back once |
| DynamicSql.SimpleDynamicSql.GetPreparedStatement | prado/framework/Data/SqlMap/Statements/TSimpleDynamicSql.php:30-36 | a null parameter leaves the statement exactly as it was; otherwise the parameters are mapped |
| Http.LastIndexOfIsLast | prado/framework/Web/THttpResponse.php:279 | the position found is the last dot; none means no dot |
| Http.ExtensionSplitsName | prado/framework/Web/THttpResponse.php:279-281 | the extension is what follows the last dot and holds no dot; no extension exactly when there is no dot |
| Http.ExtensionOfDottedName | prado/framework/Web/THttpResponse.php:279-281 | a stem, a dot and a dot-free extension give that extension back |
| Http.FileMimeType | prado/framework/Web/THttpResponse.php:275-286 | the given type wins, then mime_content_type's answer |
| Http.MimeFallback | prado/framework/Web/THttpResponse.php:265-286 | otherwise the extension's table entry, or text/plain for extensions outside the table |
| Http.MimeWithoutExtension | prado/framework/Web/THttpResponse.php:275-286 | a name without a dot falls back to text/plain |
| Http.BaseName | prado/framework/Web/THttpResponse.php:287 | no longer than the name and free of '/'; a name without '/' is kept |
| Http.EffectiveCharset | prado/framework/Web/THttpResponse.php:377-379 | the response's own charset wins; the globalization's is used only when the own one is empty; an empty result means neither is set |
| Http.ContentTypeHeader | prado/framework/Web/THttpResponse.php:375-387 | no header exactly when there is neither a charset (own or globalization) nor a content type |
| Http.ContentTypeHeaderShape | prado/framework/Web/THttpResponse.php:377-386 | a header names the type (text/html by default) and the charset (UTF-8 when none); the own charset overrides the globalization's |
| Http.FileHeaders | prado/framework/Web/THttpResponse.php:288-302 | the given headers or the three cache headers first, then the Content-type header of the mime type |
| Http.HttpResponse.constructor | prado/framework/Web/THttpResponse.php:55-83 | buffering on, not initialised, status 200, no content type, empty charset |
| Http.HttpResponse.Init | prado/framework/Web/THttpResponse.php:125-131 | marks the module initialised; nothing else changes |
| Http.HttpResponse.SetBufferOutput | prado/framework/Web/THttpResponse.php:210-216 | fails exactly after init, keeping the flag; before init sets it |
| Http.HttpResponse.SetStatusCode | prado/framework/Web/THttpResponse.php:229-232 | getStatusCode then answers the code set |
| Http.HttpResponse.SetContentType | prado/framework/Web/THttpResponse.php:169-172 | the content type is the one set |
| Http.HttpResponse.SetCharset | prado/framework/Web/THttpResponse.php:193-196 | the charset is the one set |
| Http.HttpResponse.Write | prado/framework/Web/THttpResponse.php:249-252 | the text is appended to the output buffer while it is active, else to the client's output |
| Http.HttpResponse.GetContents | prado/framework/Web/THttpResponse.php:395-399 | '' when buffering is off, and always the buffer's content |
| Http.HttpResponse.Clear | prado/framework/Web/THttpResponse.php:404-409 | the output buffer is empty |
| Http.HttpResponse.AppendHeader | prado/framework/Web/THttpResponse.php:415-419 | one header is appended |
| Http.HttpResponse.SendContentTypeHeader | prado/framework/Web/THttpResponse.php:375-387 | exactly the decided Content-Type header, if any, is appended |
| Http.HttpResponse.FlushContent | prado/framework/Web/THttpResponse.php:364-370 | the Content-Type header is sent and the buffered output reaches the client |
| Http.HttpResponse.Flush | prado/framework/Web/THttpResponse.php:352-358 | with an adapter the writers' chunks are written and the response then flushes its own content; either way the Content-Type header is sent and everything buffered reaches the client |
| Http.HttpResponse.WriteAdapterOutput | prado/framework/Web/UI/ActiveControls/TCallbackResponseAdapter.php:58-61 | the writers' chunks, in creation order, are appended to the response's output; headers and settings are unchanged |
| Http.HttpResponse.HttpRedirect | prado/framework/Web/THttpResponse.php:329-337 | a Location header with the rewritten target is sent and the request exits |
| Http.HttpResponse.Redirect | prado/framework/Web/THttpResponse.php:315-321 | with an adapter the redirect is recorded while headers, output, status, settings and the adapter's writers and data stay and the response does not exit; without one the Location header is appended and the response exits, nothing else changing |
| Http.HttpResponse.SendHeaders | prado/framework/Web/THttpResponse.php:288-292 | the headers are sent in order |
| Http.HttpResponse.WriteFile | prado/framework/Web/THttpResponse.php:263-307 | the header list the file needs is sent, then the content or the file's data is written |

## Left out

- DOM and timer effects of validation3.js. Showing and hiding messages, CSS classes, `setTimeout`, `alert`, `scrollTo`, focusing and the `Event.observe` plumbing are not modelled. What they show is recorded in the validator and summary state; `focusOnError` reports the index it would focus.
- Reading input values. `getValidationValue`, radio-button, list and date-picker reading, and `getListElements`, are inputs: the trimmed value, or the list of items with their selected flags.
- Type conversion, regular expressions and client validation functions are uninterpreted. Floating point, JavaScript's loose `==` and the Date parser are not modelled. Numbers are taken as reals. JavaScript strings are sequences of UTF-16 code units; the model's strings are sequences of Unicode scalar values, so the two agree only on text within the Basic Multilingual Plane.
- ValidationRules.StrLess compares character by character. For text outside the Basic Multilingual Plane, JavaScript compares the surrogate code units instead, which can give a different order.
- ValidationRules.CharCodeSum and ValidationRules.CaptchaHash add one code per character. For a character outside the Basic Multilingual Plane, JavaScript's `charCodeAt` adds its two surrogates (0xD83D + 0xDE00 for U+1F600, not 0x1F600).
- ValidationValidator.RuleHolds runs the corrected Range rule, ValidationRules.RangeHolds (see Findings). So Validated, the Validator methods and the manager and coordinator operations built on them skip an unset bound under every data type. The rule as written is ValidationRules.RangeHoldsAsWritten, and ValidationRules.RangeUnsetBoundAsWritten shows where the two differ.
- `crc32` and its UTF-8 encoder are not modelled, since no rule uses them.
- The coordinator's error for a form without a manager is modelled as a failure result. The message text is not modelled, because the source builds it from an undefined variable.
- The CallbackRequest dispatch and the network are not modelled. Only the ActiveCustom flags and the history of requests and callbacks are modelled.
- The Date formatting of the ActiveCustom callback parameter is not modelled: the value sent is the control's value.
- ValidationManager.Manager.AddValidator requires that the validator is not yet registered. The source does not check this, but the manager's frame reasoning needs distinct validators.
- ValidationManager.Manager.AddSummary requires that the summary is not yet registered. The source does not check this; the requirement keeps the summaries distinct, which the frame reasoning of UpdateSummary needs.
- ValidationManager.Coordinator.SetErrorMessage updates every validator with the named ID, as the code does. The order in which it visits the managers is not modelled, and it cannot be observed, because every visit writes the same message.
- Text.IsSpace: JavaScript's `\s` class is taken as ASCII white space.
- View state. TControl's view-state storage is not part of this model: a property stored in view state is a field, and its setter is a plain store, except that storing a property's default removes it; the model writes that out for NumberFormat.NumberFormatControl.SetCurrency, where setCurrency('') makes getCurrency answer 'USD'.
- PHP's loose `!=`. NumberFormat.UsesOwnCulture treats the culture "0" as empty, as PHP's `empty` does. Comparisons between numeric strings are taken literally.
- Actual formatting. The `NumberFormat` and `DateFormat` formatters are not part of this model; the models answer the formatting call they would make. `time()` is a parameter.
- The writer's boundary, made from `crc32(microtime())`, is a parameter. TTextWriter is not part of this model: its own flush, which clears the content, is not modelled, and `flush` is the framing of the content.
- THttpResponseAdapter is not part of this model. Http.HttpResponse.Flush takes its `flushContent`, which the callback adapter calls after the writers' output, to hand back to the response's own `flushContent`: the Content-Type header is sent and the buffered output reaches the client.
- `preg_replace` in TSimpleDynamicSql. Replacement escapes such as `$1` and `\\` in the substituted values are not modelled, so the substitution is literal. The dynamic token, which TSimpleDynamicParser defines, is a field of the model.
- THttpResponse I/O. `ob_*`, `header`, `exit`, `readfile`, `filesize` and `mime_content_type` are modelled by a recorded header list, a sent-output string, an output-buffer string, an exit flag and parameters. Cookies, cache settings, `appendLog`, HTML-writer creation and `onEndRequest` are not modelled.
- Http.HttpResponse.GetContents answers "" where `ob_get_contents` would answer false, before `init` has started the buffer.
- Http.BaseName takes the text after the last '/'. PHP's `basename` also strips trailing slashes and, on Windows, splits at '\\'; this is not modelled.
- Http.HttpResponse.WriteFile: PHP strings are byte strings, and the model takes one character per byte. Content-Length is the number of characters of the content, which equals PHP's `strlen` only under that reading; character encodings are not modelled.
- Http.FileMimeType: a `mime_content_type` answer of false is not modelled.

## Findings

| source | as written | input that shows it | evidently intended | confidence | as-written member | corrected member |
|---|---|---|---|---|---|---|
| prado/framework/Web/Javascripts/source/prado/validator/validation3.js:1215-1246 | An unset MinValue or MaxValue is converted as `null`. Under the String data type, which is the default, that gives the text "null", so the bound is not skipped | DataType String, MinValue unset, MaxValue "zzz", value "abc": "abc" < "null", so the value fails | An unset bound is skipped for every data type, as it is for the numeric types, whose conversion of `null` fails | not executed | ValidationRules.RangeUnsetBoundAsWritten | ValidationRules.RangeHolds |
