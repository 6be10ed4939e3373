# Contact form validation, modelled in Dafny

A model of `script.js`, the script behind a contact form with six fields:
first name, last name, email, message, a query-type radio group and a
consent checkbox. The script validates each field on blur, input, change and
submit. It shows or clears an error on the field's wrapper (`has-error`), in
its error-message element and in `aria-invalid`. On a valid submit it resets
the form and shows a success toast that a timer hides again.

The project has five modules:

- `Text` (`text.dfy`): `\s` and `String.prototype.trim`.
  - `Trim` is specified as the infix left after removing only whitespace at
    each end.
  - "Blank after trimming" is proved to mean "all whitespace".
  - Whitespace padding is proved never to change the trimmed value.
- `EmailPattern` (`email.dfy`): `EMAIL_PATTERN`, `/^[^\s@]+@[^\s@]+\.[^\s@]+$/`.
  - `MatchesPattern` reads the expression as a whole-string match: some `@`
    and some `.` cut the string into three `[^\s@]+` runs.
  - `PlainShape` states the same thing in plain words.
  - `Test` is a single-scan matcher, proved equal to both.
- `Validators` (`validators.dfy`):
  - the messages of `errorText`;
  - the verdict of each of the four validator functions, as a pure function
    of the values it reads;
  - the `validators` table's order, and how many entries `every` calls.
- `ErrorDisplay` (`display.dfy`): one field's error display as a value.
  - `Anchor` records which of the field's elements exist. Each `if (!control)`,
    `if (wrapper)`, `if (errorElement)`, `if (!queryFieldset)` and
    `if (queryError)` guard reads one of these flags.
  - `Shown` and `Cleared` give the display that `setErrorState`,
    `clearErrorState` and `setQueryError` leave.
- `ContactForm` (`form.dfy`): the `Form` class, which holds the page's state.
  - Fields:
    - `inputs`: the controls' values and checked flags;
    - `displays`: the six error displays;
    - `toastHidden`;
    - `timerHandle`: `hideToastTimeoutId`;
    - `pendingTimers`: the hide callbacks the host has armed.
  - Each helper of the script and each event it listens to is a method that
    updates these fields in place. The methods are proved against the pure
    functions above.

Four rules of the source shape the model:

- The submit handler uses `Object.values(validators).every(...)`, and `every`
  stops at the first validator that returns false. Only the fields up to and
  including the first invalid one have their display updated. The fields
  after it keep whatever they showed before. `Submit` states exactly this,
  through `Evaluated` and `ApplyFirst`. A reading in which all six
  validators always run is not what the code does, and the model follows the
  code.
- `hideToastTimeoutId` is never set back to `null` when the timer fires.
  After the first successful submit, every later success calls
  `clearTimeout` on the old handle, whether or not it is still pending. The
  model keeps that handle (`timerHandle`) separate from the set of callbacks
  still pending (`pendingTimers`). Cancelling a handle that has already
  fired changes nothing.
- The host's timer handles are positive, so `if (hideToastTimeoutId)` is the
  same test as `timerHandle.Some?`.
- `form.reset()` is taken to empty every text field and uncheck every box
  and radio.

## Model

| member | source | states |
|---|---|---|
| Text.Trim | script.js:70 | the result is an infix of the value with only whitespace before and after it, and it neither starts nor ends with whitespace |
| Text.BlankIffAllSpace | script.js:70-71 | the trimmed value is empty (`!value`) exactly when the whole value is whitespace |
| Text.TrimIgnoresPadding | script.js:70 | whitespace added before or after a value never changes its trimmed value |
| Text.TrimIdempotent | script.js:70 | trimming a trimmed value changes nothing |
| Text.TrimUnpadded | script.js:70 | a value that neither starts nor ends with whitespace is its own trimmed value |
| Text.IsSpace | script.js:14 | the `\s` / `trim` whitespace set (ECMAScript WhiteSpace and LineTerminator); it contains space, tab, line feed and carriage return, and never `@` or `.`, so the pattern's `@` and `\.` are never whitespace |
| EmailPattern.PatternIffPlainShape | script.js:14 | the pattern matches exactly the strings with no whitespace, exactly one `@` with something before it, and after it a `.` with at least one character on each side |
| EmailPattern.MatchesPattern | script.js:14 | the regular expression read as a whole-string match: some `@` and some later `.` cut the string into three `[^\s@]+` runs; any match is at least five characters long and starts and ends with a character that is neither whitespace nor `@` (it may end in a dot, as `a@b.c.` does) |
| EmailPattern.Test | script.js:87 | the left-to-right scan returns true exactly when the pattern matches the whole string (and exactly when it has the plain shape) |
| EmailPattern.PatternAcceptsAddress | script.js:14 | `a@b.c` (any three characters that are not whitespace, `@` or `.`) matches |
| EmailPattern.PatternAcceptsDoubleDot | script.js:14 | `a@b..c` matches, because the host run may end in a dot |
| EmailPattern.PatternAcceptsTwoDots | script.js:14 | `a@b.c.d` matches |
| EmailPattern.PatternRejectsNoDot | script.js:14 | `a@b` does not match |
| EmailPattern.PatternRejectsEmptyLocalPart | script.js:14 | `@b.c` does not match |
| EmailPattern.PatternRejectsEmptyHost | script.js:14 | `a@.b` does not match |
| EmailPattern.PatternRejectsTrailingDot | script.js:14 | `a@b.` does not match |
| EmailPattern.PatternRejectsInnerSpace | script.js:14 | a value with whitespace inside (`a b@c.d`) does not match |
| EmailPattern.PatternRejectsSecondAtSign | script.js:14 | `a@b@c.d` does not match |
| Validators.Message | script.js:16-21 | every error text in the catalogue is non-empty |
| Validators.MessagesDistinct | script.js:16-21 | the four error texts are pairwise different, so the text shown identifies the error |
| Validators.RequiredVerdict | script.js:69-78 | a required field passes exactly when its value is not all whitespace, and otherwise fails with `required` |
| Validators.EmailVerdict | script.js:80-94 | the email fails with `required` exactly when it is all whitespace, fails with `emailInvalid` exactly when it is not blank and its trimmed value lacks the email shape, and passes exactly when the trimmed value has the shape |
| Validators.AnyChecked | script.js:116 | `radios.some(checked)` is true exactly when some radio is checked |
| Validators.QueryVerdict | script.js:115-124 | the group passes exactly when some radio is checked, and otherwise fails with `queryType` |
| Validators.ConsentVerdict | script.js:126-134 | consent passes exactly when the box is checked, and otherwise fails with `consent` |
| Validators.VerdictOfCases | script.js:138-145 | what each entry of the `validators` table accepts, and that a failing required field always reports `required` |
| Validators.VerdictOf | script.js:138-145 | calling the entry registered under a field: a text field other than the email can only fail with `required`, the email with `required` or `emailInvalid`, the group with `queryType`, the checkbox with `consent` |
| Validators.OrderListsEachFieldOnce | script.js:138-145 | the submit order lists each of the six fields exactly once |
| Validators.Evaluated | script.js:184 | `every` calls all the validators when all pass; otherwise it calls those up to and including the first failure, and all before that one passed |
| Validators.AllPassIffEveryField | script.js:184 | `isValid` is true exactly when every field's validator passes |
| Validators.BlankFormStopsAtFirstName | script.js:184 | on an all-blank form only the first-name validator runs, and it fails with `required` |
| Validators.RequiredIgnoresPadding | script.js:69-78 | leading and trailing whitespace never changes a required field's verdict |
| Validators.EmailIgnoresPadding | script.js:80-94 | leading and trailing whitespace never changes the email verdict |
| Validators.EmailVerdictOfUnpadded | script.js:80-94 | for a value without surrounding whitespace, the email passes exactly when the pattern matches, and otherwise fails with `emailInvalid` |
| Validators.EmailAcceptsPaddedAddress | script.js:80-94 | `a@b.c` with any whitespace around it is accepted |
| Validators.EmailRejectsBlank | script.js:81-85 | a whitespace-only email fails with `required` before the pattern is tried |
| Validators.EmailRejectsNoDot | script.js:87-90 | `a@b` fails with `emailInvalid` |
| ErrorDisplay.Shown | script.js:23-44 | showing an error keeps the number of `aria-invalid` flags and never sets a part of the display whose element is missing |
| ErrorDisplay.Cleared | script.js:46-67 | clearing leaves no `has-error`, an empty text and no `aria-invalid`, and touches no missing element |
| ErrorDisplay.Apply | script.js:69-134 | a passing validator leaves the field's display blank |
| ErrorDisplay.ShownState | script.js:23-44 | on a present control, `setErrorState(c, m)` sets `has-error` when there is a wrapper, makes the text exactly `m` when there is a message element, and marks every control invalid |
| ErrorDisplay.ClearAfterShow | script.js:23-67 | clearing after showing leaves a blank display, the same as clearing alone |
| ErrorDisplay.ClearedIdempotent | script.js:46-67 | clearing twice is clearing once |
| ErrorDisplay.AbsentUnchanged | script.js:24 | `setErrorState`, `clearErrorState` and `setQueryError` change nothing when the control or the fieldset is missing (a validator that reads a missing single control throws before it gets there) |
| ErrorDisplay.ApplyFailShowsMessage | script.js:69-134 | a failing validator shows its own non-empty message and marks the wrapper |
| ContactForm.FailedSubmitDisplays | script.js:184-189 | after a failing submit, the fields before the first failure are blank, that field shows its message, and every later field keeps its display |
| ContactForm.AllPassedIsCleared | script.js:184-192 | when every validator passed, the displays are all cleared, and clearing them again changes nothing |
| ContactForm.ResetInputs | script.js:191 | `form.reset()`: every text value empty, no radio checked (the group keeps its size) and the checkbox unchecked |
| ContactForm.ResetFormFailsEveryField | script.js:160-163 | the blur listeners run on a freshly reset form (script.js:191): on such a form every validator fails, each text field with `required`; a blur on a text field right after a successful submit shows "This field is required" |
| ContactForm.ApplyFirst | script.js:184 | the displays `every` leaves after calling the first `n` validators: each of those fields gets the display its verdict calls for, every later field keeps its display, and no display becomes ill-formed |
| ContactForm.Form.AtMostOnePending | script.js:136 | at most one hide timer is ever pending, and it is the one `hideToastTimeoutId` names |
| ContactForm.Form.constructor | script.js:136 | the page as loaded, with at least two radios so that `queryRadios` lists them: empty fields, no error shown, the toast hidden, no timer |
| ContactForm.Form.SetErrorState | script.js:23-44 | the control's display becomes `Shown` of the old one and no other field changes |
| ContactForm.Form.ClearErrorState | script.js:46-67 | the control's display becomes `Cleared` of the old one and no other field changes |
| ContactForm.Form.SetQueryError | script.js:96-113 | a non-empty message shows it on the group and marks every radio invalid; the empty message clears the group; without the fieldset nothing changes |
| ContactForm.Form.ValidateRequiredField | script.js:69-78 | the result is the field's verdict, and only that field's display changes, to the display the verdict calls for |
| ContactForm.Form.ValidateEmailField | script.js:80-94 | the result is the email verdict (computed with the scanning matcher), and only the email display changes accordingly |
| ContactForm.Form.ValidateQueryGroup | script.js:115-124 | the result is the group's verdict, and only the group's display changes accordingly |
| ContactForm.Form.ValidateConsent | script.js:126-134 | the result is the consent verdict, and only the checkbox's display changes accordingly |
| ContactForm.Form.RunValidator | script.js:138-145 | calling a table entry returns that field's verdict and updates that field's display only |
| ContactForm.Form.ClearAllValidation | script.js:147-158 | every one of the six displays is cleared |
| ContactForm.Form.ValidateAll | script.js:184 | `isValid` is the conjunction of all six verdicts; only the fields `every` reaches have their displays updated, each by its own verdict |
| ContactForm.Form.Submit | script.js:181-206 | a failing submit hides the toast and changes nothing else (no reset, timer untouched, displays as `every` left them); a passing one resets the fields, clears every display, shows the toast, cancels the old timer and leaves exactly one new timer pending |
| ContactForm.Form.HideToast | script.js:187 | the toast is hidden and nothing else changes |
| ContactForm.Form.ShowSuccess | script.js:191-205 | fields reset, every display cleared, the toast shown, the previous handle cancelled and exactly the new handle pending |
| ContactForm.Form.TimerFires | script.js:203-205 | firing the pending timer hides the toast and leaves no timer pending |
| ContactForm.Form.Input | script.js:165-172 | typing sets the field's value; the field is re-validated when its wrapper shows `has-error` and nothing else changes otherwise |
| ContactForm.Form.Blur | script.js:160-163 | leaving a text field runs its validator |
| ContactForm.Form.RadioFocus | script.js:176 | focusing a radio clears the group's error whatever is selected, and nothing else changes |
| ContactForm.Form.RadioChange | script.js:175 | choosing a radio that was not checked (the only case in which `change` fires) selects exactly that one, and the group validates, so its error is cleared |
| ContactForm.Form.ConsentChange | script.js:179 | toggling the checkbox (the new state differs from the old, as for every `change`) records the new state and validates consent |

## Left out

- DOM lookup and traversal are not modelled: `getElementById`, `form.elements`, `querySelector`, `closest` and `aria-describedby` resolution. Each field has a fixed position, and an `Anchor` records which of its elements exist.
- The `input` listener finds the wrapper with `closest("[data-field]")`, while `setErrorState` uses `closest("[data-field], fieldset.field")`. For the four text fields both find the same element, and the model uses one wrapper flag.
- The `instanceof HTMLInputElement || HTMLTextAreaElement` test is always true for the five single controls, so `aria-invalid` is always set or removed on them.
- `validators[input.name]?.()` assumes each text control's `name` is its key in the table. The model calls that entry directly.
- Listener registration and `event.preventDefault()` are not modelled. Each event is a method call.
- The `requestAnimationFrame` focus on the toast is left out. If the toast can take focus (a `tabindex` in the markup), it does change state: moving focus fires `blur` on the control that had it; if it cannot, `focus()` moves nothing and no `blur` fires. In the first case, after a submit made by pressing Enter in the first name, last name or email field, that field still has focus and `form.reset()` has just emptied it, so its blur listener runs the validator on `""` and the field shows "This field is required" right after the success. `Submit`'s contract describes the state before that blur; the model expresses it only as a separate `Blur(f)` call after `Submit`, and `ResetFormFailsEveryField` shows what that call then shows.
- Real time, the 6000 ms delay and the host's timer queue are not modelled. A timer is a handle in `pendingTimers`, and `TimerFires` is the step at which it runs.
- `form.reset()` restoring the HTML `value`/`checked` defaults is not modelled. The model assumes the defaults are empty and unchecked.
- The top-level `if (form)` is left out: with no form, the script does nothing.
- Strings are sequences of code points. The model does not track how JavaScript's UTF-16 code units would split characters outside the Basic Multilingual Plane, and every character in the whitespace set lies inside it.
- Element aliasing is not modelled: each field's elements are taken to be distinct from every other field's.
- The page's markup is fixed when the form is created. The number of radios never changes, and a missing single control is not modelled, since `validateRequiredField` would then fail reading `.value`. The success toast is assumed to exist: without it `successToast.hidden = …` would throw, on the success path after the reset and the clear and before the timer is armed, and the model has no such partial step. The page is assumed to load with empty fields, no error shown and the toast hidden, which is the state the constructor sets up.
- `Form.constructor` requires at least two radios. With a single radio `form.elements.queryType` is that input, not a list, so `Array.from` yields no radios: the group then always fails and no radio listener is attached; with none, `Array.from(undefined)` throws and nothing is bound. Neither page is modelled.
