/**
 * The error display of one field, abstracted from the DOM: the wrapper's
 * `has-error` class, the text of the error-message element, and the
 * `aria-invalid` flags (one for a single control, one per radio for the
 * query-type group). `setErrorState`, `clearErrorState` and `setQueryError`
 * are all specified by the two functions `Shown` and `Cleared` below.
 */
module ErrorDisplay {
  import opened Validators

  /**
   * Which of the field's display elements exist in the page: the control (or,
   * for the group, the fieldset) itself, the wrapper that carries `has-error`,
   * and the element that shows the message. A missing element is skipped.
   */
  datatype Anchor = Anchor(present: bool, wrapper: bool, textElement: bool)

  datatype FieldDisplay = FieldDisplay(hasError: bool, text: string, ariaInvalid: seq<bool>)

  predicate AllFlags(flags: seq<bool>, b: bool) {
    forall i :: 0 <= i < |flags| ==> flags[i] == b
  }

  function Flags(n: nat, b: bool): (r: seq<bool>)
    ensures |r| == n && AllFlags(r, b)
  {
    seq(n, _ => b)
  }

  /** No error shown: no `has-error`, empty message, no `aria-invalid`. */
  predicate Blank(d: FieldDisplay) {
    !d.hasError && d.text == "" && AllFlags(d.ariaInvalid, false)
  }

  /** A part of the display whose element is missing is never set. */
  predicate WellFormed(d: FieldDisplay, a: Anchor) {
    && (!(a.present && a.wrapper) ==> !d.hasError)
    && (!(a.present && a.textElement) ==> d.text == "")
    && (!a.present ==> AllFlags(d.ariaInvalid, false))
  }

  /** `setErrorState(control, m)` and the failing branch of `setQueryError(m)`. */
  function Shown(d: FieldDisplay, a: Anchor, m: string): (r: FieldDisplay)
    ensures |r.ariaInvalid| == |d.ariaInvalid|
    ensures WellFormed(d, a) ==> WellFormed(r, a)
  {
    if !a.present then d
    else FieldDisplay(
      if a.wrapper then true else d.hasError,
      if a.textElement then m else d.text,
      Flags(|d.ariaInvalid|, true))
  }

  /** `clearErrorState(control)` and `setQueryError("")`. */
  function Cleared(d: FieldDisplay, a: Anchor): (r: FieldDisplay)
    ensures |r.ariaInvalid| == |d.ariaInvalid|
    ensures WellFormed(d, a) ==> WellFormed(r, a) && Blank(r)
  {
    if !a.present then d
    else FieldDisplay(
      if a.wrapper then false else d.hasError,
      if a.textElement then "" else d.text,
      Flags(|d.ariaInvalid|, false))
  }

  /** The display a validator leaves behind for a given verdict. */
  function Apply(d: FieldDisplay, a: Anchor, v: Verdict): (r: FieldDisplay)
    ensures WellFormed(d, a) ==> WellFormed(r, a)
    ensures WellFormed(d, a) && v == Pass ==> Blank(r)
  {
    match v
    case Pass => Cleared(d, a)
    case Fail(k) => Shown(d, a, Message(k))
  }

  /**
   * Showing an error on a present field marks the wrapper when there is one,
   * makes the message text exactly `m` when there is a message element, and
   * marks every control invalid.
   */
  lemma ShownState(d: FieldDisplay, a: Anchor, m: string)
    requires WellFormed(d, a) && a.present
    ensures Shown(d, a, m).hasError == a.wrapper
    ensures Shown(d, a, m).text == (if a.textElement then m else "")
    ensures AllFlags(Shown(d, a, m).ariaInvalid, true)
  {
  }

  /** Clearing after showing leaves nothing of the error behind. */
  lemma ClearAfterShow(d: FieldDisplay, a: Anchor, m: string)
    requires WellFormed(d, a)
    ensures Blank(Cleared(Shown(d, a, m), a))
    ensures Cleared(Shown(d, a, m), a) == Cleared(d, a)
  {
  }

  /** Clearing is idempotent. */
  lemma ClearedIdempotent(d: FieldDisplay, a: Anchor)
    ensures Cleared(Cleared(d, a), a) == Cleared(d, a)
  {
  }

  /** On a missing field (`if (!control) return`, `if (!queryFieldset) return`) nothing changes. */
  lemma AbsentUnchanged(d: FieldDisplay, a: Anchor, v: Verdict)
    requires !a.present
    ensures Apply(d, a, v) == d
  {
  }

  /** A validator's display depends on the verdict only through pass/fail and the message. */
  lemma ApplyFailShowsMessage(d: FieldDisplay, a: Anchor, k: ErrorKind)
    requires WellFormed(d, a) && a.present && a.textElement
    ensures Apply(d, a, Fail(k)).text == Message(k) != ""
    ensures Apply(d, a, Fail(k)).hasError == a.wrapper
  {
  }
}
