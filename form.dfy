/**
 * The contact form's controller. The DOM is abstracted into a fixed record
 * of six fields, in the order of the `validators` table: for each, what the
 * user has entered (`inputs`), which of its display elements exist
 * (`anchors`) and its current error display (`displays`). Next to them sit
 * the success toast's `hidden` flag and the hide timer. There is one method
 * per event the script listens to.
 */
module ContactForm {
  import opened Text
  import opened EmailPattern
  import opened Validators
  import opened ErrorDisplay

  datatype Option<T> = None | Some(value: T)

  /** A field's control, tagged by kind: a text input or textarea, the checkbox, or the radio group. */
  datatype Input = TextLike(value: string) | Checkbox(checked: bool) | RadioGroup(radios: seq<bool>)

  /** Positions in table order. */
  const QueryIndex: nat := 4
  const ConsentIndex: nat := 5
  /** Every position, as `clearAllValidation` covers them. */
  const Positions: set<nat> := {0, 1, 2, 3, 4, 5}

  /** The position of `f` in the table order. */
  function FieldIndex(f: FieldName): (i: nat)
    ensures i < |Order| && Order[i] == f
    ensures (f == QueryTypeField) == (i == QueryIndex)
    ensures (f == ConsentField) == (i == ConsentIndex)
    ensures IsText(f) == (i < 4)
  {
    match f
    case FirstName => 0
    case LastName => 1
    case Email => 2
    case MessageField => 3
    case QueryTypeField => 4
    case ConsentField => 5
  }

  lemma FieldIndexOfOrder(i: nat)
    requires i < |Order|
    ensures FieldIndex(Order[i]) == i
  {
  }

  /** The controls the script finds in the form, each tagged with its kind. */
  predicate Shaped(inputs: seq<Input>) {
    && |inputs| == |Order|
    && inputs[0].TextLike? && inputs[1].TextLike? && inputs[2].TextLike? && inputs[3].TextLike?
    && inputs[QueryIndex].RadioGroup? && inputs[ConsentIndex].Checkbox?
  }

  /** What the validators read from the controls. */
  function ValuesOf(inputs: seq<Input>): FormValues
    requires Shaped(inputs)
  {
    FormValues(inputs[0].value, inputs[1].value, inputs[2].value, inputs[3].value,
      inputs[QueryIndex].radios, inputs[ConsentIndex].checked)
  }

  /** What `form.reset()` leaves: empty text, nothing checked. */
  function ResetInputs(radioCount: nat): (r: seq<Input>)
    ensures Shaped(r) && |r[QueryIndex].radios| == radioCount
    ensures forall k :: 0 <= k < 4 ==> r[k].value == ""
    ensures !AnyChecked(r[QueryIndex].radios) && !r[ConsentIndex].checked
  {
    [TextLike(""), TextLike(""), TextLike(""), TextLike(""),
     RadioGroup(Flags(radioCount, false)), Checkbox(false)]
  }

  /**
   * Every validator fails on a freshly reset form; each text field with
   * `required`. A text field that still has focus after a successful submit
   * and then loses it (its `blur` listener) therefore shows "This field is
   * required" right away.
   */
  lemma ResetFormFailsEveryField(radioCount: nat, f: FieldName)
    ensures VerdictOf(f, ValuesOf(ResetInputs(radioCount))) != Pass
    ensures IsText(f) ==> VerdictOf(f, ValuesOf(ResetInputs(radioCount))) == Fail(Required)
  {
    var vals := ValuesOf(ResetInputs(radioCount));
    assert vals.firstName == vals.lastName == vals.email == vals.message == "";
    assert AllSpace("");
  }

  /** The values a validator would see if the user set text field `f` to `v`. */
  function WithText(vals: FormValues, f: FieldName, v: string): FormValues
    requires IsText(f)
  {
    match f
    case FirstName => vals.(firstName := v)
    case LastName => vals.(lastName := v)
    case Email => vals.(email := v)
    case MessageField => vals.(message := v)
  }

  /** The displays after the first `n` validators have run on displays `ds`, with verdicts `vs`. */
  function ApplyFirst(ds: seq<FieldDisplay>, anchors: seq<Anchor>, vs: seq<Verdict>, n: nat): (r: seq<FieldDisplay>)
    requires |anchors| == |ds| && |vs| == |ds|
    ensures |r| == |ds|
    ensures forall j :: 0 <= j < |ds| ==> r[j] == if j < n then Apply(ds[j], anchors[j], vs[j]) else ds[j]
    ensures forall j :: 0 <= j < |ds| && WellFormed(ds[j], anchors[j]) ==> WellFormed(r[j], anchors[j])
  {
    seq(|ds|, j requires 0 <= j < |ds| => if j < n then Apply(ds[j], anchors[j], vs[j]) else ds[j])
  }

  /** The displays after clearing those at the positions in `ks`. */
  function ClearedAt(ds: seq<FieldDisplay>, anchors: seq<Anchor>, ks: set<nat>): (r: seq<FieldDisplay>)
    requires |anchors| == |ds|
    ensures |r| == |ds|
    ensures forall j :: 0 <= j < |ds| ==> r[j] == if j in ks then Cleared(ds[j], anchors[j]) else ds[j]
  {
    seq(|ds|, j requires 0 <= j < |ds| => if j in ks then Cleared(ds[j], anchors[j]) else ds[j])
  }

  /** The displays `ds` after the validator registered under `f` has run on values `vals`. */
  ghost function AfterValidator(ds: seq<FieldDisplay>, anchors: seq<Anchor>, f: FieldName, vals: FormValues): (r: seq<FieldDisplay>)
    requires |ds| == |Order| && |anchors| == |Order|
    ensures |r| == |Order|
  {
    var k := FieldIndex(f);
    ds[k := Apply(ds[k], anchors[k], VerdictOf(f, vals))]
  }

  /**
   * After a failing submit, the fields before the first failure show no
   * error, the first failing field shows its message, and every field after
   * it keeps the display it had.
   */
  lemma FailedSubmitDisplays(ds: seq<FieldDisplay>, anchors: seq<Anchor>, vs: seq<Verdict>, n: nat)
    requires |anchors| == |ds| && |vs| == |ds| && !AllPass(vs) && n == Evaluated(vs)
    requires forall j :: 0 <= j < |ds| ==> WellFormed(ds[j], anchors[j])
    ensures 0 < n <= |ds| && vs[n - 1].Fail?
    ensures forall j :: 0 <= j < n - 1 ==>
      ApplyFirst(ds, anchors, vs, n)[j] == Cleared(ds[j], anchors[j]) && Blank(ApplyFirst(ds, anchors, vs, n)[j])
    ensures ApplyFirst(ds, anchors, vs, n)[n - 1] == Shown(ds[n - 1], anchors[n - 1], Message(vs[n - 1].kind))
    ensures forall j :: n <= j < |ds| ==> ApplyFirst(ds, anchors, vs, n)[j] == ds[j]
  {
    var r := ApplyFirst(ds, anchors, vs, n);
    forall j | 0 <= j < n - 1
      ensures r[j] == Cleared(ds[j], anchors[j]) && Blank(r[j])
    {
      assert vs[j] == Pass;
    }
  }

  /**
   * When every validator passed, each display was cleared, and clearing
   * everything again changes nothing more.
   */
  lemma AllPassedIsCleared(ds: seq<FieldDisplay>, anchors: seq<Anchor>, vs: seq<Verdict>)
    requires |ds| == |Order| && |anchors| == |Order| && |vs| == |Order| && AllPass(vs)
    ensures ApplyFirst(ds, anchors, vs, |Order|) == ClearedAt(ds, anchors, Positions)
    ensures ClearedAt(ClearedAt(ds, anchors, Positions), anchors, Positions) == ClearedAt(ds, anchors, Positions)
  {
    forall j | 0 <= j < |ds|
      ensures ClearedAt(ClearedAt(ds, anchors, Positions), anchors, Positions)[j] == ClearedAt(ds, anchors, Positions)[j]
    {
      ClearedIdempotent(ds[j], anchors[j]);
    }
  }

  /**
   * The controls and displays fit the page: six fields, every single control
   * present, the group's fieldset (when there is one) its own wrapper, one
   * `aria-invalid` flag per control, and nothing shown on an element that
   * does not exist.
   */
  ghost predicate Fits(anchors: seq<Anchor>, inputs: seq<Input>, displays: seq<FieldDisplay>) {
    && Shaped(inputs) && |anchors| == |Order| && |displays| == |Order|
    && (forall k :: 0 <= k < |Order| && k != QueryIndex ==>
          anchors[k].present && |displays[k].ariaInvalid| == 1)
    && anchors[QueryIndex].wrapper == anchors[QueryIndex].present
    && |displays[QueryIndex].ariaInvalid| == |inputs[QueryIndex].radios|
    && (forall k :: 0 <= k < |Order| ==> WellFormed(displays[k], anchors[k]))
  }

  /**
   * Handles are positive and `timerHandle` is the last one handed out; a
   * pending hide callback is always the one `timerHandle` names.
   */
  ghost predicate TimerInvariant(timerHandle: Option<nat>, pendingTimers: set<nat>, nextHandle: nat) {
    && 1 <= nextHandle
    && (timerHandle.Some? ==> 1 <= timerHandle.value < nextHandle)
    && (forall h :: h in pendingTimers ==> timerHandle == Some(h))
  }

  class Form {
    /** Which display elements each field has: fixed by the page. */
    const anchors: seq<Anchor>
    var inputs: seq<Input>
    var displays: seq<FieldDisplay>
    var toastHidden: bool
    /** `hideToastTimeoutId`: the handle of the last timer armed, never reset once set. */
    var timerHandle: Option<nat>
    /** The host's hide callbacks that are armed and have not fired or been cancelled. */
    var pendingTimers: set<nat>
    /** The handle the host's `setTimeout` returns next (always positive, hence truthy). */
    var nextHandle: nat

    /** The page's shape and the display and timer invariants together. */
    ghost predicate Valid()
      reads this
    {
      Fits(anchors, inputs, displays) && TimerInvariant(timerHandle, pendingTimers, nextHandle)
    }

    function Values(): FormValues
      reads this
      requires Shaped(inputs)
    {
      ValuesOf(inputs)
    }

    /** At most one hide timer is ever pending, and it is the one `hideToastTimeoutId` names. */
    lemma AtMostOnePending()
      requires Valid()
      ensures |pendingTimers| <= 1
      ensures pendingTimers != {} ==> pendingTimers == {timerHandle.value}
    {
      if pendingTimers != {} {
        var h :| h in pendingTimers;
        assert pendingTimers == {h};
      }
    }

    /**
     * The page as loaded: empty fields, no error shown, the toast hidden, no timer.
     * With fewer than two radios `form.elements.queryType` is not a list of them,
     * so the script's `queryRadios` would not hold the group.
     */
    constructor (anchors: seq<Anchor>, radioCount: nat)
      requires radioCount >= 2
      requires |anchors| == |Order| && anchors[QueryIndex].wrapper == anchors[QueryIndex].present
      requires forall k :: 0 <= k < |Order| && k != QueryIndex ==> anchors[k].present
      ensures Valid() && this.anchors == anchors
      ensures inputs == ResetInputs(radioCount)
      ensures forall k :: 0 <= k < |Order| ==> Blank(displays[k])
      ensures toastHidden && timerHandle == None && pendingTimers == {}
    {
      this.anchors := anchors;
      inputs := ResetInputs(radioCount);
      var blank := FieldDisplay(false, "", [false]);
      displays := [blank, blank, blank, blank, FieldDisplay(false, "", Flags(radioCount, false)), blank];
      toastHidden := true;
      timerHandle, pendingTimers, nextHandle := None, {}, 1;
    }

    /** `setErrorState(control, message)` on the single control at position `k`. */
    method SetErrorState(k: nat, message: string)
      requires Valid() && k < |Order| && k != QueryIndex
      modifies this`displays
      ensures Valid()
      ensures displays == old(displays)[k := Shown(old(displays[k]), anchors[k], message)]
    {
      var d := displays[k];
      if anchors[k].wrapper {
        d := d.(hasError := true);
      }
      if anchors[k].textElement {
        d := d.(text := message);
      }
      d := d.(ariaInvalid := [true]);
      assert Flags(1, true) == [true];
      displays := displays[k := d];
    }

    /** `clearErrorState(control)` on the single control at position `k`. */
    method ClearErrorState(k: nat)
      requires Valid() && k < |Order| && k != QueryIndex
      modifies this`displays
      ensures Valid()
      ensures displays == old(displays)[k := Cleared(old(displays[k]), anchors[k])]
    {
      var d := displays[k];
      if anchors[k].wrapper {
        d := d.(hasError := false);
      }
      if anchors[k].textElement {
        d := d.(text := "");
      }
      d := d.(ariaInvalid := [false]);
      assert Flags(1, false) == [false];
      displays := displays[k := d];
    }

    /**
     * `setQueryError(message)`: a non-empty message marks the fieldset, sets
     * the group's error text and marks every radio invalid, one at a time;
     * the empty message undoes all three. Without the fieldset, nothing.
     */
    method SetQueryError(message: string)
      requires Valid()
      modifies this`displays
      ensures Valid()
      ensures displays == old(displays)[QueryIndex :=
        if message != "" then Shown(old(displays[QueryIndex]), anchors[QueryIndex], message)
        else Cleared(old(displays[QueryIndex]), anchors[QueryIndex])]
    {
      if !anchors[QueryIndex].present {
        return;
      }
      var invalid := message != "";
      var d := displays[QueryIndex].(hasError := invalid);
      if anchors[QueryIndex].textElement {
        d := d.(text := message);
      }
      var flags := d.ariaInvalid;
      for i := 0 to |flags|
        invariant |flags| == |d.ariaInvalid|
        invariant forall j :: 0 <= j < i ==> flags[j] == invalid
      {
        flags := flags[i := invalid];
      }
      assert flags == Flags(|flags|, invalid);
      displays := displays[QueryIndex := d.(ariaInvalid := flags)];
    }

    /** `validateRequiredField(input)` on the text field `f` other than the email. */
    method ValidateRequiredField(f: FieldName) returns (ok: bool)
      requires Valid() && IsText(f) && f != Email
      modifies this`displays
      ensures Valid()
      ensures ok == (VerdictOf(f, Values()) == Pass)
      ensures displays == AfterValidator(old(displays), anchors, f, Values())
    {
      var k := FieldIndex(f);
      var value := Trim(inputs[k].value);
      if value == [] {
        SetErrorState(k, Message(Required));
        return false;
      }
      ClearErrorState(k);
      return true;
    }

    /** `validateEmailField()`. */
    method ValidateEmailField() returns (ok: bool)
      requires Valid()
      modifies this`displays
      ensures Valid()
      ensures ok == (VerdictOf(Email, Values()) == Pass)
      ensures displays == AfterValidator(old(displays), anchors, Email, Values())
    {
      var k := FieldIndex(Email);
      var value := Trim(inputs[k].value);
      if value == [] {
        SetErrorState(k, Message(Required));
        return false;
      }
      var matches := EmailPattern.Test(value);
      if !matches {
        SetErrorState(k, Message(EmailInvalid));
        return false;
      }
      ClearErrorState(k);
      return true;
    }

    /** `validateQueryGroup()`. */
    method ValidateQueryGroup() returns (ok: bool)
      requires Valid()
      modifies this`displays
      ensures Valid()
      ensures ok == (VerdictOf(QueryTypeField, Values()) == Pass)
      ensures displays == AfterValidator(old(displays), anchors, QueryTypeField, Values())
    {
      var hasSelection := AnyChecked(inputs[QueryIndex].radios);
      if !hasSelection {
        SetQueryError(Message(QueryType));
        return false;
      }
      SetQueryError("");
      return true;
    }

    /** `validateConsent()`. */
    method ValidateConsent() returns (ok: bool)
      requires Valid()
      modifies this`displays
      ensures Valid()
      ensures ok == (VerdictOf(ConsentField, Values()) == Pass)
      ensures displays == AfterValidator(old(displays), anchors, ConsentField, Values())
    {
      if !inputs[ConsentIndex].checked {
        SetErrorState(ConsentIndex, Message(Consent));
        return false;
      }
      ClearErrorState(ConsentIndex);
      return true;
    }

    /** `validators[f]()`: runs one entry of the table; only that field's display changes. */
    method RunValidator(f: FieldName) returns (ok: bool)
      requires Valid()
      modifies this`displays
      ensures Valid()
      ensures ok == (VerdictOf(f, Values()) == Pass)
      ensures displays == AfterValidator(old(displays), anchors, f, Values())
    {
      match f
      case FirstName => ok := ValidateRequiredField(FirstName);
      case LastName => ok := ValidateRequiredField(LastName);
      case Email => ok := ValidateEmailField();
      case MessageField => ok := ValidateRequiredField(MessageField);
      case QueryTypeField => ok := ValidateQueryGroup();
      case ConsentField => ok := ValidateConsent();
    }

    /** `clearAllValidation()`: clears the five single controls in table order, then the group. */
    method ClearAllValidation()
      requires Valid()
      modifies this`displays
      ensures Valid()
      ensures displays == ClearedAt(old(displays), anchors, Positions)
    {
      for k := 0 to |Order|
        invariant Valid()
        invariant |displays| == |Order|
        invariant forall j :: 0 <= j < |Order| ==>
          displays[j] == if j < k && j != QueryIndex then Cleared(old(displays)[j], anchors[j]) else old(displays)[j]
      {
        if k != QueryIndex {
          ClearErrorState(k);
        }
      }
      SetQueryError("");
    }

    /**
     * `Object.values(validators).every((validate) => validate())`: the
     * validators run in table order and `every` stops at the first that
     * fails, so only the fields up to and including that one have their
     * display updated.
     */
    method ValidateAll() returns (isValid: bool)
      requires Valid()
      modifies this`displays
      ensures Valid()
      ensures isValid == AllPass(Verdicts(Values()))
      ensures !isValid ==> displays == ApplyFirst(old(displays), anchors, Verdicts(Values()), Evaluated(Verdicts(Values())))
      ensures isValid ==> displays == ClearedAt(old(displays), anchors, Positions)
      ensures isValid ==> ClearedAt(displays, anchors, Positions) == ClearedAt(old(displays), anchors, Positions)
    {
      ghost var vs := Verdicts(Values());
      isValid := true;
      var i := 0;
      while isValid && i < |Order|
        invariant 0 <= i <= |Order|
        invariant Valid()
        invariant isValid ==> forall j :: 0 <= j < i ==> vs[j] == Pass
        invariant !isValid ==> 0 < i && vs[i - 1] != Pass && forall j :: 0 <= j < i - 1 ==> vs[j] == Pass
        invariant displays == ApplyFirst(old(displays), anchors, vs, i)
      {
        FieldIndexOfOrder(i);
        isValid := RunValidator(Order[i]);
        i := i + 1;
      }
      assert i == Evaluated(vs);
      if isValid {
        AllPassedIsCleared(old(displays), anchors, vs);
      }
    }

    /**
     * The submit handler. A failing submit hides the toast and changes
     * nothing else; a passing one resets and clears the form, shows the
     * toast and replaces any pending hide timer with a new one.
     */
    method Submit() returns (isValid: bool)
      requires Valid()
      modifies this
      ensures Valid()
      ensures isValid == AllPass(Verdicts(old(Values())))
      ensures !isValid ==>
        && inputs == old(inputs)
        && displays == ApplyFirst(old(displays), anchors, Verdicts(old(Values())),
                                  Evaluated(Verdicts(old(Values()))))
        && toastHidden
        && timerHandle == old(timerHandle) && pendingTimers == old(pendingTimers)
        && nextHandle == old(nextHandle)
      ensures isValid ==>
        && inputs == ResetInputs(|old(inputs)[QueryIndex].radios|)
        && displays == ClearedAt(old(displays), anchors, Positions)
        && !toastHidden
        && timerHandle == Some(old(nextHandle)) && pendingTimers == {old(nextHandle)}
        && nextHandle == old(nextHandle) + 1
    {
      isValid := ValidateAll();
      if !isValid {
        HideToast();
        return;
      }
      ShowSuccess();
    }

    /** `successToast.hidden = true`. */
    method HideToast()
      requires Valid()
      modifies this`toastHidden
      ensures Valid() && toastHidden
    {
      toastHidden := true;
    }

    /**
     * The passing branch of the submit handler: `form.reset()`,
     * `clearAllValidation()`, the toast shown, and the hide timer re-armed
     * (the pending one, if any, cancelled first).
     */
    method ShowSuccess()
      requires Valid()
      modifies this
      ensures Valid()
      ensures inputs == ResetInputs(|old(inputs)[QueryIndex].radios|)
      ensures displays == ClearedAt(old(displays), anchors, Positions)
      ensures !toastHidden
      ensures timerHandle == Some(old(nextHandle)) && pendingTimers == {old(nextHandle)}
      ensures nextHandle == old(nextHandle) + 1
    {
      inputs := ResetInputs(|inputs[QueryIndex].radios|);
      ClearAllValidation();
      toastHidden := false;
      if timerHandle.Some? {
        pendingTimers := pendingTimers - {timerHandle.value};
      }
      timerHandle := Some(nextHandle);
      pendingTimers := pendingTimers + {nextHandle};
      nextHandle := nextHandle + 1;
    }

    /** The hide timer `h` fires: the toast is hidden. */
    method TimerFires(h: nat)
      requires Valid() && h in pendingTimers
      modifies this`toastHidden, this`pendingTimers
      ensures Valid()
      ensures toastHidden && pendingTimers == {}
    {
      AtMostOnePending();
      toastHidden := true;
      pendingTimers := pendingTimers - {h};
    }

    /**
     * An `input` event on text field `f` with new value `v`: the field is
     * re-validated only while its wrapper shows `has-error`.
     */
    method Input(f: FieldName, v: string)
      requires Valid() && IsText(f)
      modifies this`inputs, this`displays
      ensures Valid()
      ensures Values() == WithText(old(Values()), f, v)
      ensures displays ==
        if old(displays)[FieldIndex(f)].hasError then AfterValidator(old(displays), anchors, f, Values())
        else old(displays)
    {
      var k := FieldIndex(f);
      inputs := inputs[k := TextLike(v)];
      if anchors[k].wrapper && displays[k].hasError {
        var _ := RunValidator(f);
      }
    }

    /** A `blur` event on text field `f` runs its validator. */
    method Blur(f: FieldName)
      requires Valid() && IsText(f)
      modifies this`displays
      ensures Valid()
      ensures displays == AfterValidator(old(displays), anchors, f, Values())
    {
      var _ := RunValidator(f);
    }

    /** Focusing any radio clears the group's error, whatever is selected. */
    method RadioFocus()
      requires Valid()
      modifies this`displays
      ensures Valid()
      ensures displays == ClearedAt(old(displays), anchors, {QueryIndex})
    {
      SetQueryError("");
    }

    /**
     * Selecting radio `i`, which was not checked (the browser fires no
     * `change` for a click on the checked one): the browser checks it and
     * unchecks the rest of the group, then `change` validates the group,
     * which now passes.
     */
    method RadioChange(i: nat)
      requires Valid() && i < |inputs[QueryIndex].radios| && !inputs[QueryIndex].radios[i]
      modifies this`inputs, this`displays
      ensures Valid()
      ensures Values() == old(Values()).(queryType := seq(|old(inputs)[QueryIndex].radios|, k => k == i))
      ensures displays == ClearedAt(old(displays), anchors, {QueryIndex})
    {
      var radios := inputs[QueryIndex].radios;
      for k := 0 to |radios|
        invariant |radios| == |inputs[QueryIndex].radios|
        invariant forall j :: 0 <= j < k ==> radios[j] == (j == i)
      {
        radios := radios[k := k == i];
      }
      inputs := inputs[QueryIndex := RadioGroup(radios)];
      assert radios[i];
      var _ := RunValidator(QueryTypeField);
    }

    /** Toggling the consent checkbox to `checked` fires `change`, which validates it. */
    method ConsentChange(checked: bool)
      requires Valid() && checked != inputs[ConsentIndex].checked
      modifies this`inputs, this`displays
      ensures Valid()
      ensures Values() == old(Values()).(consent := checked)
      ensures displays == AfterValidator(old(displays), anchors, ConsentField, Values())
    {
      inputs := inputs[ConsentIndex := Checkbox(checked)];
      var _ := RunValidator(ConsentField);
    }
  }
}
