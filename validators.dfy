/**
 * What each validator of the contact form decides, as a pure function of the
 * control values it reads: the four fields' pass/fail verdicts, the messages
 * they show, and the order in which the submit handler runs them.
 */
module Validators {
  import opened Text
  import opened EmailPattern

  /** The keys of the `errorText` catalogue. */
  datatype ErrorKind = Required | EmailInvalid | QueryType | Consent

  /** The text shown for each kind of error. */
  function Message(k: ErrorKind): (m: string)
    ensures m != ""
  {
    match k
    case Required => "This field is required"
    case EmailInvalid => "Please enter a valid email address"
    case QueryType => "Please select a query type"
    case Consent => "To submit this form, please consent to being contacted"
  }

  lemma MessagesDistinct(k1: ErrorKind, k2: ErrorKind)
    ensures Message(k1) == Message(k2) ==> k1 == k2
  {
    if k1 != k2 {
      assert Message(k1)[..6] != Message(k2)[..6] || Message(k1)[..9] != Message(k2)[..9]
        || |Message(k1)| != |Message(k2)|;
    }
  }

  /** A validator either passes (and clears the field's error) or fails with one kind of error. */
  datatype Verdict = Pass | Fail(kind: ErrorKind)

  /** `validateRequiredField`: fails with `required` when the trimmed value is empty. */
  function RequiredVerdict(value: string): (v: Verdict)
    ensures v == Pass <==> !AllSpace(value)
    ensures v == Pass || v == Fail(Required)
  {
    BlankIffAllSpace(value);
    if Trim(value) == [] then Fail(Required) else Pass
  }

  /**
   * `validateEmailField`: fails with `required` when the trimmed value is
   * empty, else with `emailInvalid` when the trimmed value does not have the
   * email shape, else passes.
   */
  ghost function EmailVerdict(value: string): (v: Verdict)
    ensures v == Fail(Required) <==> AllSpace(value)
    ensures v == Fail(EmailInvalid) <==> !AllSpace(value) && !PlainShape(Trim(value))
    ensures v == Pass <==> PlainShape(Trim(value))
  {
    BlankIffAllSpace(value);
    PatternIffPlainShape(Trim(value));
    if Trim(value) == [] then Fail(Required)
    else if !MatchesPattern(Trim(value)) then Fail(EmailInvalid)
    else Pass
  }

  /** `radios.some((radio) => radio.checked)`, scanning from the first radio. */
  function AnyChecked(checked: seq<bool>): (r: bool)
    ensures r <==> exists i :: 0 <= i < |checked| && checked[i]
  {
    if checked == [] then false
    else if checked[0] then true
    else
      var r := AnyChecked(checked[1..]);
      assert forall i :: 1 <= i < |checked| ==> checked[i] == checked[1..][i - 1];
      r
  }

  /** `validateQueryGroup`: passes exactly when some radio of the group is checked. */
  function QueryVerdict(checked: seq<bool>): (v: Verdict)
    ensures v == Pass <==> exists i :: 0 <= i < |checked| && checked[i]
    ensures v == Pass || v == Fail(QueryType)
  {
    if AnyChecked(checked) then Pass else Fail(QueryType)
  }

  /** `validateConsent`: passes exactly when the checkbox is checked. */
  function ConsentVerdict(checked: bool): (v: Verdict)
    ensures v == Pass <==> checked
    ensures v == Pass || v == Fail(Consent)
  {
    if checked then Pass else Fail(Consent)
  }

  /** The six entries of the `validators` table. */
  datatype FieldName = FirstName | LastName | Email | MessageField | QueryTypeField | ConsentField

  /** The single-value text controls: the ones with blur and input listeners. */
  predicate IsText(f: FieldName) {
    f == FirstName || f == LastName || f == Email || f == MessageField
  }

  /** The table's insertion order, which is the order `Object.values` yields. */
  const Order: seq<FieldName> := [FirstName, LastName, Email, MessageField, QueryTypeField, ConsentField]

  lemma OrderListsEachFieldOnce(f: FieldName)
    ensures exists i :: 0 <= i < |Order| && Order[i] == f
    ensures forall i, j :: 0 <= i < j < |Order| ==> Order[i] != Order[j]
  {
    match f
    case FirstName => assert Order[0] == f;
    case LastName => assert Order[1] == f;
    case Email => assert Order[2] == f;
    case MessageField => assert Order[3] == f;
    case QueryTypeField => assert Order[4] == f;
    case ConsentField => assert Order[5] == f;
  }

  /** What the validators read: the values and checked flags of the form's controls. */
  datatype FormValues = FormValues(
    firstName: string, lastName: string, email: string, message: string,
    queryType: seq<bool>, consent: bool)

  /** The verdict of the validator registered under `f`, on the current values. */
  ghost function VerdictOf(f: FieldName, v: FormValues): (r: Verdict)
    ensures r.Fail? && IsText(f) && f != Email ==> r.kind == Required
    ensures r.Fail? && f == Email ==> r.kind == Required || r.kind == EmailInvalid
    ensures r.Fail? && f == QueryTypeField ==> r.kind == QueryType
    ensures r.Fail? && f == ConsentField ==> r.kind == Consent
  {
    match f
    case FirstName => RequiredVerdict(v.firstName)
    case LastName => RequiredVerdict(v.lastName)
    case Email => EmailVerdict(v.email)
    case MessageField => RequiredVerdict(v.message)
    case QueryTypeField => QueryVerdict(v.queryType)
    case ConsentField => ConsentVerdict(v.consent)
  }

  /**
   * What each entry of the table accepts: a required text field anything but
   * whitespace, the email field a trimmed value of the email shape, the
   * group a selection, the checkbox a tick. A failing required field always
   * reports `required`.
   */
  lemma VerdictOfCases(f: FieldName, v: FormValues)
    ensures f == FirstName ==> (VerdictOf(f, v) == Pass <==> !AllSpace(v.firstName))
    ensures f == LastName ==> (VerdictOf(f, v) == Pass <==> !AllSpace(v.lastName))
    ensures f == MessageField ==> (VerdictOf(f, v) == Pass <==> !AllSpace(v.message))
    ensures IsText(f) && f != Email && VerdictOf(f, v).Fail? ==> VerdictOf(f, v).kind == Required
    ensures f == Email ==> (VerdictOf(f, v) == Pass <==> PlainShape(Trim(v.email)))
    ensures f == QueryTypeField ==> (VerdictOf(f, v) == Pass <==> exists i :: 0 <= i < |v.queryType| && v.queryType[i])
    ensures f == ConsentField ==> (VerdictOf(f, v) == Pass <==> v.consent)
  {
  }

  /** The six verdicts in submit order. */
  ghost function Verdicts(v: FormValues): (vs: seq<Verdict>)
    ensures |vs| == |Order|
    ensures forall i :: 0 <= i < |Order| ==> vs[i] == VerdictOf(Order[i], v)
  {
    seq(|Order|, i requires 0 <= i < |Order| => VerdictOf(Order[i], v))
  }

  predicate AllPass(vs: seq<Verdict>) {
    forall i :: 0 <= i < |vs| ==> vs[i] == Pass
  }

  /**
   * How many validators `every` calls: all of them when all pass, otherwise
   * those up to and including the first that fails.
   */
  function Evaluated(vs: seq<Verdict>): (n: nat)
    ensures n <= |vs|
    ensures forall i :: 0 <= i < n - 1 ==> vs[i] == Pass
    ensures AllPass(vs) <==> n == |vs| && (n == 0 || vs[n - 1] == Pass)
    ensures !AllPass(vs) ==> 0 < n && vs[n - 1] != Pass
  {
    if vs == [] then 0
    else if vs[0] != Pass then 1
    else
      var n := 1 + Evaluated(vs[1..]);
      assert forall i :: 1 <= i < |vs| ==> vs[i] == vs[1..][i - 1];
      n
  }

  /** The submit handler's `isValid` is the conjunction of all six verdicts. */
  lemma AllPassIffEveryField(v: FormValues)
    ensures AllPass(Verdicts(v)) <==> forall f :: VerdictOf(f, v) == Pass
  {
    var vs := Verdicts(v);
    if AllPass(vs) {
      forall f ensures VerdictOf(f, v) == Pass {
        OrderListsEachFieldOnce(f);
        var i :| 0 <= i < |Order| && Order[i] == f;
        assert vs[i] == Pass;
      }
    }
  }

  /** A form with every field blank fails at the first name, so only that field's validator runs. */
  lemma BlankFormStopsAtFirstName()
    ensures Evaluated(Verdicts(FormValues("", "", "", "", [], false))) == 1
    ensures VerdictOf(FirstName, FormValues("", "", "", "", [], false)) == Fail(Required)
  {
    var v := FormValues("", "", "", "", [], false);
    assert Verdicts(v)[0] == Fail(Required);
  }

  /** Whitespace around a value never changes the required-field verdict. */
  lemma RequiredIgnoresPadding(p: string, s: string, q: string)
    requires AllSpace(p) && AllSpace(q)
    ensures RequiredVerdict(p + s + q) == RequiredVerdict(s)
  {
    TrimIgnoresPadding(p, s, q);
  }

  /** Whitespace around a value never changes the email verdict. */
  lemma EmailIgnoresPadding(p: string, s: string, q: string)
    requires AllSpace(p) && AllSpace(q)
    ensures EmailVerdict(p + s + q) == EmailVerdict(s)
  {
    TrimIgnoresPadding(p, s, q);
  }

  /**
   * For a value with no whitespace at either end, the email verdict is
   * `Pass` exactly when the pattern matches, and `emailInvalid` otherwise.
   */
  lemma EmailVerdictOfUnpadded(s: string)
    requires s != [] && !IsSpace(s[0]) && !IsSpace(s[|s| - 1])
    ensures EmailVerdict(s) == if MatchesPattern(s) then Pass else Fail(EmailInvalid)
  {
    TrimUnpadded(s);
    PatternIffPlainShape(s);
  }

  /** The trimmed value is checked, so whitespace around a valid address (`a@b.c`) is accepted. */
  lemma EmailAcceptsPaddedAddress(p: string, x: char, y: char, z: char, q: string)
    requires AllSpace(p) && AllSpace(q)
    requires Plain(x) && Plain(y) && Plain(z)
    ensures EmailVerdict(p + [x, '@', y, '.', z] + q) == Pass
  {
    var s := [x, '@', y, '.', z];
    EmailVerdictOfUnpadded(s);
    PatternAcceptsAddress(x, y, z);
    EmailIgnoresPadding(p, s, q);
  }

  /** A whitespace-only value fails as `required`, before the pattern is tried. */
  lemma EmailRejectsBlank(p: string)
    requires AllSpace(p)
    ensures EmailVerdict(p) == Fail(Required)
  {
  }

  /** `a@b` is rejected as `emailInvalid`. */
  lemma EmailRejectsNoDot(x: char, y: char)
    requires Plain(x) && Plain(y)
    ensures EmailVerdict([x, '@', y]) == Fail(EmailInvalid)
  {
    EmailVerdictOfUnpadded([x, '@', y]);
    PatternRejectsNoDot(x, y);
  }
}
