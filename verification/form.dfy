/** The pizza order form as a state machine.

    The state holds the edited values, the snapshot of the last successful
    order, the error map, the touched fields, the submission status and the
    validity flag. Every handler is a pure function from the old state to
    the new one. Validation, which the component runs as an effect after
    each change of values, is applied synchronously by `Revalidate` at the
    end of every handler that changes the values.
 */
module OrderForm {
  import opened Schema
  import Toppings
  import Decimal
  import Utf16

  datatype Option<T> = None | Some(value: T)

  /** The submission status: no attempt yet, the last attempt succeeded, or it failed. */
  datatype Status = NotSubmitted | Succeeded | Failed

  datatype FormState = FormState(
    values: FormValues,
    submitted: FormValues,
    errors: ErrorMap,
    touched: set<Field>,
    status: Status,
    isValid: bool)

  /** The values of a blank form. */
  const EmptyValues: FormValues := FormValues("", "", [])

  /** Every field of the form. */
  const AllFields: set<Field> := {FullName, Size, Toppings}

  /** The state as first rendered, before validation has run once: its error map does not yet
      describe the blank values, but the submit control is already disabled and no error shows. */
  function Mounted(): (s: FormState)
    ensures s.values == EmptyValues && s.errors == map[] && s.touched == {}
    ensures Banner(s) == None
    ensures !Settled(s)
    ensures SubmitDisabled(s)
    ensures forall f :: ShownError(s, f) == None
  {
    FormState(EmptyValues, EmptyValues, map[], {}, NotSubmitted, false)
  }

  /** True if the error map and the validity flag describe the current values. */
  predicate Settled(s: FormState) {
    s.errors == Validate(s.values) && (s.isValid <==> Valid(s.values))
  }

  /** The validation effect: on acceptance it clears the errors and sets the form valid, on
      rejection it folds the reported issues into the error map and sets the form invalid. */
  function Revalidate(s: FormState): (r: FormState)
    ensures Settled(r)
    ensures r.isValid <==> r.errors == map[]
    ensures r.values == s.values && r.submitted == s.submitted
    ensures r.touched == s.touched && r.status == s.status
  {
    ValidIff(s.values);
    match Check(s.values)
    case Passed => s.(errors := map[], isValid := true)
    case Rejected(inner) => s.(errors := Collect(inner), isValid := false)
  }

  /** The state once the first validation has run. */
  function Initial(): FormState {
    Revalidate(Mounted())
  }

  /** The blank form is invalid, both before and after its first validation; both required
      fields have an error, and none is shown. */
  lemma InitialIsInvalid()
    ensures !Mounted().isValid && !Initial().isValid
    ensures SubmitDisabled(Mounted()) && SubmitDisabled(Initial())
    ensures FullName in Initial().errors && Size in Initial().errors
    ensures forall f :: ShownError(Initial(), f) == None
  {
  }

  /** The fields a text input or a select can be named. */
  type EditableField = f: Field | f != Toppings witness FullName

  /** An input change: a text input or select overwriting a named field, or a topping checkbox. */
  datatype Change = Edit(name: EditableField, value: string) | Checkbox(value: string)

  /** The value of an editable field. */
  function Get(v: FormValues, f: EditableField): string {
    if f == FullName then v.fullName else v.size
  }

  /** The change handler. */
  function HandleChange(s: FormState, c: Change): (r: FormState)
    ensures Settled(r)
    ensures r.submitted == s.submitted && r.touched == s.touched && r.status == s.status
    ensures c.Edit? ==> Get(r.values, c.name) == c.value
    ensures c.Edit? ==> forall f: EditableField :: f != c.name ==> Get(r.values, f) == Get(s.values, f)
    ensures c.Edit? ==> r.values.toppings == s.values.toppings
    ensures c.Checkbox? ==> r.values.fullName == s.values.fullName && r.values.size == s.values.size
    ensures c.Checkbox? ==> (c.value in r.values.toppings <==> c.value !in s.values.toppings)
    ensures c.Checkbox? ==> Toppings.Without(r.values.toppings, c.value) == Toppings.Without(s.values.toppings, c.value)
  {
    var v := s.values;
    var v' := match c
      case Checkbox(t) => v.(toppings := Toppings.Toggle(v.toppings, t))
      case Edit(name, x) => if name == FullName then v.(fullName := x) else v.(size := x);
    Revalidate(s.(values := v'))
  }

  /** The blur handler: marks the field as touched. */
  function HandleBlur(s: FormState, f: Field): (r: FormState)
    ensures forall g :: g in r.touched <==> g == f || g in s.touched
    ensures r.values == s.values && r.submitted == s.submitted && r.status == s.status
    ensures r.errors == s.errors && r.isValid == s.isValid
  {
    s.(touched := s.touched + {f})
  }

  /** The message displayed under a field, if any. Only the full name and the size have an
      error line, and it shows the stored message when the field is touched and the message
      is not empty. */
  function ShownError(s: FormState, f: Field): (shown: Option<string>)
    ensures shown.Some? <==> f in s.touched && f in s.errors && f != Toppings
    ensures Settled(s) ==> (shown.Some? <==> f in s.touched && f in s.errors)
    ensures shown.Some? ==> shown.value == Text(s.errors[f])
  {
    if f != Toppings && f in s.touched && f in s.errors && Text(s.errors[f]) != "" then Some(Text(s.errors[f]))
    else None
  }

  /** True if the submit control is disabled. On a settled form that is exactly when some
      field has an error. */
  function SubmitDisabled(s: FormState): (disabled: bool)
    ensures Settled(s) ==> (disabled <==> s.errors != map[])
  {
    ValidIff(s.values);
    !s.isValid
  }

  /** On a settled form the submit control is disabled exactly when some field has an error,
      that is, when the name is not 3 to 20 code units long or the size is not S, M or L. */
  lemma SubmitGate(s: FormState)
    requires Settled(s)
    ensures SubmitDisabled(s) <==> s.errors != map[]
    ensures SubmitDisabled(s) <==>
      !(MinNameLength <= Utf16.Length(s.values.fullName) <= MaxNameLength && s.values.size in Sizes)
  {
    ValidIff(s.values);
  }

  /** The submit handler. A valid form records the order, goes back to blank and forgets what
      was touched; an invalid one fails and marks every field touched, keeping the values. */
  function HandleSubmit(s: FormState): (r: FormState)
    ensures r.status == Succeeded <==> Valid(s.values)
    ensures r.status == Failed <==> !Valid(s.values)
    ensures Valid(s.values) ==> r.submitted == s.values && r.values == EmptyValues && r.touched == {}
    ensures Valid(s.values) ==> Settled(r) && !r.isValid
    ensures !Valid(s.values) ==> r.values == s.values && r.submitted == s.submitted
    ensures !Valid(s.values) ==> r.touched == AllFields && r.errors == s.errors && r.isValid == s.isValid
  {
    match Check(s.values)
    case Passed =>
      InitialIsInvalid();
      Revalidate(s.(status := Succeeded, submitted := s.values, values := EmptyValues, touched := {}))
    case Rejected(_) =>
      s.(status := Failed, touched := AllFields)
  }

  /** Submitting succeeds exactly when the submit control is enabled. */
  lemma SubmitAgreesWithGate(s: FormState)
    requires Settled(s)
    ensures HandleSubmit(s).status == Succeeded <==> !SubmitDisabled(s)
  {
  }

  /** After a failed submit every field with an error shows it. */
  lemma FailedSubmitShowsErrors(s: FormState, f: Field)
    requires Settled(s)
    requires !Valid(s.values)
    ensures ShownError(HandleSubmit(s), f).Some? <==> f in s.errors
  {
  }

  /** After a blur the blurred field shows its error if it has one; other fields are as before. */
  lemma BlurShowsError(s: FormState, f: Field, g: Field)
    requires Settled(s)
    ensures ShownError(HandleBlur(s, f), f).Some? <==> f in s.errors
    ensures g != f ==> ShownError(HandleBlur(s, f), g) == ShownError(s, g)
  {
  }

  /** The word the banner uses for a size letter. */
  function SizeWord(size: string): (w: string)
    ensures w in {"small", "medium", "large"}
    ensures w == "large" <==> size == "L"
    ensures w == "medium" <==> size == "M"
  {
    if size == "L" then "large" else if size == "M" then "medium" else "small"
  }

  /** The end of the banner, which reports the number of toppings: "no" for none, otherwise
      the count in decimal. */
  function ToppingsPhrase(count: nat): (p: string)
    ensures |p| >= 17
    ensures p[..6] == " with " && p[|p| - 10..] == " toppings."
    ensures count == 0 <==> p == " with no toppings."
    ensures count > 0 ==> p[6..|p| - 10] == Decimal.FromNat(count)
  {
    if count == 0 then " with no toppings."
    else
      var p := " with " + Decimal.FromNat(count) + " toppings.";
      assert p[6..|p| - 10] == Decimal.FromNat(count);
      assert !Decimal.IsDigit(" with no toppings."[6]) && Decimal.IsDigit(p[6]);
      p
  }

  /** For a non-zero count the text between " with " and " toppings." starts with a non-zero
      digit, holds only digits and reads back as the count. */
  lemma ToppingsPhraseReadsBack(count: nat)
    requires count > 0
    ensures var p := ToppingsPhrase(count);
      && '1' <= p[6] <= '9'
      && Decimal.AllDigits(p[6..|p| - 10])
      && Decimal.ToNat(p[6..|p| - 10]) == count
  {
    var p, digits := ToppingsPhrase(count), Decimal.FromNat(count);
    Decimal.ToNatFromNat(count);
    assert p[6..|p| - 10] == digits;
    assert p[6] == digits[0] && '0' <= digits[0] <= '9' && digits[0] != '0';
  }

  /** Different counts give different endings. */
  lemma ToppingsPhraseInjective(a: nat, b: nat)
    requires ToppingsPhrase(a) == ToppingsPhrase(b)
    ensures a == b
  {
    if a > 0 && b > 0 {
      Decimal.FromNatInjective(a, b);
    }
  }

  const Greeting: string := "Thank you for your order, "

  /** The part of the banner after the customer's name: the size word from position 7 on,
      and the topping count at the end. */
  function OrderSummary(order: FormValues): (t: string)
    ensures |t| > 7 + |SizeWord(order.size)| + 6
    ensures t[7..7 + |SizeWord(order.size)|] == SizeWord(order.size)
    ensures t[7 + |SizeWord(order.size)| + 6..] == ToppingsPhrase(|order.toppings|)
  {
    "! Your " + SizeWord(order.size) + " pizza" + ToppingsPhrase(|order.toppings|)
  }

  /** The success banner for an order: the greeting, then the name, then the summary. */
  function SuccessText(order: FormValues): (t: string)
    ensures |t| > |Greeting| + |order.fullName|
    ensures t[..|Greeting|] == Greeting
    ensures t[|Greeting|..|Greeting| + |order.fullName|] == order.fullName
    ensures t[|Greeting| + |order.fullName|..] == OrderSummary(order)
  {
    Greeting + order.fullName + OrderSummary(order)
  }

  /** The banner reports the order faithfully: from the text and the length of the name one
      recovers the name, the size word and the number of toppings. */
  lemma SuccessTextDetermines(a: FormValues, b: FormValues)
    requires SuccessText(a) == SuccessText(b)
    requires |a.fullName| == |b.fullName|
    ensures a.fullName == b.fullName
    ensures SizeWord(a.size) == SizeWord(b.size)
    ensures |a.toppings| == |b.toppings|
  {
    var ta, tb := SuccessText(a), SuccessText(b);
    var k := |Greeting| + |a.fullName|;
    var sa, sb := OrderSummary(a), OrderSummary(b);
    assert sa == ta[k..] && sb == tb[k..];
    var wa, wb := SizeWord(a.size), SizeWord(b.size);
    assert sa[7] == wa[0] && sb[7] == wb[0];
    ToppingsPhraseInjective(|a.toppings|, |b.toppings|);
  }

  const FailureText: string := "Something went wrong"

  /** The status banner shown above the inputs. */
  function Banner(s: FormState): (b: Option<string>)
    ensures b.Some? <==> s.status != NotSubmitted
    ensures s.status == Succeeded ==> b == Some(SuccessText(s.submitted))
    ensures s.status == Failed ==> b == Some(FailureText)
  {
    match s.status
    case NotSubmitted => None
    case Succeeded => Some(SuccessText(s.submitted))
    case Failed => Some(FailureText)
  }
}
