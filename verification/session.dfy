/** Sessions of user interaction with the order form.

    A session is a sequence of events the page can produce, handled one at a
    time to completion. The checkboxes carry only catalog values, so the
    chosen toppings stay a duplicate-free selection from the catalog, and a
    recorded order always satisfies the schema.
 */
module Session {
  import opened Schema
  import opened OrderForm
  import Toppings
  import Utf16
  import Decimal

  datatype Event = Changed(change: Change) | Blurred(field: Field) | Submitted

  /** True if the page can produce `e`: a topping checkbox carries a catalog value. */
  predicate FromPage(e: Event) {
    e.Changed? && e.change.Checkbox? ==> e.change.value in Toppings.CatalogTexts()
  }

  /** Handles one event. Every event keeps a settled form settled; only a submit changes the
      status or the recorded order, and a blur changes neither the values nor the errors. */
  function Step(s: FormState, e: Event): (r: FormState)
    ensures Settled(s) ==> Settled(r)
    ensures !e.Submitted? ==> r.status == s.status && r.submitted == s.submitted
    ensures e.Blurred? ==> r.values == s.values && r.errors == s.errors
  {
    match e
    case Changed(c) => HandleChange(s, c)
    case Blurred(f) => HandleBlur(s, f)
    case Submitted => HandleSubmit(s)
  }

  /** A duplicate-free list of catalog toppings. */
  predicate Selection(l: seq<string>) {
    Toppings.NoDuplicates(l) && Toppings.AllIn(l, Toppings.CatalogTexts())
  }

  /** What every state reachable through page events satisfies. */
  predicate Invariant(s: FormState) {
    && Settled(s)
    && Selection(s.values.toppings)
    && Selection(s.submitted.toppings)
    && (s.status == Succeeded ==> Valid(s.submitted))
  }

  lemma InitialInvariant()
    ensures Invariant(Initial())
  {
  }

  /** Every page event keeps the invariant. */
  lemma StepKeepsInvariant(s: FormState, e: Event)
    requires Invariant(s)
    requires FromPage(e)
    ensures Invariant(Step(s, e))
  {
    match e
    case Changed(Checkbox(t)) =>
      Toppings.ToggleKeepsNoDuplicates(s.values.toppings, t);
      Toppings.ToggleStaysInCatalog(s.values.toppings, t);
    case Changed(Edit(_, _)) =>
    case Blurred(_) =>
    case Submitted =>
  }

  /** A state satisfying the invariant records only orders with a valid name and size and at
      most one of each catalog topping. */
  lemma RecordedOrderIsValid(s: FormState)
    ensures Invariant(s) && s.status == Succeeded ==>
      && MinNameLength <= Utf16.Length(s.submitted.fullName) <= MaxNameLength
      && s.submitted.size in Sizes
      && |s.submitted.toppings| <= |Toppings.Catalog|
  {
    if Invariant(s) && s.status == Succeeded {
      ValidIff(s.submitted);
      Toppings.ChoiceBound(s.submitted.toppings);
    }
  }

  /** The state reached from `s` by handling `events` in order. */
  function Run(s: FormState, events: seq<Event>): FormState
    decreases |events|
  {
    if |events| == 0 then s
    else Step(Run(s, events[..|events| - 1]), events[|events| - 1])
  }

  /** Every session of page events from the validated blank form keeps the invariant. */
  lemma {:induction false} RunKeepsInvariant(events: seq<Event>)
    requires forall i :: 0 <= i < |events| ==> FromPage(events[i])
    ensures Invariant(Run(Initial(), events))
    decreases |events|
  {
    if |events| == 0 {
      InitialInvariant();
    } else {
      var init := events[..|events| - 1];
      RunKeepsInvariant(init);
      StepKeepsInvariant(Run(Initial(), init), events[|events| - 1]);
    }
  }

  /** Handles the events of a session in order, starting from the validated blank form. The
      resulting state is settled, holds duplicate-free catalog selections, and a recorded
      order has a valid name and size and at most one of each catalog topping. */
  method Replay(events: seq<Event>) returns (s: FormState)
    requires forall i :: 0 <= i < |events| ==> FromPage(events[i])
    ensures Settled(s)
    ensures Selection(s.values.toppings) && Selection(s.submitted.toppings)
    ensures s.status == Succeeded ==>
      && MinNameLength <= Utf16.Length(s.submitted.fullName) <= MaxNameLength
      && s.submitted.size in Sizes
      && |s.submitted.toppings| <= |Toppings.Catalog|
  {
    s := Initial();
    var i := 0;
    while i < |events|
      invariant 0 <= i <= |events|
      invariant s == Run(Initial(), events[..i])
    {
      assert events[..i + 1][..i] == events[..i];
      assert Run(Initial(), events[..i + 1]) == Step(s, events[i]);
      s := Step(s, events[i]);
      i := i + 1;
    }
    assert events[..i] == events;
    RunKeepsInvariant(events);
    assert Invariant(s);
    RecordedOrderIsValid(s);
  }

  /** A form after typing the name "Al" and choosing the medium size. */
  function AlMedium(s0: FormState): FormState {
    Step(Step(s0, Changed(Edit(FullName, "Al"))), Changed(Edit(Size, "M")))
  }

  lemma AlMediumState(s0: FormState)
    requires s0.values == EmptyValues && s0.touched == {}
    ensures AlMedium(s0).values.fullName == "Al" && AlMedium(s0).values.size == "M"
    ensures AlMedium(s0).touched == {}
    ensures Settled(AlMedium(s0))
  {
    var s1 := Step(s0, Changed(Edit(FullName, "Al")));
    assert Get(s1.values, Size) == "";
  }

  /** On a blank, untouched form a two-letter name fails on submit; its error is hidden until
      the submit touches it. */
  lemma ShortNameScenario(s0: FormState)
    requires s0.values == EmptyValues && s0.touched == {}
    ensures ShownError(AlMedium(s0), FullName) == None
    ensures SubmitDisabled(AlMedium(s0))
    ensures var r := Step(AlMedium(s0), Submitted);
      && r.status == Failed
      && Banner(r) == Some(FailureText)
      && ShownError(r, FullName) == Some(Text(FullNameTooShort))
      && ShownError(r, Size) == None
  {
    var s := AlMedium(s0);
    AlMediumState(s0);
    assert Utf16.InBmp("Al");
    assert Utf16.Length(s.values.fullName) == 2;
    ValidIff(s.values);
  }

  /** A form after typing the name "Alice" and choosing the large size. */
  function AliceLarge(s0: FormState): FormState {
    Step(Step(s0, Changed(Edit(FullName, "Alice"))), Changed(Edit(Size, "L")))
  }

  /** That form after ticking Pepperoni and then Ham. */
  function AliceOrder(s0: FormState): FormState {
    Step(Step(AliceLarge(s0), Changed(Checkbox("Pepperoni"))), Changed(Checkbox("Ham")))
  }

  lemma AliceLargeValues(s0: FormState)
    requires s0.values == EmptyValues
    ensures AliceLarge(s0).values == FormValues("Alice", "L", [])
  {
    var s1 := Step(s0, Changed(Edit(FullName, "Alice")));
    assert Get(s1.values, Size) == "" && s1.values.toppings == [];
  }

  lemma AliceOrderValues(s0: FormState)
    requires s0.values == EmptyValues
    ensures AliceOrder(s0).values == FormValues("Alice", "L", ["Pepperoni", "Ham"])
    ensures Settled(AliceOrder(s0))
  {
    AliceLargeValues(s0);
    var s3 := Step(AliceLarge(s0), Changed(Checkbox("Pepperoni")));
    assert s3.values.toppings == ["Pepperoni"];
    assert "Ham" !in s3.values.toppings;
  }

  lemma TwoToppingsPhrase()
    ensures ToppingsPhrase(2) == " with 2 toppings."
  {
    assert Decimal.FromNat(2) == "2";
  }

  /** The banner text of the order, piece by piece. */
  lemma AliceBanner()
    ensures SuccessText(FormValues("Alice", "L", ["Pepperoni", "Ham"]))
      == Greeting + "Alice" + "! Your " + "large" + " pizza" + " with 2 toppings."
  {
    TwoToppingsPhrase();
  }

  /** Submitting a settled form holding Alice's order succeeds with the expected banner. */
  lemma SubmitAliceOrder(s: FormState)
    requires Settled(s)
    requires s.values == FormValues("Alice", "L", ["Pepperoni", "Ham"])
    ensures !SubmitDisabled(s)
    ensures var r := HandleSubmit(s);
      && r.status == Succeeded
      && Banner(r) == Some(Greeting + "Alice" + "! Your " + "large" + " pizza" + " with 2 toppings.")
      && r.values == EmptyValues
      && r.touched == {}
      && SubmitDisabled(r)
  {
    assert Utf16.InBmp("Alice");
    assert Utf16.Length(s.values.fullName) == 5;
    ValidIff(s.values);
    AliceBanner();
  }

  /** On a blank form, whatever was touched or submitted before, a valid order with two
      toppings succeeds, reports a large pizza with 2 toppings and leaves a blank form behind. */
  lemma ValidOrderScenario(s0: FormState)
    requires s0.values == EmptyValues
    ensures !SubmitDisabled(AliceOrder(s0))
    ensures var r := Step(AliceOrder(s0), Submitted);
      && r.status == Succeeded
      && Banner(r) == Some(Greeting + "Alice" + "! Your " + "large" + " pizza" + " with 2 toppings.")
      && r.values == EmptyValues
      && r.touched == {}
      && SubmitDisabled(r)
  {
    var s := AliceOrder(s0);
    AliceOrderValues(s0);
    SubmitAliceOrder(s);
    assert Step(s, Submitted) == HandleSubmit(s);
  }
}
