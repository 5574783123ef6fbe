# Pizza order form: validation and state transitions

This project models the order form of a small pizza-ordering web page. The form
edits a record `{fullName, size, toppings}` and checks it against a fixed schema:

- the full name must be 3 to 20 characters long and is required;
- the size must be one of `S`, `M`, `L` and is required;
- the toppings are a list of strings, which always passes.

Besides the values, the component keeps:

- an error map with one message per field;
- the set of touched fields;
- a validity flag that gates the submit control;
- the submission status;
- a snapshot of the last successful order, shown in a success banner.

Here the component's handlers are pure functions from the old state to the new one.

- `Utf16`: the JavaScript string length (UTF-16 code units) that the length rules use.
- `Schema`: the three field rules, the issues they report, the last-write-wins fold of issues into the error map, and validity.
- `Toppings`: the five-item catalog and the checkbox toggle on the toppings list.
- `Decimal`: the decimal rendering of the topping count in the banner.
- `OrderForm`: the form state and its handlers:
  - change, blur and submit;
  - the validation effect, run synchronously after every change of values;
  - the touched-and-has-error display rule and the submit gate;
  - the success and failure banners.
- `Session`: a session of page events. It proves the invariants every reachable state keeps. It also covers two interactions: a two-letter name that fails on submit, and a valid large order with two toppings.

Three facts about the code shape the model:

- The toppings are an ordered list, toggled by filter-or-append (`frontend/components/Form.js:71-73`).
- The size is any string. The schema rejects values other than `S`, `M` and `L`, but it does not restrict the type.
- The submit control is disabled exactly while `isValid` is false (`frontend/components/Form.js:204`).

For an empty name or size, two rules fail: too-short and required, or not-one-of and required. Only the last message written survives, and which one that is depends on the order in which the schema library reports its issues. The model lists issues in declaration order. Its contracts promise only that one of the two messages is stored. `Schema.IssueOrderIrrelevant` proves that, under any ordering of the same issues, the fields with errors, and so validity, stay the same. The message of a field with a single failing rule stays the same too.

## Model

| member | source | states |
|---|---|---|
| Utf16.Length | frontend/components/Form.js:14-15 | The length the name rules measure counts UTF-16 code units. It lies between the number of characters and twice that number. It equals the number of characters exactly when every character is in the Basic Multilingual Plane, and it is zero only for the empty string. |
| Utf16.LengthAppend | frontend/components/Form.js:14-15 | The code-unit length of a concatenation is the sum of the lengths. |
| Schema.Text | frontend/components/Form.js:5-19 | Every rule message is a non-empty string, so a stored error is always truthy when the page tests it. |
| Schema.NameIssues | frontend/components/Form.js:13-16 | The full-name rule reports at most two issues, all about the `fullName` path. |
| Schema.SizeIssues | frontend/components/Form.js:17-19 | The size rule reports at most two issues, all about the `size` path. |
| Schema.Issues | frontend/components/Form.js:12-21 | The failing rules of a record: at most four issues in total, none about the toppings, and every full-name issue before every size issue (declaration order). |
| Schema.Check | frontend/components/Form.js:50-51 | Validating without stopping early passes exactly when the name is 3 to 20 code units long and the size is S, M or L. A rejection carries a non-empty list of every issue found, none of them about the toppings. |
| Schema.Collect | frontend/components/Form.js:57-60 | The error map built from the reported issues has an entry for exactly the fields that some issue names. |
| Schema.CollectLastWins | frontend/components/Form.js:58-60 | A field's stored message is the message of the last issue about that field. |
| Schema.CollectAppend | frontend/components/Form.js:58-60 | Folding two issue lists one after the other gives the first map overridden by the second. |
| Schema.CollectOneField | frontend/components/Form.js:58-60 | When all issues are about one field, the map holds just that field, with the message of the final issue. |
| Schema.UniformMessageWins | frontend/components/Form.js:58-60 | If every issue about a field carries the same message, that message is stored, whatever the order of the issues. |
| Schema.NameErrors | frontend/components/Form.js:13-16 | The full-name rule alone: no error iff the length is 3 to 20. Lengths 1 to 2 give the too-short message. Lengths above 20 give the too-long message. The empty name gives too-short or required. |
| Schema.SizeErrors | frontend/components/Form.js:17-19 | The size rule alone: no error iff the size is S, M or L. Any other non-empty size gives the one-of message. The empty size gives one-of or required. |
| Schema.SplitByField | frontend/components/Form.js:49-63 | Each field's entry in the whole error map comes from that field's own rule. The toppings field never has an entry. |
| Schema.Validate | frontend/components/Form.js:12-21 | The error map of a record. The full name has no error iff its length is 3 to 20; lengths 1 to 2 map to the too-short message, lengths above 20 to the too-long message, and the empty name has one of too-short or required. The size has no error iff it is S, M or L; any other non-empty size maps to the one-of message, and the empty size has one of one-of or required. The toppings never have an error. |
| Schema.ValidIff | frontend/components/Form.js:49-63 | A record passes validation iff its error map is empty, iff the name length is 3 to 20 and the size is S, M or L. |
| Schema.ToppingsNeverMatter | frontend/components/Form.js:20 | Two records that differ only in toppings get identical error maps and identical validity. |
| Schema.SameIssuesSameKeys | frontend/components/Form.js:56-60 | Two lists holding the same issues, in any order, put errors on the same fields. |
| Schema.IssuesOfField | frontend/components/Form.js:12-21 | Every issue about a field comes from that field's own rule. No issue is ever about the toppings. |
| Schema.ReorderedSingleIssue | frontend/components/Form.js:56-60 | A field whose rule reports one issue keeps that message under any reordering of the issues. |
| Schema.SingleIssueLists | frontend/components/Form.js:13-19 | A name that is too long, a name of 1 to 2 units and a non-empty size outside S/M/L each break exactly one rule. |
| Schema.IssueOrderIrrelevant | frontend/components/Form.js:56-63 | Whatever order the schema library reports the issues in, the same fields get errors. Fields with one failing rule get the same message. |
| Toppings.CatalogTexts | frontend/components/Form.js:24-30 | The checkbox values are exactly the texts of the five catalog entries, and they are five distinct strings. |
| Toppings.Without | frontend/components/Form.js:72 | Filtering out a value removes every copy of it. Every other value keeps its number of copies, and the result is a subsequence of the list, so the kept values stay in order. A list without the value is unchanged. |
| Toppings.SubsequenceMultiset | frontend/components/Form.js:72 | A subsequence never holds more copies of a value than the list it is taken from. |
| Toppings.WithoutUnique | frontend/components/Form.js:72 | The filter is the only subsequence that drops every copy of the value and keeps every other value with its multiplicity, so the contract of `Toppings.Without` determines its result. |
| Toppings.WithoutAppend | frontend/components/Form.js:72 | Filtering a concatenation filters each part. |
| Toppings.WithoutKeepsNoDuplicates | frontend/components/Form.js:72 | Filtering keeps a duplicate-free list duplicate-free. |
| Toppings.Toggle | frontend/components/Form.js:69-75 | The checkbox change flips membership of the toggled value. Every other topping keeps its presence. The other toppings keep their relative order. |
| Toppings.ToggleKeepsNoDuplicates | frontend/components/Form.js:69-75 | A duplicate-free toppings list stays duplicate-free after a toggle. |
| Toppings.ToggleTwiceRestores | frontend/components/Form.js:69-75 | Toggling an absent value twice gives back the original list. |
| Toppings.ToggleTwiceMovesToEnd | frontend/components/Form.js:69-75 | Toggling a present value twice moves it to the end of the list. |
| Toppings.ToggleStaysInCatalog | frontend/components/Form.js:189-196 | The checkboxes carry only catalog values, so toggling keeps the list inside the catalog. |
| Toppings.DistinctCount | frontend/components/Form.js:71-73 | A duplicate-free list has as many distinct values as elements. |
| Toppings.SubsetCount | frontend/components/Form.js:24-30 | A subset of the catalog values is no larger than the catalog. |
| Toppings.ChoiceBound | frontend/components/Form.js:24-30 | A duplicate-free selection from the catalog has at most five toppings. |
| Decimal.DigitChar | frontend/components/Form.js:123-124 | A digit is rendered as the character with that digit value. |
| Decimal.FromNat | frontend/components/Form.js:123-124 | The rendered count is a non-empty run of decimal digits. A leading zero occurs only for zero, and exactly the counts below ten take one digit, so zero renders as the single digit "0". |
| Decimal.ToNatFromNat | frontend/components/Form.js:123-124 | Reading the rendered count back gives the count. |
| Decimal.FromNatInjective | frontend/components/Form.js:123-124 | Different counts render differently. |
| OrderForm.Revalidate | frontend/components/Form.js:49-64 | The validation effect. Acceptance empties the errors and sets the form valid. Rejection stores the folded issues and sets it invalid. Afterwards the errors and the flag describe the current values, and validity is exactly "the error map is empty". Nothing else changes. |
| OrderForm.Mounted | frontend/components/Form.js:34-46 | As first rendered, before the validation effect runs, the values are blank, nothing is touched and no banner shows. The error map is empty although the blank values break two rules, so the form is not settled. The submit control is already disabled, and no error shows. |
| OrderForm.InitialIsInvalid | frontend/components/Form.js:34-46 | The blank form is invalid and its submit control is disabled, both before and after the first validation. Both the name and the size have errors, and no error is shown. |
| OrderForm.HandleChange | frontend/components/Form.js:67-79 | A text or select change sets only the named field, leaving the other field and the toppings unchanged. A checkbox change flips the toppings membership of its value, keeps the name and size, and keeps the other toppings in order. The state is revalidated afterwards. Status, snapshot and touched set are unchanged. |
| OrderForm.HandleBlur | frontend/components/Form.js:82-84 | A blur adds exactly the blurred field to the touched set. It changes neither the values, nor the errors, nor validity. |
| OrderForm.ShownError | frontend/components/Form.js:147-175 | An error line is displayed for a field iff the field is touched and has an error. It shows that error's text. The toppings have no error line. |
| OrderForm.SubmitDisabled | frontend/components/Form.js:204 | On a settled form, the submit control is disabled exactly when some field has an error. |
| OrderForm.SubmitGate | frontend/components/Form.js:204 | The submit control is disabled iff the error map is non-empty, iff the name is not 3 to 20 units long or the size is not S, M or L. |
| OrderForm.HandleSubmit | frontend/components/Form.js:87-107 | Valid values give status success. They are snapshotted as the order, the values reset to empty, the touched set is cleared, and the reset form is invalid. Invalid values give status failure, mark all three fields touched, and leave the values, errors and snapshot unchanged. |
| OrderForm.SubmitAgreesWithGate | frontend/components/Form.js:87-107 | On a settled form, submitting succeeds exactly when the submit control is enabled. |
| OrderForm.FailedSubmitShowsErrors | frontend/components/Form.js:99-106 | After a failed submit, every field that has an error displays it. |
| OrderForm.BlurShowsError | frontend/components/Form.js:82-84 | After a blur, the blurred field displays its error iff it has one. The display of every other field is unchanged. |
| OrderForm.SizeWord | frontend/components/Form.js:115-119 | `L` is "large" and `M` is "medium". Anything else is "small". |
| OrderForm.ToppingsPhrase | frontend/components/Form.js:121-124 | The end of the banner starts with " with " and ends with " toppings.". It is " with no toppings." exactly when the count is zero. Otherwise the text between is the decimal rendering of the count, with no leading zero. |
| OrderForm.ToppingsPhraseReadsBack | frontend/components/Form.js:121-124 | For a non-zero count, the text between starts with a digit from 1 to 9, holds only digits, and reads back as the count. |
| OrderForm.ToppingsPhraseInjective | frontend/components/Form.js:121-124 | Different topping counts give different endings. |
| OrderForm.OrderSummary | frontend/components/Form.js:114-124 | The part of the banner after the name holds the size word from position 7 on, and ends with the topping-count text. |
| OrderForm.SuccessText | frontend/components/Form.js:114-124 | The success banner is the greeting, then the submitted name, then the order summary. |
| OrderForm.SuccessTextDetermines | frontend/components/Form.js:114-124 | The success banner reports the order faithfully. Given the length of the name, the text determines the name, the size word and the number of toppings. |
| OrderForm.Banner | frontend/components/Form.js:112-130 | A banner shows only after a submission. Success shows the text of the recorded order. Failure shows "Something went wrong". |
| Session.Step | frontend/components/Form.js:67-107 | Every event keeps a settled form settled. Only a submit changes the status or the recorded order. A blur changes neither the values nor the errors. |
| Session.InitialInvariant | frontend/components/Form.js:34-46 | The validated blank form satisfies the session invariant. |
| Session.StepKeepsInvariant | frontend/components/Form.js:67-107 | Every page event preserves the session invariant: <ul><li>errors and validity describe the values;</li><li>the current toppings and the recorded toppings are duplicate-free catalog selections;</li><li>after a success, the recorded order passes the schema.</li></ul> |
| Session.RecordedOrderIsValid | frontend/components/Form.js:87-107 | A state that satisfies the invariant and holds a successful order records a name of 3 to 20 code units, a size of S, M or L, and at most five toppings. |
| Session.RunKeepsInvariant | frontend/components/Form.js:34-107 | Starting from the validated blank form, every session of page events ends in a state that satisfies the invariant. |
| Session.Replay | frontend/components/Form.js:67-107 | After any session of page events: <ul><li>the state is settled;</li><li>the toppings are duplicate-free catalog selections;</li><li>a successful order has a 3 to 20 unit name, a size of S, M or L, and at most five toppings.</li></ul> |
| Session.AlMediumState | frontend/components/Form.js:67-79 | On a blank, untouched form, typing "Al" and choosing M leaves the name "Al" and the size "M", touches nothing, and keeps the form settled. |
| Session.ShortNameScenario | frontend/components/Form.js:87-149 | On a blank, untouched form, with name "Al" and size "M": <ul><li>submitting fails;</li><li>the too-short message is hidden before the submit and shown after it;</li><li>the size shows no error.</li></ul> |
| Session.AliceLargeValues | frontend/components/Form.js:67-79 | On any form with blank values, typing "Alice" and choosing L leaves the values ("Alice", "L", no toppings). |
| Session.AliceOrderValues | frontend/components/Form.js:69-75 | Ticking Pepperoni and then Ham appends them in that order. |
| Session.TwoToppingsPhrase | frontend/components/Form.js:121-124 | Two toppings are reported as " with 2 toppings.". |
| Session.AliceBanner | frontend/components/Form.js:114-124 | The banner for Alice's large two-topping order reads "Thank you for your order, Alice! Your large pizza with 2 toppings.". |
| Session.SubmitAliceOrder | frontend/components/Form.js:87-124 | Submitting Alice's order succeeds with that banner. The form resets to blank with nothing touched, and its submit control is disabled. |
| Session.ValidOrderScenario | frontend/components/Form.js:87-124 | On any form with blank values, whatever was touched or submitted before, the page events for name "Alice", size L, Pepperoni and Ham enable the submit control. Submitting then succeeds with the banner above and leaves a blank, untouched, invalid form. |

## Left out

- Rendering, JSX and hooks are not modelled. The component re-validates in an asynchronous, promise-based effect after each change of values. The model applies that effect synchronously at the end of each handler that changes the values (`OrderForm.Revalidate`). Renders that happen between a change and the effect, with stale errors, are not modelled.
- The schema library's internals are not modelled: casting, and the order of issues for one field. The three rules are written out directly. The issue order is declaration order, and the contracts do not depend on it.
- JavaScript strings may hold lone surrogate code units, but a Dafny `char` is a Unicode scalar value, so such strings cannot be represented. Every representable string is measured exactly in UTF-16 code units.
- OrderForm.HandleChange: only `fullName` and `size` can be overwritten by a text or select change, because the page has no other text inputs or selects. In the component, a non-checkbox input with any other name would add that key to the values.
- OrderForm.HandleBlur: the page attaches blur handlers only to the name input and the size select. The model accepts a blur of any field, which is harmless because the toppings never have an error.
- OrderForm.HandleSubmit: it can be applied in any state, including while the control is disabled. The handler re-validates the values itself, and `OrderForm.SubmitAgreesWithGate` shows both paths agree on a settled form.
- The toppings count in the banner comes from a template literal containing a line break and indentation. The model renders it as the single space a browser displays (" with 2 toppings."). It also keeps the source's plural "toppings" for a count of one.
- Submission event plumbing (`preventDefault`), class names and styling are not modelled.
- The routing component (`frontend/components/App.js`) is not modelled: it only wires two routes to components and has no logic of its own.
- The test file (`mvpB.test.js`) is not modelled. Its `sum` depends on JavaScript number coercion, `NaN` and floating-point addition. Its `HelloWorld` is static markup checked only through rendering.
- The validator is a Dafny function, so calling it twice on the same values gives the same map by construction. No separate idempotence lemma is stated.
