/** The order form's validation schema.

    The schema has three field rules. The full name must be a string of
    3 to 20 code units and is required. The size must be one of "S", "M",
    "L" and is required. The toppings must be an array of strings. The
    schema library is run without stopping at the first failure, so it
    reports every failing rule as an issue (a field path and a message).
    The form folds those issues into an error map in which the last issue
    written for a field wins.
 */
module Schema {
  import Utf16

  /** The named inputs of the form. */
  datatype Field = FullName | Size | Toppings

  /** The record the form edits. */
  datatype FormValues = FormValues(fullName: string, size: string, toppings: seq<string>)

  /** The messages of the rules. */
  datatype Message = FullNameTooShort | FullNameTooLong | FullNameRequired | SizeIncorrect | SizeRequired

  /** The text of each message. */
  function Text(m: Message): (t: string)
    ensures t != ""
  {
    match m
    case FullNameTooShort => "full name must be at least 3 characters"
    case FullNameTooLong => "full name must be at most 20 characters"
    case FullNameRequired => "full name is required"
    case SizeIncorrect => "size must be S or M or L"
    case SizeRequired => "size is required"
  }

  const MinNameLength: nat := 3
  const MaxNameLength: nat := 20

  /** The values the size rule accepts. */
  const Sizes: set<string> := {"S", "M", "L"}

  /** One failing rule as the schema library reports it. */
  datatype Issue = Issue(path: Field, message: Message)

  /** Field name to the message shown for it. */
  type ErrorMap = map<Field, Message>

  /** What validating a record yields: acceptance, or rejection carrying every issue found. */
  datatype Outcome = Passed | Rejected(inner: seq<Issue>)

  /** Issues of the full-name rule, in the order its tests are declared: the minimum-length
      test fails below 3 code units (the empty name included), the maximum-length test above
      20, and the required test on the empty name. */
  function NameIssues(name: string): (issues: seq<Issue>)
    ensures |issues| <= 2
    ensures forall i :: 0 <= i < |issues| ==> issues[i].path == FullName
  {
    var n := Utf16.Length(name);
    if n == 0 then [Issue(FullName, FullNameTooShort), Issue(FullName, FullNameRequired)]
    else if n < MinNameLength then [Issue(FullName, FullNameTooShort)]
    else if n > MaxNameLength then [Issue(FullName, FullNameTooLong)]
    else []
  }

  /** Issues of the size rule, in the order its tests are declared: the one-of test fails on
      anything but "S", "M" and "L" (the empty size included), the required test on the empty
      size. */
  function SizeIssues(size: string): (issues: seq<Issue>)
    ensures |issues| <= 2
    ensures forall i :: 0 <= i < |issues| ==> issues[i].path == Size
  {
    if size == "" then [Issue(Size, SizeIncorrect), Issue(Size, SizeRequired)]
    else if size !in Sizes then [Issue(Size, SizeIncorrect)]
    else []
  }

  /** Issues of the toppings rule: every element of the list is a string, so there are none. */
  function ToppingsIssues(toppings: seq<string>): seq<Issue> {
    []
  }

  /** Every failing rule of the schema, field by field: at most four issues, none about the
      toppings, and every full-name issue before every size issue. */
  function Issues(v: FormValues): (issues: seq<Issue>)
    ensures |issues| <= 4
    ensures forall i :: 0 <= i < |issues| ==> issues[i].path != Toppings
    ensures forall i, j :: 0 <= i < j < |issues| && issues[j].path == FullName ==> issues[i].path == FullName
  {
    NameIssues(v.fullName) + SizeIssues(v.size) + ToppingsIssues(v.toppings)
  }

  /** Validation of the whole record without stopping at the first failure. */
  function Check(v: FormValues): (o: Outcome)
    ensures o.Passed? <==> MinNameLength <= Utf16.Length(v.fullName) <= MaxNameLength && v.size in Sizes
    ensures o.Rejected? ==> o.inner != [] && forall x :: x in o.inner ==> x.path != Toppings
    ensures o.Rejected? ==> o.inner == Issues(v)
  {
    var issues := Issues(v);
    if issues == [] then Passed else Rejected(issues)
  }

  /** True if `issues` reports something about field `f`. */
  predicate Reports(issues: seq<Issue>, f: Field) {
    exists i :: 0 <= i < |issues| && issues[i].path == f
  }

  /** True if `issues[i]` is the last issue about field `f`. */
  predicate LastFor(issues: seq<Issue>, f: Field, i: int) {
    && 0 <= i < |issues|
    && issues[i].path == f
    && forall j :: i < j < |issues| ==> issues[j].path != f
  }

  /** The error map built by writing each issue's message under its path in turn. */
  function Collect(issues: seq<Issue>): (m: ErrorMap)
    ensures forall f :: f in m <==> Reports(issues, f)
  {
    if |issues| == 0 then map[]
    else
      var init := issues[..|issues| - 1];
      var last := issues[|issues| - 1];
      assert forall f :: Reports(init, f) ==> Reports(issues, f) by {
        forall f | Reports(init, f) ensures Reports(issues, f) {
          var i :| 0 <= i < |init| && init[i].path == f;
          assert issues[i] == init[i];
        }
      }
      assert forall f :: Reports(issues, f) && f != last.path ==> Reports(init, f) by {
        forall f | Reports(issues, f) && f != last.path ensures Reports(init, f) {
          var i :| 0 <= i < |issues| && issues[i].path == f;
          assert init[i] == issues[i];
        }
      }
      Collect(init)[last.path := last.message]
  }

  /** Last write wins: the message stored for a field is that of the last issue about it. */
  lemma {:induction false} CollectLastWins(issues: seq<Issue>, f: Field, i: int)
    requires LastFor(issues, f, i)
    ensures f in Collect(issues) && Collect(issues)[f] == issues[i].message
  {
    var init := issues[..|issues| - 1];
    if i < |issues| - 1 {
      assert issues[|issues| - 1].path != f;
      assert LastFor(init, f, i);
      CollectLastWins(init, f, i);
    }
  }

  /** Writing the issues of `a` and then those of `b` is the map of `a` overridden by the map of `b`. */
  lemma {:induction false} CollectAppend(a: seq<Issue>, b: seq<Issue>)
    ensures Collect(a + b) == Collect(a) + Collect(b)
    decreases |b|
  {
    if |b| == 0 {
      assert a + b == a;
    } else {
      var b' := b[..|b| - 1];
      assert (a + b)[..|a + b| - 1] == a + b';
      assert (a + b)[|a + b| - 1] == b[|b| - 1];
      CollectAppend(a, b');
    }
  }

  /** When every issue is about one field, that field gets the message of the last issue. */
  lemma CollectOneField(issues: seq<Issue>, f: Field)
    requires forall i :: 0 <= i < |issues| ==> issues[i].path == f
    ensures issues == [] ==> Collect(issues) == map[]
    ensures issues != [] ==> Collect(issues) == map[f := issues[|issues| - 1].message]
  {
    if issues != [] {
      CollectLastWins(issues, f, |issues| - 1);
      assert Collect(issues).Keys == {f} by {
        forall g | g in Collect(issues) ensures g == f {
          var i :| 0 <= i < |issues| && issues[i].path == g;
        }
      }
    }
  }

  /** The error map of the full-name rule alone. */
  lemma NameErrors(name: string)
    ensures var m := Collect(NameIssues(name));
      && m.Keys <= {FullName}
      && (FullName !in m <==> MinNameLength <= Utf16.Length(name) <= MaxNameLength)
      && (0 < Utf16.Length(name) < MinNameLength ==> m[FullName] == FullNameTooShort)
      && (Utf16.Length(name) > MaxNameLength ==> m[FullName] == FullNameTooLong)
      && (name == "" ==> m[FullName] in {FullNameTooShort, FullNameRequired})
  {
    var n := Utf16.Length(name);
    var issues := NameIssues(name);
    if n == 0 {
      assert issues == [Issue(FullName, FullNameTooShort), Issue(FullName, FullNameRequired)];
    } else if n < MinNameLength {
      assert issues == [Issue(FullName, FullNameTooShort)];
    } else if n > MaxNameLength {
      assert issues == [Issue(FullName, FullNameTooLong)];
    } else {
      assert issues == [];
    }
    CollectOneField(issues, FullName);
  }

  /** The error map of the size rule alone. */
  lemma SizeErrors(size: string)
    ensures var m := Collect(SizeIssues(size));
      && m.Keys <= {Size}
      && (Size !in m <==> size in Sizes)
      && (size != "" && size !in Sizes ==> m[Size] == SizeIncorrect)
      && (size == "" ==> m[Size] in {SizeIncorrect, SizeRequired})
  {
    var issues := SizeIssues(size);
    if size == "" {
      assert issues == [Issue(Size, SizeIncorrect), Issue(Size, SizeRequired)];
    } else if size !in Sizes {
      assert issues == [Issue(Size, SizeIncorrect)];
    } else {
      assert issues == [];
    }
    CollectOneField(issues, Size);
  }

  /** Each field's entry in the error map comes from that field's rule alone. */
  lemma SplitByField(v: FormValues)
    ensures var m, name, size := Collect(Issues(v)), Collect(NameIssues(v.fullName)), Collect(SizeIssues(v.size));
      && (FullName in m <==> FullName in name)
      && (FullName in m ==> m[FullName] == name[FullName])
      && (Size in m <==> Size in size)
      && (Size in m ==> m[Size] == size[Size])
      && Toppings !in m
  {
    var name := NameIssues(v.fullName);
    var size := SizeIssues(v.size);
    assert Issues(v) == name + size;
    CollectAppend(name, size);
    CollectOneField(name, FullName);
    CollectOneField(size, Size);
  }

  /** The error map the form stores after validating `v`. */
  function Validate(v: FormValues): (errors: ErrorMap)
    ensures FullName !in errors <==> MinNameLength <= Utf16.Length(v.fullName) <= MaxNameLength
    ensures 0 < Utf16.Length(v.fullName) < MinNameLength ==> errors[FullName] == FullNameTooShort
    ensures Utf16.Length(v.fullName) > MaxNameLength ==> errors[FullName] == FullNameTooLong
    ensures v.fullName == "" ==> errors[FullName] in {FullNameTooShort, FullNameRequired}
    ensures Size !in errors <==> v.size in Sizes
    ensures v.size != "" && v.size !in Sizes ==> errors[Size] == SizeIncorrect
    ensures v.size == "" ==> errors[Size] in {SizeIncorrect, SizeRequired}
    ensures Toppings !in errors
  {
    SplitByField(v);
    NameErrors(v.fullName);
    SizeErrors(v.size);
    Collect(Issues(v))
  }

  /** The record passes validation exactly when its error map is empty. */
  predicate Valid(v: FormValues) {
    Check(v).Passed?
  }

  /** Validity is exactly the two field rules that can fail; the toppings never matter. */
  lemma ValidIff(v: FormValues)
    ensures Valid(v) <==> Validate(v) == map[]
    ensures Valid(v) <==> MinNameLength <= Utf16.Length(v.fullName) <= MaxNameLength && v.size in Sizes
  {
    var issues := Issues(v);
    if issues != [] {
      assert Reports(issues, issues[0].path);
      assert issues[0].path in Validate(v);
    }
  }

  /** Two records that differ only in their toppings have the same errors and the same validity. */
  lemma ToppingsNeverMatter(v: FormValues, w: FormValues)
    requires v.fullName == w.fullName && v.size == w.size
    ensures Validate(v) == Validate(w)
    ensures Valid(v) <==> Valid(w)
  {
    assert Issues(v) == Issues(w);
  }

  /** If every issue about `f` carries the message `msg`, the error map stores `msg` for `f`,
      whatever order the issues come in. */
  lemma {:induction false} UniformMessageWins(issues: seq<Issue>, f: Field, msg: Message)
    requires Reports(issues, f)
    requires forall i :: 0 <= i < |issues| && issues[i].path == f ==> issues[i].message == msg
    ensures f in Collect(issues) && Collect(issues)[f] == msg
  {
    var n := |issues|;
    if issues[n - 1].path == f {
      CollectLastWins(issues, f, n - 1);
    } else {
      var init := issues[..n - 1];
      var j :| 0 <= j < n && issues[j].path == f;
      assert init[j] == issues[j];
      UniformMessageWins(init, f, msg);
    }
  }

  /** Two lists holding the same issues, in whatever order, put errors on the same fields. */
  lemma {:induction false} SameIssuesSameKeys(a: seq<Issue>, b: seq<Issue>)
    requires multiset(a) == multiset(b)
    ensures Collect(a).Keys == Collect(b).Keys
  {
    forall f | Reports(a, f) ensures Reports(b, f) {
      var i :| 0 <= i < |a| && a[i].path == f;
      assert a[i] in multiset(b);
      var j :| 0 <= j < |b| && b[j] == a[i];
    }
    forall f | Reports(b, f) ensures Reports(a, f) {
      var i :| 0 <= i < |b| && b[i].path == f;
      assert b[i] in multiset(a);
      var j :| 0 <= j < |a| && a[j] == b[i];
    }
  }

  /** Every issue about a field comes from that field's own rule. */
  lemma IssuesOfField(v: FormValues, x: Issue)
    requires x in Issues(v)
    ensures x.path == FullName ==> x in NameIssues(v.fullName)
    ensures x.path == Size ==> x in SizeIssues(v.size)
    ensures x.path != Toppings
  {
    assert Issues(v) == NameIssues(v.fullName) + SizeIssues(v.size);
  }

  /** A field whose rule reports a single issue keeps that issue's message under any reordering. */
  lemma {:induction false} ReorderedSingleIssue(v: FormValues, reported: seq<Issue>, f: Field, msg: Message)
    requires multiset(reported) == multiset(Issues(v))
    requires f == FullName ==> NameIssues(v.fullName) == [Issue(FullName, msg)]
    requires f == Size ==> SizeIssues(v.size) == [Issue(Size, msg)]
    requires f != Toppings
    ensures f in Collect(reported) && Collect(reported)[f] == msg
  {
    var x := Issue(f, msg);
    assert x in Issues(v);
    assert x in multiset(reported);
    assert Reports(reported, f);
    forall i | 0 <= i < |reported| && reported[i].path == f ensures reported[i].message == msg {
      assert reported[i] in multiset(Issues(v));
      IssuesOfField(v, reported[i]);
    }
    UniformMessageWins(reported, f, msg);
  }

  /** The issue lists of a name or size that breaks exactly one rule. */
  lemma SingleIssueLists(name: string, size: string)
    ensures Utf16.Length(name) > MaxNameLength ==> NameIssues(name) == [Issue(FullName, FullNameTooLong)]
    ensures 0 < Utf16.Length(name) < MinNameLength ==> NameIssues(name) == [Issue(FullName, FullNameTooShort)]
    ensures size != "" && size !in Sizes ==> SizeIssues(size) == [Issue(Size, SizeIncorrect)]
  {
  }

  /** The schema library may report a record's issues in any order. The fields that get an error,
      and hence validity, do not depend on that order, and neither does the message of a field
      with a single failing rule. */
  lemma {:induction false} IssueOrderIrrelevant(v: FormValues, reported: seq<Issue>)
    requires multiset(reported) == multiset(Issues(v))
    ensures Collect(reported).Keys == Validate(v).Keys
    ensures Utf16.Length(v.fullName) > MaxNameLength ==> Collect(reported)[FullName] == FullNameTooLong
    ensures 0 < Utf16.Length(v.fullName) < MinNameLength ==> Collect(reported)[FullName] == FullNameTooShort
    ensures v.size != "" && v.size !in Sizes ==> Collect(reported)[Size] == SizeIncorrect
  {
    SameIssuesSameKeys(reported, Issues(v));
    SingleIssueLists(v.fullName, v.size);
    var n := Utf16.Length(v.fullName);
    if n > MaxNameLength {
      ReorderedSingleIssue(v, reported, FullName, FullNameTooLong);
    }
    if 0 < n < MinNameLength {
      ReorderedSingleIssue(v, reported, FullName, FullNameTooShort);
    }
    if v.size != "" && v.size !in Sizes {
      ReorderedSingleIssue(v, reported, Size, SizeIncorrect);
    }
  }
}
