/** The toppings catalog and the checkbox toggle over the list of chosen toppings.

    A checkbox change removes every copy of the box's value from the list
    when the value is present, and appends the value at the end otherwise.
 */
module Toppings {

  /** One catalog entry: the checkbox key and the text used as the box's value. */
  datatype Topping = Topping(id: string, text: string)

  /** The five toppings the form offers, in display order. */
  const Catalog: seq<Topping> := [
    Topping("1", "Pepperoni"),
    Topping("2", "Green Peppers"),
    Topping("3", "Pineapple"),
    Topping("4", "Mushrooms"),
    Topping("5", "Ham")
  ]

  /** The values a topping checkbox can carry. */
  function CatalogTexts(): (texts: set<string>)
    ensures |texts| == |Catalog|
    ensures forall i :: 0 <= i < |Catalog| ==> Catalog[i].text in texts
    ensures forall t :: t in texts ==> exists i :: 0 <= i < |Catalog| && Catalog[i].text == t
  {
    var texts := {"Pepperoni", "Green Peppers", "Pineapple", "Mushrooms", "Ham"};
    assert forall t :: t in texts ==>
      (Catalog[0].text == t || Catalog[1].text == t || Catalog[2].text == t
       || Catalog[3].text == t || Catalog[4].text == t);
    texts
  }

  /** No value occurs twice in `l`. */
  predicate NoDuplicates(l: seq<string>) {
    forall i, j :: 0 <= i < j < |l| ==> l[i] != l[j]
  }

  /** Every value of `l` belongs to `allowed`. */
  predicate AllIn(l: seq<string>, allowed: set<string>) {
    forall i :: 0 <= i < |l| ==> l[i] in allowed
  }

  /** True if `r` can be obtained from `l` by deleting elements, the rest kept in order. */
  predicate Subsequence(r: seq<string>, l: seq<string>)
    decreases |l|
  {
    if |l| == 0 then |r| == 0
    else Subsequence(r, l[1..]) || (|r| > 0 && r[0] == l[0] && Subsequence(r[1..], l[1..]))
  }

  /** `l` with every occurrence of `v` removed, the rest kept in order. */
  function Without(l: seq<string>, v: string): (r: seq<string>)
    ensures v !in r
    ensures forall t :: t != v ==> (t in r <==> t in l)
    ensures forall t :: multiset(r)[t] == if t == v then 0 else multiset(l)[t]
    ensures Subsequence(r, l)
    ensures |r| <= |l|
    ensures v !in l ==> r == l
  {
    if |l| == 0 then []
    else
      assert l == [l[0]] + l[1..];
      var rest := Without(l[1..], v);
      if l[0] == v then rest
      else
        var r := [l[0]] + rest;
        assert r[1..] == rest;
        r
  }

  /** A subsequence holds no more copies of any value than the list it comes from. */
  lemma {:induction false} SubsequenceMultiset(r: seq<string>, l: seq<string>)
    requires Subsequence(r, l)
    ensures multiset(r) <= multiset(l)
    decreases |l|
  {
    if |l| > 0 {
      assert l == [l[0]] + l[1..];
      if Subsequence(r, l[1..]) {
        SubsequenceMultiset(r, l[1..]);
      } else {
        assert r == [r[0]] + r[1..];
        SubsequenceMultiset(r[1..], l[1..]);
      }
    }
  }

  /** The contract of `Without` determines it: the only subsequence of `l` that drops every
      copy of `v` and keeps every other value with its multiplicity is `Without(l, v)`. */
  lemma {:induction false} WithoutUnique(l: seq<string>, v: string, r: seq<string>)
    requires Subsequence(r, l)
    requires forall t :: multiset(r)[t] == if t == v then 0 else multiset(l)[t]
    ensures r == Without(l, v)
    decreases |l|
  {
    if |l| > 0 {
      var tail := l[1..];
      assert l == [l[0]] + tail;
      assert multiset(l)[l[0]] == multiset(tail)[l[0]] + 1;
      if |r| > 0 {
        assert r[0] in multiset(r);
      }
      if l[0] == v {
        WithoutUnique(tail, v, r);
      } else {
        if Subsequence(r, tail) {
          SubsequenceMultiset(r, tail);
          assert false;
        }
        assert r == [r[0]] + r[1..] && r[0] == l[0];
        forall t ensures multiset(r[1..])[t] == if t == v then 0 else multiset(tail)[t] {
          assert multiset(r)[t] == multiset([l[0]])[t] + multiset(r[1..])[t];
          assert multiset(l)[t] == multiset([l[0]])[t] + multiset(tail)[t];
        }
        WithoutUnique(tail, v, r[1..]);
      }
    }
  }

  /** Removing from a concatenation removes from each part. */
  lemma {:induction false} WithoutAppend(a: seq<string>, b: seq<string>, v: string)
    ensures Without(a + b, v) == Without(a, v) + Without(b, v)
  {
    if |a| == 0 {
      assert a + b == b;
    } else {
      assert (a + b)[0] == a[0];
      assert (a + b)[1..] == a[1..] + b;
      WithoutAppend(a[1..], b, v);
    }
  }

  /** Removal keeps a duplicate-free list duplicate-free. */
  lemma {:induction false} WithoutKeepsNoDuplicates(l: seq<string>, v: string)
    requires NoDuplicates(l)
    ensures NoDuplicates(Without(l, v))
  {
    if |l| > 0 {
      assert NoDuplicates(l[1..]);
      WithoutKeepsNoDuplicates(l[1..], v);
      assert l[0] !in l[1..];
    }
  }

  /** The checkbox change handler on the toppings list. */
  function Toggle(l: seq<string>, v: string): (r: seq<string>)
    ensures v in r <==> v !in l
    ensures forall t :: t != v ==> (t in r <==> t in l)
    ensures Without(r, v) == Without(l, v)
  {
    if v in l then
      Without(l, v)
    else
      WithoutAppend(l, [v], v);
      l + [v]
  }

  /** Toggling keeps the list duplicate-free. */
  lemma ToggleKeepsNoDuplicates(l: seq<string>, v: string)
    requires NoDuplicates(l)
    ensures NoDuplicates(Toggle(l, v))
  {
    if v in l {
      WithoutKeepsNoDuplicates(l, v);
    }
  }

  /** Toggling an absent value twice gives back the original list. */
  lemma ToggleTwiceRestores(l: seq<string>, v: string)
    requires v !in l
    ensures Toggle(Toggle(l, v), v) == l
  {
    WithoutAppend(l, [v], v);
  }

  /** Toggling a present value twice moves it to the end of the list. */
  lemma ToggleTwiceMovesToEnd(l: seq<string>, v: string)
    requires v in l
    ensures Toggle(Toggle(l, v), v) == Without(l, v) + [v]
  {
  }

  /** Toggling a catalog value keeps the list within the catalog. */
  lemma ToggleStaysInCatalog(l: seq<string>, v: string)
    requires AllIn(l, CatalogTexts())
    requires v in CatalogTexts()
    ensures AllIn(Toggle(l, v), CatalogTexts())
  {
    var r := Toggle(l, v);
    forall i | 0 <= i < |r| ensures r[i] in CatalogTexts() {
      assert r[i] in r;
    }
  }

  /** The values of a duplicate-free list are as many as its length. */
  lemma {:induction false} DistinctCount(l: seq<string>)
    requires NoDuplicates(l)
    ensures |set t | t in l| == |l|
  {
    if |l| > 0 {
      assert NoDuplicates(l[1..]);
      DistinctCount(l[1..]);
      assert l[0] !in l[1..];
      assert (set t | t in l) == (set t | t in l[1..]) + {l[0]};
    }
  }

  /** A duplicate-free choice from the catalog has at most as many toppings as the catalog. */
  lemma ChoiceBound(l: seq<string>)
    requires NoDuplicates(l)
    requires AllIn(l, CatalogTexts())
    ensures |l| <= |Catalog|
  {
    DistinctCount(l);
    var chosen := set t | t in l;
    forall t | t in chosen ensures t in CatalogTexts() {
      var i :| 0 <= i < |l| && l[i] == t;
    }
    SubsetCount(chosen, CatalogTexts());
  }

  /** A subset is no larger than its superset. */
  lemma {:induction false} SubsetCount(a: set<string>, b: set<string>)
    requires a <= b
    ensures |a| <= |b|
    decreases |a|
  {
    if a != {} {
      var x :| x in a;
      SubsetCount(a - {x}, b - {x});
    }
  }
}
