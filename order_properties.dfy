/**
 What `create_order` promises, stated against reference definitions that do
 not follow the handler's loop: which codes are known, whether their
 categories are pairwise distinct, the set of categories they cover, their
 part names and the sum of their prices.
 */
module OrderProperties {
  import opened StringOrder
  import opened Decimal
  import opened Orders

  /** Every code is in the catalog. */
  ghost predicate AllKnown(catalog: map<string, Component>, s: seq<string>)
  {
    forall i :: 0 <= i < |s| ==> s[i] in catalog
  }

  /** No two positions hold codes of the same category (so no code is repeated either). */
  ghost predicate DistinctCategories(catalog: map<string, Component>, s: seq<string>)
    requires AllKnown(catalog, s)
  {
    forall i, j :: 0 <= i < j < |s| ==> catalog[s[i]].category != catalog[s[j]].category
  }

  /** The categories the codes belong to. */
  ghost function CategoriesOf(catalog: map<string, Component>, s: seq<string>): set<string>
    requires AllKnown(catalog, s)
  {
    set x | x in s :: catalog[x].category
  }

  /** The sum of the catalog prices of the codes, in cents. */
  ghost function TotalCents(catalog: map<string, Component>, s: seq<string>): nat
    requires AllKnown(catalog, s)
    decreases |s|
  {
    if s == [] then 0 else catalog[s[0]].priceCents + TotalCents(catalog, s[1..])
  }

  /** The category of the code at `k` has already been taken by an earlier code. */
  ghost predicate CategoryTaken(catalog: map<string, Component>, s: seq<string>, k: nat)
    requires k < |s| && AllKnown(catalog, s[..k]) && s[k] in catalog
  {
    exists i :: 0 <= i < k && catalog[s[i]].category == catalog[s[k]].category
  }

  /** `k` is the first position at which the validation loop fails. */
  ghost predicate FirstFailureAt(catalog: map<string, Component>, s: seq<string>, k: nat)
  {
    k < |s| && AllKnown(catalog, s[..k]) && DistinctCategories(catalog, s[..k]) &&
    (s[k] !in catalog || CategoryTaken(catalog, s, k))
  }

  /** The error the loop reports when it fails on the code at `k`. */
  function FailureAt(catalog: map<string, Component>, s: seq<string>, k: nat): OrderResult
    requires k < |s|
  {
    if s[k] !in catalog then UnknownComponent(s[k]) else DuplicateCategory(catalog[s[k]].category)
  }

  // ---------------------------------------------------------------------------
  // Facts about the reference definitions

  lemma AllKnownPermutation(catalog: map<string, Component>, a: seq<string>, b: seq<string>)
    requires multiset(a) == multiset(b) && AllKnown(catalog, a)
    ensures AllKnown(catalog, b)
  {
    forall j | 0 <= j < |b|
      ensures b[j] in catalog
    {
      assert b[j] in multiset(a);
    }
  }

  lemma {:induction false} TotalCentsAppend(catalog: map<string, Component>, s: seq<string>, t: seq<string>)
    requires AllKnown(catalog, s) && AllKnown(catalog, t)
    ensures AllKnown(catalog, s + t)
    ensures TotalCents(catalog, s + t) == TotalCents(catalog, s) + TotalCents(catalog, t)
    decreases |s|
  {
    assert AllKnown(catalog, s + t);
    if s == [] {
      assert s + t == t;
    } else {
      assert (s + t)[1..] == s[1..] + t;
      TotalCentsAppend(catalog, s[1..], t);
    }
  }

  /** Taking one code out of the sequence takes its price out of the total. */
  lemma TotalCentsRemove(catalog: map<string, Component>, b: seq<string>, k: nat)
    requires k < |b| && AllKnown(catalog, b)
    ensures AllKnown(catalog, b[..k] + b[k + 1..])
    ensures TotalCents(catalog, b) == catalog[b[k]].priceCents + TotalCents(catalog, b[..k] + b[k + 1..])
  {
    var l, r := b[..k], b[k + 1..];
    assert b == l + ([b[k]] + r);
    assert AllKnown(catalog, l) && AllKnown(catalog, r);
    assert AllKnown(catalog, [b[k]] + r);
    assert ([b[k]] + r)[1..] == r;
    TotalCentsAppend(catalog, l, [b[k]] + r);
    TotalCentsAppend(catalog, l, r);
  }

  /** The total does not depend on the order of the codes. */
  lemma {:induction false} TotalCentsPermutation(catalog: map<string, Component>, a: seq<string>, b: seq<string>)
    requires multiset(a) == multiset(b) && AllKnown(catalog, a)
    ensures AllKnown(catalog, b)
    ensures TotalCents(catalog, a) == TotalCents(catalog, b)
    decreases |a|
  {
    AllKnownPermutation(catalog, a, b);
    if a != [] {
      assert a[0] in multiset(b);
      var k :| 0 <= k < |b| && b[k] == a[0];
      var rest := b[..k] + b[k + 1..];
      TotalCentsRemove(catalog, b, k);
      assert b == b[..k] + [b[k]] + b[k + 1..];
      assert a == [a[0]] + a[1..];
      assert multiset(rest) == multiset(b) - multiset{a[0]};
      assert multiset(a[1..]) == multiset(a) - multiset{a[0]};
      TotalCentsPermutation(catalog, a[1..], rest);
    }
  }

  lemma CategoriesOfAppend(catalog: map<string, Component>, p: seq<string>, x: string)
    requires AllKnown(catalog, p) && x in catalog
    ensures AllKnown(catalog, p + [x])
    ensures CategoriesOf(catalog, p + [x]) == CategoriesOf(catalog, p) + {catalog[x].category}
  {
    assert AllKnown(catalog, p + [x]);
    forall y | y in p + [x]
      ensures y in p || y == x
    {
    }
  }

  /** Distinct categories, counted: there are exactly as many categories as codes. */
  lemma {:induction false} DistinctIffCard(catalog: map<string, Component>, s: seq<string>)
    requires AllKnown(catalog, s)
    ensures |CategoriesOf(catalog, s)| <= |s|
    ensures DistinctCategories(catalog, s) <==> |CategoriesOf(catalog, s)| == |s|
    decreases |s|
  {
    if s == [] {
      assert CategoriesOf(catalog, s) == {};
    } else {
      var p, x := s[..|s| - 1], s[|s| - 1];
      assert s == p + [x];
      assert AllKnown(catalog, p);
      DistinctIffCard(catalog, p);
      CategoriesOfAppend(catalog, p, x);
      var c := catalog[x].category;
      if c in CategoriesOf(catalog, p) {
        var y :| y in p && catalog[y].category == c;
        var i :| 0 <= i < |p| && p[i] == y;
        assert s[i] == y && s[|s| - 1] == x;
        assert !DistinctCategories(catalog, s);
      } else {
        if DistinctCategories(catalog, s) {
          assert DistinctCategories(catalog, p) by {
            forall i, j | 0 <= i < j < |p|
              ensures catalog[p[i]].category != catalog[p[j]].category
            {
              assert p[i] == s[i] && p[j] == s[j];
            }
          }
        } else {
          var i, j :| 0 <= i < j < |s| && catalog[s[i]].category == catalog[s[j]].category;
          if j == |s| - 1 {
            assert false;
          }
          assert p[i] == s[i] && p[j] == s[j];
          assert !DistinctCategories(catalog, p);
        }
      }
    }
  }

  /** Pairwise-distinct categories do not depend on the order of the codes. */
  lemma DistinctPermutation(catalog: map<string, Component>, a: seq<string>, b: seq<string>)
    requires multiset(a) == multiset(b) && AllKnown(catalog, a)
    ensures AllKnown(catalog, b)
    ensures CategoriesOf(catalog, a) == CategoriesOf(catalog, b)
    ensures DistinctCategories(catalog, a) <==> DistinctCategories(catalog, b)
  {
    AllKnownPermutation(catalog, a, b);
    forall x ensures x in a <==> x in b {
      assert x in a <==> x in multiset(a);
      assert x in b <==> x in multiset(b);
    }
    assert |a| == |multiset(a)| == |multiset(b)| == |b|;
    DistinctIffCard(catalog, a);
    DistinctIffCard(catalog, b);
  }

  // ---------------------------------------------------------------------------
  // The validation loop

  /** Appending a known code of a category not yet covered keeps the categories distinct. */
  lemma AppendKnownDistinct(catalog: map<string, Component>, p: seq<string>, x: string)
    requires AllKnown(catalog, p) && DistinctCategories(catalog, p) && x in catalog
    requires catalog[x].category !in CategoriesOf(catalog, p)
    ensures AllKnown(catalog, p + [x]) && DistinctCategories(catalog, p + [x])
  {
    var s := p + [x];
    assert AllKnown(catalog, s);
    forall i, j | 0 <= i < j < |s|
      ensures catalog[s[i]].category != catalog[s[j]].category
    {
      assert s[i] == p[i] && s[i] in p;
      if j < |p| {
        assert s[j] == p[j];
      }
    }
  }

  /** A category among those of `p` is the category of some position of `p`. */
  lemma CategoryPosition(catalog: map<string, Component>, p: seq<string>, c: string) returns (i: nat)
    requires AllKnown(catalog, p) && c in CategoriesOf(catalog, p)
    ensures i < |p| && catalog[p[i]].category == c
  {
    var y :| y in p && catalog[y].category == c;
    i :| 0 <= i < |p| && p[i] == y;
  }

  /**
   When the loop runs to the end, every code was known and no category
   repeated, and it has collected the categories, the part names in order and
   the sum of the prices.
   */
  lemma {:induction false} ScanCollects(catalog: map<string, Component>, s: seq<string>)
    requires ScanCodes(catalog, s).Scanning?
    ensures AllKnown(catalog, s) && DistinctCategories(catalog, s)
    ensures ScanCodes(catalog, s).selected == CategoriesOf(catalog, s)
    ensures ScanCodes(catalog, s).total == TotalCents(catalog, s)
    ensures |ScanCodes(catalog, s).parts| == |s|
    ensures forall i :: 0 <= i < |s| ==> ScanCodes(catalog, s).parts[i] == catalog[s[i]].part
    decreases |s|
  {
    if s == [] {
      assert CategoriesOf(catalog, s) == {};
    } else {
      var p, x := s[..|s| - 1], s[|s| - 1];
      assert s == p + [x];
      var before := ScanCodes(catalog, p);
      assert before.Scanning?;
      ScanCollects(catalog, p);
      CategoriesOfAppend(catalog, p, x);
      AppendKnownDistinct(catalog, p, x);
      TotalCentsAppend(catalog, p, [x]);
      assert TotalCents(catalog, [x]) == catalog[x].priceCents;
    }
  }

  /**
   One more iteration after a prefix the loop got through: it goes on exactly
   when the next code is known and of a category the prefix does not cover,
   and otherwise stops with the unknown-code or the repeated-category error.
   */
  lemma StepExtendsPrefix(catalog: map<string, Component>, p: seq<string>, x: string)
    requires ScanCodes(catalog, p).Scanning?
    ensures AllKnown(catalog, p)
    ensures ScanCodes(catalog, p + [x]).Scanning? <==> x in catalog && catalog[x].category !in CategoriesOf(catalog, p)
    ensures x !in catalog ==> ScanCodes(catalog, p + [x]) == Stopped(UnknownComponent(x))
    ensures x in catalog && catalog[x].category in CategoriesOf(catalog, p) ==>
      ScanCodes(catalog, p + [x]) == Stopped(DuplicateCategory(catalog[x].category))
  {
    assert (p + [x])[..|p + [x]| - 1] == p;
    ScanCollects(catalog, p);
  }

  /** Every failure of the loop is a failure at its first failing position. */
  lemma {:induction false} FailureHasFirstPosition(catalog: map<string, Component>, s: seq<string>)
    requires ScanCodes(catalog, s).Stopped?
    ensures exists k: nat :: FirstFailureAt(catalog, s, k) && ScanCodes(catalog, s).error == FailureAt(catalog, s, k)
    decreases |s|
  {
    var p, x := s[..|s| - 1], s[|s| - 1];
    if ScanCodes(catalog, p).Stopped? {
      FailureHasFirstPosition(catalog, p);
      var k: nat :| FirstFailureAt(catalog, p, k) && ScanCodes(catalog, p).error == FailureAt(catalog, p, k);
      assert s[..k] == p[..k] && s[k] == p[k];
      if s[k] in catalog {
        var i :| 0 <= i < k && catalog[p[i]].category == catalog[p[k]].category;
        assert s[i] == p[i];
      }
      assert FirstFailureAt(catalog, s, k);
    } else {
      var k := |s| - 1;
      assert s[..k] == p;
      ScanCollects(catalog, p);
      if x in catalog {
        var i := CategoryPosition(catalog, p, catalog[x].category);
        assert s[i] == p[i];
      }
      assert FirstFailureAt(catalog, s, k);
    }
  }

  /** The loop runs to the end exactly when every code is known and no category repeats. */
  lemma ScanSucceeds(catalog: map<string, Component>, s: seq<string>)
    ensures ScanCodes(catalog, s).Scanning? <==> AllKnown(catalog, s) && DistinctCategories(catalog, s)
  {
    if ScanCodes(catalog, s).Scanning? {
      ScanCollects(catalog, s);
    } else {
      FailureHasFirstPosition(catalog, s);
      var k: nat :| FirstFailureAt(catalog, s, k);
      if AllKnown(catalog, s) {
        var i :| 0 <= i < k && catalog[s[i]].category == catalog[s[k]].category;
        assert !DistinctCategories(catalog, s);
      }
    }
  }

  /** The code at the first failing position decides the error, whatever follows it. */
  lemma FirstFailureDecides(catalog: map<string, Component>, s: seq<string>, k: nat)
    requires FirstFailureAt(catalog, s, k)
    ensures ScanCodes(catalog, s) == Stopped(FailureAt(catalog, s, k))
  {
    var p := s[..k];
    ScanSucceeds(catalog, p);
    ScanCollects(catalog, p);
    assert s[..k + 1] == p + [s[k]];
    assert s[..k + 1][..k] == p;
    if s[k] in catalog {
      var i :| 0 <= i < k && catalog[s[i]].category == catalog[s[k]].category;
      assert s[i] == p[i] && p[i] in p;
    }
    StopEarly(catalog, s, k);
  }

  // ---------------------------------------------------------------------------
  // The handler's outcomes

  /** A missing field, a value that is not a list and an empty list are the invalid-request cases, and the only ones. */
  lemma InvalidShapeIff(catalog: map<string, Component>, required: set<string>,
                        field: ComponentsField, timestamp: nat, randomNumber: nat)
    ensures OrderOutcome(catalog, required, field, timestamp, randomNumber) == InvalidShape
        <==> field.Absent? || field.NotAList? || (field.CodeList? && field.codes == [])
  {
    if field.CodeList? {
      ScanOfSorted(catalog, field.codes);
    }
  }

  /** The answer does not depend on the order in which the client listed the codes. */
  lemma OutcomeIgnoresInputOrder(catalog: map<string, Component>, required: set<string>,
                                 a: seq<string>, b: seq<string>, timestamp: nat, randomNumber: nat)
    requires multiset(a) == multiset(b)
    ensures OrderOutcome(catalog, required, CodeList(a), timestamp, randomNumber)
         == OrderOutcome(catalog, required, CodeList(b), timestamp, randomNumber)
  {
    SortCodesPermutation(a, b);
    assert |a| == |multiset(a)| == |multiset(b)| == |b|;
  }

  /**
   Fail-fast: the first code in sorted order that is unknown or repeats a
   category decides the error, and every error arises this way.
   */
  lemma OutcomeFailsAtFirstBadCode(catalog: map<string, Component>, required: set<string>,
                                   codes: seq<string>, timestamp: nat, randomNumber: nat, k: nat)
    requires FirstFailureAt(catalog, SortCodes(codes), k)
    ensures OrderOutcome(catalog, required, CodeList(codes), timestamp, randomNumber)
         == FailureAt(catalog, SortCodes(codes), k)
  {
    FirstFailureDecides(catalog, SortCodes(codes), k);
  }

  lemma OutcomeErrorHasFirstBadCode(catalog: map<string, Component>, required: set<string>,
                                    codes: seq<string>, timestamp: nat, randomNumber: nat)
    requires OrderOutcome(catalog, required, CodeList(codes), timestamp, randomNumber).UnknownComponent?
          || OrderOutcome(catalog, required, CodeList(codes), timestamp, randomNumber).DuplicateCategory?
    ensures exists k: nat :: (FirstFailureAt(catalog, SortCodes(codes), k)
      && OrderOutcome(catalog, required, CodeList(codes), timestamp, randomNumber) == FailureAt(catalog, SortCodes(codes), k))
  {
    FailureHasFirstPosition(catalog, SortCodes(codes));
  }

  /** Two known codes of one category (a repeated code included) give the one-part-per-category error. */
  lemma SharedCategoryRejected(catalog: map<string, Component>, required: set<string>,
                               codes: seq<string>, timestamp: nat, randomNumber: nat, i: nat, j: nat)
    requires AllKnown(catalog, codes)
    requires i < |codes| && j < |codes| && i != j
    requires catalog[codes[i]].category == catalog[codes[j]].category
    ensures OrderOutcome(catalog, required, CodeList(codes), timestamp, randomNumber).DuplicateCategory?
  {
    assert !DistinctCategories(catalog, codes) by {
      if i < j {
        assert catalog[codes[i]].category == catalog[codes[j]].category;
      } else {
        assert catalog[codes[j]].category == catalog[codes[i]].category;
      }
    }
    ScanOfSorted(catalog, codes);
  }

  /**
   The loop over the sorted codes runs to the end exactly when the codes as
   given are known and of distinct categories; it then has collected their
   categories, and otherwise it stopped on one of the two loop errors.
   */
  lemma ScanOfSorted(catalog: map<string, Component>, codes: seq<string>)
    ensures ScanCodes(catalog, SortCodes(codes)).Scanning?
        <==> AllKnown(catalog, codes) && DistinctCategories(catalog, codes)
    ensures ScanCodes(catalog, SortCodes(codes)).Scanning? ==>
      ScanCodes(catalog, SortCodes(codes)).selected == CategoriesOf(catalog, codes)
    ensures ScanCodes(catalog, SortCodes(codes)).Stopped? ==>
      ScanCodes(catalog, SortCodes(codes)).error.UnknownComponent?
      || ScanCodes(catalog, SortCodes(codes)).error.DuplicateCategory?
    ensures ScanCodes(catalog, SortCodes(codes)).Stopped? && AllKnown(catalog, codes) ==>
      ScanCodes(catalog, SortCodes(codes)).error.DuplicateCategory?
  {
    var s := SortCodes(codes);
    ScanSucceeds(catalog, s);
    if ScanCodes(catalog, s).Stopped? {
      FailureHasFirstPosition(catalog, s);
    } else {
      ScanCollects(catalog, s);
    }
    if AllKnown(catalog, codes) {
      DistinctPermutation(catalog, codes, s);
    } else if AllKnown(catalog, s) {
      AllKnownPermutation(catalog, s, codes);
    }
  }

  /** Known codes of distinct categories that miss a required category give the missing-category error, and only they do. */
  lemma MissingCategoriesIff(catalog: map<string, Component>, required: set<string>,
                             codes: seq<string>, timestamp: nat, randomNumber: nat)
    ensures OrderOutcome(catalog, required, CodeList(codes), timestamp, randomNumber) == MissingCategories
        <==> codes != [] && AllKnown(catalog, codes) && DistinctCategories(catalog, codes)
             && CategoriesOf(catalog, codes) != required
  {
    ScanOfSorted(catalog, codes);
  }

  /** The order goes through exactly when every code is known, no category repeats and the required categories are covered. */
  lemma SuccessIff(catalog: map<string, Component>, required: set<string>,
                   codes: seq<string>, timestamp: nat, randomNumber: nat)
    ensures OrderOutcome(catalog, required, CodeList(codes), timestamp, randomNumber).Ok?
        <==> codes != [] && AllKnown(catalog, codes) && DistinctCategories(catalog, codes)
             && CategoriesOf(catalog, codes) == required
  {
    ScanOfSorted(catalog, codes);
  }

  /**
   A successful order has one code per required category, so as many codes
   and parts as categories; its total is the sum of the catalog prices; its
   parts are the catalog names in sorted-code order; its id is built from the
   sorted codes.
   */
  lemma SuccessfulOrder(catalog: map<string, Component>, required: set<string>,
                        codes: seq<string>, timestamp: nat, randomNumber: nat)
    requires OrderOutcome(catalog, required, CodeList(codes), timestamp, randomNumber).Ok?
    ensures AllKnown(catalog, codes) && DistinctCategories(catalog, codes)
    ensures CategoriesOf(catalog, codes) == required
    ensures |codes| == |required|
    ensures AllKnown(catalog, SortCodes(codes))
    ensures var r := OrderOutcome(catalog, required, CodeList(codes), timestamp, randomNumber);
      && r.totalCents == TotalCents(catalog, codes)
      && |r.orderedParts| == |required|
      && (forall i :: 0 <= i < |codes| ==> r.orderedParts[i] == catalog[SortCodes(codes)[i]].part)
      && r.orderId == OrderId(timestamp, SortCodes(codes), randomNumber)
  {
    var s := SortCodes(codes);
    ScanOfSorted(catalog, codes);
    var st := ScanCodes(catalog, s);
    assert OrderOutcome(catalog, required, CodeList(codes), timestamp, randomNumber)
        == Ok(OrderId(timestamp, s, randomNumber), st.total, st.parts);
    DistinctIffCard(catalog, codes);
    ScanCollects(catalog, s);
    TotalCentsPermutation(catalog, codes, s);
  }

  /**
   The clock and the random draw only affect the order id: two requests with
   the same codes get the same answer, total and parts whenever they are read.
   */
  lemma OutcomeIgnoresClock(catalog: map<string, Component>, required: set<string>, field: ComponentsField,
                            timestamp1: nat, randomNumber1: nat, timestamp2: nat, randomNumber2: nat)
    ensures var r1 := OrderOutcome(catalog, required, field, timestamp1, randomNumber1);
      var r2 := OrderOutcome(catalog, required, field, timestamp2, randomNumber2);
      && r1.Ok? == r2.Ok?
      && (r1.Ok? ==> r1.totalCents == r2.totalCents && r1.orderedParts == r2.orderedParts)
      && (!r1.Ok? ==> r1 == r2)
  {
  }

  // ---------------------------------------------------------------------------
  // The order id

  /**
   With a random number from 1000 to 9999, the id is the timestamp's digits,
   then the joined codes, then exactly four digits that read back as the
   random number.
   */
  lemma OrderIdLayout(timestamp: nat, sortedCodes: seq<string>, randomNumber: nat)
    requires 1000 <= randomNumber <= 9999
    ensures var id := OrderId(timestamp, sortedCodes, randomNumber);
      var n := |DecimalString(timestamp)|;
      && |id| == n + |Concat(sortedCodes)| + 4
      && id[..n] == DecimalString(timestamp)
      && id[n..|id| - 4] == Concat(sortedCodes)
      && (forall i :: |id| - 4 <= i < |id| ==> IsDigit(id[i]))
      && ParseDecimal(id[|id| - 4..]) == randomNumber
  {
    var id := OrderId(timestamp, sortedCodes, randomNumber);
    var t, c, d := DecimalString(timestamp), Concat(sortedCodes), DecimalString(randomNumber);
    FourDigits(randomNumber);
    ParseDecimalString(randomNumber);
    assert id == t + c + d;
    assert id[..|t|] == t;
    assert id[|t|..|id| - 4] == c;
    assert id[|id| - 4..] == d;
  }
}
