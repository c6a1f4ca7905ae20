/**
 Python's ordering on `str` (lexicographic by code point, a proper prefix
 before its extensions) and the in-place `list.sort()` that the order handler
 applies to the submitted component codes.
 */
module StringOrder {

  /** `a <= b` on Python strings. */
  predicate LexLe(a: string, b: string)
    decreases |a|
  {
    |a| == 0 || (|b| > 0 && (a[0] < b[0] || (a[0] == b[0] && LexLe(a[1..], b[1..]))))
  }

  lemma {:induction false} LexLeReflexive(a: string)
    ensures LexLe(a, a)
    decreases |a|
  {
    if |a| > 0 {
      LexLeReflexive(a[1..]);
    }
  }

  lemma {:induction false} LexLeTotal(a: string, b: string)
    ensures LexLe(a, b) || LexLe(b, a)
    decreases |a|
  {
    if |a| > 0 && |b| > 0 && a[0] == b[0] {
      LexLeTotal(a[1..], b[1..]);
    }
  }

  lemma {:induction false} LexLeAntisymmetric(a: string, b: string)
    requires LexLe(a, b) && LexLe(b, a)
    ensures a == b
    decreases |a|
  {
    if |a| > 0 {
      LexLeAntisymmetric(a[1..], b[1..]);
      assert a == [a[0]] + a[1..];
      assert b == [b[0]] + b[1..];
    }
  }

  lemma {:induction false} LexLeTransitive(a: string, b: string, c: string)
    requires LexLe(a, b) && LexLe(b, c)
    ensures LexLe(a, c)
    decreases |a|
  {
    if |a| > 0 && a[0] == b[0] && b[0] == c[0] {
      LexLeTransitive(a[1..], b[1..], c[1..]);
    }
  }

  /** Every code is `<=` every code after it. */
  ghost predicate Sorted(s: seq<string>)
  {
    forall i, j :: 0 <= i < j < |s| ==> LexLe(s[i], s[j])
  }

  /** Inserts `x` before the first element not below it. */
  function Insert(x: string, s: seq<string>): (r: seq<string>)
    ensures multiset(r) == multiset(s) + multiset{x}
    ensures |r| == |s| + 1
  {
    if s == [] then [x]
    else if LexLe(x, s[0]) then [x] + s
    else
      assert s == [s[0]] + s[1..];
      [s[0]] + Insert(x, s[1..])
  }

  /** Inserting into a sorted sequence keeps it sorted. */
  lemma {:induction false} InsertSorted(x: string, s: seq<string>)
    requires Sorted(s)
    ensures Sorted(Insert(x, s))
    decreases |s|
  {
    if s == [] {
    } else if LexLe(x, s[0]) {
      forall j | 0 < j < |s|
        ensures LexLe(x, s[j])
      {
        LexLeTransitive(x, s[0], s[j]);
      }
    } else {
      var t := Insert(x, s[1..]);
      InsertSorted(x, s[1..]);
      assert s == [s[0]] + s[1..];
      forall j | 0 <= j < |t|
        ensures LexLe(s[0], t[j])
      {
        assert t[j] in multiset(t);
        if t[j] == x {
          LexLeTotal(x, s[0]);
        } else {
          assert t[j] in multiset(s[1..]);
          var k :| 0 <= k < |s[1..]| && s[1..][k] == t[j];
          assert s[k + 1] == t[j];
        }
      }
    }
  }

  /** Python's `sorted(s)`, as insertion sort: a rearrangement of `s`. */
  function SortCodes(s: seq<string>): (r: seq<string>)
    ensures multiset(r) == multiset(s)
    ensures |r| == |s|
  {
    if s == [] then []
    else
      assert s == [s[0]] + s[1..];
      Insert(s[0], SortCodes(s[1..]))
  }

  /** The rearrangement is in ascending order. */
  lemma {:induction false} SortCodesSorted(s: seq<string>)
    ensures Sorted(SortCodes(s))
    decreases |s|
  {
    if s != [] {
      SortCodesSorted(s[1..]);
      InsertSorted(s[0], SortCodes(s[1..]));
    }
  }

  /** Two sorted arrangements of the same codes start with the same code, the least one. */
  lemma SortedHeads(a: seq<string>, b: seq<string>)
    requires Sorted(a) && Sorted(b) && |a| > 0 && |b| > 0
    requires multiset(a) == multiset(b)
    ensures a[0] == b[0]
  {
    assert a[0] in multiset(b);
    var k :| 0 <= k < |b| && b[k] == a[0];
    assert b[0] in multiset(a);
    var m :| 0 <= m < |a| && a[m] == b[0];
    if m > 0 { assert LexLe(a[0], a[m]); } else { LexLeReflexive(a[0]); }
    if k > 0 { assert LexLe(b[0], b[k]); } else { LexLeReflexive(b[0]); }
    LexLeAntisymmetric(a[0], b[0]);
  }

  /** Two sorted arrangements of the same codes are the same sequence. */
  lemma {:induction false} SortedUnique(a: seq<string>, b: seq<string>)
    requires Sorted(a) && Sorted(b)
    requires multiset(a) == multiset(b)
    ensures a == b
    decreases |a|
  {
    assert |a| == |multiset(a)| == |multiset(b)| == |b|;
    if |a| > 0 {
      SortedHeads(a, b);
      assert a == [a[0]] + a[1..];
      assert b == [b[0]] + b[1..];
      assert multiset(a[1..]) == multiset(a) - multiset{a[0]};
      assert multiset(b[1..]) == multiset(b) - multiset{b[0]};
      SortedUnique(a[1..], b[1..]);
    }
  }

  /** The sorted copy depends only on which codes were given, not on their order. */
  lemma SortCodesPermutation(s: seq<string>, t: seq<string>)
    requires multiset(s) == multiset(t)
    ensures SortCodes(s) == SortCodes(t)
  {
    SortCodesSorted(s);
    SortCodesSorted(t);
    SortedUnique(SortCodes(s), SortCodes(t));
  }

  /** A sequence that is already sorted is its own sorted copy. */
  lemma SortCodesIdentity(s: seq<string>)
    requires Sorted(s)
    ensures SortCodes(s) == s
  {
    SortCodesSorted(s);
    SortedUnique(SortCodes(s), s);
  }

  /** `list.sort()`: sorts the codes in place (insertion sort by adjacent swaps). */
  method SortInPlace(a: array<string>)
    modifies a
    ensures Sorted(a[..])
    ensures multiset(a[..]) == multiset(old(a[..]))
    ensures a[..] == SortCodes(old(a[..]))
  {
    for i := 0 to a.Length
      invariant Sorted(a[..i])
      invariant multiset(a[..]) == multiset(old(a[..]))
    {
      SinkInto(a, i);
    }
    assert a[..] == a[..a.Length];
    SortCodesSorted(old(a[..]));
    SortedUnique(a[..], SortCodes(old(a[..])));
  }

  /** Moves `a[i]` left past every larger code, extending the sorted prefix by one. */
  method SinkInto(a: array<string>, i: nat)
    requires i < a.Length
    requires Sorted(a[..i])
    modifies a
    ensures Sorted(a[..i + 1])
    ensures multiset(a[..]) == multiset(old(a[..]))
    ensures a[i + 1..] == old(a[i + 1..])
  {
    var j := i;
    SinkStart(a[..], i);
    while j > 0 && !LexLe(a[j - 1], a[j])
      invariant 0 <= j <= i
      invariant multiset(a[..]) == multiset(old(a[..]))
      invariant Sinking(a[..], i, j)
      invariant a[i + 1..] == old(a[i + 1..])
    {
      ghost var s := a[..];
      SinkStep(s, i, j);
      a[j - 1], a[j] := a[j], a[j - 1];
      assert a[..] == s[j - 1 := s[j]][j := s[j - 1]];
      j := j - 1;
    }
    SinkDone(a[..], i, j);
  }

  /**
   The state of the inner loop of insertion sort: `s[..i + 1]` is sorted
   except that the code being moved, at `j`, may be below its left neighbours.
   */
  ghost predicate Sinking(s: seq<string>, i: nat, j: nat)
  {
    j <= i < |s| &&
    (forall p, q :: 0 <= p < q <= i && p != j && q != j ==> LexLe(s[p], s[q])) &&
    (forall p, q :: 0 <= p < j < q <= i ==> LexLe(s[p], s[q])) &&
    (forall q :: j < q <= i ==> LexLe(s[j], s[q]))
  }

  lemma SinkStart(s: seq<string>, i: nat)
    requires i < |s| && Sorted(s[..i])
    ensures Sinking(s, i, i)
  {
    forall p, q | 0 <= p < q <= i && p != i && q != i
      ensures LexLe(s[p], s[q])
    {
      assert s[..i][p] == s[p] && s[..i][q] == s[q];
    }
  }

  lemma SinkStep(s: seq<string>, i: nat, j: nat)
    requires Sinking(s, i, j) && 0 < j && !LexLe(s[j - 1], s[j])
    ensures Sinking(s[j - 1 := s[j]][j := s[j - 1]], i, j - 1)
  {
    LexLeTotal(s[j - 1], s[j]);
  }

  lemma SinkDone(s: seq<string>, i: nat, j: nat)
    requires Sinking(s, i, j) && (j == 0 || LexLe(s[j - 1], s[j]))
    ensures Sorted(s[..i + 1])
  {
    forall p | 0 <= p < j - 1
      ensures LexLe(s[p], s[j])
    {
      LexLeTransitive(s[p], s[j - 1], s[j]);
    }
  }
}
