/** The array operations the source relies on (`indexOf`, `filter`,
    `splice`), on sequences. */
module Seqs {

  /** `Array.prototype.indexOf`: the first position of `x`, or -1. */
  function IndexOf<T(==)>(s: seq<T>, x: T): (i: int)
    ensures -1 <= i < |s|
    ensures i == -1 <==> x !in s
    ensures 0 <= i ==> s[i] == x && forall j :: 0 <= j < i ==> s[j] != x
  {
    if s == [] then -1
    else if s[0] == x then 0
    else
      var i := IndexOf(s[1..], x);
      if i == -1 then -1 else i + 1
  }

  /** `Array.prototype.findIndex`: the first position whose element
      satisfies `p`, or -1 (`find` returns the element at that position). */
  function FindIndex<T>(s: seq<T>, p: T -> bool): (i: int)
    ensures -1 <= i < |s|
    ensures i == -1 <==> forall j :: 0 <= j < |s| ==> !p(s[j])
    ensures 0 <= i ==> p(s[i]) && forall j :: 0 <= j < i ==> !p(s[j])
  {
    if s == [] then -1
    else if p(s[0]) then 0
    else
      var i := FindIndex(s[1..], p);
      if i == -1 then -1 else i + 1
  }

  /** `splice(i, 1)` for a position inside the array. */
  function RemoveAt<T>(s: seq<T>, i: nat): (r: seq<T>)
    requires i < |s|
    ensures |r| == |s| - 1
  {
    s[..i] + s[i + 1..]
  }

  predicate Distinct<T(==)>(s: seq<T>)
  {
    forall i, j :: 0 <= i < j < |s| ==> s[i] != s[j]
  }

  /** `Array.prototype.filter`. */
  function Filter<T>(s: seq<T>, keep: T -> bool): (r: seq<T>)
    ensures |r| <= |s|
    ensures forall i :: 0 <= i < |r| ==> r[i] in s && keep(r[i])
    ensures forall i :: 0 <= i < |s| && keep(s[i]) ==> s[i] in r
  {
    if s == [] then []
    else (if keep(s[0]) then [s[0]] else []) + Filter(s[1..], keep)
  }

  /** The elements that fail `p`, in order: the complement of `Filter`. */
  function Reject<T>(s: seq<T>, p: T -> bool): (r: seq<T>)
    ensures |r| <= |s|
    ensures forall i :: 0 <= i < |r| ==> r[i] in s && !p(r[i])
    ensures forall i :: 0 <= i < |s| && !p(s[i]) ==> s[i] in r
  {
    if s == [] then []
    else (if p(s[0]) then [] else [s[0]]) + Reject(s[1..], p)
  }

  /** Filtering keeps the relative order: it distributes over concatenation. */
  lemma {:induction false} FilterAppend<T>(a: seq<T>, b: seq<T>, keep: T -> bool)
    ensures Filter(a + b, keep) == Filter(a, keep) + Filter(b, keep)
  {
    if a == [] {
      assert a + b == b;
    } else {
      assert (a + b)[0] == a[0];
      assert (a + b)[1..] == a[1..] + b;
      FilterAppend(a[1..], b, keep);
    }
  }

  /** Filtering a sequence whose elements all pass leaves it unchanged. */
  lemma {:induction false} FilterAllKept<T>(s: seq<T>, keep: T -> bool)
    requires forall i :: 0 <= i < |s| ==> keep(s[i])
    ensures Filter(s, keep) == s
  {
    if s != [] {
      FilterAllKept(s[1..], keep);
    }
  }

  /** A filtered distinct sequence is distinct. */
  lemma {:induction false} FilterDistinct<T>(s: seq<T>, keep: T -> bool)
    requires Distinct(s)
    ensures Distinct(Filter(s, keep))
  {
    if s != [] {
      FilterDistinct(s[1..], keep);
      var rest := Filter(s[1..], keep);
      assert s[0] !in s[1..];
      assert s[0] !in rest;
    }
  }

  /** The elements of `s` that do not occur in `xs`, in order: what a loop of
      `indexOf` + `splice` over `xs` leaves of a distinct `s`. */
  function Without<T(==)>(s: seq<T>, xs: seq<T>): (r: seq<T>)
    ensures |r| <= |s|
    ensures forall i :: 0 <= i < |r| ==> r[i] in s && r[i] !in xs
    ensures forall i :: 0 <= i < |s| && s[i] !in xs ==> s[i] in r
  {
    if s == [] then []
    else (if s[0] in xs then [] else [s[0]]) + Without(s[1..], xs)
  }

  lemma {:induction false} WithoutDistinct<T>(s: seq<T>, xs: seq<T>)
    requires Distinct(s)
    ensures Distinct(Without(s, xs))
  {
    if s != [] {
      WithoutDistinct(s[1..], xs);
      assert s[0] !in s[1..];
    }
  }

  lemma {:induction false} WithoutNothing<T>(s: seq<T>)
    ensures Without(s, []) == s
  {
    if s != [] {
      WithoutNothing(s[1..]);
    }
  }

  /** Removing `xs` and then `x` is removing `xs + [x]`. */
  lemma {:induction false} WithoutSnoc<T>(s: seq<T>, xs: seq<T>, x: T)
    ensures Without(s, xs + [x]) == Without(Without(s, xs), [x])
  {
    if s != [] {
      WithoutSnoc(s[1..], xs, x);
      var w := Without(s, xs);
      if s[0] in xs {
        assert w == Without(s[1..], xs);
      } else {
        assert w == [s[0]] + Without(s[1..], xs);
        assert w[0] == s[0] && w[1..] == Without(s[1..], xs);
      }
    }
  }

  /** In a distinct sequence, splicing out the position of `x` removes `x`. */
  lemma {:induction false} RemoveAtIsWithout<T>(s: seq<T>, i: nat)
    requires Distinct(s) && i < |s|
    ensures RemoveAt(s, i) == Without(s, [s[i]])
  {
    if i == 0 {
      assert s[0] !in s[1..];
      WithoutAbsent(s[1..], s[0]);
      assert RemoveAt(s, 0) == s[1..];
    } else {
      var t := s[1..];
      assert t[i - 1] == s[i] && s[0] != s[i];
      DistinctTail(s);
      RemoveAtIsWithout(t, i - 1);
      RemoveAtCons(s, i);
    }
  }

  lemma DistinctTail<T>(s: seq<T>)
    requires Distinct(s) && s != []
    ensures Distinct(s[1..])
  {
    var t := s[1..];
    forall a, b | 0 <= a < b < |t|
      ensures t[a] != t[b]
    {
      assert t[a] == s[a + 1] && t[b] == s[b + 1];
    }
  }

  lemma RemoveAtCons<T>(s: seq<T>, i: nat)
    requires 0 < i < |s|
    ensures RemoveAt(s, i) == [s[0]] + RemoveAt(s[1..], i - 1)
  {
    assert s[..i] == [s[0]] + s[1..][..i - 1];
    assert s[i + 1..] == s[1..][i..];
  }

  lemma {:induction false} WithoutAbsent<T>(s: seq<T>, x: T)
    requires x !in s
    ensures Without(s, [x]) == s
  {
    if s != [] {
      WithoutAbsent(s[1..], x);
    }
  }

  /** Only the elements of `s` matter to `Without`: two removal lists that
      agree on them remove the same. */
  lemma {:induction false} WithoutIrrelevant<T>(s: seq<T>, xs: seq<T>, ys: seq<T>)
    requires forall i :: 0 <= i < |s| ==> (s[i] in xs <==> s[i] in ys)
    ensures Without(s, xs) == Without(s, ys)
  {
    if s != [] {
      WithoutIrrelevant(s[1..], xs, ys);
    }
  }

  /** `find` and `filter` agree: the first match exists exactly when the
      filtered sequence is non-empty, and it is that sequence's head. */
  lemma {:induction false} FindIndexIsFilterHead<T>(s: seq<T>, p: T -> bool)
    ensures FindIndex(s, p) == -1 <==> Filter(s, p) == []
    ensures FindIndex(s, p) != -1 ==> Filter(s, p)[0] == s[FindIndex(s, p)]
  {
    if s != [] && !p(s[0]) {
      FindIndexIsFilterHead(s[1..], p);
    }
  }

  /** Appending unless already present (the `indexOf` guard before `push`). */
  function AppendNew<T(==)>(s: seq<T>, x: T): seq<T>
  {
    if x in s then s else s + [x]
  }

  /** Appending unless present keeps a sequence distinct, contains exactly
      the old elements and `x`, extends the old sequence, and a second
      append of the same element changes nothing. */
  lemma AppendNewProperties<T>(s: seq<T>, x: T)
    ensures Distinct(s) ==> Distinct(AppendNew(s, x))
    ensures forall y :: y in AppendNew(s, x) <==> y in s || y == x
    ensures AppendNew(s, x)[..|s|] == s
    ensures x !in s ==> AppendNew(s, x) == s + [x]
    ensures AppendNew(AppendNew(s, x), x) == AppendNew(s, x)
  {
    if x !in s {
      assert (s + [x])[..|s|] == s;
    }
  }

  /** Removing the first occurrence, if any (`indexOf` then `splice` when
      found). */
  function RemoveFirst<T(==)>(s: seq<T>, x: T): seq<T>
  {
    var i := IndexOf(s, x);
    if i == -1 then s else RemoveAt(s, i)
  }

  /** In a distinct sequence, removing the first occurrence removes `x` and
      nothing else, keeps the order of the rest and keeps it distinct; an
      absent `x` changes nothing. */
  lemma RemoveFirstProperties<T>(s: seq<T>, x: T)
    requires Distinct(s)
    ensures RemoveFirst(s, x) == Without(s, [x])
    ensures Distinct(RemoveFirst(s, x))
    ensures x !in RemoveFirst(s, x)
    ensures x !in s ==> RemoveFirst(s, x) == s
  {
    var i := IndexOf(s, x);
    if i == -1 {
      WithoutAbsent(s, x);
    } else {
      RemoveAtIsWithout(s, i);
    }
    WithoutDistinct(s, [x]);
  }
}
