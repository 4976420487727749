/**
 * Order-preserving selection from a sequence: the boolean-mask indexing
 * (`df[mask]`) the analyzer uses for every filter it applies.
 */
module Filtering {

  /** The elements of s that satisfy p, in their original order. */
  function Filter<T>(s: seq<T>, p: T -> bool): (r: seq<T>)
    ensures |r| <= |s|
    ensures forall x :: x in r ==> x in s && p(x)
    decreases |s|
  {
    if s == [] then []
    else
      var init := s[..|s| - 1];
      var last := s[|s| - 1];
      assert forall x :: x in init ==> x in s;
      Filter(init, p) + (if p(last) then [last] else [])
  }

  /** Filtering one more element at the end extends the selection by that element, if it is kept. */
  lemma FilterSnoc<T>(s: seq<T>, x: T, p: T -> bool)
    ensures Filter(s + [x], p) == Filter(s, p) + (if p(x) then [x] else [])
  {
  }

  /** Every copy of a kept value survives the filter, and no copy of a dropped value does. */
  lemma {:induction false} FilterMultiplicity<T>(s: seq<T>, p: T -> bool)
    ensures forall x :: multiset(Filter(s, p))[x] == if p(x) then multiset(s)[x] else 0
    decreases |s|
  {
    if s != [] {
      var init := s[..|s| - 1];
      var last := s[|s| - 1];
      FilterMultiplicity(init, p);
      assert s == init + [last];
    }
  }

  /** A value of s is kept exactly when it satisfies p. */
  lemma FilterMembership<T>(s: seq<T>, p: T -> bool, x: T)
    ensures x in Filter(s, p) <==> x in s && p(x)
  {
  }

  /** Two selections by p from the same multiset of values are the same multiset. */
  lemma SameSelection<T>(fa: multiset<T>, fb: multiset<T>, m: multiset<T>, p: T -> bool)
    requires forall x :: fa[x] == if p(x) then m[x] else 0
    requires forall x :: fb[x] == if p(x) then m[x] else 0
    ensures fa == fb
  {
  }

  /** Two orderings of the same values keep the same number of elements. */
  lemma FilterLengthUnderPermutation<T>(a: seq<T>, b: seq<T>, p: T -> bool)
    requires multiset(a) == multiset(b)
    ensures |Filter(a, p)| == |Filter(b, p)|
  {
    FilterMultiplicity(a, p);
    FilterMultiplicity(b, p);
    SameSelection(multiset(Filter(a, p)), multiset(Filter(b, p)), multiset(a), p);
    assert |multiset(Filter(a, p))| == |Filter(a, p)|;
    assert |multiset(Filter(b, p))| == |Filter(b, p)|;
  }

  /** idx lists, in strictly increasing order, the positions of s that sub is made of. */
  ghost predicate Embeds<T>(sub: seq<T>, s: seq<T>, idx: seq<int>)
  {
    && |idx| == |sub|
    && (forall j :: 0 <= j < |idx| ==> 0 <= idx[j] < |s| && sub[j] == s[idx[j]])
    && (forall j, k :: 0 <= j < k < |idx| ==> idx[j] < idx[k])
  }

  /** sub is obtained from s by deleting elements, keeping the rest in order. */
  ghost predicate IsSubsequence<T>(sub: seq<T>, s: seq<T>)
  {
    exists idx :: Embeds(sub, s, idx)
  }

  /** Appending the same element to both sides extends an embedding by the last position. */
  lemma EmbedsSnoc<T>(sub: seq<T>, s: seq<T>, idx: seq<int>, x: T)
    requires Embeds(sub, s, idx)
    ensures Embeds(sub + [x], s + [x], idx + [|s|])
  {
  }

  /** An embedding into s is also one into s extended at the end. */
  lemma EmbedsExtend<T>(sub: seq<T>, s: seq<T>, idx: seq<int>, x: T)
    requires Embeds(sub, s, idx)
    ensures Embeds(sub, s + [x], idx)
  {
  }

  /** Filtering keeps the original relative order. */
  lemma {:induction false} FilterIsSubsequence<T>(s: seq<T>, p: T -> bool)
    ensures IsSubsequence(Filter(s, p), s)
    decreases |s|
  {
    if s == [] {
      assert Embeds(Filter(s, p), s, []);
    } else {
      var init := s[..|s| - 1];
      var last := s[|s| - 1];
      assert s == init + [last];
      FilterIsSubsequence(init, p);
      var idx :| Embeds(Filter(init, p), init, idx);
      if p(last) {
        EmbedsSnoc(Filter(init, p), init, idx, last);
        assert Embeds(Filter(s, p), s, idx + [|init|]);
      } else {
        EmbedsExtend(Filter(init, p), init, idx, last);
        assert Embeds(Filter(s, p), s, idx);
      }
    }
  }
}
