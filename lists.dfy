/**
 * The list comprehension `[g(x) for x in xs if p(x)]`, written once as a
 * filter-map, with the facts the verifier's proofs need: it distributes
 * over concatenation and it maps permutations to permutations.
 */
module Lists {
  import opened Wrappers

  /** Keeps, in order, the images of the elements that `f` maps to `Some`. */
  function FilterMap<A, B>(f: A -> Option<B>, s: seq<A>): seq<B>
  {
    if s == [] then []
    else (if f(s[0]).Some? then [f(s[0]).value] else []) + FilterMap(f, s[1..])
  }

  lemma {:induction false} FilterMapConcat<A, B>(f: A -> Option<B>, a: seq<A>, b: seq<A>)
    ensures FilterMap(f, a + b) == FilterMap(f, a) + FilterMap(f, b)
    decreases |a|
  {
    if a == [] {
      assert a + b == b;
    } else {
      assert (a + b)[0] == a[0] && (a + b)[1..] == a[1..] + b;
      FilterMapConcat(f, a[1..], b);
      var h := if f(a[0]).Some? then [f(a[0]).value] else [];
      assert FilterMap(f, a + b) == h + (FilterMap(f, a[1..]) + FilterMap(f, b));
      assert FilterMap(f, a) == h + FilterMap(f, a[1..]);
    }
  }

  /** Removing the element at `j` removes one copy of it. */
  lemma MultisetRemoveAt<A>(b: seq<A>, j: nat)
    requires j < |b|
    ensures multiset(b[..j] + b[j + 1..]) == multiset(b) - multiset{b[j]}
  {
    assert b == b[..j] + [b[j]] + b[j + 1..];
    assert multiset(b) == multiset(b[..j]) + multiset{b[j]} + multiset(b[j + 1..]);
  }

  /** Filter-mapping a list is filter-mapping one element and the rest. */
  lemma FilterMapAround<A, B>(f: A -> Option<B>, b: seq<A>, j: nat)
    requires j < |b|
    ensures multiset(FilterMap(f, b))
         == multiset(FilterMap(f, [b[j]])) + multiset(FilterMap(f, b[..j] + b[j + 1..]))
  {
    assert b == b[..j] + ([b[j]] + b[j + 1..]);
    FilterMapConcat(f, b[..j], [b[j]] + b[j + 1..]);
    FilterMapConcat(f, [b[j]], b[j + 1..]);
    FilterMapConcat(f, b[..j], b[j + 1..]);
  }

  /** A position holding an element of the multiset of `b`. */
  lemma Locate<A>(b: seq<A>, x: A) returns (j: nat)
    requires x in multiset(b)
    ensures j < |b| && b[j] == x
  {
    j :| 0 <= j < |b| && b[j] == x;
  }

  /** Taking the same element out of two permutations of each other leaves permutations. */
  lemma RemoveMatching<A>(a: seq<A>, b: seq<A>, j: nat)
    requires multiset(a) == multiset(b) && a != [] && j < |b| && b[j] == a[0]
    ensures multiset(a[1..]) == multiset(b[..j] + b[j + 1..])
  {
    MultisetRemoveAt(b, j);
    MultisetRemoveAt(a, 0);
    assert a[..0] + a[1..] == a[1..];
  }

  /** Reordering the input reorders the output: the two outputs hold the same elements. */
  lemma {:induction false} FilterMapPermutation<A, B>(f: A -> Option<B>, a: seq<A>, b: seq<A>)
    requires multiset(a) == multiset(b)
    ensures multiset(FilterMap(f, a)) == multiset(FilterMap(f, b))
    decreases |a|
  {
    if a == [] {
      assert b == [] by { assert |multiset(b)| == 0; }
    } else {
      var j := Locate(b, a[0]);
      var rest := b[..j] + b[j + 1..];
      RemoveMatching(a, b, j);
      FilterMapPermutation(f, a[1..], rest);
      FilterMapAround(f, a, 0);
      FilterMapAround(f, b, j);
      assert a[..0] + a[1..] == a[1..];
    }
  }
}
