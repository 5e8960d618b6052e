/**
 * Python's in-place `list.sort()` on a list of strings, as an insertion
 * sort over an array: afterwards the array is sorted and holds the same
 * strings, so it equals the reference `Strings.SortLex` of what it held.
 */
module LexSort {
  import opened Strings

  /** Exchanges `a[j - 1]` and `a[j]`. */
  method SwapDown(a: array<string>, j: int)
    requires 0 < j < a.Length
    modifies a
    ensures a[j - 1] == old(a[j]) && a[j] == old(a[j - 1])
    ensures forall k :: 0 <= k < a.Length && k != j - 1 && k != j ==> a[k] == old(a[k])
    ensures multiset(a[..]) == multiset(old(a[..]))
  {
    a[j - 1], a[j] := a[j], a[j - 1];
  }

  /** Moves `a[i]` down into the sorted prefix `a[..i]`, leaving `a[..i + 1]` sorted. */
  method SinkInto(a: array<string>, i: int)
    requires 0 <= i < a.Length
    requires forall k :: 0 <= k < i - 1 ==> Le(a[k], a[k + 1])
    modifies a
    ensures forall k :: 0 <= k < i ==> Le(a[k], a[k + 1])
    ensures multiset(a[..]) == multiset(old(a[..]))
  {
    var j := i;
    while j > 0 && !Le(a[j - 1], a[j])
      invariant 0 <= j <= i
      invariant forall k :: 0 <= k < i && k != j - 1 ==> Le(a[k], a[k + 1])
      invariant 0 < j < i ==> Le(a[j - 1], a[j + 1])
      invariant multiset(a[..]) == multiset(old(a[..]))
    {
      LeTotal(a[j - 1], a[j]);
      SwapDown(a, j);
      j := j - 1;
    }
  }

  method SortInPlace(a: array<string>)
    modifies a
    ensures Sorted(a[..])
    ensures multiset(a[..]) == multiset(old(a[..]))
    ensures a[..] == SortLex(old(a[..]))
  {
    var i := 0;
    while i < a.Length
      invariant 0 <= i <= a.Length
      invariant forall k :: 0 <= k < i - 1 ==> Le(a[k], a[k + 1])
      invariant multiset(a[..]) == multiset(old(a[..]))
    {
      SinkInto(a, i);
      i := i + 1;
    }
    assert Sorted(a[..]);
    SortedUnique(a[..], SortLex(old(a[..])));
  }
}
