/**
 * Python string primitives the handlers rely on: `str.split` with a
 * one-character separator, `sep.join`, the first-occurrence split
 * `str.split(sep, 1)`, `str.replace` of one character, and the ordering
 * `list.sort()` applies to strings (code point by code point, a proper
 * prefix first).
 */
module Strings {

  /** Python's `s.split(c)`: the pieces between occurrences of `c`; never an empty list. */
  function Split(s: string, c: char): (r: seq<string>)
    ensures |r| >= 1
    decreases |s|
  {
    if s == [] then [""]
    else if s[0] == c then [""] + Split(s[1..], c)
    else
      var t := Split(s[1..], c);
      [[s[0]] + t[0]] + t[1..]
  }

  /** No piece holds the separator. */
  lemma {:induction false} SplitPiecesFree(s: string, c: char)
    ensures forall i :: 0 <= i < |Split(s, c)| ==> c !in Split(s, c)[i]
    decreases |s|
  {
    if s != [] {
      SplitPiecesFree(s[1..], c);
    }
  }

  /** `s.split(c)` is a single piece exactly when `c` does not occur in `s`. */
  lemma {:induction false} SplitSingleIff(s: string, c: char)
    ensures |Split(s, c)| == 1 <==> c !in s
    decreases |s|
  {
    if s != [] {
      SplitSingleIff(s[1..], c);
      assert c in s <==> s[0] == c || c in s[1..];
    }
  }

  /** Python's `sep.join(parts)`. */
  function Join(parts: seq<string>, sep: string): string
  {
    if |parts| == 0 then ""
    else if |parts| == 1 then parts[0]
    else parts[0] + sep + Join(parts[1..], sep)
  }

  /** The position of the first `c` in `s`. */
  function IndexOf(s: string, c: char): (i: nat)
    requires c in s
    ensures i < |s| && s[i] == c
    ensures c !in s[..i]
  {
    if s[0] == c then 0
    else
      assert c in s[1..] by { var k :| 0 <= k < |s| && s[k] == c; assert s[1..][k - 1] == c; }
      var j := IndexOf(s[1..], c);
      assert s[..j + 1] == [s[0]] + s[1..][..j];
      1 + j
  }

  /** Python's `s.split(c, 1)` on a string that contains `c`: the text before the first `c` and the rest. */
  function SplitOnce(s: string, c: char): (r: (string, string))
    requires c in s
    ensures s == r.0 + [c] + r.1
    ensures c !in r.0
  {
    var i := IndexOf(s, c);
    assert s == s[..i] + [c] + s[i + 1..];
    (s[..i], s[i + 1..])
  }

  /** Python's `s.replace(x, y)` for one-character `x` and `y`. */
  function ReplaceChar(s: string, x: char, y: char): (r: string)
    ensures |r| == |s|
    ensures forall i :: 0 <= i < |s| ==> r[i] == (if s[i] == x then y else s[i])
  {
    seq(|s|, i requires 0 <= i < |s| => if s[i] == x then y else s[i])
  }

  /** Replacing a character that does not occur leaves the string as it was. */
  lemma ReplaceAbsent(s: string, x: char, y: char)
    requires x !in s
    ensures ReplaceChar(s, x, y) == s
  {
  }

  /** Joining the pieces of a split with the separator gives back the original string. */
  lemma {:induction false} JoinSplit(s: string, c: char)
    ensures Join(Split(s, c), [c]) == s
    decreases |s|
  {
    if s == [] {
    } else if s[0] == c {
      JoinSplit(s[1..], c);
      var t := Split(s[1..], c);
      assert Split(s, c) == [""] + t;
      assert Join([""] + t, [c]) == "" + [c] + Join(t, [c]);
    } else {
      JoinSplit(s[1..], c);
      var t := Split(s[1..], c);
      var h := [s[0]] + t[0];
      assert Split(s, c) == [h] + t[1..];
      if |t| == 1 {
        assert Join(t, [c]) == t[0];
      } else {
        assert Join(t, [c]) == t[0] + [c] + Join(t[1..], [c]);
        assert Join([h] + t[1..], [c]) == h + [c] + Join(t[1..], [c]);
      }
    }
  }

  /** Splitting at the first separator: the first piece, then the split of the rest. */
  lemma {:induction false} SplitAtFirst(s: string, c: char)
    requires c in s
    ensures Split(s, c) == [s[..IndexOf(s, c)]] + Split(s[IndexOf(s, c) + 1..], c)
    decreases |s|
  {
    if s[0] != c {
      var s' := s[1..];
      assert c in s' by { var k :| 0 <= k < |s| && s[k] == c; assert s'[k - 1] == c; }
      SplitAtFirst(s', c);
      var j := IndexOf(s', c);
      assert IndexOf(s, c) == 1 + j;
      var t := Split(s', c);
      assert t == [s'[..j]] + Split(s'[j + 1..], c);
      assert Split(s, c) == [[s[0]] + t[0]] + t[1..];
      assert [s[0]] + s'[..j] == s[..j + 1];
      assert s'[j + 1..] == s[j + 2..];
    }
  }

  /** A string without the separator splits into itself alone. */
  lemma SplitAbsent(s: string, c: char)
    requires c !in s
    ensures Split(s, c) == [s]
  {
    var r := Split(s, c);
    JoinSplit(s, c);
  }

  /** Splitting the join of separator-free, non-empty lists of pieces gives back the pieces. */
  lemma {:induction false} SplitJoin(parts: seq<string>, c: char)
    requires |parts| >= 1
    requires forall i :: 0 <= i < |parts| ==> c !in parts[i]
    ensures Split(Join(parts, [c]), c) == parts
    decreases |parts|
  {
    if |parts| == 1 {
      SplitAbsent(parts[0], c);
    } else {
      var rest := Join(parts[1..], [c]);
      var s := parts[0] + [c] + rest;
      assert Join(parts, [c]) == s;
      assert s[|parts[0]|] == c;
      assert c in s;
      var i := IndexOf(s, c);
      assert s[..|parts[0]|] == parts[0];
      assert i == |parts[0]|;
      SplitAtFirst(s, c);
      assert s[i + 1..] == rest;
      SplitJoin(parts[1..], c);
      assert parts == [parts[0]] + parts[1..];
    }
  }

  /** The first `c` is the one with no `c` before it. */
  lemma IndexOfUnique(s: string, c: char, i: nat)
    requires i < |s| && s[i] == c && c !in s[..i]
    ensures IndexOf(s, c) == i
  {
  }

  /** Joining a separator-free `a` to `b` at one separator: `a` is the first piece. */
  lemma SplitConcatAbsent(a: string, b: string, c: char)
    requires c !in a
    ensures Split(a + [c] + b, c) == Split(a, c) + Split(b, c)
  {
    var s := a + [c] + b;
    assert s[..|a|] == a;
    IndexOfUnique(s, c, |a|);
    SplitAtFirst(s, c);
    assert s[|a| + 1..] == b;
    SplitAbsent(a, c);
  }

  /** When `a` holds the separator, the first piece of `a + c + b` is the text before the first one in `a`. */
  lemma SplitConcatFirst(a: string, b: string, c: char)
    requires c in a
    ensures Split(a + [c] + b, c) == [a[..IndexOf(a, c)]] + Split(a[IndexOf(a, c) + 1..] + [c] + b, c)
  {
    var s := a + [c] + b;
    var i := IndexOf(a, c);
    assert s[..|a|] == a;
    assert s[..i] == a[..i];
    IndexOfUnique(s, c, i);
    SplitAtFirst(s, c);
    assert s[i + 1..] == a[i + 1..] + [c] + b;
  }

  /** Splitting a string joined at one separator splits each side. */
  lemma {:induction false} SplitConcat(a: string, b: string, c: char)
    ensures Split(a + [c] + b, c) == Split(a, c) + Split(b, c)
    decreases |a|
  {
    if c !in a {
      SplitConcatAbsent(a, b, c);
    } else {
      var i := IndexOf(a, c);
      var head, rest := a[..i], a[i + 1..];
      SplitConcat(rest, b, c);
      SplitConcatFirst(a, b, c);
      SplitAtFirst(a, c);
      var p, q := Split(rest, c), Split(b, c);
      assert [head] + (p + q) == ([head] + p) + q;
    }
  }

  /** A character absent from every piece and from the separator is absent from the join. */
  lemma {:induction false} JoinAvoids(parts: seq<string>, sep: string, x: char)
    requires x !in sep
    requires forall i :: 0 <= i < |parts| ==> x !in parts[i]
    ensures x !in Join(parts, sep)
    decreases |parts|
  {
    if |parts| > 1 {
      JoinAvoids(parts[1..], sep, x);
    }
  }

  /** Replacing a character commutes with concatenation. */
  lemma ReplaceConcat(a: string, b: string, x: char, y: char)
    ensures ReplaceChar(a + b, x, y) == ReplaceChar(a, x, y) + ReplaceChar(b, x, y)
  {
  }

  // ---------------------------------------------------------------------
  // Python's ordering on str, used by `list.sort()`.
  // ---------------------------------------------------------------------

  /** `a <= b` on Python strings: compare code points left to right; a proper prefix is smaller. */
  predicate Le(a: string, b: string)
  {
    if a == [] then true
    else if b == [] then false
    else if a[0] != b[0] then a[0] < b[0]
    else Le(a[1..], b[1..])
  }

  lemma {:induction false} LeTotal(a: string, b: string)
    ensures Le(a, b) || Le(b, a)
    decreases |a|
  {
    if a != [] && b != [] && a[0] == b[0] {
      LeTotal(a[1..], b[1..]);
    }
  }

  lemma {:induction false} LeAntisymmetric(a: string, b: string)
    requires Le(a, b) && Le(b, a)
    ensures a == b
    decreases |a|
  {
    if a != [] {
      LeAntisymmetric(a[1..], b[1..]);
      assert a == [a[0]] + a[1..] && b == [b[0]] + b[1..];
    }
  }

  lemma {:induction false} LeTransitive(a: string, b: string, c: string)
    requires Le(a, b) && Le(b, c)
    ensures Le(a, c)
    decreases |a|
  {
    if a != [] && a[0] == b[0] && b[0] == c[0] {
      LeTransitive(a[1..], b[1..], c[1..]);
    }
  }

  /** Each string is at most its successor. */
  ghost predicate Sorted(s: seq<string>)
  {
    forall k :: 0 <= k < |s| - 1 ==> Le(s[k], s[k + 1])
  }

  /** In a sorted list, every string is at most every later one. */
  lemma {:induction false} SortedPairwise(s: seq<string>, i: nat, j: nat)
    requires Sorted(s) && i <= j < |s|
    ensures Le(s[i], s[j])
    decreases j - i
  {
    if i == j {
      LeTotal(s[i], s[i]);
    } else {
      SortedPairwise(s, i + 1, j);
      LeTransitive(s[i], s[i + 1], s[j]);
    }
  }

  /** Two sorted lists holding the same strings start with the same string. */
  lemma SortedSameHead(a: seq<string>, b: seq<string>)
    requires Sorted(a) && Sorted(b)
    requires multiset(a) == multiset(b)
    requires a != []
    ensures b != [] && a[0] == b[0]
  {
    assert a[0] in multiset(a);
    assert a[0] in multiset(b);
    var j :| 0 <= j < |b| && b[j] == a[0];
    assert b[0] in multiset(a);
    var i :| 0 <= i < |a| && a[i] == b[0];
    SortedPairwise(a, 0, i);
    SortedPairwise(b, 0, j);
    LeAntisymmetric(a[0], b[0]);
  }

  lemma DropSameHead(a: seq<string>, b: seq<string>)
    requires a != [] && b != [] && a[0] == b[0]
    requires multiset(a) == multiset(b)
    ensures multiset(a[1..]) == multiset(b[1..])
  {
    assert a == [a[0]] + a[1..] && b == [b[0]] + b[1..];
    assert multiset(a[1..]) == multiset(a) - multiset{a[0]};
    assert multiset(b[1..]) == multiset(b) - multiset{b[0]};
  }

  /** Two sorted lists holding the same strings are the same list. */
  lemma {:induction false} SortedUnique(a: seq<string>, b: seq<string>)
    requires Sorted(a) && Sorted(b)
    requires multiset(a) == multiset(b)
    ensures a == b
    decreases |a|
  {
    if a == [] {
      assert |multiset(b)| == 0;
    } else {
      SortedSameHead(a, b);
      DropSameHead(a, b);
      assert Sorted(a[1..]) && Sorted(b[1..]);
      SortedUnique(a[1..], b[1..]);
      assert a == [a[0]] + a[1..] && b == [b[0]] + b[1..];
    }
  }

  /** Inserting into a sorted list, before the first element not below it. */
  function Insert(x: string, s: seq<string>): (r: seq<string>)
    requires Sorted(s)
    ensures Sorted(r)
    ensures multiset(r) == multiset(s) + multiset{x}
    ensures |r| == |s| + 1
    ensures r[0] == x || (|s| > 0 && r[0] == s[0])
  {
    if s == [] then [x]
    else if Le(x, s[0]) then [x] + s
    else
      LeTotal(x, s[0]);
      var t := Insert(x, s[1..]);
      assert s == [s[0]] + s[1..];
      [s[0]] + t
  }

  /** The result of Python's `sorted` on a list of strings, as insertion sort. */
  function SortLex(s: seq<string>): (r: seq<string>)
    ensures Sorted(r)
    ensures multiset(r) == multiset(s)
  {
    if s == [] then []
    else
      assert s == [s[0]] + s[1..];
      Insert(s[0], SortLex(s[1..]))
  }

  /** Lists holding the same strings sort to the same list. */
  lemma SortLexPermutation(a: seq<string>, b: seq<string>)
    requires multiset(a) == multiset(b)
    ensures SortLex(a) == SortLex(b)
  {
    SortedUnique(SortLex(a), SortLex(b));
  }
}
