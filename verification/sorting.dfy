/**
 * Python's `sorted`, stable and ascending, on a sequence ordered by a string
 * key: the names themselves for a dependency list, the label for the items
 * of a category dictionary.
 */
module Sorting {
  import opened StringOrder

  /** Every element's key is at most the key of every later element. */
  ghost predicate SortedBy<T>(s: seq<T>, key: T -> string)
  {
    forall i, j :: 0 <= i < j < |s| ==> LessEq(key(s[i]), key(s[j]))
  }

  /** Places `x` before the first element whose key is not below it. */
  function InsertBy<T>(x: T, s: seq<T>, key: T -> string): (r: seq<T>)
    ensures |r| == |s| + 1
    ensures multiset(r) == multiset(s) + multiset{x}
  {
    if s == [] || LessEq(key(x), key(s[0])) then [x] + s
    else
      assert s == [s[0]] + s[1..];
      [s[0]] + InsertBy(x, s[1..], key)
  }

  /** A key below `x` and below every element of `s` is below every element of the insertion. */
  lemma {:induction false} InsertByLowerBound<T>(x: T, s: seq<T>, key: T -> string, b: string)
    requires LessEq(b, key(x))
    requires forall i :: 0 <= i < |s| ==> LessEq(b, key(s[i]))
    ensures forall i :: 0 <= i < |InsertBy(x, s, key)| ==> LessEq(b, key(InsertBy(x, s, key)[i]))
  {
    if s != [] && !LessEq(key(x), key(s[0])) {
      InsertByLowerBound(x, s[1..], key, b);
    }
  }

  /** Inserting into a sorted sequence keeps it sorted. */
  lemma {:induction false} InsertBySorted<T>(x: T, s: seq<T>, key: T -> string)
    requires SortedBy(s, key)
    ensures SortedBy(InsertBy(x, s, key), key)
  {
    if s == [] {
    } else if LessEq(key(x), key(s[0])) {
      forall j | 0 < j < |s|
        ensures LessEq(key(x), key(s[j]))
      {
        LessEqTransitive(key(x), key(s[0]), key(s[j]));
      }
    } else {
      LessEqTotal(key(x), key(s[0]));
      InsertBySorted(x, s[1..], key);
      InsertByLowerBound(x, s[1..], key, key(s[0]));
    }
  }

  /** `sorted(s, key=key)`: the same elements, in ascending key order. */
  function SortBy<T>(s: seq<T>, key: T -> string): (r: seq<T>)
    ensures |r| == |s|
    ensures multiset(r) == multiset(s)
    ensures SortedBy(r, key)
  {
    if s == [] then []
    else
      assert s == [s[0]] + s[1..];
      var rest := SortBy(s[1..], key);
      InsertBySorted(s[0], rest, key);
      InsertBy(s[0], rest, key)
  }

  /** The key of a name is the name itself. */
  function Name(s: string): string { s }

  /** `sorted(names)` on a list of strings. */
  function SortNames(names: seq<string>): (r: seq<string>)
  {
    SortBy(names, Name)
  }

  /** Sorting keeps exactly the same names. */
  lemma SortNamesMembers(names: seq<string>)
    ensures forall k :: k in SortNames(names) <==> k in names
  {
    forall k ensures k in SortNames(names) <==> k in names {
      assert k in SortNames(names) <==> k in multiset(SortNames(names));
      assert k in names <==> k in multiset(names);
    }
  }

  /** A single name is already sorted. */
  lemma SortNamesSingleton(x: string)
    ensures SortNames([x]) == [x]
  {
    assert [x][1..] == [];
  }

  /** A list of names in ascending order. */
  ghost predicate Sorted(names: seq<string>)
  {
    SortedBy(names, Name)
  }

  /** The rest of an ascending list is ascending. */
  lemma SortedTail(s: seq<string>)
    requires Sorted(s) && s != []
    ensures Sorted(s[1..])
  {
    forall i, j | 0 <= i < j < |s| - 1 ensures LessEq(Name(s[1..][i]), Name(s[1..][j])) {
      assert s[1..][i] == s[i + 1] && s[1..][j] == s[j + 1];
    }
  }

  /** Two ascending lists holding the same names are the same list. */
  lemma {:induction false} SortedPermutationsEqual(x: seq<string>, y: seq<string>)
    requires Sorted(x) && Sorted(y) && multiset(x) == multiset(y)
    ensures x == y
    decreases |x|
  {
    if x != [] {
      assert x[0] in multiset(y);
      var j :| 0 <= j < |y| && y[j] == x[0];
      assert y[0] in multiset(x);
      var i :| 0 <= i < |x| && x[i] == y[0];
      if i != 0 && j != 0 {
        assert LessEq(Name(x[0]), Name(x[i]));
        assert LessEq(Name(y[0]), Name(y[j]));
        LessEqAntisymmetric(x[0], y[0]);
      }
      assert x[0] == y[0];
      assert x == [x[0]] + x[1..];
      assert y == [y[0]] + y[1..];
      assert multiset(x) == multiset{x[0]} + multiset(x[1..]);
      assert multiset(y) == multiset{y[0]} + multiset(y[1..]);
      assert multiset(x[1..]) == multiset(x) - multiset{x[0]};
      assert multiset(y[1..]) == multiset(y) - multiset{y[0]};
      SortedTail(x);
      SortedTail(y);
      SortedPermutationsEqual(x[1..], y[1..]);
    } else {
      assert |y| == |multiset(y)|;
    }
  }

  /** `sorted` depends only on which names occur how often, not on their order. */
  lemma SortNamesCanonical(a: seq<string>, b: seq<string>)
    requires multiset(a) == multiset(b)
    ensures SortNames(a) == SortNames(b)
  {
    SortedPermutationsEqual(SortNames(a), SortNames(b));
  }
}
