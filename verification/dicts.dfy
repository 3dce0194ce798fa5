/**
 * Python's insertion-ordered `dict` with string keys, as a sequence of
 * `(key, value)` items in iteration order. Only the operations the sorter
 * uses are modelled: lookup, `d[k] = v` and `d.update(e)`.
 */
module Dicts {
  import opened Wrappers
  import opened Sorting

  type Dict<V> = seq<(string, V)>

  /** `list(d.keys())`. */
  function Keys<V>(d: Dict<V>): seq<string>
  {
    seq(|d|, i requires 0 <= i < |d| => d[i].0)
  }

  /** No key occurs twice, as in every Python dict. */
  ghost predicate UniqueKeys<V>(d: Dict<V>)
  {
    forall i, j :: 0 <= i < j < |d| ==> d[i].0 != d[j].0
  }

  /** A non-empty dictionary is its first items followed by its last one. */
  lemma SplitLast<V>(d: Dict<V>)
    requires d != []
    ensures d == d[..|d| - 1] + [d[|d| - 1]]
  {
  }

  /** The keys of a non-empty dictionary: its first key, then the keys of the rest. */
  lemma KeysCons<V>(d: Dict<V>)
    requires d != []
    ensures Keys(d) == [d[0].0] + Keys(d[1..])
  {
  }

  /** The rest of a dictionary with unique keys has unique keys and lacks the first key. */
  lemma UniqueTail<V>(d: Dict<V>)
    requires d != [] && UniqueKeys(d)
    ensures UniqueKeys(d[1..]) && d[0].0 !in Keys(d[1..])
  {
    forall j | 0 <= j < |d[1..]| ensures Keys(d[1..])[j] != d[0].0 {
      assert d[1..][j] == d[j + 1];
    }
  }

  /** An item whose key is not among the rest's unique keys keeps the keys unique. */
  lemma UniqueCons<V>(x: (string, V), d: Dict<V>)
    requires UniqueKeys(d) && x.0 !in Keys(d)
    ensures UniqueKeys([x] + d)
  {
    var r := [x] + d;
    forall i, j | 0 <= i < j < |r| ensures r[i].0 != r[j].0 {
      if i == 0 {
        assert r[j].0 == Keys(d)[j - 1];
      } else {
        assert r[i] == d[i - 1] && r[j] == d[j - 1];
      }
    }
  }

  /** `d.get(k)`. */
  function Get<V>(d: Dict<V>, k: string): (r: Option<V>)
    ensures r.Some? <==> k in Keys(d)
  {
    if d == [] then None
    else if d[0].0 == k then
      assert Keys(d)[0] == k;
      Some(d[0].1)
    else
      assert Keys(d) == [d[0].0] + Keys(d[1..]);
      Get(d[1..], k)
  }

  /**
   * `d[k] = v`: an existing key keeps its position and gets the new value,
   * a new key goes to the end.
   */
  function Set<V>(d: Dict<V>, k: string, v: V): (r: Dict<V>)
    ensures Keys(r) == if k in Keys(d) then Keys(d) else Keys(d) + [k]
  {
    if d == [] then [(k, v)]
    else if d[0].0 == k then
      var r := [(k, v)] + d[1..];
      KeysCons(d);
      KeysCons(r);
      assert r[1..] == d[1..];
      r
    else
      var r := [d[0]] + Set(d[1..], k, v);
      KeysCons(d);
      KeysCons(r);
      assert r[1..] == Set(d[1..], k, v);
      r
  }

  /** After `d[k] = v`, looking up `k` gives `v` and every other key gives what it gave before. */
  lemma {:induction false} SetGet<V>(d: Dict<V>, k: string, v: V, k': string)
    ensures Get(Set(d, k, v), k') == if k' == k then Some(v) else Get(d, k')
  {
    if d != [] && d[0].0 != k {
      SetGet(d[1..], k, v, k');
    }
  }

  /** Assigning to a key not yet present appends one item. */
  lemma {:induction false} SetNew<V>(d: Dict<V>, k: string, v: V)
    requires k !in Keys(d)
    ensures Set(d, k, v) == d + [(k, v)]
  {
    if d != [] {
      assert Keys(d) == [d[0].0] + Keys(d[1..]);
      SetNew(d[1..], k, v);
      assert [d[0]] + (d[1..] + [(k, v)]) == d + [(k, v)];
    }
  }

  /** Assignment keeps the keys unique. */
  lemma {:induction false} SetUnique<V>(d: Dict<V>, k: string, v: V)
    requires UniqueKeys(d)
    ensures UniqueKeys(Set(d, k, v))
  {
    if d != [] {
      UniqueTail(d);
      if d[0].0 != k {
        SetUnique(d[1..], k, v);
        UniqueCons(d[0], Set(d[1..], k, v));
      } else {
        UniqueCons((k, v), d[1..]);
      }
    }
  }

  /** `d.update(e)`: `d[k] = v` for each item of `e`, in `e`'s order. */
  function Update<V>(d: Dict<V>, e: Dict<V>): (r: Dict<V>)
    decreases |e|
  {
    if e == [] then d else Update(Set(d, e[0].0, e[0].1), e[1..])
  }

  /** When no key of `e` is already in `d`, the update appends `e`'s items after `d`'s. */
  lemma {:induction false} UpdateDisjoint<V>(d: Dict<V>, e: Dict<V>)
    requires UniqueKeys(e)
    requires forall k :: k in Keys(e) ==> k !in Keys(d)
    ensures Update(d, e) == d + e
    decreases |e|
  {
    if e != [] {
      var k, v := e[0].0, e[0].1;
      KeysCons(e);
      UniqueTail(e);
      SetNew(d, k, v);
      var d' := d + [(k, v)];
      KeysAppend(d, [(k, v)]);
      forall k' | k' in Keys(e[1..]) ensures k' !in Keys(d') {
        assert k' in Keys(e) && k' != k;
      }
      UpdateDisjoint(d', e[1..]);
      assert d' + e[1..] == d + ([e[0]] + e[1..]);
      assert [e[0]] + e[1..] == e;
    }
  }

  /** The keys of concatenated dictionaries are the concatenated keys. */
  lemma KeysAppend<V>(a: Dict<V>, b: Dict<V>)
    ensures Keys(a + b) == Keys(a) + Keys(b)
  {
  }

  /** A key missing from the first dictionary is looked up in the second. */
  lemma {:induction false} GetAppend<V>(a: Dict<V>, b: Dict<V>, k: string)
    requires k !in Keys(a)
    ensures Get(a + b, k) == Get(b, k)
  {
    if a != [] {
      assert Keys(a)[0] == a[0].0 && a[0].0 != k;
      assert (a + b)[0] == a[0];
      assert (a + b)[1..] == a[1..] + b;
      assert Keys(a[1..]) == Keys(a)[1..];
      GetAppend(a[1..], b, k);
    } else {
      assert a + b == b;
    }
  }

  /** A key of the first dictionary is looked up there. */
  lemma {:induction false} GetPrefix<V>(a: Dict<V>, b: Dict<V>, k: string)
    requires k in Keys(a)
    ensures Get(a + b, k) == Get(a, k)
  {
    assert (a + b)[0] == a[0];
    if a[0].0 != k {
      assert Keys(a) == [a[0].0] + Keys(a[1..]);
      assert (a + b)[1..] == a[1..] + b;
      GetPrefix(a[1..], b, k);
    }
  }

  /** An update keeps every key of `d` at its place and adds the new keys of `e` after them. */
  lemma {:induction false} UpdateKeepsKeys<V>(d: Dict<V>, e: Dict<V>)
    ensures |Update(d, e)| >= |d|
    ensures Keys(Update(d, e))[..|d|] == Keys(d)
    decreases |e|
  {
    if e != [] {
      var d' := Set(d, e[0].0, e[0].1);
      UpdateKeepsKeys(d', e[1..]);
      assert Keys(d')[..|d|] == Keys(d);
    }
  }

  /** The values of a dictionary of lists, concatenated in iteration order. */
  function Flatten(d: Dict<seq<string>>): seq<string>
  {
    if d == [] then [] else d[0].1 + Flatten(d[1..])
  }

  /** Flattening distributes over concatenation of dictionaries. */
  lemma {:induction false} FlattenAppend(a: Dict<seq<string>>, b: Dict<seq<string>>)
    ensures Flatten(a + b) == Flatten(a) + Flatten(b)
  {
    if a != [] {
      assert (a + b)[0] == a[0];
      assert (a + b)[1..] == a[1..] + b;
      FlattenAppend(a[1..], b);
    } else {
      assert a + b == b;
    }
  }

  /** A name of the flattened values is in one of the lists. */
  lemma {:induction false} FlattenMember(d: Dict<seq<string>>, x: string)
    requires x in Flatten(d)
    ensures exists i :: 0 <= i < |d| && x in d[i].1
  {
    if x !in d[0].1 {
      FlattenMember(d[1..], x);
      var i :| 0 <= i < |d[1..]| && x in d[1..][i].1;
      assert d[i + 1] == d[1..][i];
    }
  }

  /**
   * `d.setdefault(k, []).append(x)`: the list under `k` (a new empty one
   * when `k` is absent) gets `x` at its end.
   */
  function AppendTo(d: Dict<seq<string>>, k: string, x: string): (r: Dict<seq<string>>)
  {
    Set(d, k, Get(d, k).GetOr([]) + [x])
  }

  /** Appending under any key adds exactly one occurrence of `x` to the flattened values. */
  lemma {:induction false} AppendToFlatten(d: Dict<seq<string>>, k: string, x: string)
    ensures multiset(Flatten(AppendTo(d, k, x))) == multiset(Flatten(d)) + multiset{x}
  {
    if d == [] {
    } else if d[0].0 == k {
    } else {
      AppendToFlatten(d[1..], k, x);
      assert AppendTo(d, k, x) == [d[0]] + AppendTo(d[1..], k, x);
    }
  }

  /**
   * Inserting an item whose key is new into a dictionary's items (one step
   * of `sorted(d.items())`): the keys stay unique, the new key joins them,
   * and lookups see the new item.
   */
  lemma {:induction false} InsertItem<V>(x: (string, V), s: Dict<V>, key: ((string, V)) -> string)
    requires UniqueKeys(s) && x.0 !in Keys(s)
    ensures UniqueKeys(InsertBy(x, s, key))
    ensures forall k :: k in Keys(InsertBy(x, s, key)) <==> k == x.0 || k in Keys(s)
    ensures forall k :: Get(InsertBy(x, s, key), k) == if k == x.0 then Some(x.1) else Get(s, k)
  {
    var r := InsertBy(x, s, key);
    if s == [] || StringOrder.LessEq(key(x), key(s[0])) {
      assert r == [x] + s;
      assert Keys(r) == [x.0] + Keys(s);
      assert r[1..] == s;
      forall i, j | 0 <= i < j < |r| ensures r[i].0 != r[j].0 {
        if i == 0 {
          assert r[j].0 == Keys(s)[j - 1];
        } else {
          assert r[i] == s[i - 1] && r[j] == s[j - 1];
        }
      }
    } else {
      var rest := InsertBy(x, s[1..], key);
      assert r == [s[0]] + rest;
      assert Keys(s) == [s[0].0] + Keys(s[1..]);
      forall j | 0 <= j < |s[1..]| ensures Keys(s[1..])[j] != s[0].0 {
        assert s[1..][j] == s[j + 1];
      }
      InsertItem(x, s[1..], key);
      assert s[0].0 in Keys(s) && s[0].0 != x.0;
      assert s[0].0 !in Keys(rest);
      assert Keys(r) == [s[0].0] + Keys(rest);
      assert r[1..] == rest;
      forall i, j | 0 <= i < j < |r| ensures r[i].0 != r[j].0 {
        if i == 0 {
          assert r[j].0 == Keys(rest)[j - 1];
        } else {
          assert r[i] == rest[i - 1] && r[j] == rest[j - 1];
        }
      }
    }
  }

  /** `sorted(d.items())` of a dictionary is a dictionary with the same keys and the same lookups. */
  lemma {:induction false} SortedItems<V>(d: Dict<V>, key: ((string, V)) -> string)
    requires UniqueKeys(d)
    ensures UniqueKeys(SortBy(d, key))
    ensures forall k :: k in Keys(SortBy(d, key)) <==> k in Keys(d)
    ensures forall k :: Get(SortBy(d, key), k) == Get(d, k)
  {
    if d != [] {
      var rest := SortBy(d[1..], key);
      assert Keys(d) == [d[0].0] + Keys(d[1..]);
      forall j | 0 <= j < |d[1..]| ensures Keys(d[1..])[j] != d[0].0 {
        assert d[1..][j] == d[j + 1];
      }
      forall i, j | 0 <= i < j < |d[1..]| ensures d[1..][i].0 != d[1..][j].0 {
        assert d[1..][i] == d[i + 1] && d[1..][j] == d[j + 1];
      }
      SortedItems(d[1..], key);
      InsertItem(d[0], rest, key);
    }
  }

  /** Inserting an item adds its list's names to the flattened values. */
  lemma {:induction false} InsertItemFlatten(x: (string, seq<string>), s: Dict<seq<string>>, key: ((string, seq<string>)) -> string)
    ensures multiset(Flatten(InsertBy(x, s, key))) == multiset(x.1) + multiset(Flatten(s))
  {
    if s != [] && !StringOrder.LessEq(key(x), key(s[0])) {
      InsertItemFlatten(x, s[1..], key);
      assert InsertBy(x, s, key) == [s[0]] + InsertBy(x, s[1..], key);
    }
  }

  /** Sorting the items keeps every list, so the flattened values are the same names. */
  lemma {:induction false} SortedItemsFlatten(d: Dict<seq<string>>, key: ((string, seq<string>)) -> string)
    ensures multiset(Flatten(SortBy(d, key))) == multiset(Flatten(d))
  {
    if d != [] {
      SortedItemsFlatten(d[1..], key);
      InsertItemFlatten(d[0], SortBy(d[1..], key), key);
    }
  }

  /** The first item's key is a key. */
  lemma FirstKey<V>(d: Dict<V>)
    requires d != []
    ensures d[0].0 in Keys(d)
  {
    assert Keys(d)[0] == d[0].0;
  }

  /** Two dictionaries with unique keys and no key in common concatenate into one with unique keys. */
  lemma UniqueKeysAppend<V>(a: Dict<V>, b: Dict<V>)
    requires UniqueKeys(a) && UniqueKeys(b)
    requires forall k :: k in Keys(b) ==> k !in Keys(a)
    ensures UniqueKeys(a + b)
  {
    var r := a + b;
    forall i, j | 0 <= i < j < |r| ensures r[i].0 != r[j].0 {
      if j >= |a| && i < |a| {
        assert r[j].0 == Keys(b)[j - |a|] && Keys(b)[j - |a|] in Keys(b);
        assert r[i].0 == Keys(a)[i] && Keys(a)[i] in Keys(a);
      } else if i >= |a| {
        assert r[i] == b[i - |a|] && r[j] == b[j - |a|];
      } else {
        assert r[i] == a[i] && r[j] == a[j];
      }
    }
  }

  /**
   * Two dictionaries with unique keys in ascending order that agree on
   * every lookup are the same dictionary, items and order included.
   */
  lemma {:induction false} SameLookupsEqual<V>(a: Dict<V>, b: Dict<V>)
    requires UniqueKeys(a) && UniqueKeys(b) && Sorted(Keys(a)) && Sorted(Keys(b))
    requires forall k :: Get(a, k) == Get(b, k)
    ensures a == b
    decreases |a|
  {
    if a == [] {
      assert forall k :: k !in Keys(b) by {
        forall k ensures k !in Keys(b) {
          assert Get(a, k) == Get(b, k);
        }
      }
      if b != [] {
        FirstKey(b);
      }
    } else {
      var ka := a[0].0;
      assert Keys(a)[0] == ka;
      assert Get(b, ka) == Get(a, ka);
      var j :| 0 <= j < |Keys(b)| && Keys(b)[j] == ka;
      var kb := b[0].0;
      assert Keys(b)[0] == kb;
      assert Get(a, kb) == Get(b, kb);
      var i :| 0 <= i < |Keys(a)| && Keys(a)[i] == kb;
      if i != 0 && j != 0 {
        assert StringOrder.LessEq(Name(Keys(a)[0]), Name(Keys(a)[i]));
        assert StringOrder.LessEq(Name(Keys(b)[0]), Name(Keys(b)[j]));
        StringOrder.LessEqAntisymmetric(ka, kb);
      }
      assert ka == kb;
      assert a[0] == b[0];
      UniqueTail(a);
      UniqueTail(b);
      KeysCons(a);
      KeysCons(b);
      SortedTail(Keys(a));
      SortedTail(Keys(b));
      forall k ensures Get(a[1..], k) == Get(b[1..], k) {
        assert Get(a, k) == Get(b, k);
      }
      SameLookupsEqual(a[1..], b[1..]);
      assert a == [a[0]] + a[1..];
      assert b == [b[0]] + b[1..];
    }
  }

  /** A key with unique keys is looked up at its own item. */
  lemma {:induction false} GetAt<V>(d: Dict<V>, i: nat)
    requires UniqueKeys(d) && i < |d|
    ensures Get(d, d[i].0) == Some(d[i].1)
  {
    if i > 0 {
      UniqueTail(d);
      assert d[1..][i - 1] == d[i];
      assert d[0].0 != d[i].0;
      GetAt(d[1..], i - 1);
    }
  }

  /** Two dictionaries with the same keys, unique, and the same lookups are the same dictionary. */
  lemma SameKeysLookupsEqual<V>(a: Dict<V>, b: Dict<V>)
    requires Keys(a) == Keys(b) && UniqueKeys(a)
    requires forall k :: Get(a, k) == Get(b, k)
    ensures a == b
  {
    assert |a| == |Keys(a)| == |Keys(b)| == |b|;
    forall i | 0 <= i < |a| ensures a[i] == b[i] {
      assert a[i].0 == Keys(a)[i] == Keys(b)[i] == b[i].0;
      assert UniqueKeys(b) by {
        forall j, l | 0 <= j < l < |b| ensures b[j].0 != b[l].0 {
          assert b[j].0 == Keys(b)[j] == Keys(a)[j] == a[j].0;
          assert b[l].0 == Keys(b)[l] == Keys(a)[l] == a[l].0;
        }
      }
      GetAt(a, i);
      GetAt(b, i);
      assert Get(a, a[i].0) == Get(b, a[i].0);
    }
  }

  /**
   * Two dictionaries with the same keys that differ only under keys `e`
   * assigns are the same after `update(e)`: `e` overwrites their
   * differences.
   */
  lemma {:induction false} UpdateOverwrites<V>(a: Dict<V>, b: Dict<V>, e: Dict<V>)
    requires Keys(a) == Keys(b) && UniqueKeys(a)
    requires forall k :: k !in Keys(e) ==> Get(a, k) == Get(b, k)
    ensures Update(a, e) == Update(b, e)
    decreases |e|
  {
    if e == [] {
      SameKeysLookupsEqual(a, b);
    } else {
      var k0, v0 := e[0].0, e[0].1;
      var a', b' := Set(a, k0, v0), Set(b, k0, v0);
      KeysCons(e);
      SetUnique(a, k0, v0);
      forall k | k !in Keys(e[1..]) ensures Get(a', k) == Get(b', k) {
        SetGet(a, k0, v0, k);
        SetGet(b, k0, v0, k);
      }
      UpdateOverwrites(a', b', e[1..]);
    }
  }

  /**
   * Assigning `v` to `k` replaces the names of the old list under `k`, if
   * any, by the names of `v`.
   */
  lemma {:induction false} SetFlatten(d: Dict<seq<string>>, k: string, v: seq<string>)
    ensures multiset(Flatten(Set(d, k, v))) + multiset(Get(d, k).GetOr([])) == multiset(Flatten(d)) + multiset(v)
  {
    var r := Set(d, k, v);
    var held := multiset(Get(d, k).GetOr([]));
    if d == [] {
      assert r == [(k, v)];
      assert Flatten(r) == v + Flatten([]);
      assert held == multiset{};
    } else if d[0].0 == k {
      assert r[0] == (k, v) && r[1..] == d[1..];
      assert held == multiset(d[0].1);
      calc {
        multiset(Flatten(r)) + held;
        multiset(v) + multiset(Flatten(d[1..])) + multiset(d[0].1);
        multiset(d[0].1) + multiset(Flatten(d[1..])) + multiset(v);
        multiset(Flatten(d)) + multiset(v);
      }
    } else {
      var rest := Set(d[1..], k, v);
      assert r[0] == d[0] && r[1..] == rest;
      assert held == multiset(Get(d[1..], k).GetOr([]));
      SetFlatten(d[1..], k, v);
      calc {
        multiset(Flatten(r)) + held;
        multiset(d[0].1) + (multiset(Flatten(rest)) + held);
        multiset(d[0].1) + (multiset(Flatten(d[1..])) + multiset(v));
        multiset(Flatten(d)) + multiset(v);
      }
    }
  }

  /**
   * `d.update(e)` where `e` assigns at most one key `k` already in `d`:
   * the names are those of `d` and `e`, less the old list under `k` when
   * `e` overwrites it.
   */
  lemma {:induction false} UpdateFlatten(d: Dict<seq<string>>, e: Dict<seq<string>>, k: string)
    requires UniqueKeys(e)
    requires forall k' :: k' in Keys(e) && k' != k ==> k' !in Keys(d)
    ensures multiset(Flatten(Update(d, e))) + (if k in Keys(e) then multiset(Get(d, k).GetOr([])) else multiset{})
            == multiset(Flatten(d)) + multiset(Flatten(e))
    decreases |e|
  {
    if e != [] {
      var k0, v0, e' := e[0].0, e[0].1, e[1..];
      var d' := Set(d, k0, v0);
      KeysCons(e);
      UniqueTail(e);
      SetFlatten(d, k0, v0);
      forall k' | k' in Keys(e') && k' != k ensures k' !in Keys(d') {
        assert k' in Keys(e) && k' != k0;
      }
      UpdateFlatten(d', e', k);
      assert Update(d, e) == Update(d', e');
      assert multiset(Flatten(e)) == multiset(v0) + multiset(Flatten(e'));
      if k0 == k {
        var held := multiset(Get(d, k).GetOr([]));
        calc {
          multiset(Flatten(Update(d, e))) + held;
          multiset(Flatten(d')) + multiset(Flatten(e')) + held;
          multiset(Flatten(d)) + multiset(v0) + multiset(Flatten(e'));
        }
      } else {
        SetGet(d, k0, v0, k);
        assert Get(d, k0) == None;
        assert (k in Keys(e)) == (k in Keys(e'));
        var held := if k in Keys(e) then multiset(Get(d, k).GetOr([])) else multiset{};
        calc {
          multiset(Flatten(Update(d, e))) + held;
          multiset(Flatten(d')) + multiset(Flatten(e'));
          multiset(Flatten(d)) + multiset(v0) + multiset(Flatten(e'));
        }
      }
    }
  }
}
