/**
 * `_identify_oca_addons`: splits third-party dependency names into those
 * published on the OCA wheelhouse index and the rest, remembering each
 * answer in a persistent key-value cache so that a name is looked up on the
 * network at most once.
 *
 * The network lookup (`requests.head` on the index page of the addon's
 * distribution name) is an oracle `probe` from addon name to response.
 */
module OcaIdentifier {
  import opened Wrappers
  import opened Sorting

  /** The two values the identifier writes into the cache. */
  const OcaTag := "oca"
  const OtherTag := "other"

  /**
   * What the HEAD request gives: a response, truthy when its status is
   * below 400, or a raised connection error or timeout, which the source
   * does not catch.
   */
  datatype ProbeResponse = Response(ok: bool) | ConnectionError

  /** The two lists the identifier returns: OCA addons and other addons. */
  datatype Split = Split(oca: seq<string>, other: seq<string>)

  /**
   * The effect of a call: the cache afterwards, the split (None when a probe
   * raised, which aborts the call), and the names probed, in order.
   */
  datatype Run = Run(cache: map<string, string>, split: Option<Split>, probed: seq<string>)

  /** `cache.get(name)` is truthy: present and not the empty string. */
  predicate Cached(cache: map<string, string>, name: string)
  {
    name in cache && cache[name] != ""
  }

  /** The category stored after a successful probe. */
  function Tag(ok: bool): string
  {
    if ok then OcaTag else OtherTag
  }

  /** Files `name` into the OCA list when its category is "oca", into the other list otherwise. */
  function File(s: Split, name: string, category: string): Split
  {
    if category == OcaTag then Split(s.oca + [name], s.other) else Split(s.oca, s.other + [name])
  }

  /** What the loop has done after the names of `names`, one at a time, from the cache `cache`. */
  function Identify(cache: map<string, string>, names: seq<string>, probe: string -> ProbeResponse): Run
    decreases |names|
  {
    if names == [] then Run(cache, Some(Split([], [])), [])
    else
      var n := |names| - 1;
      var prev := Identify(cache, names[..n], probe);
      var name := names[n];
      if prev.split.None? then prev
      else if Cached(prev.cache, name) then
        Run(prev.cache, Some(File(prev.split.value, name, prev.cache[name])), prev.probed)
      else
        match probe(name)
        case ConnectionError => Run(prev.cache, None, prev.probed + [name])
        case Response(ok) =>
          Run(prev.cache[name := Tag(ok)], Some(File(prev.split.value, name, Tag(ok))), prev.probed + [name])
  }

  /** The names whose category in `cache` is (`oca`) or is not (`!oca`) "oca", in their order. */
  function Having(names: seq<string>, cache: map<string, string>, oca: bool): seq<string>
    decreases |names|
  {
    if names == [] then []
    else
      var n := |names| - 1;
      var isOca := names[n] in cache && cache[names[n]] == OcaTag;
      Having(names[..n], cache, oca) + (if isOca == oca then [names[n]] else [])
  }

  /** The split that a final cache determines. */
  function Partition(names: seq<string>, cache: map<string, string>): Split
  {
    Split(Having(names, cache, true), Having(names, cache, false))
  }

  /** The two lists of a partition hold every name exactly as often as the input does. */
  lemma {:induction false} PartitionIsPermutation(names: seq<string>, cache: map<string, string>)
    ensures multiset(Partition(names, cache).oca) + multiset(Partition(names, cache).other) == multiset(names)
    decreases |names|
  {
    if names != [] {
      var n := |names| - 1;
      PartitionIsPermutation(names[..n], cache);
      assert names == names[..n] + [names[n]];
    }
  }

  /** The filtered list holds exactly the input names whose cached category is (or is not) "oca". */
  lemma {:induction false} HavingMembers(names: seq<string>, cache: map<string, string>, oca: bool)
    ensures forall x :: x in Having(names, cache, oca) <==> x in names && (x in cache && cache[x] == OcaTag) == oca
    decreases |names|
  {
    if names != [] {
      var n := |names| - 1;
      HavingMembers(names[..n], cache, oca);
      assert names == names[..n] + [names[n]];
    }
  }

  /** The filtered list holds each name whose cached category is (or is not) "oca" as often as the input does. */
  lemma {:induction false} HavingCount(names: seq<string>, cache: map<string, string>, oca: bool, x: string)
    ensures multiset(Having(names, cache, oca))[x]
            == if (x in cache && cache[x] == OcaTag) == oca then multiset(names)[x] else 0
    decreases |names|
  {
    if names != [] {
      var n := |names| - 1;
      var last := names[n];
      var prefix := Having(names[..n], cache, oca);
      HavingCount(names[..n], cache, oca, x);
      assert names == names[..n] + [last];
      assert multiset(names)[x] == multiset(names[..n])[x] + multiset([last])[x];
      if (last in cache && cache[last] == OcaTag) == oca {
        assert Having(names, cache, oca) == prefix + [last];
      } else {
        assert Having(names, cache, oca) == prefix;
      }
    }
  }

  /** Filtering a sorted list keeps it sorted, so both lists of a partition of a sorted list are sorted. */
  lemma {:induction false} HavingSorted(names: seq<string>, cache: map<string, string>, oca: bool)
    requires Sorted(names)
    ensures Sorted(Having(names, cache, oca))
    decreases |names|
  {
    if names != [] {
      var n := |names| - 1;
      var prev := Having(names[..n], cache, oca);
      HavingSorted(names[..n], cache, oca);
      HavingMembers(names[..n], cache, oca);
      forall i | 0 <= i < |prev| ensures StringOrder.LessEq(prev[i], names[n]) {
        assert prev[i] in names[..n];
        var j :| 0 <= j < n && names[..n][j] == prev[i];
        assert names[j] == prev[i];
      }
    }
  }

  /** Two caches that agree on every name of `names` give the same partition. */
  lemma {:induction false} PartitionDependsOnNamesOnly(names: seq<string>, c1: map<string, string>, c2: map<string, string>)
    requires forall x :: x in names ==> (x in c1 <==> x in c2) && (x in c1 ==> c1[x] == c2[x])
    ensures Partition(names, c1) == Partition(names, c2)
    decreases |names|
  {
    if names != [] {
      var n := |names| - 1;
      assert names == names[..n] + [names[n]];
      PartitionDependsOnNamesOnly(names[..n], c1, c2);
    }
  }

  /**
   * When every name already has a truthy entry, a call probes nothing,
   * writes nothing, and files each name by its cached category.
   */
  lemma {:induction false} IdentifyAllCached(cache: map<string, string>, names: seq<string>, probe: string -> ProbeResponse)
    requires forall k :: k in names ==> Cached(cache, k)
    ensures Identify(cache, names, probe) == Run(cache, Some(Partition(names, cache)), [])
    decreases |names|
  {
    if names != [] {
      var n := |names| - 1;
      assert names[n] in names;
      forall k | k in names[..n] ensures Cached(cache, k) {
        assert k in names;
      }
      IdentifyAllCached(cache, names[..n], probe);
      assert Having(names, cache, true) == Having(names[..n], cache, true) + (if cache[names[n]] == OcaTag then [names[n]] else []);
      assert Having(names, cache, false) == Having(names[..n], cache, false) + (if cache[names[n]] == OcaTag then [] else [names[n]]);
      assert Partition(names, cache) == File(Partition(names[..n], cache), names[n], cache[names[n]]);
    }
  }

  /**
   * What a call does to the cache: entries for other names and truthy
   * entries are left alone; after a call that did not raise, every input
   * name has a truthy entry, and one that had none holds the probe's answer.
   */
  lemma {:induction false} IdentifyCache(cache: map<string, string>, names: seq<string>, probe: string -> ProbeResponse)
    ensures var r := Identify(cache, names, probe);
      forall k :: k !in names ==> (k in r.cache <==> k in cache) && (k in cache ==> r.cache[k] == cache[k])
    ensures var r := Identify(cache, names, probe);
      forall k :: Cached(cache, k) ==> k in r.cache && r.cache[k] == cache[k]
    ensures var r := Identify(cache, names, probe);
      r.split.Some? ==> forall k :: k in names ==> Cached(r.cache, k)
    ensures var r := Identify(cache, names, probe);
      r.split.Some? ==> forall k :: k in names && !Cached(cache, k) ==>
        probe(k).Response? && r.cache[k] == Tag(probe(k).ok)
    decreases |names|
  {
    if names != [] {
      var n := |names| - 1;
      assert names == names[..n] + [names[n]];
      IdentifyCache(cache, names[..n], probe);
    }
  }

  /** A name is filed under "oca" exactly when its final cached category is "oca"; both lists keep the input order. */
  lemma {:induction false} IdentifySplit(cache: map<string, string>, names: seq<string>, probe: string -> ProbeResponse)
    ensures var r := Identify(cache, names, probe);
      r.split.Some? ==> r.split.value == Partition(names, r.cache)
    decreases |names|
  {
    if names != [] {
      var n := |names| - 1;
      var prev := Identify(cache, names[..n], probe);
      var r := Identify(cache, names, probe);
      var name := names[n];
      IdentifySplit(cache, names[..n], probe);
      IdentifyCache(cache, names[..n], probe);
      if r.split.Some? {
        assert prev.split.Some? && prev.split.value == Partition(names[..n], prev.cache);
        assert names[..n] == names[..n][..n];
        if !Cached(prev.cache, name) {
          assert name !in names[..n];
          assert r.cache == prev.cache[name := r.cache[name]];
        }
        PartitionDependsOnNamesOnly(names[..n], prev.cache, r.cache);
        assert r.split.value == File(Partition(names[..n], r.cache), name, r.cache[name]);
      }
    }
  }

  /**
   * The probe is asked only about names without a truthy cache entry, at
   * most once per name, and (when no probe raised) about every such name.
   */
  lemma {:induction false} IdentifyProbes(cache: map<string, string>, names: seq<string>, probe: string -> ProbeResponse)
    ensures var r := Identify(cache, names, probe);
      forall k :: k in r.probed ==> k in names && !Cached(cache, k)
    ensures var r := Identify(cache, names, probe);
      forall i, j :: 0 <= i < j < |r.probed| ==> r.probed[i] != r.probed[j]
    ensures var r := Identify(cache, names, probe);
      r.split.Some? ==> forall k :: k in names && !Cached(cache, k) ==> k in r.probed
    decreases |names|
  {
    if names != [] {
      var n := |names| - 1;
      assert names == names[..n] + [names[n]];
      IdentifyProbes(cache, names[..n], probe);
      IdentifyCache(cache, names[..n], probe);
    }
  }

  /**
   * A call aborts exactly at the first probe that raises: every earlier
   * probe answered, and an aborted call's last probe raised.
   */
  lemma {:induction false} IdentifyFailure(cache: map<string, string>, names: seq<string>, probe: string -> ProbeResponse)
    ensures var r := Identify(cache, names, probe);
      forall i :: 0 <= i < |r.probed| - 1 ==> probe(r.probed[i]).Response?
    ensures var r := Identify(cache, names, probe);
      r.split.Some? ==> forall k :: k in r.probed ==> probe(k).Response?
    ensures var r := Identify(cache, names, probe);
      r.split.None? ==> r.probed != [] && probe(r.probed[|r.probed| - 1]).ConnectionError?
    decreases |names|
  {
    if names != [] {
      var n := |names| - 1;
      IdentifyFailure(cache, names[..n], probe);
    }
  }

  /** Once a probe has raised, the rest of the names change nothing. */
  lemma {:induction false} IdentifyStopsAtFailure(cache: map<string, string>, names: seq<string>, k: nat, probe: string -> ProbeResponse)
    requires k <= |names|
    requires Identify(cache, names[..k], probe).split.None?
    ensures Identify(cache, names, probe) == Identify(cache, names[..k], probe)
    decreases |names|
  {
    if k < |names| {
      var n := |names| - 1;
      assert names[..n][..k] == names[..k];
      IdentifyStopsAtFailure(cache, names[..n], k, probe);
    } else {
      assert names[..k] == names;
    }
  }

  /**
   * The persistent category cache (a `diskcache.Cache` in the source), as a
   * map from addon name to category.
   */
  class CategoryCache {
    var entries: map<string, string>

    constructor (entries: map<string, string>)
      ensures this.entries == entries
    {
      this.entries := entries;
    }

    /** `--reset-cache`: forget every category. */
    method Clear()
      modifies this
      ensures entries == map[]
    {
      entries := map[];
    }

    /**
     * Splits `addonNames` into OCA addons and other addons. A name with a
     * truthy cache entry uses it; any other name is probed and the answer,
     * "oca" or "other", is stored. A probe that raises aborts the call
     * (result None) with the entries stored so far kept.
     */
    method IdentifyOcaAddons(addonNames: seq<string>, probe: string -> ProbeResponse)
      returns (result: Option<Split>, ghost probed: seq<string>)
      modifies this
      ensures Identify(old(entries), addonNames, probe) == Run(entries, result, probed)
    {
      var ocaAddons, otherAddons := [], [];
      probed := [];
      for i := 0 to |addonNames|
        invariant Identify(old(entries), addonNames[..i], probe) == Run(entries, Some(Split(ocaAddons, otherAddons)), probed)
      {
        var addonName := addonNames[i];
        assert addonNames[..i + 1][..i] == addonNames[..i];
        var category := if addonName in entries then entries[addonName] else "";
        if category == "" {
          probed := probed + [addonName];
          var res := probe(addonName);
          if res.ConnectionError? {
            result := None;
            IdentifyStopsAtFailure(old(entries), addonNames, i + 1, probe);
            return;
          }
          category := Tag(res.ok);
          entries := entries[addonName := category];
        }
        if category == OcaTag {
          ocaAddons := ocaAddons + [addonName];
        } else {
          otherAddons := otherAddons + [addonName];
        }
      }
      assert addonNames[..|addonNames|] == addonNames;
      result := Some(Split(ocaAddons, otherAddons));
    }
  }
}
