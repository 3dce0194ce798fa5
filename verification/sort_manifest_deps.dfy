/**
 * `do_sorting`: for every local addon with dependencies, classify them,
 * sort each bucket, relabel the local buckets, optionally split the
 * third-party bucket into OCA and other addons, assemble the ordered
 * category dictionary and render the new `"depends"` block.
 */
module SortManifestDeps {
  import opened Wrappers
  import opened Sorting
  import opened Dicts
  import opened Classifier
  import opened OcaIdentifier
  import opened Serializer
  import opened Categories

  /** A local addon: its directory name, the `depends` of its manifest, and the manifest's `category`. */
  datatype Addon = Addon(name: string, depends: seq<string>, category: Option<string>)

  /** Addons read from one directory: their directory names are distinct. */
  ghost predicate DistinctNames(addons: seq<Addon>)
  {
    forall i, j :: 0 <= i < j < |addons| ==> addons[i].name != addons[j].name
  }

  /** The local addon index `_get_addons_by_name` builds: addon name to declared category. */
  function LocalIndex(addons: seq<Addon>): map<string, Option<string>>
    decreases |addons|
  {
    if addons == [] then map[]
    else
      var n := |addons| - 1;
      LocalIndex(addons[..n])[addons[n].name := addons[n].category]
  }

  /** The names of the addons, in order. */
  function Names(addons: seq<Addon>): seq<string>
  {
    seq(|addons|, i requires 0 <= i < |addons| => addons[i].name)
  }

  /** The index knows exactly the local addons, each with its own manifest category. */
  lemma {:induction false} LocalIndexLookup(addons: seq<Addon>)
    requires DistinctNames(addons)
    ensures forall name :: name in LocalIndex(addons) <==> name in Names(addons)
    ensures forall i :: 0 <= i < |addons| ==>
      addons[i].name in LocalIndex(addons) && LocalIndex(addons)[addons[i].name] == addons[i].category
    decreases |addons|
  {
    if addons != [] {
      var n := |addons| - 1;
      LocalIndexLookup(addons[..n]);
      assert Names(addons) == Names(addons[..n]) + [addons[n].name];
      forall i | 0 <= i < n
        ensures addons[i].name in LocalIndex(addons) && LocalIndex(addons)[addons[i].name] == addons[i].category
      {
        assert addons[..n][i] == addons[i];
        assert addons[i].name != addons[n].name;
      }
    }
  }

  /**
   * What happens to one addon: skipped (no dependencies), rewritten with the
   * category dictionary and the `"depends"` block rendered from it, or
   * aborted by a probe that raised.
   */
  datatype Outcome = Skipped | Rewritten(categories: Dict<seq<string>>, depends: string) | Aborted

  /** The loop body of `do_sorting` for one addon's dependencies: its outcome and the cache afterwards. */
  function SortAddon(deps: seq<string>, catalog: Catalog, project: string, ocaCategory: bool,
                     cache: map<string, string>, probe: string -> ProbeResponse): (Outcome, map<string, string>)
  {
    if deps == [] then (Skipped, cache)
    else if !ocaCategory then
      (Rewritten(ExpectedCategories(deps, catalog, project, None), Rendered(ExpectedCategories(deps, catalog, project, None))), cache)
    else
      var run := Identify(cache, SortNames(Pick(deps, catalog, Other)), probe);
      if run.split.None? then (Aborted, run.cache)
      else
        var categories := ExpectedCategories(deps, catalog, project, Some(run.cache));
        (Rewritten(categories, Rendered(categories)), run.cache)
  }

  /** A third-party dependency is a declared dependency. */
  lemma OtherIsDeclared(deps: seq<string>, catalog: Catalog, k: string)
    requires k in SortNames(Pick(deps, catalog, Other))
    ensures k in deps
  {
    SortNamesMembers(Pick(deps, catalog, Other));
    PickCount(deps, catalog, Other, k);
    assert k in multiset(Pick(deps, catalog, Other));
  }

  /**
   * What one addon does to the cache: nothing unless it has dependencies
   * and OCA addons are identified; a truthy entry is never rewritten; only
   * entries of its own dependencies change; and once it is rewritten with
   * OCA identification, every third-party dependency has a truthy entry.
   */
  lemma SortAddonCache(deps: seq<string>, catalog: Catalog, project: string, ocaCategory: bool,
                       cache: map<string, string>, probe: string -> ProbeResponse)
    ensures var r := SortAddon(deps, catalog, project, ocaCategory, cache, probe);
      (deps == [] || !ocaCategory) ==> r.1 == cache
    ensures var r := SortAddon(deps, catalog, project, ocaCategory, cache, probe);
      forall k :: Cached(cache, k) ==> k in r.1 && r.1[k] == cache[k]
    ensures var r := SortAddon(deps, catalog, project, ocaCategory, cache, probe);
      forall k :: k !in deps ==> (k in r.1 <==> k in cache) && (k in cache ==> r.1[k] == cache[k])
    ensures var r := SortAddon(deps, catalog, project, ocaCategory, cache, probe);
      ocaCategory && r.0.Rewritten? ==> forall k :: k in Pick(deps, catalog, Other) ==> Cached(r.1, k)
  {
    var names := SortNames(Pick(deps, catalog, Other));
    IdentifyCache(cache, names, probe);
    forall k | k in names ensures k in deps {
      OtherIsDeclared(deps, catalog, k);
    }
    assert forall k :: k in Pick(deps, catalog, Other) ==> k in multiset(names);
  }

  /**
   * An addon aborts the run only when OCA addons are identified and one of
   * its third-party dependencies without a truthy cache entry has a probe
   * that raises.
   */
  lemma SortAddonAborts(deps: seq<string>, catalog: Catalog, project: string, ocaCategory: bool,
                        cache: map<string, string>, probe: string -> ProbeResponse)
    ensures SortAddon(deps, catalog, project, ocaCategory, cache, probe).0 == Aborted ==>
      ocaCategory && exists k :: k in Pick(deps, catalog, Other) && !Cached(cache, k) && probe(k).ConnectionError?
  {
    if SortAddon(deps, catalog, project, ocaCategory, cache, probe).0 == Aborted {
      var names := SortNames(Pick(deps, catalog, Other));
      var run := Identify(cache, names, probe);
      IdentifyFailure(cache, names, probe);
      IdentifyProbes(cache, names, probe);
      var k := run.probed[|run.probed| - 1];
      assert k in run.probed;
      assert k in multiset(names);
    }
  }

  /** The category dictionary of a rewritten addon, with the cache its OCA lists were split by. */
  lemma SortAddonRewritten(deps: seq<string>, catalog: Catalog, project: string, ocaCategory: bool,
                           cache: map<string, string>, probe: string -> ProbeResponse)
    ensures var r := SortAddon(deps, catalog, project, ocaCategory, cache, probe);
      r.0.Rewritten? ==>
        deps != [] && r.0.depends == Rendered(r.0.categories)
        && r.0.categories == ExpectedCategories(deps, catalog, project, if ocaCategory then Some(r.1) else None)
  {
  }

  /** Every list of a rewritten addon is sorted. */
  lemma SortAddonSorted(deps: seq<string>, catalog: Catalog, project: string, ocaCategory: bool,
                        cache: map<string, string>, probe: string -> ProbeResponse)
    ensures var r := SortAddon(deps, catalog, project, ocaCategory, cache, probe);
      r.0.Rewritten? ==> ValuesSorted(r.0.categories)
  {
    var r := SortAddon(deps, catalog, project, ocaCategory, cache, probe);
    SortAddonRewritten(deps, catalog, project, ocaCategory, cache, probe);
    if r.0.Rewritten? {
      CategoriesSorted(deps, catalog, project, if ocaCategory then Some(r.1) else None);
    }
  }

  /**
   * Unless the project name is a fixed label, a rewritten addon keeps every
   * declared dependency exactly once, its block is never empty, and its
   * categories are the fixed labels followed by the local labels in
   * ascending order, no label twice.
   */
  lemma SortAddonLayout(deps: seq<string>, catalog: Catalog, project: string, ocaCategory: bool,
                        cache: map<string, string>, probe: string -> ProbeResponse)
    requires project !in FixedLabels(ocaCategory)
    ensures var r := SortAddon(deps, catalog, project, ocaCategory, cache, probe);
      r.0.Rewritten? ==> multiset(Flatten(r.0.categories)) == multiset(deps) && r.0.depends != Opening + Closing
    ensures var r := SortAddon(deps, catalog, project, ocaCategory, cache, probe);
      r.0.Rewritten? ==>
        |FixedLabels(ocaCategory)| <= |r.0.categories|
        && Keys(r.0.categories)[..|FixedLabels(ocaCategory)|] == FixedLabels(ocaCategory)
        && Sorted(Keys(r.0.categories)[|FixedLabels(ocaCategory)|..])
        && UniqueKeys(r.0.categories)
  {
    var r := SortAddon(deps, catalog, project, ocaCategory, cache, probe);
    if r.0.Rewritten? {
      var ocaCache := if ocaCategory then Some(r.1) else None;
      var fixed := FixedLabels(ocaCategory);
      var categories := r.0.categories;
      CategoriesPartition(deps, catalog, project, ocaCache);
      CategoryOrder(deps, catalog, project, ocaCache);
      var locals := Keys(LocalItems(deps, catalog, project));
      assert Keys(categories) == fixed + locals;
      assert Keys(categories)[..|fixed|] == fixed && Keys(categories)[|fixed|..] == locals;
      assert deps[0] in multiset(Flatten(categories));
      FlattenMember(categories, deps[0]);
      EmptyBlock(categories);
    }
  }

  /**
   * Unless the project name is a fixed label, a rewritten addon lists its
   * Community and Enterprise dependencies, sorted, under "Odoo Community"
   * and "Odoo Enterprise"; without OCA identification its other
   * dependencies, sorted, under "Third-party"; and the local dependencies of
   * each manifest category, sorted, under that category's label.
   */
  lemma SortAddonFiling(deps: seq<string>, catalog: Catalog, project: string, ocaCategory: bool,
                        cache: map<string, string>, probe: string -> ProbeResponse)
    requires project !in FixedLabels(ocaCategory)
    ensures var r := SortAddon(deps, catalog, project, ocaCategory, cache, probe);
      r.0.Rewritten? ==>
        Get(r.0.categories, CommunityLabel) == Some(SortNames(Pick(deps, catalog, CoreCE)))
        && Get(r.0.categories, EnterpriseLabel) == Some(SortNames(Pick(deps, catalog, CoreEE)))
        && (!ocaCategory ==> Get(r.0.categories, ThirdPartyLabel) == Some(SortNames(Pick(deps, catalog, Other))))
    ensures var r := SortAddon(deps, catalog, project, ocaCategory, cache, probe);
      r.0.Rewritten? ==>
        forall c :: Get(r.0.categories, LocalLabel(project, c))
                    == if Pick(deps, catalog, Local(c)) == [] then None else Some(SortNames(Pick(deps, catalog, Local(c))))
  {
    var r := SortAddon(deps, catalog, project, ocaCategory, cache, probe);
    if r.0.Rewritten? {
      var ocaCache := if ocaCategory then Some(r.1) else None;
      FixedLookups(deps, catalog, project, ocaCache);
      LocalLookups(deps, catalog, project, ocaCache);
    }
  }

  /**
   * With OCA identification, unless the project name is a fixed label, a
   * rewritten addon splits its other dependencies between "OCA" and
   * "Third-party": the OCA list holds those whose cached category is now
   * "oca", the third-party list all the others, each name as often as it
   * was declared.
   */
  lemma SortAddonOca(deps: seq<string>, catalog: Catalog, project: string, cache: map<string, string>,
                     probe: string -> ProbeResponse)
    requires project !in FixedLabels(true)
    ensures var r := SortAddon(deps, catalog, project, true, cache, probe);
      r.0.Rewritten? ==>
        Get(r.0.categories, OcaLabel).Some? && Get(r.0.categories, ThirdPartyLabel).Some?
        && multiset(Get(r.0.categories, OcaLabel).value) + multiset(Get(r.0.categories, ThirdPartyLabel).value)
           == multiset(Pick(deps, catalog, Other))
    ensures var r := SortAddon(deps, catalog, project, true, cache, probe);
      r.0.Rewritten? ==>
        forall k :: k in Pick(deps, catalog, Other) ==>
                      && Cached(r.1, k)
                      && (k in Get(r.0.categories, OcaLabel).value <==> r.1[k] == OcaTag)
                      && (k in Get(r.0.categories, ThirdPartyLabel).value <==> r.1[k] != OcaTag)
    ensures var r := SortAddon(deps, catalog, project, true, cache, probe);
      r.0.Rewritten? ==>
        forall k :: k in Get(r.0.categories, OcaLabel).value || k in Get(r.0.categories, ThirdPartyLabel).value
                    ==> k in Pick(deps, catalog, Other)
  {
    var r := SortAddon(deps, catalog, project, true, cache, probe);
    if r.0.Rewritten? {
      var other := SortNames(Pick(deps, catalog, Other));
      SortAddonRewritten(deps, catalog, project, true, cache, probe);
      FixedLookups(deps, catalog, project, Some(r.1));
      assert Get(r.0.categories, OcaLabel) == Some(Having(other, r.1, true));
      assert Get(r.0.categories, ThirdPartyLabel) == Some(Having(other, r.1, false));
      PartitionIsPermutation(other, r.1);
      HavingMembers(other, r.1, true);
      HavingMembers(other, r.1, false);
      SortNamesMembers(Pick(deps, catalog, Other));
      SortAddonCache(deps, catalog, project, true, cache, probe);
    }
  }

  /**
   * Sorting is idempotent, whatever the project name: sorting a rewritten
   * addon's dependencies again, as they now stand in the manifest, gives
   * the same categories and the same block, and probes and writes nothing.
   * The cache of the second pass may be any cache that agrees with the one
   * this pass left on the addon's third-party dependencies, such as the
   * cache a whole run leaves, since later addons never rewrite a truthy
   * entry.
   */
  lemma SortAddonIdempotent(deps: seq<string>, catalog: Catalog, project: string, ocaCategory: bool,
                            cache: map<string, string>, probe: string -> ProbeResponse, later: map<string, string>)
    requires var r := SortAddon(deps, catalog, project, ocaCategory, cache, probe);
      ocaCategory ==> forall k :: k in Pick(deps, catalog, Other) && k in r.1 ==> k in later && later[k] == r.1[k]
    ensures var r := SortAddon(deps, catalog, project, ocaCategory, cache, probe);
      r.0.Rewritten? ==> SortAddon(Flatten(r.0.categories), catalog, project, ocaCategory, later, probe) == (r.0, later)
  {
    var r := SortAddon(deps, catalog, project, ocaCategory, cache, probe);
    SortAddonRewritten(deps, catalog, project, ocaCategory, cache, probe);
    if r.0.Rewritten? {
      var ocaCache := if ocaCategory then Some(r.1) else None;
      var again := Flatten(r.0.categories);
      ExpectedNonEmpty(deps, catalog, project, ocaCache);
      ExpectedCategoriesAgain(deps, catalog, project, ocaCache);
      if ocaCategory {
        var names := SortNames(Pick(again, catalog, Other));
        SortAddonCache(deps, catalog, project, ocaCategory, cache, probe);
        SortNamesMembers(Pick(again, catalog, Other));
        forall k | k in Pick(again, catalog, Other) ensures Cached(r.1, k) && k in later && later[k] == r.1[k] {
          OtherAgain(deps, catalog, project, ocaCache, k);
        }
        IdentifyAllCached(later, names, probe);
        ExpectedCategoriesCacheAgree(again, catalog, project, r.1, later);
      }
    }
  }

  /**
   * A third-party name of the rewritten dependency list is a third-party
   * dependency of the original list.
   */
  lemma OtherAgain(deps: seq<string>, catalog: Catalog, project: string, ocaCache: Option<map<string, string>>, k: string)
    requires k in SortNames(Pick(Flatten(ExpectedCategories(deps, catalog, project, ocaCache)), catalog, Other))
    ensures k in Pick(deps, catalog, Other)
  {
    var again := Flatten(ExpectedCategories(deps, catalog, project, ocaCache));
    SortNamesMembers(Pick(again, catalog, Other));
    assert k in multiset(Pick(again, catalog, Other));
    PickCount(again, catalog, Other, k);
    ExpectedCount(deps, catalog, project, ocaCache, k);
    PickCount(deps, catalog, Other, k);
    assert k in multiset(Pick(deps, catalog, Other));
  }

  /**
   * One iteration of the `do_sorting` loop (the manifest is neither read
   * nor written): the outcome and the cache are those of `SortAddon`.
   */
  method SortAddonDepends(dependencies: seq<string>, catalog: Catalog, projectName: string, ocaCategory: bool,
                          cache: CategoryCache, probe: string -> ProbeResponse)
    returns (outcome: Outcome)
    modifies cache
    ensures (outcome, cache.entries) == SortAddon(dependencies, catalog, projectName, ocaCategory, old(cache.entries), probe)
  {
    if dependencies == [] {
      return Skipped;
    }
    var odooCE, odooEE, other, customByCategory := ClassifyDependencies(dependencies, catalog);
    SomeBucketFilled(dependencies, catalog);
    assert customByCategory != [] || odooCE != [] || odooEE != [] || other != [];
    odooCE, odooEE, other := SortNames(odooCE), SortNames(odooEE), SortNames(other);

    LocalBuckets(dependencies, catalog);
    var localCategories := RelabelLocalCategories(customByCategory, projectName);

    var categories: Dict<seq<string>> := [(CommunityLabel, odooCE), (EnterpriseLabel, odooEE)];
    if ocaCategory {
      var split;
      ghost var probed;
      ghost var sortedOther := other;
      split, probed := cache.IdentifyOcaAddons(other, probe);
      if split.None? {
        return Aborted;
      }
      IdentifySplit(old(cache.entries), sortedOther, probe);
      var oca;
      oca, other := split.value.oca, split.value.other;
      categories := Set(categories, OcaLabel, oca);
      categories := Set(categories, ThirdPartyLabel, other);
      FixedWithOca(odooCE, odooEE, sortedOther, cache.entries);
      assert categories == FixedCategories(dependencies, catalog, Some(cache.entries));
    } else {
      categories := Set(categories, ThirdPartyLabel, other);
      FixedWithoutOca(odooCE, odooEE, other);
      assert categories == FixedCategories(dependencies, catalog, None);
    }

    categories := Update(categories, SortBy(localCategories, ItemLabel));
    var newDepends := GenerateDependsSections(categories);
    outcome := Rewritten(categories, newDepends);
  }

  /** The loop body of `do_sorting` as a function of one addon's dependencies and the cache before it. */
  function Step(catalog: Catalog, project: string, ocaCategory: bool, probe: string -> ProbeResponse)
    : (seq<string>, map<string, string>) -> (Outcome, map<string, string>)
  {
    (deps: seq<string>, cache: map<string, string>) => SortAddon(deps, catalog, project, ocaCategory, cache, probe)
  }

  /** The outcomes of a loop running `step` over the addons in iteration order, and the cache afterwards; nothing runs after an abort. */
  function RunSteps(addons: seq<Addon>, step: (seq<string>, map<string, string>) -> (Outcome, map<string, string>),
                    cache: map<string, string>): (seq<Outcome>, map<string, string>)
    decreases |addons|
  {
    if addons == [] then ([], cache)
    else
      var n := |addons| - 1;
      var prev := RunSteps(addons[..n], step, cache);
      if Aborted in prev.0 then prev
      else
        var next := step(addons[n].depends, prev.1);
        (prev.0 + [next.0], next.1)
  }

  /** The outcomes of `do_sorting` over the addons, and the cache afterwards. */
  function RunSorting(addons: seq<Addon>, catalog: Catalog, project: string, ocaCategory: bool,
                      cache: map<string, string>, probe: string -> ProbeResponse): (seq<Outcome>, map<string, string>)
  {
    RunSteps(addons, Step(catalog, project, ocaCategory, probe), cache)
  }

  /** Once an addon has aborted the run, the remaining addons change nothing. */
  lemma {:induction false} RunStepsStops(addons: seq<Addon>, k: nat,
                                         step: (seq<string>, map<string, string>) -> (Outcome, map<string, string>),
                                         cache: map<string, string>)
    requires k <= |addons|
    requires Aborted in RunSteps(addons[..k], step, cache).0
    ensures RunSteps(addons, step, cache) == RunSteps(addons[..k], step, cache)
    decreases |addons|
  {
    if k < |addons| {
      var n := |addons| - 1;
      assert addons[..n][..k] == addons[..k];
      RunStepsStops(addons[..n], k, step, cache);
    } else {
      assert addons[..k] == addons;
    }
  }

  /**
   * `do_sorting` over the local addons, in the index's iteration order,
   * with the core-addon sets of the target series. A probe that raises
   * ends the run: the addons before it keep their outcome.
   */
  method DoSorting(addons: seq<Addon>, coreCE: set<string>, coreEE: set<string>, projectName: string, ocaCategory: bool,
                   cache: CategoryCache, probe: string -> ProbeResponse)
    returns (outcomes: seq<Outcome>)
    requires DistinctNames(addons)
    modifies cache
    ensures (outcomes, cache.entries)
            == RunSorting(addons, Catalog(LocalIndex(addons), coreCE, coreEE), projectName, ocaCategory, old(cache.entries), probe)
  {
    var catalog := Catalog(LocalIndex(addons), coreCE, coreEE);
    ghost var step := Step(catalog, projectName, ocaCategory, probe);
    outcomes := [];
    for i := 0 to |addons|
      invariant (outcomes, cache.entries) == RunSteps(addons[..i], step, old(cache.entries))
      invariant Aborted !in outcomes
    {
      assert addons[..i + 1][..i] == addons[..i];
      var outcome := SortAddonDepends(addons[i].depends, catalog, projectName, ocaCategory, cache, probe);
      outcomes := outcomes + [outcome];
      if outcome == Aborted {
        RunStepsStops(addons, i + 1, step, old(cache.entries));
        return;
      }
    }
    assert addons[..|addons|] == addons;
  }

  /**
   * The shape of a run: at most one outcome per addon; only the last can be
   * an abort, and fewer outcomes than addons means the run was aborted.
   */
  lemma {:induction false} RunStepsShape(addons: seq<Addon>,
                                         step: (seq<string>, map<string, string>) -> (Outcome, map<string, string>),
                                         cache: map<string, string>)
    ensures var r := RunSteps(addons, step, cache);
      |r.0| <= |addons| && forall i :: 0 <= i < |r.0| - 1 ==> r.0[i] != Aborted
    ensures var r := RunSteps(addons, step, cache);
      |r.0| < |addons| ==> r.0 != [] && r.0[|r.0| - 1] == Aborted
    decreases |addons|
  {
    if addons != [] {
      var n := |addons| - 1;
      RunStepsShape(addons[..n], step, cache);
      var prev := RunSteps(addons[..n], step, cache);
      if Aborted in prev.0 {
        var j :| 0 <= j < |prev.0| && prev.0[j] == Aborted;
        assert j == |prev.0| - 1;
      } else {
        var r := RunSteps(addons, step, cache);
        assert r.0[..|prev.0|] == prev.0 && |r.0| == |prev.0| + 1;
        assert |prev.0| == n;
        forall i | 0 <= i < |r.0| - 1 ensures r.0[i] != Aborted {
          assert r.0[i] == prev.0[i];
          assert prev.0[i] in prev.0;
        }
      }
    }
  }

  /** A step that never aborts and never writes the cache gives every addon an outcome and leaves the cache alone. */
  lemma {:induction false} RunStepsQuiet(addons: seq<Addon>,
                                         step: (seq<string>, map<string, string>) -> (Outcome, map<string, string>),
                                         cache: map<string, string>)
    requires forall deps, c :: step(deps, c).0 != Aborted && step(deps, c).1 == c
    ensures var r := RunSteps(addons, step, cache);
      |r.0| == |addons| && Aborted !in r.0 && r.1 == cache
    decreases |addons|
  {
    if addons != [] {
      var n := |addons| - 1;
      RunStepsQuiet(addons[..n], step, cache);
    }
  }

  /** Without OCA identification nothing aborts: every addon has an outcome and the cache is untouched. */
  lemma RunSortingWithoutOca(addons: seq<Addon>, catalog: Catalog, project: string,
                             cache: map<string, string>, probe: string -> ProbeResponse)
    ensures var r := RunSorting(addons, catalog, project, false, cache, probe);
      |r.0| == |addons| && Aborted !in r.0 && r.1 == cache
  {
    var step := Step(catalog, project, false, probe);
    forall deps, c ensures step(deps, c).0 != Aborted && step(deps, c).1 == c {
      SortAddonCache(deps, catalog, project, false, c, probe);
      SortAddonAborts(deps, catalog, project, false, c, probe);
    }
    RunStepsQuiet(addons, step, cache);
  }

  /**
   * What a run promises about each addon it reached: skipped exactly when
   * it has no dependencies; aborted only with OCA identification; when
   * rewritten, every list sorted, the block rendered from its categories,
   * and, unless the project name is a fixed label, every declared
   * dependency kept exactly once, in the fixed-then-ascending-local order,
   * with no label twice.
   */
  ghost predicate Faithful(deps: seq<string>, project: string, ocaCategory: bool, outcome: Outcome)
  {
    && (outcome == Skipped <==> deps == [])
    && (outcome == Aborted ==> ocaCategory)
    && (outcome.Rewritten? ==>
          ValuesSorted(outcome.categories) && outcome.depends == Rendered(outcome.categories)
          && (project !in FixedLabels(ocaCategory) ==>
                multiset(Flatten(outcome.categories)) == multiset(deps)
                && |FixedLabels(ocaCategory)| <= |outcome.categories|
                && Keys(outcome.categories)[..|FixedLabels(ocaCategory)|] == FixedLabels(ocaCategory)
                && Sorted(Keys(outcome.categories)[|FixedLabels(ocaCategory)|..])
                && UniqueKeys(outcome.categories)))
  }

  /** One addon's outcome keeps every promise, whatever the cache. */
  lemma SortAddonFaithful(deps: seq<string>, catalog: Catalog, project: string, ocaCategory: bool,
                          cache: map<string, string>, probe: string -> ProbeResponse)
    ensures Faithful(deps, project, ocaCategory, SortAddon(deps, catalog, project, ocaCategory, cache, probe).0)
  {
    SortAddonAborts(deps, catalog, project, ocaCategory, cache, probe);
    SortAddonRewritten(deps, catalog, project, ocaCategory, cache, probe);
    SortAddonSorted(deps, catalog, project, ocaCategory, cache, probe);
    if project !in FixedLabels(ocaCategory) {
      SortAddonLayout(deps, catalog, project, ocaCategory, cache, probe);
    }
  }

  /** Whatever holds of every possible outcome of one step holds of every outcome of a run. */
  lemma {:induction false} RunStepsEach(addons: seq<Addon>,
                                        step: (seq<string>, map<string, string>) -> (Outcome, map<string, string>),
                                        cache: map<string, string>, holds: (seq<string>, Outcome) -> bool)
    requires forall deps, c :: holds(deps, step(deps, c).0)
    ensures var r := RunSteps(addons, step, cache);
      |r.0| <= |addons| && forall i :: 0 <= i < |r.0| ==> holds(addons[i].depends, r.0[i])
    decreases |addons|
  {
    if addons != [] {
      var n := |addons| - 1;
      RunStepsEach(addons[..n], step, cache, holds);
      RunStepsShape(addons[..n], step, cache);
      var prev := RunSteps(addons[..n], step, cache);
      if Aborted !in prev.0 {
        var r := RunSteps(addons, step, cache);
        assert |prev.0| == n;
        assert r.0 == prev.0 + [step(addons[n].depends, prev.1).0];
        forall i | 0 <= i < |r.0| ensures holds(addons[i].depends, r.0[i]) {
          if i < n {
            assert addons[..n][i] == addons[i];
            assert r.0[i] == prev.0[i];
          }
        }
      }
    }
  }

  /** Every addon a run reaches keeps every promise. */
  lemma RunSortingFaithful(addons: seq<Addon>, catalog: Catalog, project: string, ocaCategory: bool,
                           cache: map<string, string>, probe: string -> ProbeResponse)
    ensures var r := RunSorting(addons, catalog, project, ocaCategory, cache, probe);
      |r.0| <= |addons| && forall i :: 0 <= i < |r.0| ==> Faithful(addons[i].depends, project, ocaCategory, r.0[i])
  {
    var step := Step(catalog, project, ocaCategory, probe);
    var holds := (deps, outcome) => Faithful(deps, project, ocaCategory, outcome);
    forall deps, c ensures holds(deps, step(deps, c).0) {
      SortAddonFaithful(deps, catalog, project, ocaCategory, c, probe);
    }
    RunStepsEach(addons, step, cache, holds);
  }

  /** The cache after a step keeps every truthy entry, and every entry for a name the step's addon does not depend on. */
  ghost predicate KeepsCache(before: map<string, string>, after: map<string, string>, deps: seq<string>)
  {
    && (forall k :: Cached(before, k) ==> k in after && after[k] == before[k])
    && (forall k :: k !in deps ==> (k in after <==> k in before) && (k in before ==> after[k] == before[k]))
  }

  /** Steps that keep the cache make a run that keeps every truthy entry and every entry no addon depends on. */
  lemma {:induction false} RunStepsCache(addons: seq<Addon>,
                                         step: (seq<string>, map<string, string>) -> (Outcome, map<string, string>),
                                         cache: map<string, string>)
    requires forall deps, c :: KeepsCache(c, step(deps, c).1, deps)
    ensures var r := RunSteps(addons, step, cache);
      forall k :: Cached(cache, k) ==> k in r.1 && r.1[k] == cache[k]
    ensures var r := RunSteps(addons, step, cache);
      forall k :: (forall i :: 0 <= i < |addons| ==> k !in addons[i].depends)
                  ==> (k in r.1 <==> k in cache) && (k in cache ==> r.1[k] == cache[k])
    decreases |addons|
  {
    if addons != [] {
      var n := |addons| - 1;
      RunStepsCache(addons[..n], step, cache);
      forall k, i | 0 <= i < n && k !in addons[i].depends ensures k !in addons[..n][i].depends {
        assert addons[..n][i] == addons[i];
      }
      var prev := RunSteps(addons[..n], step, cache);
      assert KeepsCache(prev.1, step(addons[n].depends, prev.1).1, addons[n].depends);
    }
  }

  /**
   * What a run does to the cache: a truthy entry is never rewritten, and an
   * entry for a name no addon depends on is never touched.
   */
  lemma RunSortingCache(addons: seq<Addon>, catalog: Catalog, project: string, ocaCategory: bool,
                        cache: map<string, string>, probe: string -> ProbeResponse)
    ensures var r := RunSorting(addons, catalog, project, ocaCategory, cache, probe);
      forall k :: Cached(cache, k) ==> k in r.1 && r.1[k] == cache[k]
    ensures var r := RunSorting(addons, catalog, project, ocaCategory, cache, probe);
      forall k :: (forall i :: 0 <= i < |addons| ==> k !in addons[i].depends)
                  ==> (k in r.1 <==> k in cache) && (k in cache ==> r.1[k] == cache[k])
  {
    var step := Step(catalog, project, ocaCategory, probe);
    forall deps, c ensures KeepsCache(c, step(deps, c).1, deps) {
      SortAddonCache(deps, catalog, project, ocaCategory, c, probe);
    }
    RunStepsCache(addons, step, cache);
  }

  /**
   * The addons as a run leaves their manifests: a rewritten addon now
   * declares the names of its block, in order; every other addon, and
   * every name and category, is as before.
   */
  function Rewrite(addons: seq<Addon>, outcomes: seq<Outcome>): (r: seq<Addon>)
    ensures |r| == |addons|
    ensures forall i :: 0 <= i < |addons| ==> r[i].name == addons[i].name && r[i].category == addons[i].category
  {
    seq(|addons|, i requires 0 <= i < |addons| =>
      if i < |outcomes| && outcomes[i].Rewritten? then addons[i].(depends := Flatten(outcomes[i].categories))
      else addons[i])
  }

  /** Rewriting manifests keeps the local addon index, so a second run classifies by the same catalog. */
  lemma {:induction false} RewriteKeepsIndex(addons: seq<Addon>, outcomes: seq<Outcome>)
    ensures LocalIndex(Rewrite(addons, outcomes)) == LocalIndex(addons)
    decreases |addons|
  {
    if addons != [] {
      var n := |addons| - 1;
      var r := Rewrite(addons, outcomes);
      assert r[..n] == Rewrite(addons[..n], outcomes);
      RewriteKeepsIndex(addons[..n], outcomes);
    }
  }

  /** A run that did not abort is the run over all addons but the last, followed by one step for the last. */
  lemma RunStepsLast(addons: seq<Addon>, step: (seq<string>, map<string, string>) -> (Outcome, map<string, string>),
                     cache: map<string, string>)
    requires addons != [] && Aborted !in RunSteps(addons, step, cache).0
    ensures var n := |addons| - 1;
      var prev := RunSteps(addons[..n], step, cache);
      var next := step(addons[n].depends, prev.1);
      Aborted !in prev.0 && |prev.0| == n && next.0 != Aborted
      && RunSteps(addons, step, cache) == (prev.0 + [next.0], next.1)
  {
    var n := |addons| - 1;
    var prev := RunSteps(addons[..n], step, cache);
    RunStepsShape(addons[..n], step, cache);
    assert Aborted !in prev.0;
    var r := RunSteps(addons, step, cache);
    assert r.0[n] in r.0;
  }

  /** Rewriting after one more outcome rewrites the earlier addons as before, and the last by that outcome. */
  lemma RewriteLast(addons: seq<Addon>, outcomes: seq<Outcome>, last: Outcome)
    requires addons != [] && |outcomes| == |addons| - 1
    ensures var n := |addons| - 1;
      var r := Rewrite(addons, outcomes + [last]);
      r[..n] == Rewrite(addons[..n], outcomes)
      && r[n] == if last.Rewritten? then addons[n].(depends := Flatten(last.categories)) else addons[n]
  {
    var n := |addons| - 1;
    var r := Rewrite(addons, outcomes + [last]);
    forall i | 0 <= i < n ensures r[..n][i] == Rewrite(addons[..n], outcomes)[i] {
      assert (outcomes + [last])[i] == outcomes[i];
    }
  }

  /**
   * One addon of the second run: when the step of the first run did not
   * abort and the second run's cache agrees with the cache that step left
   * on its truthy entries, the step over the rewritten manifest repeats the
   * outcome and writes nothing; and the second run's cache also agrees with
   * the cache before that step on its truthy entries.
   */
  lemma StepAgain(catalog: Catalog, project: string, ocaCategory: bool, probe: string -> ProbeResponse,
                  deps: seq<string>, before: map<string, string>, later: map<string, string>)
    requires var next := Step(catalog, project, ocaCategory, probe)(deps, before);
      next.0 != Aborted && forall k :: Cached(next.1, k) ==> k in later && later[k] == next.1[k]
    ensures var next := Step(catalog, project, ocaCategory, probe)(deps, before);
      forall k :: Cached(before, k) ==> k in later && later[k] == before[k]
    ensures var next := Step(catalog, project, ocaCategory, probe)(deps, before);
      var again := if next.0.Rewritten? then Flatten(next.0.categories) else deps;
      Step(catalog, project, ocaCategory, probe)(again, later) == (next.0, later)
  {
    var next := SortAddon(deps, catalog, project, ocaCategory, before, probe);
    SortAddonCache(deps, catalog, project, ocaCategory, before, probe);
    SortAddonIdempotent(deps, catalog, project, ocaCategory, before, probe, later);
  }

  /**
   * A second run over the rewritten manifests repeats the outcomes of a
   * first run that no probe aborted, and writes nothing, from any cache
   * that agrees with the first run's final cache on its truthy entries.
   */
  lemma {:induction false} RunSortingAgain(addons: seq<Addon>, catalog: Catalog, project: string, ocaCategory: bool,
                                           cache: map<string, string>, probe: string -> ProbeResponse,
                                           later: map<string, string>)
    requires var first := RunSorting(addons, catalog, project, ocaCategory, cache, probe);
      Aborted !in first.0 && forall k :: Cached(first.1, k) ==> k in later && later[k] == first.1[k]
    ensures var first := RunSorting(addons, catalog, project, ocaCategory, cache, probe);
      RunSorting(Rewrite(addons, first.0), catalog, project, ocaCategory, later, probe) == (first.0, later)
    decreases |addons|
  {
    if addons != [] {
      var n := |addons| - 1;
      var step := Step(catalog, project, ocaCategory, probe);
      var first := RunSteps(addons, step, cache);
      var prev := RunSteps(addons[..n], step, cache);
      RunStepsLast(addons, step, cache);
      var next := step(addons[n].depends, prev.1);
      StepAgain(catalog, project, ocaCategory, probe, addons[n].depends, prev.1, later);
      RunSortingAgain(addons[..n], catalog, project, ocaCategory, cache, probe, later);
      var again := Rewrite(addons, first.0);
      RewriteLast(addons, prev.0, next.0);
      assert again[n].depends == if next.0.Rewritten? then Flatten(next.0.categories) else addons[n].depends;
      assert step(again[n].depends, later) == (next.0, later);
      assert RunSteps(again[..n], step, later) == (prev.0, later);
      assert RunSteps(again, step, later) == (prev.0 + [next.0], later);
    }
  }

  /**
   * Running the sorter twice changes nothing the second time: when no probe
   * aborted the first run, a second run over the manifests the first one
   * rewrote, with the cache the first one left, gives the same outcome for
   * every addon and leaves the cache as it was.
   */
  lemma RunSortingIdempotent(addons: seq<Addon>, catalog: Catalog, project: string, ocaCategory: bool,
                             cache: map<string, string>, probe: string -> ProbeResponse)
    requires Aborted !in RunSorting(addons, catalog, project, ocaCategory, cache, probe).0
    ensures var first := RunSorting(addons, catalog, project, ocaCategory, cache, probe);
      RunSorting(Rewrite(addons, first.0), catalog, project, ocaCategory, first.1, probe) == first
  {
    var first := RunSorting(addons, catalog, project, ocaCategory, cache, probe);
    RunSortingAgain(addons, catalog, project, ocaCategory, cache, probe, first.1);
  }
}
