# odoo-sort-manifest-depends, modelled in Dafny

`odoo-sort-manifest-depends` rewrites the `"depends"` list of every Odoo addon
manifest in a directory. Each dependency is classified as:

- a local addon, grouped by that addon's manifest `category`;
- a core Community addon;
- a core Enterprise addon;
- anything else ("Third-party").

Optionally, the third-party dependencies are split further into those
published on the OCA wheelhouse index and the rest. A persistent cache
remembers the answer for each name. The rewritten list has:

- one `# <label>` comment per non-empty category;
- the categories in a fixed order;
- each category's dependencies sorted by name.

This project models that logic and proves what it promises.

- `Classifier` is the per-addon classification loop. `ClassifyDependencies` is
  a method over the four buckets, specified by `Pick` and `CustomByCategory`.
- `Categories` covers:
  - relabelling the local buckets with the project name
    (`RelabelLocalCategories`);
  - assembling the ordered category dictionary (`ExpectedCategories`).

  Python's insertion-ordered `dict` is modelled in `Dicts`: `d[k] = v` is
  `Set` and `d.update(e)` is `Update`.
- `OcaIdentifier` is the cache-backed OCA identifier: class `CategoryCache`
  with an `entries` map that `IdentifyOcaAddons` updates in place.
  - It is specified by the function `Identify`.
  - The HTTP `HEAD` request is an oracle `probe`. It returns either a
    response, truthy or falsy, or a raised `ConnectionError`.
- `Serializer` renders the `"depends": [...]` block
  (`GenerateDependsSections`). It is proved equal to a line-by-line layout.
- `SortManifestDeps` has two parts:
  - `SortAddonDepends` is one iteration of `do_sorting`;
  - `DoSorting` is the loop over the local addons.

  They are specified by the functions `SortAddon` and `RunSorting`, with
  lemmas on what every rewritten addon looks like and on what a run does
  to the cache.
- `Sorting` is Python's `sorted`: a stable insertion sort that is proved
  sorted and a permutation. `StringOrder` is Python's code-point order on
  strings.

## Behaviour worth knowing

- A negative probe result is cached as `"other"`, just like a positive one
  (lines 55-59).
- A network error or timeout raised by `requests.head` (line 54) is not
  caught, so it ends the whole run. Cache entries written before it stay,
  because the cache is written per name. Manifests already rewritten stay
  rewritten. The model has an `Aborted` outcome for this; `SortAddonAborts`
  and `IdentifyFailure` state when it happens.
- A cache value other than `"oca"` that is truthy is used as is and sends
  the name to the third-party list (lines 50-64). Entries are never evicted.
- Duplicate names in a manifest's `depends` are kept: every declared
  occurrence is emitted once (`CategoriesPartition` is a multiset equality).
- Running the sorter a second time changes nothing, whatever the project
  name, provided no probe aborted the first run. `RunSortingIdempotent`
  states that a second run over the rewritten manifests, with the cache the
  first run left, gives every addon the same outcome and leaves the cache as
  it was. Per addon, `SortAddonIdempotent` allows any second-pass cache that
  agrees with the addon's own post-pass cache on its third-party
  dependencies.
- A project name (`--project-name`, lines 158-163 and 177) equal to a fixed
  label ("Third-party", say) makes the local "Default" category, whose label
  is the project name (line 114), overwrite that fixed list (line 133). The
  dependencies filed under that fixed label then disappear from the
  rewritten manifest. `CollisionLosesDependency` exhibits this, and
  `ExpectedCount` states in general which names are lost.

## Model

| member | source | states |
|---|---|---|
| Classifier.ClassifyDependencies | src/odoo_sort_manifest_depends/sort_manifest_deps.py:89-102 | The loop's four results are the Community, Enterprise and other buckets, in declaration order, and the local buckets grouped by category in order of first use. |
| Classifier.CategoryOf | src/odoo_sort_manifest_depends/sort_manifest_deps.py:94 | The category a local addon is filed under: its manifest `category`, or "Default" when that is missing or empty. `BucketsPrecedence` states its use. |
| Classifier.Classify | src/odoo_sort_manifest_depends/sort_manifest_deps.py:92-102 | The bucket of one dependency: local first, then core CE, then core EE, else other. `BucketsPrecedence` and `PickCount` state its properties. |
| Classifier.PickCount | src/odoo_sort_manifest_depends/sort_manifest_deps.py:91-102 | A bucket holds each dependency of that bucket exactly as often as it is declared, and nothing else. |
| Classifier.BucketsPrecedence | src/odoo_sort_manifest_depends/sort_manifest_deps.py:91-102 | A name goes to the first bucket whose test it passes: local index, then core CE, then core EE, then other. A local name goes under `manifest.category or "Default"`, and in no other bucket. |
| Classifier.BucketsPartition | src/odoo_sort_manifest_depends/sort_manifest_deps.py:91-102 | The multiset union of the four buckets is exactly the declared list. |
| Classifier.LocalBuckets | src/odoo_sort_manifest_depends/sort_manifest_deps.py:92-96 | `custom_by_category` has no duplicate category. A category is present exactly when some local dependency has it, and then holds those dependencies in order. |
| Classifier.SomeBucketFilled | src/odoo_sort_manifest_depends/sort_manifest_deps.py:104 | For a non-empty dependency list, at least one bucket is non-empty, so the assertion cannot fail. |
| Classifier.PickPermutation | src/odoo_sort_manifest_depends/sort_manifest_deps.py:91-102 | Reordering the declared list does not change what a bucket holds, whether it is empty, or its sorted form. |
| Classifier.PickAgree | src/odoo_sort_manifest_depends/sort_manifest_deps.py:91-102 | Two lists that declare every name of a bucket equally often give that bucket the same names and the same sorted list. |
| Sorting.SortBy | src/odoo_sort_manifest_depends/sort_manifest_deps.py:106 | `sorted` returns a permutation of its input in ascending order. |
| Sorting.SortNamesMembers | src/odoo_sort_manifest_depends/sort_manifest_deps.py:106 | Sorting a list of names keeps exactly its members. |
| Sorting.SortedPermutationsEqual | src/odoo_sort_manifest_depends/sort_manifest_deps.py:106 | Two sorted lists with the same members, counted with multiplicity, are equal. |
| Sorting.SortNamesCanonical | src/odoo_sort_manifest_depends/sort_manifest_deps.py:106 | `sorted` of two permutations of the same list gives the same list. |
| Dicts.Get | src/odoo_sort_manifest_depends/sort_manifest_deps.py:93-95 | `d.get(k)` finds a value exactly when `k` is a key. |
| Dicts.Set | src/odoo_sort_manifest_depends/sort_manifest_deps.py:127-129 | `d[k] = v` keeps an existing key in place and appends a new one at the end. |
| Dicts.SetGet | src/odoo_sort_manifest_depends/sort_manifest_deps.py:127-129 | After `d[k] = v`, `k` maps to `v` and every other key to what it had. |
| Dicts.SetNew | src/odoo_sort_manifest_depends/sort_manifest_deps.py:114-116 | Assigning to a new key appends one item. |
| Dicts.SetUnique | src/odoo_sort_manifest_depends/sort_manifest_deps.py:114-116 | Assignment keeps keys unique. |
| Dicts.UpdateDisjoint | src/odoo_sort_manifest_depends/sort_manifest_deps.py:133 | `d.update(e)` with no key of `e` in `d` appends `e`'s items after `d`'s, in `e`'s order. |
| Dicts.UpdateKeepsKeys | src/odoo_sort_manifest_depends/sort_manifest_deps.py:133 | `d.update(e)` keeps `d`'s keys at their positions. |
| Dicts.Update | src/odoo_sort_manifest_depends/sort_manifest_deps.py:133 | `d.update(e)`: `e`'s items assigned into `d` one by one, in `e`'s order. `UpdateDisjoint` and `UpdateKeepsKeys` state its properties. |
| Dicts.UniqueKeysAppend | src/odoo_sort_manifest_depends/sort_manifest_deps.py:133 | Appending a dictionary whose keys are all new keeps the keys unique. |
| Dicts.SameLookupsEqual | src/odoo_sort_manifest_depends/sort_manifest_deps.py:132-133 | Two dictionaries with unique, ascending keys and the same lookups are equal. |
| Dicts.GetAt | src/odoo_sort_manifest_depends/sort_manifest_deps.py:93-95 | With unique keys, looking up the key of an item gives that item's value. |
| Dicts.SameKeysLookupsEqual | src/odoo_sort_manifest_depends/sort_manifest_deps.py:119-133 | Two dictionaries with the same key order, unique keys and the same lookups are equal. |
| Dicts.UpdateOverwrites | src/odoo_sort_manifest_depends/sort_manifest_deps.py:133 | `a.update(e)` and `b.update(e)` agree when `a` and `b` have the same keys in the same order and differ only under keys of `e`. |
| Dicts.SetFlatten | src/odoo_sort_manifest_depends/sort_manifest_deps.py:127-133 | `d[k] = v` replaces the list under `k`, if any, by `v`: the other lists are kept. |
| Dicts.UpdateFlatten | src/odoo_sort_manifest_depends/sort_manifest_deps.py:133 | `d.update(e)`, where only `k` may be a key of both, holds `d`'s and `e`'s lists less the list of `d` that `e` overwrites under `k`. |
| Dicts.AppendToFlatten | src/odoo_sort_manifest_depends/sort_manifest_deps.py:93-96 | `setdefault(k, []).append(x)` adds exactly one occurrence of `x` to the dictionary's lists. |
| Dicts.AppendTo | src/odoo_sort_manifest_depends/sort_manifest_deps.py:93-96 | `d.setdefault(k, []).append(x)`: `x` appended to `k`'s list, which is created empty at the end when `k` is new. `AppendToFlatten` states its effect. |
| Dicts.SortedItems | src/odoo_sort_manifest_depends/sort_manifest_deps.py:132 | `dict(sorted(d.items()))` has the same keys and the same lookups as `d`. |
| Dicts.SortedItemsFlatten | src/odoo_sort_manifest_depends/sort_manifest_deps.py:132 | Sorting the items keeps every list. |
| Categories.LocalLabelInjective | src/odoo_sort_manifest_depends/sort_manifest_deps.py:113-116 | Distinct local categories get distinct labels (`project` for "Default", `project/cat` otherwise). |
| Categories.LocalLabel | src/odoo_sort_manifest_depends/sort_manifest_deps.py:113-116 | The label of a local category: the project name for "Default", `project/cat` otherwise. `LocalLabelInjective` and `LocalLabelNotFixed` state its properties. |
| Categories.LocalLabelNotFixed | src/odoo_sort_manifest_depends/sort_manifest_deps.py:113-133 | A local label equals a fixed label only when the project name itself is one. |
| Categories.RelabelLocalCategories | src/odoo_sort_manifest_depends/sort_manifest_deps.py:111-116 | The relabelling loop gives one item per local category, in the same order, under its label, with its list sorted. |
| Categories.RelabelledGet | src/odoo_sort_manifest_depends/sort_manifest_deps.py:111-116 | A category's list is found, sorted, under that category's label. |
| Categories.RelabelledFlatten | src/odoo_sort_manifest_depends/sort_manifest_deps.py:111-116 | Relabelling keeps every local dependency. |
| Categories.RelabelledUnique | src/odoo_sort_manifest_depends/sort_manifest_deps.py:111-116 | Relabelling never merges two categories. |
| Categories.LocalItemsKeys | src/odoo_sort_manifest_depends/sort_manifest_deps.py:132 | The local labels are distinct, in ascending order, and each is a project label. |
| Categories.LocalItemsFiling | src/odoo_sort_manifest_depends/sort_manifest_deps.py:93-116 | A category with local dependencies is listed under its label with exactly those dependencies, sorted. A category without any is absent. |
| Categories.LocalItemsSorted | src/odoo_sort_manifest_depends/sort_manifest_deps.py:114-116 | Each local list is sorted. |
| Categories.LocalItemsFlatten | src/odoo_sort_manifest_depends/sort_manifest_deps.py:111-132 | The local lists together hold exactly the local dependencies. |
| Categories.FixedWithoutOca | src/odoo_sort_manifest_depends/sort_manifest_deps.py:119-129 | Without `--oca-category`, the assignments give "Odoo Community", "Odoo Enterprise", "Third-party", in that order. |
| Categories.FixedWithOca | src/odoo_sort_manifest_depends/sort_manifest_deps.py:119-129 | With `--oca-category`, the assignments give "Odoo Community", "Odoo Enterprise", "OCA", "Third-party", in that order. |
| Categories.FixedKeys | src/odoo_sort_manifest_depends/sort_manifest_deps.py:119-129 | The fixed part carries exactly the fixed labels, in order. |
| Categories.FixedUnique | src/odoo_sort_manifest_depends/sort_manifest_deps.py:119-129 | The fixed labels are distinct. |
| Categories.FixedGet | src/odoo_sort_manifest_depends/sort_manifest_deps.py:119-129 | Looking up each fixed label gives the list assigned to it. "OCA" is absent without OCA identification. |
| Categories.FixedSorted | src/odoo_sort_manifest_depends/sort_manifest_deps.py:106-129 | The fixed lists are sorted, including both halves of the OCA split. |
| Categories.FixedFlatten | src/odoo_sort_manifest_depends/sort_manifest_deps.py:119-129 | The fixed lists hold exactly the Community, Enterprise and other dependencies. |
| Categories.LocalItemsNotFixed | src/odoo_sort_manifest_depends/sort_manifest_deps.py:113-133 | No local label is a fixed label unless the project name is one. |
| Categories.CategoryOrder | src/odoo_sort_manifest_depends/sort_manifest_deps.py:119-133 | The category dictionary is the fixed categories, in fixed order, then the local categories in ascending label order, with no label twice. |
| Categories.ExpectedCategories | src/odoo_sort_manifest_depends/sort_manifest_deps.py:119-133 | The category dictionary of one addon: the fixed part, updated with the sorted local items. `CategoryOrder`, `FixedLookups`, `LocalLookups` and `CategoriesPartition` state its properties. |
| Categories.FixedLookups | src/odoo_sort_manifest_depends/sort_manifest_deps.py:119-133 | "Odoo Community", "Odoo Enterprise", "OCA" and "Third-party" hold the sorted lists assigned to them; `update` overwrites none of them. |
| Categories.LocalLookups | src/odoo_sort_manifest_depends/sort_manifest_deps.py:111-133 | Each local category's label holds its sorted dependencies; absent categories have no label. |
| Categories.CategoriesSorted | src/odoo_sort_manifest_depends/sort_manifest_deps.py:106-133 | Every emitted list is sorted ascending, whatever the labels. |
| Categories.CategoriesPartition | src/odoo_sort_manifest_depends/sort_manifest_deps.py:89-133 | The emitted lists together hold exactly the declared dependencies. |
| Categories.LocalItemsPermutation | src/odoo_sort_manifest_depends/sort_manifest_deps.py:111-132 | The local items depend only on the multiset of declared dependencies, not on their order. |
| Categories.ExpectedCategoriesPermutation | src/odoo_sort_manifest_depends/sort_manifest_deps.py:89-133 | The category dictionary depends only on the multiset of declared dependencies, not on their order. |
| Categories.ExpectedCategoriesCacheAgree | src/odoo_sort_manifest_depends/sort_manifest_deps.py:119-129 | The category dictionary reads the cache only for the third-party dependencies: two caches that agree on them give the same dictionary. |
| Categories.FiledUnderUnique | src/odoo_sort_manifest_depends/sort_manifest_deps.py:119-129 | A name is filed under at most one fixed label. |
| Categories.SlashLabelNotFixed | src/odoo_sort_manifest_depends/sort_manifest_deps.py:116-129 | A label `project/cat` is never a fixed label. |
| Categories.FixedListShape | src/odoo_sort_manifest_depends/sort_manifest_deps.py:106-129 | Exactly the fixed labels hold a fixed list, and each is sorted. |
| Categories.FixedListCount | src/odoo_sort_manifest_depends/sort_manifest_deps.py:119-129 | The list under a label holds each name filed under that label as often as it is declared, and nothing else. |
| Categories.LocalKeysNotFixed | src/odoo_sort_manifest_depends/sort_manifest_deps.py:113-133 | Only the local "Default" category's label can be a fixed label. |
| Categories.FixedLocalPartition | src/odoo_sort_manifest_depends/sort_manifest_deps.py:89-133 | The fixed lists and the local lists together hold exactly the declared dependencies. |
| Categories.ExpectedPartition | src/odoo_sort_manifest_depends/sort_manifest_deps.py:89-133 | The emitted lists hold the declared dependencies, less the fixed list that the local "Default" category overwrites when the project name is a fixed label. |
| Categories.ExpectedCount | src/odoo_sort_manifest_depends/sort_manifest_deps.py:89-133 | Each name is emitted as often as it is declared, except the names filed under a fixed label that the local "Default" category takes over, which are emitted zero times. |
| Categories.ExpectedNonEmpty | src/odoo_sort_manifest_depends/sort_manifest_deps.py:89-133 | A non-empty dependency list never gives empty emitted lists. |
| Categories.DefaultSurvives | src/odoo_sort_manifest_depends/sort_manifest_deps.py:113-133 | When the local "Default" category takes a label, its names are emitted. |
| Categories.SameFixedCount | src/odoo_sort_manifest_depends/sort_manifest_deps.py:89-133 | A fixed label that no local category takes holds each name equally often after the first and the second pass. |
| Categories.FixedAgain | src/odoo_sort_manifest_depends/sort_manifest_deps.py:89-133 | A fixed label that no local category takes holds the same list after the first and the second pass. |
| Categories.ExpectedCategoriesAgain | src/odoo_sort_manifest_depends/sort_manifest_deps.py:89-133 | Building the category dictionary from the emitted lists gives the same dictionary, whatever the project name. |
| Categories.LocalItemsAgree | src/odoo_sort_manifest_depends/sort_manifest_deps.py:93-132 | The local items depend only on how often each local name is declared. |
| Categories.CollisionLosesDependency | src/odoo_sort_manifest_depends/sort_manifest_deps.py:113-133 | With the project named "Third-party", a third-party dependency "x" and a local addon "y" without category, the rewritten list is `["y"]`: "x" is lost. |
| Serializer.GenerateDependsSections | src/odoo_sort_manifest_depends/sort_manifest_deps.py:25-32 | The loop produces the opening `"depends": [`, the layout of the categories, then `"\n    ]"`. |
| Serializer.SectionsAreLayout | src/odoo_sort_manifest_depends/sort_manifest_deps.py:27-29 | The accumulated text is, for each non-empty category in order, a `# <label>` line and one `"dep",` line per dependency. Empty categories add nothing. |
| Serializer.JoinIsEntryLines | src/odoo_sort_manifest_depends/sort_manifest_deps.py:29 | The comma-joined quoted names plus the trailing comma are one quoted, comma-terminated line per dependency. |
| Serializer.SectionIsCategoryLines | src/odoo_sort_manifest_depends/sort_manifest_deps.py:29 | A section is the comment line followed by its entry lines. |
| Serializer.LayoutAppend | src/odoo_sort_manifest_depends/sort_manifest_deps.py:27 | Categories are laid out in iteration order. |
| Serializer.LayoutEmpty | src/odoo_sort_manifest_depends/sort_manifest_deps.py:27-29 | The body is empty if and only if every category is empty. |
| Serializer.EmptyBlock | src/odoo_sort_manifest_depends/sort_manifest_deps.py:26-30 | The block is exactly the opening plus the closing if and only if every category is empty. |
| OcaIdentifier.CategoryCache.constructor | src/odoo_sort_manifest_depends/sort_manifest_deps.py:22 | The cache starts with the given entries. |
| OcaIdentifier.CategoryCache.Clear | src/odoo_sort_manifest_depends/sort_manifest_deps.py:182-183 | `--reset-cache` empties the cache. |
| OcaIdentifier.CategoryCache.IdentifyOcaAddons | src/odoo_sort_manifest_depends/sort_manifest_deps.py:45-66 | The loop's split, new cache entries and probes are those of `Identify` on the old entries. |
| OcaIdentifier.PartitionIsPermutation | src/odoo_sort_manifest_depends/sort_manifest_deps.py:61-64 | The OCA and other lists together are a permutation of the input. |
| OcaIdentifier.HavingMembers | src/odoo_sort_manifest_depends/sort_manifest_deps.py:61-64 | A name is in the OCA list iff it is an input whose cached category is "oca", and in the other list iff it is an input whose category is not. |
| OcaIdentifier.HavingCount | src/odoo_sort_manifest_depends/sort_manifest_deps.py:61-64 | Each half of the split holds each input name as often as the input does when its cached category sends it there, and never otherwise. |
| OcaIdentifier.HavingSorted | src/odoo_sort_manifest_depends/sort_manifest_deps.py:61-64 | Both lists of a sorted input are sorted, since the split keeps input order. |
| OcaIdentifier.PartitionDependsOnNamesOnly | src/odoo_sort_manifest_depends/sort_manifest_deps.py:61-64 | The split depends only on the cache entries of the input names. |
| OcaIdentifier.IdentifyCache | src/odoo_sort_manifest_depends/sort_manifest_deps.py:49-59 | Entries of other names and truthy entries are untouched. After a call that did not raise, every input has a truthy entry; a name that had none holds `"oca"` or `"other"` according to its probe. |
| OcaIdentifier.IdentifySplit | src/odoo_sort_manifest_depends/sort_manifest_deps.py:49-64 | A name goes to the OCA list iff its final cached category is "oca"; both lists keep input order. |
| OcaIdentifier.IdentifyProbes | src/odoo_sort_manifest_depends/sort_manifest_deps.py:50-54 | Only names without a truthy entry are probed, each at most once. A call that did not raise probes all of them. |
| OcaIdentifier.IdentifyFailure | src/odoo_sort_manifest_depends/sort_manifest_deps.py:54 | A call aborts exactly at the first probe that raises. |
| OcaIdentifier.IdentifyStopsAtFailure | src/odoo_sort_manifest_depends/sort_manifest_deps.py:49-54 | After a raise, the remaining names change nothing. |
| OcaIdentifier.Identify | src/odoo_sort_manifest_depends/sort_manifest_deps.py:45-66 | The identifier on a cache snapshot: the OCA/other split, the new cache and the names probed, or an abort at the first probe that raises. `IdentifyCache`, `IdentifySplit`, `IdentifyProbes` and `IdentifyFailure` state its properties. |
| OcaIdentifier.IdentifyAllCached | src/odoo_sort_manifest_depends/sort_manifest_deps.py:49-64 | When every name already has a truthy entry, nothing is probed, the cache is unchanged and the split is read from the cache. |
| SortManifestDeps.LocalIndexLookup | src/odoo_sort_manifest_depends/sort_manifest_deps.py:35-42 | The index holds exactly the local addons' names, each with its own manifest category. |
| SortManifestDeps.LocalIndex | src/odoo_sort_manifest_depends/sort_manifest_deps.py:35-42 | The name-to-category index of the local addons. `LocalIndexLookup` states its contents. |
| SortManifestDeps.OtherIsDeclared | src/odoo_sort_manifest_depends/sort_manifest_deps.py:101-106 | Every name sent to the OCA identifier is a declared dependency. |
| SortManifestDeps.SortAddonDepends | src/odoo_sort_manifest_depends/sort_manifest_deps.py:84-135 | One loop iteration's outcome and new cache are those of `SortAddon`: skipped, rewritten with the assembled dictionary and its rendering, or aborted. |
| SortManifestDeps.SortAddon | src/odoo_sort_manifest_depends/sort_manifest_deps.py:84-135 | One iteration of `do_sorting` on a cache snapshot: skipped without dependencies, else rewritten with the assembled dictionary and its rendering, or aborted by a raising probe. `SortAddonFaithful` and its sibling lemmas state its properties. |
| SortManifestDeps.SortAddonRewritten | src/odoo_sort_manifest_depends/sort_manifest_deps.py:84-135 | A rewritten addon has dependencies, and its block is the rendering of the assembled dictionary. |
| SortManifestDeps.SortAddonCache | src/odoo_sort_manifest_depends/sort_manifest_deps.py:125-126 | One addon leaves the cache alone unless it has dependencies and OCA identification is on. It never rewrites a truthy entry or touches names it does not depend on. After an OCA rewrite, all its third-party dependencies are cached. |
| SortManifestDeps.SortAddonAborts | src/odoo_sort_manifest_depends/sort_manifest_deps.py:125-126 | An addon aborts only with OCA identification, and only because some uncached third-party dependency's probe raised. |
| SortManifestDeps.SortAddonSorted | src/odoo_sort_manifest_depends/sort_manifest_deps.py:106-133 | Every list of a rewritten addon is sorted. |
| SortManifestDeps.SortAddonLayout | src/odoo_sort_manifest_depends/sort_manifest_deps.py:84-135 | A rewritten addon keeps every declared dependency exactly once, and its block is never empty. Its categories are the fixed labels followed by ascending local labels, with no label twice. |
| SortManifestDeps.SortAddonFiling | src/odoo_sort_manifest_depends/sort_manifest_deps.py:89-133 | A rewritten addon files its sorted CE and EE dependencies under the Odoo labels. Its other dependencies go under "Third-party" (without OCA), and each local category's sorted dependencies under that category's label. |
| SortManifestDeps.SortAddonOca | src/odoo_sort_manifest_depends/sort_manifest_deps.py:125-133 | With OCA identification, "OCA" and "Third-party" split the other dependencies as a multiset. A name is in "OCA" iff its cached category is now "oca". |
| SortManifestDeps.SortAddonFaithful | src/odoo_sort_manifest_depends/sort_manifest_deps.py:84-135 | An outcome is Skipped iff there are no dependencies, and Aborted only with OCA identification. A rewritten one is sorted, rendered from its categories, partitioned and ordered, with no label twice. |
| SortManifestDeps.SortAddonIdempotent | src/odoo_sort_manifest_depends/sort_manifest_deps.py:84-135 | Sorting a rewritten addon's dependency list again gives the same categories and the same block, and probes and writes nothing. This holds for every project name and for any cache that agrees with the one this pass left on the addon's third-party dependencies. |
| SortManifestDeps.OtherAgain | src/odoo_sort_manifest_depends/sort_manifest_deps.py:89-135 | Every third-party name of the rewritten list is a third-party dependency of the original list, so the second pass finds it cached. |
| SortManifestDeps.DoSorting | src/odoo_sort_manifest_depends/sort_manifest_deps.py:81-135 | The loop over the local addons produces the outcomes and cache of `RunSorting`, stopping at an abort. |
| SortManifestDeps.RunStepsStops | src/odoo_sort_manifest_depends/sort_manifest_deps.py:83 | After an abort, the remaining addons change nothing. |
| SortManifestDeps.RunStepsShape | src/odoo_sort_manifest_depends/sort_manifest_deps.py:83 | A run has at most one outcome per addon. Only the last outcome can be an abort, and a short run was aborted. |
| SortManifestDeps.RunStepsQuiet | src/odoo_sort_manifest_depends/sort_manifest_deps.py:83 | A step that neither aborts nor writes gives every addon an outcome and leaves the cache alone. |
| SortManifestDeps.RunSortingWithoutOca | src/odoo_sort_manifest_depends/sort_manifest_deps.py:83-135 | Without `--oca-category`, every addon gets an outcome, nothing aborts, and the cache is untouched. |
| SortManifestDeps.RunStepsEach | src/odoo_sort_manifest_depends/sort_manifest_deps.py:83 | A property of every possible step outcome holds for every outcome of a run. |
| SortManifestDeps.RunSortingFaithful | src/odoo_sort_manifest_depends/sort_manifest_deps.py:83-135 | Every addon a run reaches keeps the promises of `SortAddonFaithful`. |
| SortManifestDeps.RunStepsCache | src/odoo_sort_manifest_depends/sort_manifest_deps.py:83 | Steps that keep the cache make a run that keeps it. |
| SortManifestDeps.RunSortingCache | src/odoo_sort_manifest_depends/sort_manifest_deps.py:83-126 | A run never rewrites a truthy cache entry, and never touches an entry for a name that no addon depends on. |
| SortManifestDeps.Rewrite | src/odoo_sort_manifest_depends/sort_manifest_deps.py:134-139 | The manifests as a run leaves them: a rewritten addon declares the names of its block in order, and names and categories are unchanged. `RewriteKeepsIndex` and `RunSortingIdempotent` state its properties. |
| SortManifestDeps.RewriteKeepsIndex | src/odoo_sort_manifest_depends/sort_manifest_deps.py:81-139 | Rewriting the manifests keeps the local addon index, so a second run classifies by the same catalog. |
| SortManifestDeps.RunStepsLast | src/odoo_sort_manifest_depends/sort_manifest_deps.py:83-139 | A run that did not abort is the run over all addons but the last, then one step for the last. |
| SortManifestDeps.RewriteLast | src/odoo_sort_manifest_depends/sort_manifest_deps.py:134-139 | Rewriting after one more outcome rewrites the earlier addons as before and the last by that outcome. |
| SortManifestDeps.StepAgain | src/odoo_sort_manifest_depends/sort_manifest_deps.py:83-139 | One addon of a second run whose cache agrees with the first run's on truthy entries repeats its first outcome and writes nothing. The agreement also holds for the cache before that addon, since no truthy entry is rewritten. |
| SortManifestDeps.RunSortingAgain | src/odoo_sort_manifest_depends/sort_manifest_deps.py:83-139 | After a run that no probe aborted, a second run over the rewritten manifests repeats every outcome and writes nothing. This holds from any cache that agrees with the first run's final cache on its truthy entries. |
| SortManifestDeps.RunSortingIdempotent | src/odoo_sort_manifest_depends/sort_manifest_deps.py:83-139 | Running the sorter twice, the second time over the manifests the first run rewrote and with the cache it left, gives the same outcomes and the same cache, provided no probe aborted the first run. |

## Left out

- Directory scanning and manifest parsing (`_get_addons_by_name`,
  `is_addon_dir`, `Addon.from_addon_dir`, lines 35-42) are file-system I/O and
  foreign code. The local index is built from a list of `Addon` values
  (`LocalIndex`). The names of one directory's entries are distinct
  (`DoSorting` requires it).
- `_get_addons_by_name` keeps only installable addons (line 38,
  `allow_not_installable=False`). The model takes the addons it keeps as
  input, so not-installable addons are simply absent from the local index.
  A dependency on a not-installable local addon is therefore not local: it
  is filed under "Odoo Community", "Odoo Enterprise" or "Third-party" like
  any other name. The docstring at line 77 says not-installable addons are
  excluded from the dependencies, but the loop at lines 89-102 drops no
  dependency, and neither does the model.
- Reading and writing the manifest file (lines 108-109, 139) is file I/O. The
  model returns the rendered block in the `Rewritten` outcome instead.
- SortManifestDeps.SortAddonIdempotent and SortManifestDeps.RunSortingIdempotent
  are stated on the category dictionaries, the rendered blocks and the cache,
  not on the manifest files. The second run reads each rewritten manifest's
  `depends` as the names of its block, in order (`Rewrite`), because the
  regex splice below is not modelled.
- SortManifestDeps.RunSortingIdempotent requires that no probe aborted the
  first run. After an abort, the addons the first run did not reach are
  sorted by the second run, so its outcomes can differ.
- The regex splice at lines 137-138 is left out; it depends on Python's
  regex engine. The source's `sub` replaces every match in the file, not
  just the first. A dependency list containing `]` is not matched as
  intended.
- The `manifestoo_core` lookups are parameters:
  - `is_core_ce_addon` and `is_core_ee_addon` are the sets `Catalog.coreCE`
    and `Catalog.coreEE` for the target series;
  - `addon_name_to_distribution_name`, `OdooSeries` and the index URL are
    folded into the `probe` oracle.
- `requests.head` (line 54), with its URL and two-second timeout, is the
  oracle `probe`. Each call is deterministic for a name, and a timeout is a
  `ConnectionError`.
- The `diskcache` store (line 22) and its open/close context manager are the
  `entries` map of `CategoryCache`. Persistence across runs and concurrent
  access are not modelled. Cache values are strings.
- The `click` command line (lines 142-185) is user-interface glue. Only
  `--reset-cache` is modelled, as `CategoryCache.Clear`.
- Categories.CategoryOrder, Categories.FixedLookups, Categories.LocalLookups
  and Categories.CategoriesPartition require that the project name is not
  one of the fixed labels. If it is, `categories.update(...)` overwrites that
  fixed list in place. `ExpectedCategories` computes exactly that, but
  order, filing and partition then fail. A label `project/cat` can never
  collide.
- SortManifestDeps.SortAddonLayout, SortManifestDeps.SortAddonFiling and
  SortManifestDeps.SortAddonOca carry the same proviso on the project name,
  for the same reason. `ExpectedCount` states the partition for every
  project name, and `SortAddonIdempotent` needs no proviso.
  Categories.CollisionLosesDependency shows what goes wrong without it: the
  third-party dependency is overwritten by the local one and disappears.
- OcaIdentifier.IdentifyCache promises a truthy entry for every input name,
  not an entry of exactly `"oca"` or `"other"`. A truthy legacy value already
  in the cache is kept as it is (lines 50-52). Only newly probed names are
  stated to hold `"oca"` or `"other"`.
- SortManifestDeps.SortAddonFiling states the "Third-party" list only
  without OCA identification. With it, SortManifestDeps.SortAddonOca states
  the split.
- Error paths of foreign code are not modelled: an unreadable manifest, or a
  `category` that is not a string.
