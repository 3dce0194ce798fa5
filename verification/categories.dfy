/**
 * How `do_sorting` turns the buckets of one addon into the ordered category
 * dictionary that is written back: local buckets relabelled with the
 * project name, every list sorted, and the categories in the order
 * "Odoo Community", "Odoo Enterprise", optionally "OCA", "Third-party",
 * then the local labels in ascending order.
 */
module Categories {
  import opened Wrappers
  import opened StringOrder
  import opened Sorting
  import opened Dicts
  import opened Classifier
  import opened OcaIdentifier

  const CommunityLabel := "Odoo Community"
  const EnterpriseLabel := "Odoo Enterprise"
  const OcaLabel := "OCA"
  const ThirdPartyLabel := "Third-party"

  /** The labels every rewritten list starts with, in order; "OCA" only when OCA addons are identified. */
  function FixedLabels(withOca: bool): seq<string>
  {
    if withOca then [CommunityLabel, EnterpriseLabel, OcaLabel, ThirdPartyLabel]
    else [CommunityLabel, EnterpriseLabel, ThirdPartyLabel]
  }

  /** The label of a local category: the project name for "Default", `project/category` otherwise. */
  function LocalLabel(project: string, category: string): string
  {
    if category == DefaultCategory then project else project + "/" + category
  }

  /** Distinct categories get distinct labels, so relabelling never merges two buckets. */
  lemma LocalLabelInjective(project: string, c1: string, c2: string)
    requires LocalLabel(project, c1) == LocalLabel(project, c2)
    ensures c1 == c2
  {
    if c1 != DefaultCategory && c2 != DefaultCategory {
      assert c1 == LocalLabel(project, c1)[|project| + 1..];
      assert c2 == LocalLabel(project, c2)[|project| + 1..];
    }
  }

  /**
   * A local label can equal a fixed label only when the project name itself
   * is one: no fixed label contains a "/".
   */
  lemma LocalLabelNotFixed(project: string, category: string, withOca: bool)
    requires project !in FixedLabels(withOca)
    ensures LocalLabel(project, category) !in FixedLabels(withOca)
  {
    if category != DefaultCategory {
      var l := LocalLabel(project, category);
      assert l[|project|] == '/';
      forall f | f in FixedLabels(true) ensures '/' !in f {
      }
    }
  }

  /** `local_categories` after the relabelling loop: one item per local category, in the same order, its list sorted. */
  function Relabelled(custom: Dict<seq<string>>, project: string): Dict<seq<string>>
  {
    seq(|custom|, i requires 0 <= i < |custom| => (LocalLabel(project, custom[i].0), SortNames(custom[i].1)))
  }

  /** Relabelling keeps lookups: the list of a category is found, sorted, under that category's label. */
  lemma {:induction false} RelabelledGet(custom: Dict<seq<string>>, project: string, category: string)
    ensures Get(Relabelled(custom, project), LocalLabel(project, category))
            == match Get(custom, category) case None => None case Some(v) => Some(SortNames(v))
  {
    if custom != [] {
      var r := Relabelled(custom, project);
      assert r[1..] == Relabelled(custom[1..], project);
      RelabelledGet(custom[1..], project, category);
      if r[0].0 == LocalLabel(project, category) {
        LocalLabelInjective(project, custom[0].0, category);
      }
    }
  }

  /** Relabelling keeps every name: the flattened lists hold the same names. */
  lemma {:induction false} RelabelledFlatten(custom: Dict<seq<string>>, project: string)
    ensures multiset(Flatten(Relabelled(custom, project))) == multiset(Flatten(custom))
  {
    if custom != [] {
      var r := Relabelled(custom, project);
      assert r[1..] == Relabelled(custom[1..], project);
      RelabelledFlatten(custom[1..], project);
    }
  }

  /** Distinct categories keep distinct labels. */
  lemma RelabelledUnique(custom: Dict<seq<string>>, project: string)
    requires UniqueKeys(custom)
    ensures UniqueKeys(Relabelled(custom, project))
  {
    var r := Relabelled(custom, project);
    forall i, j | 0 <= i < j < |r| ensures r[i].0 != r[j].0 {
      if r[i].0 == r[j].0 {
        LocalLabelInjective(project, custom[i].0, custom[j].0);
      }
    }
  }

  /** One more category appends one item to the relabelled dictionary. */
  lemma RelabelledStep(custom: Dict<seq<string>>, project: string, i: nat)
    requires i < |custom|
    ensures Relabelled(custom[..i + 1], project)
            == Relabelled(custom[..i], project) + [(LocalLabel(project, custom[i].0), SortNames(custom[i].1))]
  {
  }

  /** The label of a category is not yet taken by the categories before it. */
  lemma RelabelledFresh(custom: Dict<seq<string>>, project: string, i: nat)
    requires UniqueKeys(custom) && i < |custom|
    ensures LocalLabel(project, custom[i].0) !in Keys(Relabelled(custom[..i], project))
  {
    var r := Relabelled(custom[..i], project);
    forall j | 0 <= j < i ensures Keys(r)[j] != LocalLabel(project, custom[i].0) {
      if Keys(r)[j] == LocalLabel(project, custom[i].0) {
        LocalLabelInjective(project, custom[j].0, custom[i].0);
      }
    }
  }

  /**
   * The relabelling loop: `local_categories[label] = sorted(addon_names)`
   * for each category of `custom_by_category`, in its order.
   */
  method RelabelLocalCategories(customByCategory: Dict<seq<string>>, projectName: string)
    returns (localCategories: Dict<seq<string>>)
    requires UniqueKeys(customByCategory)
    ensures localCategories == Relabelled(customByCategory, projectName)
  {
    localCategories := [];
    for i := 0 to |customByCategory|
      invariant localCategories == Relabelled(customByCategory[..i], projectName)
    {
      var (category, addonNames) := customByCategory[i];
      var key := if category == DefaultCategory then projectName else projectName + "/" + category;
      RelabelledFresh(customByCategory, projectName, i);
      RelabelledStep(customByCategory, projectName, i);
      SetNew(localCategories, key, SortNames(addonNames));
      localCategories := Set(localCategories, key, SortNames(addonNames));
    }
    assert customByCategory[..|customByCategory|] == customByCategory;
  }

  /** The key `sorted(local_categories.items())` orders by: the label (labels are distinct, lists are never compared). */
  function ItemLabel(item: (string, seq<string>)): string
  {
    item.0
  }

  /** The local categories of one addon's dependencies, as they are appended to the category dictionary. */
  function LocalItems(deps: seq<string>, catalog: Catalog, project: string): Dict<seq<string>>
  {
    SortBy(Relabelled(CustomByCategory(deps, catalog), project), ItemLabel)
  }

  /** The local labels are distinct, ascending, and each is the label of some category. */
  lemma LocalItemsKeys(deps: seq<string>, catalog: Catalog, project: string)
    ensures UniqueKeys(LocalItems(deps, catalog, project))
    ensures Sorted(Keys(LocalItems(deps, catalog, project)))
    ensures forall k :: k in Keys(LocalItems(deps, catalog, project)) ==> exists c :: k == LocalLabel(project, c)
  {
    var custom := CustomByCategory(deps, catalog);
    var r := Relabelled(custom, project);
    var items := LocalItems(deps, catalog, project);
    LocalBuckets(deps, catalog);
    RelabelledUnique(custom, project);
    SortedItems(r, ItemLabel);
    forall i, j | 0 <= i < j < |items| ensures LessEq(Keys(items)[i], Keys(items)[j]) {
      assert Keys(items)[i] == ItemLabel(items[i]) && Keys(items)[j] == ItemLabel(items[j]);
    }
    forall k | k in Keys(items) ensures exists c :: k == LocalLabel(project, c) {
      var i :| 0 <= i < |r| && Keys(r)[i] == k;
      assert k == LocalLabel(project, custom[i].0);
    }
  }

  /**
   * Each category holding at least one local dependency appears under its
   * label with exactly those dependencies, sorted; an empty one does not
   * appear.
   */
  lemma LocalItemsFiling(deps: seq<string>, catalog: Catalog, project: string, category: string)
    ensures Get(LocalItems(deps, catalog, project), LocalLabel(project, category))
            == if Pick(deps, catalog, Local(category)) == [] then None
               else Some(SortNames(Pick(deps, catalog, Local(category))))
  {
    var custom := CustomByCategory(deps, catalog);
    var r := Relabelled(custom, project);
    LocalBuckets(deps, catalog);
    RelabelledUnique(custom, project);
    SortedItems(r, ItemLabel);
    RelabelledGet(custom, project, category);
  }

  /** Every local list is sorted. */
  lemma LocalItemsSorted(deps: seq<string>, catalog: Catalog, project: string)
    ensures forall i :: 0 <= i < |LocalItems(deps, catalog, project)| ==> Sorted(LocalItems(deps, catalog, project)[i].1)
  {
    var r := Relabelled(CustomByCategory(deps, catalog), project);
    var items := LocalItems(deps, catalog, project);
    forall i | 0 <= i < |items| ensures Sorted(items[i].1) {
      assert items[i] in multiset(r);
      var j :| 0 <= j < |r| && r[j] == items[i];
    }
  }

  /** The local lists together hold exactly the local dependencies. */
  lemma LocalItemsFlatten(deps: seq<string>, catalog: Catalog, project: string)
    ensures multiset(Flatten(LocalItems(deps, catalog, project))) == multiset(Flatten(CustomByCategory(deps, catalog)))
  {
    var custom := CustomByCategory(deps, catalog);
    SortedItemsFlatten(Relabelled(custom, project), ItemLabel);
    RelabelledFlatten(custom, project);
  }

  /**
   * The fixed part of the category dictionary, from the sorted Community,
   * Enterprise and other lists: those three lists, or (when OCA addons are
   * identified, with the cache as it is afterwards) the Community and
   * Enterprise lists, then the OCA and remaining third-party lists split
   * from the other list.
   */
  function FixedOf(ce: seq<string>, ee: seq<string>, other: seq<string>, ocaCache: Option<map<string, string>>)
    : Dict<seq<string>>
  {
    [(CommunityLabel, ce), (EnterpriseLabel, ee)]
    + match ocaCache
      case None => [(ThirdPartyLabel, other)]
      case Some(cache) => [(OcaLabel, Having(other, cache, true)), (ThirdPartyLabel, Having(other, cache, false))]
  }

  /** The fixed part of one addon's category dictionary. */
  function FixedCategories(deps: seq<string>, catalog: Catalog, ocaCache: Option<map<string, string>>): Dict<seq<string>>
  {
    FixedOf(SortNames(Pick(deps, catalog, CoreCE)), SortNames(Pick(deps, catalog, CoreEE)),
            SortNames(Pick(deps, catalog, Other)), ocaCache)
  }

  /** Without OCA identification: `categories["Third-party"] = other` after the two Odoo lists. */
  lemma FixedWithoutOca(ce: seq<string>, ee: seq<string>, other: seq<string>)
    ensures Set([(CommunityLabel, ce), (EnterpriseLabel, ee)], ThirdPartyLabel, other) == FixedOf(ce, ee, other, None)
  {
    SetNew([(CommunityLabel, ce), (EnterpriseLabel, ee)], ThirdPartyLabel, other);
  }

  /** With OCA identification: `categories["OCA"] = oca`, then `categories["Third-party"] = other`. */
  lemma FixedWithOca(ce: seq<string>, ee: seq<string>, other: seq<string>, cache: map<string, string>)
    ensures Set(Set([(CommunityLabel, ce), (EnterpriseLabel, ee)], OcaLabel, Having(other, cache, true)),
                ThirdPartyLabel, Having(other, cache, false))
            == FixedOf(ce, ee, other, Some(cache))
  {
    var head := [(CommunityLabel, ce), (EnterpriseLabel, ee)];
    SetNew(head, OcaLabel, Having(other, cache, true));
    var withOca := head + [(OcaLabel, Having(other, cache, true))];
    assert Keys(withOca) == [CommunityLabel, EnterpriseLabel, OcaLabel];
    SetNew(withOca, ThirdPartyLabel, Having(other, cache, false));
  }

  /** The category dictionary `do_sorting` renders for one addon: `categories.update(local_categories)`. */
  function ExpectedCategories(deps: seq<string>, catalog: Catalog, project: string, ocaCache: Option<map<string, string>>)
    : Dict<seq<string>>
  {
    Update(FixedCategories(deps, catalog, ocaCache), LocalItems(deps, catalog, project))
  }

  /** The fixed part carries exactly the fixed labels, in their order. */
  lemma FixedKeys(ce: seq<string>, ee: seq<string>, other: seq<string>, ocaCache: Option<map<string, string>>)
    ensures Keys(FixedOf(ce, ee, other, ocaCache)) == FixedLabels(ocaCache.Some?)
  {
  }

  /** The fixed labels are distinct. */
  lemma FixedUnique(ce: seq<string>, ee: seq<string>, other: seq<string>, ocaCache: Option<map<string, string>>)
    ensures UniqueKeys(FixedOf(ce, ee, other, ocaCache))
  {
    assert |CommunityLabel| == 14 && |EnterpriseLabel| == 15 && |OcaLabel| == 3 && |ThirdPartyLabel| == 11;
  }

  /** Flattening a dictionary of one list. */
  lemma FlattenOne(k: string, v: seq<string>)
    ensures Flatten([(k, v)]) == v
  {
    assert Flatten([(k, v)]) == v + Flatten([]);
  }

  /** The fixed lists are sorted when the three lists they come from are. */
  lemma FixedSorted(ce: seq<string>, ee: seq<string>, other: seq<string>, ocaCache: Option<map<string, string>>)
    requires Sorted(ce) && Sorted(ee) && Sorted(other)
    ensures ValuesSorted(FixedOf(ce, ee, other, ocaCache))
  {
    if ocaCache.Some? {
      HavingSorted(other, ocaCache.value, true);
      HavingSorted(other, ocaCache.value, false);
    }
  }

  /** Together the fixed lists hold exactly the names of the three lists they come from. */
  lemma FixedFlatten(ce: seq<string>, ee: seq<string>, other: seq<string>, ocaCache: Option<map<string, string>>)
    ensures multiset(Flatten(FixedOf(ce, ee, other, ocaCache))) == multiset(ce) + multiset(ee) + multiset(other)
  {
    var head := [(CommunityLabel, ce)] + [(EnterpriseLabel, ee)];
    FlattenAppend([(CommunityLabel, ce)], [(EnterpriseLabel, ee)]);
    FlattenOne(CommunityLabel, ce);
    FlattenOne(EnterpriseLabel, ee);
    var tail := FixedOf(ce, ee, other, ocaCache)[2..];
    assert FixedOf(ce, ee, other, ocaCache) == head + tail;
    FlattenAppend(head, tail);
    match ocaCache
    case None =>
      FlattenOne(ThirdPartyLabel, other);
    case Some(cache) =>
      var oca, rest := Having(other, cache, true), Having(other, cache, false);
      assert tail == [(OcaLabel, oca)] + [(ThirdPartyLabel, rest)];
      FlattenAppend([(OcaLabel, oca)], [(ThirdPartyLabel, rest)]);
      FlattenOne(OcaLabel, oca);
      FlattenOne(ThirdPartyLabel, rest);
      PartitionIsPermutation(other, cache);
  }

  /** No local label is a fixed label, unless the project name is one. */
  lemma LocalItemsNotFixed(deps: seq<string>, catalog: Catalog, project: string, withOca: bool)
    requires project !in FixedLabels(withOca)
    ensures forall k :: k in Keys(LocalItems(deps, catalog, project)) ==> k !in FixedLabels(withOca)
  {
    LocalItemsKeys(deps, catalog, project);
    forall k | k in Keys(LocalItems(deps, catalog, project)) ensures k !in FixedLabels(withOca) {
      var c :| k == LocalLabel(project, c);
      LocalLabelNotFixed(project, c, withOca);
    }
  }

  /**
   * Category order: unless the project name is itself a fixed label, the
   * dictionary is the fixed categories ("Odoo Community", "Odoo Enterprise",
   * "OCA" when requested, "Third-party") followed by the local categories in
   * ascending label order, no label twice.
   */
  lemma CategoryOrder(deps: seq<string>, catalog: Catalog, project: string, ocaCache: Option<map<string, string>>)
    requires project !in FixedLabels(ocaCache.Some?)
    ensures ExpectedCategories(deps, catalog, project, ocaCache)
            == FixedCategories(deps, catalog, ocaCache) + LocalItems(deps, catalog, project)
    ensures Keys(ExpectedCategories(deps, catalog, project, ocaCache))
            == FixedLabels(ocaCache.Some?) + Keys(LocalItems(deps, catalog, project))
    ensures Sorted(Keys(LocalItems(deps, catalog, project)))
    ensures UniqueKeys(ExpectedCategories(deps, catalog, project, ocaCache))
  {
    var fixed := FixedCategories(deps, catalog, ocaCache);
    var items := LocalItems(deps, catalog, project);
    FixedKeys(SortNames(Pick(deps, catalog, CoreCE)), SortNames(Pick(deps, catalog, CoreEE)),
              SortNames(Pick(deps, catalog, Other)), ocaCache);
    LocalItemsKeys(deps, catalog, project);
    LocalItemsNotFixed(deps, catalog, project, ocaCache.Some?);
    UpdateDisjoint(fixed, items);
    KeysAppend(fixed, items);
    FixedUnique(SortNames(Pick(deps, catalog, CoreCE)), SortNames(Pick(deps, catalog, CoreEE)),
                SortNames(Pick(deps, catalog, Other)), ocaCache);
    UniqueKeysAppend(fixed, items);
  }

  /** The fixed part, looked up label by label. */
  lemma FixedGet(ce: seq<string>, ee: seq<string>, other: seq<string>, ocaCache: Option<map<string, string>>)
    ensures var f := FixedOf(ce, ee, other, ocaCache);
      Get(f, CommunityLabel) == Some(ce) && Get(f, EnterpriseLabel) == Some(ee)
    ensures var f := FixedOf(ce, ee, other, ocaCache);
      match ocaCache
      case None => Get(f, OcaLabel) == None && Get(f, ThirdPartyLabel) == Some(other)
      case Some(cache) =>
        Get(f, OcaLabel) == Some(Having(other, cache, true)) && Get(f, ThirdPartyLabel) == Some(Having(other, cache, false))
  {
    var f := FixedOf(ce, ee, other, ocaCache);
    var tail := f[2..];
    assert f[0].0 == CommunityLabel && f[1..][0].0 == EnterpriseLabel;
    assert f[1..][1..] == tail;
    assert Get(f, EnterpriseLabel) == Get(f[1..], EnterpriseLabel);
    assert Get(f, OcaLabel) == Get(f[1..], OcaLabel) == Get(tail, OcaLabel);
    assert Get(f, ThirdPartyLabel) == Get(f[1..], ThirdPartyLabel) == Get(tail, ThirdPartyLabel);
    match ocaCache
    case None =>
      assert tail == [(ThirdPartyLabel, other)];
      assert Get(tail, OcaLabel) == Get(tail[1..], OcaLabel);
    case Some(cache) =>
      assert tail == [(OcaLabel, Having(other, cache, true)), (ThirdPartyLabel, Having(other, cache, false))];
      assert Get(tail, ThirdPartyLabel) == Get(tail[1..], ThirdPartyLabel);
  }

  /**
   * Unless the project name is itself a fixed label, the local categories
   * overwrite nothing: the Odoo, OCA and third-party lists are found under
   * their labels as assembled.
   */
  lemma FixedLookups(deps: seq<string>, catalog: Catalog, project: string, ocaCache: Option<map<string, string>>)
    requires project !in FixedLabels(ocaCache.Some?)
    ensures var e := ExpectedCategories(deps, catalog, project, ocaCache);
      Get(e, CommunityLabel) == Some(SortNames(Pick(deps, catalog, CoreCE)))
      && Get(e, EnterpriseLabel) == Some(SortNames(Pick(deps, catalog, CoreEE)))
    ensures var e := ExpectedCategories(deps, catalog, project, ocaCache);
      var other := SortNames(Pick(deps, catalog, Other));
      match ocaCache
      case None => Get(e, ThirdPartyLabel) == Some(other)
      case Some(cache) =>
        Get(e, OcaLabel) == Some(Having(other, cache, true)) && Get(e, ThirdPartyLabel) == Some(Having(other, cache, false))
  {
    var ce := SortNames(Pick(deps, catalog, CoreCE));
    var ee := SortNames(Pick(deps, catalog, CoreEE));
    var other := SortNames(Pick(deps, catalog, Other));
    var fixed := FixedCategories(deps, catalog, ocaCache);
    var items := LocalItems(deps, catalog, project);
    CategoryOrder(deps, catalog, project, ocaCache);
    FixedKeys(ce, ee, other, ocaCache);
    FixedGet(ce, ee, other, ocaCache);
    GetPrefix(fixed, items, CommunityLabel);
    GetPrefix(fixed, items, EnterpriseLabel);
    GetPrefix(fixed, items, ThirdPartyLabel);
    if ocaCache.Some? {
      GetPrefix(fixed, items, OcaLabel);
    }
  }

  /**
   * Unless the project name is itself a fixed label, each category holding
   * local dependencies is found under its own label with them sorted, and
   * no other local label is present.
   */
  lemma LocalLookups(deps: seq<string>, catalog: Catalog, project: string, ocaCache: Option<map<string, string>>)
    requires project !in FixedLabels(ocaCache.Some?)
    ensures forall c :: Get(ExpectedCategories(deps, catalog, project, ocaCache), LocalLabel(project, c))
                        == if Pick(deps, catalog, Local(c)) == [] then None else Some(SortNames(Pick(deps, catalog, Local(c))))
  {
    var fixed := FixedCategories(deps, catalog, ocaCache);
    var items := LocalItems(deps, catalog, project);
    CategoryOrder(deps, catalog, project, ocaCache);
    FixedKeys(SortNames(Pick(deps, catalog, CoreCE)), SortNames(Pick(deps, catalog, CoreEE)),
              SortNames(Pick(deps, catalog, Other)), ocaCache);
    forall c ensures Get(fixed + items, LocalLabel(project, c))
                     == if Pick(deps, catalog, Local(c)) == [] then None else Some(SortNames(Pick(deps, catalog, Local(c))))
    {
      LocalLabelNotFixed(project, c, ocaCache.Some?);
      GetAppend(fixed, items, LocalLabel(project, c));
      LocalItemsFiling(deps, catalog, project, c);
    }
  }

  /** Every list of a dictionary is in ascending order. */
  ghost predicate ValuesSorted(d: Dict<seq<string>>)
  {
    forall i :: 0 <= i < |d| ==> Sorted(d[i].1)
  }

  /** Assigning a sorted list keeps every list sorted. */
  lemma {:induction false} SetValuesSorted(d: Dict<seq<string>>, k: string, v: seq<string>)
    requires ValuesSorted(d) && Sorted(v)
    ensures ValuesSorted(Set(d, k, v))
  {
    var r := Set(d, k, v);
    if d == [] {
      assert r == [(k, v)];
    } else if d[0].0 == k {
      assert r == [(k, v)] + d[1..];
      forall i | 0 <= i < |r| ensures Sorted(r[i].1) {
        if i > 0 {
          assert r[i] == d[i];
        }
      }
    } else {
      var rest := Set(d[1..], k, v);
      SetValuesSorted(d[1..], k, v);
      assert r == [d[0]] + rest;
      forall i | 0 <= i < |r| ensures Sorted(r[i].1) {
        if i > 0 {
          assert r[i] == rest[i - 1];
        }
      }
    }
  }

  /** Updating with sorted lists keeps every list sorted. */
  lemma {:induction false} UpdateValuesSorted(d: Dict<seq<string>>, e: Dict<seq<string>>)
    requires ValuesSorted(d) && ValuesSorted(e)
    ensures ValuesSorted(Update(d, e))
    decreases |e|
  {
    if e != [] {
      SetValuesSorted(d, e[0].0, e[0].1);
      forall i | 0 <= i < |e[1..]| ensures Sorted(e[1..][i].1) {
        assert e[1..][i] == e[i + 1];
      }
      UpdateValuesSorted(Set(d, e[0].0, e[0].1), e[1..]);
    }
  }

  /**
   * Every emitted list is sorted ascending: Community, Enterprise, OCA,
   * third-party and each local category, whatever the labels.
   */
  lemma CategoriesSorted(deps: seq<string>, catalog: Catalog, project: string, ocaCache: Option<map<string, string>>)
    ensures ValuesSorted(ExpectedCategories(deps, catalog, project, ocaCache))
  {
    FixedSorted(SortNames(Pick(deps, catalog, CoreCE)), SortNames(Pick(deps, catalog, CoreEE)),
                SortNames(Pick(deps, catalog, Other)), ocaCache);
    LocalItemsSorted(deps, catalog, project);
    UpdateValuesSorted(FixedCategories(deps, catalog, ocaCache), LocalItems(deps, catalog, project));
  }

  /**
   * Nothing lost, nothing duplicated: unless the project name is itself a
   * fixed label, the emitted lists together hold exactly the declared
   * dependencies.
   */
  lemma CategoriesPartition(deps: seq<string>, catalog: Catalog, project: string, ocaCache: Option<map<string, string>>)
    requires project !in FixedLabels(ocaCache.Some?)
    ensures multiset(Flatten(ExpectedCategories(deps, catalog, project, ocaCache))) == multiset(deps)
  {
    CategoryOrder(deps, catalog, project, ocaCache);
    FlattenAppend(FixedCategories(deps, catalog, ocaCache), LocalItems(deps, catalog, project));
    FixedFlatten(SortNames(Pick(deps, catalog, CoreCE)), SortNames(Pick(deps, catalog, CoreEE)),
                 SortNames(Pick(deps, catalog, Other)), ocaCache);
    LocalItemsFlatten(deps, catalog, project);
    BucketsPartition(deps, catalog);
  }

  /**
   * The local categories depend only on how often the local dependencies
   * are declared, not on their order nor on the other dependencies:
   * relabelling and sorting by label make the order in which categories are
   * first used irrelevant.
   */
  lemma LocalItemsAgree(x: seq<string>, y: seq<string>, catalog: Catalog, project: string)
    requires forall d :: Classify(d, catalog).Local? ==> multiset(x)[d] == multiset(y)[d]
    ensures LocalItems(x, catalog, project) == LocalItems(y, catalog, project)
  {
    var a, b := LocalItems(x, catalog, project), LocalItems(y, catalog, project);
    LocalItemsKeys(x, catalog, project);
    LocalItemsKeys(y, catalog, project);
    forall k ensures Get(a, k) == Get(b, k) {
      if exists c :: k == LocalLabel(project, c) {
        var c :| k == LocalLabel(project, c);
        LocalItemsFiling(x, catalog, project, c);
        LocalItemsFiling(y, catalog, project, c);
        PickAgree(x, y, catalog, Local(c));
        assert |Pick(x, catalog, Local(c))| == |multiset(Pick(x, catalog, Local(c)))|;
        assert |Pick(y, catalog, Local(c))| == |multiset(Pick(y, catalog, Local(c)))|;
      }
    }
    SameLookupsEqual(a, b);
  }

  /** The local categories depend only on which dependencies are declared how often. */
  lemma LocalItemsPermutation(x: seq<string>, y: seq<string>, catalog: Catalog, project: string)
    requires multiset(x) == multiset(y)
    ensures LocalItems(x, catalog, project) == LocalItems(y, catalog, project)
  {
    LocalItemsAgree(x, y, catalog, project);
  }

  /**
   * The category dictionary reads the cache only for the third-party
   * dependencies: two caches that agree on those give the same dictionary.
   */
  lemma ExpectedCategoriesCacheAgree(deps: seq<string>, catalog: Catalog, project: string,
                                     c1: map<string, string>, c2: map<string, string>)
    requires forall k :: k in Pick(deps, catalog, Other) ==> (k in c1 <==> k in c2) && (k in c1 ==> c1[k] == c2[k])
    ensures ExpectedCategories(deps, catalog, project, Some(c1)) == ExpectedCategories(deps, catalog, project, Some(c2))
  {
    var other := SortNames(Pick(deps, catalog, Other));
    SortNamesMembers(Pick(deps, catalog, Other));
    PartitionDependsOnNamesOnly(other, c1, c2);
    assert Having(other, c1, true) == Having(other, c2, true) && Having(other, c1, false) == Having(other, c2, false);
  }

  /** The category dictionary depends only on which dependencies are declared how often. */
  lemma ExpectedCategoriesPermutation(x: seq<string>, y: seq<string>, catalog: Catalog, project: string,
                                      ocaCache: Option<map<string, string>>)
    requires multiset(x) == multiset(y)
    ensures ExpectedCategories(x, catalog, project, ocaCache) == ExpectedCategories(y, catalog, project, ocaCache)
  {
    PickPermutation(x, y, catalog, CoreCE);
    PickPermutation(x, y, catalog, CoreEE);
    PickPermutation(x, y, catalog, Other);
    LocalItemsPermutation(x, y, catalog, project);
  }

  /**
   * The fixed list under `heading` takes the name `d`: Community and
   * Enterprise addons go under the Odoo labels; other names go under
   * "Third-party", or with OCA identification under "OCA" or "Third-party"
   * by their cached category.
   */
  ghost predicate FiledUnder(d: string, heading: string, catalog: Catalog, ocaCache: Option<map<string, string>>)
  {
    || (heading == CommunityLabel && Classify(d, catalog) == CoreCE)
    || (heading == EnterpriseLabel && Classify(d, catalog) == CoreEE)
    || (heading == OcaLabel && ocaCache.Some? && Classify(d, catalog) == Other
        && d in ocaCache.value && ocaCache.value[d] == OcaTag)
    || (heading == ThirdPartyLabel && Classify(d, catalog) == Other
        && (ocaCache.None? || !(d in ocaCache.value && ocaCache.value[d] == OcaTag)))
  }

  /** The fixed labels are distinct strings. */
  lemma FixedLabelsDistinct()
    ensures CommunityLabel != EnterpriseLabel && CommunityLabel != OcaLabel && CommunityLabel != ThirdPartyLabel
    ensures EnterpriseLabel != OcaLabel && EnterpriseLabel != ThirdPartyLabel && OcaLabel != ThirdPartyLabel
  {
    assert |CommunityLabel| == 14 && |EnterpriseLabel| == 15 && |OcaLabel| == 3 && |ThirdPartyLabel| == 11;
  }

  /** A name goes under at most one fixed label. */
  lemma FiledUnderUnique(d: string, l1: string, l2: string, catalog: Catalog, ocaCache: Option<map<string, string>>)
    requires FiledUnder(d, l1, catalog, ocaCache) && FiledUnder(d, l2, catalog, ocaCache)
    ensures l1 == l2
  {
    FixedLabelsDistinct();
  }

  /** A local label of a category other than "Default" contains a "/", so it is never a fixed label. */
  lemma SlashLabelNotFixed(project: string, category: string)
    requires category != DefaultCategory
    ensures LocalLabel(project, category) !in FixedLabels(true)
    ensures LocalLabel(project, category) !in FixedLabels(false)
  {
    var l := LocalLabel(project, category);
    assert l[|project|] == '/';
    forall f | f in FixedLabels(true) ensures '/' !in f {
    }
  }

  /**
   * The fixed lists, label by label: exactly the fixed labels hold a list,
   * and each such list is sorted.
   */
  lemma FixedListShape(deps: seq<string>, catalog: Catalog, ocaCache: Option<map<string, string>>, heading: string)
    ensures Get(FixedCategories(deps, catalog, ocaCache), heading).Some? <==> heading in FixedLabels(ocaCache.Some?)
    ensures var v := Get(FixedCategories(deps, catalog, ocaCache), heading);
      v.Some? ==> Sorted(v.value)
  {
    var ce := SortNames(Pick(deps, catalog, CoreCE));
    var ee := SortNames(Pick(deps, catalog, CoreEE));
    var other := SortNames(Pick(deps, catalog, Other));
    var v := Get(FixedCategories(deps, catalog, ocaCache), heading);
    FixedKeys(ce, ee, other, ocaCache);
    FixedGet(ce, ee, other, ocaCache);
    FixedLabelsDistinct();
    if heading == CommunityLabel {
      assert v == Some(ce);
    } else if heading == EnterpriseLabel {
      assert v == Some(ee);
    } else if heading == OcaLabel || heading == ThirdPartyLabel {
      match ocaCache
      case None =>
        assert heading == ThirdPartyLabel ==> v == Some(other);
      case Some(cache) =>
        assert v == Some(Having(other, cache, heading == OcaLabel));
        HavingSorted(other, cache, heading == OcaLabel);
    } else {
      assert heading !in FixedLabels(ocaCache.Some?);
    }
  }

  /**
   * The fixed lists, name by name: the list under a label holds each name
   * filed under that label as often as it is declared, and nothing else;
   * a label that is not fixed holds nothing.
   */
  lemma FixedListCount(deps: seq<string>, catalog: Catalog, ocaCache: Option<map<string, string>>, heading: string, d: string)
    ensures multiset(Get(FixedCategories(deps, catalog, ocaCache), heading).GetOr([]))[d]
            == if FiledUnder(d, heading, catalog, ocaCache) then multiset(deps)[d] else 0
  {
    var ce := SortNames(Pick(deps, catalog, CoreCE));
    var ee := SortNames(Pick(deps, catalog, CoreEE));
    var other := SortNames(Pick(deps, catalog, Other));
    var v := Get(FixedCategories(deps, catalog, ocaCache), heading);
    FixedKeys(ce, ee, other, ocaCache);
    FixedGet(ce, ee, other, ocaCache);
    FixedLabelsDistinct();
    if heading == CommunityLabel {
      assert v == Some(ce);
      PickCount(deps, catalog, CoreCE, d);
    } else if heading == EnterpriseLabel {
      assert v == Some(ee);
      PickCount(deps, catalog, CoreEE, d);
    } else if heading == OcaLabel || heading == ThirdPartyLabel {
      PickCount(deps, catalog, Other, d);
      match ocaCache
      case None =>
        assert heading == ThirdPartyLabel ==> v == Some(other);
      case Some(cache) =>
        var oca := heading == OcaLabel;
        assert v == Some(Having(other, cache, oca));
        HavingCount(other, cache, oca, d);
    } else {
      assert v == None && !FiledUnder(d, heading, catalog, ocaCache);
    }
  }

  /**
   * What the assembled dictionary holds, name by name: every declared
   * dependency as often as it is declared, except that when the project
   * name is a fixed label and a local category "Default" takes it over,
   * the names filed under that fixed label are gone.
   */
  lemma ExpectedCount(deps: seq<string>, catalog: Catalog, project: string, ocaCache: Option<map<string, string>>, d: string)
    ensures multiset(Flatten(ExpectedCategories(deps, catalog, project, ocaCache)))[d]
            == if project in Keys(LocalItems(deps, catalog, project)) && FiledUnder(d, project, catalog, ocaCache) then 0
               else multiset(deps)[d]
  {
    ExpectedPartition(deps, catalog, project, ocaCache);
    FixedListCount(deps, catalog, ocaCache, project, d);
  }

  /**
   * The assembled lists hold the declared dependencies, less the fixed
   * list the local "Default" category overwrites when the project name is
   * a fixed label.
   */
  lemma ExpectedPartition(deps: seq<string>, catalog: Catalog, project: string, ocaCache: Option<map<string, string>>)
    ensures var fixed := FixedCategories(deps, catalog, ocaCache);
      multiset(Flatten(ExpectedCategories(deps, catalog, project, ocaCache)))
      + (if project in Keys(LocalItems(deps, catalog, project)) then multiset(Get(fixed, project).GetOr([])) else multiset{})
      == multiset(deps)
  {
    var fixed := FixedCategories(deps, catalog, ocaCache);
    var items := LocalItems(deps, catalog, project);
    LocalItemsKeys(deps, catalog, project);
    LocalKeysNotFixed(deps, catalog, project, ocaCache);
    UpdateFlatten(fixed, items, project);
    FixedLocalPartition(deps, catalog, project, ocaCache);
  }

  /** Only the local "Default" category can take a fixed label. */
  lemma LocalKeysNotFixed(deps: seq<string>, catalog: Catalog, project: string, ocaCache: Option<map<string, string>>)
    ensures forall k :: k in Keys(LocalItems(deps, catalog, project)) && k != project
                        ==> k !in Keys(FixedCategories(deps, catalog, ocaCache))
  {
    FixedKeys(SortNames(Pick(deps, catalog, CoreCE)), SortNames(Pick(deps, catalog, CoreEE)),
              SortNames(Pick(deps, catalog, Other)), ocaCache);
    LocalItemsKeys(deps, catalog, project);
    forall k | k in Keys(LocalItems(deps, catalog, project)) && k != project
      ensures k !in FixedLabels(ocaCache.Some?)
    {
      var c :| k == LocalLabel(project, c);
      SlashLabelNotFixed(project, c);
    }
  }

  /** The fixed lists and the local lists together hold the declared dependencies. */
  lemma FixedLocalPartition(deps: seq<string>, catalog: Catalog, project: string, ocaCache: Option<map<string, string>>)
    ensures multiset(Flatten(FixedCategories(deps, catalog, ocaCache)))
            + multiset(Flatten(LocalItems(deps, catalog, project))) == multiset(deps)
  {
    FixedFlatten(SortNames(Pick(deps, catalog, CoreCE)), SortNames(Pick(deps, catalog, CoreEE)),
                 SortNames(Pick(deps, catalog, Other)), ocaCache);
    LocalItemsFlatten(deps, catalog, project);
    BucketsPartition(deps, catalog);
  }

  /** Assembling a non-empty dependency list never gives an empty list. */
  lemma ExpectedNonEmpty(deps: seq<string>, catalog: Catalog, project: string, ocaCache: Option<map<string, string>>)
    requires deps != []
    ensures Flatten(ExpectedCategories(deps, catalog, project, ocaCache)) != []
  {
    ExpectedCount(deps, catalog, project, ocaCache, deps[0]);
    assert deps[0] in multiset(deps);
    if project in Keys(LocalItems(deps, catalog, project)) {
      DefaultSurvives(deps, catalog, project, ocaCache);
    }
  }

  /**
   * When the local "Default" category takes a label, its names are in the
   * assembled lists.
   */
  lemma DefaultSurvives(deps: seq<string>, catalog: Catalog, project: string, ocaCache: Option<map<string, string>>)
    requires project in Keys(LocalItems(deps, catalog, project))
    ensures Flatten(ExpectedCategories(deps, catalog, project, ocaCache)) != []
  {
    LocalItemsFiling(deps, catalog, project, DefaultCategory);
    var defaults := Pick(deps, catalog, Local(DefaultCategory));
    assert defaults != [];
    var d := defaults[0];
    assert d in multiset(defaults);
    PickCount(deps, catalog, Local(DefaultCategory), d);
    assert !FiledUnder(d, project, catalog, ocaCache);
    ExpectedCount(deps, catalog, project, ocaCache, d);
    assert d in multiset(Flatten(ExpectedCategories(deps, catalog, project, ocaCache)));
  }

  /**
   * A fixed label the local categories do not take over holds the same
   * list in the dictionary assembled again from the assembled list.
   */
  lemma FixedAgain(deps: seq<string>, catalog: Catalog, project: string, ocaCache: Option<map<string, string>>, heading: string)
    requires heading !in Keys(LocalItems(deps, catalog, project))
    ensures var again := Flatten(ExpectedCategories(deps, catalog, project, ocaCache));
      Get(FixedCategories(again, catalog, ocaCache), heading) == Get(FixedCategories(deps, catalog, ocaCache), heading)
  {
    var again := Flatten(ExpectedCategories(deps, catalog, project, ocaCache));
    var v, w := Get(FixedCategories(again, catalog, ocaCache), heading), Get(FixedCategories(deps, catalog, ocaCache), heading);
    FixedListShape(again, catalog, ocaCache, heading);
    FixedListShape(deps, catalog, ocaCache, heading);
    if v.Some? {
      forall d ensures multiset(v.value)[d] == multiset(w.value)[d] {
        SameFixedCount(deps, catalog, project, ocaCache, heading, d);
      }
      assert multiset(v.value) == multiset(w.value);
      SortedPermutationsEqual(v.value, w.value);
    }
  }

  /** The count behind `FixedAgain`, one name at a time. */
  lemma SameFixedCount(deps: seq<string>, catalog: Catalog, project: string, ocaCache: Option<map<string, string>>, heading: string, d: string)
    requires heading !in Keys(LocalItems(deps, catalog, project))
    ensures var again := Flatten(ExpectedCategories(deps, catalog, project, ocaCache));
      multiset(Get(FixedCategories(again, catalog, ocaCache), heading).GetOr([]))[d]
      == multiset(Get(FixedCategories(deps, catalog, ocaCache), heading).GetOr([]))[d]
  {
    var again := Flatten(ExpectedCategories(deps, catalog, project, ocaCache));
    FixedListCount(again, catalog, ocaCache, heading, d);
    FixedListCount(deps, catalog, ocaCache, heading, d);
    ExpectedCount(deps, catalog, project, ocaCache, d);
    if FiledUnder(d, heading, catalog, ocaCache) && FiledUnder(d, project, catalog, ocaCache) {
      FiledUnderUnique(d, heading, project, catalog, ocaCache);
    }
  }

  /**
   * Assembling is idempotent, whatever the project name: the dictionary
   * assembled from the lists of an assembled dictionary is that
   * dictionary. When the project name is a fixed label, the list the local
   * "Default" category overwrote is gone from the assembled lists, so the
   * second assembly finds that fixed list empty and overwrites it again
   * with the same local list.
   */
  lemma ExpectedCategoriesAgain(deps: seq<string>, catalog: Catalog, project: string, ocaCache: Option<map<string, string>>)
    ensures var e := ExpectedCategories(deps, catalog, project, ocaCache);
      ExpectedCategories(Flatten(e), catalog, project, ocaCache) == e
  {
    var again := Flatten(ExpectedCategories(deps, catalog, project, ocaCache));
    var items := LocalItems(deps, catalog, project);
    var fixed, fixed' := FixedCategories(deps, catalog, ocaCache), FixedCategories(again, catalog, ocaCache);
    forall d | Classify(d, catalog).Local? ensures multiset(again)[d] == multiset(deps)[d] {
      ExpectedCount(deps, catalog, project, ocaCache, d);
    }
    LocalItemsAgree(again, deps, catalog, project);
    FixedKeys(SortNames(Pick(deps, catalog, CoreCE)), SortNames(Pick(deps, catalog, CoreEE)),
              SortNames(Pick(deps, catalog, Other)), ocaCache);
    FixedKeys(SortNames(Pick(again, catalog, CoreCE)), SortNames(Pick(again, catalog, CoreEE)),
              SortNames(Pick(again, catalog, Other)), ocaCache);
    FixedUnique(SortNames(Pick(again, catalog, CoreCE)), SortNames(Pick(again, catalog, CoreEE)),
                SortNames(Pick(again, catalog, Other)), ocaCache);
    forall k | k !in Keys(items) ensures Get(fixed', k) == Get(fixed, k) {
      FixedAgain(deps, catalog, project, ocaCache, k);
    }
    UpdateOverwrites(fixed', fixed, items);
  }

  /**
   * The collision example: the project is named "Third-party", "x" is a
   * third-party dependency and "y" a local addon without category.
   */
  ghost predicate CollisionExample(deps: seq<string>, catalog: Catalog, project: string)
  {
    deps == ["x", "y"] && catalog == Catalog(map["y" := None], {}, {}) && project == ThirdPartyLabel
  }

  /** The buckets of a two-name list: each name in its own bucket, in order. */
  lemma PickPair(x: string, y: string, catalog: Catalog, b: Bucket)
    ensures Pick([x, y], catalog, b) == (if Classify(x, catalog) == b then [x] else []) + (if Classify(y, catalog) == b then [y] else [])
  {
    assert [x, y][..1] == [x] && [x][..0] == [];
    assert Pick([x], catalog, b) == (if Classify(x, catalog) == b then [x] else []);
  }

  /** The local buckets of a two-name list whose second name only is local. */
  lemma CustomByCategoryPair(x: string, y: string, catalog: Catalog)
    requires !Classify(x, catalog).Local? && Classify(y, catalog).Local?
    ensures CustomByCategory([x, y], catalog) == [(Classify(y, catalog).category, [y])]
  {
    assert [x, y][..1] == [x] && [x][..0] == [];
    assert CustomByCategory([x], catalog) == [];
    var empty: Dict<seq<string>> := [];
    var category := Classify(y, catalog).category;
    assert Get(empty, category).GetOr([]) + [y] == [y];
    assert Set(empty, category, [y]) == [(category, [y])];
  }

  /** The buckets of the collision example: "x" is a third-party dependency, "y" a local one of the default category. */
  lemma CollisionBuckets(deps: seq<string>, catalog: Catalog, project: string)
    requires CollisionExample(deps, catalog, project)
    ensures Pick(deps, catalog, CoreCE) == [] && Pick(deps, catalog, CoreEE) == []
    ensures Pick(deps, catalog, Other) == ["x"]
    ensures CustomByCategory(deps, catalog) == [(DefaultCategory, ["y"])]
  {
    assert Classify("x", catalog) == Other;
    assert Classify("y", catalog) == Local(DefaultCategory);
    PickPair("x", "y", catalog, CoreCE);
    PickPair("x", "y", catalog, CoreEE);
    PickPair("x", "y", catalog, Other);
    CustomByCategoryPair("x", "y", catalog);
  }

  /** The fixed part of the collision example: "x" alone, under "Third-party". */
  lemma CollisionFixed(deps: seq<string>, catalog: Catalog, project: string)
    requires CollisionExample(deps, catalog, project)
    ensures FixedCategories(deps, catalog, None) == FixedOf([], [], ["x"], None)
  {
    CollisionBuckets(deps, catalog, project);
    SortNamesSingleton("x");
  }

  /** The local part of the collision example: "y" under the project's own label, "Third-party". */
  lemma CollisionLocal(deps: seq<string>, catalog: Catalog, project: string)
    requires CollisionExample(deps, catalog, project)
    ensures LocalItems(deps, catalog, project) == [(ThirdPartyLabel, ["y"])]
  {
    CollisionBuckets(deps, catalog, project);
    SortNamesSingleton("y");
    var relabelled := Relabelled([(DefaultCategory, ["y"])], project);
    assert relabelled == [(ThirdPartyLabel, ["y"])];
    assert SortBy(relabelled, ItemLabel) == relabelled by {
      assert relabelled[1..] == [];
    }
  }

  /** Setting "Third-party" in a fixed part without OCA replaces its list and keeps its place. */
  lemma SetThirdParty(ce: seq<string>, ee: seq<string>, other: seq<string>, v: seq<string>)
    ensures Set(FixedOf(ce, ee, other, None), ThirdPartyLabel, v) == FixedOf(ce, ee, v, None)
  {
    var fixed := FixedOf(ce, ee, other, None);
    assert |CommunityLabel| != |ThirdPartyLabel| && |EnterpriseLabel| != |ThirdPartyLabel|;
    assert fixed[1..][1..] == [(ThirdPartyLabel, other)];
    assert Set(fixed[1..][1..], ThirdPartyLabel, v) == [(ThirdPartyLabel, v)];
    assert Set(fixed[1..], ThirdPartyLabel, v) == [fixed[1], (ThirdPartyLabel, v)];
  }

  /** Merging a single local item labelled "Third-party" replaces the third-party list. */
  lemma MergeThirdParty(ce: seq<string>, ee: seq<string>, other: seq<string>, v: seq<string>)
    ensures Update(FixedOf(ce, ee, other, None), [(ThirdPartyLabel, v)]) == FixedOf(ce, ee, v, None)
  {
    SetThirdParty(ce, ee, other, v);
    var items := [(ThirdPartyLabel, v)];
    assert items[1..] == [];
  }

  /** Flattening a fixed part without OCA lists its three lists in order. */
  lemma FlattenFixed(ce: seq<string>, ee: seq<string>, other: seq<string>)
    ensures Flatten(FixedOf(ce, ee, other, None)) == ce + ee + other
  {
    var e := FixedOf(ce, ee, other, None);
    assert e[1..][1..][1..] == [];
    assert Flatten(e[1..][1..]) == other;
  }

  /** A local part made of one "Third-party" item replaces the third-party list of a fixed part without OCA. */
  lemma MergedThirdParty(deps: seq<string>, catalog: Catalog, project: string, other: seq<string>, local: seq<string>)
    requires FixedCategories(deps, catalog, None) == FixedOf([], [], other, None)
    requires LocalItems(deps, catalog, project) == [(ThirdPartyLabel, local)]
    ensures ExpectedCategories(deps, catalog, project, None) == FixedOf([], [], local, None)
  {
    MergeThirdParty([], [], other, local);
  }

  /**
   * A project named like a fixed label loses dependencies: with the project
   * "Third-party", a local dependency without category takes over the
   * "Third-party" list and the third-party dependency "x" is dropped.
   */
  lemma CollisionLosesDependency(deps: seq<string>, catalog: Catalog, project: string)
    requires CollisionExample(deps, catalog, project)
    ensures Flatten(ExpectedCategories(deps, catalog, project, None)) == ["y"]
    ensures multiset(Flatten(ExpectedCategories(deps, catalog, project, None))) != multiset(deps)
  {
    CollisionFixed(deps, catalog, project);
    CollisionLocal(deps, catalog, project);
    MergedThirdParty(deps, catalog, project, ["x"], ["y"]);
    FlattenFixed([], [], ["y"]);
    assert "x" in multiset(deps);
  }
}
