/**
 * The per-addon dependency classifier of `do_sorting`: every declared
 * dependency goes to exactly one bucket, tried in this order: a local addon
 * (grouped by that addon's manifest category), a core Community addon, a
 * core Enterprise addon, anything else.
 */
module Classifier {
  import opened Wrappers
  import opened Dicts
  import opened Sorting

  /** The category of a local addon whose manifest declares none, or an empty one. */
  const DefaultCategory := "Default"

  /**
   * What the classifier consults: the local addon index (addon name to the
   * category its manifest declares, if any) and the names that
   * `is_core_ce_addon` and `is_core_ee_addon` accept for the target series.
   */
  datatype Catalog = Catalog(local: map<string, Option<string>>, coreCE: set<string>, coreEE: set<string>)

  datatype Bucket = Local(category: string) | CoreCE | CoreEE | Other

  /** `manifest.category or "Default"`. */
  function CategoryOf(declared: Option<string>): string
  {
    if declared.Some? && declared.value != "" then declared.value else DefaultCategory
  }

  /** The bucket of one dependency, by the precedence of the `if`/`elif` chain. */
  function Classify(dep: string, catalog: Catalog): Bucket
  {
    if dep in catalog.local then Local(CategoryOf(catalog.local[dep]))
    else if dep in catalog.coreCE then CoreCE
    else if dep in catalog.coreEE then CoreEE
    else Other
  }

  /** The dependencies of `deps` that go to bucket `b`, in declaration order. */
  function Pick(deps: seq<string>, catalog: Catalog, b: Bucket): seq<string>
    decreases |deps|
  {
    if deps == [] then []
    else
      var n := |deps| - 1;
      Pick(deps[..n], catalog, b) + (if Classify(deps[n], catalog) == b then [deps[n]] else [])
  }

  /** `custom_by_category` after the loop: local dependencies grouped by category, categories in order of first use. */
  function CustomByCategory(deps: seq<string>, catalog: Catalog): Dict<seq<string>>
    decreases |deps|
  {
    if deps == [] then []
    else
      var n := |deps| - 1;
      var prev := CustomByCategory(deps[..n], catalog);
      match Classify(deps[n], catalog)
      case Local(category) => AppendTo(prev, category, deps[n])
      case _ => prev
  }

  /** A bucket holds every dependency of that bucket as often as it is declared, and nothing else. */
  lemma {:induction false} PickCount(deps: seq<string>, catalog: Catalog, b: Bucket, d: string)
    ensures multiset(Pick(deps, catalog, b))[d] == if Classify(d, catalog) == b then multiset(deps)[d] else 0
    decreases |deps|
  {
    if deps != [] {
      var n := |deps| - 1;
      assert deps == deps[..n] + [deps[n]];
      PickCount(deps[..n], catalog, b, d);
    }
  }

  /**
   * Each name lands in the first bucket whose test it passes, in the order
   * local, Community, Enterprise, other, as often as it is declared, and in
   * no other bucket.
   */
  lemma BucketsPrecedence(deps: seq<string>, catalog: Catalog)
    ensures forall d, c :: multiset(Pick(deps, catalog, Local(c)))[d]
                           == if d in catalog.local && CategoryOf(catalog.local[d]) == c then multiset(deps)[d] else 0
    ensures forall d :: multiset(Pick(deps, catalog, CoreCE))[d]
                        == if d !in catalog.local && d in catalog.coreCE then multiset(deps)[d] else 0
    ensures forall d :: multiset(Pick(deps, catalog, CoreEE))[d]
                        == if d !in catalog.local && d !in catalog.coreCE && d in catalog.coreEE then multiset(deps)[d] else 0
    ensures forall d :: multiset(Pick(deps, catalog, Other))[d]
                        == if d !in catalog.local && d !in catalog.coreCE && d !in catalog.coreEE then multiset(deps)[d] else 0
  {
    forall d, c
      ensures multiset(Pick(deps, catalog, Local(c)))[d]
              == if d in catalog.local && CategoryOf(catalog.local[d]) == c then multiset(deps)[d] else 0
    {
      PickCount(deps, catalog, Local(c), d);
    }
    forall d
      ensures multiset(Pick(deps, catalog, CoreCE))[d]
              == if d !in catalog.local && d in catalog.coreCE then multiset(deps)[d] else 0
      ensures multiset(Pick(deps, catalog, CoreEE))[d]
              == if d !in catalog.local && d !in catalog.coreCE && d in catalog.coreEE then multiset(deps)[d] else 0
      ensures multiset(Pick(deps, catalog, Other))[d]
              == if d !in catalog.local && d !in catalog.coreCE && d !in catalog.coreEE then multiset(deps)[d] else 0
    {
      PickCount(deps, catalog, CoreCE, d);
      PickCount(deps, catalog, CoreEE, d);
      PickCount(deps, catalog, Other, d);
    }
  }

  /**
   * A bucket depends only on how often the names of that bucket are
   * declared: two declared lists that agree on them give the same bucket
   * once sorted, whatever else they hold.
   */
  lemma PickAgree(x: seq<string>, y: seq<string>, catalog: Catalog, b: Bucket)
    requires forall d :: Classify(d, catalog) == b ==> multiset(x)[d] == multiset(y)[d]
    ensures multiset(Pick(x, catalog, b)) == multiset(Pick(y, catalog, b))
    ensures SortNames(Pick(x, catalog, b)) == SortNames(Pick(y, catalog, b))
  {
    var px, py := Pick(x, catalog, b), Pick(y, catalog, b);
    forall d ensures multiset(px)[d] == multiset(py)[d] {
      PickCount(x, catalog, b, d);
      PickCount(y, catalog, b, d);
    }
    assert multiset(px) == multiset(py);
    SortNamesCanonical(px, py);
  }

  /**
   * A bucket depends only on which names are declared how often, not on
   * their order: two declared lists that are permutations of each other
   * give the same bucket once sorted, and both give an empty bucket or
   * neither.
   */
  lemma PickPermutation(x: seq<string>, y: seq<string>, catalog: Catalog, b: Bucket)
    requires multiset(x) == multiset(y)
    ensures multiset(Pick(x, catalog, b)) == multiset(Pick(y, catalog, b))
    ensures Pick(x, catalog, b) == [] <==> Pick(y, catalog, b) == []
    ensures SortNames(Pick(x, catalog, b)) == SortNames(Pick(y, catalog, b))
  {
    PickAgree(x, y, catalog, b);
    assert |Pick(x, catalog, b)| == |multiset(Pick(x, catalog, b))|;
    assert |Pick(y, catalog, b)| == |multiset(Pick(y, catalog, b))|;
  }

  /** The names a step adds to a bucket: the new dependency when it goes there, nothing otherwise. */
  function Added(d: string, hit: bool): multiset<string>
  {
    if hit then multiset{d} else multiset{}
  }

  /** One more dependency adds itself to its own bucket and to no other. */
  lemma BucketStep(deps: seq<string>, catalog: Catalog)
    requires deps != []
    ensures var n := |deps| - 1; var b := Classify(deps[n], catalog);
      && multiset(Pick(deps, catalog, CoreCE)) == multiset(Pick(deps[..n], catalog, CoreCE)) + Added(deps[n], b == CoreCE)
      && multiset(Pick(deps, catalog, CoreEE)) == multiset(Pick(deps[..n], catalog, CoreEE)) + Added(deps[n], b == CoreEE)
      && multiset(Pick(deps, catalog, Other)) == multiset(Pick(deps[..n], catalog, Other)) + Added(deps[n], b == Other)
      && multiset(Flatten(CustomByCategory(deps, catalog)))
         == multiset(Flatten(CustomByCategory(deps[..n], catalog))) + Added(deps[n], b.Local?)
  {
    var n := |deps| - 1;
    var prev := CustomByCategory(deps[..n], catalog);
    match Classify(deps[n], catalog)
    case Local(category) =>
      AppendToFlatten(prev, category, deps[n]);
    case _ =>
  }

  /** Together the four buckets hold exactly the declared list: nothing lost, nothing duplicated. */
  lemma {:induction false} BucketsPartition(deps: seq<string>, catalog: Catalog)
    ensures multiset(Pick(deps, catalog, CoreCE)) + multiset(Pick(deps, catalog, CoreEE))
            + multiset(Pick(deps, catalog, Other)) + multiset(Flatten(CustomByCategory(deps, catalog)))
            == multiset(deps)
    decreases |deps|
  {
    if deps != [] {
      var n := |deps| - 1;
      assert deps == deps[..n] + [deps[n]];
      BucketsPartition(deps[..n], catalog);
      BucketStep(deps, catalog);
    }
  }

  /**
   * The local buckets: a category has a list exactly when some dependency is
   * a local addon of that category, and the list is those dependencies in
   * declaration order; no category appears twice.
   */
  lemma {:induction false} LocalBuckets(deps: seq<string>, catalog: Catalog)
    ensures UniqueKeys(CustomByCategory(deps, catalog))
    ensures forall c :: Get(CustomByCategory(deps, catalog), c)
                        == if Pick(deps, catalog, Local(c)) == [] then None else Some(Pick(deps, catalog, Local(c)))
    decreases |deps|
  {
    if deps != [] {
      var n := |deps| - 1;
      var prev := CustomByCategory(deps[..n], catalog);
      LocalBuckets(deps[..n], catalog);
      match Classify(deps[n], catalog)
      case Local(category) =>
        var v := Get(prev, category).GetOr([]) + [deps[n]];
        assert CustomByCategory(deps, catalog) == Set(prev, category, v);
        SetUnique(prev, category, v);
        forall c
          ensures Get(CustomByCategory(deps, catalog), c)
                  == if Pick(deps, catalog, Local(c)) == [] then None else Some(Pick(deps, catalog, Local(c)))
        {
          SetGet(prev, category, v, c);
          if c == category {
            assert Pick(deps, catalog, Local(c)) == Pick(deps[..n], catalog, Local(c)) + [deps[n]];
          } else {
            assert Pick(deps, catalog, Local(c)) == Pick(deps[..n], catalog, Local(c));
          }
        }
      case _ =>
        forall c ensures Pick(deps, catalog, Local(c)) == Pick(deps[..n], catalog, Local(c)) {
        }
    }
  }

  /** A non-empty dependency list fills at least one bucket, so the assertion after the loop cannot fail. */
  lemma SomeBucketFilled(deps: seq<string>, catalog: Catalog)
    requires deps != []
    ensures CustomByCategory(deps, catalog) != [] || Pick(deps, catalog, CoreCE) != []
      || Pick(deps, catalog, CoreEE) != [] || Pick(deps, catalog, Other) != []
  {
    BucketsPartition(deps, catalog);
    assert deps[0] in multiset(deps);
    if CustomByCategory(deps, catalog) == [] {
      assert Flatten(CustomByCategory(deps, catalog)) == [];
    }
  }

  /**
   * The classification loop: appends each dependency to the Community,
   * Enterprise or other list, or to its category's list in
   * `custom_by_category` (created on first use).
   */
  method ClassifyDependencies(deps: seq<string>, catalog: Catalog)
    returns (odooCE: seq<string>, odooEE: seq<string>, other: seq<string>, customByCategory: Dict<seq<string>>)
    ensures odooCE == Pick(deps, catalog, CoreCE)
    ensures odooEE == Pick(deps, catalog, CoreEE)
    ensures other == Pick(deps, catalog, Other)
    ensures customByCategory == CustomByCategory(deps, catalog)
  {
    odooCE, odooEE, other, customByCategory := [], [], [], [];
    for i := 0 to |deps|
      invariant odooCE == Pick(deps[..i], catalog, CoreCE)
      invariant odooEE == Pick(deps[..i], catalog, CoreEE)
      invariant other == Pick(deps[..i], catalog, Other)
      invariant customByCategory == CustomByCategory(deps[..i], catalog)
    {
      var dep := deps[i];
      assert deps[..i + 1][..i] == deps[..i];
      if dep in catalog.local {
        customByCategory := AppendTo(customByCategory, CategoryOf(catalog.local[dep]), dep);
      } else if dep in catalog.coreCE {
        odooCE := odooCE + [dep];
      } else if dep in catalog.coreEE {
        odooEE := odooEE + [dep];
      } else {
        other := other + [dep];
      }
    }
    assert deps[..|deps|] == deps;
  }
}
