/**
 * `_generate_depends_sections`: renders the ordered category dictionary as
 * the `"depends": [...]` block written into a manifest. Each non-empty
 * category becomes a `# <label>` comment line followed by one quoted,
 * comma-terminated dependency per line; empty categories are skipped.
 */
module Serializer {
  import opened Dicts

  const Opening := "\"depends\": ["
  const Closing := "\n    ]"
  /** A line break followed by the eight-space indentation of every line inside the list. */
  const Indent := "\n        "

  /** `f'"{dep}"'`. */
  function Quote(dep: string): string
  {
    "\"" + dep + "\""
  }

  /** `sep.join(parts)`. */
  function Join(sep: string, parts: seq<string>): string
  {
    if |parts| == 0 then ""
    else if |parts| == 1 then parts[0]
    else parts[0] + sep + Join(sep, parts[1..])
  }

  /** Each dependency quoted. */
  function Quoted(deps: seq<string>): seq<string>
  {
    seq(|deps|, i requires 0 <= i < |deps| => Quote(deps[i]))
  }

  /** The text one non-empty category adds, as the source builds it with `join`. */
  function Section(category: string, deps: seq<string>): string
  {
    Indent + "# " + category + Indent + Join("," + Indent, Quoted(deps)) + ","
  }

  /** The text the loop accumulates over the categories of `categories`, in iteration order. */
  function Sections(categories: Dict<seq<string>>): string
    decreases |categories|
  {
    if categories == [] then ""
    else
      var n := |categories| - 1;
      Sections(categories[..n]) + (if categories[n].1 != [] then Section(categories[n].0, categories[n].1) else "")
  }

  /** One line per dependency: the quoted name and a comma. */
  function EntryLines(deps: seq<string>): string
  {
    if deps == [] then "" else Indent + Quote(deps[0]) + "," + EntryLines(deps[1..])
  }

  /** A category's block, line by line: the comment with its label, then its entries. */
  function CategoryLines(category: string, deps: seq<string>): string
  {
    Indent + "# " + category + EntryLines(deps)
  }

  /** One category's contribution to the layout: nothing when it is empty. */
  function LayoutOne(item: (string, seq<string>)): string
  {
    if item.1 == [] then "" else CategoryLines(item.0, item.1)
  }

  /** The whole block that replaces the manifest's dependency list. */
  function Rendered(categories: Dict<seq<string>>): string
  {
    Opening + Layout(categories) + Closing
  }

  /** The layout of the list's body: the non-empty categories' blocks in iteration order, nothing for an empty one. */
  function Layout(categories: Dict<seq<string>>): string
  {
    if categories == [] then ""
    else LayoutOne(categories[0]) + Layout(categories[1..])
  }

  /** The `join` with a trailing comma lays out one entry per line. */
  lemma {:induction false} JoinIsEntryLines(deps: seq<string>)
    requires deps != []
    ensures Indent + Join("," + Indent, Quoted(deps)) + "," == EntryLines(deps)
  {
    if |deps| == 1 {
      assert EntryLines(deps[1..]) == "";
    } else {
      assert Quoted(deps)[1..] == Quoted(deps[1..]);
      JoinIsEntryLines(deps[1..]);
      calc {
        Indent + Join("," + Indent, Quoted(deps)) + ",";
        Indent + (Quote(deps[0]) + ("," + Indent) + Join("," + Indent, Quoted(deps[1..]))) + ",";
        (Indent + Quote(deps[0]) + ",") + (Indent + Join("," + Indent, Quoted(deps[1..])) + ",");
        (Indent + Quote(deps[0]) + ",") + EntryLines(deps[1..]);
      }
    }
  }

  /** Laying out a concatenation of dictionaries lays out each in turn: categories keep their order. */
  lemma {:induction false} LayoutAppend(a: Dict<seq<string>>, b: Dict<seq<string>>)
    ensures Layout(a + b) == Layout(a) + Layout(b)
  {
    if a == [] {
      assert a + b == b;
    } else {
      assert (a + b)[0] == a[0];
      assert (a + b)[1..] == a[1..] + b;
      LayoutAppend(a[1..], b);
    }
  }

  /** A section built with `join` is the category's comment line followed by its entry lines. */
  lemma SectionIsCategoryLines(category: string, deps: seq<string>)
    requires deps != []
    ensures Section(category, deps) == CategoryLines(category, deps)
  {
    var joined := Join("," + Indent, Quoted(deps));
    JoinIsEntryLines(deps);
    calc {
      Section(category, deps);
      Indent + "# " + category + Indent + joined + ",";
      (Indent + "# " + category) + (Indent + joined + ",");
      (Indent + "# " + category) + EntryLines(deps);
    }
  }

  /**
   * What the loop accumulates is the line-by-line layout: for each non-empty
   * category in order, its `# <label>` line and one `"dep",` line per
   * dependency.
   */
  lemma {:induction false} SectionsAreLayout(categories: Dict<seq<string>>)
    ensures Sections(categories) == Layout(categories)
    decreases |categories|
  {
    if categories != [] {
      var n := |categories| - 1;
      var prefix, last := categories[..n], categories[n];
      SplitLast(categories);
      SectionsAreLayout(prefix);
      LayoutAppend(prefix, [last]);
      var text := LayoutOne(last);
      assert Layout([last]) == text + Layout([]);
      if last.1 != [] {
        SectionIsCategoryLines(last.0, last.1);
      }
      assert Sections(categories) == Sections(prefix) + text;
    }
  }

  /** The list is empty exactly when every category is empty. */
  lemma EmptyBlock(categories: Dict<seq<string>>)
    ensures Rendered(categories) == Opening + Closing
            <==> forall i :: 0 <= i < |categories| ==> categories[i].1 == []
  {
    LayoutEmpty(categories);
    assert |Rendered(categories)| == |Opening| + |Layout(categories)| + |Closing|;
  }

  /** The body's layout is empty exactly when every category is empty. */
  lemma {:induction false} LayoutEmpty(categories: Dict<seq<string>>)
    ensures Layout(categories) == "" <==> forall i :: 0 <= i < |categories| ==> categories[i].1 == []
    decreases |categories|
  {
    if categories != [] {
      LayoutEmpty(categories[1..]);
      if categories[0].1 != [] {
        assert |CategoryLines(categories[0].0, categories[0].1)| > 0;
      }
      if forall i :: 0 <= i < |categories[1..]| ==> categories[1..][i].1 == [] {
        if categories[0].1 == [] {
          forall i | 0 <= i < |categories| ensures categories[i].1 == [] {
            if i > 0 { assert categories[i] == categories[1..][i - 1]; }
          }
        }
      }
    }
  }

  /**
   * One more category adds its section, or nothing when it is empty, both
   * to the sections and to the text accumulated after the opening.
   */
  lemma SectionsStep(categories: Dict<seq<string>>, i: nat)
    requires i < |categories|
    ensures Sections(categories[..i + 1]) == Sections(categories[..i])
            + (if categories[i].1 != [] then Section(categories[i].0, categories[i].1) else "")
    ensures Opening + Sections(categories[..i + 1]) == Opening + Sections(categories[..i])
            + (if categories[i].1 != [] then Section(categories[i].0, categories[i].1) else "")
  {
    assert categories[..i + 1][..i] == categories[..i];
  }

  /** The source's loop: `new_content +=` one section per non-empty category. */
  method GenerateDependsSections(categories: Dict<seq<string>>) returns (newContent: string)
    ensures newContent == Rendered(categories)
  {
    newContent := Opening;
    for i := 0 to |categories|
      invariant newContent == Opening + Sections(categories[..i])
    {
      var (category, deps) := categories[i];
      SectionsStep(categories, i);
      if deps != [] {
        var section := Indent + "# " + category + Indent + Join("," + Indent, Quoted(deps)) + ",";
        assert section == Section(category, deps);
        newContent := newContent + section;
      }
    }
    assert categories[..|categories|] == categories;
    SectionsAreLayout(categories);
    newContent := newContent + Closing;
  }
}
