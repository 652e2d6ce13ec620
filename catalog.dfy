/**
 * The catalog page: the search-and-filter query over the catalog and the two
 * sidebar figures (number of resources, total citations).
 */
module Catalog {
  import opened Types
  import opened Text
  import Data

  /** A filter choice: the sentinel `'All'` or one particular value. */
  datatype AllOr<T> = All | Only(value: T)

  /** The three inputs of the catalog page: search box, category and type selectors. */
  datatype Query = Query(searchTerm: string, category: AllOr<Category>, resourceType: AllOr<ResourceType>)

  /** The query the page starts with, and the one "Clear all filters" restores. */
  const InitialQuery := Query("", All, All)

  predicate Selects<T(==)>(choice: AllOr<T>, v: T) {
    choice.All? || choice.value == v
  }

  /** The lower-cased term occurs in the lower-cased title, description or some tag. */
  predicate TextMatches(item: ResearchItem, searchTerm: string) {
    var t := Lower(searchTerm);
    Contains(Lower(item.title), t)
    || Contains(Lower(item.description), t)
    || exists k :: 0 <= k < |item.tags| && Contains(Lower(item.tags[k]), t)
  }

  /**
   * One entry passes the filter: the term matches its text, and each selector is
   * `'All'` or names the entry's own category and type.
   */
  predicate Matches(item: ResearchItem, q: Query)
    ensures q.searchTerm == [] && q.category.All? && q.resourceType.All? ==> Matches(item, q)
    ensures Matches(item, q) && q.category.Only? ==> item.category == q.category.value
    ensures Matches(item, q) && q.resourceType.Only? ==> item.resourceType == q.resourceType.value
  {
    TextMatches(item, q.searchTerm)
    && Selects(q.category, item.category)
    && Selects(q.resourceType, item.resourceType)
  }

  /** `items.filter(item => Matches(item, q))`. */
  function Filter(items: seq<ResearchItem>, q: Query): (r: seq<ResearchItem>)
    ensures |r| <= |items|
    ensures forall k :: 0 <= k < |r| ==> Matches(r[k], q)
    decreases |items|
  {
    if items == [] then []
    else if Matches(items[0], q) then [items[0]] + Filter(items[1..], q)
    else Filter(items[1..], q)
  }

  /** `a` is `b` with some elements left out, the rest kept in their order. */
  predicate IsSubsequence<T(==)>(a: seq<T>, b: seq<T>)
    decreases |b|
  {
    a == [] || (b != [] && ((a[0] == b[0] && IsSubsequence(a[1..], b[1..])) || IsSubsequence(a, b[1..])))
  }

  // ---------------------------------------------------------------- the filter

  /** The result keeps the catalog's order: nothing is moved. */
  lemma {:induction false} FilterIsSubsequence(items: seq<ResearchItem>, q: Query)
    ensures IsSubsequence(Filter(items, q), items)
    decreases |items|
  {
    if items != [] {
      FilterIsSubsequence(items[1..], q);
      if Matches(items[0], q) {
        assert ([items[0]] + Filter(items[1..], q))[1..] == Filter(items[1..], q);
      }
    }
  }

  /** A matching entry occurs in the result as often as in the catalog; any other, never. */
  lemma {:induction false} FilterMultiplicity(items: seq<ResearchItem>, q: Query, x: ResearchItem)
    ensures multiset(Filter(items, q))[x] == if Matches(x, q) then multiset(items)[x] else 0
    decreases |items|
  {
    if items != [] {
      FilterMultiplicity(items[1..], q, x);
      assert items == [items[0]] + items[1..];
    }
  }

  /** An entry is shown exactly when it is in the catalog and matches all three filters. */
  lemma FilterMembership(items: seq<ResearchItem>, q: Query, x: ResearchItem)
    ensures x in Filter(items, q) <==> x in items && Matches(x, q)
  {
    FilterMultiplicity(items, q, x);
  }

  lemma ShownWhenMatching(items: seq<ResearchItem>, q: Query, x: ResearchItem)
    requires x in items && Matches(x, q)
    ensures x in Filter(items, q)
  {
    FilterMembership(items, q, x);
  }

  /** With the initial (or cleared) query every entry is shown, in catalog order. */
  lemma {:induction false} InitialQueryShowsAll(items: seq<ResearchItem>)
    ensures Filter(items, InitialQuery) == items
    decreases |items|
  {
    if items != [] {
      assert Lower("") == "";
      ContainsEmpty(Lower(items[0].title));
      InitialQueryShowsAll(items[1..]);
    }
  }

  /** The text fields a search looks at, title first. */
  function SearchFields(item: ResearchItem): seq<string> {
    [item.title, item.description] + item.tags
  }

  /** A search hits an entry exactly when it hits one of its fields, whichever it is. */
  lemma TextMatchesAnyField(item: ResearchItem, searchTerm: string)
    ensures TextMatches(item, searchTerm)
        <==> exists f :: f in SearchFields(item) && Contains(Lower(f), Lower(searchTerm))
  {
    if TextMatches(item, searchTerm) {
      MatchedFieldExists(item, Lower(searchTerm));
    }
    if f :| f in SearchFields(item) && Contains(Lower(f), Lower(searchTerm)) {
      FieldMatchCounts(item, searchTerm, f);
    }
  }

  lemma MatchedFieldExists(item: ResearchItem, t: string)
    requires Contains(Lower(item.title), t) || Contains(Lower(item.description), t)
          || exists k :: 0 <= k < |item.tags| && Contains(Lower(item.tags[k]), t)
    ensures exists f :: f in SearchFields(item) && Contains(Lower(f), t)
  {
    var fs := SearchFields(item);
    if Contains(Lower(item.title), t) {
      assert fs[0] == item.title;
    } else if Contains(Lower(item.description), t) {
      assert fs[1] == item.description;
    } else {
      var k :| 0 <= k < |item.tags| && Contains(Lower(item.tags[k]), t);
      assert fs[k + 2] == item.tags[k];
    }
  }

  lemma FieldMatchCounts(item: ResearchItem, searchTerm: string, f: string)
    requires f in SearchFields(item) && Contains(Lower(f), Lower(searchTerm))
    ensures TextMatches(item, searchTerm)
  {
    var fs := SearchFields(item);
    var j :| 0 <= j < |fs| && fs[j] == f;
    if j >= 2 {
      assert item.tags[j - 2] == f;
    }
  }

  /** Only the lower-case form of the term matters to the result. */
  lemma {:induction false} FilterCaseInsensitive(items: seq<ResearchItem>, q: Query, term: string)
    requires Lower(term) == Lower(q.searchTerm)
    ensures Filter(items, q.(searchTerm := term)) == Filter(items, q)
    decreases |items|
  {
    if items != [] {
      FilterCaseInsensitive(items[1..], q, term);
    }
  }

  /** Typing the search term in capitals changes nothing. */
  lemma FilterUpperCaseTerm(items: seq<ResearchItem>, q: Query)
    ensures Filter(items, q.(searchTerm := Upper(q.searchTerm))) == Filter(items, q)
  {
    LowerOfUpper(q.searchTerm);
    FilterCaseInsensitive(items, q, Upper(q.searchTerm));
  }

  /** An entry that matches a longer term matches every prefix of it. */
  lemma MatchesPrefixOfTerm(x: ResearchItem, q: Query, more: string)
    requires Matches(x, q.(searchTerm := q.searchTerm + more))
    ensures Matches(x, q)
  {
    var s, t := Lower(q.searchTerm), Lower(more);
    LowerAppend(q.searchTerm, more);
    if Contains(Lower(x.title), s + t) {
      ContainsPrefixOfNeedle(Lower(x.title), s, t);
    } else if Contains(Lower(x.description), s + t) {
      ContainsPrefixOfNeedle(Lower(x.description), s, t);
    } else {
      var k :| 0 <= k < |x.tags| && Contains(Lower(x.tags[k]), s + t);
      ContainsPrefixOfNeedle(Lower(x.tags[k]), s, t);
    }
  }

  /** Typing more characters can only remove entries from the result, never add or reorder. */
  lemma {:induction false} NarrowingSearchShrinks(items: seq<ResearchItem>, q: Query, more: string)
    ensures IsSubsequence(Filter(items, q.(searchTerm := q.searchTerm + more)), Filter(items, q))
    decreases |items|
  {
    var q' := q.(searchTerm := q.searchTerm + more);
    if items != [] {
      NarrowingSearchShrinks(items[1..], q, more);
      var a, b := Filter(items[1..], q'), Filter(items[1..], q);
      if Matches(items[0], q') {
        MatchesPrefixOfTerm(items[0], q, more);
        assert ([items[0]] + a)[1..] == a && ([items[0]] + b)[1..] == b;
      } else if Matches(items[0], q) {
        assert ([items[0]] + b)[1..] == b;
      }
    }
  }

  /** The entries of one category, in catalog order. */
  function InCategory(items: seq<ResearchItem>, c: Category): (r: seq<ResearchItem>)
    decreases |items|
  {
    if items == [] then []
    else if items[0].category == c then [items[0]] + InCategory(items[1..], c)
    else InCategory(items[1..], c)
  }

  /** With an empty term and type `'All'`, choosing category `c` shows exactly its entries. */
  lemma {:induction false} CategoryOnly(items: seq<ResearchItem>, c: Category)
    ensures Filter(items, Query("", Only(c), All)) == InCategory(items, c)
    decreases |items|
  {
    if items != [] {
      assert Lower("") == "";
      ContainsEmpty(Lower(items[0].title));
      CategoryOnly(items[1..], c);
    }
  }

  // ---------------------------------------------------------------- sidebar figures

  /** `curr.citationCount || 0`. */
  function CitationsOf(item: ResearchItem): (r: int)
    ensures item.citationCount.None? ==> r == 0
    ensures item.citationCount.Some? ==> r == item.citationCount.value
  {
    match item.citationCount
    case Some(n) => n
    case None => 0
  }

  /** `items.reduce((acc, curr) => acc + (curr.citationCount || 0), acc)`. */
  function ReduceCitations(acc: int, items: seq<ResearchItem>): (r: int)
    ensures items == [] ==> r == acc
    ensures (forall k :: 0 <= k < |items| ==> items[k].citationCount.None?) ==> r == acc
    decreases |items|
  {
    if items == [] then acc else ReduceCitations(acc + CitationsOf(items[0]), items[1..])
  }

  /** "Total Citations Indexed". */
  function TotalCitations(items: seq<ResearchItem>): (r: int)
    ensures r == CitationSum(items)
  {
    ReduceIsSum(0, items);
    ReduceCitations(0, items)
  }

  /** The sum of all citation counts, an absent count adding nothing. */
  function CitationSum(items: seq<ResearchItem>): int
    decreases |items|
  {
    if items == [] then 0 else CitationsOf(items[0]) + CitationSum(items[1..])
  }

  /** The reduce adds every entry's citations, absent ones as 0, to the start value. */
  lemma {:induction false} ReduceIsSum(acc: int, items: seq<ResearchItem>)
    ensures ReduceCitations(acc, items) == acc + CitationSum(items)
    decreases |items|
  {
    if items != [] {
      ReduceIsSum(acc + CitationsOf(items[0]), items[1..]);
    }
  }

  /** The total over two catalogs joined is the sum of their totals. */
  lemma {:induction false} TotalCitationsAppend(a: seq<ResearchItem>, b: seq<ResearchItem>)
    ensures TotalCitations(a + b) == TotalCitations(a) + TotalCitations(b)
    decreases |a|
  {
    ReduceIsSum(0, a + b);
    ReduceIsSum(0, a);
    ReduceIsSum(0, b);
    CitationSumAppend(a, b);
  }

  lemma {:induction false} CitationSumAppend(a: seq<ResearchItem>, b: seq<ResearchItem>)
    ensures CitationSum(a + b) == CitationSum(a) + CitationSum(b)
    decreases |a|
  {
    if a == [] {
      assert a + b == b;
    } else {
      assert (a + b)[1..] == a[1..] + b;
      CitationSumAppend(a[1..], b);
    }
  }

  /**
   * A two-entry catalog in the style of the seed: searching "math" shows the entry tagged
   * "Math" and not the one titled "MMLU", described as "multitask" and tagged "Benchmark",
   * which contains "math" nowhere.
   */
  lemma TwoEntryMathSearch(a: ResearchItem, b: ResearchItem)
    requires a.title == "MMLU" && a.description == "multitask" && a.tags == ["Benchmark"]
    requires b.tags == ["Math"]
    ensures Filter([a, b], Query("math", All, All)) == [b]
  {
    MmluEntryMissesMath(a);
    MathTagMatches(b);
    FilterPair(a, b, Query("math", All, All));
  }

  lemma FilterPair(a: ResearchItem, b: ResearchItem, q: Query)
    requires !Matches(a, q) && Matches(b, q)
    ensures Filter([a, b], q) == [b]
  {
    assert [a, b][1..] == [b] && [b][1..] == [];
  }

  lemma MmluEntryMissesMath(a: ResearchItem)
    requires a.title == "MMLU" && a.description == "multitask" && a.tags == ["Benchmark"]
    ensures !TextMatches(a, "math")
  {
    LowerLiterals();
    MathNotInMmlu();
    MathNotInMultitask();
    MathNotInBenchmark();
  }

  lemma MathTagMatches(b: ResearchItem)
    requires b.tags == ["Math"]
    ensures Matches(b, Query("math", All, All))
  {
    LowerLiterals();
    assert OccursAt(b.tags[0], "Math", 0);
    ContainsLowered(b.tags[0], "Math", 0);
  }

  lemma LowerLiterals()
    ensures Lower("math") == "math" && Lower("Math") == "math" && Lower("MMLU") == "mmlu"
    ensures Lower("multitask") == "multitask" && Lower("Benchmark") == "benchmark"
  {
  }

  /** "mmlu" has no window that starts "ma". */
  lemma MathNotInMmlu()
    ensures !Contains("mmlu", "math")
  {
    var t := "math";
    assert "mmlu"[1] != t[1];
    assert "mmlu"[1..] == "mlu" && "mlu"[1..] == "lu" && "lu"[2..] == [];
    ContainsStep("mmlu", t);
    ContainsStep("mlu", t);
    SkipToFirstChar("lu", t, 2);
    NotInEmpty(t);
  }

  /** After its first letter, "multitask" has no 'm'. */
  lemma MathNotInMultitask()
    ensures !Contains("multitask", "math")
  {
    assert "multitask"[1] != "math"[1];
    assert "multitask"[1..] == "ultitask";
    ContainsStep("multitask", "math");
    MathNotInUltitask();
  }

  lemma MathNotInUltitask()
    ensures !Contains("ultitask", "math")
  {
    var t := "math";
    assert "ultitask"[4..] == "task" && "task"[4..] == [];
    SkipToFirstChar("ultitask", t, 4);
    SkipToFirstChar("task", t, 4);
    NotInEmpty(t);
  }

  /** The one 'm' of "benchmark" starts "mar". */
  lemma MathNotInBenchmark()
    ensures !Contains("benchmark", "math")
  {
    var t := "math";
    assert "benchmark"[5..] == "mark" && "mark"[1..] == "ark" && "ark"[3..] == [];
    assert "mark"[2] != t[2];
    SkipToFirstChar("benchmark", t, 5);
    ContainsStep("mark", t);
    SkipToFirstChar("ark", t, 3);
    NotInEmpty(t);
  }

  // ---------------------------------------------------------------- the seed catalog

  /** The citation total of a five-entry catalog, written out. */
  lemma TotalOfFive(items: seq<ResearchItem>)
    requires |items| == 5
    ensures TotalCitations(items) == CitationsOf(items[0]) + CitationsOf(items[1])
      + CitationsOf(items[2]) + CitationsOf(items[3]) + CitationsOf(items[4])
  {
    ReduceIsSum(0, items);
    var s1, s2, s3, s4 := items[1..], items[2..], items[3..], items[4..];
    assert s1[1..] == s2 && s2[1..] == s3 && s3[1..] == s4 && s4[1..] == [];
    assert CitationSum(s4) == CitationsOf(items[4]);
    assert CitationSum(s3) == CitationsOf(items[3]) + CitationSum(s4);
    assert CitationSum(s2) == CitationsOf(items[2]) + CitationSum(s3);
    assert CitationSum(s1) == CitationsOf(items[1]) + CitationSum(s2);
  }

  /** "Total Resources" shows 5 and "Total Citations Indexed" shows 10,300. */
  lemma SeedFigures()
    ensures |Data.ResearchItems| == 5
    ensures TotalCitations(Data.ResearchItems) == 10300
  {
    TotalOfFive(Data.ResearchItems);
  }

  /** The entries of one category in a five-entry catalog whose only Math entry is the third. */
  lemma InCategoryOfFive(items: seq<ResearchItem>, c: Category)
    requires |items| == 5 && items[2].category == Math
    requires forall i :: 0 <= i < 5 && i != 2 ==> items[i].category in {General, Coding, Safety}
    requires c in {Math, Reasoning, Multilingual}
    ensures InCategory(items, c) == if c == Math then [items[2]] else []
  {
    var s1, s2, s3, s4 := items[1..], items[2..], items[3..], items[4..];
    assert s1[1..] == s2 && s2[1..] == s3 && s3[1..] == s4 && s4[1..] == [];
    assert s4[0] == items[4] && s3[0] == items[3] && s2[0] == items[2];
    assert s1[0] == items[1];
    assert InCategory(s4, c) == [];
    assert InCategory(s3, c) == [];
    assert InCategory(s2, c) == if c == Math then [items[2]] else [];
  }

  /** The seed entries by category: Math holds GSM8K alone, Reasoning and Multilingual nothing. */
  lemma SeedInCategory()
    ensures InCategory(Data.ResearchItems, Math) == [Data.Gsm8k]
    ensures InCategory(Data.ResearchItems, Reasoning) == []
    ensures InCategory(Data.ResearchItems, Multilingual) == []
  {
    InCategoryOfFive(Data.ResearchItems, Math);
    InCategoryOfFive(Data.ResearchItems, Reasoning);
    InCategoryOfFive(Data.ResearchItems, Multilingual);
  }

  /** Choosing Math on the seed catalog shows GSM8K only; Reasoning and Multilingual show nothing. */
  lemma SeedCategories()
    ensures Filter(Data.ResearchItems, Query("", Only(Math), All)) == [Data.Gsm8k]
    ensures Filter(Data.ResearchItems, Query("", Only(Reasoning), All)) == []
    ensures Filter(Data.ResearchItems, Query("", Only(Multilingual), All)) == []
  {
    CategoryOnly(Data.ResearchItems, Math);
    CategoryOnly(Data.ResearchItems, Reasoning);
    CategoryOnly(Data.ResearchItems, Multilingual);
    SeedInCategory();
  }

  /** The lower-cased title of GSM8K contains "math" (at index 20). */
  lemma SeedMathTitle()
    ensures Contains(Lower(Data.Gsm8k.title), Lower("math"))
  {
    assert OccursAt(Data.Gsm8k.title, "Math", 20);
    ContainsLowered(Data.Gsm8k.title, "Math", 20);
    assert Lower("Math") == Lower("math");
  }

  /** The lower-cased first tag of GSM8K, "Math", contains "math". */
  lemma SeedMathTag()
    ensures Contains(Lower(Data.Gsm8k.tags[0]), Lower("math"))
  {
    assert OccursAt(Data.Gsm8k.tags[0], "Math", 0);
    ContainsLowered(Data.Gsm8k.tags[0], "Math", 0);
    assert Lower("Math") == Lower("math");
  }

  /**
   * Searching "math" with both selectors on 'All' shows GSM8K, the third seed entry:
   * it matches the query, so by `FilterMembership` it is in the result.
   */
  lemma SeedMathSearch()
    ensures Data.ResearchItems[2] == Data.Gsm8k
    ensures Matches(Data.Gsm8k, Query("math", All, All))
  {
    SeedMathTitle();
  }
}
