/**
  `CategoryService`: the category catalog built from configuration records,
  the strategy chosen by name at start-up, and `categorizeUrls`, which
  narrows the catalog to the requested names and hands the pages to the
  strategy.
 */
module Service {
  import opened Text
  import opened Seqs
  import opened Results
  import opened Model
  import opened Strategies

  /** The service state: the catalog, in configuration order, and the active strategy. */
  datatype CategoryService = CategoryService(categories: seq<Category>, strategy: Strategy)

  /** Adds `new CategoryKeyword(k)` for each string `k` of `keywords`, in
      order: the keywords after the existing ones are the configured strings
      lower-cased. */
  function AddKeywords(c: Category, keywords: seq<string>): (r: Category)
    ensures r.name == c.name
    ensures |r.keywords| == |c.keywords| + |keywords|
    ensures r.keywords[..|c.keywords|] == c.keywords
    ensures forall i :: 0 <= i < |keywords| ==> r.keywords[|c.keywords|..][i] == NewKeyword(keywords[i])
    ensures forall i :: 0 <= i < |keywords| ==>
      r.keywords[|c.keywords|..][i].Valid() && EqualsIgnoreCase(r.keywords[|c.keywords|..][i].keyword, keywords[i])
    decreases |keywords|
  {
    if |keywords| == 0 then c
    else
      var prev := AddKeywords(c, keywords[..|keywords| - 1]);
      var r := AddKeyword(prev, NewKeyword(keywords[|keywords| - 1]));
      AppendedInOrder(c, keywords, prev, r);
      r
  }

  /** One step of `AddKeywords`: `r` appends the keyword made from the last
      string to `prev`, the category built from the others. */
  lemma AppendedInOrder(c: Category, keywords: seq<string>, prev: Category, r: Category)
    requires |keywords| > 0
    requires |prev.keywords| == |c.keywords| + |keywords| - 1
    requires prev.keywords[..|c.keywords|] == c.keywords
    requires forall i :: 0 <= i < |keywords| - 1 ==> prev.keywords[|c.keywords|..][i] == NewKeyword(keywords[..|keywords| - 1][i])
    requires r == AddKeyword(prev, NewKeyword(keywords[|keywords| - 1]))
    ensures r.keywords[..|c.keywords|] == c.keywords
    ensures forall i :: 0 <= i < |keywords| ==> r.keywords[|c.keywords|..][i] == NewKeyword(keywords[i])
  {
    forall i | 0 <= i < |keywords|
      ensures r.keywords[|c.keywords|..][i] == NewKeyword(keywords[i])
    {
      if i < |keywords| - 1 {
        assert keywords[..|keywords| - 1][i] == keywords[i];
        assert r.keywords[|c.keywords|..][i] == prev.keywords[|c.keywords|..][i];
      }
    }
    assert r.keywords[..|c.keywords|] == prev.keywords[..|c.keywords|];
  }

  /** `createCategory`: the record's name, and one keyword per configured
      keyword, in the configured order: the configured string lower-cased,
      so lower case and equal to it ignoring case. */
  function CreateCategory(data: CategoryData): (c: Category)
    ensures c.name == data.name
    ensures |c.keywords| == |data.keywords|
    ensures forall i :: 0 <= i < |data.keywords| ==> c.keywords[i] == NewKeyword(data.keywords[i])
    ensures forall i :: 0 <= i < |data.keywords| ==> EqualsIgnoreCase(c.keywords[i].keyword, data.keywords[i])
    ensures WellFormed(c)
  {
    var c := AddKeywords(NewCategory(data.name), data.keywords);
    assert c.keywords[0..] == c.keywords;
    c
  }

  /** A lower-case string equal to `s` ignoring case is `s` lower-cased:
      the keywords `createCategory` stores are determined by the record. */
  lemma LowerEqualIgnoringCaseIsToLower(k: string, s: string)
    requires IsLower(k)
    requires EqualsIgnoreCase(k, s)
    ensures k == ToLower(s)
  {
    EqualsIgnoreCaseIffSameLower(k, s);
  }

  /** Two records that differ only in the case of their keywords give the
      same category. */
  lemma CreateCategoryCaseInsensitive(a: CategoryData, b: CategoryData)
    requires a.name == b.name
    requires |a.keywords| == |b.keywords|
    requires forall i :: 0 <= i < |a.keywords| ==> EqualsIgnoreCase(a.keywords[i], b.keywords[i])
    ensures CreateCategory(a) == CreateCategory(b)
  {
    var ca, cb := CreateCategory(a), CreateCategory(b);
    forall i | 0 <= i < |a.keywords|
      ensures ca.keywords[i] == cb.keywords[i]
    {
      LowerEqualIgnoringCaseIsToLower(ca.keywords[i].keyword, a.keywords[i]);
      LowerEqualIgnoringCaseIsToLower(cb.keywords[i].keyword, b.keywords[i]);
      EqualsIgnoreCaseIffSameLower(a.keywords[i], b.keywords[i]);
    }
  }

  /** The catalog: one category per configuration record, in order. */
  function InitializeCategories(data: seq<CategoryData>): (cats: seq<Category>)
    ensures |cats| == |data|
    ensures forall i :: 0 <= i < |data| ==> cats[i] == CreateCategory(data[i])
    ensures forall i :: 0 <= i < |data| ==> WellFormed(cats[i])
  {
    Map(data, CreateCategory)
  }

  /** The constructor: builds the catalog, then looks the strategy up by
      name; an unknown name aborts construction. */
  function NewService(strategyName: string, data: seq<CategoryData>): (r: Result<CategoryService>)
    ensures r.Failure? <==> !EqualsIgnoreCase("NAIVE", strategyName) && !EqualsIgnoreCase("REGEX", strategyName)
    ensures r.Failure? ==> r.error == UnknownStrategy(strategyName)
    ensures r.Success? ==> r.value.categories == InitializeCategories(data)
    ensures r.Success? ==> (r.value.strategy.UseNaive? <==> EqualsIgnoreCase("NAIVE", strategyName))
    ensures r.Success? && r.value.strategy.UseRegex? ==> r.value.strategy == CreateStrategy(REGEX, r.value.categories)
  {
    var categories := InitializeCategories(data);
    var t :- FromString(strategyName);
    Success(CategoryService(categories, CreateStrategy(t, categories)))
  }

  /** The catalog entries whose name is requested, in catalog order: every
      occurrence of a requested entry is kept and nothing else. */
  function SelectCategories(catalog: seq<Category>, requested: set<string>): (r: seq<Category>)
    ensures IsSubsequence(r, catalog)
    ensures forall c :: c in r <==> c in catalog && c.name in requested
    ensures forall c :: multiset(r)[c] == if c.name in requested then multiset(catalog)[c] else 0
  {
    Filter(catalog, (c: Category) => c.name in requested)
  }

  /** `categorizeUrls`: turns the requested names into a set, selects those
      catalog entries, and wraps the strategy's result list in a response. */
  function CategorizeUrls(svc: CategoryService, categoryNames: seq<string>, pages: seq<WebPageContent>): (r: Result<CategorizeResponse>)
    ensures var selected := SelectCategories(svc.categories, set n | n in categoryNames);
      && (r.Success? <==> Strategies.Categorize(svc.strategy, selected, pages).Success?)
      && (r.Success? ==> r.value.results == Strategies.Categorize(svc.strategy, selected, pages).value)
    ensures svc.strategy.UseNaive? ==> r.Success?
    ensures r.Success? ==> |r.value.results| == |pages|
    ensures r.Success? ==> forall i :: 0 <= i < |pages| ==> r.value.results[i].url == pages[i].url
    ensures r.Success? ==> forall i, n :: 0 <= i < |pages| && n in r.value.results[i].categories ==>
      n in categoryNames && n in Names(svc.categories)
  {
    var selected := SelectCategories(svc.categories, set n | n in categoryNames);
    var results :- Strategies.Categorize(svc.strategy, selected, pages);
    SelectedNames(svc.categories, set n | n in categoryNames);
    Success(CategorizeResponse(results))
  }

  /** The name of a selected category is requested and belongs to the catalog. */
  lemma SelectedNames(catalog: seq<Category>, requested: set<string>)
    ensures forall n :: n in Names(SelectCategories(catalog, requested)) ==> n in requested && n in Names(catalog)
  {
    var selected := SelectCategories(catalog, requested);
    forall n | n in Names(selected)
      ensures n in requested && n in Names(catalog)
    {
      var j :| 0 <= j < |selected| && Names(selected)[j] == n;
      assert selected[j] in catalog;
      var k :| 0 <= k < |catalog| && catalog[k] == selected[j];
      assert Names(catalog)[k] == n;
    }
  }

  /** Repeating or reordering the requested names changes nothing: only
      the set of names matters. */
  lemma RequestedNamesActAsSet(svc: CategoryService, a: seq<string>, b: seq<string>, pages: seq<WebPageContent>)
    requires forall n :: n in a <==> n in b
    ensures CategorizeUrls(svc, a, pages) == CategorizeUrls(svc, b, pages)
  {
    assert (set n | n in a) == (set n | n in b);
  }

  /** Requesting a name the catalog does not have is not an error and
      changes nothing. */
  lemma {:induction false} UnknownNamesIgnored(svc: CategoryService, names: seq<string>, unknown: string, pages: seq<WebPageContent>)
    requires unknown !in Names(svc.categories)
    ensures CategorizeUrls(svc, names + [unknown], pages) == CategorizeUrls(svc, names, pages)
  {
    var withUnknown := set n | n in names + [unknown];
    var without := set n | n in names;
    forall c | c in svc.categories
      ensures (c.name in withUnknown) == (c.name in without)
    {
      var k :| 0 <= k < |svc.categories| && svc.categories[k] == c;
      assert Names(svc.categories)[k] == c.name;
    }
    FilterCongruent(svc.categories, (c: Category) => c.name in withUnknown, (c: Category) => c.name in without);
  }
}
