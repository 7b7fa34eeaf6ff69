/**
  The two strategies against each other. For a category with at least one
  lower-case keyword, the compiled alternation finds a match exactly when
  the naive substring test does; so, over a catalog with distinct names and
  no empty keyword lists, both strategies report the same set of names for
  every page. Without keywords the two disagree on every page.
 */
module Agreement {
  import opened Text
  import opened Seqs
  import opened Model
  import opened Strategies
  import opened Service
  import Naive
  import Regex

  /** Matcher-level agreement: quoted alternation plus case-insensitive
      `find` decides the same as "some lower-case keyword is a substring of
      the lower-cased text". */
  lemma MatcherAgreement(c: Category, content: string)
    requires WellFormed(c)
    requires |c.keywords| > 0
    ensures Regex.Find(Regex.Compile(c.keywords), content) <==> Naive.KeywordIn(c, content)
  {
    var p := Regex.Compile(c.keywords);
    forall i | 0 <= i < |c.keywords|
      ensures Regex.OccursIgnoringCase(content, p.literals[i]) <==> Contains(ToLower(content), c.keywords[i].keyword)
    {
      Regex.OccursIgnoringCaseIffLowerContains(content, p.literals[i]);
    }
  }

  /** A category without keywords: the regex strategy's empty pattern finds
      a match in every text, the naive `anyMatch` never does. */
  lemma EmptyKeywordsDiverge(c: Category, content: string)
    requires |c.keywords| == 0
    ensures Regex.Find(Regex.Compile(c.keywords), content)
    ensures !Naive.KeywordIn(c, content)
  {
  }

  /** The names of a subsequence of categories form a subsequence of the names. */
  lemma NamesSubsequence(a: seq<Category>, b: seq<Category>)
    requires IsSubsequence(a, b)
    ensures IsSubsequence(Names(a), Names(b))
  {
    var f := (c: Category) => c.name;
    MapSubsequence(a, b, f);
    assert Map(a, f) == Names(a);
    assert Map(b, f) == Names(b);
  }

  /** In a catalog with distinct names, the table built from it holds each
      category's own compiled keywords under its name. */
  lemma TableEntry(catalog: seq<Category>, c: Category)
    requires DistinctNames(catalog)
    requires c in catalog
    ensures c.name in Regex.NewRegexStrategy(catalog).categoryToPattern
    ensures Regex.NewRegexStrategy(catalog).categoryToPattern[c.name] == Regex.Compile(c.keywords)
  {
    var k :| 0 <= k < |catalog| && catalog[k] == c;
    assert Names(catalog)[k] == c.name;
    assert Regex.LastWithName(catalog, k);
  }

  /** The regex-to-naive direction of `PageAgreement`, for one name. */
  lemma RegexMatchIsNaiveMatch(catalog: seq<Category>, selected: seq<Category>, content: string, n: string)
    requires DistinctNames(catalog)
    requires forall i :: 0 <= i < |catalog| ==> WellFormed(catalog[i]) && |catalog[i].keywords| > 0
    requires forall c :: c in selected ==> c in catalog
    requires n in Names(selected)
    requires n in Regex.NewRegexStrategy(catalog).categoryToPattern
    requires Regex.Find(Regex.NewRegexStrategy(catalog).categoryToPattern[n], content)
    ensures exists c :: c in selected && c.name == n && Naive.KeywordIn(c, content)
  {
    var j :| 0 <= j < |selected| && Names(selected)[j] == n;
    var c := selected[j];
    TableEntry(catalog, c);
    var k :| 0 <= k < |catalog| && catalog[k] == c;
    MatcherAgreement(c, content);
  }

  /** The naive-to-regex direction of `PageAgreement`, for one category. */
  lemma NaiveMatchIsRegexMatch(catalog: seq<Category>, selected: seq<Category>, content: string, c: Category)
    requires DistinctNames(catalog)
    requires forall i :: 0 <= i < |catalog| ==> WellFormed(catalog[i]) && |catalog[i].keywords| > 0
    requires forall c :: c in selected ==> c in catalog
    requires c in selected && Naive.KeywordIn(c, content)
    ensures c.name in Names(selected)
    ensures c.name in Regex.NewRegexStrategy(catalog).categoryToPattern
    ensures Regex.Find(Regex.NewRegexStrategy(catalog).categoryToPattern[c.name], content)
  {
    var j :| 0 <= j < |selected| && selected[j] == c;
    assert Names(selected)[j] == c.name;
    TableEntry(catalog, c);
    var k :| 0 <= k < |catalog| && catalog[k] == c;
    MatcherAgreement(c, content);
  }

  /** Page-level agreement: for categories drawn from such a catalog, a
      name passes the regex test (known, passed, pattern found) exactly when
      some passed category of that name passes the naive test. */
  lemma PageAgreement(catalog: seq<Category>, selected: seq<Category>, content: string)
    requires DistinctNames(catalog)
    requires forall i :: 0 <= i < |catalog| ==> WellFormed(catalog[i]) && |catalog[i].keywords| > 0
    requires forall c :: c in selected ==> c in catalog
    ensures var table := Regex.NewRegexStrategy(catalog).categoryToPattern;
      forall n :: (n in Names(selected) && n in table && Regex.Find(table[n], content))
        <==> exists c :: c in selected && c.name == n && Naive.KeywordIn(c, content)
  {
    var table := Regex.NewRegexStrategy(catalog).categoryToPattern;
    forall n | n in Names(selected) && n in table && Regex.Find(table[n], content)
      ensures exists c :: c in selected && c.name == n && Naive.KeywordIn(c, content)
    {
      RegexMatchIsNaiveMatch(catalog, selected, content, n);
    }
    forall c | c in selected && Naive.KeywordIn(c, content)
      ensures c.name in Names(selected) && c.name in table && Regex.Find(table[c.name], content)
    {
      NaiveMatchIsRegexMatch(catalog, selected, content, c);
    }
  }

  /** Strategy-level agreement on categories drawn from such a catalog:
      the regex strategy built from the catalog succeeds, and for each page
      it reports the same set of names as the naive strategy. */
  lemma SelectedAgree(catalog: seq<Category>, selected: seq<Category>, pages: seq<WebPageContent>)
    requires DistinctNames(catalog)
    requires forall i :: 0 <= i < |catalog| ==> WellFormed(catalog[i]) && |catalog[i].keywords| > 0
    requires IsSubsequence(selected, catalog)
    ensures var regex := Regex.Categorize(Regex.NewRegexStrategy(catalog), selected, pages);
      var naive := Naive.Categorize(selected, pages);
      && regex.Success?
      && forall i :: 0 <= i < |pages| ==> forall n :: n in regex.value[i].categories <==> n in naive[i].categories
  {
    var s := Regex.NewRegexStrategy(catalog);
    NamesSubsequence(selected, catalog);
    SubsequenceNoDuplicates(Names(selected), Names(catalog));
    SubsequenceElements(selected, catalog);
    assert Regex.KnownDistinct(s.categoryToPattern, Names(selected));
    var regex := Regex.Categorize(s, selected, pages);
    forall i | 0 <= i < |pages|
      ensures forall n :: n in regex.value[i].categories <==> n in Naive.Categorize(selected, pages)[i].categories
    {
      PageAgreement(catalog, selected, pages[i].content);
    }
  }

  /** Service-level agreement: with distinct catalog names and every
      category holding at least one (lower-case) keyword, the naive and the
      regex service answer every request successfully, with the same URLs
      in the same order and the same set of matched names for each page. */
  lemma StrategiesAgree(catalog: seq<Category>, categoryNames: seq<string>, pages: seq<WebPageContent>)
    requires DistinctNames(catalog)
    requires forall i :: 0 <= i < |catalog| ==> WellFormed(catalog[i]) && |catalog[i].keywords| > 0
    ensures var naive := CategorizeUrls(CategoryService(catalog, CreateStrategy(NAIVE, catalog)), categoryNames, pages);
      var regex := CategorizeUrls(CategoryService(catalog, CreateStrategy(REGEX, catalog)), categoryNames, pages);
      && naive.Success? && regex.Success?
      && |regex.value.results| == |naive.value.results| == |pages|
      && forall i :: 0 <= i < |pages| ==>
           && regex.value.results[i].url == naive.value.results[i].url
           && forall n :: n in regex.value.results[i].categories <==> n in naive.value.results[i].categories
  {
    var selected := SelectCategories(catalog, set n | n in categoryNames);
    SelectedAgree(catalog, selected, pages);
    assert Strategies.Categorize(CreateStrategy(NAIVE, catalog), selected, pages) == Results.Success(Naive.Categorize(selected, pages));
    assert Strategies.Categorize(CreateStrategy(REGEX, catalog), selected, pages)
      == Regex.Categorize(Regex.NewRegexStrategy(catalog), selected, pages);
  }
}
