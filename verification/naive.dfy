/**
  The naive categorization strategy: a category matches a page when one of
  its (lower-case) keywords is a substring of the lower-cased page text.
  Matched names come out in the order of the categories passed in, and every
  page gets exactly one result, in page order.
 */
module Naive {
  import opened Text
  import opened Seqs
  import opened Model

  /** Reference definition of a naive match: some keyword of `c` occurs in
      the lower-cased page text. */
  predicate KeywordIn(c: Category, content: string) {
    exists i :: 0 <= i < |c.keywords| && Contains(ToLower(content), c.keywords[i].keyword)
  }

  /** The `anyMatch` over a category's keywords: checks them in order, each
      with the substring test; false when there are no keywords. */
  function AnyKeywordContained(lowered: string, keywords: seq<CategoryKeyword>): (b: bool)
    ensures b <==> exists i :: 0 <= i < |keywords| && Contains(lowered, keywords[i].keyword)
    ensures |keywords| == 0 ==> !b
  {
    if |keywords| == 0 then false
    else Contains(lowered, keywords[0].keyword) || AnyKeywordContained(lowered, keywords[1..])
  }

  /** Categorizes one page: lower-cases its text once, keeps the categories
      whose keywords occur in it, in their original order, and reports their
      names under the page's URL. The names are exactly those of the
      categories satisfying the reference predicate `KeywordIn`, in order. */
  function CategorizeSinglePage(categories: seq<Category>, page: WebPageContent): (r: UrlCategoryResult)
    ensures r.url == page.url
    ensures r.categories == Names(Filter(categories, (c: Category) => KeywordIn(c, page.content)))
    ensures forall n :: n in r.categories <==> exists c :: c in categories && c.name == n && KeywordIn(c, page.content)
    ensures IsSubsequence(r.categories, Names(categories))
    ensures DistinctNames(categories) ==> NoDuplicates(r.categories)
  {
    var content := ToLower(page.content);
    var matched := Filter(categories, (c: Category) => AnyKeywordContained(content, c.keywords));
    MatchedNamesFacts(categories, page.content, matched);
    FilterCongruent(categories, (c: Category) => AnyKeywordContained(content, c.keywords),
      (c: Category) => KeywordIn(c, page.content));
    UrlCategoryResult(page.url, Names(matched))
  }

  /** What the names of the filtered categories satisfy. */
  lemma MatchedNamesFacts(categories: seq<Category>, content: string, matched: seq<Category>)
    requires matched == Filter(categories, (c: Category) => AnyKeywordContained(ToLower(content), c.keywords))
    ensures forall n :: n in Names(matched) <==> exists c :: c in categories && c.name == n && KeywordIn(c, content)
    ensures IsSubsequence(Names(matched), Names(categories))
    ensures DistinctNames(categories) ==> NoDuplicates(Names(matched))
  {
    MapSubsequence(matched, categories, (c: Category) => c.name);
    SubsequenceKeepsNoDuplicates(Names(matched), Names(categories));
    MatchedNamesMatch(categories, content, matched);
    MatchingNamesMatched(categories, content, matched);
  }

  lemma MatchedNamesMatch(categories: seq<Category>, content: string, matched: seq<Category>)
    requires forall c :: c in matched <==> c in categories && KeywordIn(c, content)
    ensures forall n :: n in Names(matched) ==> exists c :: c in categories && c.name == n && KeywordIn(c, content)
  {
    var names := Names(matched);
    forall n | n in names
      ensures exists c :: c in categories && c.name == n && KeywordIn(c, content)
    {
      var j :| 0 <= j < |names| && names[j] == n;
      assert matched[j] in matched;
    }
  }

  lemma MatchingNamesMatched(categories: seq<Category>, content: string, matched: seq<Category>)
    requires forall c :: c in matched <==> c in categories && KeywordIn(c, content)
    ensures forall c :: c in categories && KeywordIn(c, content) ==> c.name in Names(matched)
  {
    var names := Names(matched);
    forall c | c in categories && KeywordIn(c, content)
      ensures c.name in names
    {
      var j :| 0 <= j < |matched| && matched[j] == c;
      assert names[j] == c.name;
    }
  }

  /** `NaiveCategorizationStrategy.categorize`: one result per page, in page
      order, each computed independently of the others. */
  function Categorize(categories: seq<Category>, pages: seq<WebPageContent>): (r: seq<UrlCategoryResult>)
    ensures |r| == |pages|
    ensures forall i :: 0 <= i < |pages| ==> r[i].url == pages[i].url
    ensures forall i :: 0 <= i < |pages| ==> r[i] == CategorizeSinglePage(categories, pages[i])
  {
    Map(pages, (p: WebPageContent) => CategorizeSinglePage(categories, p))
  }

  /** Pages are categorized independently: categorizing two lists of pages
      one after the other gives the same results as categorizing them joined. */
  lemma CategorizeAppend(categories: seq<Category>, a: seq<WebPageContent>, b: seq<WebPageContent>)
    ensures Categorize(categories, a + b) == Categorize(categories, a) + Categorize(categories, b)
  {
  }

  /** Changing the case of a page's text does not change its result. */
  lemma CaseInvariant(categories: seq<Category>, page: WebPageContent, recased: string)
    requires EqualsIgnoreCase(page.content, recased)
    ensures CategorizeSinglePage(categories, page) == CategorizeSinglePage(categories, page.(content := recased))
  {
    EqualsIgnoreCaseIffSameLower(page.content, recased);
  }

  /** A name whose categories all have no keywords is never reported. */
  lemma EmptyKeywordsNeverMatch(categories: seq<Category>, page: WebPageContent, name: string)
    requires forall c :: c in categories && c.name == name ==> |c.keywords| == 0
    ensures name !in CategorizeSinglePage(categories, page).categories
  {
  }
}
