/**
  The entities of the categorization engine: keywords, categories, page
  contents, per-URL results and the configuration records categories are
  built from. All are immutable values; the Java setters become functions
  that return the updated value.
 */
module Model {
  import opened Text
  import Seqs

  /** A keyword of a category, kept in lower case so that matching can be
      case-insensitive. */
  datatype CategoryKeyword = CategoryKeyword(keyword: string) {
    /** The stored text is all lower case. */
    predicate Valid() {
      IsLower(keyword)
    }
  }

  /** `new CategoryKeyword(s)`: stores `s` lower-cased. */
  function NewKeyword(s: string): (k: CategoryKeyword)
    ensures k.Valid()
    ensures EqualsIgnoreCase(k.keyword, s)
    ensures IsLower(s) ==> k.keyword == s
  {
    EqualsIgnoreCaseIffSameLower(ToLower(s), s);
    CategoryKeyword(ToLower(s))
  }

  /** `keyword.setKeyword(s)`: replaces the stored text by `s` lower-cased,
      whatever was stored before. */
  function SetKeyword(k: CategoryKeyword, s: string): (r: CategoryKeyword)
    ensures r.Valid()
    ensures EqualsIgnoreCase(r.keyword, s)
    ensures IsLower(s) ==> r.keyword == s
  {
    NewKeyword(s)
  }

  /** Whatever sequence of writes a keyword goes through (the constructor
      and then any number of setter calls), the stored text is the last
      written string, lower-cased, and is therefore always lower case. */
  lemma {:induction false} KeywordAlwaysLower(initial: string, writes: seq<string>)
    ensures var k := WriteAll(NewKeyword(initial), writes);
      && k.Valid()
      && k.keyword == ToLower(if |writes| == 0 then initial else writes[|writes| - 1])
  {
    if |writes| > 0 {
      KeywordAlwaysLower(initial, writes[..|writes| - 1]);
      assert writes[..|writes| - 1] + [writes[|writes| - 1]] == writes;
    }
  }

  /** Applies `setKeyword` with each string of `writes` in turn. */
  function WriteAll(k: CategoryKeyword, writes: seq<string>): CategoryKeyword
  {
    if |writes| == 0 then k else SetKeyword(WriteAll(k, writes[..|writes| - 1]), writes[|writes| - 1])
  }

  /** A named category with an ordered list of keywords (a list, not a set:
      the same keyword may appear more than once). */
  datatype Category = Category(name: string, keywords: seq<CategoryKeyword>)

  /** Every keyword of the category is lower case. */
  predicate WellFormed(c: Category) {
    forall i :: 0 <= i < |c.keywords| ==> c.keywords[i].Valid()
  }

  /** `new Category(name)`: the given name and no keywords yet. */
  function NewCategory(name: string): (c: Category)
    ensures c.name == name
    ensures |c.keywords| == 0
  {
    Category(name, [])
  }

  /** `category.addKeyword(k)`: appends `k` after the existing keywords,
      which stay as they were; the name does not change. */
  function AddKeyword(c: Category, k: CategoryKeyword): (r: Category)
    ensures r.name == c.name
    ensures |r.keywords| == |c.keywords| + 1
    ensures r.keywords[..|c.keywords|] == c.keywords
    ensures r.keywords[|c.keywords|] == k
    ensures WellFormed(c) && k.Valid() ==> WellFormed(r)
  {
    c.(keywords := c.keywords + [k])
  }

  /** Adding a keyword that is already present keeps both copies: the
      number of occurrences of `k` goes up by one every time. */
  lemma AddKeywordKeepsDuplicates(c: Category, k: CategoryKeyword)
    ensures multiset(AddKeyword(AddKeyword(c, k), k).keywords)[k] == multiset(c.keywords)[k] + 2
  {
    var r := AddKeyword(AddKeyword(c, k), k);
    assert r.keywords == c.keywords + [k] + [k];
  }

  /** The names of a list of categories, in order. */
  function Names(cats: seq<Category>): (r: seq<string>)
    ensures |r| == |cats|
    ensures forall i :: 0 <= i < |cats| ==> r[i] == cats[i].name
  {
    Seqs.Map(cats, (c: Category) => c.name)
  }

  /** No two categories share a name. */
  predicate DistinctNames(cats: seq<Category>) {
    forall i, j :: 0 <= i < j < |cats| ==> cats[i].name != cats[j].name
  }

  /** A fetched page: its URL and its flattened text. */
  datatype WebPageContent = WebPageContent(url: string, content: string)

  /** The outcome for one page: its URL and the names of the categories it matched. */
  datatype UrlCategoryResult = UrlCategoryResult(url: string, categories: seq<string>)

  /** The response of one categorization request. */
  datatype CategorizeResponse = CategorizeResponse(results: seq<UrlCategoryResult>)

  /** One configuration record a category is built from. */
  datatype CategoryData = CategoryData(name: string, keywords: seq<string>)
}
