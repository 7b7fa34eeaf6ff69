/**
  The regex categorization strategy. At construction every catalog category
  is compiled to one case-insensitive pattern: the alternation of its
  keywords, each quoted so that it is matched as a literal. Categorizing
  keeps the passed categories whose names the table knows, collects them
  into a name-to-pattern map (failing on a repeated name), and reports per
  page the set of names whose pattern finds an occurrence in the text.

  The regular-expression engine is modelled by what a quoted alternation
  means: a literal search for any of its alternatives, with ASCII case
  folding (`Pattern.CASE_INSENSITIVE` without `UNICODE_CASE`).
 */
module Regex {
  import opened Text
  import opened Seqs
  import opened Results
  import opened Model

  /** A compiled pattern: the alternation of the quoted literals, in keyword order. */
  datatype Pattern = Alternation(literals: seq<string>)

  /** `lit` occurs at offset `i` of `text`, ignoring case. */
  predicate MatchesAtIgnoringCase(text: string, lit: string, i: int) {
    0 <= i && i + |lit| <= |text| && EqualsIgnoreCase(text[i..i + |lit|], lit)
  }

  /** `lit` occurs somewhere in `text`, ignoring case. */
  predicate OccursIgnoringCase(text: string, lit: string) {
    exists i {:trigger MatchesAtIgnoringCase(text, lit, i)} :: 0 <= i <= |text| && MatchesAtIgnoringCase(text, lit, i)
  }

  /** `pattern.matcher(text).find()`. Joining zero quoted keywords gives the
      empty regular expression, which matches the empty string at offset 0
      of every text; otherwise the alternation finds an occurrence iff one of
      its literals occurs, ignoring case. */
  predicate Find(p: Pattern, text: string) {
    |p.literals| == 0 || exists i :: 0 <= i < |p.literals| && OccursIgnoringCase(text, p.literals[i])
  }

  /** Compiles a category's keywords: one quoted literal per keyword, in order. */
  function Compile(keywords: seq<CategoryKeyword>): (p: Pattern)
    ensures |p.literals| == |keywords|
    ensures forall i :: 0 <= i < |keywords| ==> p.literals[i] == keywords[i].keyword
  {
    Alternation(Map(keywords, (k: CategoryKeyword) => k.keyword))
  }

  /** A case-insensitive occurrence is an occurrence of the lower-cased
      literal in the lower-cased text, and conversely. */
  lemma OccursIgnoringCaseIffLowerContains(text: string, lit: string)
    ensures OccursIgnoringCase(text, lit) <==> Contains(ToLower(text), ToLower(lit))
  {
    forall i | 0 <= i <= |text|
      ensures MatchesAtIgnoringCase(text, lit, i) <==> StartsAt(ToLower(text), ToLower(lit), i)
    {
      if i + |lit| <= |text| {
        EqualsIgnoreCaseIffSameLower(text[i..i + |lit|], lit);
        ToLowerSlice(text, i, i + |lit|);
      }
    }
  }

  /** Whether a pattern finds a match does not depend on the case of the text. */
  lemma FindCaseInvariant(p: Pattern, text: string, recased: string)
    requires EqualsIgnoreCase(text, recased)
    ensures Find(p, text) <==> Find(p, recased)
  {
    EqualsIgnoreCaseIffSameLower(text, recased);
    forall i | 0 <= i < |p.literals|
      ensures OccursIgnoringCase(text, p.literals[i]) <==> OccursIgnoringCase(recased, p.literals[i])
    {
      OccursIgnoringCaseIffLowerContains(text, p.literals[i]);
      OccursIgnoringCaseIffLowerContains(recased, p.literals[i]);
    }
  }

  /** The regex strategy: the category-name-to-pattern table built at construction. */
  datatype RegexStrategy = RegexStrategy(categoryToPattern: map<string, Pattern>)

  /** No later category in `cats` has the same name as `cats[i]`. */
  predicate LastWithName(cats: seq<Category>, i: int)
    requires 0 <= i < |cats|
  {
    forall j :: i < j < |cats| ==> cats[j].name != cats[i].name
  }

  /** Puts each category's compiled pattern under its name, in catalog order,
      so that a later category replaces an earlier one with the same name. */
  function BuildTable(cats: seq<Category>): (m: map<string, Pattern>)
    ensures forall n :: n in m <==> n in Names(cats)
    ensures forall i :: 0 <= i < |cats| && LastWithName(cats, i) ==>
      cats[i].name in m && m[cats[i].name] == Compile(cats[i].keywords)
  {
    if |cats| == 0 then map[]
    else
      var prefix, last := cats[..|cats| - 1], cats[|cats| - 1];
      assert prefix + [last] == cats;
      var m := BuildTable(prefix);
      PutLastKeys(prefix, last, m);
      PutLastValues(prefix, last, m);
      m[last.name := Compile(last.keywords)]
  }

  /** Putting the last category over the table of the others gives the
      table of the whole sequence: first its keys, then its values. */
  lemma PutLastKeys(prefix: seq<Category>, last: Category, m: map<string, Pattern>)
    requires forall n :: n in m <==> n in Names(prefix)
    ensures forall n :: n in m[last.name := Compile(last.keywords)] <==> n in Names(prefix + [last])
  {
    assert Names(prefix + [last]) == Names(prefix) + [last.name];
  }

  lemma PutLastValues(prefix: seq<Category>, last: Category, m: map<string, Pattern>)
    requires forall n :: n in m <==> n in Names(prefix)
    requires forall i :: 0 <= i < |prefix| && LastWithName(prefix, i) ==> m[prefix[i].name] == Compile(prefix[i].keywords)
    ensures var cats, r := prefix + [last], m[last.name := Compile(last.keywords)];
      forall i :: 0 <= i < |cats| && LastWithName(cats, i) ==> cats[i].name in r && r[cats[i].name] == Compile(cats[i].keywords)
  {
    var cats, r := prefix + [last], m[last.name := Compile(last.keywords)];
    forall i | 0 <= i < |cats| && LastWithName(cats, i)
      ensures cats[i].name in r && r[cats[i].name] == Compile(cats[i].keywords)
    {
      if i < |prefix| {
        LastWithNameInPrefix(prefix, last, i);
        assert Names(prefix)[i] == prefix[i].name;
        assert cats[i] == prefix[i];
      } else {
        assert cats[i] == last;
      }
    }
  }

  /** The last category with its name among `prefix + [last]` is the last
      with its name in `prefix`, and is not named like `last`. */
  lemma LastWithNameInPrefix(prefix: seq<Category>, last: Category, i: int)
    requires 0 <= i < |prefix|
    requires LastWithName(prefix + [last], i)
    ensures LastWithName(prefix, i)
    ensures prefix[i].name != last.name
  {
    var cats := prefix + [last];
    forall j | i < j < |prefix|
      ensures prefix[j].name != prefix[i].name
    {
      assert cats[j] == prefix[j];
    }
    assert cats[|prefix|] == last;
  }

  /** The constructor: one pattern per catalog name, taken from the last
      category with that name. */
  function NewRegexStrategy(catalog: seq<Category>): (s: RegexStrategy)
    ensures forall n :: n in s.categoryToPattern <==> n in Names(catalog)
    ensures forall i :: 0 <= i < |catalog| && LastWithName(catalog, i) ==>
      s.categoryToPattern[catalog[i].name] == Compile(catalog[i].keywords)
  {
    RegexStrategy(BuildTable(catalog))
  }

  /** No name known to `table` occurs twice in `names`. */
  predicate KnownDistinct(table: map<string, Pattern>, names: seq<string>) {
    forall i, j :: 0 <= i < j < |names| && names[i] in table ==> names[i] != names[j]
  }

  /** The keys of `relevantPatterns`: the passed names that the table knows,
      collected in stream order. Collecting into a map without a merge
      function fails on the first known name that repeats an earlier one. */
  function RelevantNames(table: map<string, Pattern>, names: seq<string>): (r: Result<seq<string>>)
    ensures r.Success? <==> KnownDistinct(table, names)
    ensures r.Success? ==> NoDuplicates(r.value)
    ensures r.Success? ==> forall n :: n in r.value <==> n in names && n in table
    ensures r.Failure? ==> r.error.DuplicateKey? && r.error.name in table
    ensures r.Failure? ==> exists j :: (0 <= j < |names| && names[j] == r.error.name && names[j] in names[..j]
                                        && KnownDistinct(table, names[..j]))
  {
    if |names| == 0 then Success([])
    else
      var prefix := names[..|names| - 1];
      var n := names[|names| - 1];
      assert names[..|names| - 1] == prefix;
      match RelevantNames(table, prefix)
      case Failure(e) =>
        assert prefix[..|prefix|] == prefix;
        assert forall j :: 0 <= j < |prefix| ==> names[..j] == prefix[..j];
        Failure(e)
      case Success(keys) =>
        if n !in table then
          Success(keys)
        else if n in keys then
          assert names[..|names| - 1] == prefix;
          Failure(DuplicateKey(n))
        else
          Success(keys + [n])
  }

  /** `categorizeWebPage`: the names among the relevant keys whose pattern
      finds an occurrence in the page text (the Java code collects them in a
      `HashSet`, so their order is unspecified and only membership is
      promised). */
  function CategorizeWebPage(page: WebPageContent, table: map<string, Pattern>, keys: seq<string>): (r: UrlCategoryResult)
    requires forall n :: n in keys ==> n in table
    ensures r.url == page.url
    ensures forall n :: n in r.categories <==> n in keys && Find(table[n], page.content)
    ensures NoDuplicates(keys) ==> NoDuplicates(r.categories)
  {
    var matched := Filter(keys, (n: string) => n in table && Find(table[n], page.content));
    SubsequenceKeepsNoDuplicates(matched, keys);
    UrlCategoryResult(page.url, matched)
  }

  /** `RegexCategorizationStrategy.categorize`: fails when two passed
      categories share a name the strategy knows; otherwise gives one result
      per page, in page order, naming exactly the passed-and-known categories
      whose construction-time pattern finds a match, each once. */
  function Categorize(s: RegexStrategy, categories: seq<Category>, pages: seq<WebPageContent>): (r: Result<seq<UrlCategoryResult>>)
    ensures r.Failure? <==> !KnownDistinct(s.categoryToPattern, Names(categories))
    ensures r.Failure? ==> r.error.DuplicateKey?
    ensures r.Success? ==> |r.value| == |pages|
    ensures r.Success? ==> forall i :: 0 <= i < |pages| ==>
      && r.value[i].url == pages[i].url
      && NoDuplicates(r.value[i].categories)
      && forall n :: n in r.value[i].categories <==>
           n in Names(categories) && n in s.categoryToPattern && Find(s.categoryToPattern[n], pages[i].content)
  {
    var keys :- RelevantNames(s.categoryToPattern, Names(categories));
    Success(Map(pages, (p: WebPageContent) => CategorizeWebPage(p, s.categoryToPattern, keys)))
  }

  /** Matching uses the patterns compiled at construction: adding a keyword
      to a category after the strategy was built changes nothing. */
  lemma KeywordsAddedLaterIgnored(catalog: seq<Category>, i: int, k: CategoryKeyword, pages: seq<WebPageContent>)
    requires 0 <= i < |catalog|
    ensures var s := NewRegexStrategy(catalog);
      Categorize(s, catalog[i := AddKeyword(catalog[i], k)], pages) == Categorize(s, catalog, pages)
  {
    assert Names(catalog[i := AddKeyword(catalog[i], k)]) == Names(catalog);
  }

  /** A catalog category without keywords compiles to the empty pattern and
      is reported for every page, whatever its text. */
  lemma EmptyKeywordsAlwaysMatch(catalog: seq<Category>, i: int, categories: seq<Category>, pages: seq<WebPageContent>)
    requires 0 <= i < |catalog| && LastWithName(catalog, i)
    requires |catalog[i].keywords| == 0
    requires catalog[i].name in Names(categories)
    requires Categorize(NewRegexStrategy(catalog), categories, pages).Success?
    ensures forall p :: 0 <= p < |pages| ==>
      catalog[i].name in Categorize(NewRegexStrategy(catalog), categories, pages).value[p].categories
  {
    var s := NewRegexStrategy(catalog);
    assert catalog[i].name in Names(catalog);
  }
}
