# Keyword categorization engine, modelled in Dafny

This project models the categorization engine of a small web service. The
service fetches web pages and reports, for each page, which configured
categories it belongs to. A category is a name plus a list of keywords. The
keywords are stored lower-cased. A page belongs to a category when one of its
keywords occurs in the page text, ignoring case.

The model covers these parts of the engine:

- **Keywords and categories.** `CategoryKeyword` lower-cases whatever is
  written to it. `Category` is a name plus an append-only keyword list.
  `CategoryService.createCategory` builds a category from one configuration
  record.
- **Strategy selection.** `CategorizationStrategyType.fromString` looks the
  names NAIVE and REGEX up ignoring case. `createStrategy` builds the chosen
  strategy.
- **The naive strategy.** It lower-cases the page text and keeps the passed
  categories one of whose keywords is a substring of it. The names come out
  in category order.
- **The regex strategy.** At construction it compiles each catalog category
  into one case-insensitive alternation of its quoted keywords. When
  categorizing, it keeps the passed categories whose names it knows, collects
  them into a map, and reports the names whose pattern is found in the text.
- **`CategoryService.categorizeUrls`.** It turns the requested names into a
  set, keeps the catalog entries with those names in catalog order, and
  passes them to the active strategy.

Everything is immutable values and pure functions. Java setters become
functions that return the updated value. Each strategy runs one task per page
and joins the tasks in list order, so each is modelled as a sequential map
over the pages. The regex engine is modelled by what a quoted alternation
means: a case-insensitive literal search for any alternative. Case folding
is ASCII (`Pattern.CASE_INSENSITIVE` without `UNICODE_CASE`). The regex
strategy collects names in a `HashSet`, so its contracts promise membership
and uniqueness, not order.

Modules, one file each: `Text` (lower-casing, case-insensitive equality,
substring search), `Seqs` (map, filter, subsequences), `Results` (the error
type), `Model` (the entities), `Naive`, `Regex`, `Strategies` (enum lookup
and dispatch), `Service`, `Agreement` (the two strategies compared) and
`Scenarios` (the unit-test scenarios, proved for any URL).

Both strategies implement the one `CategorizationStrategy` interface, but
they do not decide the same way on every input. They differ in five ways:

- A category with no keywords compiles to the empty pattern, which the regex
  strategy finds in every page; the naive `anyMatch` over no keywords is
  false, so the naive strategy never reports it.
- The regex strategy ignores passed categories whose names were not in the
  catalog it was built from.
- The regex strategy fails when two passed categories share a name it knows.
- The regex strategy keeps the patterns compiled at construction, so keywords
  added to a category afterwards do not count.
- The naive strategy lower-cases the page with `String.toLowerCase`, which
  maps non-ASCII letters and follows the default locale. The regex strategy
  folds case with `Pattern.CASE_INSENSITIVE` without `UNICODE_CASE`, which
  folds ASCII letters only. So a keyword "café" is found in a page "CAFÉ" by
  the naive strategy and not by the regex one. Under a Turkish locale the
  page "IT" lower-cases to "ıt" with a dotless ı, so the naive strategy
  misses the keyword "it" that the regex strategy finds. The model folds
  ASCII only, so it does not show this difference.

`Agreement.StrategiesAgree` proves that the two agree, page by page, on the
set of matched names when catalog names are distinct, every category has at
least one keyword, and every keyword is lower case, which `createCategory`
always produces. That rules out the first four differences; the fifth is
outside the model (see "## Left out").

Keywords are kept in a list, not a set: adding the same keyword twice keeps
both copies. A naive result can repeat a name, when two passed categories
share it and both match; the model proves that no name repeats only when the
passed names are distinct.

## Model

| member | source | states |
|---|---|---|
| Text.ContainsImpl | src/main/java/com/categorize/service/strategy/NaiveCategorizationStrategy.java:49 | the substring search finds a match exactly when `sub` occurs at some offset of `text` |
| Text.ToLower | src/main/java/com/categorize/model/CategoryKeyword.java:11 | lower-casing keeps the length, leaves no upper-case letter, equals `s` ignoring case (so each letter becomes its own lower-case form), and leaves an all-lower-case string unchanged |
| Text.ToLowerIdempotent | src/main/java/com/categorize/model/CategoryKeyword.java:11 | lower-casing an already lower-cased string changes nothing |
| Text.EqualsIgnoreCaseIffSameLower | src/main/java/com/categorize/service/strategy/CategorizationStrategyType.java:20 | two strings are equal ignoring case exactly when their lower-cased forms are equal |
| Model.NewKeyword | src/main/java/com/categorize/model/CategoryKeyword.java:10-12 | a new keyword is all lower case and equals its argument ignoring case; an already lower-case argument is stored unchanged |
| Model.SetKeyword | src/main/java/com/categorize/model/CategoryKeyword.java:18-20 | after the setter the keyword is all lower case and equals the new argument ignoring case, whatever it held before |
| Model.KeywordAlwaysLower | src/main/java/com/categorize/model/CategoryKeyword.java:10-20 | after the constructor and any number of setter calls, the keyword is lower case and is the last written string lower-cased |
| Model.NewCategory | src/main/java/com/categorize/model/Category.java:13-16 | a new category has the given name and no keywords |
| Model.AddKeyword | src/main/java/com/categorize/model/Category.java:30-32 | appends exactly one keyword at the end; earlier keywords and the name are unchanged; lower-case keywords stay lower case |
| Model.AddKeywordKeepsDuplicates | src/main/java/com/categorize/model/Category.java:30-32 | keywords form a list: adding the same keyword twice raises its count by two |
| Naive.AnyKeywordContained | src/main/java/com/categorize/service/strategy/NaiveCategorizationStrategy.java:47-49 | true exactly when some keyword of the list is a substring of the text; false for an empty list |
| Naive.CategorizeSinglePage | src/main/java/com/categorize/service/strategy/NaiveCategorizationStrategy.java:44-53 | the result carries the page URL; its names are exactly those of the passed categories having a keyword in the lower-cased text, in category order and with repeats; so a name is reported iff such a category has it, and no name repeats when passed names are distinct |
| Naive.Categorize | src/main/java/com/categorize/service/strategy/NaiveCategorizationStrategy.java:34-42 | one result per page, in page order, each with its page's URL and equal to that page categorized alone |
| Naive.CategorizeAppend | src/main/java/com/categorize/service/strategy/NaiveCategorizationStrategy.java:35-39 | pages are categorized independently: categorizing a joined list gives the joined results |
| Naive.CaseInvariant | src/main/java/com/categorize/service/strategy/NaiveCategorizationStrategy.java:45-49 | changing the case of the page text does not change the page's result |
| Naive.EmptyKeywordsNeverMatch | src/main/java/com/categorize/service/strategy/NaiveCategorizationStrategy.java:47-49 | a name whose categories have no keywords is never reported |
| Regex.Compile | src/main/java/com/categorize/service/strategy/RegexCategorizationStrategy.java:33-34 | the pattern has one literal alternative per keyword, in keyword order, equal to that keyword |
| Regex.OccursIgnoringCaseIffLowerContains | src/main/java/com/categorize/service/strategy/RegexCategorizationStrategy.java:34 | a case-insensitive occurrence of a literal is exactly an occurrence of the lower-cased literal in the lower-cased text |
| Regex.FindCaseInvariant | src/main/java/com/categorize/service/strategy/RegexCategorizationStrategy.java:73 | whether a pattern is found does not depend on the case of the text |
| Regex.BuildTable | src/main/java/com/categorize/service/strategy/RegexCategorizationStrategy.java:31-36 | the table's keys are exactly the catalog names; each name maps to the pattern of the last category with that name |
| Regex.NewRegexStrategy | src/main/java/com/categorize/service/strategy/RegexCategorizationStrategy.java:30-38 | the strategy knows exactly the catalog names, each with the compiled keywords of the last category so named |
| Regex.RelevantNames | src/main/java/com/categorize/service/strategy/RegexCategorizationStrategy.java:49-51 | succeeds iff no known name is passed twice; then yields each passed known name once; on failure names a known name repeated after a duplicate-free prefix |
| Regex.CategorizeWebPage | src/main/java/com/categorize/service/strategy/RegexCategorizationStrategy.java:69-78 | the result carries the page URL; a name is reported iff it is a relevant key whose pattern is found; no name repeats |
| Regex.Categorize | src/main/java/com/categorize/service/strategy/RegexCategorizationStrategy.java:48-60 | fails iff two passed categories share a known name; otherwise one result per page, in page order, with its URL, naming once each passed and known name whose pattern is found |
| Regex.KeywordsAddedLaterIgnored | src/main/java/com/categorize/service/strategy/RegexCategorizationStrategy.java:30-51 | adding a keyword to a category after construction leaves every result unchanged |
| Regex.EmptyKeywordsAlwaysMatch | src/main/java/com/categorize/service/strategy/RegexCategorizationStrategy.java:33-75 | a passed catalog category without keywords is reported for every page |
| Strategies.FirstNamed | src/main/java/com/categorize/service/strategy/CategorizationStrategyType.java:19-24 | finds a listed constant whose name equals the input ignoring case; fails with the input iff no constant's name does |
| Strategies.FromString | src/main/java/com/categorize/service/strategy/CategorizationStrategyType.java:18-25 | NAIVE iff the input is "naive" in any case, REGEX iff it is "regex" in any case, an unknown-strategy error otherwise |
| Strategies.FromStringRoundTrip | src/main/java/com/categorize/service/strategy/CategorizationStrategyType.java:18-23 | every constant is found again from its own name |
| Strategies.FromStringCaseInvariant | src/main/java/com/categorize/service/strategy/CategorizationStrategyType.java:20 | success and the constant found do not depend on the case of the input |
| Strategies.CreateStrategy | src/main/java/com/categorize/service/CategoryService.java:60-69 | NAIVE gives the naive strategy; REGEX gives a regex strategy knowing exactly the catalog names with their compiled keywords |
| Strategies.Categorize | src/main/java/com/categorize/service/CategoryService.java:128 | the naive strategy never fails; a result has one entry per page, in page order, with its URL, naming only passed categories |
| Service.AddKeywords | src/main/java/com/categorize/service/CategoryService.java:97 | appends one keyword per configured string, in order, each being that string lower-cased, so lower case and equal to it ignoring case; earlier keywords and the name are kept |
| Service.CreateCategory | src/main/java/com/categorize/service/CategoryService.java:95-99 | copies the name and stores one keyword per configured keyword, in order, each being the configured string lower-cased and so equal to it ignoring case |
| Service.LowerEqualIgnoringCaseIsToLower | src/main/java/com/categorize/service/CategoryService.java:97 | a lower-case string equal to `s` ignoring case is `s` lower-cased, so the stored keywords are determined by the record |
| Service.CreateCategoryCaseInsensitive | src/main/java/com/categorize/service/CategoryService.java:95-99 | records that differ only in the case of their keywords give the same category |
| Service.InitializeCategories | src/main/java/com/categorize/service/CategoryService.java:82 | one well-formed category per configuration record, in record order |
| Service.NewService | src/main/java/com/categorize/service/CategoryService.java:51-58 | fails with an unknown-strategy error iff the name is neither strategy in any case; otherwise holds the catalog of the records and the strategy named |
| Service.SelectCategories | src/main/java/com/categorize/service/CategoryService.java:123-126 | keeps exactly the catalog entries whose name is requested, in catalog order, with their multiplicities |
| Service.CategorizeUrls | src/main/java/com/categorize/service/CategoryService.java:122-131 | wraps exactly the strategy's result for the selected categories; one result per page with its URL, naming only requested catalog names; never fails under the naive strategy |
| Service.SelectedNames | src/main/java/com/categorize/service/CategoryService.java:123-126 | every selected name is requested and belongs to the catalog |
| Service.RequestedNamesActAsSet | src/main/java/com/categorize/service/CategoryService.java:123 | repeating or reordering the requested names does not change the response |
| Service.UnknownNamesIgnored | src/main/java/com/categorize/service/CategoryService.java:123-126 | requesting a name the catalog lacks is not an error and does not change the response |
| Agreement.MatcherAgreement | src/main/java/com/categorize/service/strategy/RegexCategorizationStrategy.java:72-75 | for a category with lower-case keywords and at least one keyword, the compiled pattern is found iff the naive substring test succeeds |
| Agreement.EmptyKeywordsDiverge | src/main/java/com/categorize/service/strategy/RegexCategorizationStrategy.java:33-34 | without keywords the regex pattern is found in every text and the naive test fails on every text |
| Agreement.PageAgreement | src/main/java/com/categorize/service/strategy/RegexCategorizationStrategy.java:72-75 | for categories drawn from a suitable catalog, a name passes the regex test iff some passed category so named passes the naive test |
| Agreement.SelectedAgree | src/main/java/com/categorize/service/strategy/RegexCategorizationStrategy.java:48-60 | on a subsequence of a catalog with distinct names and non-empty lower-case keywords, the regex strategy succeeds and reports the same names per page as the naive one |
| Agreement.StrategiesAgree | src/main/java/com/categorize/service/CategoryService.java:122-131 | under those catalog conditions both services answer every request, with the same URLs in the same order and the same matched names per page |
| Scenarios.SingleMatch | src/test/java/com/categorize/service/strategy/NaiveCategorizationStrategyTest.java:36-45 | "computer programming" yields exactly one result, for its URL, naming only Technology |
| Scenarios.MultipleMatches | src/test/java/com/categorize/service/strategy/NaiveCategorizationStrategyTest.java:47-57 | "computer software and basketball" yields Technology and Sports |
| Scenarios.NoMatch | src/test/java/com/categorize/service/strategy/NaiveCategorizationStrategyTest.java:59-67 | "cooking and recipes" still yields a result for its URL, with no names |
| Scenarios.MultiplePages | src/test/java/com/categorize/service/strategy/NaiveCategorizationStrategyTest.java:69-89 | three pages yield three results in page order: Technology, Sports, and none |
| Scenarios.StrategyNames | src/main/java/com/categorize/service/strategy/CategorizationStrategyType.java:18-25 | "naive" and "Regex" are found; "fuzzy" is rejected with an unknown-strategy error |

## Left out

- `WebPageService`: fetching pages over the network, HTML parsing, its thread pool and its deadline loop. Pages enter the model as given values.
- The executors and `CompletableFuture` fan-out in both strategies: each is modelled as a sequential map over pages, joined in list order.
- Loading `categories.json` in `initializeCategories`: the configuration records are a parameter. The I/O failure and the exception it raises are not modelled.
- Spring wiring and `setStrategy`: a different strategy is a different `CategoryService` value.
- Controllers and the request, response and record beans: they appear only as plain datatypes. `Category.setName` and the other plain setters are not modelled.
- Null inputs are not modelled. In Java, a null keyword, or a null keyword list in a configuration record, throws a `NullPointerException` in `createCategory`. A null page text throws in the naive strategy, and in the regex strategy once a known category is passed; with no known category the regex strategy returns an empty result. A null category name throws nowhere: the sets and maps accept it as an ordinary key. The model's names are strings, so it cannot express one. `fromString(null)` does not throw a `NullPointerException`: `equalsIgnoreCase(null)` is false, so it fails with the unknown-strategy error, and the model's `UnknownStrategy` covers that case.
- The `default` branch of `createStrategy`: the enum has only two constants, so it cannot be reached.
- Exception message texts: errors are the values `UnknownStrategy(value)` and `DuplicateKey(name)`.
- Regex.Find: models the Java regular-expression engine only for a quoted alternation, by its meaning: a literal search for any alternative, folding ASCII case. Matching, backtracking and the other pattern syntax are not modelled.
- The executor thread pools are never shut down; this leak has no counterpart in a pure model.
- Text.ToLower: folds ASCII letters only, while Java's `String.toLowerCase` also maps non-ASCII letters and depends on the default locale.
- Agreement.MatcherAgreement: the Java matchers agree only on ASCII text and keywords, in a locale without special case rules, because the naive strategy lower-cases with locale-dependent Unicode rules and the regex one folds ASCII case only.
- Agreement.PageAgreement: the Java strategies agree on a page only for ASCII text and keywords, in a locale without special case rules (see Agreement.MatcherAgreement).
- Agreement.SelectedAgree: the Java strategies agree only for ASCII text and keywords, in a locale without special case rules (see Agreement.MatcherAgreement).
- Agreement.StrategiesAgree: the Java services agree only for ASCII text and keywords, in a locale without special case rules (see Agreement.MatcherAgreement).
- Strategies.FromString: uses ASCII case folding, so it rejects non-ASCII spellings that Java's `equalsIgnoreCase` accepts, such as a dotless ı in "naıve".
- Regex.CategorizeWebPage: promises which names are reported and that none repeats, not their order, because the Java code collects them in a `HashSet`.
- The scenario lemmas fix the page texts of the unit tests but hold for any URL.
- The performance test and the integration tests: they measure timing or need a running server and live websites.
