/**
  Strategy selection: the `CategorizationStrategyType` enum, its
  case-insensitive lookup by name, and dispatch of `categorize` to the
  naive or the regex strategy.
 */
module Strategies {
  import opened Text
  import opened Results
  import opened Model
  import Naive
  import Regex

  /** The configurable strategies, named as the enum constants. */
  datatype StrategyType = NAIVE | REGEX

  /** `name()`: the constant's declared name. */
  function Name(t: StrategyType): string {
    match t
    case NAIVE => "NAIVE"
    case REGEX => "REGEX"
  }

  /** `values()`, in declaration order. */
  const AllTypes: seq<StrategyType> := [NAIVE, REGEX]

  /** Scans `types` in order for the first whose name equals `value`
      ignoring case; fails when none does. */
  function FirstNamed(types: seq<StrategyType>, value: string): (r: Result<StrategyType>)
    ensures r.Success? ==> r.value in types && EqualsIgnoreCase(Name(r.value), value)
    ensures r.Failure? <==> forall t :: t in types ==> !EqualsIgnoreCase(Name(t), value)
    ensures r.Failure? ==> r.error == UnknownStrategy(value)
  {
    if |types| == 0 then Failure(UnknownStrategy(value))
    else if EqualsIgnoreCase(Name(types[0]), value) then Success(types[0])
    else
      assert forall t :: t in types ==> t == types[0] || t in types[1..];
      FirstNamed(types[1..], value)
  }

  /** `CategorizationStrategyType.fromString`: NAIVE for any casing of
      "naive", REGEX for any casing of "regex", and an unknown-strategy
      error for every other string. */
  function FromString(value: string): (r: Result<StrategyType>)
    ensures r == Success(NAIVE) <==> EqualsIgnoreCase("NAIVE", value)
    ensures r == Success(REGEX) <==> EqualsIgnoreCase("REGEX", value)
    ensures r.Failure? <==> !EqualsIgnoreCase("NAIVE", value) && !EqualsIgnoreCase("REGEX", value)
    ensures r.Failure? ==> r.error == UnknownStrategy(value)
  {
    NamesDifferIgnoringCase(value);
    assert REGEX in AllTypes && Name(REGEX) == "REGEX";
    FirstNamed(AllTypes, value)
  }

  /** No string equals both constant names ignoring case. */
  lemma NamesDifferIgnoringCase(value: string)
    ensures !(EqualsIgnoreCase("NAIVE", value) && EqualsIgnoreCase("REGEX", value))
  {
    assert LowerChar("NAIVE"[0]) != LowerChar("REGEX"[0]);
  }

  /** Every strategy is found again from its own name. */
  lemma FromStringRoundTrip(t: StrategyType)
    ensures FromString(Name(t)) == Success(t)
  {
  }

  /** Whether the lookup succeeds, and what it finds, does not depend on
      the case of the input. */
  lemma FromStringCaseInvariant(a: string, b: string)
    requires EqualsIgnoreCase(a, b)
    ensures FromString(a).Success? <==> FromString(b).Success?
    ensures FromString(a).Success? ==> FromString(a).value == FromString(b).value
  {
    EqualsIgnoreCaseIffSameLower(a, b);
    EqualsIgnoreCaseIffSameLower("NAIVE", a);
    EqualsIgnoreCaseIffSameLower("NAIVE", b);
    EqualsIgnoreCaseIffSameLower("REGEX", a);
    EqualsIgnoreCaseIffSameLower("REGEX", b);
  }

  /** A strategy ready to categorize: the naive one, or a regex one with its
      pattern table. */
  datatype Strategy = UseNaive | UseRegex(regex: Regex.RegexStrategy)

  /** `createStrategy`: NAIVE gives the naive strategy; REGEX gives a regex
      strategy compiled from the whole catalog. */
  function CreateStrategy(t: StrategyType, catalog: seq<Category>): (s: Strategy)
    ensures t == NAIVE <==> s.UseNaive?
    ensures s.UseRegex? ==> forall n :: n in s.regex.categoryToPattern <==> n in Names(catalog)
    ensures s.UseRegex? ==> forall i :: 0 <= i < |catalog| && Regex.LastWithName(catalog, i) ==>
      s.regex.categoryToPattern[catalog[i].name] == Regex.Compile(catalog[i].keywords)
  {
    match t
    case NAIVE => UseNaive
    case REGEX => UseRegex(Regex.NewRegexStrategy(catalog))
  }

  /** `strategy.categorize(categories, pages)`. Both strategies share the
      outward contract: one result per page, in page order, carrying the
      page's URL, and naming only categories that were passed in. Only the
      regex strategy can fail. */
  function Categorize(s: Strategy, categories: seq<Category>, pages: seq<WebPageContent>): (r: Result<seq<UrlCategoryResult>>)
    ensures s.UseNaive? ==> r.Success?
    ensures r.Success? ==> |r.value| == |pages|
    ensures r.Success? ==> forall i :: 0 <= i < |pages| ==> r.value[i].url == pages[i].url
    ensures r.Success? ==> forall i, n :: 0 <= i < |pages| && n in r.value[i].categories ==> n in Names(categories)
  {
    match s
    case UseNaive =>
      var results := Naive.Categorize(categories, pages);
      NaiveNamesArePassed(categories, results);
      Success(results)
    case UseRegex(regex) =>
      Regex.Categorize(regex, categories, pages)
  }

  /** Every name in a naive result is the name of a passed category. */
  lemma NaiveNamesArePassed(categories: seq<Category>, results: seq<UrlCategoryResult>)
    requires forall i :: 0 <= i < |results| ==>
      forall n :: n in results[i].categories ==> exists c :: c in categories && c.name == n
    ensures forall i, n :: 0 <= i < |results| && n in results[i].categories ==> n in Names(categories)
  {
    forall i, n | 0 <= i < |results| && n in results[i].categories
      ensures n in Names(categories)
    {
      var c :| c in categories && c.name == n;
      var j :| 0 <= j < |categories| && categories[j] == c;
      assert Names(categories)[j] == n;
    }
  }
}
