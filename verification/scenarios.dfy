/**
  The scenarios of the naive strategy's unit tests, proved about the model:
  a "Technology" category (computer, software) and a "Sports" category
  (football, basketball), categorizing pages that match one, both, or
  neither. Page texts are written as concatenations so that the keyword
  positions are visible.
 */
module Scenarios {
  import opened Text
  import opened Seqs
  import opened Results
  import opened Model
  import opened Strategies
  import Naive

  function Technology(): (c: Category)
    ensures c.name == "Technology"
    ensures c.keywords == [NewKeyword("computer"), NewKeyword("software")]
  {
    AddKeyword(AddKeyword(NewCategory("Technology"), NewKeyword("computer")), NewKeyword("software"))
  }

  function Sports(): (c: Category)
    ensures c.name == "Sports"
    ensures c.keywords == [NewKeyword("football"), NewKeyword("basketball")]
  {
    AddKeyword(AddKeyword(NewCategory("Sports"), NewKeyword("football")), NewKeyword("basketball"))
  }

  function TestCategories(): seq<Category> {
    [Technology(), Sports()]
  }

  /** The test pages all start with this phrase; the rest of each page is
      written as a concatenation of short pieces. */
  const Intro: string := "This page is about "

  const ProgrammingText: string := "computer" + " programming" + "."
  const SoftwareBasketballText: string := "computer" + " software and " + "basketball" + "."
  const FootballBasketballText: string := "football" + " and " + "basketball" + "."
  const CookingText: string := "cooking" + " and " + "recipes" + "."

  /** The lower-cased text of a page made of the intro and lower-case pieces. */
  lemma LowerIntro(rest: string)
    requires IsLower(rest)
    ensures ToLower(Intro + rest) == "this page is about " + rest
  {
    ToLowerConcat(Intro, rest);
  }

  /** A lower-case keyword placed in a page is found by the naive test. */
  lemma KeywordPlaced(c: Category, i: int, pre: string, post: string)
    requires 0 <= i < |c.keywords| && c.keywords[i].Valid()
    requires IsLower(pre) && IsLower(post)
    ensures Naive.KeywordIn(c, Intro + (pre + c.keywords[i].keyword + post))
  {
    var k := c.keywords[i].keyword;
    var rest := pre + k + post;
    assert IsLower(rest);
    LowerIntro(rest);
    assert "this page is about " + rest == ("this page is about " + pre) + k + post;
    ContainsInfix("this page is about " + pre, k, post);
  }

  /** A two-keyword category is not matched when each keyword has a
      character that neither the lower-cased intro nor the rest of the page
      contains. */
  lemma KeywordsAbsent(c: Category, rest: string, m0: char, m1: char)
    requires IsLower(rest)
    requires |c.keywords| == 2
    requires m0 in c.keywords[0].keyword && m1 in c.keywords[1].keyword
    requires m0 !in "this page is about " && m0 !in rest
    requires m1 !in "this page is about " && m1 !in rest
    ensures !Naive.KeywordIn(c, Intro + rest)
  {
    LowerIntro(rest);
    NotContainsMissingChar("this page is about " + rest, c.keywords[0].keyword, m0);
    NotContainsMissingChar("this page is about " + rest, c.keywords[1].keyword, m1);
  }

  /** Joining lower-case pieces gives a lower-case string. */
  lemma LowerJoin(a: string, b: string)
    requires IsLower(a) && IsLower(b)
    ensures IsLower(a + b)
  {
  }

  // Facts about the literal pieces of the test pages, one small group at a
  // time (kept apart so that each stays cheap for the solver). A page rules
  // a keyword out through a character the keyword has and the page lacks:
  // 'f', 'k' or 'l' for the Sports keywords, 'm' or 'w' for Technology's.

  lemma IntroLacksFkl()
    ensures 'f' !in "this page is about " && 'k' !in "this page is about " && 'l' !in "this page is about "
  {
  }

  lemma IntroLacksMw()
    ensures 'm' !in "this page is about " && 'w' !in "this page is about "
  {
  }

  lemma ComputerPiece()
    ensures IsLower("computer") && 'f' !in "computer" && 'k' !in "computer"
  {
  }

  lemma SoftwarePiece()
    ensures IsLower(" software and ")
  {
  }

  lemma ProgrammingPiece()
    ensures IsLower(" programming") && 'f' !in " programming" && 'k' !in " programming"
  {
  }

  lemma FootballPiece()
    ensures IsLower("football") && 'm' !in "football" && 'w' !in "football"
  {
  }

  lemma BasketballPiece()
    ensures IsLower("basketball") && 'm' !in "basketball" && 'w' !in "basketball"
  {
  }

  lemma AndPiece()
    ensures IsLower(" and ")
    ensures 'f' !in " and " && 'l' !in " and " && 'm' !in " and " && 'w' !in " and "
  {
  }

  lemma CookingPiece()
    ensures IsLower("cooking")
    ensures 'f' !in "cooking" && 'l' !in "cooking" && 'm' !in "cooking" && 'w' !in "cooking"
  {
  }

  lemma RecipesPiece()
    ensures IsLower("recipes")
    ensures 'f' !in "recipes" && 'l' !in "recipes" && 'm' !in "recipes" && 'w' !in "recipes"
  {
  }

  lemma DotPiece()
    ensures IsLower(".") && 'f' !in "." && 'k' !in "." && 'l' !in "." && 'm' !in "." && 'w' !in "."
  {
  }

  /** The keywords of the two test categories, as the test builds them. */
  lemma TestKeywords()
    ensures Technology().keywords[0].keyword == "computer"
    ensures Technology().keywords[1].keyword == "software"
    ensures Sports().keywords[0].keyword == "football"
    ensures Sports().keywords[1].keyword == "basketball"
  {
    ComputerPiece();
    FootballPiece();
    BasketballPiece();
    assert IsLower("software");
  }

  // Which test category each test page matches, one category at a time.

  lemma ProgrammingTechnology()
    ensures Naive.KeywordIn(Technology(), Intro + ProgrammingText)
  {
    TestKeywords();
    ProgrammingPiece();
    DotPiece();
    LowerJoin(" programming", ".");
    KeywordPlaced(Technology(), 0, "", " programming" + ".");
    assert "" + "computer" + (" programming" + ".") == ProgrammingText;
  }

  lemma ProgrammingNotSports()
    ensures !Naive.KeywordIn(Sports(), Intro + ProgrammingText)
  {
    TestKeywords();
    IntroLacksFkl();
    ComputerPiece();
    ProgrammingPiece();
    DotPiece();
    LowerJoin("computer", " programming");
    LowerJoin("computer" + " programming", ".");
    KeywordsAbsent(Sports(), ProgrammingText, 'f', 'k');
  }

  /** The software page after its first keyword. */
  lemma SoftwareBasketballTail()
    ensures IsLower(" software and " + "basketball" + ".")
    ensures "" + "computer" + (" software and " + "basketball" + ".") == SoftwareBasketballText
  {
    SoftwarePiece();
    BasketballPiece();
    DotPiece();
    LowerJoin(" software and ", "basketball");
    LowerJoin(" software and " + "basketball", ".");
  }

  lemma SoftwareBasketballTechnology()
    ensures Naive.KeywordIn(Technology(), Intro + SoftwareBasketballText)
  {
    TestKeywords();
    SoftwareBasketballTail();
    KeywordPlaced(Technology(), 0, "", " software and " + "basketball" + ".");
  }

  lemma SoftwareBasketballSports()
    ensures Naive.KeywordIn(Sports(), Intro + SoftwareBasketballText)
  {
    TestKeywords();
    ComputerPiece();
    SoftwarePiece();
    DotPiece();
    LowerJoin("computer", " software and ");
    KeywordPlaced(Sports(), 1, "computer" + " software and ", ".");
  }

  lemma FootballBasketballNotTechnology()
    ensures !Naive.KeywordIn(Technology(), Intro + FootballBasketballText)
  {
    TestKeywords();
    IntroLacksMw();
    FootballPiece();
    AndPiece();
    BasketballPiece();
    DotPiece();
    LowerJoin(" and ", "basketball");
    LowerJoin(" and " + "basketball", ".");
    LowerJoin("football", " and " + "basketball" + ".");
    assert "football" + (" and " + "basketball" + ".") == FootballBasketballText;
    KeywordsAbsent(Technology(), FootballBasketballText, 'm', 'w');
  }

  lemma FootballBasketballSports()
    ensures Naive.KeywordIn(Sports(), Intro + FootballBasketballText)
  {
    TestKeywords();
    AndPiece();
    BasketballPiece();
    DotPiece();
    LowerJoin(" and ", "basketball");
    LowerJoin(" and " + "basketball", ".");
    KeywordPlaced(Sports(), 0, "", " and " + "basketball" + ".");
    assert "" + "football" + (" and " + "basketball" + ".") == FootballBasketballText;
  }

  /** The lower-case text of the cooking page. */
  lemma CookingLower()
    ensures IsLower(CookingText)
  {
    CookingPiece();
    AndPiece();
    RecipesPiece();
    DotPiece();
    LowerJoin("cooking", " and ");
    LowerJoin("cooking" + " and ", "recipes");
    LowerJoin("cooking" + " and " + "recipes", ".");
  }

  lemma CookingNotTechnology()
    ensures !Naive.KeywordIn(Technology(), Intro + CookingText)
  {
    TestKeywords();
    IntroLacksMw();
    CookingPiece();
    AndPiece();
    RecipesPiece();
    DotPiece();
    CookingLower();
    KeywordsAbsent(Technology(), CookingText, 'm', 'w');
  }

  lemma CookingNotSports()
    ensures !Naive.KeywordIn(Sports(), Intro + CookingText)
  {
    TestKeywords();
    IntroLacksFkl();
    CookingPiece();
    AndPiece();
    RecipesPiece();
    DotPiece();
    CookingLower();
    KeywordsAbsent(Sports(), CookingText, 'f', 'l');
  }

  /** The result two categories named like the test categories give for a
      page, given which of them match. */
  lemma ReportedNames(t: Category, sp: Category, page: WebPageContent, tech: bool, sports: bool)
    requires t.name == "Technology" && sp.name == "Sports"
    requires Naive.KeywordIn(t, page.content) == tech
    requires Naive.KeywordIn(sp, page.content) == sports
    ensures Naive.CategorizeSinglePage([t, sp], page) ==
      UrlCategoryResult(page.url, (if tech then ["Technology"] else []) + (if sports then ["Sports"] else []))
  {
    var matches := (c: Category) => Naive.KeywordIn(c, page.content);
    assert [t, sp][1..] == [sp];
    assert [sp][1..] == [];
    assert Filter([sp], matches) == (if sports then [sp] else []);
    var kept := Filter([t, sp], matches);
    assert kept == (if tech then [t] + Filter([sp], matches) else Filter([sp], matches));
    assert kept == (if tech then [t] else []) + (if sports then [sp] else []);
    assert Names(kept) == (if tech then ["Technology"] else []) + (if sports then ["Sports"] else []);
  }

  /** A one-page list is categorized to that page's result. */
  lemma OnePage(categories: seq<Category>, page: WebPageContent, result: UrlCategoryResult)
    requires Naive.CategorizeSinglePage(categories, page) == result
    ensures Naive.Categorize(categories, [page]) == [result]
  {
  }

  /** The result for a page matched by both categories named like the test
      categories: both names, in catalog order. */
  lemma BothReported(t: Category, sp: Category, page: WebPageContent)
    requires t.name == "Technology" && sp.name == "Sports"
    requires Naive.KeywordIn(t, page.content) && Naive.KeywordIn(sp, page.content)
    ensures Naive.CategorizeSinglePage([t, sp], page) == UrlCategoryResult(page.url, ["Technology", "Sports"])
  {
    ReportedNames(t, sp, page, true, true);
    assert ["Technology"] + ["Sports"] == ["Technology", "Sports"];
  }

  lemma ProgrammingResult(url: string)
    ensures Naive.CategorizeSinglePage(TestCategories(), WebPageContent(url, Intro + ProgrammingText))
      == UrlCategoryResult(url, ["Technology"])
  {
    ProgrammingTechnology();
    ProgrammingNotSports();
    ReportedNames(Technology(), Sports(), WebPageContent(url, Intro + ProgrammingText), true, false);
  }

  lemma SoftwareBasketballResult(url: string)
    ensures Naive.CategorizeSinglePage(TestCategories(), WebPageContent(url, Intro + SoftwareBasketballText))
      == UrlCategoryResult(url, ["Technology", "Sports"])
  {
    SoftwareBasketballTechnology();
    SoftwareBasketballSports();
    BothReported(Technology(), Sports(), WebPageContent(url, Intro + SoftwareBasketballText));
  }

  lemma FootballBasketballResult(url: string)
    ensures Naive.CategorizeSinglePage(TestCategories(), WebPageContent(url, Intro + FootballBasketballText))
      == UrlCategoryResult(url, ["Sports"])
  {
    FootballBasketballNotTechnology();
    FootballBasketballSports();
    ReportedNames(Technology(), Sports(), WebPageContent(url, Intro + FootballBasketballText), false, true);
  }

  lemma CookingResult(url: string)
    ensures Naive.CategorizeSinglePage(TestCategories(), WebPageContent(url, Intro + CookingText))
      == UrlCategoryResult(url, [])
  {
    CookingNotTechnology();
    CookingNotSports();
    ReportedNames(Technology(), Sports(), WebPageContent(url, Intro + CookingText), false, false);
  }

  /** "This page is about computer programming." matches Technology only,
      whatever the page's URL. */
  lemma SingleMatch(url: string)
    ensures Naive.Categorize(TestCategories(), [WebPageContent(url, Intro + ProgrammingText)])
      == [UrlCategoryResult(url, ["Technology"])]
  {
    ProgrammingResult(url);
    OnePage(TestCategories(), WebPageContent(url, Intro + ProgrammingText), UrlCategoryResult(url, ["Technology"]));
  }

  /** "This page is about computer software and basketball." matches both,
      in category order. */
  lemma MultipleMatches(url: string)
    ensures Naive.Categorize(TestCategories(), [WebPageContent(url, Intro + SoftwareBasketballText)])
      == [UrlCategoryResult(url, ["Technology", "Sports"])]
  {
    SoftwareBasketballResult(url);
    OnePage(TestCategories(), WebPageContent(url, Intro + SoftwareBasketballText), UrlCategoryResult(url, ["Technology", "Sports"]));
  }

  /** "This page is about cooking and recipes." matches nothing, yet the page
      still gets a result. */
  lemma NoMatch(url: string)
    ensures Naive.Categorize(TestCategories(), [WebPageContent(url, Intro + CookingText)])
      == [UrlCategoryResult(url, [])]
  {
    CookingResult(url);
    OnePage(TestCategories(), WebPageContent(url, Intro + CookingText), UrlCategoryResult(url, []));
  }

  /** "This page is about football and basketball." matches Sports only. */
  lemma SportsOnly(url: string)
    ensures Naive.Categorize(TestCategories(), [WebPageContent(url, Intro + FootballBasketballText)])
      == [UrlCategoryResult(url, ["Sports"])]
  {
    FootballBasketballResult(url);
    OnePage(TestCategories(), WebPageContent(url, Intro + FootballBasketballText), UrlCategoryResult(url, ["Sports"]));
  }

  /** Three pages categorized together give the three results they give
      alone, in page order. */
  lemma ThreePages(categories: seq<Category>, p1: WebPageContent, p2: WebPageContent, p3: WebPageContent,
                   r1: UrlCategoryResult, r2: UrlCategoryResult, r3: UrlCategoryResult)
    requires Naive.Categorize(categories, [p1]) == [r1]
    requires Naive.Categorize(categories, [p2]) == [r2]
    requires Naive.Categorize(categories, [p3]) == [r3]
    ensures Naive.Categorize(categories, [p1, p2, p3]) == [r1, r2, r3]
  {
    Naive.CategorizeAppend(categories, [p1], [p2]);
    Naive.CategorizeAppend(categories, [p1, p2], [p3]);
    assert [p1] + [p2] == [p1, p2] && [p1, p2] + [p3] == [p1, p2, p3];
  }

  /** Three pages give three results, in page order, each with its own URL
      and names. */
  lemma MultiplePages(url1: string, url2: string, url3: string)
    ensures Naive.Categorize(TestCategories(), [
        WebPageContent(url1, Intro + ProgrammingText),
        WebPageContent(url2, Intro + FootballBasketballText),
        WebPageContent(url3, Intro + CookingText)])
      == [UrlCategoryResult(url1, ["Technology"]),
          UrlCategoryResult(url2, ["Sports"]),
          UrlCategoryResult(url3, [])]
  {
    SingleMatch(url1);
    SportsOnly(url2);
    NoMatch(url3);
    ThreePages(TestCategories(),
      WebPageContent(url1, Intro + ProgrammingText),
      WebPageContent(url2, Intro + FootballBasketballText),
      WebPageContent(url3, Intro + CookingText),
      UrlCategoryResult(url1, ["Technology"]),
      UrlCategoryResult(url2, ["Sports"]),
      UrlCategoryResult(url3, []));
  }

  /** Strategy names are looked up ignoring case; anything else is rejected. */
  lemma StrategyNames()
    ensures FromString("naive") == Success(NAIVE)
    ensures FromString("Regex") == Success(REGEX)
    ensures FromString("fuzzy") == Failure(UnknownStrategy("fuzzy"))
  {
    assert EqualsIgnoreCase("NAIVE", "naive");
    assert EqualsIgnoreCase("REGEX", "Regex");
    assert LowerChar("NAIVE"[0]) != LowerChar("fuzzy"[0]);
    assert LowerChar("REGEX"[0]) != LowerChar("fuzzy"[0]);
  }
}
