/** Worked examples: a three-movie catalog queried in both modes. */
module Scenarios {
  import opened Results
  import opened Text
  import opened Catalog
  import opened Recommend

  /** Alpha and Beta are action films (popularity 9 and 5), Gamma a comedy (8). */
  function SmallCatalog(): Frame
  {
    [ Movie("Alpha", "Action", "...", 9, "... Action"),
      Movie("Beta", "Action", "...", 5, "... Action"),
      Movie("Gamma", "Comedy", "...", 8, "... Comedy") ]
  }

  /** A string in which the needle's first character never occurs does not contain it. */
  lemma {:induction false} FirstCharAbsent(hay: string, needle: string)
    requires |needle| > 0 && forall j :: 0 <= j < |hay| ==> hay[j] != needle[0]
    ensures !Contains(hay, needle)
    decreases |hay|
  {
    if |hay| > 0 {
      assert hay[0] != needle[0];
      assert forall j :: 0 <= j < |hay| - 1 ==> hay[1..][j] == hay[j + 1];
      FirstCharAbsent(hay[1..], needle);
    }
  }

  lemma ComedyIsNotAction()
    ensures !Contains("Comedy", "Action")
  {
    FirstCharAbsent("Comedy", "Action");
  }

  /** Genre only, for any catalog of three rows of which the first two match, the
      first more popular: those two are returned, the more popular first. */
  lemma TwoMatchesRanked(df: Frame, genre: string)
    requires |df| == 3
    requires Contains(df[0].genres, genre) && Contains(df[1].genres, genre) && !Contains(df[2].genres, genre)
    requires df[0].popularity > df[1].popularity
    ensures RecommendForGenre(df, genre, 5) == [Project(df[0]), Project(df[1])]
  {
    FirstTwoRanked(df, genre);
    CardsOfFirstTwo(df, genre);
  }

  lemma FirstTwoRanked(df: Frame, genre: string)
    requires |df| == 3
    requires Contains(df[0].genres, genre) && Contains(df[1].genres, genre) && !Contains(df[2].genres, genre)
    requires df[0].popularity > df[1].popularity
    ensures RankForGenre(df, genre, 5) == [0, 1]
  {
    FirstTwoMatch(df, genre);
    FirstTwoSorted(df);
    assert Head([0, 1], 5) == [0, 1];
  }

  lemma FirstTwoMatch(df: Frame, genre: string)
    requires |df| == 3
    requires Contains(df[0].genres, genre) && Contains(df[1].genres, genre) && !Contains(df[2].genres, genre)
    ensures Matching(df, genre) == [0, 1]
  {
    assert MatchingFrom(df, genre, 3) == [];
    assert MatchingFrom(df, genre, 2) == [];
    assert MatchingFrom(df, genre, 1) == [1];
  }

  lemma FirstTwoSorted(df: Frame)
    requires |df| >= 2 && df[0].popularity > df[1].popularity
    ensures SortByPopularity(df, [0, 1]) == [0, 1]
  {
    assert [0, 1][1..] == [1] && [1][1..] == [];
    assert SortByPopularity(df, [1]) == [1];
    assert InsertByPopularity(df, 0, [1]) == [0, 1];
  }

  lemma CardsOfFirstTwo(df: Frame, genre: string)
    requires |df| == 3 && RankForGenre(df, genre, 5) == [0, 1]
    ensures RecommendForGenre(df, genre, 5) == [Project(df[0]), Project(df[1])]
  {
    var cards := RecommendForGenre(df, genre, 5);
    assert |cards| == 2 && cards[0] == Project(df[0]) && cards[1] == Project(df[1]);
  }

  /** Genre only: the two action films, Alpha (9) before Beta (5). */
  lemma ActionByPopularity()
    ensures RecommendForGenre(SmallCatalog(), "Action", 5) ==
            [Card("Alpha", "Action", "..."), Card("Beta", "Action", "...")]
  {
    ComedyIsNotAction();
    TwoMatchesRanked(SmallCatalog(), "Action");
  }

  lemma AlphaSimilar()
    ensures Similar(SmallCatalog(), [0, 2, 1], "Alpha") == ["Gamma", "Beta"]
  {
    var df := SmallCatalog();
    assert [0, 2, 1][..2] == [0, 2] && [0, 2][..1] == [0] && [0][..0] == [];
    assert Similar(df, [0], "Alpha") == [];
    assert Similar(df, [0, 2], "Alpha") == ["Gamma"];
  }

  lemma ActionAmongSimilar()
    ensures GenreMatches(SmallCatalog(), "Action", ["Gamma", "Beta"]) == ["Beta"]
  {
    var df := SmallCatalog();
    ComedyIsNotAction();
    assert FindTitle(df, "Gamma") == Some(2);
    assert FindTitle(df, "Beta") == Some(1);
    assert ["Gamma", "Beta"][..1] == ["Gamma"] && ["Gamma"][..0] == [];
    assert GenreMatches(df, "Action", ["Gamma"]) == [];
  }

  /** A loop over fewer than top_n titles cannot stop early. */
  lemma ShortListIsWhole(df: Frame, genre: string, similar: seq<string>, topN: int, c: int)
    requires IsCut(df, genre, similar, topN, c) && |similar| < topN
    ensures c == |similar|
  {
  }

  lemma BetaCard()
    ensures CardsFor(SmallCatalog(), ["Beta"]) == [Card("Beta", "Action", "...")]
  {
    assert FindTitle(SmallCatalog(), "Beta") == Some(1);
  }

  /** Genre and seed: the neighbours of Alpha are Alpha, Gamma and Beta, closest
      first; Alpha is the seed and Gamma no action film, which leaves Beta.  The
      result of RecommendForGenreAndMovie on these inputs is such a collection. */
  lemma SeedAlpha(cards: seq<Card>)
    requires Collected(SmallCatalog(), "Action", "Alpha", 5, [0, 2, 1], cards)
    ensures cards == [Card("Beta", "Action", "...")]
  {
    var df := SmallCatalog();
    var similar := Similar(df, [0, 2, 1], "Alpha");
    var c :| IsCut(df, "Action", similar, 5, c)
             && cards == CardsFor(df, GenreMatches(df, "Action", similar[..c]));
    AlphaSimilar();
    ShortListIsWhole(df, "Action", similar, 5, c);
    assert similar[..c] == similar;
    ActionAmongSimilar();
    BetaCard();
  }
}
