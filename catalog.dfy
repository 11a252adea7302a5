/** The movie catalog: rows as loaded, their preparation, the genre choices,
    the titles offered for a genre and the lookup of a row by title. */
module Catalog {
  import opened Results
  import opened Text
  import opened Ordering

  /** One `{'name': ...}` object of a parsed genre list. */
  datatype GenreTag = GenreTag(name: string)

  /** A catalog row as read, with its genre list already parsed;
      None stands for a missing (NaN) cell. */
  datatype RawMovie = RawMovie(
    title: string,
    genres: Option<seq<GenreTag>>,
    overview: Option<string>,
    popularity: int)

  /** A catalog row after preparation: `genres` is now one space-joined string. */
  datatype Movie = Movie(
    title: string,
    genres: string,
    overview: string,
    popularity: int,
    combinedFeatures: string)

  /** The prepared catalog, one entry per row, in row order (row position = index label). */
  type Frame = seq<Movie>

  /** The `name` of each genre object, in list order. */
  function Names(tags: seq<GenreTag>): seq<string>
  {
    seq(|tags|, k requires 0 <= k < |tags| => tags[k].name)
  }

  /** What preparation makes of one row: a missing overview becomes "", a missing
      genre list the empty list, the list collapses to its names joined by single
      spaces, and the combined features are the overview, a space and the genres. */
  predicate PreparedRow(raw: RawMovie, m: Movie)
  {
    && m.title == raw.title
    && m.popularity == raw.popularity
    && m.overview == raw.overview.GetOr("")
    && m.genres == JoinSpace(Names(raw.genres.GetOr([])))
    && m.combinedFeatures == m.overview + " " + m.genres
  }

  /** Prepares the loaded rows, one column at a time as the source does. */
  method Prepare(raw: seq<RawMovie>) returns (df: Frame)
    ensures |df| == |raw|
    ensures forall i :: 0 <= i < |raw| ==> PreparedRow(raw[i], df[i])
  {
    var n := |raw|;
    // fill missing overviews with ''
    var overview := seq(n, i requires 0 <= i < n => raw[i].overview.GetOr(""));
    // fill missing genre lists with the empty list
    var genreLists := seq(n, i requires 0 <= i < n => raw[i].genres.GetOr([]));
    // collapse each list to its names joined by single spaces
    var genres := seq(n, i requires 0 <= i < n => JoinSpace(Names(genreLists[i])));
    // the text handed to the vectoriser
    var combined := seq(n, i requires 0 <= i < n => overview[i] + " " + genres[i]);
    df := seq(n, i requires 0 <= i < n =>
      Movie(raw[i].title, genres[i], overview[i], raw[i].popularity, combined[i]));
  }

  /** After preparation a missing genre list is the empty string, every genre name
      can be found in the genres string, and when the names are whitespace-free
      words, splitting the genres string gives back exactly the names. */
  lemma PreparedGenres(raw: RawMovie, m: Movie)
    requires PreparedRow(raw, m)
    ensures raw.genres.None? ==> m.genres == "" && m.combinedFeatures == m.overview + " "
    ensures forall k :: 0 <= k < |Names(raw.genres.GetOr([]))| ==>
              Contains(m.genres, Names(raw.genres.GetOr([]))[k])
    ensures (forall k :: 0 <= k < |Names(raw.genres.GetOr([]))| ==> IsWord(Names(raw.genres.GetOr([]))[k]))
              ==> Tokens(m.genres) == Names(raw.genres.GetOr([]))
  {
    var names := Names(raw.genres.GetOr([]));
    forall k | 0 <= k < |names| ensures Contains(m.genres, names[k]) {
      JoinContainsWord(names, k);
    }
    if forall k :: 0 <= k < |names| ==> IsWord(names[k]) {
      JoinThenSplitWords(names);
    }
  }

  /** `df['genres'].str.split().sum()`: every row's tokens, concatenated in row order. */
  function AllTokens(df: Frame): seq<string>
  {
    if |df| == 0 then [] else Tokens(df[0].genres) + AllTokens(df[1..])
  }

  lemma {:induction false} AllTokensIff(df: Frame)
    ensures forall g :: g in AllTokens(df) <==> exists i :: 0 <= i < |df| && g in Tokens(df[i].genres)
    decreases |df|
  {
    if |df| > 0 {
      AllTokensIff(df[1..]);
      forall g | g in AllTokens(df[1..]) ensures exists i :: 0 <= i < |df| && g in Tokens(df[i].genres) {
        var i :| 0 <= i < |df| - 1 && g in Tokens(df[1..][i].genres);
        assert df[i + 1] == df[1..][i];
      }
      forall g | exists i :: 0 <= i < |df| && g in Tokens(df[i].genres) ensures g in AllTokens(df) {
        var i :| 0 <= i < |df| && g in Tokens(df[i].genres);
        if i > 0 {
          assert df[1..][i - 1] == df[i];
        }
      }
    }
  }

  /** The genre choices: the sorted, de-duplicated whitespace tokens of all genre
      strings.  On an empty catalog the sum of no lists is the integer 0 and taking
      its set fails. */
  function GenreOptions(df: Frame): (r: Result<seq<string>>)
    ensures r.Failure? <==> |df| == 0
    ensures r.Failure? ==> r.error == EmptyCatalog
    ensures r.Success? ==> StrictlyIncreasing(r.value)
    ensures r.Success? ==> forall g :: g in r.value <==>
              exists i :: 0 <= i < |df| && g in Tokens(df[i].genres)
  {
    if |df| == 0 then Failure(EmptyCatalog)
    else
      AllTokensIff(df);
      Success(SortedDistinct(AllTokens(df)))
  }

  /** `df[df['genres'].str.contains(genre)]['title']`: the titles of matching rows, in row order. */
  function TitlesInGenre(df: Frame, genre: string): seq<string>
  {
    if |df| == 0 then []
    else (if Contains(df[0].genres, genre) then [df[0].title] else []) + TitlesInGenre(df[1..], genre)
  }

  lemma {:induction false} TitlesInGenreIff(df: Frame, genre: string)
    ensures forall t :: t in TitlesInGenre(df, genre) <==>
              exists i :: 0 <= i < |df| && df[i].title == t && Contains(df[i].genres, genre)
    decreases |df|
  {
    if |df| > 0 {
      TitlesInGenreIff(df[1..], genre);
      forall t | t in TitlesInGenre(df[1..], genre)
        ensures exists i :: 0 <= i < |df| && df[i].title == t && Contains(df[i].genres, genre)
      {
        var i :| 0 <= i < |df| - 1 && df[1..][i].title == t && Contains(df[1..][i].genres, genre);
        assert df[i + 1] == df[1..][i];
      }
      forall t | exists i :: 0 <= i < |df| && df[i].title == t && Contains(df[i].genres, genre)
        ensures t in TitlesInGenre(df, genre)
      {
        var i :| 0 <= i < |df| && df[i].title == t && Contains(df[i].genres, genre);
        if i > 0 {
          assert df[1..][i - 1] == df[i];
        }
      }
    }
  }

  /** The titles offered for a genre: sorted and unique, those of the rows whose
      genres string contains the genre. */
  function MoviesInGenre(df: Frame, genre: string): (r: seq<string>)
    ensures StrictlyIncreasing(r)
    ensures forall t :: t in r <==>
              exists i :: 0 <= i < |df| && df[i].title == t && Contains(df[i].genres, genre)
  {
    TitlesInGenreIff(df, genre);
    SortedDistinct(TitlesInGenre(df, genre))
  }

  /** Every genre choice is a word and selects at least one title. */
  lemma OptionSelectsMovies(df: Frame, g: string)
    requires GenreOptions(df).Success? && g in GenreOptions(df).value
    ensures IsWord(g)
    ensures MoviesInGenre(df, g) != []
  {
    var i :| 0 <= i < |df| && g in Tokens(df[i].genres);
    TokensAreWords(df[i].genres);
    assert df[i].title in MoviesInGenre(df, g);
  }

  /** When every genre name in a prepared catalog is a whitespace-free word, the
      genre choices are exactly the genre names that occur in it. */
  lemma OptionsAreGenreNames(raw: seq<RawMovie>, df: Frame, g: string)
    requires |raw| == |df| > 0
    requires forall i :: 0 <= i < |raw| ==> PreparedRow(raw[i], df[i])
    requires forall i, k :: 0 <= i < |raw| && 0 <= k < |Names(raw[i].genres.GetOr([]))| ==>
               IsWord(Names(raw[i].genres.GetOr([]))[k])
    ensures GenreOptions(df).Success?
    ensures g in GenreOptions(df).value <==>
              exists i :: 0 <= i < |raw| && g in Names(raw[i].genres.GetOr([]))
  {
    forall i | 0 <= i < |raw| ensures Tokens(df[i].genres) == Names(raw[i].genres.GetOr([])) {
      PreparedGenres(raw[i], df[i]);
    }
  }

  /** `df[df['title'] == title].index[0]`: the position of the first row with that
      title, or None where the source raises IndexError. */
  function FindTitle(df: Frame, title: string): (r: Option<nat>)
    ensures r.Some? ==> r.value < |df| && df[r.value].title == title
    ensures r.Some? ==> forall j :: 0 <= j < r.value ==> df[j].title != title
    ensures r.None? <==> forall j :: 0 <= j < |df| ==> df[j].title != title
    decreases |df|
  {
    if |df| == 0 then None
    else if df[0].title == title then Some(0)
    else
      match FindTitle(df[1..], title)
      case None => None
      case Some(i) => Some(i + 1)
  }
}
