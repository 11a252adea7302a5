# RedFlix movie recommender — a Dafny model of its recommendation core

The recommender is a single Streamlit page, `streamlit_app.py`. It loads a movie catalog and prepares three of its columns:

- a missing overview becomes the empty string;
- the genre list becomes its names joined by single spaces;
- a combined-features text is built from the overview, a space and the genres.

From the prepared catalog it offers:

- the genre choices: the sorted, de-duplicated whitespace tokens of every genres string;
- the titles in a chosen genre: sorted and unique;
- two queries.

The two queries are:

- **Genre only** (`recommend_for_genre`): keep the rows whose genres string contains the genre, order them by popularity with the most popular first, and return the first `top_n` as (title, genres, overview) cards.
- **Genre and a watched movie** (`recommend_for_genre_and_movie`):
  1. Find the first row with the watched title. An unknown title raises IndexError.
  2. Ask the nearest-neighbour index for that row's neighbours.
  3. Drop the watched title from the neighbour titles.
  4. Walk the rest in neighbour order, collecting every title whose first catalog row contains the genre.
  5. Stop as soon as `top_n` titles have been collected.
  6. Return the cards of the collected titles.

The model is split into these modules:

- `Results` (`results.dfy`): the Option and Result types, plus the three failures the source can raise.
- `Text` (`text.dfy`):
  - Python's `str.isspace` on code points;
  - `str.split()`, which drops empty tokens;
  - `' '.join`;
  - substring containment, i.e. `in` and `str.contains` read as plain text.
- `Ordering` (`ordering.dfy`): code-point order on strings, and `sorted(set(...))` as one strictly increasing sequence.
- `Catalog` (`catalog.dfy`): catalog rows, data preparation, genre choices, titles in a genre, and the title lookup `df[df['title'] == t].index[0]`.
- `Recommend` (`recommend.dfy`): both queries. The genre-only query is a pure function. The watched-movie query is a method whose loop mirrors the source's `for`/`break` loop. That method is proved against the specification predicate `Collected`, and a separate lemma proves what `Collected` guarantees.
- `Scenarios` (`scenarios.dfy`): worked examples on a three-movie catalog.

### Semantics carried into the model

Catalog positions:

- A catalog is a sequence of rows.
- A row's position is also its index label, as with the default RangeIndex the CSV loader creates.

Genre choices:

- When a genre name contains a space (e.g. "Science Fiction"), the choices hold its words, not the name.
- `Catalog.OptionsAreGenreNames` states the case where choices and names coincide.

Genre-only query:

- The popularity sort is not stable, so the model promises only non-increasing popularity and a permutation. It does not promise an order among ties.
- `head(top_n)` with a negative `top_n` returns all but the last `-top_n` rows.

Watched-movie query:

- The stop check runs after the append. So when `top_n <= 0`, the loop returns at most one title.

Empty catalog:

- Summing the token lists of an empty catalog gives the integer 0, and `set(0)` raises TypeError.
- The model returns `Failure(EmptyCatalog)` there.

Further points the model keeps from the code:

- Genre matching is substring containment on the genres string.
- The popularity sort is not stable.
- An unknown watched title raises IndexError.
- A neighbour position past the last row makes `df.iloc[i]` raise IndexError; the model returns `Failure(NeighbourOutOfRange)`.
- The neighbour list is used as the index returns it and is never widened when too few neighbours match.

## Model

| member | source | states |
|---|---|---|
| Catalog.Prepare | streamlit_app.py:62-65 | one prepared row per loaded row: missing overview becomes "", a missing genre list becomes the empty list, genres are the names joined by single spaces, combined features are overview + " " + genres; title and popularity unchanged |
| Catalog.PreparedGenres | streamlit_app.py:63-65 | after preparation a missing genre list gives genres "" and combined features `overview + " "`; every genre name occurs in the genres string; when the names are whitespace-free words, splitting the genres string gives back exactly the names |
| Catalog.GenreOptions | streamlit_app.py:70 | the genre choices fail exactly on an empty catalog (TypeError of `set(0)`); otherwise they are strictly increasing (sorted, no duplicates) and a string is a choice exactly when it is a whitespace token of some row's genres |
| Catalog.OptionSelectsMovies | streamlit_app.py:70-72 | every genre choice is a non-empty whitespace-free word and the titles offered for it are not empty |
| Catalog.OptionsAreGenreNames | streamlit_app.py:63-70 | for a prepared non-empty catalog whose genre names are all single words, a string is a genre choice exactly when it is the name of a genre of some row |
| Catalog.MoviesInGenre | streamlit_app.py:72 | the titles offered for a genre are strictly increasing and are exactly the titles of rows whose genres string contains the genre |
| Catalog.FindTitle | streamlit_app.py:84 | the lookup succeeds exactly when some row has the title, and then gives the first such row |
| Catalog.Names | streamlit_app.py:64 | `[i['name'] for i in ...]`: the names of a genre list, in order |
| Catalog.PreparedRow | streamlit_app.py:62-65 | what preparation makes of one row |
| Catalog.AllTokens | streamlit_app.py:70 | `df['genres'].str.split().sum()`: every row's tokens concatenated in row order |
| Catalog.TitlesInGenre | streamlit_app.py:72 | `df[df['genres'].str.contains(genre)]['title']`: the titles of the matching rows, in row order |
| Catalog.TitlesInGenreIff | streamlit_app.py:72 | a title is among them exactly when some row with that title contains the genre |
| Catalog.AllTokensIff | streamlit_app.py:70 | the concatenated token lists hold a token exactly when some row's genres string splits into it |
| Recommend.SortByPopularity | streamlit_app.py:80 | the sorted positions are a permutation of the input in non-increasing popularity |
| Recommend.InsertByPopularity | streamlit_app.py:80 | inserting into a popularity-ordered sequence keeps it ordered and adds exactly the new position |
| Recommend.Head | streamlit_app.py:81 | `head(n)` is a prefix of length min(n, len) for n >= 0 and max(len + n, 0) for negative n |
| Recommend.Project | streamlit_app.py:81 | the (title, genres, overview) card of a row, as lines 81 and 94 select it |
| Recommend.ValidPositions | streamlit_app.py:87 | every neighbour position is a row, so no `df.iloc[i]` raises |
| Recommend.Matching | streamlit_app.py:79 | the positions of the rows the mask `df['genres'].str.contains(genre)` keeps, in row order |
| Recommend.MatchingFrom | streamlit_app.py:79 | the positions kept by the genre mask are ascending, each contains the genre, and every matching position from the start point on is kept |
| Recommend.RankForGenre | streamlit_app.py:79-81 | the ranked positions are distinct rows whose genres contain the genre, in non-increasing popularity, of length min(top_n, matches) (head semantics for negative top_n); with top_n at least the number of matches, exactly the matching rows; no left-out match is more popular than a returned one |
| Recommend.RecommendForGenre | streamlit_app.py:78-81 | the genre-only result has as many cards as the ranking (at most top_n when top_n >= 0, head semantics otherwise), each the (title, genres, overview) projection of the ranked row in that place and each containing the genre |
| Recommend.PrefixOfRanking | streamlit_app.py:80-81 | a prefix of the popularity ranking of the matches is duplicate-free, ordered, within the genre, and at least as popular as every match it leaves out |
| Recommend.WholeRanking | streamlit_app.py:79-80 | the popularity ranking holds exactly the matching rows |
| Recommend.PermutationDistinct | streamlit_app.py:80 | sorting a duplicate-free sequence of rows introduces no duplicate |
| Recommend.SimilarProperties | streamlit_app.py:87 | the similar titles exclude the watched title, each is the title of a catalog row, every other neighbour title is among them, and they keep neighbour order |
| Recommend.SimilarCounts | streamlit_app.py:87 | every neighbour title other than the watched one occurs among the similar titles as often as among the neighbours, the watched title never |
| Recommend.Similar | streamlit_app.py:87 | `similar_titles`: the neighbour titles other than the watched one, in neighbour order |
| Recommend.NeighbourTitles | streamlit_app.py:87 | the titles at the neighbour positions, in order |
| Recommend.GenreMatchesProperties | streamlit_app.py:89-91 | without the early stop the loop keeps a title exactly when its first row contains the genre, and the kept titles keep their order |
| Recommend.GenreMatchesCounts | streamlit_app.py:89-91 | without the early stop each title whose first row contains the genre is kept as many times as it occurs, any other title never |
| Recommend.GenreMatchesPrefix | streamlit_app.py:89-93 | stopping after a prefix of the similar titles collects a prefix of what a full pass collects |
| Recommend.CutIsHead | streamlit_app.py:89-93 | for top_n >= 1 the titles collected when the loop stops are the first top_n of those a full pass collects |
| Recommend.GenreMatches | streamlit_app.py:89-91 | the titles the loop appends without the early stop, in order, never more than it handles |
| Recommend.TitleInGenre | streamlit_app.py:90 | `genre in df[df['title']==rec].iloc[0]['genres']`: the first row with the title exists and its genres contain the genre |
| Recommend.IsCut | streamlit_app.py:88-93 | where the loop stops: before every earlier stop point fewer than top_n were collected, and an early stop comes after at least one title with top_n collected |
| Recommend.Collected | streamlit_app.py:88-94 | the cards of the titles collected up to the loop's stop point |
| Recommend.CutBounds | streamlit_app.py:92-93 | when the loop stops it has collected at most top_n titles (at most one when top_n <= 0), and fewer than top_n only after handling every similar title |
| Recommend.CutUnique | streamlit_app.py:89-93 | the point where the loop stops is determined by its inputs |
| Recommend.CardsFor | streamlit_app.py:94 | one card per collected title, carrying that title, and for a title with a row the (title, genres, overview) of the first row with that title |
| Recommend.RecommendForGenreAndMovie | streamlit_app.py:83-94 | fails exactly when no row has the watched title (IndexError at line 84) or a neighbour position is past the last row (IndexError at line 87), in that order of precedence; otherwise it returns the cards of the titles collected up to the first point where top_n have been collected (or all similar titles were handled) |
| Recommend.CollectedProperties | streamlit_app.py:83-94 | a watched-movie result never holds the watched title; every title's first row and card contain the genre; it has at most top_n cards (at most one when top_n <= 0); with fewer than top_n it holds every matching similar title; its titles are a subsequence of the neighbour titles; for top_n >= 1 its titles are the first top_n of the titles a pass without the stop would collect |
| Text.Contains | streamlit_app.py:72-90 | `in` and `str.contains` (lines 72, 79, 90): the needle is a prefix of the text or is contained in its tail |
| Text.JoinSpace | streamlit_app.py:64 | `' '.join`: the entries separated by single spaces |
| Text.Tokens | streamlit_app.py:70 | `str.split()` with no argument: the maximal runs without whitespace, in order |
| Text.IsSpace | streamlit_app.py:70 | the code points Python's `str.isspace` accepts |
| Text.ContainsIff | streamlit_app.py:72 | substring containment holds exactly when the needle occurs at some position |
| Text.JoinContainsWord | streamlit_app.py:64 | every joined name occurs in the space-joined string |
| Text.TokensAreWords | streamlit_app.py:70 | every token of `split()` is a non-empty whitespace-free piece of the string |
| Text.JoinThenSplit | streamlit_app.py:64-70 | splitting a space-joined list gives the tokens of each entry, in order |
| Text.JoinThenSplitWords | streamlit_app.py:64-70 | splitting a space-joined list of words gives back the list |
| Text.TokensAroundSpace | streamlit_app.py:70 | splitting around a single space splits both sides independently |
| Ordering.Less | streamlit_app.py:70-72 | Python's `<` on strings: lexicographic by code point, a proper prefix first |
| Ordering.LessTransitive | streamlit_app.py:70 | string order is transitive |
| Ordering.LessTotal | streamlit_app.py:70 | of two different strings, one is smaller |
| Ordering.SortedDistinct | streamlit_app.py:70 | `sorted(set(xs))` is strictly increasing and holds exactly the entries of xs |
| Ordering.StrictlyIncreasingUnique | streamlit_app.py:70 | two strictly increasing sequences with the same entries are equal, so the sorted unique list is determined |
| Scenarios.ActionByPopularity | streamlit_app.py:78-81 | on a three-film catalog the action query returns Alpha (popularity 9) before Beta (5) and leaves out the comedy |
| Scenarios.TwoMatchesRanked | streamlit_app.py:78-81 | for any three rows of which the first two match, the more popular first, the genre-only query returns those two in that order |
| Scenarios.SeedAlpha | streamlit_app.py:83-94 | with neighbours Alpha, Gamma, Beta for the watched Alpha, the action result is exactly Beta |

## Left out

- The page layout lines 1-58, the widgets on lines 71 and 73-75, and the button handler and card rendering on lines 96-123 are user interface only. That includes the 240-character overview cut on line 110.
- Reading the CSV file (line 61) and loading the two joblib models (lines 66-67) are file I/O. The catalog is an input of the model.
- Parsing the genre cell with `ast.literal_eval` (line 64) is not modelled. A row's genre list arrives already parsed, so a malformed cell, which raises in the source, is not represented.
- The vectoriser and nearest-neighbour search (lines 85-86) are fitted models outside this code. Their output, the neighbour positions closest first, is an input sequence. The distances are not modelled, and nothing ties the neighbours to the watched movie's combined features.
- `str.contains` reads its argument as a regular expression. The model reads it as plain text, which agrees for genre tokens without regular-expression metacharacters.
- Popularity is a float in the catalog and an integer in the model, so NaN popularities are not represented.
- Recommend.SortByPopularity: promises no particular order among equal popularities, because the source's sort is not stable.
- Recommend.RankForGenre: promises no particular order among equal popularities, for the same reason.
- A catalog whose index labels are not 0, 1, 2, … is not modelled. The index is assumed to be the default range index, so a label is a position.
- A missing (NaN) title is not modelled: titles are strings, and lines 62-65 never fill them. In the source a neighbour with a NaN title passes line 87, because NaN differs from the watched title. It then makes line 90 raise IndexError, because NaN never equals itself. In the model every similar title has a row (Recommend.SimilarProperties), so the loop's no-row branch never runs.
- The default `top_n=5` of lines 78 and 83 is not modelled: top_n is always an explicit argument. The page always passes the slider value (lines 100 and 103).
