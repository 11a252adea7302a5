/** The two query modes of the recommender: by genre alone (most popular first)
    and by genre and a watched movie (nearest neighbours first). */
module Recommend {
  import opened Results
  import opened Text
  import opened Catalog

  /** The projection `[['title', 'genres', 'overview']]` of a row: what a query returns. */
  datatype Card = Card(title: string, genres: string, overview: string)

  function Project(m: Movie): Card
  {
    Card(m.title, m.genres, m.overview)
  }

  function Titles(cards: seq<Card>): seq<string>
  {
    seq(|cards|, k requires 0 <= k < |cards| => cards[k].title)
  }

  predicate ValidPositions(df: Frame, ps: seq<nat>)
  {
    forall k :: 0 <= k < |ps| ==> ps[k] < |df|
  }

  predicate Distinct(ps: seq<nat>)
  {
    forall j, k :: 0 <= j < k < |ps| ==> ps[j] != ps[k]
  }

  function Min(a: int, b: int): int { if a <= b then a else b }

  function Max(a: int, b: int): int { if a >= b then a else b }

  // ---------------------------------------------------------------------------
  // Genre only
  // ---------------------------------------------------------------------------

  /** The positions from i on that the mask `df['genres'].str.contains(genre)` keeps, ascending. */
  function MatchingFrom(df: Frame, genre: string, i: nat): (ps: seq<nat>)
    ensures forall k :: 0 <= k < |ps| ==> i <= ps[k] < |df| && Contains(df[ps[k]].genres, genre)
    ensures forall j, k :: 0 <= j < k < |ps| ==> ps[j] < ps[k]
    ensures forall p :: i <= p < |df| && Contains(df[p].genres, genre) ==> p in ps
    decreases |df| - i
  {
    if i >= |df| then []
    else (if Contains(df[i].genres, genre) then [i] else []) + MatchingFrom(df, genre, i + 1)
  }

  /** The positions of all rows whose genres string contains the genre, in row order. */
  function Matching(df: Frame, genre: string): seq<nat>
  {
    MatchingFrom(df, genre, 0)
  }

  /** Non-increasing popularity along the positions. */
  predicate ByPopularity(df: Frame, ps: seq<nat>)
    requires ValidPositions(df, ps)
  {
    forall j, k :: 0 <= j < k < |ps| ==> df[ps[j]].popularity >= df[ps[k]].popularity
  }

  function InsertByPopularity(df: Frame, p: nat, s: seq<nat>): (r: seq<nat>)
    requires p < |df| && ValidPositions(df, s) && ByPopularity(df, s)
    ensures ValidPositions(df, r) && ByPopularity(df, r)
    ensures multiset(r) == multiset(s) + multiset{p}
    decreases |s|
  {
    if |s| == 0 then [p]
    else if df[p].popularity >= df[s[0]].popularity then [p] + s
    else
      var rest := InsertByPopularity(df, p, s[1..]);
      assert s == [s[0]] + s[1..];
      BelowHead(df, p, s, rest);
      [s[0]] + rest
  }

  lemma BelowHead(df: Frame, p: nat, s: seq<nat>, rest: seq<nat>)
    requires p < |df| && |s| > 0 && ValidPositions(df, s) && ByPopularity(df, s)
    requires df[p].popularity < df[s[0]].popularity
    requires ValidPositions(df, rest) && multiset(rest) == multiset(s[1..]) + multiset{p}
    ensures forall k :: 0 <= k < |rest| ==> df[rest[k]].popularity <= df[s[0]].popularity
  {
    forall k | 0 <= k < |rest| ensures df[rest[k]].popularity <= df[s[0]].popularity {
      assert rest[k] in multiset(rest);
      if rest[k] != p {
        assert rest[k] in s[1..];
        var j :| 0 <= j < |s| - 1 && s[1..][j] == rest[k];
        assert s[j + 1] == rest[k];
      }
    }
  }

  /** `sort_values("popularity", ascending=False)` on the given positions: a
      permutation of them in non-increasing popularity.  The order among equal
      popularities is not part of the contract: the source's sort is not stable. */
  function SortByPopularity(df: Frame, ps: seq<nat>): (r: seq<nat>)
    requires ValidPositions(df, ps)
    ensures ValidPositions(df, r) && ByPopularity(df, r)
    ensures multiset(r) == multiset(ps)
    decreases |ps|
  {
    if |ps| == 0 then []
    else
      assert ps == [ps[0]] + ps[1..];
      InsertByPopularity(df, ps[0], SortByPopularity(df, ps[1..]))
  }

  /** pandas `head(n)`: the first n entries, or all but the last -n when n is negative. */
  function Head<T>(s: seq<T>, n: int): (r: seq<T>)
    ensures r <= s
    ensures |r| == if n >= 0 then Min(n, |s|) else Max(|s| + n, 0)
  {
    if n >= 0 then (if n <= |s| then s[..n] else s)
    else if |s| + n >= 0 then s[..|s| + n]
    else []
  }

  lemma DistinctMultiplicity(s: seq<nat>, x: nat)
    requires Distinct(s)
    ensures multiset(s)[x] <= 1
  {
    if |s| > 0 {
      assert s == [s[0]] + s[1..];
      DistinctMultiplicity(s[1..], x);
      if x == s[0] {
        assert x !in s[1..];
      }
    }
  }

  /** A permutation of a duplicate-free sequence is duplicate-free. */
  lemma PermutationDistinct(a: seq<nat>, b: seq<nat>)
    requires multiset(a) == multiset(b) && Distinct(b)
    ensures Distinct(a)
  {
    forall j, k | 0 <= j < k < |a| ensures a[j] != a[k] {
      if a[j] == a[k] {
        assert a == a[..k] + a[k..];
        assert a[j] in a[..k];
        assert a[k] in a[k..];
        assert multiset(a)[a[j]] >= 2;
        DistinctMultiplicity(b, a[j]);
        assert false;
      }
    }
  }

  /** A prefix of a popularity ranking of the matches keeps the ranking's
      properties, and no match left out is more popular than one kept. */
  lemma PrefixOfRanking(df: Frame, genre: string, sorted: seq<nat>, r: seq<nat>)
    requires ValidPositions(df, sorted) && ByPopularity(df, sorted)
    requires multiset(sorted) == multiset(Matching(df, genre))
    requires r <= sorted
    ensures ValidPositions(df, r) && ByPopularity(df, r) && Distinct(r)
    ensures forall k :: 0 <= k < |r| ==> Contains(df[r[k]].genres, genre)
    ensures forall p, k :: 0 <= p < |df| && Contains(df[p].genres, genre) && p !in r && 0 <= k < |r| ==>
              df[p].popularity <= df[r[k]].popularity
  {
    PermutationDistinct(sorted, Matching(df, genre));
    assert forall k :: 0 <= k < |r| ==> r[k] == sorted[k];
    PrefixInGenre(df, genre, sorted, r);
    LeftOutBelow(df, genre, sorted, r);
  }

  lemma PrefixInGenre(df: Frame, genre: string, sorted: seq<nat>, r: seq<nat>)
    requires multiset(sorted) == multiset(Matching(df, genre))
    requires r <= sorted
    ensures forall k :: 0 <= k < |r| ==> r[k] < |df| && Contains(df[r[k]].genres, genre)
  {
    forall k | 0 <= k < |r| ensures r[k] < |df| && Contains(df[r[k]].genres, genre) {
      assert r[k] == sorted[k];
      assert sorted[k] in multiset(Matching(df, genre));
    }
  }

  lemma LeftOutBelow(df: Frame, genre: string, sorted: seq<nat>, r: seq<nat>)
    requires ValidPositions(df, sorted) && ByPopularity(df, sorted)
    requires multiset(sorted) == multiset(Matching(df, genre))
    requires r <= sorted
    ensures forall p, k :: 0 <= p < |df| && Contains(df[p].genres, genre) && p !in r && 0 <= k < |r| ==>
              df[p].popularity <= df[r[k]].popularity
  {
    forall p, k | 0 <= p < |df| && Contains(df[p].genres, genre) && p !in r && 0 <= k < |r|
      ensures df[p].popularity <= df[r[k]].popularity
    {
      assert p in multiset(Matching(df, genre));
      var j :| 0 <= j < |sorted| && sorted[j] == p;
      assert j >= |r|;
      assert r[k] == sorted[k];
    }
  }

  /** When nothing is cut off, the ranking holds every match. */
  lemma WholeRanking(df: Frame, genre: string, sorted: seq<nat>)
    requires multiset(sorted) == multiset(Matching(df, genre))
    ensures forall p: nat :: p in sorted <==> p < |df| && Contains(df[p].genres, genre)
  {
    forall p: nat ensures p in sorted <==> p < |df| && Contains(df[p].genres, genre) {
      assert p in sorted <==> p in multiset(Matching(df, genre));
    }
  }

  /** The positions `recommend_for_genre` returns: the matching rows, most popular
      first, cut to top_n as `head` cuts. */
  function RankForGenre(df: Frame, genre: string, topN: int): (r: seq<nat>)
    ensures ValidPositions(df, r)
    ensures forall k :: 0 <= k < |r| ==> Contains(df[r[k]].genres, genre)
    ensures Distinct(r)
    ensures ByPopularity(df, r)
    ensures |r| == if topN >= 0 then Min(topN, |Matching(df, genre)|)
                   else Max(|Matching(df, genre)| + topN, 0)
    ensures topN >= |Matching(df, genre)| ==>
              forall p: nat :: p in r <==> p < |df| && Contains(df[p].genres, genre)
    ensures forall p, k :: 0 <= p < |df| && Contains(df[p].genres, genre) && p !in r && 0 <= k < |r| ==>
              df[p].popularity <= df[r[k]].popularity
  {
    var sorted := SortByPopularity(df, Matching(df, genre));
    assert |sorted| == |Matching(df, genre)| by {
      assert |multiset(sorted)| == |multiset(Matching(df, genre))|;
    }
    var r := Head(sorted, topN);
    PrefixOfRanking(df, genre, sorted, r);
    WholeRanking(df, genre, sorted);
    assert topN >= |sorted| ==> r == sorted;
    r
  }

  /** `recommend_for_genre`: the cards of the ranked rows. */
  function RecommendForGenre(df: Frame, genre: string, topN: int): (r: seq<Card>)
    ensures |r| == |RankForGenre(df, genre, topN)|
    ensures topN >= 0 ==> |r| <= topN
    ensures forall k :: 0 <= k < |r| ==>
              r[k] == Project(df[RankForGenre(df, genre, topN)[k]]) && Contains(r[k].genres, genre)
  {
    var ps := RankForGenre(df, genre, topN);
    seq(|ps|, k requires 0 <= k < |ps| => Project(df[ps[k]]))
  }

  // ---------------------------------------------------------------------------
  // Genre and a watched movie
  // ---------------------------------------------------------------------------

  /** a is a subsequence of b: a can be obtained by deleting entries of b. */
  predicate IsSubsequence<T(==)>(a: seq<T>, b: seq<T>)
    decreases |b|
  {
    if |b| == 0 then |a| == 0
    else IsSubsequence(a, b[..|b| - 1])
         || (|a| > 0 && a[|a| - 1] == b[|b| - 1] && IsSubsequence(a[..|a| - 1], b[..|b| - 1]))
  }

  lemma {:induction false} SubsequenceReflexive<T>(s: seq<T>)
    ensures IsSubsequence(s, s)
    decreases |s|
  {
    if |s| > 0 {
      SubsequenceReflexive(s[..|s| - 1]);
    }
  }

  lemma {:induction false} SubsequenceTransitive<T>(a: seq<T>, b: seq<T>, c: seq<T>)
    requires IsSubsequence(a, b) && IsSubsequence(b, c)
    ensures IsSubsequence(a, c)
    decreases |c|
  {
    if |c| > 0 {
      var c' := c[..|c| - 1];
      if IsSubsequence(b, c') {
        SubsequenceTransitive(a, b, c');
      } else {
        var b' := b[..|b| - 1];
        if IsSubsequence(a, b') {
          SubsequenceTransitive(a, b', c');
        } else {
          SubsequenceTransitive(a[..|a| - 1], b', c');
        }
      }
    }
  }

  lemma {:induction false} PrefixSubsequence<T>(s: seq<T>, k: nat)
    requires k <= |s|
    ensures IsSubsequence(s[..k], s)
    decreases |s|
  {
    if k == |s| {
      assert s[..k] == s;
      SubsequenceReflexive(s);
    } else {
      PrefixSubsequence(s[..|s| - 1], k);
      assert s[..|s| - 1][..k] == s[..k];
    }
  }

  /** `[df.iloc[i]['title'] for i in indices[0]]`: the titles at the neighbour positions. */
  function NeighbourTitles(df: Frame, neighbours: seq<nat>): seq<string>
    requires ValidPositions(df, neighbours)
  {
    seq(|neighbours|, k requires 0 <= k < |neighbours| => df[neighbours[k]].title)
  }

  /** `similar_titles`: the neighbour titles other than the watched movie's, in neighbour order. */
  function Similar(df: Frame, neighbours: seq<nat>, movieTitle: string): seq<string>
    requires ValidPositions(df, neighbours)
    decreases |neighbours|
  {
    if |neighbours| == 0 then []
    else
      var n := |neighbours| - 1;
      var t := df[neighbours[n]].title;
      Similar(df, neighbours[..n], movieTitle) + (if t != movieTitle then [t] else [])
  }

  /** The similar titles are the neighbour titles other than the watched movie's,
      kept in neighbour order, and each is the title of some catalog row. */
  lemma {:induction false} SimilarProperties(df: Frame, neighbours: seq<nat>, movieTitle: string)
    requires ValidPositions(df, neighbours)
    ensures forall t :: t in Similar(df, neighbours, movieTitle) ==> t != movieTitle && FindTitle(df, t).Some?
    ensures forall k :: 0 <= k < |neighbours| && df[neighbours[k]].title != movieTitle ==>
              df[neighbours[k]].title in Similar(df, neighbours, movieTitle)
    ensures IsSubsequence(Similar(df, neighbours, movieTitle), NeighbourTitles(df, neighbours))
    decreases |neighbours|
  {
    if |neighbours| > 0 {
      var n := |neighbours| - 1;
      var t := df[neighbours[n]].title;
      var init := neighbours[..n];
      var rest := Similar(df, init, movieTitle);
      SimilarProperties(df, init, movieTitle);
      NeighbourTitlesSnoc(df, neighbours);
      assert FindTitle(df, t).Some? by {
        assert df[neighbours[n]].title == t;
      }
      forall k | 0 <= k < n ensures neighbours[k] == init[k] { }
      var titles := NeighbourTitles(df, neighbours);
      assert titles[..n] == NeighbourTitles(df, init);
      if t != movieTitle {
        assert (rest + [t])[..|rest|] == rest;
        assert IsSubsequence(rest + [t], titles);
      } else {
        assert Similar(df, neighbours, movieTitle) == rest + [] == rest;
        assert IsSubsequence(rest, titles);
      }
    }
  }

  lemma NeighbourTitlesSnoc(df: Frame, neighbours: seq<nat>)
    requires ValidPositions(df, neighbours) && |neighbours| > 0
    ensures NeighbourTitles(df, neighbours) ==
            NeighbourTitles(df, neighbours[..|neighbours| - 1]) + [df[neighbours[|neighbours| - 1]].title]
  {
    var n := |neighbours| - 1;
    var init := neighbours[..n];
    var titles := NeighbourTitles(df, neighbours);
    forall k | 0 <= k < n ensures titles[k] == NeighbourTitles(df, init)[k] {
      assert init[k] == neighbours[k];
    }
  }

  /** Each neighbour title other than the watched one is kept as often as it occurs. */
  lemma {:induction false} SimilarCounts(df: Frame, neighbours: seq<nat>, movieTitle: string, t: string)
    requires ValidPositions(df, neighbours)
    ensures multiset(Similar(df, neighbours, movieTitle))[t] ==
              if t == movieTitle then 0 else multiset(NeighbourTitles(df, neighbours))[t]
    decreases |neighbours|
  {
    if |neighbours| > 0 {
      var n := |neighbours| - 1;
      var init := neighbours[..n];
      var last := df[neighbours[n]].title;
      SimilarCounts(df, init, movieTitle, t);
      assert Similar(df, neighbours, movieTitle) ==
             Similar(df, init, movieTitle) + (if last != movieTitle then [last] else []);
      NeighbourTitlesSnoc(df, neighbours);
    }
  }

  /** The first row with this title exists and its genres string contains the genre:
      `genre in df[df['title'] == rec].iloc[0]['genres']`. */
  predicate TitleInGenre(df: Frame, t: string, genre: string)
  {
    match FindTitle(df, t)
    case Some(i) => Contains(df[i].genres, genre)
    case None => false
  }

  /** The titles the loop appends when it is not stopped early, in order. */
  function GenreMatches(df: Frame, genre: string, ts: seq<string>): (r: seq<string>)
    ensures |r| <= |ts|
    decreases |ts|
  {
    if |ts| == 0 then []
    else
      var n := |ts| - 1;
      GenreMatches(df, genre, ts[..n]) + (if TitleInGenre(df, ts[n], genre) then [ts[n]] else [])
  }

  /** Exactly the titles whose first row matches the genre are kept, in their order. */
  lemma {:induction false} GenreMatchesProperties(df: Frame, genre: string, ts: seq<string>)
    ensures forall t :: t in GenreMatches(df, genre, ts) <==> t in ts && TitleInGenre(df, t, genre)
    ensures IsSubsequence(GenreMatches(df, genre, ts), ts)
    decreases |ts|
  {
    if |ts| > 0 {
      var n := |ts| - 1;
      var rest := GenreMatches(df, genre, ts[..n]);
      GenreMatchesProperties(df, genre, ts[..n]);
      assert ts == ts[..n] + [ts[n]];
      if TitleInGenre(df, ts[n], genre) {
        assert (rest + [ts[n]])[..|rest|] == rest;
        assert IsSubsequence(rest + [ts[n]], ts);
      } else {
        assert GenreMatches(df, genre, ts) == rest + [] == rest;
        assert IsSubsequence(rest, ts);
      }
    }
  }

  /** Each title is kept as often as it occurs, when its first row matches the genre. */
  lemma {:induction false} GenreMatchesCounts(df: Frame, genre: string, ts: seq<string>, t: string)
    ensures multiset(GenreMatches(df, genre, ts))[t] ==
              if TitleInGenre(df, t, genre) then multiset(ts)[t] else 0
    decreases |ts|
  {
    if |ts| > 0 {
      var n := |ts| - 1;
      GenreMatchesCounts(df, genre, ts[..n], t);
      assert ts == ts[..n] + [ts[n]];
    }
  }

  /** c is where the loop stops over `similar`: it has handled the first c titles,
      before each earlier stop point fewer than top_n had been collected, and it
      stops early only after handling at least one title and collecting top_n. */
  predicate IsCut(df: Frame, genre: string, similar: seq<string>, topN: int, c: int)
  {
    && 0 <= c <= |similar|
    && (forall j :: 1 <= j < c ==> |GenreMatches(df, genre, similar[..j])| < topN)
    && (c < |similar| ==> 1 <= c && |GenreMatches(df, genre, similar[..c])| >= topN)
  }

  /** The stop point is determined by the inputs. */
  lemma CutUnique(df: Frame, genre: string, similar: seq<string>, topN: int, c: int, d: int)
    requires IsCut(df, genre, similar, topN, c) && IsCut(df, genre, similar, topN, d)
    ensures c == d
  {
  }

  lemma GenreMatchesSnoc(df: Frame, genre: string, ts: seq<string>, k: nat)
    requires k < |ts|
    ensures GenreMatches(df, genre, ts[..k + 1]) ==
            GenreMatches(df, genre, ts[..k]) + (if TitleInGenre(df, ts[k], genre) then [ts[k]] else [])
  {
    assert ts[..k + 1][..k] == ts[..k];
  }

  lemma GenreMatchesStep(df: Frame, genre: string, ts: seq<string>, j: nat)
    requires j < |ts|
    ensures |GenreMatches(df, genre, ts[..j + 1])| <= |GenreMatches(df, genre, ts[..j])| + 1
  {
    assert ts[..j + 1][..j] == ts[..j];
  }

  /** Stopping earlier collects a prefix of what a full pass collects. */
  lemma {:induction false} GenreMatchesPrefix(df: Frame, genre: string, ts: seq<string>, j: nat)
    requires j <= |ts|
    ensures GenreMatches(df, genre, ts[..j]) <= GenreMatches(df, genre, ts)
    decreases |ts|
  {
    if j == |ts| {
      assert ts[..j] == ts;
    } else {
      var n := |ts| - 1;
      GenreMatchesPrefix(df, genre, ts[..n], j);
      assert ts[..n][..j] == ts[..j];
    }
  }

  /** What the stop point says about how many titles were collected. */
  lemma {:induction false} CutBounds(df: Frame, genre: string, similar: seq<string>, topN: int, c: int)
    requires IsCut(df, genre, similar, topN, c)
    ensures topN >= 1 ==> |GenreMatches(df, genre, similar[..c])| <= topN
    ensures topN <= 0 ==> |GenreMatches(df, genre, similar[..c])| <= 1
    ensures |GenreMatches(df, genre, similar[..c])| < topN ==> c == |similar|
  {
    if c >= 1 {
      GenreMatchesStep(df, genre, similar, c - 1);
      if c == 1 {
        assert similar[..0] == [];
      }
    }
    if c >= 2 {
      assert |GenreMatches(df, genre, similar[..1])| < topN;
      assert |similar[..1]| == 1;
    }
  }

  /** With top_n >= 1 the loop collects the first top_n titles a full pass would. */
  lemma CutIsHead(df: Frame, genre: string, similar: seq<string>, topN: int, c: int)
    requires IsCut(df, genre, similar, topN, c) && topN >= 1
    ensures GenreMatches(df, genre, similar[..c]) == Head(GenreMatches(df, genre, similar), topN)
  {
    CutBounds(df, genre, similar, topN, c);
    GenreMatchesPrefix(df, genre, similar, c);
    if c == |similar| {
      assert similar[..c] == similar;
    }
  }

  /** `df[df['title'] == t][['title','genres','overview']].iloc[0]` for each collected
      title.  Every collected title is the title of a row; the card without a row
      stands for a case that cannot occur. */
  function CardsFor(df: Frame, ts: seq<string>): (r: seq<Card>)
    ensures Titles(r) == ts
    ensures forall k :: 0 <= k < |ts| && FindTitle(df, ts[k]).Some? ==>
              r[k] == Project(df[FindTitle(df, ts[k]).value])
  {
    seq(|ts|, k requires 0 <= k < |ts| =>
      match FindTitle(df, ts[k])
      case Some(i) => Project(df[i])
      case None => Card(ts[k], "", ""))
  }

  /** The cards `recommend_for_genre_and_movie` returns: those of the titles the
      loop has collected when it stops. */
  ghost predicate Collected(df: Frame, genre: string, movieTitle: string, topN: int,
                            neighbours: seq<nat>, cards: seq<Card>)
    requires ValidPositions(df, neighbours)
  {
    var similar := Similar(df, neighbours, movieTitle);
    exists c :: IsCut(df, genre, similar, topN, c)
      && cards == CardsFor(df, GenreMatches(df, genre, similar[..c]))
  }

  lemma CollectedAt(df: Frame, genre: string, movieTitle: string, topN: int,
                    neighbours: seq<nat>, c: int)
    requires ValidPositions(df, neighbours)
    requires IsCut(df, genre, Similar(df, neighbours, movieTitle), topN, c)
    ensures Collected(df, genre, movieTitle, topN, neighbours,
                      CardsFor(df, GenreMatches(df, genre, Similar(df, neighbours, movieTitle)[..c])))
  {
  }

  /** The promises of `recommend_for_genre_and_movie`: the watched movie is never
      returned; every title's first row matches the genre, and so does its card; at
      most top_n cards (at most one when top_n <= 0); fewer only when every matching
      neighbour is returned; and the titles keep the neighbour order. */
  lemma CollectedProperties(df: Frame, genre: string, movieTitle: string, topN: int,
                            neighbours: seq<nat>, cards: seq<Card>)
    requires ValidPositions(df, neighbours)
    requires Collected(df, genre, movieTitle, topN, neighbours, cards)
    ensures forall k :: 0 <= k < |cards| ==>
              && cards[k].title != movieTitle
              && TitleInGenre(df, cards[k].title, genre)
              && Contains(cards[k].genres, genre)
    ensures topN >= 1 ==> |cards| <= topN
    ensures topN <= 0 ==> |cards| <= 1
    ensures |cards| < topN ==>
              cards == CardsFor(df, GenreMatches(df, genre, Similar(df, neighbours, movieTitle)))
    ensures IsSubsequence(Titles(cards), NeighbourTitles(df, neighbours))
    ensures topN >= 1 ==>
              Titles(cards) == Head(GenreMatches(df, genre, Similar(df, neighbours, movieTitle)), topN)
  {
    var similar := Similar(df, neighbours, movieTitle);
    var c :| IsCut(df, genre, similar, topN, c)
             && cards == CardsFor(df, GenreMatches(df, genre, similar[..c]));
    var collected := GenreMatches(df, genre, similar[..c]);
    SimilarProperties(df, neighbours, movieTitle);
    GenreMatchesProperties(df, genre, similar[..c]);
    CutBounds(df, genre, similar, topN, c);
    forall i | 0 <= i < |cards|
      ensures cards[i].title != movieTitle && TitleInGenre(df, cards[i].title, genre)
      ensures Contains(cards[i].genres, genre)
    {
      assert Titles(cards)[i] == collected[i];
      assert collected[i] in collected;
      assert collected[i] in similar;
    }
    PrefixSubsequence(similar, c);
    SubsequenceTransitive(collected, similar[..c], similar);
    SubsequenceTransitive(collected, similar, NeighbourTitles(df, neighbours));
    if |cards| < topN {
      assert similar[..c] == similar;
    }
    if topN >= 1 {
      CutIsHead(df, genre, similar, topN, c);
    }
  }

  /** `recommend_for_genre_and_movie`.  `neighbours` stands for the positions the
      fitted nearest-neighbour index returns for the watched movie's combined
      features, closest first; a position past the last row makes `df.iloc[i]` fail. */
  method RecommendForGenreAndMovie(df: Frame, genre: string, movieTitle: string, topN: int,
                                   neighbours: seq<nat>) returns (r: Result<seq<Card>>)
    ensures r.Failure? <==> FindTitle(df, movieTitle).None? || !ValidPositions(df, neighbours)
    ensures r.Failure? ==> r.error == if FindTitle(df, movieTitle).None? then TitleNotFound
                                      else NeighbourOutOfRange
    ensures r.Success? ==> ValidPositions(df, neighbours)
                           && Collected(df, genre, movieTitle, topN, neighbours, r.value)
  {
    if FindTitle(df, movieTitle).None? {
      return Failure(TitleNotFound);
    }
    if !ValidPositions(df, neighbours) {
      return Failure(NeighbourOutOfRange);
    }
    var similar := Similar(df, neighbours, movieTitle);
    var finalRecs: seq<string> := [];
    var k := 0;
    while k < |similar|
      invariant 0 <= k <= |similar|
      invariant finalRecs == GenreMatches(df, genre, similar[..k])
      invariant forall j :: 1 <= j <= k ==> |GenreMatches(df, genre, similar[..j])| < topN
    {
      var rec := similar[k];
      GenreMatchesSnoc(df, genre, similar, k);
      match FindTitle(df, rec) {
        case Some(row) =>
          if Contains(df[row].genres, genre) {
            finalRecs := finalRecs + [rec];
          }
        case None =>
      }
      k := k + 1;
      if |finalRecs| >= topN {
        break;
      }
    }
    assert IsCut(df, genre, similar, topN, k);
    CollectedAt(df, genre, movieTitle, topN, neighbours, k);
    r := Success(CardsFor(df, finalRecs));
  }
}
