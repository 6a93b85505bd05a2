/** The movie and game recommenders: a weighted preference score for movies,
    and for both kinds of item the pipeline that drops items the user has
    already seen, filters, scores each candidate, drops the candidates whose
    scoring fails, and returns the ten best pairs.

    The content score (TF-IDF and cosine similarity) and the fuzzy control
    system are opaque: they are the `ContentScore` and `Fuzzy` functions given
    to the recommenders, and a fuzzy result of `None` is a computation that
    raised. */
module Recommender {
  import opened Wrappers
  import opened Text
  import opened Models
  import opened Ranking
  import Seed

  /** The `weights` table of the movie recommender. */
  datatype Weights = Weights(genre: real, tags: real, rating: real, actors: real)

  /** The table `MovieRecommender` is built with. */
  const DefaultWeights := Weights(0.27, 0.29, 0.24, 0.20)

  /** Non-negative weights that sum to 1. */
  predicate ValidWeights(w: Weights) {
    && 0.0 <= w.genre && 0.0 <= w.tags && 0.0 <= w.rating && 0.0 <= w.actors
    && w.genre + w.tags + w.rating + w.actors == 1.0
  }

  /** `float(min(popularity, 1000000))`: the most popularity the movie fuzzy
      system is given. */
  const PopularityCap: int := 1000000

  /** The TF-IDF content score of the item at an index of a corpus of tag lists. */
  type ContentScore = (seq<seq<string>>, nat) -> real

  /** A fuzzy control system run on three inputs; `None` when it raises. */
  type Fuzzy = (real, real, real) -> Option<real>

  /** The `rating` preference: optional `min` and `max` bounds. */
  datatype RatingRange = RatingRange(min: Option<real>, max: Option<real>)

  /** The user's preferences; `None` is a key that is absent. */
  datatype Preferences = Preferences(
    genre: Option<string>, tags: Option<seq<string>>,
    rating: Option<RatingRange>, actors: Option<seq<string>>)

  /** The exceptions scoring can raise. */
  datatype Failure = ZeroDivision | TypeError

  /** The built-in weights are non-negative and sum to 1. */
  lemma DefaultWeightsValid()
    ensures ValidWeights(DefaultWeights)
  {
  }

  /** `x.strip().lower()` */
  function Norm(s: string): string {
    Lower(Strip(s))
  }

  /** `[x.strip().lower() for x in xs]` */
  function NormAll(xs: seq<string>): (r: seq<string>)
    ensures |r| == |xs|
  {
    seq(|xs|, k requires 0 <= k < |xs| => Norm(xs[k]))
  }

  /** `set(xs)` */
  function Elems(xs: seq<string>): (r: set<string>)
    ensures forall x :: x in r <==> x in xs
  {
    if xs == [] then {}
    else
      var init := xs[..|xs| - 1];
      assert xs == init + [xs[|xs| - 1]];
      Elems(init) + {xs[|xs| - 1]}
  }

  /** The comma-split, stripped, lower-cased genre tokens of an item. */
  function GenreTokens(genre: string): seq<string> {
    NormAll(Split(genre, ','))
  }

  /** `pref.lower() in [g.strip().lower() for g in genre.split(',')]`; the
      preference itself is lower-cased but not stripped. */
  predicate GenreMatches(pref: string, genre: string)
    ensures ',' in pref ==> !GenreMatches(pref, genre)
  {
    GenreTokensCommaFree(genre);
    LowerComma(pref);
    Lower(pref) in GenreTokens(genre)
  }

  /** No genre token holds a comma. */
  lemma GenreTokensCommaFree(genre: string)
    ensures forall t :: t in GenreTokens(genre) ==> ',' !in t
  {
    var pieces := Split(genre, ',');
    var tokens := GenreTokens(genre);
    forall k | 0 <= k < |tokens| ensures ',' !in tokens[k] {
      LowerComma(Strip(pieces[k]));
    }
  }

  /** `len(set(item) & set(pref))` for lists already normalised: the distinct
      entries of `pref` that `item` holds, each counted at its first
      occurrence in `pref`. */
  function SharedCount(item: seq<string>, pref: seq<string>): (r: nat)
    ensures r <= |pref|
    decreases |pref|
  {
    if pref == [] then 0
    else
      var init, x := pref[..|pref| - 1], pref[|pref| - 1];
      SharedCount(item, init) + (if x in item && x !in init then 1 else 0)
  }

  /** The count is the size of the intersection of the two sets of entries. */
  lemma {:induction false} SharedCountIsIntersection(item: seq<string>, pref: seq<string>)
    ensures SharedCount(item, pref) == |Elems(item) * Elems(pref)|
    decreases |pref|
  {
    if pref != [] {
      var init, x := pref[..|pref| - 1], pref[|pref| - 1];
      SharedCountIsIntersection(item, init);
      assert Elems(pref) == Elems(init) + {x};
      IntersectionAdd(Elems(item), Elems(init), x);
    }
  }

  /** Adding one element to one side of an intersection adds it to the
      intersection exactly when the other side holds it and it is new. */
  lemma IntersectionAdd(shared: set<string>, before: set<string>, x: string)
    ensures |shared * (before + {x})| == |shared * before| + (if x in shared && x !in before then 1 else 0)
  {
    if x in shared && x !in before {
      assert shared * (before + {x}) == shared * before + {x};
    } else {
      assert shared * (before + {x}) == shared * before;
    }
  }

  /** An item holding every entry another holds shares at least as many. */
  lemma {:induction false} SharedCountMonotone(fewer: seq<string>, more: seq<string>, pref: seq<string>)
    requires forall x :: x in fewer ==> x in more
    ensures SharedCount(fewer, pref) <= SharedCount(more, pref)
    decreases |pref|
  {
    if pref != [] {
      SharedCountMonotone(fewer, more, pref[..|pref| - 1]);
    }
  }

  /** The number of distinct normalised entries a list shares with a
      preference list. */
  function Overlap(itemList: seq<string>, prefList: seq<string>): (r: nat)
    ensures r <= |prefList|
  {
    SharedCount(NormAll(itemList), NormAll(prefList))
  }

  /** The overlap is the size of the intersection of the two normalised sets. */
  lemma OverlapIsIntersection(itemList: seq<string>, prefList: seq<string>)
    ensures Overlap(itemList, prefList) == |Elems(NormAll(itemList)) * Elems(NormAll(prefList))|
  {
    SharedCountIsIntersection(NormAll(itemList), NormAll(prefList));
  }

  lemma ShareBounds(weight: real, m: nat, n: nat)
    requires 0.0 <= weight && m <= n && n > 0
    ensures 0.0 <= weight * (m as real) / (n as real) <= weight
  {
    var q := (m as real) / (n as real);
    assert 0.0 <= q <= 1.0;
    assert weight * (m as real) / (n as real) == weight * q;
    assert weight * q <= weight * 1.0;
  }

  lemma ShareMonotone(weight: real, a: nat, b: nat, n: nat)
    requires 0.0 <= weight && a <= b && n > 0
    ensures weight * (a as real) / (n as real) <= weight * (b as real) / (n as real)
  {
    var qa, qb := (a as real) / (n as real), (b as real) / (n as real);
    assert qa <= qb;
    assert weight * (a as real) / (n as real) == weight * qa;
    assert weight * (b as real) / (n as real) == weight * qb;
    assert weight * qa <= weight * qb;
  }

  /** `weight * len(matching) / len(prefs)`, which divides by zero for an
      empty preference list. */
  function ListContribution(weight: real, itemList: seq<string>, prefList: seq<string>): (r: Result<real, Failure>)
    ensures r.Err? <==> prefList == []
    ensures r.Ok? && 0.0 <= weight ==> 0.0 <= r.value <= weight
  {
    if |prefList| == 0 then Err(ZeroDivision)
    else
      var m := Overlap(itemList, prefList);
      if 0.0 <= weight then ShareBounds(weight, m, |prefList|); Ok(weight * (m as real) / (|prefList| as real))
      else Ok(weight * (m as real) / (|prefList| as real))
  }

  lemma ListContributionShare(weight: real, itemList: seq<string>, prefList: seq<string>)
    requires prefList != []
    ensures ListContribution(weight, itemList, prefList) ==
      Ok(weight * (Overlap(itemList, prefList) as real) / (|prefList| as real))
  {
  }

  /** `weight * m / n`: the weight scaled by the share `m / n`. */
  function Share(weight: real, m: nat, n: nat): real
    requires n > 0
  {
    weight * (m as real) / (n as real)
  }

  /** A non-empty preference list contributes the weight times the size of
      the intersection of the two normalised sets, divided by the length of
      the preference list. */
  lemma ListContributionValue(weight: real, itemList: seq<string>, prefList: seq<string>)
    requires prefList != []
    ensures ListContribution(weight, itemList, prefList)
      == Ok(Share(weight, |Elems(NormAll(itemList)) * Elems(NormAll(prefList))|, |prefList|))
  {
    ListContributionShare(weight, itemList, prefList);
    assert ListContribution(weight, itemList, prefList) == Ok(Share(weight, Overlap(itemList, prefList), |prefList|));
    OverlapIsIntersection(itemList, prefList);
  }

  /** An item holding every normalised entry another holds shares at least
      as many preferred entries. */
  lemma OverlapMonotone(fewer: seq<string>, more: seq<string>, prefList: seq<string>)
    requires forall x :: x in NormAll(fewer) ==> x in NormAll(more)
    ensures Overlap(fewer, prefList) <= Overlap(more, prefList)
  {
    SharedCountMonotone(NormAll(fewer), NormAll(more), NormAll(prefList));
  }

  lemma ContributionGrowsWithOverlap(weight: real, fewer: seq<string>, more: seq<string>, prefList: seq<string>)
    requires 0.0 <= weight && prefList != []
    requires Overlap(fewer, prefList) <= Overlap(more, prefList)
    ensures ListContribution(weight, fewer, prefList).value <= ListContribution(weight, more, prefList).value
  {
    ShareMonotone(weight, Overlap(fewer, prefList), Overlap(more, prefList), |prefList|);
    ListContributionShare(weight, fewer, prefList);
    ListContributionShare(weight, more, prefList);
  }

  /** More shared entries on the item never lower a list's contribution. */
  lemma ContributionMonotone(weight: real, fewer: seq<string>, more: seq<string>, prefList: seq<string>)
    requires 0.0 <= weight && prefList != []
    requires forall x :: x in NormAll(fewer) ==> x in NormAll(more)
    ensures ListContribution(weight, fewer, prefList).value <= ListContribution(weight, more, prefList).value
  {
    OverlapMonotone(fewer, more, prefList);
    ContributionGrowsWithOverlap(weight, fewer, more, prefList);
  }

  /** `min <= rating <= max`, a missing bound being infinite. */
  predicate InRange(range: RatingRange, rating: real) {
    (range.min.None? || range.min.value <= rating) && (range.max.None? || rating <= range.max.value)
  }

  function GenrePart(weight: real, pref: Option<string>, genre: string): real {
    if pref.Some? && GenreMatches(pref.value, genre) then weight else 0.0
  }

  function ListPart(weight: real, itemList: seq<string>, pref: Option<seq<string>>): (r: Result<real, Failure>)
    ensures r.Err? <==> pref == Some([])
    ensures r.Ok? && 0.0 <= weight ==> 0.0 <= r.value <= weight
  {
    if pref.None? then Ok(0.0) else ListContribution(weight, itemList, pref.value)
  }

  /** Comparing a missing rating raises a TypeError. */
  function RatingPart(weight: real, pref: Option<RatingRange>, rating: Option<real>): (r: Result<real, Failure>)
    ensures r.Err? <==> pref.Some? && rating.None?
    ensures r.Ok? ==> r.value == 0.0 || r.value == weight
  {
    if pref.None? then Ok(0.0)
    else if rating.None? then Err(TypeError)
    else if InRange(pref.value, rating.value) then Ok(weight)
    else Ok(0.0)
  }

  /** `calculate_preference_score`: the sum of the genre, tags, rating and
      actors contributions. It lies in [0, 1]; it fails exactly when a tag or
      actor preference list is empty or a rating range meets an item
      without a rating. */
  function PreferenceScore(w: Weights, item: MovieDict, prefs: Preferences): (r: Result<real, Failure>)
    ensures r.Err? <==>
      prefs.tags == Some([]) || (prefs.rating.Some? && item.rating.None?) || prefs.actors == Some([])
    ensures r.Ok? && ValidWeights(w) ==> 0.0 <= r.value <= 1.0
  {
    var tags, rating, actors := ListPart(w.tags, item.tags, prefs.tags),
      RatingPart(w.rating, prefs.rating, item.rating), ListPart(w.actors, item.actors, prefs.actors);
    if tags.Err? then Err(tags.error)
    else if rating.Err? then Err(rating.error)
    else if actors.Err? then Err(actors.error)
    else Ok(GenrePart(w.genre, prefs.genre, item.genre) + tags.value + rating.value + actors.value)
  }

  /** Without any of the four keys the score is 0. */
  lemma NoPreferencesScoreZero(w: Weights, item: MovieDict)
    ensures PreferenceScore(w, item, Preferences(None, None, None, None)) == Ok(0.0)
  {
  }

  /** The genre adds exactly its weight when the preferred genre is one of
      the item's genre tokens, and nothing otherwise. */
  lemma GenreAddsWeight(w: Weights, item: MovieDict, prefs: Preferences)
    requires PreferenceScore(w, item, prefs).Ok?
    ensures PreferenceScore(w, item, prefs.(genre := None)).Ok?
    ensures PreferenceScore(w, item, prefs).value - PreferenceScore(w, item, prefs.(genre := None)).value
      == if prefs.genre.Some? && GenreMatches(prefs.genre.value, item.genre) then w.genre else 0.0
  {
  }

  /** Dropping the tags preference removes exactly the tags contribution,
      the weight times the share of preferred tags present. */
  lemma TagsAddShare(w: Weights, item: MovieDict, prefs: Preferences)
    requires prefs.tags.Some? && PreferenceScore(w, item, prefs).Ok?
    ensures PreferenceScore(w, item, prefs.(tags := None)).Ok?
    ensures PreferenceScore(w, item, prefs).value - PreferenceScore(w, item, prefs.(tags := None)).value
      == ListContribution(w.tags, item.tags, prefs.tags.value).value
  {
  }

  /** The rating adds exactly its weight when it lies in the range, bounds
      included. */
  lemma RatingAddsWeight(w: Weights, item: MovieDict, prefs: Preferences)
    requires prefs.rating.Some? && PreferenceScore(w, item, prefs).Ok?
    ensures item.rating.Some? && PreferenceScore(w, item, prefs.(rating := None)).Ok?
    ensures PreferenceScore(w, item, prefs).value - PreferenceScore(w, item, prefs.(rating := None)).value
      == if InRange(prefs.rating.value, item.rating.value) then w.rating else 0.0
  {
  }

  /** Dropping the actors preference removes exactly the actors
      contribution, the weight times the share of preferred actors present. */
  lemma ActorsAddShare(w: Weights, item: MovieDict, prefs: Preferences)
    requires prefs.actors.Some? && PreferenceScore(w, item, prefs).Ok?
    ensures PreferenceScore(w, item, prefs.(actors := None)).Ok?
    ensures PreferenceScore(w, item, prefs).value - PreferenceScore(w, item, prefs.(actors := None)).value
      == ListContribution(w.actors, item.actors, prefs.actors.value).value
  {
  }

  /** A comma-space-joined genre list matches exactly the genres it lists,
      compared lower-cased. */
  lemma GenreMatchesJoined(pref: string, genres: seq<string>)
    requires Joinable(genres)
    ensures GenreMatches(pref, Join(genres, ", ")) <==>
      exists k :: 0 <= k < |genres| && Lower(pref) == Lower(genres[k])
  {
    StripJoinedPieces(genres);
    var pieces := Split(Join(genres, ", "), ',');
    var tokens := GenreTokens(Join(genres, ", "));
    assert forall k :: 0 <= k < |genres| ==> tokens[k] == Lower(genres[k]);
  }

  lemma LowerKeepsSpace(s: string)
    requires |s| > 0
    ensures |Lower(s)| > 0 && (IsSpace(Lower(s)[0]) <==> IsSpace(s[0]))
  {
  }

  /** A preferred genre with leading whitespace matches no item. */
  lemma GenreUnstrippedNeverMatches(pref: string, genre: string)
    requires |pref| > 0 && IsSpace(pref[0])
    ensures !GenreMatches(pref, genre)
  {
    LowerKeepsSpace(pref);
    var tokens := GenreTokens(genre);
    forall k | 0 <= k < |tokens| ensures tokens[k] != Lower(pref) {
      var t := Strip(Split(genre, ',')[k]);
      if |t| > 0 {
        LowerKeepsSpace(t);
      }
    }
  }

  /** `item not in user_history` over the catalog, in catalog order. */
  function Available<T(==, !new)>(items: seq<T>, history: seq<T>): (r: seq<T>)
    ensures |r| <= |items|
    ensures forall x :: x in r <==> x in items && x !in history
    ensures (forall x :: x in items ==> x in history) ==> r == []
  {
    if items == [] then []
    else
      var rest := Available(items[1..], history);
      assert items == [items[0]] + items[1..];
      if items[0] in history then rest else [items[0]] + rest
  }

  /** The history filter keeps catalog order and multiplicity: filtering a
      concatenation filters each part. */
  lemma {:induction false} AvailableAppend<T(!new)>(a: seq<T>, b: seq<T>, history: seq<T>)
    ensures Available(a + b, history) == Available(a, history) + Available(b, history)
  {
    if a == [] {
      assert a + b == b;
    } else {
      assert (a + b)[1..] == a[1..] + b;
      AvailableAppend(a[1..], b, history);
    }
  }

  /** The documents the TF-IDF vectoriser is fitted on: one tag list per item. */
  function TagCorpus(items: seq<MovieDict>): (r: seq<seq<string>>)
    ensures |r| == |items|
    ensures forall k :: 0 <= k < |items| ==> r[k] == items[k].tags
  {
    seq(|items|, k requires 0 <= k < |items| => items[k].tags)
  }

  /** Fitting the vectoriser raises when no document holds a token. */
  predicate EmptyVocabulary(corpus: seq<seq<string>>) {
    forall k :: 0 <= k < |corpus| ==> corpus[k] == []
  }

  /** Fitting raises exactly when no available movie has a tag. */
  lemma EmptyVocabularyTags(items: seq<MovieDict>)
    ensures EmptyVocabulary(TagCorpus(items)) <==> forall m :: m in items ==> m.tags == []
  {
    var corpus := TagCorpus(items);
    if EmptyVocabulary(corpus) {
      forall m | m in items ensures m.tags == [] {
        var k :| 0 <= k < |items| && items[k] == m;
        assert corpus[k] == m.tags;
      }
    }
  }

  /** The fuzzy inputs for a movie: `0.7 * pref + 0.3 * cb`, the rating, and
      the popularity capped at 1,000,000. */
  function MovieInputs(pref: real, cb: real, rating: real, popularity: int): (r: (real, real, real))
    ensures r.0 == 0.7 * pref + 0.3 * cb
    ensures r.1 == rating
    ensures r.2 <= PopularityCap as real
    ensures popularity <= PopularityCap ==> r.2 == popularity as real
    ensures popularity >= PopularityCap ==> r.2 == PopularityCap as real
  {
    (0.7 * pref + 0.3 * cb, rating, (if popularity < PopularityCap then popularity else PopularityCap) as real)
  }

  /** A preference score and a content score in [0, 1] give an overall score
      in [0, 1]. */
  lemma OverallInUnitRange(pref: real, cb: real, rating: real, popularity: int)
    requires 0.0 <= pref <= 1.0 && 0.0 <= cb <= 1.0
    ensures 0.0 <= MovieInputs(pref, cb, rating, popularity).0 <= 1.0
  {
  }

  /** The final score of the movie at index `i` of the candidates, or `None`
      when it is dropped: its preference score raises, both its preference and
      content scores are 0, it lacks a rating or a popularity (`float(None)`
      and `min(None, ...)` raise), or the fuzzy system raises. */
  function ScoreMovie(w: Weights, avail: seq<MovieDict>, i: nat, prefs: Preferences, cs: ContentScore, fuzzy: Fuzzy): (r: Option<real>)
    requires i < |avail|
  {
    var item := avail[i];
    match PreferenceScore(w, item, prefs)
    case Err(_) => None
    case Ok(pref) =>
      var cb := cs(TagCorpus(avail), i);
      if !(pref > 0.0 || cb > 0.0) then None
      else if item.rating.None? || item.popularity.None? then None
      else
        var inputs := MovieInputs(pref, cb, item.rating.value, item.popularity.value);
        fuzzy(inputs.0, inputs.1, inputs.2)
  }

  /** The outcome of scoring each of the first `n` candidates, in candidate
      order. */
  function MovieScoreList(w: Weights, avail: seq<MovieDict>, prefs: Preferences, cs: ContentScore, fuzzy: Fuzzy, n: nat): (r: seq<Option<real>>)
    requires n <= |avail|
    ensures |r| == n
  {
    if n == 0 then [] else MovieScoreList(w, avail, prefs, cs, fuzzy, n - 1) + [ScoreMovie(w, avail, n - 1, prefs, cs, fuzzy)]
  }

  /** The outcome recorded for a candidate is its score. */
  lemma {:induction false} MovieScoreListAt(w: Weights, avail: seq<MovieDict>, prefs: Preferences, cs: ContentScore, fuzzy: Fuzzy, n: nat, i: nat)
    requires i < n <= |avail|
    ensures MovieScoreList(w, avail, prefs, cs, fuzzy, n)[i] == ScoreMovie(w, avail, i, prefs, cs, fuzzy)
    decreases n
  {
    if i < n - 1 {
      MovieScoreListAt(w, avail, prefs, cs, fuzzy, n - 1, i);
    }
  }

  /** What `MovieRecommender.recommend` returns. */
  function MovieRanking(w: Weights, items: seq<MovieDict>, cs: ContentScore, fuzzy: Fuzzy, prefs: Preferences, history: seq<MovieDict>): (r: seq<(MovieDict, real)>)
    ensures |r| <= Limit && SortedDesc(r)
  {
    var avail := Available(items, history);
    if avail == [] then []
    else if EmptyVocabulary(TagCorpus(avail)) then []
    else TopTen(ScoredPairs(avail, MovieScoreList(w, avail, prefs, cs, fuzzy, |avail|), |avail|))
  }

  /** Each returned pair is a catalog movie that is not in the history, and
      its score is the one it got at its index `i` among the candidates. */
  lemma MovieRankingSound(w: Weights, items: seq<MovieDict>, cs: ContentScore, fuzzy: Fuzzy, prefs: Preferences, history: seq<MovieDict>, p: (MovieDict, real))
    returns (i: nat)
    requires p in MovieRanking(w, items, cs, fuzzy, prefs, history)
    ensures p.0 in items && p.0 !in history
    ensures i < |Available(items, history)| && Available(items, history)[i] == p.0
    ensures ScoreMovie(w, Available(items, history), i, prefs, cs, fuzzy) == Some(p.1)
  {
    var avail := Available(items, history);
    var scores := MovieScoreList(w, avail, prefs, cs, fuzzy, |avail|);
    i := TopTenScored(avail, scores, p);
    assert avail[i] in avail;
    MovieScoreListAt(w, avail, prefs, cs, fuzzy, |avail|, i);
  }

  /** A returned movie has a preference score, a positive preference or
      content score, a rating and a popularity, and its score is the fuzzy
      output on the overall score, the rating and the capped popularity. */
  lemma ScoredMovieGate(w: Weights, avail: seq<MovieDict>, i: nat, prefs: Preferences, cs: ContentScore, fuzzy: Fuzzy, s: real)
    requires i < |avail| && ScoreMovie(w, avail, i, prefs, cs, fuzzy) == Some(s)
    ensures PreferenceScore(w, avail[i], prefs).Ok? && avail[i].rating.Some? && avail[i].popularity.Some?
    ensures var pref, cb := PreferenceScore(w, avail[i], prefs).value, cs(TagCorpus(avail), i);
      && (pref > 0.0 || cb > 0.0)
      && fuzzy(0.7 * pref + 0.3 * cb, avail[i].rating.value,
               (if avail[i].popularity.value < PopularityCap then avail[i].popularity.value else PopularityCap) as real)
         == Some(s)
  {
  }

  /** A movie whose preference score succeeds, whose preference or content
      score is positive and which has a rating and a popularity gets exactly
      the fuzzy output on its inputs: it is dropped only when that output is
      `None`. */
  lemma MovieGatePassed(w: Weights, avail: seq<MovieDict>, i: nat, prefs: Preferences, cs: ContentScore, fuzzy: Fuzzy)
    requires i < |avail| && PreferenceScore(w, avail[i], prefs).Ok?
    requires PreferenceScore(w, avail[i], prefs).value > 0.0 || cs(TagCorpus(avail), i) > 0.0
    requires avail[i].rating.Some? && avail[i].popularity.Some?
    ensures var inputs := MovieInputs(PreferenceScore(w, avail[i], prefs).value, cs(TagCorpus(avail), i),
        avail[i].rating.value, avail[i].popularity.value);
      ScoreMovie(w, avail, i, prefs, cs, fuzzy) == fuzzy(inputs.0, inputs.1, inputs.2)
  {
  }

  /** Nothing left after the history is removed: no recommendation. */
  lemma MovieRankingAllSeen(w: Weights, items: seq<MovieDict>, cs: ContentScore, fuzzy: Fuzzy, prefs: Preferences, history: seq<MovieDict>)
    requires forall x :: x in items ==> x in history
    ensures MovieRanking(w, items, cs, fuzzy, prefs, history) == []
  {
  }

  /** When no catalog movie has a tag, fitting the vectoriser raises, the
      outer handler catches it, and nothing is recommended. */
  lemma MovieRankingNoTags(w: Weights, items: seq<MovieDict>, cs: ContentScore, fuzzy: Fuzzy, prefs: Preferences, history: seq<MovieDict>)
    requires forall m :: m in items ==> m.tags == []
    ensures MovieRanking(w, items, cs, fuzzy, prefs, history) == []
  {
    var avail := Available(items, history);
    EmptyVocabularyTags(avail);
  }

  /** An empty tag or actor preference list makes every preference score
      divide by zero, so every item is dropped. */
  lemma MovieRankingEmptyPreferenceList(w: Weights, items: seq<MovieDict>, cs: ContentScore, fuzzy: Fuzzy, prefs: Preferences, history: seq<MovieDict>)
    requires prefs.tags == Some([]) || prefs.actors == Some([])
    ensures MovieRanking(w, items, cs, fuzzy, prefs, history) == []
  {
    var avail := Available(items, history);
    if avail != [] && !EmptyVocabulary(TagCorpus(avail)) {
      var scores := MovieScoreList(w, avail, prefs, cs, fuzzy, |avail|);
      var pairs := ScoredPairs(avail, scores, |avail|);
      if pairs != [] {
        var i := ScoredPairsSound(avail, scores, |avail|, pairs[0]);
        MovieScoreListAt(w, avail, prefs, cs, fuzzy, |avail|, i);
        assert false;
      }
    }
  }

  /** A candidate that is scored is returned, unless ten pairs scoring at
      least as much are returned instead. */
  lemma MovieRankingComplete(w: Weights, items: seq<MovieDict>, cs: ContentScore, fuzzy: Fuzzy, prefs: Preferences, history: seq<MovieDict>, i: nat)
    requires i < |Available(items, history)| && !EmptyVocabulary(TagCorpus(Available(items, history)))
    requires ScoreMovie(w, Available(items, history), i, prefs, cs, fuzzy).Some?
    ensures var r := MovieRanking(w, items, cs, fuzzy, prefs, history);
      var p := (Available(items, history)[i], ScoreMovie(w, Available(items, history), i, prefs, cs, fuzzy).value);
      p in r || (|r| == Limit && forall q :: q in r ==> p.1 <= q.1)
  {
    var avail := Available(items, history);
    var scores := MovieScoreList(w, avail, prefs, cs, fuzzy, |avail|);
    MovieScoreListAt(w, avail, prefs, cs, fuzzy, |avail|, i);
    ScoredPairsComplete(avail, scores, |avail|, i);
    TopTenComplete(ScoredPairs(avail, scores, |avail|), (avail[i], scores[i].value));
  }

  /** Ties keep candidate order: the returned movies scored `s` are the
      first of the candidates scored `s`, in candidate order. */
  lemma MovieRankingTies(w: Weights, items: seq<MovieDict>, cs: ContentScore, fuzzy: Fuzzy, prefs: Preferences, history: seq<MovieDict>, s: real)
    ensures var avail := Available(items, history);
      WithScore(MovieRanking(w, items, cs, fuzzy, prefs, history), s)
        <= ScoredPairs(avail, KeepScore(MovieScoreList(w, avail, prefs, cs, fuzzy, |avail|), s), |avail|)
  {
    var avail := Available(items, history);
    if avail != [] && !EmptyVocabulary(TagCorpus(avail)) {
      var scores := MovieScoreList(w, avail, prefs, cs, fuzzy, |avail|);
      TopTenStable(ScoredPairs(avail, scores, |avail|), s);
      WithScoreScoredPairs(avail, scores, |avail|, s);
    }
  }

  /** `MovieRecommender`: a catalog of movie dictionaries, the weights table
      and the two opaque scores. */
  class MovieRecommender {
    const items: seq<MovieDict>
    const weights: Weights
    const contentScore: ContentScore
    const fuzzy: Fuzzy

    constructor (items: seq<MovieDict>, contentScore: ContentScore, fuzzy: Fuzzy)
      ensures this.items == items && this.weights == DefaultWeights
      ensures this.contentScore == contentScore && this.fuzzy == fuzzy
    {
      this.items, this.weights := items, DefaultWeights;
      this.contentScore, this.fuzzy := contentScore, fuzzy;
    }

    /** `calculate_preference_score`, accumulating the score attribute by
        attribute. */
    method CalculatePreferenceScore(item: MovieDict, prefs: Preferences) returns (r: Result<real, Failure>)
      ensures r == PreferenceScore(weights, item, prefs)
    {
      ghost var genre, tags := GenrePart(weights.genre, prefs.genre, item.genre), ListPart(weights.tags, item.tags, prefs.tags);
      ghost var rating, actors := RatingPart(weights.rating, prefs.rating, item.rating), ListPart(weights.actors, item.actors, prefs.actors);
      var score := 0.0;
      if prefs.genre.Some? {
        var genres := GenreTokens(item.genre);
        if Lower(prefs.genre.value) in genres {
          score := score + weights.genre;
        }
      }
      assert score == genre;
      if prefs.tags.Some? {
        var share := ListContribution(weights.tags, item.tags, prefs.tags.value);
        if share.Err? {
          return Err(share.error);
        }
        score := score + share.value;
      }
      assert score == genre + tags.value;
      if prefs.rating.Some? {
        if item.rating.None? {
          return Err(TypeError);
        }
        if InRange(prefs.rating.value, item.rating.value) {
          score := score + weights.rating;
        }
      }
      assert score == genre + tags.value + rating.value;
      if prefs.actors.Some? {
        var share := ListContribution(weights.actors, item.actors, prefs.actors.value);
        if share.Err? {
          return Err(share.error);
        }
        score := score + share.value;
      }
      assert score == genre + tags.value + rating.value + actors.value;
      return Ok(score);
    }

    /** One pass of the scoring loop's `try` block: the candidate's final
        score, or `None` when the block raises or skips the candidate. */
    method ScoreCandidate(available: seq<MovieDict>, corpus: seq<seq<string>>, idx: nat, prefs: Preferences) returns (score: Option<real>)
      requires idx < |available| && corpus == TagCorpus(available)
      ensures score == ScoreMovie(weights, available, idx, prefs, contentScore, fuzzy)
    {
      var item := available[idx];
      var pref := CalculatePreferenceScore(item, prefs);
      if pref.Err? {
        return None;
      }
      var cb := contentScore(corpus, idx);
      if !(pref.value > 0.0 || cb > 0.0) {
        return None;
      }
      if item.rating.None? || item.popularity.None? {
        return None;
      }
      var inputs := MovieInputs(pref.value, cb, item.rating.value, item.popularity.value);
      score := fuzzy(inputs.0, inputs.1, inputs.2);
    }

    /** The scoring loop of `recommend`: the (item, score) pairs of the
        candidates whose scoring succeeds, in candidate order. */
    method ScoreCandidates(available: seq<MovieDict>, corpus: seq<seq<string>>, prefs: Preferences) returns (scores: seq<(MovieDict, real)>)
      requires corpus == TagCorpus(available)
      ensures scores == ScoredPairs(available, MovieScoreList(weights, available, prefs, contentScore, fuzzy, |available|), |available|)
    {
      ghost var outcomes := MovieScoreList(weights, available, prefs, contentScore, fuzzy, |available|);
      scores := [];
      var idx := 0;
      while idx < |available|
        invariant 0 <= idx <= |available|
        invariant scores == ScoredPairs(available, outcomes, idx)
      {
        MovieScoreListAt(weights, available, prefs, contentScore, fuzzy, |available|, idx);
        var score := ScoreCandidate(available, corpus, idx, prefs);
        if score.Some? {
          scores := scores + [(available[idx], score.value)];
        }
        idx := idx + 1;
      }
    }

    /** `recommend`: the ten best-scored movies not in the history. */
    method Recommend(prefs: Preferences, history: seq<MovieDict>) returns (ranked: seq<(MovieDict, real)>)
      ensures ranked == MovieRanking(weights, items, contentScore, fuzzy, prefs, history)
    {
      var available := Available(items, history);
      if |available| == 0 {
        return [];
      }
      var corpus := TagCorpus(available);
      if EmptyVocabulary(corpus) {
        return [];
      }
      var scores := ScoreCandidates(available, corpus, prefs);
      ranked := TopTen(scores);
    }
  }

  /** `min <= rating * 10 <= max`, the bounds defaulting to 0 and 10. */
  predicate InGameRange(range: RatingRange, rating: real)
    ensures range == RatingRange(None, None) ==> (InGameRange(range, rating) <==> 0.0 <= rating <= 1.0)
  {
    var lo := if range.min.Some? then range.min.value else 0.0;
    var hi := if range.max.Some? then range.max.value else 10.0;
    lo <= rating * 10.0 <= hi
  }

  /** The genre pre-filter. */
  function GenreFilter(games: seq<GameDict>, genre: string): (r: seq<GameDict>)
    ensures |r| <= |games|
    ensures forall g :: g in r <==> g in games && GenreMatches(genre, g.genre)
  {
    if games == [] then []
    else
      var rest := GenreFilter(games[1..], genre);
      assert games == [games[0]] + games[1..];
      if GenreMatches(genre, games[0].genre) then [games[0]] + rest else rest
  }

  /** The genre pre-filter keeps candidate order and multiplicity. */
  lemma {:induction false} GenreFilterAppend(a: seq<GameDict>, b: seq<GameDict>, genre: string)
    ensures GenreFilter(a + b, genre) == GenreFilter(a, genre) + GenreFilter(b, genre)
  {
    if a == [] {
      assert a + b == b;
    } else {
      assert (a + b)[1..] == a[1..] + b;
      GenreFilterAppend(a[1..], b, genre);
    }
  }

  /** The rating pre-filter; `None * 10` raises a TypeError, which nothing
      in `GameRecommender.recommend` catches. */
  function RatingFilter(games: seq<GameDict>, range: RatingRange): (r: Result<seq<GameDict>, Failure>)
    ensures r.Err? <==> exists g :: g in games && g.rating.None?
    ensures r.Ok? ==> |r.value| <= |games|
    ensures r.Ok? ==> forall g :: g in r.value <==> g in games && InGameRange(range, g.rating.value)
  {
    if games == [] then Ok([])
    else
      assert games == [games[0]] + games[1..];
      if games[0].rating.None? then Err(TypeError)
      else
        var rest :- RatingFilter(games[1..], range);
        Ok(if InGameRange(range, games[0].rating.value) then [games[0]] + rest else rest)
  }

  /** One step of the rating pre-filter over a rated game. */
  lemma RatingFilterCons(x: GameDict, t: seq<GameDict>, range: RatingRange)
    requires x.rating.Some? && RatingFilter(t, range).Ok?
    ensures RatingFilter([x] + t, range)
      == Ok((if InGameRange(range, x.rating.value) then [x] else []) + RatingFilter(t, range).value)
  {
    assert ([x] + t)[0] == x && ([x] + t)[1..] == t;
    if !InGameRange(range, x.rating.value) {
      assert [] + RatingFilter(t, range).value == RatingFilter(t, range).value;
    }
  }

  /** The rating pre-filter succeeds on a list only if it succeeds on its
      tail, whose head is rated. */
  lemma RatingFilterOkTail(a: seq<GameDict>, range: RatingRange)
    requires a != [] && RatingFilter(a, range).Ok?
    ensures a[0].rating.Some? && RatingFilter(a[1..], range).Ok?
  {
  }

  lemma ConcatAssoc<T>(a: seq<T>, b: seq<T>, c: seq<T>)
    ensures a + b + c == a + (b + c)
  {
  }

  /** The inductive step of `RatingFilterAppend`: prefixing a rated game. */
  lemma RatingFilterAppendStep(x: GameDict, t: seq<GameDict>, b: seq<GameDict>, range: RatingRange)
    requires x.rating.Some? && RatingFilter(t, range).Ok? && RatingFilter(b, range).Ok?
    requires RatingFilter(t + b, range) == Ok(RatingFilter(t, range).value + RatingFilter(b, range).value)
    ensures RatingFilter([x] + t + b, range) == Ok(RatingFilter([x] + t, range).value + RatingFilter(b, range).value)
  {
    var u, v := RatingFilter(t, range).value, RatingFilter(b, range).value;
    var head := if InGameRange(range, x.rating.value) then [x] else [];
    RatingFilterCons(x, t, range);
    RatingFilterCons(x, t + b, range);
    ConcatAssoc(head, u, v);
    ConcatAssoc([x], t, b);
  }

  /** The rating pre-filter keeps candidate order and multiplicity. */
  lemma {:induction false} RatingFilterAppend(a: seq<GameDict>, b: seq<GameDict>, range: RatingRange)
    requires RatingFilter(a, range).Ok? && RatingFilter(b, range).Ok?
    ensures RatingFilter(a + b, range) == Ok(RatingFilter(a, range).value + RatingFilter(b, range).value)
  {
    if a == [] {
      assert a + b == b;
      assert RatingFilter(a, range) == Ok([]);
      assert [] + RatingFilter(b, range).value == RatingFilter(b, range).value;
    } else {
      RatingFilterOkTail(a, range);
      RatingFilterAppend(a[1..], b, range);
      assert a == [a[0]] + a[1..];
      RatingFilterAppendStep(a[0], a[1..], b, range);
    }
  }

  /** The candidates after both pre-filters. */
  function GameCandidates(avail: seq<GameDict>, prefs: Preferences): (r: Result<seq<GameDict>, Failure>)
    ensures r.Err? <==> prefs.rating.Some? && exists g :: (g in avail && g.rating.None?
      && (prefs.genre.Some? ==> GenreMatches(prefs.genre.value, g.genre)))
    ensures r.Ok? ==> forall g :: (g in r.value <==> (g in avail
      && (prefs.genre.Some? ==> GenreMatches(prefs.genre.value, g.genre))
      && (prefs.rating.Some? ==> g.rating.Some? && InGameRange(prefs.rating.value, g.rating.value))))
  {
    var byGenre := if prefs.genre.Some? then GenreFilter(avail, prefs.genre.value) else avail;
    if prefs.rating.Some? then RatingFilter(byGenre, prefs.rating.value) else Ok(byGenre)
  }

  /** The fuzzy score of a game, or `None` when it lacks a rating, a cost or a
      popularity (`float(None)` raises) or the fuzzy system raises. */
  function ScoreGame(game: GameDict, fuzzy: Fuzzy): (r: Option<real>)
    ensures r.Some? ==> game.rating.Some? && game.cost.Some? && game.popularity.Some?
    ensures game.rating.Some? && game.cost.Some? && game.popularity.Some? ==>
      r == fuzzy(game.rating.value, game.cost.value, game.popularity.value as real)
  {
    if game.rating.None? || game.cost.None? || game.popularity.None? then None
    else fuzzy(game.rating.value, game.cost.value, game.popularity.value as real)
  }

  /** The outcome of scoring each candidate game, in candidate order. */
  function GameScoreList(cands: seq<GameDict>, fuzzy: Fuzzy): (r: seq<Option<real>>)
    ensures |r| == |cands|
    ensures forall i :: 0 <= i < |cands| ==> r[i] == ScoreGame(cands[i], fuzzy)
  {
    seq(|cands|, i requires 0 <= i < |cands| => ScoreGame(cands[i], fuzzy))
  }

  /** What `GameRecommender.recommend` returns, or the exception it raises. */
  function GameRanking(items: seq<GameDict>, fuzzy: Fuzzy, prefs: Preferences, history: seq<GameDict>): (r: Result<seq<(GameDict, real)>, Failure>)
    ensures r.Ok? ==> |r.value| <= Limit && SortedDesc(r.value)
  {
    var avail := Available(items, history);
    if avail == [] then Ok([])
    else
      var cands :- GameCandidates(avail, prefs);
      Ok(TopTen(ScoredPairs(cands, GameScoreList(cands, fuzzy), |cands|)))
  }

  /** Each returned pair is a catalog game that is not in the history, has
      the preferred genre among its tokens, has its rating within the
      preferred range, and carries its fuzzy score. */
  lemma GameRankingSound(items: seq<GameDict>, fuzzy: Fuzzy, prefs: Preferences, history: seq<GameDict>, p: (GameDict, real))
    requires GameRanking(items, fuzzy, prefs, history).Ok? && p in GameRanking(items, fuzzy, prefs, history).value
    ensures p.0 in items && p.0 !in history
    ensures prefs.genre.Some? ==> GenreMatches(prefs.genre.value, p.0.genre)
    ensures prefs.rating.Some? ==> p.0.rating.Some? && InGameRange(prefs.rating.value, p.0.rating.value)
    ensures ScoreGame(p.0, fuzzy) == Some(p.1)
  {
    var avail := Available(items, history);
    var cands := GameCandidates(avail, prefs).value;
    var scores := GameScoreList(cands, fuzzy);
    var i := TopTenScored(cands, scores, p);
    assert cands[i] in cands;
  }

  /** `GameRecommender.recommend` raises exactly when a rating range is given
      and a candidate of the right genre that is not in the history has no
      rating. */
  lemma GameRankingFails(items: seq<GameDict>, fuzzy: Fuzzy, prefs: Preferences, history: seq<GameDict>)
    ensures GameRanking(items, fuzzy, prefs, history).Err? <==>
      prefs.rating.Some? && exists g :: (g in items && g !in history && g.rating.None?
        && (prefs.genre.Some? ==> GenreMatches(prefs.genre.value, g.genre)))
  {
  }

  /** Nothing left after the history is removed: no recommendation. */
  lemma GameRankingAllSeen(items: seq<GameDict>, fuzzy: Fuzzy, prefs: Preferences, history: seq<GameDict>)
    requires forall x :: x in items ==> x in history
    ensures GameRanking(items, fuzzy, prefs, history) == Ok([])
  {
  }

  /** A candidate that passes both filters and is scored is returned, unless
      ten pairs scoring at least as much are returned instead. */
  lemma GameRankingComplete(items: seq<GameDict>, fuzzy: Fuzzy, prefs: Preferences, history: seq<GameDict>, g: GameDict)
    requires Available(items, history) != [] && GameCandidates(Available(items, history), prefs).Ok?
    requires g in GameCandidates(Available(items, history), prefs).value && ScoreGame(g, fuzzy).Some?
    ensures var r := GameRanking(items, fuzzy, prefs, history).value;
      (g, ScoreGame(g, fuzzy).value) in r || (|r| == Limit && forall q :: q in r ==> ScoreGame(g, fuzzy).value <= q.1)
  {
    var cands := GameCandidates(Available(items, history), prefs).value;
    var i :| 0 <= i < |cands| && cands[i] == g;
    ScoredPairsComplete(cands, GameScoreList(cands, fuzzy), |cands|, i);
    TopTenComplete(ScoredPairs(cands, GameScoreList(cands, fuzzy), |cands|), (g, ScoreGame(g, fuzzy).value));
  }

  /** Ties keep candidate order: the returned games scored `s` are the first
      of the filtered candidates scored `s`, in candidate order. */
  lemma GameRankingTies(items: seq<GameDict>, fuzzy: Fuzzy, prefs: Preferences, history: seq<GameDict>, s: real)
    requires Available(items, history) != [] && GameCandidates(Available(items, history), prefs).Ok?
    ensures var cands := GameCandidates(Available(items, history), prefs).value;
      WithScore(GameRanking(items, fuzzy, prefs, history).value, s)
        <= ScoredPairs(cands, KeepScore(GameScoreList(cands, fuzzy), s), |cands|)
  {
    var cands := GameCandidates(Available(items, history), prefs).value;
    TopTenStable(ScoredPairs(cands, GameScoreList(cands, fuzzy), |cands|), s);
    WithScoreScoredPairs(cands, GameScoreList(cands, fuzzy), |cands|, s);
  }

  /** A rating from `calculate_game_rating` is on the 1-10 scale, so a rating
      preference with the default bounds keeps a seeded game only when its
      rating is exactly 1.0, and never keeps an all-positive one. */
  lemma SeededRatingOutsideDefaultRange(positive: int, negative: int)
    requires positive >= 0 && negative >= 0 && positive + negative > 0
    ensures InGameRange(RatingRange(None, None), Seed.CalculateGameRating(positive, negative))
      <==> Seed.CalculateGameRating(positive, negative) == 1.0
    ensures negative == 0 ==> !InGameRange(RatingRange(None, None), Seed.CalculateGameRating(positive, negative))
  {
  }

  /** `GameRecommender`: a catalog of game dictionaries and the opaque fuzzy
      system. */
  class GameRecommender {
    const items: seq<GameDict>
    const fuzzy: Fuzzy

    constructor (items: seq<GameDict>, fuzzy: Fuzzy)
      ensures this.items == items && this.fuzzy == fuzzy
    {
      this.items, this.fuzzy := items, fuzzy;
    }

    /** The scoring loop of `recommend`: the (game, score) pairs of the
        candidates whose scoring succeeds, in candidate order. */
    method ScoreGames(cands: seq<GameDict>) returns (fuzzyScores: seq<(GameDict, real)>)
      ensures fuzzyScores == ScoredPairs(cands, GameScoreList(cands, fuzzy), |cands|)
    {
      ghost var outcomes := GameScoreList(cands, fuzzy);
      fuzzyScores := [];
      var idx := 0;
      while idx < |cands|
        invariant 0 <= idx <= |cands|
        invariant fuzzyScores == ScoredPairs(cands, outcomes, idx)
      {
        var game := cands[idx];
        assert outcomes[idx] == ScoreGame(game, fuzzy);
        if game.rating.Some? && game.cost.Some? && game.popularity.Some? {
          var score := fuzzy(game.rating.value, game.cost.value, game.popularity.value as real);
          if score.Some? {
            fuzzyScores := fuzzyScores + [(game, score.value)];
          }
        }
        idx := idx + 1;
      }
    }

    /** `recommend`: the ten best-scored games not in the history that pass
        the genre and rating filters. */
    method Recommend(prefs: Preferences, history: seq<GameDict>) returns (ranked: Result<seq<(GameDict, real)>, Failure>)
      ensures ranked == GameRanking(items, fuzzy, prefs, history)
    {
      var available := Available(items, history);
      if |available| == 0 {
        return Ok([]);
      }
      var filtered := GameCandidates(available, prefs);
      if filtered.Err? {
        return Err(filtered.error);
      }
      var fuzzyScores := ScoreGames(filtered.value);
      return Ok(TopTen(fuzzyScores));
    }
  }
}
