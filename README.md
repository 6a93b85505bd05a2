# rexys_backend recommender core in Dafny

This project models the parts of the rexys_backend recommendation service that compute rather than
store: the movie recommender's weighted preference score, the ranking pipelines of the movie and game
recommenders, the value converters the seeding and upload scripts apply to vote counts and owner
ranges, and the dictionary views of the `Movie` and `Game` rows (with the per-object cache of
`Game.to_dict`).

Modules, one per file:

- `Wrappers` (`wrappers.dfy`): `Option` and `Result`.
- `Text` (`text.dfy`): the Python `str` operations the code relies on — `isspace`, `strip`, `lower`,
  `split` on one character and on a longer separator, `join`, and `replace(c, '')`.
- `Numerals` (`numerals.dfy`): `int()` applied to a `str`, the decimal form of a natural number,
  and floor division by 2.
- `Seed` (`seed.dfy`): `calculate_game_rating` and `parse_average_owners`.
- `GameUploader` (`game_uploader.dfy`): `extract_average_owners` and the rating formula of `load_games`.
- `Models` (`models.dfy`): `Movie.to_dict` (a datatype method) and `Game.to_dict` (a class with a
  `cachedDict` field that the method fills on its first call).
- `Ranking` (`ranking.dfy`): collecting the (item, score) pairs of the items whose scoring succeeded,
  Python's stable `sorted(..., key=score, reverse=True)`, and `[:10]`.
- `Recommender` (`recommender.dfy`): the preference score as a function and as the accumulating method
  `MovieRecommender.CalculatePreferenceScore`, the history exclusion, the game pre-filters, the per-item
  score gate, and both `recommend` methods as loops proved equal to specification functions
  (`MovieRanking`, `GameRanking`) about which the ranking properties are proved.

The content score (TF-IDF plus cosine similarity) and the two fuzzy control systems are opaque function
values given to the recommender classes. A fuzzy result of `None` stands for a computation that raised,
which the per-item `try` turns into a dropped item. Items are the dictionaries `to_dict` builds, so
`'tags' in item` and `'actors' in item` always hold; the nullable columns (`rating`, `cost`,
`popularity`) are `Option`s, and a `None` raises a `TypeError` exactly where the Python code would
compare, multiply or convert it.

The game rating filter compares `rating * 10` with bounds that default to 0 and 10, while the seeding
script stores ratings on a 1–10 scale (and the uploader on a 0–10 scale). With the default bounds a
seeded game therefore passes only when its rating is exactly 1.0, and an all-positive game never does
(`Recommender.SeededRatingOutsideDefaultRange`). The model keeps the code's behaviour.

## Model

| member | source | states |
|---|---|---|
| Recommender.DefaultWeightsValid | recommender.py:27-32 | the weights 0.27, 0.29, 0.24 and 0.20 are non-negative and sum to exactly 1 |
| Recommender.PreferenceScore | recommender.py:79-110 | the score fails exactly when the tags or actors preference list is empty (division by zero) or a rating range meets an item without a rating; otherwise, with valid weights, it lies in [0, 1] |
| Recommender.MovieRecommender.CalculatePreferenceScore | recommender.py:79-110 | the attribute-by-attribute accumulation of `score` returns exactly the preference score, including its failures |
| Recommender.NoPreferencesScoreZero | recommender.py:79-110 | with none of the genre, tags, rating or actors keys the score is 0 |
| Recommender.GenreAddsWeight | recommender.py:82-86 | the genre adds exactly the genre weight when the lower-cased preference is one of the item's comma-split, stripped, lower-cased genre tokens, and 0 otherwise or without a genre key |
| Recommender.GenreMatchesJoined | recommender.py:83-85 | a comma-space-joined genre list matches exactly the genres it lists, compared lower-cased (the test at line 259 is the same) |
| Recommender.GenreUnstrippedNeverMatches | recommender.py:85 | the preference is lower-cased but not stripped, so one with leading whitespace matches no item |
| Recommender.GenreMatches | recommender.py:83-85 | the genre is split on commas before the lower-cased preference is looked up, so a preference holding a comma matches no item |
| Recommender.GenreTokensCommaFree | recommender.py:259 | no genre token holds a comma |
| Recommender.SharedCountIsIntersection | recommender.py:92 | the counted shared entries are exactly the size of the intersection of the two sets of entries |
| Recommender.OverlapIsIntersection | recommender.py:89-92 | the shared count of two lists is the size of the intersection of their normalised sets |
| Recommender.Overlap | recommender.py:89-92 | the number of normalised shared entries never exceeds the length of the preference list |
| Recommender.ListContribution | recommender.py:93-94 | a list contribution fails exactly for an empty preference list and otherwise lies between 0 and its weight |
| Recommender.ListContributionValue | recommender.py:89-94 | for a non-empty preference list the contribution is the weight times the size of the intersection of the two sets of stripped, lower-cased entries, divided by the length of the preference list as given |
| Recommender.OverlapMonotone | recommender.py:89-92 | an item holding every normalised entry another holds shares at least as many preferred entries |
| Recommender.ContributionMonotone | recommender.py:88-94 | more preferred entries present on the item never lower the tag or actor contribution |
| Recommender.ListPart | recommender.py:88-94 | without the key a list adds 0; with it, the contribution fails exactly for an empty list and lies in [0, weight] |
| Recommender.RatingPart | recommender.py:96-100 | the rating part fails exactly when a range is given and the item has no rating, and is either 0 or the rating weight |
| Recommender.TagsAddShare | recommender.py:88-94 | removing the tags preference lowers the score by exactly the tags contribution |
| Recommender.RatingAddsWeight | recommender.py:96-100 | the rating adds exactly its weight when min <= rating <= max, a missing bound being infinite, and 0 otherwise |
| Recommender.ActorsAddShare | recommender.py:102-108 | removing the actors preference lowers the score by exactly the actors contribution |
| Recommender.Available | recommender.py:123-124 | the available items are exactly the catalog items not in the history, and none are left when every item is in it |
| Recommender.AvailableAppend | recommender.py:123-124 | the history filter keeps catalog order and duplicates: filtering a concatenation concatenates the filtered parts |
| Recommender.TagCorpus | recommender.py:134 | one document per available item, in order, each that item's tag list |
| Recommender.EmptyVocabularyTags | recommender.py:132-137 | fitting the vectoriser raises exactly when no available movie has a tag |
| Recommender.MovieInputs | recommender.py:153-159 | the overall score is 0.7 times the preference score plus 0.3 times the content score, the rating is passed on, and the popularity is capped at 1,000,000 |
| Recommender.OverallInUnitRange | recommender.py:154 | preference and content scores in [0, 1] give an overall score in [0, 1] |
| Recommender.ScoredMovieGate | recommender.py:142-175 | a movie is scored only when its preference score succeeds, its preference or content score is positive and it has a rating and a popularity, and then with the fuzzy output on the overall score, the rating and the capped popularity |
| Recommender.MovieGatePassed | recommender.py:146-171 | conversely, a movie whose preference score succeeds, whose preference or content score is positive and which has a rating and a popularity gets exactly the fuzzy output on those inputs |
| Recommender.MovieRecommender.ScoreCandidate | recommender.py:142-175 | one pass of the loop's `try` block yields exactly the candidate's score, or nothing when the block raises or skips it |
| Recommender.MovieRecommender.ScoreCandidates | recommender.py:140-176 | the loop collects exactly the (movie, score) pairs of the candidates whose scoring succeeds, in candidate order |
| Recommender.MovieRecommender.Recommend | recommender.py:112-183 | `recommend` returns exactly the specified ranking: nothing when no item is available or no available item has a tag, else the top ten collected pairs |
| Recommender.MovieRanking | recommender.py:112-183 | the movie ranking has at most ten pairs, with scores non-increasing |
| Recommender.MovieRankingSound | recommender.py:123-179 | every returned movie is in the catalog and not in the history, and carries the score it got at its index among the available movies |
| Recommender.MovieRankingAllSeen | recommender.py:129-130 | when every catalog item is in the history the result is empty |
| Recommender.MovieRankingNoTags | recommender.py:137-183 | when no catalog movie has a tag the fit raises, the outer handler catches it, and the result is empty |
| Recommender.MovieRankingEmptyPreferenceList | recommender.py:173-175 | an empty tags or actors preference list makes every item's scoring raise, so the result is empty |
| Recommender.MovieRankingComplete | recommender.py:139-179 | a scored movie is returned unless ten pairs scoring at least as much are returned instead |
| Recommender.MovieRankingTies | recommender.py:171-179 | the returned movies sharing a score are the first scored candidates with that score, in catalog order |
| Recommender.GenreFilter | recommender.py:256-260 | the genre pre-filter keeps exactly the games whose tokens hold the lower-cased preference |
| Recommender.GenreFilterAppend | recommender.py:256-260 | the genre pre-filter keeps candidate order and duplicates |
| Recommender.RatingFilter | recommender.py:263-269 | the rating pre-filter raises exactly when a game has no rating, and otherwise keeps exactly the games with min <= rating * 10 <= max (defaults 0 and 10) |
| Recommender.RatingFilterAppend | recommender.py:263-269 | the rating pre-filter, where it succeeds, keeps candidate order and duplicates |
| Recommender.InGameRange | recommender.py:264-268 | with neither bound given, a rating passes exactly when it lies in [0, 1], as `rating * 10` is compared with 0 and 10 |
| Recommender.GameCandidates | recommender.py:255-269 | after both pre-filters the candidates are exactly the available games of the preferred genre whose rating lies in the preferred range; the filters raise exactly when a range is given and a game of that genre has no rating |
| Recommender.ScoreGame | recommender.py:273-287 | a game is scored only when it has a rating, a cost and a popularity, and a game with all three gets exactly the fuzzy output on them |
| Recommender.GameScoreList | recommender.py:272-287 | one scoring outcome per candidate game, each that game's score |
| Recommender.GameRecommender.ScoreGames | recommender.py:272-287 | the loop collects exactly the (game, score) pairs of the candidates whose scoring succeeds, in candidate order |
| Recommender.GameRecommender.Recommend | recommender.py:246-291 | `recommend` returns exactly the specified ranking, or the `TypeError` the rating filter raises |
| Recommender.GameRanking | recommender.py:246-291 | where it does not raise, the game ranking has at most ten pairs, with scores non-increasing |
| Recommender.GameRankingSound | recommender.py:246-291 | every returned game is in the catalog and not in the history, has the preferred genre among its tokens, has its rating in the preferred range, and carries its fuzzy score |
| Recommender.GameRankingFails | recommender.py:256-269 | the game recommender raises exactly when a rating range is given and an available game of the preferred genre has no rating |
| Recommender.GameRankingAllSeen | recommender.py:250-253 | when every catalog item is in the history the result is empty |
| Recommender.GameRankingComplete | recommender.py:272-291 | a game that passes both filters and is scored is returned unless ten pairs scoring at least as much are returned instead |
| Recommender.GameRankingTies | recommender.py:272-291 | the returned games sharing a score are the first scored candidates with that score, in candidate order |
| Recommender.SeededRatingOutsideDefaultRange | recommender.py:264-268 | with the default bounds, a rating from `calculate_game_rating` passes only when it is 1.0, never when all votes are positive |
| Ranking.ScoredPairs | recommender.py:171 | no more pairs are collected than there are items |
| Ranking.ScoredPairsIndices | recommender.py:171 | the collected pairs are, in increasing index order, exactly the items whose scoring succeeded, each with its score |
| Ranking.ScoredPairsSound | recommender.py:171 | every collected pair is an item with the score it got at its index |
| Ranking.ScoredPairsComplete | recommender.py:171 | every item whose scoring succeeded has its pair collected |
| Ranking.Insert | recommender.py:177 | inserting into a sorted list keeps it sorted and adds exactly one pair |
| Ranking.SortDesc | recommender.py:177 | the sort returns a permutation of its input with scores non-increasing |
| Ranking.InsertWithScore | recommender.py:177 | an inserted pair goes in front of the pairs it ties with |
| Ranking.SortStable | recommender.py:177 | the sort is stable: the pairs sharing any one score keep their input order |
| Ranking.TopTen | recommender.py:177-179 | `sorted(...)[:10]` has ten pairs or all of them, is sorted, and takes its pairs from the input |
| Ranking.TopTenIsPrefix | recommender.py:177-179 | the result is a prefix of the sorted list |
| Ranking.TopTenComplete | recommender.py:177-179 | a pair left out loses to every returned pair, and then ten pairs were returned |
| Ranking.TopTenStable | recommender.py:177-179 | among the returned pairs, those sharing a score are the first ones with that score in input order |
| Ranking.TopTenScored | recommender.py:171-179 | every returned pair is an item with the score it got at its index |
| Ranking.WithScoreScoredPairs | recommender.py:171 | the collected pairs with a given score are those collected when only the items with that score succeed |
| Seed.RoundHalfEven | seed.py:110 | the result is within one half of its argument, and a tie goes to the even integer |
| Seed.RoundTenths | seed.py:110 | `round(x, 1)` is a whole number of tenths within 0.05 of `x`, and a tie goes to the even number of tenths |
| Seed.RoundTenthsWithin | seed.py:110 | rounding to tenths stays within whole-tenth bounds of its argument |
| Seed.ScaledRatingBounds | seed.py:109-110 | the rounded scaled share lies in [1, 10] for non-negative counts, is 10 when all votes are positive and 1 when none are |
| Seed.CalculateGameRating | seed.py:102-110 | 5.0 without votes; otherwise 1 + 9 * positive / total rounded to tenths, in [1, 10] for non-negative counts, 10.0 when all votes are positive and 1.0 when none are |
| Seed.OwnerCountBefore | seed.py:117 | a numeral of at most 4300 digits, written with thousands separators and followed by a blank, reads as its value once commas are removed and blanks stripped |
| Seed.OwnerCountAfter | seed.py:117 | the same for a numeral of at most 4300 digits after a blank |
| Seed.OwnerCountTooManyDigits | seed.py:117 | a grouped numeral of more than 4300 digits, alone or beside a blank, makes `int()` raise |
| Seed.ParseAverageOwnersOfRange | seed.py:113-118 | "lo .. hi" with grouped numerals of at most 4300 digits parses to the floored mean of the two values |
| Seed.ParseAverageOwnersTooManyDigits | seed.py:113-121 | "lo .. hi" with a grouped numeral of more than 4300 digits on either side gives 0 |
| Seed.ParseAverageOwners | seed.py:113-121 | a string in which ".." never occurs (an empty field, "N/A", a single count) gives 0 |
| Seed.ParseAverageOwnersTooManyParts | seed.py:117-121 | two or more ".." separators make the unpacking into two sides fail, giving 0 |
| Seed.ParseAverageOwnersBadSide | seed.py:117-121 | a side `int()` rejects, as in "N/A .. 5", gives 0 |
| Seed.OwnerCount | seed.py:117 | a side parses only when it holds a decimal digit |
| Seed.OwnerCountRejects | seed.py:117 | a side holding a character that is no digit, sign, underscore, blank or comma is rejected |
| Numerals.ParseInt | game_uploader.py:22 | `int()` raises on an empty or all-blank string, and on any string holding one of the information separators U+001C to U+001F, which `int()` does not skip |
| Numerals.ParseIntRejectsInformationSeparator | game_uploader.py:22 | an information separator anywhere in the string makes `int()` raise |
| Numerals.ParseIntRejects | game_uploader.py:22-25 | `int()` raises on any string holding a character that is no digit, sign, underscore or blank, a thousands separator among them |
| Numerals.ParseIntHasDigit | game_uploader.py:22 | `int()` succeeds only on a string holding a decimal digit |
| Numerals.ParseIntDigits | seed.py:117 | `int()` reads a run of at most 4300 decimal digits, surrounded by blanks other than the information separators, as its value |
| Numerals.ParseIntTooManyDigits | game_uploader.py:22 | `int()` raises on a run of more than 4300 decimal digits, CPython's default conversion limit, whatever blanks surround it |
| Numerals.ParseShow | game_uploader.py:22 | `int(str(n)) == n` for every n of at most 4300 digits (below 10^4300), the numbers `str()` converts |
| Numerals.ParseIntNegativeDigits | game_uploader.py:22 | `int()` reads a minus sign followed by at most 4300 decimal digits as the negated value |
| Numerals.FloorMean | seed.py:118 | `(a + b) // 2` is the floor of the mean and lies between a and b when a <= b |
| GameUploader.ExtractAverageOwners | game_uploader.py:20-25 | a string without exactly one '-' gives 0 |
| GameUploader.ExtractAverageOwnersRejectsComma | game_uploader.py:22-25 | a range written with thousands separators gives 0, as commas are not removed |
| GameUploader.ExtractAverageOwnersRejectsInformationSeparator | game_uploader.py:20-25 | an information separator on either side of "lo-hi" gives 0, as nothing strips the sides before `int()` |
| GameUploader.ExtractAverageOwnersOfRange | game_uploader.py:20-23 | "a-b" for natural numbers of at most 4300 digits (below 10^4300) gives the floored mean of a and b |
| GameUploader.ExtractAverageOwnersTooManyDigits | game_uploader.py:20-25 | "p-q" with digit runs of which one is longer than 4300 digits gives 0 |
| GameUploader.IngestedRating | game_uploader.py:43-51 | 0 without votes; otherwise the rating times the total is 10 times the positive votes; in [0, 10] for non-negative counts, 10 when all votes are positive |
| Text.Strip | models.py:45 | `strip()` leaves no blank at either end, leaves a stripped string unchanged, is empty exactly for an all-blank string, and keeps only characters of its argument |
| Text.StripAfterSpace | models.py:78 | a leading blank makes no difference to `strip()` |
| Text.Lower | recommender.py:83-85 | `lower()` keeps the length and lower-cases each ASCII letter |
| Text.Split | models.py:45 | `split(d)` gives one more piece than there are separators, no piece holds the separator, and joining the pieces with it gives the string back |
| Text.SplitJoin | game_uploader.py:16 | `split` undoes `join` when no piece holds the separator |
| Text.JoinChars | game_uploader.py:16 | every character of `sep.join(parts)` comes from a part or, for two parts or more, the separator, and every character of a part is in it |
| Text.SplitOnTwo | seed.py:117 | splitting "p..q" on ".." gives exactly p and q when neither holds a '.' |
| Text.SplitOn | seed.py:117 | joining the pieces of `s.split(sep)` with `sep` gives `s` back, and there is one piece exactly when `sep` occurs nowhere in `s` |
| Text.SplitOnCons | seed.py:117 | splitting `p + sep + rest`, when `p` cannot hold the separator, gives `p` followed by the pieces of `rest` |
| Text.RemoveChar | seed.py:117 | `replace(c, '')` removes every `c` and keeps every other character |
| Text.LowerComma | recommender.py:85 | lower-casing neither adds nor removes a comma |
| Models.TagList | models.py:45-46 | no tags for NULL or the empty string; otherwise one entry per comma-separated piece, each without surrounding whitespace or commas |
| Models.TagListOfBlank | models.py:45 | a blank but non-empty column gives one empty tag |
| Models.SplitCommaSpaceJoin | game_uploader.py:16 | splitting a `', '.join` on commas gives each joined tag, after the first behind one blank |
| Models.TagListJoin | models.py:78 | `to_dict` gives back the list the uploaders joined with `', '` |
| Models.Movie.ToDict | models.py:40-49 | `Movie.to_dict` copies the scalar columns; the tag and actor lists are empty exactly for a NULL or empty column and hold stripped, comma-free entries |
| Models.MovieToDictRecoversLists | models.py:40-49 | `Movie.to_dict` gives back the joined tags and actors and copies every other column |
| Models.Game.ToDict | models.py:70-83 | the first call builds the dictionary of the current columns and stores it; every later call returns the stored one; only the cache changes |
| Models.GameColumnsRecoverTags | models.py:74-83 | the first `Game.to_dict` gives back the joined tags and copies the other columns |
| Models.EditAfterToDict | models.py:70-72 | a column edited after the first `to_dict` does not show in the next call |

## Left out

- Floating point: every score, weight, rating and share is an exact `real`. The float sum of the weights and
  the float error before `round(..., 1)` are not modelled; `round` is modelled as half-to-even on the exact value.
- The TF-IDF content score and cosine similarity (`calculate_cb_score`, the vectoriser) are an opaque
  function of the tag corpus and the item index. Only the vectoriser's failure on an empty vocabulary is
  modelled, as a result of `[]`.
- The skfuzzy control systems (membership functions, rules, defuzzification) are an opaque function that
  may fail. Setting `self.fuzzy_system.input` and calling `compute()` is modelled as one pure call.
- `print` logging, and the outer `except` of the movie `recommend` beyond the empty-vocabulary case: the
  other failures it would catch (non-`str` tags and similar type errors) cannot occur in the typed model.
- Type errors from values of the wrong Python type (a non-`str` genre, a non-numeric rating bound) are
  not modelled; only the `None` columns are.
- Recommender.MovieRecommender.Recommend: the `user_history=None` default is not modelled; the history
  is always a list.
- Recommender.GameRecommender.Recommend: the same `user_history=None` default (recommender.py:246-248) is
  not modelled; the history is always a list, an omitted history being the empty one.
- Recommender.PreferenceScore: the weights are a `Weights` record whose instance in the recommender is the
  fixed table; the [0, 1] bound is proved for any non-negative weights summing to 1.
- Text.Lower: lower-cases ASCII letters only; Python's full Unicode case mapping is not modelled.
- Numerals.ParseInt: accepts ASCII digits only; Python's `int()` also accepts other Unicode decimal digits.
  The digit limit is CPython's default of 4300 (from Python 3.11 on); a limit changed at run time through
  `sys.set_int_max_str_digits` or `PYTHONINTMAXSTRDIGITS` is not modelled.
- The CSV, pandas and database ingestion around the converters (`seed_movies`, `seed_games`,
  `load_games`, `load_movies_with_tfidf`, merging), the Flask routes, the ORM column declarations and
  the application wiring.
- Models.Game.ToDict: the cached dictionary is a value, so a caller that mutates the returned Python
  dict (which would also change the cache by aliasing) is not modelled.
