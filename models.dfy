/** The dictionary views of the Movie and Game rows: the comma-joined `tags`
    and `actors` columns come back as lists of stripped strings, and a Game
    keeps the first dictionary it builds. */
module Models {
  import opened Wrappers
  import opened Text

  /** What `Movie.to_dict` returns. */
  datatype MovieDict = MovieDict(
    id: int, title: string, genre: string, tags: seq<string>, actors: seq<string>,
    rating: Option<real>, popularity: Option<int>)

  /** What `Game.to_dict` returns. */
  datatype GameDict = GameDict(
    id: int, title: string, genre: string, tags: seq<string>,
    rating: Option<real>, cost: Option<real>, popularity: Option<int>)

  /** `[p.strip() for p in field.split(',')] if field else []` for a nullable
      text column: nothing for NULL or the empty string, otherwise one entry
      per comma-separated piece, each without surrounding whitespace. */
  function TagList(field: Option<string>): (r: seq<string>)
    ensures r == [] <==> field.None? || field == Some("")
    ensures field.Some? && field.value != "" ==> |r| == Count(field.value, ',') + 1
    ensures forall k :: 0 <= k < |r| ==> IsStripped(r[k]) && ',' !in r[k]
  {
    if field.None? || field.value == "" then []
    else
      var pieces := Split(field.value, ',');
      seq(|pieces|, k requires 0 <= k < |pieces| => Strip(pieces[k]))
  }

  /** A blank but non-empty column gives one empty tag. */
  lemma TagListOfBlank(s: string)
    requires s != "" && AllSpace(s)
    ensures TagList(Some(s)) == [""]
  {
    assert s[0] in s;
    var pieces := Split(s, ',');
    assert |pieces| == 1 && Join(pieces, ",") == s;
  }

  /** A list the uploaders may join: at least one entry, no entry holding a
      comma or surrounding whitespace, and not the single empty entry (which
      joins to the empty string). */
  predicate Joinable(tags: seq<string>) {
    && |tags| > 0 && tags != [""]
    && forall k :: 0 <= k < |tags| ==> ',' !in tags[k] && IsStripped(tags[k])
  }

  lemma Regroup(p: string, t: string, j: string)
    ensures p + (t + ", " + j) == (p + t) + [','] + (" " + j)
  {
    var lhs, rhs := p + (t + ", " + j), (p + t) + [','] + (" " + j);
    assert |lhs| == |rhs|;
    forall k | 0 <= k < |lhs| ensures lhs[k] == rhs[k] {
      if k < |p| + |t| {
      } else if k < |p| + |t| + 2 {
      } else {
      }
    }
  }

  /** Splitting `p + ', '.join(tags)` on commas gives `p + tags[0]`, then
      each later tag behind one blank. */
  lemma {:induction false} SplitCommaSpaceJoin(p: string, tags: seq<string>)
    requires |tags| > 0 && ',' !in p
    requires forall k :: 0 <= k < |tags| ==> ',' !in tags[k]
    ensures var r := Split(p + Join(tags, ", "), ',');
      && |r| == |tags| && r[0] == p + tags[0]
      && forall k :: 1 <= k < |tags| ==> r[k] == " " + tags[k]
    decreases |tags|
  {
    if |tags| == 1 {
      var s := p + tags[0];
      assert ',' !in s;
      var r := Split(s, ',');
      assert |r| == 1 && Join(r, ",") == s;
    } else {
      var rest := tags[1..];
      assert forall k :: 0 <= k < |rest| ==> rest[k] == tags[k + 1];
      SplitCommaSpaceJoin(" ", rest);
      var tail := Split(" " + Join(rest, ", "), ',');
      assert Join(tags, ", ") == tags[0] + ", " + Join(rest, ", ");
      Regroup(p, tags[0], Join(rest, ", "));
      assert ',' !in p + tags[0];
      SplitFirst(p + tags[0], ',', " " + Join(rest, ", "));
      var r := Split(p + Join(tags, ", "), ',');
      assert r == [p + tags[0]] + tail;
      forall k | 1 <= k < |tags| ensures r[k] == " " + tags[k] {
        assert r[k] == tail[k - 1];
      }
    }
  }

  lemma JoinNotEmpty(tags: seq<string>)
    requires Joinable(tags)
    ensures Join(tags, ", ") != ""
  {
    if |tags| == 1 {
      assert tags[0] != "";
    } else {
      assert |Join(tags, ", ")| >= 2;
    }
  }

  /** Pieces shaped like the split of a joined list strip back to the list. */
  lemma StripPieces(pieces: seq<string>, tags: seq<string>)
    requires |pieces| == |tags| > 0 && pieces[0] == tags[0]
    requires forall k :: 1 <= k < |tags| ==> pieces[k] == " " + tags[k]
    requires forall k :: 0 <= k < |tags| ==> IsStripped(tags[k])
    ensures forall k :: 0 <= k < |tags| ==> Strip(pieces[k]) == tags[k]
  {
    forall k | 0 <= k < |tags| ensures Strip(pieces[k]) == tags[k] {
      if k > 0 {
        StripAfterSpace(' ', tags[k]);
        assert pieces[k] == [' '] + tags[k];
      }
    }
  }

  /** Stripping the comma-separated pieces of a joined list gives the list. */
  lemma StripJoinedPieces(tags: seq<string>)
    requires Joinable(tags)
    ensures var pieces := Split(Join(tags, ", "), ',');
      |pieces| == |tags| && forall k :: 0 <= k < |tags| ==> Strip(pieces[k]) == tags[k]
  {
    var s := Join(tags, ", ");
    SplitCommaSpaceJoin("", tags);
    assert "" + s == s;
    StripPieces(Split(s, ','), tags);
  }

  /** `to_dict` inverts the uploaders' `', '.join(...)`. */
  lemma TagListJoin(tags: seq<string>)
    requires Joinable(tags)
    ensures TagList(Some(Join(tags, ", "))) == tags
  {
    JoinNotEmpty(tags);
    StripJoinedPieces(tags);
    var r := TagList(Some(Join(tags, ", ")));
    assert |r| == |tags|;
    assert forall k :: 0 <= k < |tags| ==> r[k] == tags[k];
  }

  /** A row of the movies table. */
  datatype Movie = Movie(
    id: int, title: string, genre: string, tags: Option<string>, rating: Option<real>,
    actors: Option<string>, popularity: Option<int>)
  {
    /** `Movie.to_dict`: the row's columns, with tags and actors split into
        lists that are empty exactly for a NULL or empty column and hold
        stripped, comma-free entries. */
    function ToDict(): (r: MovieDict)
      ensures r.id == id && r.title == title && r.genre == genre
      ensures r.rating == rating && r.popularity == popularity
      ensures r.tags == [] <==> tags.None? || tags == Some("")
      ensures r.actors == [] <==> actors.None? || actors == Some("")
      ensures forall k :: 0 <= k < |r.tags| ==> IsStripped(r.tags[k]) && ',' !in r.tags[k]
      ensures forall k :: 0 <= k < |r.actors| ==> IsStripped(r.actors[k]) && ',' !in r.actors[k]
    {
      MovieDict(id, title, genre, TagList(tags), TagList(actors), rating, popularity)
    }
  }

  /** A movie stored with `', '.join`ed tags and actors comes back from
      `to_dict` with exactly those lists, every other column copied. */
  lemma MovieToDictRecoversLists(m: Movie, tags: seq<string>, actors: seq<string>)
    requires Joinable(tags) && m.tags == Some(Join(tags, ", "))
    requires Joinable(actors) && m.actors == Some(Join(actors, ", "))
    ensures m.ToDict() == MovieDict(m.id, m.title, m.genre, tags, actors, m.rating, m.popularity)
  {
    TagListJoin(tags);
    TagListJoin(actors);
  }

  /** A row of the games table; `cachedDict` is the `_cached_dict` attribute,
      `None` while it has not been set. */
  class Game {
    var id: int
    var title: string
    var genre: string
    var tags: Option<string>
    var rating: Option<real>
    var cost: Option<real>
    var popularity: Option<int>
    var cachedDict: Option<GameDict>

    constructor (id: int, title: string, genre: string, tags: Option<string>,
                 rating: Option<real>, cost: Option<real>, popularity: Option<int>)
      ensures this.id == id && this.title == title && this.genre == genre && this.tags == tags
      ensures this.rating == rating && this.cost == cost && this.popularity == popularity
      ensures cachedDict == None
    {
      this.id, this.title, this.genre, this.tags := id, title, genre, tags;
      this.rating, this.cost, this.popularity := rating, cost, popularity;
      cachedDict := None;
    }

    /** The dictionary the current column values give. */
    function Columns(): GameDict
      reads this
    {
      GameDict(id, title, genre, TagList(tags), rating, cost, popularity)
    }

    /** `Game.to_dict`: the stored dictionary when there is one; otherwise
        the dictionary of the current columns, which is stored. Only the
        cache changes. */
    method ToDict() returns (d: GameDict)
      modifies this`cachedDict
      ensures old(cachedDict).Some? ==> d == old(cachedDict).value
      ensures old(cachedDict).None? ==> d == Columns()
      ensures cachedDict == Some(d)
    {
      if cachedDict.Some? {
        return cachedDict.value;
      }
      d := GameDict(id, title, genre, TagList(tags), rating, cost, popularity);
      cachedDict := Some(d);
    }
  }

  /** A game stored with `', '.join`ed tags: its first `to_dict` gives back
      those tags and copies the other columns. */
  lemma GameColumnsRecoverTags(g: Game, tags: seq<string>)
    requires Joinable(tags) && g.tags == Some(Join(tags, ", "))
    ensures g.Columns() == GameDict(g.id, g.title, g.genre, tags, g.rating, g.cost, g.popularity)
  {
    TagListJoin(tags);
  }

  /** Editing a column after the first `to_dict` does not show in later
      calls: the cached dictionary is returned unchanged. */
  method EditAfterToDict(g: Game, newTitle: string) returns (first: GameDict, second: GameDict)
    modifies g
    ensures first == (if old(g.cachedDict).Some? then old(g.cachedDict).value else old(g.Columns()))
    ensures second == first && g.title == newTitle
  {
    first := g.ToDict();
    g.title := newTitle;
    second := g.ToDict();
  }
}
