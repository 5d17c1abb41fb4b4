/** The home route: the search filter over the collection and the two empty-state messages. */
module HomeRoute {
  import opened Strings
  import opened Seqs
  import opened Types

  /**
   * The filter's test: the lower-cased query occurs in the lower-cased title,
   * in the lower-cased artist or in the year written in decimal.
   */
  predicate AlbumMatches(title: string, artist: string, year: int, searchQuery: string) {
    var query := Lower(searchQuery);
    Includes(Lower(title), query) || Includes(Lower(artist), query) || Includes(IntToString(year), query)
  }

  predicate Keeps(searchQuery: string, album: Album) {
    AlbumMatches(album.title, album.artist, album.year, searchQuery)
  }

  /** `filteredCollection`: the matching albums, each with all its copies, in collection order. */
  function FilterCollection(collection: seq<Album>, searchQuery: string): (r: seq<Album>)
    ensures IsSubsequence(r, collection)
    ensures forall a :: a in r <==> a in collection && Keeps(searchQuery, a)
    ensures forall a :: multiset(r)[a] == if Keeps(searchQuery, a) then multiset(collection)[a] else 0
  {
    FilterIsSubsequence(collection, (a: Album) => Keeps(searchQuery, a));
    FilterCounts(collection, (a: Album) => Keeps(searchQuery, a));
    Filter(collection, (a: Album) => Keeps(searchQuery, a))
  }

  /** An empty query keeps every album. */
  lemma EmptyQueryKeepsAll(collection: seq<Album>)
    ensures FilterCollection(collection, "") == collection
  {
    forall a | a in collection ensures Keeps("", a) {
      IncludesEmpty(Lower(a.title));
    }
    FilterAll(collection, (a: Album) => Keeps("", a));
  }

  /** A query is matched without regard to ASCII case. */
  lemma CaseIgnored(title: string, artist: string, year: int, q: string)
    ensures AlbumMatches(title, artist, year, q) <==> AlbumMatches(title, artist, year, Lower(q))
  {
    assert Lower(Lower(q)) == Lower(q);
  }

  /** A year is found by its digits. */
  lemma YearFound(title: string, artist: string)
    ensures AlbumMatches(title, artist, 1977, "77")
  {
    assert IntToString(1977) == "1977";
    assert HasAt("1977", 2, "77");
    IncludesIff("1977", "77");
  }

  /** The username prompt: nothing collected and nothing loading. */
  predicate ShowsPrompt(collection: seq<Album>, loading: bool) {
    |collection| == 0 && !loading
  }

  /** "No albums found": a collection the query filters down to nothing. */
  predicate ShowsNoMatches(collection: seq<Album>, searchQuery: string) {
    |collection| > 0 && |FilterCollection(collection, searchQuery)| == 0
  }

  /**
   * At most one of the two messages shows; "No albums found" shows exactly
   * when no album matches, which an empty query never causes.
   */
  lemma EmptyStates(collection: seq<Album>, loading: bool, searchQuery: string)
    ensures !(ShowsPrompt(collection, loading) && ShowsNoMatches(collection, searchQuery))
    ensures ShowsNoMatches(collection, searchQuery) <==>
      |collection| > 0 && forall a :: a in collection ==> !Keeps(searchQuery, a)
    ensures searchQuery == "" ==> !ShowsNoMatches(collection, searchQuery)
  {
    FilterNone(collection, (a: Album) => Keeps(searchQuery, a));
    if searchQuery == "" {
      EmptyQueryKeepsAll(collection);
    }
  }
}
