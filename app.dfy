/** `App`: the stand-alone collection page with its own fetch state and search filter. */
module AppRoot {
  import opened Wrappers
  import opened Seqs
  import opened Types
  import HomeRoute

  /** The four fields `fetchCollection` gives each album. */
  datatype CollectionItem = CollectionItem(title: string, artist: string, year: int, coverImage: string)

  const FetchFailed := "Failed to fetch collection. Please check your username and try again."

  function ItemOf(release: DiscogsRelease): CollectionItem
    requires |release.basicInformation.artists| > 0
  {
    var info := release.basicInformation;
    CollectionItem(info.title, info.artists[0].name, info.year, info.coverImage)
  }

  /** The `map` inside the `try`: it throws on a release without artists. */
  function ItemsOf(releases: seq<DiscogsRelease>): (r: Option<seq<CollectionItem>>)
    decreases |releases|
  {
    if releases == [] then Some([])
    else if |releases[0].basicInformation.artists| == 0 then None
    else
      var rest := ItemsOf(releases[1..]);
      if rest.None? then None else Some([ItemOf(releases[0])] + rest.value)
  }

  /** One item per release, in order, the artist being the release's first artist; `None` exactly when a release has no artist. */
  lemma {:induction false} ItemsOfSpec(releases: seq<DiscogsRelease>)
    ensures ItemsOf(releases).Some? <==> forall i :: 0 <= i < |releases| ==> |releases[i].basicInformation.artists| > 0
    ensures ItemsOf(releases).Some? ==> |ItemsOf(releases).value| == |releases|
    ensures ItemsOf(releases).Some? ==> forall i :: 0 <= i < |releases| ==>
      && ItemsOf(releases).value[i].title == releases[i].basicInformation.title
      && ItemsOf(releases).value[i].artist == releases[i].basicInformation.artists[0].name
      && ItemsOf(releases).value[i].year == releases[i].basicInformation.year
      && ItemsOf(releases).value[i].coverImage == releases[i].basicInformation.coverImage
    decreases |releases|
  {
    if releases != [] {
      var rest := releases[1..];
      ItemsOfSpec(rest);
      if ItemsOf(releases).Some? {
        var items := ItemsOf(releases).value;
        forall i | 0 < i < |releases|
          ensures items[i].title == releases[i].basicInformation.title
          ensures items[i].artist == releases[i].basicInformation.artists[0].name
          ensures items[i].year == releases[i].basicInformation.year
          ensures items[i].coverImage == releases[i].basicInformation.coverImage
        {
          assert items[i] == ItemsOf(rest).value[i - 1] && releases[i] == rest[i - 1];
        }
      }
      if forall i :: 0 <= i < |releases| ==> |releases[i].basicInformation.artists| > 0 {
        forall i | 0 <= i < |rest| ensures |rest[i].basicInformation.artists| > 0 {
          assert rest[i] == releases[i + 1];
        }
      }
      if ItemsOf(rest).None? && |releases[0].basicInformation.artists| > 0 {
        var k :| 0 <= k < |rest| && |rest[k].basicInformation.artists| == 0;
        assert releases[k + 1] == rest[k];
      }
    }
  }

  predicate Keeps(searchQuery: string, item: CollectionItem) {
    HomeRoute.AlbumMatches(item.title, item.artist, item.year, searchQuery)
  }

  class App {
    var username: string
    var collection: seq<CollectionItem>
    var loading: bool
    var error: Option<string>
    var searchQuery: string

    constructor()
      ensures username == "" && collection == [] && !loading && error == None && searchQuery == ""
    {
      username := "";
      collection := [];
      loading := false;
      error := None;
      searchQuery := "";
    }

    /** The fetch button is disabled while loading and while the username is empty. */
    predicate FetchDisabled()
      reads this
    {
      loading || username == ""
    }

    /** `filteredCollection`, the same test as the home route's. */
    function FilteredCollection(): (r: seq<CollectionItem>)
      reads this
      ensures IsSubsequence(r, collection)
      ensures forall a :: a in r <==> a in collection && Keeps(searchQuery, a)
      ensures forall a :: multiset(r)[a] == if Keeps(searchQuery, a) then multiset(collection)[a] else 0
    {
      var query := searchQuery;
      FilterIsSubsequence(collection, (a: CollectionItem) => Keeps(query, a));
      FilterCounts(collection, (a: CollectionItem) => Keeps(query, a));
      Filter(collection, (a: CollectionItem) => Keeps(query, a))
    }

    /**
     * `fetchCollection` up to the `await`: loading starts and the error is
     * cleared, and the fetch button is disabled until the fetch ends.
     */
    method BeginFetch()
      modifies this
      ensures loading && error == None && FetchDisabled()
      ensures collection == old(collection) && username == old(username) && searchQuery == old(searchQuery)
    {
      loading := true;
      error := None;
    }

    /**
     * The rest of `fetchCollection`, `fetched` being what `getCollection`
     * resolved to (`None` when it threw): the albums replace the collection and
     * the error stays as `BeginFetch` left it, or the fixed error shows and the
     * collection stays; loading ends either way.
     */
    method FinishFetch(fetched: Option<seq<DiscogsRelease>>)
      requires loading
      modifies this
      ensures !loading && (FetchDisabled() <==> username == "")
      ensures var items := if fetched.None? then None else ItemsOf(fetched.value);
        && (items.Some? ==> collection == items.value && error == old(error))
        && (items.None? ==> collection == old(collection) && error == Some(FetchFailed))
      ensures username == old(username) && searchQuery == old(searchQuery)
    {
      if fetched.Some? {
        var items := ItemsOf(fetched.value);
        if items.Some? {
          collection := items.value;
        } else {
          error := Some(FetchFailed);
        }
      } else {
        error := Some(FetchFailed);
      }
      loading := false;
    }

    /** The whole of `fetchCollection`: the error of an earlier fetch never survives a successful one. */
    method FetchCollection(fetched: Option<seq<DiscogsRelease>>)
      modifies this
      ensures !loading && (FetchDisabled() <==> username == "")
      ensures var items := if fetched.None? then None else ItemsOf(fetched.value);
        && (items.Some? ==> collection == items.value && error == None)
        && (items.None? ==> collection == old(collection) && error == Some(FetchFailed))
      ensures username == old(username) && searchQuery == old(searchQuery)
    {
      BeginFetch();
      FinishFetch(fetched);
    }

    method OnUsernameInput(value: string)
      modifies this
      ensures username == value
      ensures collection == old(collection) && loading == old(loading) && error == old(error) && searchQuery == old(searchQuery)
    {
      username := value;
    }

    method OnSearchInput(value: string)
      modifies this
      ensures searchQuery == value
      ensures collection == old(collection) && loading == old(loading) && error == old(error) && username == old(username)
    {
      searchQuery := value;
    }
  }
}
