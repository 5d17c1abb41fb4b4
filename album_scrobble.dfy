/**
 * `useScrobbleAlbum`: scrobbling every track of an album, with a map of the
 * albums whose scrobble is in progress.
 */
module AlbumScrobble {
  import opened Wrappers
  import opened Strings
  import opened Seqs
  import opened Types
  import opened ScrobbleTypes

  const NoToken := "No Last.fm token found"
  const NoTracks := "No tracks found for this album"

  predicate IsTrack(t: DiscogsTrack) {
    t.trackType != "heading"
  }

  /** `tracklist.filter((t) => t.type_ !== "heading")`. */
  function PlayableTracks(tracklist: seq<DiscogsTrack>): seq<DiscogsTrack> {
    Filter(tracklist, IsTrack)
  }

  function Titles(tracks: seq<DiscogsTrack>): (r: seq<string>)
    ensures |r| == |tracks| && forall i :: 0 <= i < |r| ==> r[i] == tracks[i].title
  {
    seq(|tracks|, i requires 0 <= i < |tracks| => tracks[i].title)
  }

  function Durations(tracks: seq<DiscogsTrack>): (r: seq<string>)
    ensures |r| == |tracks| && forall i :: 0 <= i < |r| ==> r[i] == tracks[i].duration
  {
    seq(|tracks|, i requires 0 <= i < |tracks| => tracks[i].duration)
  }

  /** The arguments of the album's `scrobbleTracks` call. */
  datatype AlbumRequest = AlbumRequest(artist: string, tracks: seq<string>, album: string, token: string, durations: seq<string>)

  /** Everything between the release being loaded and the `scrobbleTracks` call. */
  function PrepareRequest(album: Album, token: string, release: DiscogsReleaseResponse): (r: Result<AlbumRequest, Thrown>)
  {
    var playable := PlayableTracks(release.tracklist);
    var titles := Titles(playable);
    if |titles| == 0 then Failure(ErrorObject(NoTracks))
    else Success(AlbumRequest(album.artist, titles, album.title, token, Durations(playable)))
  }

  /**
   * Headings are dropped, titles and durations run in parallel and come from the
   * same non-heading track, in tracklist order; an album with no such track is
   * an error and nothing is sent.
   */
  lemma PrepareRequestSpec(album: Album, token: string, release: DiscogsReleaseResponse)
    ensures var r := PrepareRequest(album, token, release);
      var playable := PlayableTracks(release.tracklist);
      && (r.Failure? <==> forall t :: t in release.tracklist ==> !IsTrack(t))
      && (r.Failure? ==> r.error == ErrorObject(NoTracks))
      && (r.Success? ==>
        && r.value.artist == album.artist && r.value.album == album.title && r.value.token == token
        && |r.value.tracks| == |r.value.durations| == |playable|
        && (forall i :: 0 <= i < |playable| ==>
              IsTrack(playable[i]) && r.value.tracks[i] == playable[i].title && r.value.durations[i] == playable[i].duration))
      && IsSubsequence(playable, release.tracklist)
      && (forall t :: t in playable <==> t in release.tracklist && IsTrack(t))
  {
    var playable := PlayableTracks(release.tracklist);
    FilterNone(release.tracklist, IsTrack);
    FilterIsSubsequence(release.tracklist, IsTrack);
    forall i | 0 <= i < |playable| ensures IsTrack(playable[i]) {
      assert playable[i] in playable;
    }
  }

  /** `releaseInfo`: the cached release when there is one, otherwise the fetch's outcome. */
  function LoadRelease(cached: Option<DiscogsReleaseResponse>, fetched: Result<DiscogsReleaseResponse, Thrown>): Result<DiscogsReleaseResponse, Thrown> {
    if cached.Some? then Success(cached.value) else fetched
  }

  /** The body of the `try`, up to the `scrobbleTracks` call. */
  function RequestFor(album: Album, token: string, release: Result<DiscogsReleaseResponse, Thrown>): Result<AlbumRequest, Thrown> {
    match release
    case Failure(e) => Failure(e)
    case Success(info) => PrepareRequest(album, token, info)
  }

  /**
   * A cached release is used when there is one and the fetch is then not
   * consulted; otherwise a failed fetch is the error of the `try`, and a
   * fetched release is prepared like a cached one.
   */
  lemma RequestForSpec(album: Album, token: string, cached: Option<DiscogsReleaseResponse>,
                       fetched: Result<DiscogsReleaseResponse, Thrown>)
    ensures cached.Some? ==> RequestFor(album, token, LoadRelease(cached, fetched)) == PrepareRequest(album, token, cached.value)
    ensures cached.None? && fetched.Success? ==>
      RequestFor(album, token, LoadRelease(cached, fetched)) == PrepareRequest(album, token, fetched.value)
    ensures cached.None? && fetched.Failure? ==> RequestFor(album, token, LoadRelease(cached, fetched)) == Failure(fetched.error)
  {
  }

  datatype Toast = SuccessToast(text: string) | ErrorToast(text: string)

  /** `err instanceof Error ? err.message : "Unknown error"`. */
  function ErrorMessageOf(err: Thrown): string {
    match err
    case ErrorObject(m) => m
    case OtherValue => "Unknown error"
  }

  /** The toast shown when the `try` ends: the number of tracks sent, or the reason it failed. */
  function ToastFor(album: Album, request: Result<AlbumRequest, Thrown>, scrobbled: Result<(), Thrown>): (t: Toast)
    ensures t.SuccessToast? <==> request.Success? && scrobbled.Success?
  {
    if request.Failure? then ErrorToast("Failed to scrobble: " + ErrorMessageOf(request.error))
    else if scrobbled.Failure? then ErrorToast("Failed to scrobble: " + ErrorMessageOf(scrobbled.error))
    else SuccessToast("Successfully scrobbled " + NatToString(|request.value.tracks|) + " tracks from " + album.title + "!")
  }

  /** An album for which there is nothing to scrobble never reports success, whatever the rest does. */
  lemma NoTracksNeverSucceeds(album: Album, token: string, release: DiscogsReleaseResponse, scrobbled: Result<(), Thrown>)
    requires forall t :: t in release.tracklist ==> !IsTrack(t)
    ensures ToastFor(album, PrepareRequest(album, token, release), scrobbled) == ErrorToast("Failed to scrobble: " + NoTracks)
  {
    PrepareRequestSpec(album, token, release);
  }

  /** The hook's state: `albumsScrobbling`. */
  class AlbumScrobbler {
    var albumsScrobbling: map<int, bool>

    constructor()
      ensures albumsScrobbling == map[]
    {
      albumsScrobbling := map[];
    }

    /**
     * `scrobbleAlbum` up to its first `await`: with no token it throws and the
     * map is untouched; otherwise the album is marked as in progress and the
     * token is returned for the rest of the call.
     */
    method Start(album: Album, token: Option<string>) returns (r: Result<string, string>)
      modifies this
      ensures !Truthy(token) ==> r == Failure(NoToken) && albumsScrobbling == old(albumsScrobbling)
      ensures Truthy(token) ==> r == Success(token.value) && albumsScrobbling == old(albumsScrobbling)[album.id := true]
    {
      if !Truthy(token) {
        return Failure(NoToken);
      }
      albumsScrobbling := albumsScrobbling[album.id := true];
      r := Success(token.value);
    }

    /**
     * The rest of the `try`, the `catch` and the `finally`, given the token
     * `Start` returned, the cached release, what the fetch would give and what
     * `scrobbleTracks` resolved to: the toast for that outcome, and the album's
     * entry removed on every path while the other albums' entries are kept.
     */
    method Finish(album: Album, token: string, cached: Option<DiscogsReleaseResponse>,
                  fetched: Result<DiscogsReleaseResponse, Thrown>, scrobbled: Result<(), Thrown>) returns (toast: Toast)
      modifies this
      ensures toast == ToastFor(album, RequestFor(album, token, LoadRelease(cached, fetched)), scrobbled)
      ensures albumsScrobbling == old(albumsScrobbling) - {album.id}
      ensures album.id !in albumsScrobbling
      ensures forall id :: id in old(albumsScrobbling) && id != album.id ==>
        id in albumsScrobbling && albumsScrobbling[id] == old(albumsScrobbling)[id]
    {
      var request := RequestFor(album, token, LoadRelease(cached, fetched));
      toast := ToastFor(album, request, scrobbled);
      albumsScrobbling := albumsScrobbling - {album.id};
    }
  }
}
