/** The records of the Discogs responses and of the app's own album, as far as the modelled code reads them. */
module Types {
  import opened Wrappers

  datatype ArtistRef = ArtistRef(name: string, id: int, resourceUrl: string)

  datatype BasicInformation = BasicInformation(
    title: string, year: int, masterId: int, artists: seq<ArtistRef>, coverImage: string)

  /** `DiscogsRelease`: one entry of a user's collection. */
  datatype DiscogsRelease = DiscogsRelease(id: int, basicInformation: BasicInformation)

  /** `Album`: the app's view of a release. */
  datatype Album = Album(id: int, title: string, artist: string, artistId: int, year: int, coverImage: string)

  /** `DiscogsTrack`; `type_` is "track", "heading" or "index". */
  datatype DiscogsTrack = DiscogsTrack(position: string, trackType: string, title: string, duration: string)

  datatype Image = Image(primary: bool, uri: string, uri150: string, width: int, height: int)

  /** `DiscogsReleaseResponse`. */
  datatype DiscogsReleaseResponse = DiscogsReleaseResponse(
    id: int, year: int, title: string, artists: seq<ArtistRef>, tracklist: seq<DiscogsTrack>, images: seq<Image>)

  /** `DiscogsArtistRelease`; `main_release` only exists on masters. */
  datatype DiscogsArtistRelease = DiscogsArtistRelease(
    id: int, mainRelease: Option<int>, title: string, year: int, thumb: string,
    resourceUrl: string, releaseType: string, role: string, artist: string, format: string)
}
