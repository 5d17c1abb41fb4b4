/**
 * The `select` callbacks and `enabled` flags of the query options: how Discogs
 * responses are reshaped before the pages see them.
 */
module Queries {
  import opened Wrappers
  import opened Strings
  import opened Seqs
  import opened Types
  import opened ScrobbleTypes

  // ---- enabled ----

  /** `Boolean(sessionToken)`. */
  predicate UserInfoEnabled(sessionToken: Option<string>) {
    Truthy(sessionToken)
  }

  /** `Boolean(username)`. */
  predicate CollectionEnabled(username: string) {
    username != ""
  }

  /** `Boolean(query) && query.length > 2`. */
  predicate SearchEnabled(query: string) {
    query != "" && |query| > 2
  }

  /** The search runs from the third character typed on. */
  lemma SearchEnabledIff(query: string)
    ensures SearchEnabled(query) <==> |query| >= 3
  {
  }

  // ---- The collection ----

  /**
   * The collection `select`: every release becomes an album named after its
   * first artist. `artists[0].name` throws on a release without artists, which
   * fails the whole selection (None).
   */
  function CollectionSelect(data: seq<DiscogsRelease>): (r: Option<seq<Album>>)
    ensures r.Some? <==> forall i :: 0 <= i < |data| ==> |data[i].basicInformation.artists| > 0
    ensures r.Some? ==> |r.value| == |data| && forall i :: 0 <= i < |data| ==> r.value[i] == ToAlbum(data[i])
    decreases |data|
  {
    if data == [] then Some([])
    else if |data[0].basicInformation.artists| == 0 then None
    else
      var rest := CollectionSelect(data[1..]);
      if rest.None? then None else Some([ToAlbum(data[0])] + rest.value)
  }

  function ToAlbum(release: DiscogsRelease): (a: Album)
    requires |release.basicInformation.artists| > 0
    ensures a.id == release.id && a.title == release.basicInformation.title
    ensures a.artist == release.basicInformation.artists[0].name && a.artistId == release.basicInformation.artists[0].id
    ensures a.year == release.basicInformation.year && a.coverImage == release.basicInformation.coverImage
  {
    var info := release.basicInformation;
    Album(release.id, info.title, info.artists[0].name, info.artists[0].id, info.year, info.coverImage)
  }

  // ---- The artist's releases ----

  /** The entry the artist page lists. `id` is absent for a master without `main_release`. */
  datatype ArtistAlbum = ArtistAlbum(
    id: Option<int>, title: string, year: int, coverImage: string, releaseType: string,
    format: string, artist: string, artistId: int)

  predicate IsListed(release: DiscogsArtistRelease) {
    release.releaseType == "master" || release.releaseType == "release"
  }

  function ToArtistAlbum(release: DiscogsArtistRelease, artistId: int): ArtistAlbum {
    ArtistAlbum(
      if release.releaseType == "master" then release.mainRelease else Some(release.id),
      release.title, release.year, release.thumb, release.releaseType, release.format,
      release.artist, artistId)
  }

  function MapArtistAlbums(releases: seq<DiscogsArtistRelease>, artistId: int): (r: seq<ArtistAlbum>)
    ensures |r| == |releases| && forall i :: 0 <= i < |r| ==> r[i] == ToArtistAlbum(releases[i], artistId)
  {
    seq(|releases|, i requires 0 <= i < |releases| => ToArtistAlbum(releases[i], artistId))
  }

  /** The artist-releases `select`, applied to the list of releases. */
  function ArtistReleasesSelect(releases: seq<DiscogsArtistRelease>, artistId: int): seq<ArtistAlbum> {
    MapArtistAlbums(Filter(releases, IsListed), artistId)
  }

  /**
   * Only masters and releases are listed, every copy of each, in their order; a master is listed
   * under its main release, anything else under its own id; title, year,
   * thumbnail, type, format and artist are copied, and every entry carries the
   * artist id asked for.
   */
  lemma ArtistReleasesSelectSpec(releases: seq<DiscogsArtistRelease>, artistId: int)
    ensures var kept := Filter(releases, IsListed);
      var r := ArtistReleasesSelect(releases, artistId);
      && IsSubsequence(kept, releases)
      && (forall x :: x in kept <==> x in releases && IsListed(x))
      && (forall x :: multiset(kept)[x] == if IsListed(x) then multiset(releases)[x] else 0)
      && |r| == |kept|
      && forall i :: 0 <= i < |r| ==>
        && r[i].artistId == artistId
        && r[i].title == kept[i].title && r[i].year == kept[i].year
        && r[i].coverImage == kept[i].thumb && r[i].releaseType == kept[i].releaseType
        && r[i].format == kept[i].format && r[i].artist == kept[i].artist
        && (kept[i].releaseType == "master" ==> r[i].id == kept[i].mainRelease)
        && (kept[i].releaseType == "release" ==> r[i].id == Some(kept[i].id))
  {
    FilterIsSubsequence(releases, IsListed);
    FilterCounts(releases, IsListed);
  }

  /** The artist-releases response: the list sits under `releases`, beside the pagination. */
  datatype ArtistReleasesResponse = ArtistReleasesResponse(pagination: Pagination, releases: seq<DiscogsArtistRelease>)

  /**
   * The `select` as written receives the whole response object, and
   * `data.filter` is not a function on it: the selection throws (None) for
   * every response.
   */
  function ArtistReleasesSelectAsWritten(data: ArtistReleasesResponse, artistId: int): Option<seq<ArtistAlbum>> {
    None
  }

  lemma AsWrittenAlwaysThrows(data: ArtistReleasesResponse, artistId: int)
    ensures ArtistReleasesSelectAsWritten(data, artistId).None?
  {
  }

  /** The evidently intended selection: the `releases` list of the response. */
  function ArtistReleasesSelectCorrected(data: ArtistReleasesResponse, artistId: int): (r: seq<ArtistAlbum>)
    ensures r == ArtistReleasesSelect(data.releases, artistId)
  {
    ArtistReleasesSelect(data.releases, artistId)
  }

  /** A response that lists one release is shown with that release, where as written nothing is. */
  lemma CorrectedListsReleases(data: ArtistReleasesResponse, artistId: int)
    requires |data.releases| == 1 && data.releases[0].releaseType == "release"
    ensures |ArtistReleasesSelectCorrected(data, artistId)| == 1
    ensures ArtistReleasesSelectCorrected(data, artistId)[0].id == Some(data.releases[0].id)
    ensures ArtistReleasesSelectAsWritten(data, artistId).None?
  {
    var rs := data.releases;
    assert rs[1..] == [];
    assert Filter(rs, IsListed) == [rs[0]];
  }

  // ---- The search ----

  datatype Pagination = Pagination(page: int, pages: int, perPage: int, items: int)

  /** One database search hit; `year` is a string such as "1999" and may be missing. */
  datatype SearchResult = SearchResult(id: int, title: string, year: Option<string>, coverImage: string, thumb: string)

  datatype SearchResponse = SearchResponse(pagination: Pagination, results: seq<SearchResult>)

  datatype SearchAlbum = SearchAlbum(id: int, title: Option<string>, artist: string, year: int, coverImage: string)

  datatype SearchPage = SearchPage(pagination: Pagination, results: seq<SearchAlbum>)

  /** The end of the line that starts at `i`: what `.+` reaches. */
  function LineEnd(s: string, i: nat): (j: nat)
    requires i <= |s|
    ensures i <= j <= |s|
    ensures forall t :: i <= t < j ==> !IsLineTerminator(s[t])
    ensures j == |s| || IsLineTerminator(s[j])
    decreases |s| - i
  {
    if i == |s| || IsLineTerminator(s[i]) then i else LineEnd(s, i + 1)
  }

  /** `/ - (.+)/` matches at `p`: the separator, followed by at least one character of the same line. */
  predicate SeparatorAt(s: string, p: nat) {
    HasAt(s, p, " - ") && p + 3 < |s| && !IsLineTerminator(s[p + 3])
  }

  /** The leftmost separator at or after `from`. */
  function FindSeparator(s: string, from: nat): (r: Option<nat>)
    ensures r.Some? ==> from <= r.value && SeparatorAt(s, r.value)
    ensures r.Some? ==> forall q :: from <= q < r.value ==> !SeparatorAt(s, q)
    ensures r.None? ==> forall q :: from <= q ==> !SeparatorAt(s, q)
    decreases |s| - from
  {
    if from + 3 >= |s| then None
    else if SeparatorAt(s, from) then Some(from)
    else FindSeparator(s, from + 1)
  }

  /**
   * `const [artist, title] = s.split(/ - (.+)/)`: the text before the first
   * separator, and the captured rest of that line; without a separator the
   * whole string is the artist and the title is undefined.
   */
  function SplitTitle(s: string): (string, Option<string>) {
    match FindSeparator(s, 0)
    case None => (s, None)
    case Some(p) => (s[..p], Some(s[p + 3..LineEnd(s, p + 3)]))
  }

  /**
   * The split is at the first separator: the artist holds none, the title is
   * non-empty, on one line, and the whole of it; on one line the parts
   * rebuild the input.
   */
  lemma SplitTitleSpec(s: string)
    ensures var (artist, title) := SplitTitle(s);
      && (title.None? <==> forall q :: !SeparatorAt(s, q))
      && (title.None? ==> artist == s)
      && (title.Some? ==>
        && |title.value| > 0
        && (forall t :: 0 <= t < |title.value| ==> !IsLineTerminator(title.value[t]))
        && (forall q: nat :: q < |artist| ==> !SeparatorAt(s, q))
        && SeparatorAt(s, |artist|)
        && ((forall t :: 0 <= t < |s| ==> !IsLineTerminator(s[t])) ==> artist + " - " + title.value == s))
  {
    match FindSeparator(s, 0)
    case None =>
    case Some(p) =>
      var title := s[p + 3..LineEnd(s, p + 3)];
      forall t | 0 <= t < |title| ensures !IsLineTerminator(title[t]) {
        assert title[t] == s[p + 3 + t];
      }
      if forall t :: 0 <= t < |s| ==> !IsLineTerminator(s[t]) {
        assert LineEnd(s, p + 3) == |s|;
        assert s[..p] + " - " + s[p + 3..] == s by {
          assert s[p..p + 3] == " - ";
        }
      }
  }

  /** The separator is the first one: "A - B - C" is artist "A", title "B - C". */
  lemma SplitTitleExample()
    ensures SplitTitle("A - B - C") == ("A", Some("B - C"))
  {
    var s := "A - B - C";
    assert s[1..4] == " - ";
    assert SeparatorAt(s, 1);
    assert s[0..3][0] == 'A';
    assert !SeparatorAt(s, 0);
    assert FindSeparator(s, 0) == Some(1);
    assert LineEnd(s, 4) == 9;
    assert s[..1] == "A" && s[4..9] == "B - C";
  }

  /** A title without a separator is all artist, and the title is undefined. */
  lemma NoSeparatorExample()
    ensures SplitTitle("Solo") == ("Solo", None)
  {
    var s := "Solo";
    assert s[0..3][0] == 'S';
    assert !SeparatorAt(s, 0);
    assert FindSeparator(s, 1) == None;
  }

  // ---- parseInt ----

  predicate IsHexDigit(c: char) {
    IsDigit(c) || 'a' <= c <= 'f' || 'A' <= c <= 'F'
  }

  function HexValue(c: char): (v: nat)
    requires IsHexDigit(c)
    ensures v < 16
  {
    if IsDigit(c) then c as int - '0' as int
    else if 'a' <= c <= 'f' then c as int - 'a' as int + 10
    else c as int - 'A' as int + 10
  }

  predicate IsRadixDigit(c: char, radix: nat)
    ensures IsRadixDigit(c, radix) ==> IsHexDigit(c)
  {
    if radix == 16 then IsHexDigit(c) else IsDigit(c)
  }

  /** The characters from `i` on that are digits of the radix. */
  function DigitRun(s: string, i: nat, radix: nat): (j: nat)
    requires i <= |s|
    ensures i <= j <= |s|
    ensures forall t :: i <= t < j ==> IsRadixDigit(s[t], radix)
    ensures j == |s| || !IsRadixDigit(s[j], radix)
    decreases |s| - i
  {
    if i == |s| || !IsRadixDigit(s[i], radix) then i else DigitRun(s, i + 1, radix)
  }

  /** The value of the digits `s[k..e]` in the radix, most significant digit first. */
  function RunValue(s: string, k: nat, e: nat, radix: nat): nat
    requires k <= e <= |s|
    requires forall t :: k <= t < e ==> IsRadixDigit(s[t], radix)
    decreases e - k
  {
    if e == k then 0
    else
      assert IsRadixDigit(s[e - 1], radix);
      RunValue(s, k, e - 1, radix) * radix + HexValue(s[e - 1])
  }

  /**
   * `parseInt(s)` with no radix: leading whitespace, an optional sign, a "0x"
   * prefix selecting hexadecimal, then the longest run of digits; None is NaN.
   */
  function ParseInt(s: string): Option<int> {
    var i := SpaceRunEnd(s, 0);
    var negative := i < |s| && s[i] == '-';
    var j := if i < |s| && (s[i] == '-' || s[i] == '+') then i + 1 else i;
    var hex := j + 2 <= |s| && s[j] == '0' && (s[j + 1] == 'x' || s[j + 1] == 'X');
    var radix := if hex then 16 else 10;
    var k := if hex then j + 2 else j;
    var e := DigitRun(s, k, radix);
    if e == k then None
    else
      var v: int := RunValue(s, k, e, radix);
      Some(if negative then -v else v)
  }

  /** `parseInt(result.year) || 0`: a missing year, NaN and zero all give 0. */
  function SearchYear(year: Option<string>): int {
    match year
    case None => 0
    case Some(y) => ParseInt(y).GetOr(0)
  }

  /** `result.cover_image || result.thumb`. */
  function CoverOf(result: SearchResult): string {
    if result.coverImage != "" then result.coverImage else result.thumb
  }

  function ToSearchAlbum(result: SearchResult): SearchAlbum {
    var (artist, title) := SplitTitle(result.title);
    SearchAlbum(result.id, title, artist, SearchYear(result.year), CoverOf(result))
  }

  /** The search `select`. */
  function SearchSelect(data: SearchResponse): (r: SearchPage)
    ensures r.pagination == data.pagination
    ensures |r.results| == |data.results|
    ensures forall i :: 0 <= i < |r.results| ==> r.results[i] == ToSearchAlbum(data.results[i])
  {
    SearchPage(data.pagination, seq(|data.results|, i requires 0 <= i < |data.results| => ToSearchAlbum(data.results[i])))
  }

  lemma {:induction false} RunValueAppend(a: string, b: string, k: nat, e: nat, radix: nat)
    requires k <= e <= |a| && forall t :: k <= t < e ==> IsRadixDigit(a[t], radix)
    ensures forall t :: k <= t < e ==> IsRadixDigit((a + b)[t], radix)
    ensures RunValue(a + b, k, e, radix) == RunValue(a, k, e, radix)
    decreases e - k
  {
    assert forall t :: k <= t < e ==> (a + b)[t] == a[t];
    if e > k {
      RunValueAppend(a, b, k, e - 1, radix);
    }
  }

  lemma {:induction false} RunValueOfNat(n: nat)
    ensures forall t :: 0 <= t < |NatToString(n)| ==> IsRadixDigit(NatToString(n)[t], 10)
    ensures RunValue(NatToString(n), 0, |NatToString(n)|, 10) == n
    decreases n
  {
    var ds := NatToString(n);
    if n >= 10 {
      RunValueOfNat(n / 10);
      var front := NatToString(n / 10);
      assert ds == front + [DigitChar(n % 10)];
      RunValueAppend(front, [DigitChar(n % 10)], 0, |front|, 10);
    }
  }

  lemma {:induction false} DigitRunAll(s: string, i: nat, radix: nat)
    requires i <= |s| && forall t :: i <= t < |s| ==> IsRadixDigit(s[t], radix)
    ensures DigitRun(s, i, radix) == |s|
    decreases |s| - i
  {
    if i < |s| {
      DigitRunAll(s, i + 1, radix);
    }
  }

  /** A year written out in decimal is read back: `parseInt(String(y)) === y`. */
  lemma ParseIntOfNat(n: nat)
    ensures ParseInt(NatToString(n)) == Some(n)
  {
    var s := NatToString(n);
    RunValueOfNat(n);
    assert !IsSpace(s[0]) && s[0] != '-' && s[0] != '+';
    assert SpaceRunEnd(s, 0) == 0;
    if |s| >= 2 {
      assert IsDigit(s[1]);
    }
    DigitRunAll(s, 0, 10);
  }

  /** Leading digits count, whatever follows them. */
  lemma LeadingDigitsRead()
    ensures SearchYear(Some(" 42abc")) == 42
  {
    var s := " 42abc";
    assert SpaceRunEnd(s, 0) == 1;
    assert DigitRun(s, 1, 10) == 3;
    assert RunValue(s, 1, 2, 10) == 4;
  }

  /** A year that does not start with a number, or no year at all, gives 0. */
  lemma NoNumberIsZero()
    ensures SearchYear(Some("unknown")) == 0
    ensures SearchYear(None) == 0
  {
    var s := "unknown";
    assert SpaceRunEnd(s, 0) == 0;
    assert DigitRun(s, 0, 10) == 0;
  }
}
