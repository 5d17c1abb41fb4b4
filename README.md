# record-scrobbler core, modelled in Dafny

record-scrobbler is a web application. It reads a user's vinyl collection and artist data from Discogs and scrobbles (records as listened to) albums and single tracks to Last.fm. This project models the application's core logic and proves properties of that model:

- the Discogs query selectors;
- the parser that turns a Discogs artist profile (BBCode-like tags such as `[a=Name]`, `[l123]`, `[url=…]…[/url]`) into segments, and how those segments are rendered;
- normalisation of artist names;
- recognition of artist links;
- the track-selection table;
- the scrobble history kept by the track and manual scrobble pages;
- the album scrobble hook;
- the signing endpoint for Last.fm requests, and the body the client posts to it;
- the gzip/base64 compression glue;
- the pagination controls;
- the collection filter on the home page and in the root component.

## How the model is organised

- `Wrappers`, `Strings` and `Seqs` hold the JavaScript primitives the core relies on:
  - `Option`/`Result`;
  - ASCII `toLowerCase`, `\d`, `\s`, `indexOf`, `includes` and `toString` of integers;
  - `filter` with its subsequence facts.
- `Types` and `ScrobbleTypes` hold the records and the form and history helpers.
- Every other module follows one source file, or part of one.
- Pure code is written as functions and lemmas. Code that changes state step by step is written imperatively:
  - React state is a `class` whose fields the handlers update;
  - the fixed-size `Uint8Array` buffers in compression are `array<byte>`;
  - the loops of `parseProfileText`, `onRowSelectionChange` and the chunk copy are `while`/`for` loops with invariants.
- Each handler is proved against a function that specifies it.
- An asynchronous handler is split at its `await` into two methods: the part before the await, and its continuation. The continuation takes the awaited outcome (success or thrown error) as a parameter.
- Functions the model cannot see are parameters: `fetch`, MD5, gzip, `btoa`/`atob`, `TextEncoder`/`TextDecoder`, the `URL` hostname parser and the clock.

## Model

| member | source | states |
|---|---|---|
| Queries.UserInfoEnabled | src/utils/queries.ts:38 | the user-info query runs exactly when a non-empty session token is stored |
| Queries.CollectionEnabled | src/utils/queries.ts:48 | the collection query runs exactly when the username is non-empty |
| Queries.SearchEnabledIff | src/utils/queries.ts:137 | the search query runs exactly when the query has at least three characters |
| Queries.CollectionSelect | src/utils/queries.ts:49-60 | the selection succeeds exactly when every release has a first artist; it then keeps the order and length, and each album carries that release's id, title, first artist's name and id, year and cover |
| Queries.ToAlbum | src/utils/queries.ts:50-59 | one album takes its id, title, year and cover from the release, and its artist name and id from the first artist |
| Queries.ArtistReleasesSelectSpec | src/utils/queries.ts:113-127 | exactly the entries of type "master" or "release" are kept, each as often as it occurs, in their original order; each is shown under its main release if it is a master and under its own id otherwise, with its title, year, thumbnail as cover, type, format and artist copied, and the queried artist's id |
| Queries.ArtistReleasesSelectAsWritten | src/utils/queries.ts:113-127 | as written, the selection calls `filter` on the response object rather than its release list |
| Queries.AsWrittenAlwaysThrows | src/utils/queries.ts:115 | for every response, the as-written selection throws |
| Queries.ArtistReleasesSelectCorrected | src/utils/queries.ts:113-127 | the corrected selection is the list selection applied to the response's `releases` field |
| Queries.CorrectedListsReleases | src/utils/queries.ts:113-127 | for a response with one release-type entry, the corrected selection yields that release while the as-written one throws |
| Queries.SplitTitleSpec | src/utils/queries.ts:148 | the artist is the text before the first " - ", or the whole title if there is none; the album is the text after that separator, up to the next line terminator, as the regex `/ - (.+)/` gives |
| Queries.SplitTitleExample | src/utils/queries.ts:148 | "A - B - C" splits into artist "A" and album "B - C": only the first separator divides |
| Queries.NoSeparatorExample | src/utils/queries.ts:148 | a title without " - " is the artist and has no album |
| Queries.SearchSelect | src/utils/queries.ts:144-159 | the pagination is passed through; there is one album per result, in order, each built from its result |
| Queries.ParseIntOfNat | src/utils/queries.ts:154 | `parseInt` reads back the decimal text of every natural number |
| Queries.LeadingDigitsRead | src/utils/queries.ts:154 | `parseInt` skips leading whitespace and stops at the first non-digit: " 42abc" gives year 42 |
| Queries.NoNumberIsZero | src/utils/queries.ts:154 | a year that is missing or not a number becomes 0 |
| ProfileGrammar.PatternSound | src/components/ArtistProfile.tsx:170-179 | every match of a tag pattern spells an opener, a non-empty group in the pattern's character class, an optional label and the closer, at the reported positions |
| ProfileGrammar.PatternComplete | src/components/ArtistProfile.tsx:170-179 | every occurrence of a well-formed tag is matched at its position, with exactly its groups and its length |
| ProfileGrammar.GroupRunComplete | src/components/ArtistProfile.tsx:170-179 | a greedy group (`[^\]]+`, `\d+` or `[^\[]+`) followed by its closer captures exactly its text, because its class does not admit the closer's first character; this is what stops the first group at `]` and the url label at `[/url]` |
| ProfileGrammar.ScanSound | src/components/ArtistProfile.tsx:199-314 | every match that the global `exec` loop collects is a match of the pattern at its start, lies inside the text and starts no earlier than the scan's start |
| ProfileGrammar.ScanDisjoint | src/components/ArtistProfile.tsx:199-314 | the matches one pattern's `exec` loop collects are in order and do not overlap, because `lastIndex` moves to each match's end |
| ProfileGrammar.ScanLeftmost | src/components/ArtistProfile.tsx:199-314 | every position where the pattern matches is covered by a collected match: the loop misses no tag, except where one lies inside another of the same pattern |
| ProfileParser.CollectMatches | src/components/ArtistProfile.tsx:199-314 | the ten `exec` loops run in source order and yield exactly the specified match list |
| ProfileParser.SortByStart | src/components/ArtistProfile.tsx:317 | sorting by start position is a permutation of the matches |
| ProfileParser.Insert | src/components/ArtistProfile.tsx:317 | one insertion step adds exactly one match to the multiset |
| ProfileFacts.OrderedIsStableSort | src/components/ArtistProfile.tsx:317 | the sorted list is a permutation of all matches and is ordered by start; matches with equal starts keep their collection order (the sort is stable) |
| ProfileFacts.SortStable | src/components/ArtistProfile.tsx:317 | for every start position, the sort keeps the order of the matches starting there |
| ProfileFacts.MatchSound | src/components/ArtistProfile.tsx:199-317 | every sorted match comes from one of the ten patterns with some groups, and spells that tag in the text |
| ProfileFacts.MatchComplete | src/components/ArtistProfile.tsx:199-317 | every occurrence of a tag in the profile is covered by a sorted match of the same pattern |
| ProfileParser.WalkInBounds | src/components/ArtistProfile.tsx:320-338 | when all matches lie inside the text, every gap the loop emits lies inside it too, and so does the cursor |
| ProfileParser.LayoutInBounds | src/components/ArtistProfile.tsx:320-346 | adding the trailing-text piece keeps every gap inside the text |
| ProfileFacts.WalkTags | src/components/ArtistProfile.tsx:320-338 | the loop emits every match, in sorted order, and no other tag |
| ProfileFacts.LayoutTags | src/components/ArtistProfile.tsx:320-346 | the tags among the final pieces are exactly the sorted matches |
| ProfileFacts.TextSegmentsNonEmpty | src/components/ArtistProfile.tsx:321-327 | a text segment is emitted only for a non-empty gap |
| ProfileFacts.LayoutSpells | src/components/ArtistProfile.tsx:320-346 | when each match starts at or after the previous one's end, the gaps and tags together spell the original text exactly |
| ProfileFacts.ProfileSpells | src/components/ArtistProfile.tsx:165-349 | if the sorted matches do not overlap, the parse of a profile spells the profile exactly |
| ProfileFacts.NoTags | src/components/ArtistProfile.tsx:341-348 | a profile without tags is one text segment, or no segment if it is empty |
| ProfileFacts.EmptyProfile | src/components/ArtistProfile.tsx:165-349 | the empty profile parses to no segments |
| ProfileParser.EmitSegments | src/components/ArtistProfile.tsx:320-346 | the cursor loop plus the trailing text yield the rendering of the specified layout |
| ProfileParser.ParseProfileText | src/components/ArtistProfile.tsx:165-349 | the imperative parser returns exactly the specified segments: collected, stably sorted, walked and rendered |
| ProfileView.FirstParagraphSpec | src/components/ArtistProfile.tsx:41-42 | the first paragraph is the profile up to its first "\n\n": that break starts right after it and none starts inside it; it equals the whole profile exactly when the profile has no "\n\n" |
| ProfileView.DisplayTextSpec | src/components/ArtistProfile.tsx:45-50 | when expanded, the whole profile is shown. When collapsed, a long profile shows its first 320 characters followed by "...", and any other profile shows exactly its first paragraph |
| ProfileView.NoToggleShowsAll | src/components/ArtistProfile.tsx:41-50 | when no toggle is offered, the collapsed view is already the whole profile |
| ProfileView.ToggleHidesSomething | src/components/ArtistProfile.tsx:41-50 | a short profile that offers the toggle hides something when collapsed |
| ProfileView.RenderSegment | src/components/ArtistProfile.tsx:52-130 | a segment renders as an artist link exactly when it is an artist tag of the form `[a123]`, and as a label link exactly when it is a label tag of the form `[l123]` |
| ProfileView.ArtistIdTagIsLink | src/components/ArtistProfile.tsx:223-233 | an `[a123]` tag renders as a link to artist 123, labelled "Artist 123" |
| ProfileView.LabelIdTagIsLink | src/components/ArtistProfile.tsx:271-281 | an `[l123]` tag renders as a link to label 123 |
| ProfileView.ArtistNameTagIsText | src/components/ArtistProfile.tsx:211-221 | an `[a=Name]` tag renders as the name with its disambiguation suffix removed |
| ProfileView.SegmentsCarryIds | src/components/ArtistProfile.tsx:211-281 | every artist, label, release and master segment carries an id, and every url segment carries a url |
| ArtistName.NormalizeArtistName | src/utils/common.ts:10-12 | the normalised name is a prefix of the name |
| ArtistName.NormalizeSpec | src/utils/common.ts:10-12 | the name is unchanged exactly when the suffix pattern (whitespace, "(", digits, ")" at the end) matches nowhere; otherwise it is cut at the leftmost match |
| ArtistName.SuffixStartFinds | src/utils/common.ts:11 | the backward scan finds a match of the suffix pattern that is at or before any given match |
| ArtistName.OneSuffix | src/utils/common.ts:11 | "A (2)" becomes "A" |
| ArtistName.WholeRunRemoved | src/utils/common.ts:11 | all whitespace before the parenthesis goes: "A  (2)" becomes "A" |
| ArtistName.NoSpaceKept | src/utils/common.ts:11 | without whitespace before the parenthesis, nothing is removed |
| ArtistName.DigitsRequired | src/utils/common.ts:11 | parentheses holding no digits, or a non-digit, are kept |
| ArtistName.NotIdempotent | src/utils/common.ts:11 | only the last suffix goes, so normalising twice can remove more than normalising once |
| ArtistLinks.FirstFitSpec | src/components/ArtistLinks.tsx:35-70 | the chain of `includes` tests yields the first rule that fits, or the fallback when none does; a rule is chosen exactly when it fits and no earlier rule does |
| ArtistLinks.ServiceOfSpec | src/components/ArtistLinks.tsx:35-70 | a hostname maps to the fallback exactly when no service rule fits it, and to a service exactly when that rule fits and no earlier rule does |
| ArtistLinks.PriorityDistinct | src/components/ArtistLinks.tsx:35-64 | the thirteen service rules are distinct and none is the fallback |
| ArtistLinks.BoxIsTwitter | src/components/ArtistLinks.tsx:38-42 | because the test is a substring test, any hostname containing "x.com", such as "box.com", is taken for Twitter |
| ArtistLinks.FirstRuleWins | src/components/ArtistLinks.tsx:36-42 | a hostname containing both "facebook" and "x.com" is Facebook, the earlier rule |
| ArtistLinks.ReplaceFirstSpec | src/components/ArtistLinks.tsx:67 | `replace` with a string pattern substitutes only its first occurrence, and leaves a string without the pattern unchanged |
| ArtistLinks.OtherHostName | src/components/ArtistLinks.tsx:65-70 | an unknown host is named by its hostname without "www.": "www.a.io" becomes "a.io" |
| ArtistLinks.ParseLinks | src/components/ArtistLinks.tsx:32-73 | parsing succeeds exactly when every URL has a hostname; it then keeps the order, and each link carries its URL with the service and name of its lower-cased hostname |
| ArtistLinks.ArtistLinksView | src/components/ArtistLinks.tsx:28-75 | nothing is shown exactly when there are no URLs; the component throws exactly when some URL does not parse; otherwise it lists the parsed links |
| TrackTable.TrackNumber | src/components/TrackTable.tsx:49 | row numbers start at 1 and advance one per row |
| TrackTable.RowSelection | src/components/TrackTable.tsx:79-81 | the row-selection state has one key per row, and a row is on exactly when its track's position is selected |
| TrackTable.Toggles | src/components/TrackTable.tsx:97-109 | one toggle call per position, in order |
| TrackTable.SelectedPositions | src/components/TrackTable.tsx:88-95 | the loop builds the specified new selection: selected rows' positions in entry order, each once |
| TrackTable.ToggleMissing | src/components/TrackTable.tsx:97-109 | the loop toggles exactly the positions of one set missing from the other, in order |
| TrackTable.OnRowSelectionChange | src/components/TrackTable.tsx:83-118 | the handler issues the specified calls: toggles for the added positions, then for the removed ones, then toggle-all when all or none are selected |
| TrackTable.NewSelectedDistinct | src/components/TrackTable.tsx:88-95 | the new selection holds no position twice |
| TrackTable.NewSelectedMembers | src/components/TrackTable.tsx:88-95 | a position is in the new selection exactly when some entry selects a row with that position |
| TrackTable.ApplyToggles | src/components/TrackTable.tsx:97-109 | toggling distinct positions flips exactly their membership |
| TrackTable.ChangedPositions | src/components/TrackTable.tsx:97-109 | the added and removed positions are distinct and are exactly the symmetric difference of the two selections |
| TrackTable.TogglesDistinct | src/components/TrackTable.tsx:97-109 | toggles of distinct positions are distinct calls |
| TrackTable.SelectionCallsSpec | src/components/TrackTable.tsx:83-118 | a position is toggled exactly when its selection state changed, no call is repeated, and toggle-all is called exactly when all rows or none are selected |
| TrackTable.SelectionCallsApply | src/components/TrackTable.tsx:83-118 | applying the toggles to the parent's selection yields the table's new selection |
| TrackTable.DistinctCardinality | src/components/TrackTable.tsx:112-117 | a selection without repeats has as many members as entries, which is the size compared for toggle-all |
| Sign.NameLessTransitive | src/routes/api/sign.ts:38-41 | the parameter-name order is transitive |
| Sign.NameLessTotal | src/routes/api/sign.ts:38-41 | any two different names are ordered one way or the other |
| Sign.DeclaredNamesOrdered | src/services/lastfm.ts:24-41 | the names the client posts sort as album, api_key, artist, cb, format, method, sk, timestamp, token, track: alphabetical order, which the en-US collation also gives |
| Sign.CaseOrder | src/routes/api/sign.ts:38-41 | the stand-in order puts "B" before "a", where the en-US collation does the reverse |
| Sign.SortByName | src/routes/api/sign.ts:38-41 | sorting is a permutation of the parameters |
| Sign.SortSorted | src/routes/api/sign.ts:38-41 | parameters with distinct names come out sorted by name |
| Sign.SortedUnique | src/routes/api/sign.ts:38-41 | two sorted lists with distinct names and the same multiset are equal, so the sort's output does not depend on the input order |
| Sign.ConcatenatedAppend | src/routes/api/sign.ts:43-46 | the signing string of two lists joined is the join of their strings |
| Sign.ParamStringOrderFree | src/routes/api/sign.ts:38-46 | reordering distinctly named parameters changes neither the name distinctness nor the signing string |
| Sign.SignRequestSpec | src/routes/api/sign.ts:21-53 | a missing secret is a 500; otherwise parameters failing the schema are a 400; otherwise the signature is the MD5 of the name-sorted `name+value` string followed by the secret |
| Sign.ValidParamsOrderFree | src/routes/api/sign.ts:8-36 | whether the parameters pass the schema does not depend on their order |
| Sign.SignatureOrderFree | src/routes/api/sign.ts:21-53 | the response does not depend on the order of distinctly named parameters |
| Sign.ShortKeyRefused | src/routes/api/sign.ts:9-36 | an `api_key` of 31 characters is refused with 400 |
| Sign.FormatRefused | src/routes/api/sign.ts:11-36 | a `format` parameter is refused with 400 |
| Sign.ClientParams | src/services/lastfm.ts:24-41 | the body `scrobbleTrack` posts: method, artist, track, timestamp, api_key, `format: "json"`, token and sk, then album and cb when set (stated through the two lemmas below) |
| Sign.ClientBodyRefused | src/services/lastfm.ts:24-45 | as written, every body the client posts carries `format` and is refused with 400 once a secret is configured |
| Sign.ClientSignedParams | src/services/lastfm.ts:24-45 | the corrected body: the client's parameters without `format` |
| Sign.SignedDropsFormat | src/services/lastfm.ts:24-33 | the corrected body is the client's body with its `format` entry removed, and no other change |
| Sign.CorrectedClientSigned | src/routes/api/sign.ts:24-51 | the corrected body, with a 32-character key and non-empty artist, track and session token, passes the schema and is signed: md5 of its sorted signing string followed by the secret |
| Compression.FlattenLength | src/utils/compression.ts:38-46 | the combined chunks are as long as the chunks' total length |
| Compression.PrefixLength | src/utils/compression.ts:42-46 | the first k chunks' total length never exceeds the whole total |
| Compression.CopyInto | src/utils/compression.ts:44 | `set(chunk, offset)` writes the chunk at the offset and keeps every other byte, before and after it |
| Compression.CombineChunks | src/utils/compression.ts:29-46 | the new buffer has exactly the total length and holds the chunks one after another |
| Compression.BinaryString | src/utils/compression.ts:48 | the binary string has one character per byte, with that byte's code |
| Compression.BinaryBytes | src/utils/compression.ts:63-67 | each byte is its character's code modulo 256 (`Uint8Array` truncation), and equals the code for a binary string |
| Compression.BinaryRoundTrip | src/utils/compression.ts:63-67 | reading the bytes back from their binary string gives the bytes |
| Compression.DecodeBinaryString | src/utils/compression.ts:64-67 | the loop fills a new buffer with the bytes of the binary string |
| Compression.IsCompressedDataSpec | src/utils/compression.ts:116-118 | data counts as compressed exactly when it is non-empty and made only of base64 characters and "=" |
| Compression.CompressData | src/utils/compression.ts:10-53 | the result is the base64 of the combined gzip chunks; when any step fails, it is the original data |
| Compression.DecompressData | src/utils/compression.ts:60-109 | the result is the decoding of the combined inflated chunks; when any step fails, it is the stored input |
| Compression.RoundTrip | src/utils/compression.ts:10-109 | when base64, gzip and UTF-8 each invert on the data at hand, decompressing the compressed data gives the data back |
| HomeRoute.FilterCollection | src/routes/index.tsx:49-56 | the filtered list is a subsequence of the collection, and an album stays exactly when its lower-cased title or artist, or its year, contains the lower-cased query; every copy of a kept album stays, so it occurs as often as in the collection |
| HomeRoute.EmptyQueryKeepsAll | src/routes/index.tsx:49-56 | the empty query keeps the whole collection |
| HomeRoute.CaseIgnored | src/routes/index.tsx:50-54 | whether an album matches does not depend on the query's letter case |
| HomeRoute.YearFound | src/routes/index.tsx:54 | years match as text: query "77" finds 1977 |
| HomeRoute.EmptyStates | src/routes/index.tsx:129-139 | the prompt and the no-match message never show together; no-match shows exactly when the collection is non-empty and no album matches; with the empty query it never shows |
| AppRoot.ItemsOfSpec | src/App.tsx:20-25 | the mapping succeeds exactly when every release has a first artist; it then keeps order and length and copies title, first artist, year and cover |
| AppRoot.App.constructor | src/App.tsx:9-13 | the initial state is empty, not loading and without error |
| AppRoot.App.FetchDisabled | src/App.tsx:80 | the fetch button is disabled while loading or with an empty username; `BeginFetch` leaves it disabled, and after a fetch it is disabled exactly when the username is empty |
| AppRoot.App.FilteredCollection | src/App.tsx:45-52 | a subsequence of the collection; an item stays exactly when its title or artist, lower-cased, or its year contains the lower-cased query, and then with as many copies as the collection holds |
| AppRoot.App.BeginFetch | src/App.tsx:17-18 | fetching sets loading and clears the error, changing nothing else, so the fetch button stays disabled until the fetch ends |
| AppRoot.App.FinishFetch | src/App.tsx:19-33 | on success the collection becomes the mapped releases; on failure it is kept and the error message is set; loading ends either way, and the fetch button is enabled again exactly when the username is non-empty |
| AppRoot.App.FetchCollection | src/App.tsx:15-34 | a whole fetch ends without error and with the mapped releases on success, and with the fixed error message and the old collection on failure |
| AppRoot.App.OnUsernameInput | src/App.tsx:72-73 | typing sets the username only |
| AppRoot.App.OnSearchInput | src/App.tsx:95-96 | typing sets the search query only |
| PaginationControls.EnabledTargetsInRange | src/components/Pagination.tsx:23-58 | on a valid page, every enabled button leads to another page within range |
| PaginationControls.SinglePageAllDisabled | src/components/Pagination.tsx:23-58 | with a single page, all four buttons are disabled |
| PaginationControls.PastTheEnd | src/components/Pagination.tsx:47-48 | past the last page, "Next" stays enabled and leads further out, since it is disabled only on the last page exactly |
| SearchAlbumRoute.PageAfterSpec | src/routes/search-album.tsx:24-29 | the page stays at least 1 and no higher than a known page count; it moves to the requested page exactly when that page is in range |
| SearchAlbumRoute.ShowPagination | src/routes/search-album.tsx:74-83 | the pagination controls show only for a non-empty result list whose pagination reports more than one page |
| SearchAlbumRoute.ButtonKeepsRange | src/routes/search-album.tsx:24-29 | a pagination button keeps the current page within range |
| SearchAlbumRoute.SearchAlbumPage.constructor | src/routes/search-album.tsx:18 | the page starts at 1 with an empty query |
| SearchAlbumRoute.SearchAlbumPage.HandlePageChange | src/routes/search-album.tsx:24-29 | the page moves as specified and the query is unchanged |
| SearchAlbumRoute.SearchAlbumPage.OnQueryInput | src/routes/search-album.tsx:46-49 | typing sets the query and resets the page to 1 |
| ScrobbleTypes.SetField | src/routes/scrobble.tsx:44-50 | an input change updates exactly the named field |
| ScrobbleTypes.AlbumOrUndefined | src/routes/scrobble.tsx:125 | an empty or missing album is sent as absent, anything else as is |
| ScrobbleTypes.ItemToForm | src/routes/scrobble.tsx:52-58 | clicking a history item fills artist and track, and the album or "" |
| ScrobbleTypes.ValidateSpec | src/routes/scrobble.tsx:103-128 | a submit proceeds exactly when there is a session token and both artist and track are non-empty; each failure has its own message; a request carries the form's fields |
| ScrobbleTypes.RemoveByIdSpec | src/routes/scrobble.tsx:258-260 | deletion keeps exactly the items with other ids, every copy of each, in order, and changes nothing when the id is absent |
| ScrobbleTypes.NewItem | src/routes/scrobble.tsx:232-237 | the history item records the form's artist, track and album, under a decimal id |
| ScrobbleRoute.AddToHistorySpec | src/routes/scrobble.tsx:232-256 | the new item comes first; no other kept item duplicates it (case-insensitive artist, track and album); the rest keep their order; the list holds at most 20 items |
| ScrobbleRoute.AbsentAlbumIsNotEmpty | src/routes/scrobble.tsx:240-243 | an item without an album does not duplicate a form whose album is "", since undefined lower-cases to undefined |
| ScrobbleRoute.CaseIgnored | src/routes/scrobble.tsx:240-243 | duplicates are found regardless of letter case |
| ScrobbleRoute.AddTwice | src/routes/scrobble.tsx:232-256 | scrobbling the same entry twice leaves only the later item in place of the earlier |
| ScrobbleRoute.ScrobblePage.constructor | src/routes/scrobble.tsx:31-42 | the page starts with an empty form, no message and the saved history |
| ScrobbleRoute.ScrobblePage.HandleInputChange | src/routes/scrobble.tsx:44-50 | one field changes; message and history are kept |
| ScrobbleRoute.ScrobblePage.HandleHistoryItemClick | src/routes/scrobble.tsx:52-58 | the form is filled from the item; message and history are kept |
| ScrobbleRoute.ScrobblePage.HandleHistoryItemDelete | src/routes/scrobble.tsx:60-62 | the item is removed from the history; form and message are kept |
| ScrobbleRoute.ScrobblePage.HandleSubmit | src/routes/scrobble.tsx:103-128 | an invalid form sets the error message and sends nothing; a valid one sends the validated request |
| ScrobbleRoute.ScrobblePage.OnSuccess | src/routes/scrobble.tsx:78-92 | the new item heads the de-duplicated, capped history; the success message is shown and the form is reset |
| ScrobbleRoute.ScrobblePage.OnError | src/routes/scrobble.tsx:93-100 | the error's message is shown; form and history are kept |
| ManualRoute.PrependCappedSpec | src/routes/manual.tsx:116 | the new item comes first, followed by the first 19 items of the previous history in order, so at most 20 items |
| ManualRoute.KeepsDuplicates | src/routes/manual.tsx:116 | unlike the track page, the manual page keeps a duplicate entry |
| ManualRoute.ManualPage.constructor | src/routes/manual.tsx:26-58 | the page starts with an empty form, not submitting, no message and the saved history |
| ManualRoute.ManualPage.HandleInputChange | src/routes/manual.tsx:60-66 | one field changes and nothing else |
| ManualRoute.ManualPage.HandleHistoryItemClick | src/routes/manual.tsx:68-74 | the form is filled from the item and nothing else changes |
| ManualRoute.ManualPage.HandleHistoryItemDelete | src/routes/manual.tsx:76-78 | the item is removed from the history and nothing else changes |
| ManualRoute.ManualPage.Submit | src/routes/manual.tsx:80-106 | without a token or a required field, an error message is set and nothing is sent; otherwise submitting starts, with the validated request |
| ManualRoute.ManualPage.Settle | src/routes/manual.tsx:106-135 | on success the new item heads the capped history, the success message shows and the form resets; on failure the error text shows; submitting ends either way |
| AlbumScrobble.Titles | src/hooks/useScrobbleAlbum.ts:39 | one title per track, in order |
| AlbumScrobble.Durations | src/hooks/useScrobbleAlbum.ts:40 | one duration per track, in order |
| AlbumScrobble.PrepareRequestSpec | src/hooks/useScrobbleAlbum.ts:35-52 | the request lists exactly the tracklist entries that are not headings (so "index" entries too), in order, with their titles and durations; without any, the hook throws "No tracks found" |
| AlbumScrobble.LoadRelease | src/hooks/useScrobbleAlbum.ts:30-33 | the cached release when there is one, otherwise the fetch's outcome (stated through RequestForSpec) |
| AlbumScrobble.RequestFor | src/hooks/useScrobbleAlbum.ts:28-52 | a failed load is the error of the `try`; a loaded release is prepared (stated through RequestForSpec) |
| AlbumScrobble.RequestForSpec | src/hooks/useScrobbleAlbum.ts:28-52 | a cached release is prepared without consulting the fetch; without one, a fetched release is prepared the same way and a failed fetch is the error |
| AlbumScrobble.ToastFor | src/hooks/useScrobbleAlbum.ts:54-74 | the toast reports success exactly when the request was built and the scrobble succeeded |
| AlbumScrobble.NoTracksNeverSucceeds | src/hooks/useScrobbleAlbum.ts:42-74 | a release without tracks always ends in the "No tracks found" error toast |
| AlbumScrobble.AlbumScrobbler.constructor | src/hooks/useScrobbleAlbum.ts:12-14 | no album is being scrobbled at first |
| AlbumScrobble.AlbumScrobbler.Start | src/hooks/useScrobbleAlbum.ts:17-25 | without a token the hook fails and marks nothing; otherwise it marks the album as scrobbling |
| AlbumScrobble.AlbumScrobbler.Finish | src/hooks/useScrobbleAlbum.ts:27-83 | the toast is the one for the release loaded from the cache or the fetch, the request prepared from it and the scrobble's outcome; the album, and only it, is no longer marked as scrobbling |

## Left out

- Network access (`fetch` to Discogs and Last.fm, OAuth callbacks) is not modelled. Awaited outcomes are parameters of the continuation methods.
- MD5, gzip/inflate, `btoa`/`atob`, `TextEncoder`/`TextDecoder` and the `URL` hostname parser are function parameters. Their own algorithms are not modelled.
- `toLowerCase` is modelled for ASCII letters only; other Unicode case mappings are not modelled.
- `localeCompare(…, "en-US")` in the signing sort is replaced by the order of character values (`Sign.NameLess`). The model assumes that this order agrees with the en-US collation on the names in use. It does for the lower-case names the client posts, `cb` and `format` included (`Sign.DeclaredNamesOrdered`), but not in general. Upper- and lower-case letters differ: "B" comes before "a" by value (`Sign.CaseOrder`) and after it in the collation. Punctuation against digits ("artist[1]" against "artist[10]") and non-ASCII letters differ too. The schema lets such undeclared names through, and for them the real signing string can differ from the model's. `Sign.SortedUnique` is about the one fixed order: for that order, the result does not depend on the input order. Characters outside the Basic Multilingual Plane, which JavaScript holds as two UTF-16 code units, are not modelled.
- `Object.entries` order does not matter, because the parameters are sorted before use (`Sign.ParamStringOrderFree`).
- Sign.SignRequestSpec: the 400 body's arktype error summary text is not modelled; only the status is.
- `Array.prototype.sort` in `parseProfileText` and `sign.ts` is modelled as a stable insertion sort on `seq`. In-place sorting is not modelled.
- `parseInt` is modelled for decimal digits and the "0x"/"0X" hexadecimal prefix, with unbounded integers; floating-point rounding of very large numbers is not modelled.
- The body `scrobbleTrack` posts to the signing route is modelled (`Sign.ClientParams`), with the clock reading as a parameter. Its two fetches, the timestamps of album scrobbles and the Last.fm calls (`scrobbleTracks`, the server functions) are not part of this model.
- localStorage, the debounce on search input, routing, pre-loading, rendering markup and toast display are not modelled. Only their inputs and outputs are.
- TrackTable: the `Set` of selected positions is modelled as a sequence in insertion order. The parent's `selectedTracks` is a sequence without repeats.
- TrackTable.OnRowSelectionChange requires every row-selection key to be a row index of the table, since the table produces only such keys.
- ScrobbleTypes.SetField covers the three form fields. An input with another `name` adds a field the form never reads, so it is not modelled.
- ProfileFacts.ProfileSpells holds for profiles whose sorted matches do not overlap. When matches overlap (for example "[url=[a1]x[/url]"), the cursor is set back to an earlier end as in the source, and text is repeated. This is modelled as written, but no property is proved about it.
- ManualRoute.ManualPage.Submit requires that no submission is in progress, because the submit button is disabled while submitting.
- AppRoot.App.FinishFetch requires a fetch in progress; it is only called after `BeginFetch`.
- `src/routes/index.tsx` imports `discogsQueryOptions`, which `src/utils/queries.ts` does not export. The home page's collection is therefore taken as a given list of albums.
- Compression.CompressData: the `RangeError` that spreading a very large buffer into `String.fromCharCode` can throw is folded into the failure that returns the input unchanged.
- `compareDataSizes` in `compression.ts` only logs sizes, so it is not modelled.
- The `Album` literal built in `src/App.tsx` lacks the `id` and `artistId` fields of the declared type. It is modelled as its own record, `CollectionItem`.

## Findings

| source | as written | input that shows it | evidently intended | confidence | as-written member | corrected member |
|---|---|---|---|---|---|---|
| src/utils/queries.ts:113-127 | `select` calls `data.filter`, but `getArtistReleases` (src/services/discogs.ts:140) returns an object `{ pagination, releases }`; the caller then uses the result as an array (src/routes/artist.$id.tsx:41, 92-98) | any response, e.g. `{ pagination: {}, releases: [one release of type "release"] }`, throws `data.filter is not a function` | filter and map `data.releases` | not executed | Queries.ArtistReleasesSelectAsWritten, Queries.AsWrittenAlwaysThrows | Queries.ArtistReleasesSelectCorrected, Queries.CorrectedListsReleases |
| src/services/lastfm.ts:24-45 | `scrobbleTrack` always puts `format: "json"` into the body it posts to `/api/sign`, whose schema declares `format: "never?"` (src/routes/api/sign.ts:12); the route answers 400 and `signature` is undefined, so `api_sig=undefined` is sent to Last.fm (line 50) | any scrobble, e.g. artist "A", track "T", a session token and a 32-character key, once the secret is configured | leave `format` out of the signed parameters, as Last.fm excludes it from the signature, and add it only to the Last.fm request | not executed | Sign.ClientParams, Sign.ClientBodyRefused | Sign.ClientSignedParams, Sign.CorrectedClientSigned |
