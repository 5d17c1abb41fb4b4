/**
 * Records and rules shared by the two single-track scrobble pages
 * (`/scrobble` and `/manual`): the form, the history item, the message banner
 * and the submit validation, which both pages write out identically.
 */
module ScrobbleTypes {
  import opened Wrappers
  import opened Strings
  import opened Seqs

  /** `ScrobbleFormData`; the album is optional. */
  datatype FormData = FormData(artist: string, track: string, album: Option<string>)

  const EmptyForm := FormData("", "", Some(""))

  /** `ScrobbleHistoryItem`: the form fields plus an id and a timestamp. */
  datatype HistoryItem = HistoryItem(id: string, timestamp: int, artist: string, track: string, album: Option<string>)

  datatype MessageKind = SuccessMessage | ErrorMessage
  datatype Message = Message(text: string, kind: MessageKind)

  /** The arguments handed to `scrobbleTracks` for one track. */
  datatype ScrobbleRequest = ScrobbleRequest(artist: string, tracks: seq<string>, token: string, album: Option<string>)

  /** A value caught by a `catch`: an `Error` with its message, or anything else. */
  datatype Thrown = ErrorObject(message: string) | OtherValue

  /** The `name` of the input that changed. */
  datatype Field = ArtistField | TrackField | AlbumField

  const AuthRequired := "Please authenticate with Last.fm first"
  const FieldsRequired := "Artist and track are required"
  const Scrobbled := "Track scrobbled successfully!"
  const ScrobbleFailed := "Failed to scrobble track"

  /** `{ ...prev, [name]: value }`. */
  function SetField(form: FormData, field: Field, value: string): (r: FormData)
    ensures field == ArtistField ==> r == form.(artist := value)
    ensures field == TrackField ==> r == form.(track := value)
    ensures field == AlbumField ==> r == form.(album := Some(value))
  {
    match field
    case ArtistField => FormData(value, form.track, form.album)
    case TrackField => FormData(form.artist, value, form.album)
    case AlbumField => FormData(form.artist, form.track, Some(value))
  }

  /** JavaScript truthiness of an optional string: present and non-empty. */
  predicate Truthy(s: Option<string>) {
    s.Some? && s.value != ""
  }

  /** `album || undefined`. */
  function AlbumOrUndefined(album: Option<string>): (r: Option<string>)
    ensures r.None? <==> !Truthy(album)
    ensures r.Some? ==> r == album
  {
    if Truthy(album) then album else None
  }

  /** The form a history item loads: `album: item.album || ""`. */
  function ItemToForm(item: HistoryItem): (r: FormData)
    ensures r.artist == item.artist && r.track == item.track
    ensures r.album == if Truthy(item.album) then item.album else Some("")
  {
    FormData(item.artist, item.track, Some(item.album.GetOr("")))
  }

  /** `error instanceof Error ? error.message : "Failed to scrobble track"`. */
  function ErrorText(error: Thrown): string {
    match error
    case ErrorObject(m) => m
    case OtherValue => ScrobbleFailed
  }

  /** The checks of `handleSubmit` before anything is sent, in the order the source makes them. */
  function Validate(token: Option<string>, form: FormData): (r: Result<ScrobbleRequest, string>)
  {
    if !Truthy(token) then Failure(AuthRequired)
    else if form.artist == "" || form.track == "" then Failure(FieldsRequired)
    else Success(ScrobbleRequest(form.artist, [form.track], token.value, AlbumOrUndefined(form.album)))
  }

  /**
   * A request goes out exactly when there is a session token and both artist
   * and track are filled in; it carries the form's fields and the token, and
   * an empty album is left out. A missing token is reported first.
   */
  lemma ValidateSpec(token: Option<string>, form: FormData)
    ensures Validate(token, form).Success? <==> Truthy(token) && form.artist != "" && form.track != ""
    ensures !Truthy(token) ==> Validate(token, form) == Failure(AuthRequired)
    ensures Truthy(token) && (form.artist == "" || form.track == "") ==> Validate(token, form) == Failure(FieldsRequired)
    ensures Validate(token, form).Success? ==>
      var req := Validate(token, form).value;
      && req.artist == form.artist && req.tracks == [form.track] && Some(req.token) == token
      && (req.album.None? <==> !Truthy(form.album))
      && (req.album.Some? ==> req.album == form.album)
  {
  }

  /** `prev.filter((item) => item.id !== id)`. */
  function RemoveById(history: seq<HistoryItem>, id: string): seq<HistoryItem> {
    Filter(history, (item: HistoryItem) => item.id != id)
  }

  /**
   * Deleting drops every item with that id and keeps every copy of every other item, in order;
   * with no item of that id the history is unchanged.
   */
  lemma RemoveByIdSpec(history: seq<HistoryItem>, id: string)
    ensures forall item :: item in RemoveById(history, id) <==> item in history && item.id != id
    ensures IsSubsequence(RemoveById(history, id), history)
    ensures forall item :: multiset(RemoveById(history, id))[item] == if item.id != id then multiset(history)[item] else 0
    ensures (forall item :: item in history ==> item.id != id) ==> RemoveById(history, id) == history
  {
    FilterIsSubsequence(history, (item: HistoryItem) => item.id != id);
    FilterCounts(history, (item: HistoryItem) => item.id != id);
    if forall item :: item in history ==> item.id != id {
      FilterAll(history, (item: HistoryItem) => item.id != id);
    }
  }

  /** The new history item: `id: Date.now().toString()`, `timestamp: Date.now()`, two separate readings. */
  function NewItem(form: FormData, idTime: nat, timestamp: nat): (r: HistoryItem)
    ensures r.artist == form.artist && r.track == form.track && r.album == form.album
    ensures |r.id| > 0 && AllDigits(r.id)
  {
    HistoryItem(NatToString(idTime), timestamp, form.artist, form.track, form.album)
  }
}
