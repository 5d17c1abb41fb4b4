/**
 * The `/scrobble` page: `useScrobbleHistory` (de-duplicating, capped history)
 * and the form handlers around the scrobble mutation.
 */
module ScrobbleRoute {
  import opened Wrappers
  import opened Strings
  import opened Seqs
  import opened ScrobbleTypes

  const MaxHistorySize: nat := 20

  /** `album?.toLowerCase()`: an absent album stays absent. */
  function LowerAlbum(album: Option<string>): Option<string> {
    match album
    case Some(a) => Some(Lower(a))
    case None => None
  }

  /** `isDuplicate`: the same artist, track and album, ignoring case. */
  predicate IsDuplicate(earlier: HistoryItem, item: FormData) {
    && Lower(earlier.artist) == Lower(item.artist)
    && Lower(earlier.track) == Lower(item.track)
    && LowerAlbum(earlier.album) == LowerAlbum(item.album)
  }

  /** The previous items that survive: the non-duplicates. */
  function NonDuplicates(prev: seq<HistoryItem>, item: FormData): seq<HistoryItem> {
    Filter(prev, (h: HistoryItem) => !IsDuplicate(h, item))
  }

  /** `[newHistoryItem, ...filteredHistory.slice(0, MAX_HISTORY_SIZE - 1)]`. */
  function AddToHistory(prev: seq<HistoryItem>, item: FormData, newItem: HistoryItem): seq<HistoryItem> {
    var kept := NonDuplicates(prev, item);
    [newItem] + kept[..if |kept| < MaxHistorySize - 1 then |kept| else MaxHistorySize - 1]
  }

  function Min(a: nat, b: nat): nat {
    if a < b then a else b
  }

  /**
   * The new item comes first, the history never exceeds 20 items, no older item
   * duplicates the new one, and the older items are the most recent 19
   * non-duplicates, in their original order.
   */
  lemma AddToHistorySpec(prev: seq<HistoryItem>, item: FormData, newItem: HistoryItem)
    ensures var r := AddToHistory(prev, item, newItem);
      && r[0] == newItem
      && |r| <= MaxHistorySize
      && (forall i :: 1 <= i < |r| ==> !IsDuplicate(r[i], item))
      && IsSubsequence(r[1..], prev)
      && |r| == 1 + Min(|NonDuplicates(prev, item)|, MaxHistorySize - 1)
      && r[1..] == NonDuplicates(prev, item)[..|r| - 1]
  {
    var kept := NonDuplicates(prev, item);
    var r := AddToHistory(prev, item, newItem);
    var k := |r| - 1;
    assert r[1..] == kept[..k];
    FilterIsSubsequence(prev, (h: HistoryItem) => !IsDuplicate(h, item));
    PrefixSubsequence(kept, prev, k);
    forall i | 1 <= i < |r| ensures !IsDuplicate(r[i], item) {
      assert r[i] == kept[i - 1] && r[i] in kept;
    }
  }

  /** The album is compared as an optional value: an absent album never duplicates an empty one. */
  lemma AbsentAlbumIsNotEmpty(earlier: HistoryItem, item: FormData)
    requires earlier.album.None? && item.album == Some("")
    ensures !IsDuplicate(earlier, item)
  {
  }

  /** Case does not matter: "ABBA"/"SOS" duplicates "abba"/"sos". */
  lemma CaseIgnored()
    ensures IsDuplicate(HistoryItem("1", 1, "ABBA", "SOS", None), FormData("abba", "sos", None))
  {
  }

  /** Scrobbling the same track twice leaves one entry for it: the second add replaces the first. */
  lemma {:induction false} AddTwice(prev: seq<HistoryItem>, item: FormData, first: HistoryItem, second: HistoryItem)
    requires IsDuplicate(first, item)
    ensures AddToHistory(AddToHistory(prev, item, first), item, second) == AddToHistory(prev, item, second)
  {
    var kept := NonDuplicates(prev, item);
    var once := AddToHistory(prev, item, first);
    var tail := once[1..];
    AddToHistorySpec(prev, item, first);
    var p := (h: HistoryItem) => !IsDuplicate(h, item);
    assert once == [first] + tail;
    assert NonDuplicates(once, item) == Filter(tail, p) by {
      assert once[0] == first && once[1..] == tail;
    }
    assert forall h :: h in tail ==> p(h);
    FilterAll(tail, p);
  }

  /** The `/scrobble` page: its form, its message banner and the history hook's state. */
  class ScrobblePage {
    var formData: FormData
    var message: Option<Message>
    var history: seq<HistoryItem>

    /** The page as mounted, with the history the hook restored from storage. */
    constructor(saved: seq<HistoryItem>)
      ensures formData == EmptyForm && message == None && history == saved
    {
      formData := EmptyForm;
      message := None;
      history := saved;
    }

    method HandleInputChange(field: Field, value: string)
      modifies this
      ensures formData == SetField(old(formData), field, value)
      ensures message == old(message) && history == old(history)
    {
      formData := SetField(formData, field, value);
    }

    method HandleHistoryItemClick(item: HistoryItem)
      modifies this
      ensures formData == ItemToForm(item)
      ensures message == old(message) && history == old(history)
    {
      formData := ItemToForm(item);
    }

    method HandleHistoryItemDelete(id: string)
      modifies this
      ensures history == RemoveById(old(history), id)
      ensures formData == old(formData) && message == old(message)
    {
      history := RemoveById(history, id);
    }

    /**
     * `handleSubmit`: the message is cleared, then the token and the fields are
     * checked; the request handed to the mutation is returned.
     */
    method HandleSubmit(token: Option<string>) returns (request: Option<ScrobbleRequest>)
      modifies this
      ensures var v := Validate(token, old(formData));
        && (v.Success? ==> request == Some(v.value) && message == None)
        && (v.Failure? ==> request == None && message == Some(Message(v.error, ErrorMessage)))
      ensures formData == old(formData) && history == old(history)
    {
      message := None;
      var v := Validate(token, formData);
      if v.Failure? {
        message := Some(Message(v.error, ErrorMessage));
        request := None;
        return;
      }
      request := Some(v.value);
    }

    /** `onSuccess`: the current form goes into the history, a success message shows and the form is reset. */
    method OnSuccess(idTime: nat, timestamp: nat) returns (added: HistoryItem)
      modifies this
      ensures added == NewItem(old(formData), idTime, timestamp)
      ensures history == AddToHistory(old(history), old(formData), added)
      ensures history[0] == added && |history| <= MaxHistorySize
      ensures message == Some(Message(Scrobbled, SuccessMessage)) && formData == EmptyForm
    {
      added := NewItem(formData, idTime, timestamp);
      AddToHistorySpec(history, formData, added);
      history := AddToHistory(history, formData, added);
      message := Some(Message(Scrobbled, SuccessMessage));
      formData := EmptyForm;
    }

    /** `onError`: the error's message, or a fixed one, shows; nothing else changes. */
    method OnError(error: Thrown)
      modifies this
      ensures message == Some(Message(ErrorText(error), ErrorMessage))
      ensures formData == old(formData) && history == old(history)
    {
      message := Some(Message(ErrorText(error), ErrorMessage));
    }
  }
}
