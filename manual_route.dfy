/**
 * The `/manual` page: a single-track scrobble form whose submit awaits the
 * scrobble, then prepends to a history capped at 20 without de-duplication.
 */
module ManualRoute {
  import opened Wrappers
  import opened Seqs
  import opened ScrobbleTypes

  /** How many earlier items a successful submit keeps: `prev.slice(0, 19)`. */
  const KeptItems: nat := 19

  /** `[newHistoryItem, ...prev.slice(0, 19)]`. */
  function PrependCapped(prev: seq<HistoryItem>, newItem: HistoryItem): seq<HistoryItem> {
    [newItem] + prev[..if |prev| < KeptItems then |prev| else KeptItems]
  }

  /**
   * The new item comes first, followed by the most recent 19 earlier items in
   * order, so at most 20 remain; nothing is de-duplicated.
   */
  lemma PrependCappedSpec(prev: seq<HistoryItem>, newItem: HistoryItem)
    ensures var r := PrependCapped(prev, newItem);
      && r[0] == newItem
      && |r| <= KeptItems + 1
      && |r| == 1 + (if |prev| < KeptItems then |prev| else KeptItems)
      && r[1..] == prev[..|r| - 1]
  {
    var r := PrependCapped(prev, newItem);
    assert r[1..] == prev[..|r| - 1];
  }

  /** Unlike `/scrobble`, an identical earlier entry stays beside the new one. */
  lemma KeepsDuplicates(item: HistoryItem)
    ensures PrependCapped([item], item) == [item, item]
  {
  }

  /** The `/manual` page's state, with the form the pending submit captured. */
  class ManualPage {
    var formData: FormData
    var isSubmitting: bool
    var message: Option<Message>
    var history: seq<HistoryItem>
    /** The form `handleSubmit` read, while its `await scrobbleTracks(...)` is outstanding. */
    var pending: Option<FormData>

    /** A submit is under way exactly while a scrobble is awaited. */
    predicate Valid()
      reads this
    {
      isSubmitting <==> pending.Some?
    }

    constructor(saved: seq<HistoryItem>)
      ensures Valid()
      ensures formData == EmptyForm && !isSubmitting && message == None && history == saved
    {
      formData := EmptyForm;
      isSubmitting := false;
      message := None;
      history := saved;
      pending := None;
    }

    method HandleInputChange(field: Field, value: string)
      requires Valid()
      modifies this
      ensures Valid()
      ensures formData == SetField(old(formData), field, value)
      ensures isSubmitting == old(isSubmitting) && pending == old(pending)
      ensures message == old(message) && history == old(history)
    {
      formData := SetField(formData, field, value);
    }

    method HandleHistoryItemClick(item: HistoryItem)
      requires Valid()
      modifies this
      ensures Valid()
      ensures formData == ItemToForm(item)
      ensures isSubmitting == old(isSubmitting) && pending == old(pending)
      ensures message == old(message) && history == old(history)
    {
      formData := ItemToForm(item);
    }

    method HandleHistoryItemDelete(id: string)
      requires Valid()
      modifies this
      ensures Valid()
      ensures history == RemoveById(old(history), id)
      ensures formData == old(formData) && isSubmitting == old(isSubmitting)
      ensures pending == old(pending) && message == old(message)
    {
      history := RemoveById(history, id);
    }

    /**
     * `handleSubmit` up to its `await`. A failed check shows its message and
     * ends the submit at once (`finally`); otherwise the request is returned and
     * the submit stays in progress. The history is not touched. The submit
     * button is disabled while a submit is in progress.
     */
    method Submit(token: Option<string>) returns (request: Option<ScrobbleRequest>)
      requires Valid() && !isSubmitting
      modifies this
      ensures Valid()
      ensures var v := Validate(token, old(formData));
        && (v.Failure? ==> request == None && !isSubmitting && message == Some(Message(v.error, ErrorMessage)))
        && (v.Success? ==> request == Some(v.value) && isSubmitting && pending == Some(old(formData)) && message == None)
      ensures history == old(history) && formData == old(formData)
    {
      isSubmitting := true;
      message := None;
      var v := Validate(token, formData);
      if v.Failure? {
        message := Some(Message(v.error, ErrorMessage));
        request := None;
        isSubmitting := false;
        return;
      }
      pending := Some(formData);
      request := Some(v.value);
    }

    /**
     * The rest of `handleSubmit` once `scrobbleTracks` settles: on success the
     * captured form is prepended to the history and the form is reset; on
     * failure only the message changes. Either way the submit ends.
     */
    method Settle(outcome: Result<(), Thrown>, idTime: nat, timestamp: nat)
      requires Valid() && isSubmitting
      modifies this
      ensures Valid() && !isSubmitting
      ensures outcome.Success? ==>
        && history == PrependCapped(old(history), NewItem(old(pending).value, idTime, timestamp))
        && message == Some(Message(Scrobbled, SuccessMessage))
        && formData == EmptyForm
      ensures outcome.Failure? ==>
        && history == old(history)
        && message == Some(Message(ErrorText(outcome.error), ErrorMessage))
        && formData == old(formData)
    {
      var submitted := pending.value;
      if outcome.Success? {
        var item := NewItem(submitted, idTime, timestamp);
        history := PrependCapped(history, item);
        message := Some(Message(Scrobbled, SuccessMessage));
        formData := EmptyForm;
      } else {
        message := Some(Message(ErrorText(outcome.error), ErrorMessage));
      }
      pending := None;
      isSubmitting := false;
    }
  }
}
