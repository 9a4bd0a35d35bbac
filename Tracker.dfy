/** `PasteTracker`: the newest-first collection `pastes`, the text in the
    paste input, the views `updateUI` and `updatePasteButtonState` derive
    from them (counter, copy-all and paste buttons, empty state), the last
    toast shown, and the store the collection is saved to. */
module Tracker {
  import opened Wrappers
  import opened JsStrings
  import opened Pastes
  import opened Persistence

  datatype ToastKind = Success | Error
  datatype Toast = Toast(message: string, kind: ToastKind)

  const AddedMessage := "Paste added successfully!"
  const DeletedMessage := "Paste deleted"
  const ClearedMessage := "All pastes cleared"
  const CopyFailedMessage := "Failed to copy to clipboard"

  /** The success toast of `copyAll`: between "Copied " and
      " pastes to clipboard!" stand the count's canonical digits (no leading
      zero, as `toString` writes them), which read back as the count. */
  function CopiedMessage(count: nat): (m: string)
    ensures 28 < |m| && m[..7] == "Copied " && m[|m| - 21..] == " pastes to clipboard!"
    ensures AllDigits(m[7..|m| - 21]) && DecimalValue(m[7..|m| - 21]) == count
    ensures m[7..|m| - 21] == NatToDecimal(count)
  {
    var digits := NatToDecimal(count);
    var m := "Copied " + digits + " pastes to clipboard!";
    assert m[7..|m| - 21] == digits;
    DecimalRoundTrip(count);
    m
  }

  class PasteTracker {
    var pastes: seq<Paste>
    var input: string             // pasteInput.value
    var pasteDisabled: bool       // pasteBtn.disabled
    var countText: string         // pasteCount.textContent
    var copyAllDisabled: bool     // copyAllBtn.disabled
    var emptyStateShown: bool     // emptyState without the 'hidden' class
    var toast: Option<Toast>      // the message the toast element shows
    const storage: LocalStorage

    /** Every view agrees with the state it is derived from. The paste
        button's state is stated through `AllWhitespace`, which is the same
        as an empty trim (`TrimEmptyIff`). */
    predicate Valid()
      reads this
    {
      && countText == NatToDecimal(|pastes|)
      && copyAllDisabled == (|pastes| == 0)
      && emptyStateShown == (|pastes| == 0)
      && pasteDisabled == AllWhitespace(input)
    }

    /** Start empty, load what the store holds, then derive the views. */
    constructor (storage: LocalStorage, initialInput: string, readOk: bool)
      ensures Valid()
      ensures this.storage == storage
      ensures pastes == LoadedPastes(ReadItem(storage.items, readOk), [])
      ensures input == initialInput && toast == None
    {
      this.storage := storage;
      pastes := [];
      input := initialInput;
      pasteDisabled, countText, copyAllDisabled, emptyStateShown := false, "", false, false;
      toast := None;
      new;
      LoadFromStorage(readOk);
      UpdateUI();
      UpdatePasteButtonState();
    }

    /** `loadFromStorage`, with the array check that `importPastes` makes
        (see `Persistence.LoadAsWritten` for the code as written). */
    method LoadFromStorage(readOk: bool)
      modifies this`pastes
      ensures pastes == LoadedPastes(ReadItem(storage.items, readOk), old(pastes))
    {
      var read := ReadItem(storage.items, readOk);
      match read
      case ReadFailed =>
        pastes := [];
      case Missing =>
      case Found(b) =>
        if Truthy(b) {
          match Parse(b)
          case None =>
            pastes := [];
          case Some(JArray(xs)) =>
            pastes := xs;
          case Some(JNonArray) =>
            pastes := [];
        }
    }

    /** `saveToStorage`: write the current collection; a failed write is
        swallowed and leaves the store as it was. */
    method SaveToStorage(writeOk: bool)
      modifies storage
      ensures storage.items == Saved(old(storage.items), pastes, writeOk)
    {
      if writeOk {
        storage.items := storage.items[Key := Serialize(pastes)];
      }
    }

    /** `updateUI`: the counter shows the length, and copy-all is disabled
        and the empty state shown exactly when there is nothing to show. */
    method UpdateUI()
      modifies this`countText, this`copyAllDisabled, this`emptyStateShown
      ensures countText == NatToDecimal(|pastes|)
      ensures copyAllDisabled == (|pastes| == 0) && emptyStateShown == (|pastes| == 0)
    {
      countText := NatToDecimal(|pastes|);
      copyAllDisabled := |pastes| == 0;
      emptyStateShown := |pastes| == 0;
    }

    /** `updatePasteButtonState`: the paste button is disabled exactly when
        the input is blank once trimmed. */
    method UpdatePasteButtonState()
      modifies this`pasteDisabled
      ensures pasteDisabled == AllWhitespace(input)
    {
      TrimEmptyIff(input);
      pasteDisabled := Trim(input) == [];
    }

    method ShowToast(message: string, kind: ToastKind)
      modifies this`toast
      ensures toast == Some(Toast(message, kind))
    {
      toast := Some(Toast(message, kind));
    }

    /** The `input` listener: the user edited the text, the paste button
        follows. */
    method OnInput(value: string)
      requires Valid()
      modifies this`input, this`pasteDisabled
      ensures Valid() && input == value
    {
      input := value;
      UpdatePasteButtonState();
    }

    /** `addPaste`: the new record goes in front of all earlier ones, which
        keep their order; then save, refresh the views, and toast. */
    method AddPaste(content: string, now: int, writeOk: bool)
      requires Valid()
      modifies this`pastes, this`countText, this`copyAllDisabled, this`emptyStateShown, this`toast, storage
      ensures Valid()
      ensures pastes == [NewPaste(content, now)] + old(pastes)
      ensures storage.items == Saved(old(storage.items), pastes, writeOk)
      ensures toast == Some(Toast(AddedMessage, Success))
    {
      pastes := [NewPaste(content, now)] + pastes;
      SaveToStorage(writeOk);
      UpdateUI();
      ShowToast(AddedMessage, Success);
    }

    /** `handlePaste`: blank input (once trimmed) changes nothing at all;
        otherwise exactly one record holding the trimmed input is added and
        the input is cleared. Either way the paste button ends disabled,
        and records stay clean if they were. */
    method HandlePaste(now: int, writeOk: bool)
      requires Valid()
      modifies this`pastes, this`input, this`pasteDisabled, this`countText,
               this`copyAllDisabled, this`emptyStateShown, this`toast, storage
      ensures Valid() && pasteDisabled
      ensures Trim(old(input)) == [] ==>
                && pastes == old(pastes) && input == old(input)
                && toast == old(toast) && storage.items == old(storage.items)
      ensures Trim(old(input)) != [] ==>
                && pastes == [NewPaste(Trim(old(input)), now)] + old(pastes)
                && input == ""
                && toast == Some(Toast(AddedMessage, Success))
                && storage.items == Saved(old(storage.items), pastes, writeOk)
      ensures AllClean(old(pastes)) ==> AllClean(pastes)
    {
      var content := Trim(input);
      if content != [] {
        NewPasteFromTrimmedIsClean(input, now);
        AddPaste(content, now, writeOk);
        input := "";
        UpdatePasteButtonState();
        assert pastes[1..] == old(pastes);
      }
    }

    /** `deletePaste`: every record with the id goes, the rest keep their
        order; the store is written and the toast shown even when nothing
        matched. */
    method DeletePaste(id: string, writeOk: bool)
      requires Valid()
      modifies this`pastes, this`countText, this`copyAllDisabled, this`emptyStateShown, this`toast, storage
      ensures Valid()
      ensures pastes == RemoveId(old(pastes), id)
      ensures storage.items == Saved(old(storage.items), pastes, writeOk)
      ensures toast == Some(Toast(DeletedMessage, Success))
      ensures AllClean(old(pastes)) ==> AllClean(pastes)
    {
      if AllClean(pastes) {
        RemoveIdKeepsClean(pastes, id);
      }
      pastes := RemoveId(pastes, id);
      SaveToStorage(writeOk);
      UpdateUI();
      ShowToast(DeletedMessage, Success);
    }

    /** `copyAll`: with no records nothing is written and no toast shown;
        otherwise the newline-joined contents are written, and the toast
        reports the count on success or the failure. */
    method CopyAll(clipboardOk: bool) returns (written: Option<string>)
      requires Valid()
      modifies this`toast
      ensures Valid()
      ensures written == CopyAllPayload(pastes)
      ensures pastes == [] ==> toast == old(toast)
      ensures pastes != [] ==>
                toast == Some(if clipboardOk then Toast(CopiedMessage(|pastes|), Success)
                              else Toast(CopyFailedMessage, Error))
    {
      if |pastes| == 0 {
        return None;
      }
      var allContent := Join(Contents(pastes), "\n");
      written := Some(allContent);
      if clipboardOk {
        ShowToast(CopiedMessage(|pastes|), Success);
      } else {
        ShowToast(CopyFailedMessage, Error);
      }
    }

    /** `clearAll`: empty the collection, save, refresh, toast. */
    method ClearAll(writeOk: bool)
      requires Valid()
      modifies this`pastes, this`countText, this`copyAllDisabled, this`emptyStateShown, this`toast, storage
      ensures Valid()
      ensures pastes == [] && countText == "0" && copyAllDisabled
      ensures storage.items == Saved(old(storage.items), [], writeOk)
      ensures toast == Some(Toast(ClearedMessage, Success))
    {
      pastes := [];
      SaveToStorage(writeOk);
      UpdateUI();
      ShowToast(ClearedMessage, Success);
    }
  }
}
