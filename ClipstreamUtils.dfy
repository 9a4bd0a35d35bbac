/** `window.ClipstreamUtils.importPastes`: replacing the global tracker's
    collection with the array held in a JSON file. */
module ClipstreamUtils {
  import opened Wrappers
  import opened Pastes
  import opened Persistence
  import opened Tracker

  /** Why an import is rejected: the file could not be read, its text is
      not JSON, or its JSON is not an array. */
  datatype ImportError = FileUnreadable | ParseFailed | InvalidFormat

  /** How the import promise settles: resolved with the number of records
      imported, or rejected. */
  datatype ImportOutcome = Resolved(count: nat) | Rejected(reason: ImportError)

  /** What the file yields: the array it holds, or why it is rejected. */
  datatype ImportResult = Ok(pastes: seq<Paste>) | Err(error: ImportError)

  /** The collection a file yields, if any: `file` is the text the reader
      delivered, `None` when it fired `onerror`. */
  function ImportedPastes(file: Option<Blob>): (r: ImportResult)
    ensures r.Ok? <==> file.Some? && file.value.Encoded? && file.value.value.JArray?
    ensures r.Ok? ==> file == Some(Encoded(JArray(r.pastes)))
    ensures r.Err? ==> (r.error == FileUnreadable <==> file == None)
  {
    match file
    case None => Err(FileUnreadable)
    case Some(b) =>
      match Parse(b)
      case None => Err(ParseFailed)
      case Some(JNonArray) => Err(InvalidFormat)
      case Some(JArray(xs)) => Ok(xs)
  }

  /** A file yields the collection `ps` if and only if its JSON value is
      the array `ps`, the value `exportPastes` writes for `ps` (a blob stands
      for every text of that value). Importing an exported file therefore
      restores the collection, order included. */
  lemma ImportAcceptsExactlyExports(file: Option<Blob>, ps: seq<Paste>)
    ensures ImportedPastes(file) == Ok(ps) <==> file == Some(Serialize(ps))
  {
  }

  /** Every rejection names its cause: an unreadable file, text that is
      not JSON, or JSON that is not an array. */
  lemma ImportRejections(b: Blob)
    ensures ImportedPastes(None) == Err(FileUnreadable)
    ensures b.Unparsable? ==> ImportedPastes(Some(b)) == Err(ParseFailed)
    ensures b == Encoded(JNonArray) ==> ImportedPastes(Some(b)) == Err(InvalidFormat)
  {
  }

  /** `importPastes`: all or nothing. On an array the tracker's collection
      becomes exactly that array, it is saved and the views refreshed, and
      the promise resolves with its length; otherwise nothing changes and
      the promise is rejected with the reason. */
  method ImportPastes(tracker: PasteTracker, file: Option<Blob>, writeOk: bool)
      returns (outcome: ImportOutcome)
    requires tracker.Valid()
    modifies tracker, tracker.storage
    ensures tracker.Valid()
    ensures outcome.Resolved? <==> ImportedPastes(file).Ok?
    ensures ImportedPastes(file).Err? ==>
              && outcome == Rejected(ImportedPastes(file).error)
              && unchanged(tracker) && tracker.storage.items == old(tracker.storage.items)
    ensures ImportedPastes(file).Ok? ==>
              && tracker.pastes == ImportedPastes(file).pastes
              && outcome == Resolved(|tracker.pastes|)
              && tracker.storage.items == Saved(old(tracker.storage.items), tracker.pastes, writeOk)
              && tracker.input == old(tracker.input) && tracker.toast == old(tracker.toast)
  {
    match ImportedPastes(file)
    case Err(e) =>
      outcome := Rejected(e);
    case Ok(xs) =>
      tracker.pastes := xs;
      tracker.SaveToStorage(writeOk);
      tracker.UpdateUI();
      outcome := Resolved(|xs|);
  }
}
