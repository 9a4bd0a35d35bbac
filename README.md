# clipstream paste tracker — a Dafny model of the paste-record core

The clipstream paste tracker is a browser page. It keeps what the user pastes
as a newest-first list of records `{id, content, timestamp}`. It persists that
list in `localStorage` under the key `clipstream_pastes`. From the list it
derives a counter, the enabled state of the "copy all" button, an empty-state
panel, a newline-joined clipboard payload and relative "… ago" labels. From the
text in the paste input it derives the enabled state of the "paste" button. This project models that core in Dafny 4.11 and proves what its
operations promise.

- `JsStrings` holds the JavaScript built-ins the core depends on.
  - `String.prototype.trim`, over the ECMAScript white-space and line-terminator set.
  - `toString` of an integer.
  - `Array.prototype.join`.
- `Pastes` holds the record and the pure operations on the collection.
  - Building a record with `NewPaste`.
  - The `filter` of `deletePaste`, as `RemoveId`.
  - The `copyAll` payload.
- `Persistence` models `localStorage` as a map from keys to blobs. A blob is
  either the JSON text of some value or text `JSON.parse` rejects.
  - `saveToStorage` and `loadFromStorage` are modelled on that map.
  - `loadFromStorage` is modelled twice: once as written, once corrected (see
    Findings).
- `Formatting` holds `truncateText` and the relative branches of
  `formatTimestamp`. The clock is a parameter.
- `Tracker` holds the `PasteTracker` class.
  - Its fields are `pastes`, the input text, the derived views, the last
    toast, and the store.
  - `Valid()` says that every view agrees with the collection and the input.
  - The constructor establishes `Valid()`. Every operation the page
    triggers keeps it: `OnInput`, `AddPaste`, `HandlePaste`, `DeletePaste`,
    `CopyAll`, `ClearAll`, and `ClipstreamUtils.ImportPastes`.
  - The helpers `LoadFromStorage`, `SaveToStorage`, `UpdateUI`,
    `UpdatePasteButtonState` and `ShowToast` do not promise `Valid()`. Each
    changes only the fields it names and states their new values. In the
    source, `loadFromStorage` runs only in the constructor, before
    `updateUI` re-derives the views.
  - Each operation states the new collection, the new store and the toast in
    terms of the old state.
- `ClipstreamUtils` holds `importPastes`. It is all or nothing, and it
  accepts a file exactly when the file's JSON value is an array.

Host effects are parameters of the methods that meet them.
- `now` is `Date.now()`.
- `writeOk` says whether `setItem` succeeds.
- `readOk` says whether `getItem` succeeds.
- `clipboardOk` says whether the clipboard promise resolves.
- `file` is the text a `FileReader` delivered, or `None` when the read failed.

Three behaviours of the code that the model keeps:
- `deletePaste` (script.js:83-88) writes the store and shows "Paste deleted"
  whatever it removed.
- Ids are `Date.now().toString()` (script.js:72). Records made in the same
  millisecond therefore share an id, and `deletePaste` removes them all
  (`Pastes.SameIdIffSameInstant`, `Pastes.RemoveIdCounts`).
- `loadFromStorage` never removes a corrupt blob. The next successful save
  overwrites it.

## Model

| member | source | states |
|---|---|---|
| `JsStrings.Trim` | script.js:56 | The trimmed text neither starts nor ends with white space, and it is no longer than the input. |
| `JsStrings.TrimShape` | script.js:56 | The input is the trimmed text with a run of white space before it and a run after it. The text in between is kept unchanged. |
| `JsStrings.TrimEmptyIff` | script.js:56-58 | The trim is empty, so `if (content)` fails, exactly when the input is all white space. |
| `JsStrings.TrimIdempotent` | script.js:56 | Trimming already trimmed text changes nothing. |
| `JsStrings.NatToDecimal` | script.js:106 | The counter text is a non-empty run of decimal digits, with no leading zero except for "0" itself. |
| `JsStrings.DecimalRoundTrip` | script.js:106 | Reading the counter text back as a decimal number gives the collection's length. |
| `JsStrings.NatToDecimalInjective` | script.js:106 | Two lengths give the same counter text if and only if they are equal. |
| `JsStrings.IntToDecimalInjective` | script.js:72 | Two clock readings give the same id string if and only if they are equal, before 1970 included. |
| `JsStrings.IntToDecimal` | script.js:72 | `Date.now().toString()`: a minus sign exactly for a negative reading, then decimal digits. |
| `JsStrings.Join` | script.js:94 | `join(sep)` of no elements is "". Otherwise the string ends exactly where the last element, placed at its offset, ends. |
| `JsStrings.JoinLayout` | script.js:94 | In `join(sep)`, element i appears unchanged at its offset. A separator follows it, or, for the last element, the end of the string. |
| `Pastes.NewPaste` | script.js:71-75 | The new record holds exactly the given content and the clock reading. |
| `Pastes.SameIdIffSameInstant` | script.js:72 | Two new records share an id exactly when they were made in the same millisecond, whatever their contents. |
| `Pastes.RemoveId` | script.js:84 | The filter never grows the collection and leaves no record with the id. |
| `Pastes.RemoveIdCounts` | script.js:84 | After the filter, a record with the id occurs zero times. Every other record occurs exactly as often as before. |
| `Pastes.RemoveIdAppend` | script.js:84 | The filter distributes over concatenation, so the records that remain keep their relative order. |
| `Pastes.RemoveIdAbsent` | script.js:84 | When no record carries the id, the filter returns the collection unchanged. |
| `Pastes.RemoveIdShrinks` | script.js:84 | When some record carries the id, the filter strictly shrinks the collection. |
| `Pastes.RemoveIdUnchangedIff` | script.js:84 | Deleting leaves the collection unchanged if and only if no record has the id. Otherwise it strictly shrinks. |
| `Pastes.RemoveIdIdempotent` | script.js:84 | Deleting the same id twice gives the same collection as deleting it once. |
| `Pastes.Contents` | script.js:94 | `map(paste => paste.content)` keeps the length, and item i is record i's content. |
| `Pastes.CopyAllPayload` | script.js:91-94 | There is no clipboard payload exactly when the collection is empty. |
| `Pastes.PayloadLayout` | script.js:94 | The payload holds every record's content unchanged, in collection order. One newline separates neighbours, there is none at the end, and ids and timestamps do not appear. |
| `Pastes.CleanIffTrimmed` | script.js:56-59 | A record is clean exactly when its content is non-empty and trimming leaves it unchanged. Clean means what a successful submit stores. |
| `Pastes.NewPasteFromTrimmedIsClean` | script.js:56-59 | A record made from non-blank input, once trimmed, is clean. |
| `Pastes.RemoveIdKeepsClean` | script.js:84 | Deleting keeps a collection of clean records clean. |
| `Persistence.Serialize` | script.js:213 | `JSON.stringify(this.pastes)` gives truthy text that `JSON.parse` reads back as the same array. |
| `Persistence.Parse` | script.js:223 | `JSON.parse` throws exactly on unparsable text. Otherwise it gives the value the text encodes. |
| `Persistence.Truthy` | script.js:222 | In `if (stored)`, JSON text always passes. Unparsable text passes exactly when it is not empty. |
| `Persistence.ReadItem` | script.js:221 | `getItem` throws exactly when the read fails. It gives no item exactly when the read succeeds and the key is absent. Otherwise it gives the blob stored under the key. |
| `Persistence.Saved` | script.js:211-217 | A successful `setItem` stores the serialised collection under the key and keeps every other key and its value. No key besides `clipstream_pastes` is added. A throwing `setItem` leaves the store as it was. |
| `Persistence.LoadAsWritten` | script.js:219-229 | As written, the load leaves the tracker holding a non-array exactly when the store holds JSON that is not an array. |
| `Persistence.NonArrayStoredValueEscapes` | script.js:221-223 | A stored JSON object or `null` passes `if (stored)` and is assigned to `pastes`. |
| `Persistence.LoadedPastes` | script.js:219-229 | The corrected load yields one of three things: the starting collection, the empty collection, or exactly the stored array. A stored array is always taken as it is. |
| `Persistence.LoadedAgreesWithAsWritten` | script.js:219-229 | The corrected load agrees with the code as written wherever that yields an array, and falls back to empty elsewhere. |
| `Persistence.SaveLoadRoundTrip` | script.js:211-224 | Loading after a successful save gives exactly the saved collection, in the same order. |
| `Persistence.LoadFallbacks` | script.js:219-228 | Nothing stored, or a stored empty string, keeps the starting collection. A read that throws gives the empty collection, and so does non-empty unparsable text. |
| `Formatting.FormatTimestamp` | script.js:164-188 | Less than 60000 ms reads "Just now", future timestamps included. The absolute date of the record is shown if and only if at least seven whole days have passed. |
| `Formatting.TruncateText` | script.js:159-162 | Text within the limit is returned as it is. Longer text becomes its first maxLength characters followed by "...", maxLength + 3 in all. |
| `Formatting.TruncateIdempotent` | script.js:159-162 | Truncating twice with the same limit equals truncating once, and the result never exceeds the limit by more than 3. |
| `Formatting.AgoPluralIff` | script.js:175-179 | The unit is followed by "s" if and only if the count is not 1. |
| `Formatting.AgoInjective` | script.js:175-179 | Two relative labels are equal if and only if they have the same count and unit. |
| `Formatting.JustNowIff` | script.js:164-173 | The label is "Just now" if and only if less than 60000 ms have passed. A timestamp in the future is included. |
| `Formatting.FloorDivIff` | script.js:168-170 | `Math.floor(x / d)` is n exactly when x lies in [d·n, d·(n+1)). |
| `Formatting.AgoInBucket` | script.js:164-179 | Every elapsed time in a bucket gets that bucket's label. Buckets are 1-59 whole minutes, 1-23 hours and 1-6 days. |
| `Formatting.AgoOnlyInBucket` | script.js:164-179 | A relative label "n unit ago" appears only for elapsed times in that bucket. |
| `Formatting.AgoIff` | script.js:164-179 | The label reads "n unit(s) ago" if and only if the elapsed time is in that bucket. |
| `Formatting.HourBoundary` | script.js:169-176 | Exactly sixty minutes reads "1 hour ago", not "60 minutes ago". |
| `Formatting.MinuteExamples` | script.js:168-175 | Ninety seconds read "1 minute ago". Fifty-nine seconds read "Just now". |
| `Tracker.PasteTracker.constructor` | script.js:2-9 | The tracker starts empty, loads from the store, and derives every view. The views agree with the state. |
| `Tracker.PasteTracker.LoadFromStorage` | script.js:219-229 | The collection becomes the corrected load of what `getItem` returned. |
| `Tracker.PasteTracker.SaveToStorage` | script.js:211-217 | The store becomes `Saved` of the current collection. A failed write changes nothing. |
| `Tracker.PasteTracker.UpdateUI` | script.js:104-119 | The counter shows the length. Copy-all is disabled, and the empty state shown, exactly when the collection is empty. |
| `Tracker.PasteTracker.UpdatePasteButtonState` | script.js:65-68 | The paste button is disabled exactly when the input is all white space, that is, when its trim is empty. |
| `Tracker.PasteTracker.ShowToast` | script.js:197-199 | The toast shows the given message with the given kind. |
| `Tracker.PasteTracker.OnInput` | script.js:34-37 | After the input changes, the paste button follows it. |
| `Tracker.CopiedMessage` | script.js:97 | The success toast reads "Copied ", then the count's canonical decimal digits (no leading zero) that read back as the count, then " pastes to clipboard!". |
| `Tracker.PasteTracker.AddPaste` | script.js:70-81 | The new record goes in front, and every earlier record keeps its order. The collection is saved, the views refreshed, and the toast reads "Paste added successfully!". |
| `Tracker.PasteTracker.HandlePaste` | script.js:55-63 | Blank input changes nothing. Otherwise exactly one record holding the trimmed input is prepended, the input becomes "", and the result is saved and toasted. The paste button ends disabled, and clean records stay clean. |
| `Tracker.PasteTracker.DeletePaste` | script.js:83-88 | The collection becomes the filter by id, keeping order. It is saved and "Paste deleted" is shown even when nothing matched. Clean records stay clean. |
| `Tracker.PasteTracker.CopyAll` | script.js:90-102 | An empty collection writes nothing and shows no toast. Otherwise the newline-joined contents are written. The toast reports the count on success and "Failed to copy to clipboard" on failure. |
| `Tracker.PasteTracker.ClearAll` | script.js:232-237 | The collection becomes empty, the empty list is saved, the counter reads "0", copy-all is disabled, and "All pastes cleared" is shown. |
| `ClipstreamUtils.ImportedPastes` | script.js:284-299 | A file yields a collection if and only if it was read and its JSON value is an array, and the collection is that array. A failed read is the only cause reported as an unreadable file. |
| `ClipstreamUtils.ImportAcceptsExactlyExports` | script.js:267-291 | A file is modelled by its JSON value, so compact, indented and hand-written texts of the same array are one file. With that, a file yields the collection `ps` if and only if its value is the array `ps`. Import after export therefore restores the collection, order included. |
| `ClipstreamUtils.ImportRejections` | script.js:284-299 | Import is rejected in three cases, each with its own cause: a failed read, text that is not JSON, and JSON that is not an array ("Invalid file format"). |
| `ClipstreamUtils.ImportPastes` | script.js:281-302 | On an array, `pastes` becomes exactly that array, it is saved, the views are refreshed, and the import resolves with its length. Otherwise the tracker and the store are unchanged and the import is rejected. |

## Left out

- Rendering (`renderPastes`, `renderEmptyState`), `escapeHtml` and the markup they build are presentation code and are not modelled. The views are reduced to the counter text, two button flags and the empty-state flag. The unused `preview` value in `renderPastes` is not modelled either.
- `showToast`'s class names, the forced reflow and the 3-second auto-hide are timing and styling. Only the last message and its kind are kept.
- The 100 ms `setTimeout` before `handlePaste`, the `paste` and `keydown` listeners, and the global keyboard shortcuts are event plumbing. `HandlePaste` and `OnInput` model what runs once the event fires.
- The clipboard promise is a host call. Its outcome is the parameter `clipboardOk`, and the toast is set as if the promise had already settled.
- Tracker.PasteTracker.CopyAll: the source reads `this.pastes.length` for the success toast inside `.then` (script.js:97), when the promise settles. A delete made before then makes the reported count differ from the number of contents written. The model reads the length when `CopyAll` is called.
- Tracker.PasteTracker.Valid: the Escape shortcut (script.js:258-260) sets the input to "" without calling `updatePasteButtonState`. The paste button then stays enabled over blank input, so on the real page `pasteDisabled == AllWhitespace(input)` does not survive that shortcut. The shortcut is not modelled.
- `JSON.stringify`/`JSON.parse` are abstract. A blob either encodes a value (an array of records, or any other value) or is unparsable text.
  - The real JSON text is not modelled, nor the two-space indentation of the export.
  - Array elements that are not well-formed records, in an import or in the store, are not modelled, since the source does not validate them either.
- `exportPastes` builds an object URL, a link and a dated file name; this is I/O. Only the file's content (`Persistence.Serialize`) is modelled.
- `FileReader` and the promise plumbing of `importPastes` are I/O. The file is passed in already read (`None` when `onerror` fires).
- The absolute date that `toLocaleDateString` renders (month, day, time, and the year when it differs) is locale formatting by the host. It is kept as the opaque label `LocaleDate(instant, now)`.
- Timestamps are whole milliseconds rather than ISO-8601 strings. An imported timestamp that does not parse ("Invalid Date") is not modelled.
- Pastes.NewPaste: `addPaste` reads the clock twice, once for the id and once for the timestamp. The model uses a single reading `now` for both, so it does not capture the two readings differing by a millisecond.
- Lengths count Unicode code points, whereas JavaScript counts UTF-16 code units. For text outside the Basic Multilingual Plane, `truncateText`'s cut point and length differ from the browser's.
- JsStrings.NatToDecimal: `Number.prototype.toString` switches to exponent notation from 10^21 on. The model writes plain digits, which agrees for every safe integer (every clock reading and every length).
- "Copied 1 pastes to clipboard!" is always plural in the source, and the model keeps it that way (`Tracker.CopiedMessage`).
- `console.warn` and `console.error` logging are not modelled.

## Findings

| source | as written | input that shows it | evidently intended | confidence | as-written member | corrected member |
|---|---|---|---|---|---|---|
| script.js:219-229 | `loadFromStorage` assigns whatever `JSON.parse(stored)` returns to `this.pastes`, with no `Array.isArray` check. | The store holds `{}` or `null` under `clipstream_pastes`. The value is truthy text, it parses, and `this.pastes` becomes a non-array, so the first `updateUI` throws: `null.length` at once, or for `{}` the `.map` in `renderPastes`. | Accept only an array, as `importPastes` does (script.js:287), and fall back to the empty collection otherwise. | medium; not executed | `Persistence.NonArrayStoredValueEscapes` | `Persistence.LoadedPastes` |
