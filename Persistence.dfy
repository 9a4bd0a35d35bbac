/** The durable side of the tracker: `localStorage` as a key/value store of
    opaque blobs, with `JSON.stringify`/`JSON.parse` abstracted to a blob
    that either encodes a parsed value or cannot be parsed. */
module Persistence {
  import opened Wrappers
  import opened Pastes

  /** The one key the tracker stores its collection under. */
  const Key := "clipstream_pastes"

  /** What `JSON.parse` can produce, as far as the tracker cares: an array
      of records, or some other JSON value (an object, a number, `null`). */
  datatype Json = JArray(items: seq<Paste>) | JNonArray

  /** A stored string: either the JSON text of some value, or text that
      `JSON.parse` rejects (the empty string among them). */
  datatype Blob = Encoded(value: Json) | Unparsable(text: string)

  /** `JSON.stringify(pastes)`: text that is truthy and that `JSON.parse`
      reads back as the same array. */
  function Serialize(ps: seq<Paste>): (b: Blob)
    ensures Truthy(b) && Parse(b) == Some(JArray(ps))
  {
    Encoded(JArray(ps))
  }

  /** `JSON.parse`, with the exception it throws as `None`. */
  function Parse(b: Blob): (r: Option<Json>)
    ensures r == None <==> b.Unparsable?
    ensures r != None ==> b == Encoded(r.value)
  {
    match b
    case Encoded(v) => Some(v)
    case Unparsable(_) => None
  }

  /** `if (stored)`: only the empty string is falsy, and JSON text is
      never empty. */
  function Truthy(b: Blob): (r: bool)
    ensures b.Encoded? ==> r
    ensures b.Unparsable? ==> (r <==> b.text != "")
  {
    b != Unparsable("")
  }

  /** The outcome of `localStorage.getItem(Key)`: no item, an item, or an
      exception (storage disabled or inaccessible). */
  datatype StorageRead = Missing | Found(blob: Blob) | ReadFailed

  /** `localStorage.getItem(Key)`: the stored blob when the read succeeds
      and the key is present. */
  function ReadItem(items: map<string, Blob>, readOk: bool): (r: StorageRead)
    ensures r == ReadFailed <==> !readOk
    ensures r == Missing <==> readOk && Key !in items
    ensures r.Found? ==> Key in items && r.blob == items[Key]
  {
    if !readOk then ReadFailed
    else if Key in items then Found(items[Key])
    else Missing
  }

  /** The store after `saveToStorage`: the serialised collection under the
      key when `setItem` succeeds; when it throws (quota exceeded, storage
      disabled) the exception is swallowed and the store is as it was. */
  function Saved(items: map<string, Blob>, ps: seq<Paste>, writeOk: bool): (r: map<string, Blob>)
    ensures writeOk ==> Key in r && r[Key] == Serialize(ps)
    ensures forall k :: k in items && k != Key ==> k in r && r[k] == items[k]
    ensures !writeOk ==> r == items
    ensures r.Keys == items.Keys + (if writeOk then {Key} else {})
  {
    if writeOk then items[Key := Serialize(ps)] else items
  }

  /** `localStorage`: the key/value map the tracker reads and writes. */
  class LocalStorage {
    var items: map<string, Blob>

    constructor (items: map<string, Blob>)
      ensures this.items == items
    {
      this.items := items;
    }
  }

  /** The value `this.pastes` holds after `loadFromStorage` as written: the
      parsed value is assigned whatever it is, array or not. */
  datatype Held = HeldArray(items: seq<Paste>) | HeldOther

  function LoadAsWritten(read: StorageRead, current: seq<Paste>): (h: Held)
    ensures h.HeldOther? <==> read.Found? && read.blob == Encoded(JNonArray)
  {
    match read
    case ReadFailed => HeldArray([])
    case Missing => HeldArray(current)
    case Found(b) =>
      if !Truthy(b) then HeldArray(current)
      else match Parse(b)
        case None => HeldArray([])
        case Some(JArray(xs)) => HeldArray(xs)
        case Some(JNonArray) => HeldOther
  }

  /** A stored JSON object (such as `{}`) or `null` passes the truthiness
      test and parses, so `loadFromStorage` as written leaves the tracker
      holding something that is not an array of records. */
  lemma NonArrayStoredValueEscapes(items: map<string, Blob>)
    requires Key in items && items[Key] == Encoded(JNonArray)
    ensures LoadAsWritten(ReadItem(items, true), []) == HeldOther
  {
  }

  /** `loadFromStorage` with the array check `importPastes` makes: what the
      tracker holds after reading `read`, starting from `current`. It is
      the collection it started with, the empty collection, or exactly the
      stored array, and a stored array is always taken as it is. */
  function LoadedPastes(read: StorageRead, current: seq<Paste>): (r: seq<Paste>)
    ensures r == current || r == [] || (read.Found? && read.blob == Encoded(JArray(r)))
    ensures read.Found? && read.blob.Encoded? && read.blob.value.JArray? ==> r == read.blob.value.items
  {
    match read
    case ReadFailed => []
    case Missing => current
    case Found(b) =>
      if !Truthy(b) then current
      else match Parse(b)
        case None => []
        case Some(JArray(xs)) => xs
        case Some(JNonArray) => []
  }

  /** The corrected load agrees with the load as written whenever the latter
      yields an array, and falls back to empty where it does not. */
  lemma LoadedAgreesWithAsWritten(read: StorageRead, current: seq<Paste>)
    ensures LoadAsWritten(read, current).HeldArray? ==>
              LoadedPastes(read, current) == LoadAsWritten(read, current).items
    ensures LoadAsWritten(read, current).HeldOther? ==> LoadedPastes(read, current) == []
  {
  }

  /** A successful save is read back as exactly the saved collection, in
      the same order, whatever the tracker held before loading. */
  lemma SaveLoadRoundTrip(items: map<string, Blob>, ps: seq<Paste>, current: seq<Paste>)
    ensures LoadedPastes(ReadItem(Saved(items, ps, true), true), current) == ps
  {
  }

  /** Nothing stored (or the empty string) keeps the initial collection;
      an unreadable store or unparsable data gives the empty collection. */
  lemma LoadFallbacks(items: map<string, Blob>, current: seq<Paste>)
    ensures Key !in items ==> LoadedPastes(ReadItem(items, true), current) == current
    ensures Key in items && items[Key] == Unparsable("") ==>
              LoadedPastes(ReadItem(items, true), current) == current
    ensures LoadedPastes(ReadItem(items, false), current) == []
    ensures Key in items && items[Key].Unparsable? && items[Key].text != "" ==>
              LoadedPastes(ReadItem(items, true), current) == []
  {
  }
}
