/** The paste record and the pure operations `PasteTracker` applies to its
    newest-first collection: building a record, filtering out an id, and the
    newline-joined clipboard payload of `copyAll`. */
module Pastes {
  import opened Wrappers
  import opened JsStrings

  /** One record `{id, content, timestamp}`. The timestamp is held as
      milliseconds since the epoch; the source keeps its ISO-8601 rendering,
      which carries the same millisecond value. */
  datatype Paste = Paste(id: string, content: string, timestamp: int)

  /** The record `addPaste` builds when the clock reads `now`: the id is the
      decimal rendering of the clock, the timestamp the clock itself. */
  function NewPaste(content: string, now: int): (p: Paste)
    ensures p.content == content && p.timestamp == now
  {
    Paste(IntToDecimal(now), content, now)
  }

  /** Ids are not unique: two records get the same id exactly when they were
      created in the same millisecond, whatever their contents. */
  lemma SameIdIffSameInstant(c1: string, now1: int, c2: string, now2: int)
    ensures NewPaste(c1, now1).id == NewPaste(c2, now2).id <==> now1 == now2
  {
    IntToDecimalInjective(now1, now2);
  }

  /** `pastes.filter(paste => paste.id !== id)`: no record with that id is
      left (`RemoveIdCounts`: every other record keeps its occurrences). */
  function RemoveId(ps: seq<Paste>, id: string): (r: seq<Paste>)
    ensures |r| <= |ps|
    ensures forall i :: 0 <= i < |r| ==> r[i].id != id
  {
    if ps == [] then []
    else
      assert ps == [ps[0]] + ps[1..];
      (if ps[0].id == id then [] else [ps[0]]) + RemoveId(ps[1..], id)
  }

  /** Every record without the id keeps exactly its number of occurrences,
      and every record with it is gone. */
  lemma {:induction false} RemoveIdCounts(ps: seq<Paste>, id: string, p: Paste)
    ensures multiset(RemoveId(ps, id))[p] == if p.id == id then 0 else multiset(ps)[p]
  {
    if ps != [] {
      RemoveIdCounts(ps[1..], id, p);
      assert ps == [ps[0]] + ps[1..];
    }
  }

  /** Filtering distributes over concatenation, so the records that remain
      keep their relative order. */
  lemma {:induction false} RemoveIdAppend(a: seq<Paste>, b: seq<Paste>, id: string)
    ensures RemoveId(a + b, id) == RemoveId(a, id) + RemoveId(b, id)
  {
    if a == [] {
      assert a + b == b;
    } else {
      assert (a + b)[1..] == a[1..] + b;
      RemoveIdAppend(a[1..], b, id);
    }
  }

  /** With no record carrying the id, filtering changes nothing. */
  lemma {:induction false} RemoveIdAbsent(ps: seq<Paste>, id: string)
    requires forall i :: 0 <= i < |ps| ==> ps[i].id != id
    ensures RemoveId(ps, id) == ps
  {
    if ps != [] {
      RemoveIdAbsent(ps[1..], id);
      assert ps == [ps[0]] + ps[1..];
    }
  }

  /** With some record carrying the id, filtering strictly shrinks the collection. */
  lemma {:induction false} RemoveIdShrinks(ps: seq<Paste>, id: string, k: nat)
    requires k < |ps| && ps[k].id == id
    ensures |RemoveId(ps, id)| < |ps|
  {
    if k > 0 {
      assert ps[1..][k - 1] == ps[k];
      RemoveIdShrinks(ps[1..], id, k - 1);
    }
  }

  /** The collection is left as it was exactly when no record has the id;
      otherwise it strictly shrinks. */
  lemma RemoveIdUnchangedIff(ps: seq<Paste>, id: string)
    ensures RemoveId(ps, id) == ps <==> forall i :: 0 <= i < |ps| ==> ps[i].id != id
    ensures RemoveId(ps, id) != ps ==> |RemoveId(ps, id)| < |ps|
  {
    if forall i :: 0 <= i < |ps| ==> ps[i].id != id {
      RemoveIdAbsent(ps, id);
    } else {
      var k :| 0 <= k < |ps| && ps[k].id == id;
      RemoveIdShrinks(ps, id, k);
    }
  }

  /** Deleting the same id twice is the same as deleting it once. */
  lemma {:induction false} RemoveIdIdempotent(ps: seq<Paste>, id: string)
    ensures RemoveId(RemoveId(ps, id), id) == RemoveId(ps, id)
  {
    var r := RemoveId(ps, id);
    forall i | 0 <= i < |r| ensures r[i].id != id {
      assert r[i] in r;
    }
    RemoveIdUnchangedIff(r, id);
  }

  /** `pastes.map(paste => paste.content)`. */
  function Contents(ps: seq<Paste>): (cs: seq<string>)
    ensures |cs| == |ps|
    ensures forall i :: 0 <= i < |ps| ==> cs[i] == ps[i].content
  {
    seq(|ps|, i requires 0 <= i < |ps| => ps[i].content)
  }

  /** What `copyAll` writes to the clipboard: nothing at all for an empty
      collection, otherwise the contents joined with newlines. */
  function CopyAllPayload(ps: seq<Paste>): (r: Option<string>)
    ensures r == None <==> ps == []
  {
    if ps == [] then None else Some(Join(Contents(ps), "\n"))
  }

  /** The payload lists every record's content unchanged, in collection
      order (newest first), one newline between neighbours and none at the
      end; ids and timestamps do not appear. */
  lemma PayloadLayout(ps: seq<Paste>, i: nat)
    requires i < |ps|
    ensures CopyAllPayload(ps).Some?
    ensures var text := CopyAllPayload(ps).value;
            var o := Offset(Contents(ps), "\n", i);
            && o + |ps[i].content| <= |text|
            && text[o..o + |ps[i].content|] == ps[i].content
            && (i + 1 < |ps| ==> o + |ps[i].content| < |text| && text[o + |ps[i].content|] == '\n')
            && (i + 1 == |ps| ==> |text| == o + |ps[i].content|)
  {
    var cs := Contents(ps);
    JoinLayout(cs, "\n", i);
    if i + 1 < |ps| {
      var o := Offset(cs, "\n", i) + |cs[i]|;
      assert Join(cs, "\n")[o..o + 1] == "\n";
      assert Join(cs, "\n")[o] == Join(cs, "\n")[o..o + 1][0];
    }
  }

  /** A record as a successful submit creates it: non-empty content that
      neither starts nor ends with whitespace. */
  predicate Clean(p: Paste) {
    p.content != [] && !IsWhitespace(p.content[0]) && !IsWhitespace(p.content[|p.content| - 1])
  }

  predicate AllClean(ps: seq<Paste>) {
    forall i :: 0 <= i < |ps| ==> Clean(ps[i])
  }

  /** Clean content is exactly content that trimming leaves as it is. */
  lemma CleanIffTrimmed(p: Paste)
    ensures Clean(p) <==> p.content != [] && Trim(p.content) == p.content
  {
    if Clean(p) {
      assert TrimStart(p.content) == p.content;
      assert TrimEnd(p.content) == p.content;
    }
  }

  /** A record built from non-blank input, trimmed, is clean. */
  lemma NewPasteFromTrimmedIsClean(raw: string, now: int)
    requires Trim(raw) != []
    ensures Clean(NewPaste(Trim(raw), now))
  {
  }

  /** Filtering never brings in an unclean record. */
  lemma {:induction false} RemoveIdKeepsClean(ps: seq<Paste>, id: string)
    requires AllClean(ps)
    ensures AllClean(RemoveId(ps, id))
  {
    if ps != [] {
      RemoveIdKeepsClean(ps[1..], id);
    }
  }
}
