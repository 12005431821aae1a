/** The descriptor patcher: inserts one identifier record, built from a TAF
    header, at the head of the first eligible entry of a descriptor document. */
module YamlUpdater {
  import opened Wrappers

  /** One mapping of an entry's `ids` list. The two identifying fields and
      `size` may be missing, as they are when the header lacks them; `tracks`
      and `confidence` are always present, and a record has no other keys. */
  datatype IdRecord = IdRecord(
    audioId: Option<int>,
    hash: Option<string>,
    size: Option<int>,
    tracks: int,
    confidence: int)

  /** One element of the document's `data` list: `ids` may be absent;
      every other key is carried along untouched in `fields`. */
  datatype Entry = Entry(fields: map<string, string>, ids: Option<seq<IdRecord>>)

  /** A descriptor document: an optional `data` list plus its other top-level keys. */
  datatype Document = Document(fields: map<string, string>, data: Option<seq<Entry>>)

  /** The header of a TAF audio file as reported by the media server. */
  datatype TafHeader = TafHeader(
    valid: Option<bool>,
    audioId: Option<int>,
    sha1Hash: Option<string>,
    size: Option<int>,
    trackSeconds: Option<seq<int>>)

  /** The patched document; `read` and `written` stand for the file being
      opened for reading and rewritten on disk. */
  datatype PatchResult = PatchResult(doc: Document, read: bool, written: bool)

  /** The entries after a scan, and whether the record was inserted. */
  datatype Scan = Scan(entries: seq<Entry>, inserted: bool)

  /** The guard of the patcher: a non-empty path and a header whose `valid` is true.
      An absent, `None` or empty header has no `valid` key and fails it. */
  predicate Proceeds(path: string, header: Option<TafHeader>) {
    |path| > 0 && header.Some? && header.value.valid == Some(true)
  }

  /** Number of tracks of a header: the length of `trackSeconds`, 0 when absent. */
  function TrackCount(h: TafHeader): nat {
    |h.trackSeconds.GetOr([])|
  }

  /** The record a header contributes; a fresh record has confidence 0. */
  function NewRecord(h: TafHeader): (r: IdRecord)
    ensures r.audioId == h.audioId && r.hash == h.sha1Hash && r.size == h.size
    ensures h.trackSeconds.None? ==> r.tracks == 0
    ensures h.trackSeconds.Some? ==> r.tracks == |h.trackSeconds.value|
    ensures r.confidence == 0
    ensures Identified(r) <==> h.audioId.Some? && h.sha1Hash.Some?
  {
    IdRecord(h.audioId, h.sha1Hash, h.size, TrackCount(h), 0)
  }

  /** The guard rejects each falsy case on its own: an empty path, an absent
      header, and a header whose `valid` is absent or not true. */
  lemma GuardRejectsFalsy(path: string, header: Option<TafHeader>)
    ensures path == "" ==> !Proceeds(path, header)
    ensures header.None? ==> !Proceeds(path, header)
    ensures header.Some? && header.value.valid != Some(true) ==> !Proceeds(path, header)
    ensures path != "" && header.Some? && header.value.valid == Some(true) ==> Proceeds(path, header)
  {
  }

  /** A record can be inserted only when both identifying fields are present. */
  predicate Identified(rec: IdRecord) {
    rec.audioId.Some? && rec.hash.Some?
  }

  /** `x` carries the same (audio-id, hash) pair as the identified record `rec`. */
  predicate SamePair(x: IdRecord, rec: IdRecord) {
    x.audioId == rec.audioId && x.hash == rec.hash
  }

  /** Some record of `ids` already carries the pair of `rec`. */
  predicate HasPair(ids: seq<IdRecord>, rec: IdRecord) {
    exists i :: 0 <= i < |ids| && SamePair(ids[i], rec)
  }

  /** An entry the record may be inserted into: it has `ids` and they lack the pair. */
  predicate Eligible(e: Entry, rec: IdRecord) {
    e.ids.Some? && !HasPair(e.ids.value, rec)
  }

  /** `e` with `rec` inserted at index 0 of its `ids`. */
  function Prepend(e: Entry, rec: IdRecord): Entry
    requires e.ids.Some?
  {
    e.(ids := Some([rec] + e.ids.value))
  }

  /** `k` is the index of the first eligible entry of `es`. */
  predicate FirstEligibleAt(es: seq<Entry>, rec: IdRecord, k: int) {
    && 0 <= k < |es|
    && Eligible(es[k], rec)
    && forall j :: 0 <= j < k ==> !Eligible(es[j], rec)
  }

  /** The per-entry scan: entries without `ids` and entries already holding the
      pair are passed over, and the scan goes on; the record is prepended to the
      first eligible entry and the scan stops there. */
  function ScanEntries(es: seq<Entry>, rec: IdRecord): (r: Scan)
    requires Identified(rec)
    ensures |r.entries| == |es|
    ensures r.inserted <==> exists k :: 0 <= k < |es| && Eligible(es[k], rec)
    ensures !r.inserted ==> r.entries == es
    ensures r.inserted ==>
      exists k :: FirstEligibleAt(es, rec, k) && r.entries == es[k := Prepend(es[k], rec)]
    decreases |es|
  {
    if |es| == 0 then Scan(es, false)
    else if Eligible(es[0], rec) then
      var r := Scan([Prepend(es[0], rec)] + es[1..], true);
      assert FirstEligibleAt(es, rec, 0);
      assert r.entries == es[0 := Prepend(es[0], rec)];
      r
    else
      var rest := ScanEntries(es[1..], rec);
      var r := Scan([es[0]] + rest.entries, rest.inserted);
      assert r.inserted <==> exists k :: 0 <= k < |es| && Eligible(es[k], rec) by {
        if exists k :: 0 <= k < |es| && Eligible(es[k], rec) {
          var k :| 0 <= k < |es| && Eligible(es[k], rec);
          assert Eligible(es[1..][k - 1], rec);
        }
        if rest.inserted {
          var k :| 0 <= k < |es[1..]| && Eligible(es[1..][k], rec);
          assert Eligible(es[k + 1], rec);
        }
      }
      assert !r.inserted ==> r.entries == [es[0]] + es[1..] == es;
      assert r.inserted ==> exists k :: FirstEligibleAt(es, rec, k) && r.entries == es[k := Prepend(es[k], rec)] by {
        if r.inserted {
          var k :| FirstEligibleAt(es[1..], rec, k) && rest.entries == es[1..][k := Prepend(es[1..][k], rec)];
          assert FirstEligibleAt(es, rec, k + 1);
          assert r.entries == es[k + 1 := Prepend(es[k + 1], rec)];
        }
      }
      r
  }

  /** `update_yaml_by_taf_header`: patch `doc`, the content of the file at `path`,
      with the record built from `header`. */
  function UpdateYamlByTafHeader(path: string, header: Option<TafHeader>, doc: Document): (r: PatchResult)
    // the guard: nothing is read or written and the document is unchanged
    ensures !Proceeds(path, header) ==> r == PatchResult(doc, false, false)
    ensures Proceeds(path, header) ==> r.read
    // without a write the document is unchanged
    ensures !r.written ==> r.doc == doc
    // a missing audio id or hash means no write
    ensures Proceeds(path, header) && !Identified(NewRecord(header.value)) ==> !r.written
    // a write happens exactly when some entry is eligible for the header's record
    ensures r.written <==>
      && Proceeds(path, header)
      && Identified(NewRecord(header.value))
      && doc.data.Some?
      && exists k :: 0 <= k < |doc.data.value| && Eligible(doc.data.value[k], NewRecord(header.value))
    // the write inserts the header's fields, confidence 0, at the head of the first eligible entry only
    ensures r.written ==>
      && r.doc.fields == doc.fields
      && r.doc.data.Some?
      && exists k ::
        && FirstEligibleAt(doc.data.value, NewRecord(header.value), k)
        && r.doc.data.value == doc.data.value[k := Prepend(doc.data.value[k], NewRecord(header.value))]
        && r.doc.data.value[k].ids.value[0]
           == IdRecord(header.value.audioId, header.value.sha1Hash, header.value.size, TrackCount(header.value), 0)
  {
    if !Proceeds(path, header) then PatchResult(doc, false, false)
    else
      var rec := NewRecord(header.value);
      if !Identified(rec) || doc.data.None? then PatchResult(doc, true, false)
      else
        var s := ScanEntries(doc.data.value, rec);
        if s.inserted then PatchResult(doc.(data := Some(s.entries)), true, true)
        else PatchResult(doc, true, false)
  }

  /** The entries of the document, empty when `data` is absent (`get("data", [])`). */
  function Entries(doc: Document): seq<Entry> {
    doc.data.GetOr([])
  }

  /** Entries without `ids`, and entries whose `ids` already hold the header's
      pair, come out of a patch unchanged; the others are unchanged except the
      one that received the record, whose old records follow it shifted by one. */
  lemma EntryFrame(path: string, header: Option<TafHeader>, doc: Document, i: nat)
    requires i < |Entries(doc)|
    ensures var r := UpdateYamlByTafHeader(path, header, doc);
      && |Entries(r.doc)| == |Entries(doc)|
      && (Entries(doc)[i].ids.None? ==> Entries(r.doc)[i] == Entries(doc)[i])
      && (header.Some? && Entries(doc)[i].ids.Some? && HasPair(Entries(doc)[i].ids.value, NewRecord(header.value))
          ==> Entries(r.doc)[i] == Entries(doc)[i])
      && (Entries(r.doc)[i] != Entries(doc)[i] ==>
          && Entries(doc)[i].ids.Some?
          && Entries(r.doc)[i].fields == Entries(doc)[i].fields
          && Entries(r.doc)[i].ids.Some?
          && Entries(r.doc)[i].ids.value[1..] == Entries(doc)[i].ids.value)
  {
  }

  /** At most one entry changes per call. */
  lemma AtMostOneInsertion(path: string, header: Option<TafHeader>, doc: Document, i: nat, j: nat)
    requires i < |Entries(doc)| && j < |Entries(doc)|
    requires Entries(UpdateYamlByTafHeader(path, header, doc).doc)[i] != Entries(doc)[i]
    requires Entries(UpdateYamlByTafHeader(path, header, doc).doc)[j] != Entries(doc)[j]
    ensures i == j
  {
  }

  /** The identifying pair of a record, when both of its parts are present. */
  function Key(x: IdRecord): Option<(int, string)> {
    if x.audioId.Some? && x.hash.Some? then Some((x.audioId.value, x.hash.value)) else None
  }

  /** No two records of one `ids` list share both audio id and hash. */
  predicate NoDuplicatePairs(ids: seq<IdRecord>) {
    forall i, j :: 0 <= i < j < |ids| && Key(ids[i]).Some? ==> Key(ids[i]) != Key(ids[j])
  }

  /** Every `ids` list of the document is free of duplicate pairs. */
  predicate DocumentNoDuplicates(doc: Document) {
    forall e :: e in Entries(doc) && e.ids.Some? ==> NoDuplicatePairs(e.ids.value)
  }

  /** Prepending a record whose pair is absent keeps a list free of duplicates. */
  lemma PrependKeepsNoDuplicates(ids: seq<IdRecord>, rec: IdRecord)
    requires Identified(rec) && !HasPair(ids, rec) && NoDuplicatePairs(ids)
    ensures NoDuplicatePairs([rec] + ids)
  {
  }

  /** The patch preserves the uniqueness of (audio-id, hash) pairs in every `ids` list. */
  lemma PatchPreservesNoDuplicates(path: string, header: Option<TafHeader>, doc: Document)
    requires DocumentNoDuplicates(doc)
    ensures DocumentNoDuplicates(UpdateYamlByTafHeader(path, header, doc).doc)
  {
  }

  /** Number of entries that carry an `ids` list. */
  function IdsEntries(es: seq<Entry>): nat {
    if |es| == 0 then 0
    else (if es[0].ids.Some? then 1 else 0) + IdsEntries(es[1..])
  }

  /** Two `ids`-bearing entries at distinct indices mean at least two such entries. */
  lemma {:induction false} TwoIdsEntries(es: seq<Entry>, i: nat, j: nat)
    requires i < j < |es| && es[i].ids.Some? && es[j].ids.Some?
    ensures IdsEntries(es) >= 2
    decreases |es|
  {
    if i == 0 {
      OneIdsEntry(es[1..], j - 1);
    } else {
      TwoIdsEntries(es[1..], i - 1, j - 1);
    }
  }

  /** An `ids`-bearing entry means at least one such entry. */
  lemma {:induction false} OneIdsEntry(es: seq<Entry>, j: nat)
    requires j < |es| && es[j].ids.Some?
    ensures IdsEntries(es) >= 1
    decreases |es|
  {
    if j > 0 {
      OneIdsEntry(es[1..], j - 1);
    }
  }

  /** A document with at most one `ids` list is patched at most once: repeating
      the call with the same header on the patched document writes nothing. */
  lemma RepeatOnSingleEntryIsIdempotent(path: string, header: Option<TafHeader>, doc: Document)
    requires IdsEntries(Entries(doc)) <= 1
    ensures var r1 := UpdateYamlByTafHeader(path, header, doc);
      var r2 := UpdateYamlByTafHeader(path, header, r1.doc);
      !r2.written && r2.doc == r1.doc
  {
    var r1 := UpdateYamlByTafHeader(path, header, doc);
    var r2 := UpdateYamlByTafHeader(path, header, r1.doc);
    if r1.written && r2.written {
      var rec := NewRecord(header.value);
      var es := doc.data.value;
      var k :| FirstEligibleAt(es, rec, k) && r1.doc.data.value == es[k := Prepend(es[k], rec)];
      var es1 := r1.doc.data.value;
      var m :| 0 <= m < |es1| && Eligible(es1[m], rec);
      assert HasPair(es1[k].ids.value, rec) by {
        assert SamePair(es1[k].ids.value[0], rec);
      }
      assert m != k;
      assert es1[m] == es[m];
      assert k < m;
      TwoIdsEntries(es, k, m);
    }
  }

  /** A second call never writes when the first did not, and when both write,
      the second inserts into a later entry than the first. */
  lemma RepeatPatchesLaterEntry(path: string, header: Option<TafHeader>, doc: Document)
    ensures var r1 := UpdateYamlByTafHeader(path, header, doc);
      var r2 := UpdateYamlByTafHeader(path, header, r1.doc);
      && (r2.written ==> r1.written)
      && (r1.written && r2.written ==>
          forall k1, k2 ::
            (FirstEligibleAt(Entries(doc), NewRecord(header.value), k1) &&
             FirstEligibleAt(Entries(r1.doc), NewRecord(header.value), k2)) ==> k1 < k2)
  {
  }
}
