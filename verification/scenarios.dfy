/** Concrete runs of the pipeline and of the patcher. */
module Scenarios {
  import opened Wrappers
  import opened YamlUpdater
  import opened ToniesJsonRepo
  import opened Orchestrator

  const AlphaHeader := TafHeader(Some(true), Some(123), Some("abc"), Some(10), Some([1, 2]))
  const AlphaRecord := IdRecord(Some(123), Some("abc"), Some(10), 2, 0)
  const AlphaFiles := [TafFile("alpha.taf", None, Some(AlphaHeader))]
  const AlphaTags := [Tag(Some("/library/by/audioID/alpha.taf"), Some(TonieInfo(Some("10000001"), map[])))]
  const AlphaWalk := [WalkStep("repo/yaml", ["10000001.yaml"])]
  const AlphaPath := "repo/yaml/10000001.yaml"

  /** A document with one entry whose `ids` list is `ids`. */
  function OneEntry(ids: seq<IdRecord>): Document {
    Document(map[], Some([Entry(map[], Some(ids))]))
  }

  /** The alpha walk produces exactly the one descriptor path. */
  lemma AlphaWalkPaths()
    ensures Paths(AlphaWalk) == {AlphaPath}
  {
    var w := AlphaWalk;
    assert w[0].files[0] == "10000001.yaml";
    assert "repo/yaml" + "/" + "10000001.yaml" == AlphaPath;
    assert Join(w[0].root, w[0].files[0]) == AlphaPath;
    assert w[0].files[0] in w[0].files;
    assert AlphaPath in Paths(w);
  }

  /** The alpha file is matched to its tag and triggers one patch of its descriptor. */
  lemma AlphaCalls()
    ensures Paths(AlphaWalk) == {AlphaPath}
    ensures NewRecord(AlphaHeader) == AlphaRecord
    ensures GetNewTafsWithInfos(Success(AlphaFiles), Success(AlphaTags)).tafs == Some(Correlate(AlphaFiles, AlphaTags))
    ensures PatchCalls(Correlate(AlphaFiles, AlphaTags), AlphaWalk) == [PatchCall(AlphaPath, Some(AlphaHeader))]
  {
    AlphaWalkPaths();
    var tags := AlphaTags;
    assert EndsWith(Source(tags[0]), "alpha.taf");
    assert FirstTagFor(tags, "alpha.taf") == Some(tags[0]);
    var tafs := Correlate(AlphaFiles, tags);
    assert tafs == [TafFile("alpha.taf", Some(TonieInfo(Some("10000001"), map[])), Some(AlphaHeader))];
    assert YamlName("10000001") == "10000001.yaml";
    assert FindYamlByModel(Some("10000001"), AlphaWalk) == Some(AlphaPath);
    assert PatchCalls(tafs, AlphaWalk) == [PatchCall(AlphaPath, Some(AlphaHeader))];
    assert NewRecord(AlphaHeader) == AlphaRecord;
  }

  /** A file without `tonieInfo` whose tag carries it gains the header's record
      at the head of its descriptor's list, and the descriptor is written. */
  lemma AlphaIsPatched()
    ensures Paths(AlphaWalk) == {AlphaPath}
    ensures var r := Run(Success(AlphaFiles), Success(AlphaTags), AlphaWalk, map[AlphaPath := OneEntry([])]);
      r.writes == [AlphaPath] && r.store[AlphaPath] == OneEntry([AlphaRecord])
  {
    AlphaCalls();
    var store := map[AlphaPath := OneEntry([])];
    var p := UpdateYamlByTafHeader(AlphaPath, Some(AlphaHeader), OneEntry([]));
    assert Eligible(Entry(map[], Some([])), AlphaRecord);
    var noIds: seq<IdRecord> := [];
    assert [AlphaRecord] + noIds == [AlphaRecord];
    assert Prepend(Entry(map[], Some([])), AlphaRecord) == Entry(map[], Some([AlphaRecord]));
    assert [Entry(map[], Some([]))][1..] == [];
    assert ScanEntries([Entry(map[], Some([]))], AlphaRecord) == Scan([Entry(map[], Some([AlphaRecord]))], true);
    assert p == PatchResult(OneEntry([AlphaRecord]), true, true);
    var calls := [PatchCall(AlphaPath, Some(AlphaHeader))];
    assert ApplyPatches(calls[1..], store[AlphaPath := p.doc]) == Applied(store[AlphaPath := p.doc], []);
    assert ApplyPatches(calls, store) == Applied(store[AlphaPath := p.doc], [AlphaPath]);
  }

  /** When the identical record is already listed, the run writes nothing. */
  lemma AlphaAlreadyPresent()
    ensures Paths(AlphaWalk) == {AlphaPath}
    ensures var r := Run(Success(AlphaFiles), Success(AlphaTags), AlphaWalk, map[AlphaPath := OneEntry([AlphaRecord])]);
      r.writes == [] && r.store[AlphaPath] == OneEntry([AlphaRecord])
  {
    AlphaCalls();
    var store := map[AlphaPath := OneEntry([AlphaRecord])];
    var e := Entry(map[], Some([AlphaRecord]));
    assert SamePair(e.ids.value[0], AlphaRecord);
    assert !Eligible(e, AlphaRecord);
    var p := UpdateYamlByTafHeader(AlphaPath, Some(AlphaHeader), OneEntry([AlphaRecord]));
    assert !p.written;
    var calls := [PatchCall(AlphaPath, Some(AlphaHeader))];
    assert ApplyPatches(calls[1..], store) == Applied(store, []);
    assert ApplyPatches(calls, store) == Applied(store, []);
  }

  const EmptyEntry := Entry(map[], Some([]))
  const AlphaEntry := Entry(map[], Some([AlphaRecord]))

  /** The scans of the two calls below, entry by entry. */
  lemma ScansOfTwoEntries()
    ensures ScanEntries([EmptyEntry, EmptyEntry], AlphaRecord) == Scan([AlphaEntry, EmptyEntry], true)
    ensures ScanEntries([AlphaEntry, EmptyEntry], AlphaRecord) == Scan([AlphaEntry, AlphaEntry], true)
  {
    assert Eligible(EmptyEntry, AlphaRecord);
    assert SamePair(AlphaEntry.ids.value[0], AlphaRecord);
    assert !Eligible(AlphaEntry, AlphaRecord);
    var noIds: seq<IdRecord> := [];
    assert [AlphaRecord] + noIds == [AlphaRecord];
    assert Prepend(EmptyEntry, AlphaRecord) == AlphaEntry;
    assert [EmptyEntry, EmptyEntry][1..] == [EmptyEntry];
    assert [AlphaEntry, EmptyEntry][1..] == [EmptyEntry] && [EmptyEntry][1..] == [];
    assert ScanEntries([EmptyEntry], AlphaRecord) == Scan([AlphaEntry], true);
  }

  /** A document with two `ids` lists is written on both of two identical calls:
      the second call passes over the entry that now holds the pair and inserts
      into the next one. */
  lemma RepeatWritesTwiceOnTwoEntries()
    ensures var r1 := UpdateYamlByTafHeader(AlphaPath, Some(AlphaHeader), Document(map[], Some([EmptyEntry, EmptyEntry])));
      var r2 := UpdateYamlByTafHeader(AlphaPath, Some(AlphaHeader), r1.doc);
      r1.written && r2.written && r2.doc == Document(map[], Some([AlphaEntry, AlphaEntry]))
  {
    assert NewRecord(AlphaHeader) == AlphaRecord;
    ScansOfTwoEntries();
    var r1 := UpdateYamlByTafHeader(AlphaPath, Some(AlphaHeader), Document(map[], Some([EmptyEntry, EmptyEntry])));
    assert r1 == PatchResult(Document(map[], Some([AlphaEntry, EmptyEntry])), true, true);
  }

  /** Once every `ids` list holds the pair, a further identical call reads the
      document and writes nothing: the two-entry document of the lemma above is
      stable from the second call on. */
  lemma EveryListHoldsPairWritesNothing()
    ensures var doc := Document(map[], Some([AlphaEntry, AlphaEntry]));
      UpdateYamlByTafHeader(AlphaPath, Some(AlphaHeader), doc) == PatchResult(doc, true, false)
  {
    assert NewRecord(AlphaHeader) == AlphaRecord;
    assert SamePair(AlphaEntry.ids.value[0], AlphaRecord);
    assert !Eligible(AlphaEntry, AlphaRecord);
  }

  /** Tags are matched by a plain suffix test on their source: the file
      "a.taf" takes the `tonieInfo` of the first tag, whose source is
      ".../ba.taf", a different audio file. */
  lemma SuffixCollision()
    ensures var t1 := TonieInfo(Some("1"), map[]);
      var tags := [Tag(Some("/x/ba.taf"), Some(t1)), Tag(Some("/y/a.taf"), Some(TonieInfo(Some("2"), map[])))];
      Correlate([TafFile("a.taf", None, None)], tags) == [TafFile("a.taf", Some(t1), None)]
  {
    var t1 := TonieInfo(Some("1"), map[]);
    var tags := [Tag(Some("/x/ba.taf"), Some(t1)), Tag(Some("/y/a.taf"), Some(TonieInfo(Some("2"), map[])))];
    var f := TafFile("a.taf", None, None);
    assert "/x/ba.taf"[|"/x/ba.taf"| - |"a.taf"|..] == "a.taf";
    assert EndsWith(Source(tags[0]), "a.taf");
    assert FirstTagFor(tags, "a.taf") == Some(tags[0]);
    assert [f][1..] == [];
  }

  /** The lookup is by exact file name: `xmodel.yaml` is not the document of `model`. */
  lemma ExactNameOnly()
    ensures FindYamlByModel(Some("model"), [WalkStep("r", ["xmodel.yaml"])]) == None
    ensures FindYamlByModel(Some("model"), [WalkStep("r", ["xmodel.yaml", "model.yaml"])]) == Some("r/model.yaml")
  {
    assert YamlName("model") == "model.yaml";
    assert "model.yaml" != "xmodel.yaml" by { assert |"model.yaml"| != |"xmodel.yaml"|; }
    var w := [WalkStep("r", ["xmodel.yaml", "model.yaml"])];
    assert "model.yaml" in w[0].files;
    assert "r" + "/" + "model.yaml" == "r/model.yaml";
    assert FindInWalk(w, "model.yaml") == Some("r/model.yaml");
  }
}
