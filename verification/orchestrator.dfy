/** The pipeline of `main.py`: fetch the library files and the tags, give each
    file that lacks `tonieInfo` the `tonieInfo` of its tag, then look up and
    patch the descriptor document of every enriched file. */
module Orchestrator {
  import opened Wrappers
  import opened YamlUpdater
  import opened ToniesJsonRepo

  /** The `tonieInfo` mapping: the `model` it names, and its other keys. */
  datatype TonieInfo = TonieInfo(model: Option<string>, fields: map<string, string>)

  /** A file of the media library, as listed by the media server. */
  datatype TafFile = TafFile(name: string, tonieInfo: Option<TonieInfo>, tafHeader: Option<TafHeader>)

  /** A tag of the media server: the path of its audio source and its `tonieInfo`. */
  datatype Tag = Tag(source: Option<string>, tonieInfo: Option<TonieInfo>)

  /** The enriched files (absent when a fetch failed), and whether the tag
      listing was requested at all. */
  datatype Fetched = Fetched(tafs: Option<seq<TafFile>>, tagsRequested: bool)

  /** One call of the patcher: the document's path and the file's header. */
  datatype PatchCall = PatchCall(path: string, header: Option<TafHeader>)

  /** The document store after a run, and the paths written, in order. */
  datatype Applied = Applied(store: map<string, Document>, writes: seq<string>)

  /** Python's `s.endswith(suffix)`. */
  predicate EndsWith(s: string, suffix: string) {
    |suffix| <= |s| && s[|s| - |suffix|..] == suffix
  }

  /** The tag's `source`, `""` when absent. */
  function Source(t: Tag): string {
    t.source.GetOr("")
  }

  /** `i` is the first tag, in list order, whose source ends with `name`. */
  predicate FirstTagAt(tags: seq<Tag>, name: string, i: int) {
    && 0 <= i < |tags|
    && EndsWith(Source(tags[i]), name)
    && forall j :: 0 <= j < i ==> !EndsWith(Source(tags[j]), name)
  }

  /** `next(t for t in tags if t.source.endswith(name))`, or nothing. */
  function FirstTagFor(tags: seq<Tag>, name: string): (r: Option<Tag>)
    ensures r.None? <==> forall i :: 0 <= i < |tags| ==> !EndsWith(Source(tags[i]), name)
    ensures r.Some? ==> exists i :: FirstTagAt(tags, name, i) && r.value == tags[i]
    decreases |tags|
  {
    if |tags| == 0 then None
    else if EndsWith(Source(tags[0]), name) then
      assert FirstTagAt(tags, name, 0);
      Some(tags[0])
    else
      var r := FirstTagFor(tags[1..], name);
      assert r.None? ==> forall i :: 0 <= i < |tags| ==> !EndsWith(Source(tags[i]), name) by {
        if r.None? {
          forall i | 0 <= i < |tags| ensures !EndsWith(Source(tags[i]), name) {
            if i > 0 { assert tags[i] == tags[1..][i - 1]; }
          }
        }
      }
      assert r.Some? ==> exists i :: FirstTagAt(tags, name, i) && r.value == tags[i] by {
        if r.Some? {
          var i :| FirstTagAt(tags[1..], name, i) && r.value == tags[1..][i];
          assert FirstTagAt(tags, name, i + 1);
        }
      }
      r
  }

  /** The `tonieInfo` a file would receive: that of the first matching tag, if it has one. */
  function MatchedInfo(f: TafFile, tags: seq<Tag>): Option<TonieInfo> {
    var t := FirstTagFor(tags, f.name);
    if t.Some? && t.value.tonieInfo.Some? then t.value.tonieInfo else None
  }

  /** A file lacking `tonieInfo` that receives one from its tag. */
  predicate Kept(f: TafFile, tags: seq<Tag>) {
    f.tonieInfo.None? && MatchedInfo(f, tags).Some?
  }

  /** The file with its tag's `tonieInfo` attached. */
  function Enrich(f: TafFile, tags: seq<Tag>): TafFile {
    f.(tonieInfo := MatchedInfo(f, tags))
  }

  /** A file is kept exactly when it lacks `tonieInfo` and the first tag whose
      source ends with its name carries `tonieInfo`, which it then receives; a
      first matching tag without `tonieInfo` shadows every later match. */
  lemma KeptByFirstTag(f: TafFile, tags: seq<Tag>)
    ensures Kept(f, tags) <==>
      f.tonieInfo.None? && exists i :: FirstTagAt(tags, f.name, i) && tags[i].tonieInfo.Some?
    ensures forall i :: FirstTagAt(tags, f.name, i) && tags[i].tonieInfo.Some? ==>
      Enrich(f, tags).tonieInfo == tags[i].tonieInfo
    ensures forall i :: FirstTagAt(tags, f.name, i) && tags[i].tonieInfo.None? ==> !Kept(f, tags)
  {
    forall i | FirstTagAt(tags, f.name, i)
      ensures FirstTagFor(tags, f.name) == Some(tags[i])
    {
      var t := FirstTagFor(tags, f.name);
      var i' :| FirstTagAt(tags, f.name, i') && t.value == tags[i'];
      assert i' == i;
    }
  }

  /** Lines 31 and 35-40 of `get_new_tafs_with_infos`: the files without
      `tonieInfo` that receive one from their tag, enriched, in input order. */
  function Correlate(files: seq<TafFile>, tags: seq<Tag>): (r: seq<TafFile>)
    ensures |r| <= |files|
    ensures forall g :: g in r ==> g.tonieInfo.Some?
    decreases |files|
  {
    if |files| == 0 then []
    else (if Kept(files[0], tags) then [Enrich(files[0], tags)] else []) + Correlate(files[1..], tags)
  }

  /** `g` is the enriched form of the kept file at index `i`. */
  predicate KeptAs(files: seq<TafFile>, tags: seq<Tag>, i: int, g: TafFile) {
    0 <= i < |files| && Kept(files[i], tags) && g == Enrich(files[i], tags)
  }

  /** The output of the correlation is exactly the enriched kept files: a file
      that already carried `tonieInfo` is never among them. */
  lemma {:induction false} CorrelateMembers(files: seq<TafFile>, tags: seq<Tag>, g: TafFile)
    ensures g in Correlate(files, tags) <==> exists i :: KeptAs(files, tags, i, g)
    decreases |files|
  {
    if |files| > 0 {
      var tail := files[1..];
      var head := if Kept(files[0], tags) then [Enrich(files[0], tags)] else [];
      CorrelateMembers(tail, tags, g);
      assert Correlate(files, tags) == head + Correlate(tail, tags);
      assert g in head <==> KeptAs(files, tags, 0, g);
      forall i | 0 <= i < |tail|
        ensures KeptAs(tail, tags, i, g) <==> KeptAs(files, tags, i + 1, g)
      {
        assert tail[i] == files[i + 1];
      }
      if g in Correlate(files, tags) {
        if g !in head {
          var i :| KeptAs(tail, tags, i, g);
          assert KeptAs(files, tags, i + 1, g);
        }
      } else {
        forall i | 0 <= i < |files| ensures !KeptAs(files, tags, i, g) {
          if i > 0 {
            assert !KeptAs(tail, tags, i - 1, g);
          }
        }
      }
    }
  }

  /** The correlation keeps the relative order of the files: it distributes
      over concatenation of the listing. */
  lemma {:induction false} CorrelatePreservesOrder(a: seq<TafFile>, b: seq<TafFile>, tags: seq<Tag>)
    ensures Correlate(a + b, tags) == Correlate(a, tags) + Correlate(b, tags)
    decreases |a|
  {
    if |a| > 0 {
      assert (a + b)[1..] == a[1..] + b;
      CorrelatePreservesOrder(a[1..], b, tags);
    } else {
      assert a + b == b;
    }
  }

  /** `get_new_tafs_with_infos`: a failed library fetch gives no result and the
      tag listing is never requested; a failed tag fetch gives no result; with
      both listings the result is their correlation. */
  function GetNewTafsWithInfos(filesRes: Result<seq<TafFile>, string>, tagsRes: Result<seq<Tag>, string>): (r: Fetched)
    ensures filesRes.Failure? ==> r == Fetched(None, false)
    ensures filesRes.Success? ==> r.tagsRequested
    ensures r.tafs.Some? <==> filesRes.Success? && tagsRes.Success?
    ensures r.tafs.Some? ==> r.tafs.value == Correlate(filesRes.value, tagsRes.value)
  {
    if filesRes.Failure? then Fetched(None, false)
    else if tagsRes.Failure? then Fetched(None, true)
    else Fetched(Some(Correlate(filesRes.value, tagsRes.value)), true)
  }

  /** `taf_with_info.get("tonieInfo", {}).get("model", None)`: the model a
      file names, absent when either the file's `tonieInfo` or its `model` is. */
  function ModelOf(f: TafFile): (r: Option<string>)
    ensures r.Some? <==> f.tonieInfo.Some? && f.tonieInfo.value.model.Some?
    ensures r.Some? ==> r.value == f.tonieInfo.value.model.value
  {
    match f.tonieInfo
    case Some(info) => info.model
    case None => None
  }

  /** An enriched file names the model of the first tag whose source ends
      with the file's name: that is the model its document is looked up by. */
  lemma ModelOfEnriched(f: TafFile, tags: seq<Tag>)
    requires Kept(f, tags)
    ensures exists i ::
      && FirstTagAt(tags, f.name, i) && tags[i].tonieInfo.Some?
      && ModelOf(Enrich(f, tags)) == tags[i].tonieInfo.value.model
  {
    var t := FirstTagFor(tags, f.name);
    var i :| FirstTagAt(tags, f.name, i) && t.value == tags[i];
    assert ModelOf(Enrich(f, tags)) == tags[i].tonieInfo.value.model;
  }

  /** Lines 53-56 of `update_yamls` for one file: the patch it triggers when
      the lookup of its model finds a document, or none. */
  function CallFor(f: TafFile, walk: seq<WalkStep>): (r: seq<PatchCall>)
    ensures |r| <= 1
    ensures forall c :: c in r ==> c.path in Paths(walk)
    ensures |r| == 1 <==>
      && ModelOf(f).Some? && ModelOf(f).value != ""
      && !Absent(walk, YamlName(ModelOf(f).value))
    ensures |r| == 1 ==>
      && r[0].header == f.tafHeader
      && exists i, j :: FirstFileAt(walk, YamlName(ModelOf(f).value), i, j)
           && r[0].path == Join(walk[i].root, walk[i].files[j])
  {
    var path := FindYamlByModel(ModelOf(f), walk);
    if path.Some? && |path.value| > 0 then [PatchCall(path.value, f.tafHeader)] else []
  }

  /** Lines 52-56 of `update_yamls`: the patches the files trigger, in file order. */
  function PatchCalls(tafs: seq<TafFile>, walk: seq<WalkStep>): (r: seq<PatchCall>)
    ensures |r| <= |tafs|
    ensures forall c :: c in r ==> c.path in Paths(walk)
    decreases |tafs|
  {
    if |tafs| == 0 then []
    else CallFor(tafs[0], walk) + PatchCalls(tafs[1..], walk)
  }

  /** A single file triggers one patch exactly when its model is non-empty and
      the walk lists `model + ".yaml"`, with the file's header (absent by default). */
  lemma PatchCallForFile(f: TafFile, walk: seq<WalkStep>)
    ensures |PatchCalls([f], walk)| <= 1
    ensures |PatchCalls([f], walk)| == 1 <==>
      && ModelOf(f).Some? && ModelOf(f).value != ""
      && !Absent(walk, YamlName(ModelOf(f).value))
    ensures |PatchCalls([f], walk)| == 1 ==> PatchCalls([f], walk)[0].header == f.tafHeader
    ensures |PatchCalls([f], walk)| == 1 ==>
      exists i, j :: FirstFileAt(walk, YamlName(ModelOf(f).value), i, j)
        && PatchCalls([f], walk)[0].path == Join(walk[i].root, walk[i].files[j])
  {
    assert [f][1..] == [];
    assert PatchCalls([f], walk) == CallFor(f, walk);
  }

  /** The patch calls follow the order of the files. */
  lemma {:induction false} PatchCallsPreserveOrder(a: seq<TafFile>, b: seq<TafFile>, walk: seq<WalkStep>)
    ensures PatchCalls(a + b, walk) == PatchCalls(a, walk) + PatchCalls(b, walk)
    decreases |a|
  {
    if |a| > 0 {
      assert (a + b)[1..] == a[1..] + b;
      PatchCallsPreserveOrder(a[1..], b, walk);
    } else {
      assert a + b == b;
    }
  }

  /** Line 57 of `update_yamls`, for each call in turn: patch the stored
      document, and store it back when the patcher writes. */
  function ApplyPatches(calls: seq<PatchCall>, store: map<string, Document>): (r: Applied)
    requires forall c :: c in calls ==> c.path in store
    ensures r.store.Keys == store.Keys
    ensures |r.writes| <= |calls|
    ensures forall p :: p in r.writes ==> exists c :: c in calls && c.path == p
    ensures forall p :: p in store && p !in r.writes ==> r.store[p] == store[p]
    decreases |calls|
  {
    if |calls| == 0 then Applied(store, [])
    else
      var c := calls[0];
      var patched := UpdateYamlByTafHeader(c.path, c.header, store[c.path]);
      var store' := if patched.written then store[c.path := patched.doc] else store;
      var rest := ApplyPatches(calls[1..], store');
      Applied(rest.store, (if patched.written then [c.path] else []) + rest.writes)
  }

  /** The patch `c` makes on `store`, on its own: the document at `c.path` is
      replaced by the patcher's output and the path logged as written exactly
      when the patcher writes. */
  function PatchOne(c: PatchCall, store: map<string, Document>): Applied
    requires c.path in store
  {
    var p := UpdateYamlByTafHeader(c.path, c.header, store[c.path]);
    Applied(if p.written then store[c.path := p.doc] else store, if p.written then [c.path] else [])
  }

  /** A single call writes its path exactly when the patcher writes, and then
      stores the patcher's document there; otherwise the store is unchanged. */
  lemma ApplyPatchesOne(c: PatchCall, store: map<string, Document>)
    requires c.path in store
    ensures ApplyPatches([c], store) == PatchOne(c, store)
    ensures var p := UpdateYamlByTafHeader(c.path, c.header, store[c.path]);
      && (ApplyPatches([c], store).writes == [c.path] <==> p.written)
      && (p.written ==> ApplyPatches([c], store).store[c.path] == p.doc)
      && (!p.written ==> ApplyPatches([c], store) == Applied(store, []))
  {
    assert [c][1..] == [];
  }

  /** Patches run in call order: the calls `b` act on the store that the calls
      `a` left behind, and the writes of `a` come before those of `b`. */
  lemma {:induction false} ApplyPatchesAppend(a: seq<PatchCall>, b: seq<PatchCall>, store: map<string, Document>)
    requires forall c :: c in a ==> c.path in store
    requires forall c :: c in b ==> c.path in store
    ensures var ra := ApplyPatches(a, store);
      var rb := ApplyPatches(b, ra.store);
      ApplyPatches(a + b, store) == Applied(rb.store, ra.writes + rb.writes)
    decreases |a|
  {
    if |a| == 0 {
      assert a + b == b;
    } else {
      var c := a[0];
      var patched := UpdateYamlByTafHeader(c.path, c.header, store[c.path]);
      var store' := if patched.written then store[c.path := patched.doc] else store;
      var h := if patched.written then [c.path] else [];
      assert forall c' :: c' in a[1..] ==> c' in a;
      ApplyPatchesAppend(a[1..], b, store');
      var ra' := ApplyPatches(a[1..], store');
      var rb := ApplyPatches(b, ra'.store);
      assert ApplyPatches(a, store) == Applied(ra'.store, h + ra'.writes);
      ConsAppend(a, b);
      assert ApplyPatches(a + b, store) == Applied(rb.store, h + (ra'.writes + rb.writes));
      AppendAssoc(h, ra'.writes, rb.writes);
    }
  }

  /** The head and tail of a concatenation with a non-empty left part. */
  lemma ConsAppend<T>(a: seq<T>, b: seq<T>)
    requires |a| > 0
    ensures (a + b)[0] == a[0] && (a + b)[1..] == a[1..] + b
  {
  }

  /** Concatenation of sequences is associative. */
  lemma AppendAssoc<T>(x: seq<T>, y: seq<T>, z: seq<T>)
    ensures x + (y + z) == (x + y) + z
  {
  }

  /** Every stored document is free of duplicate (audio-id, hash) pairs. */
  predicate StoreNoDuplicates(store: map<string, Document>) {
    forall p :: p in store ==> DocumentNoDuplicates(store[p])
  }

  /** Patching keeps every stored document free of duplicate pairs. */
  lemma {:induction false} ApplyPatchesPreservesNoDuplicates(calls: seq<PatchCall>, store: map<string, Document>)
    requires forall c :: c in calls ==> c.path in store
    requires StoreNoDuplicates(store)
    ensures StoreNoDuplicates(ApplyPatches(calls, store).store)
    decreases |calls|
  {
    if |calls| > 0 {
      var c := calls[0];
      var patched := UpdateYamlByTafHeader(c.path, c.header, store[c.path]);
      PatchPreservesNoDuplicates(c.path, c.header, store[c.path]);
      var store' := if patched.written then store[c.path := patched.doc] else store;
      assert StoreNoDuplicates(store');
      assert forall c' :: c' in calls[1..] ==> c' in calls;
      ApplyPatchesPreservesNoDuplicates(calls[1..], store');
    }
  }

  /** `update_yamls`: no files (or none at all) means nothing happens;
      otherwise there are no more writes than files, every written path is a
      document of the walk, and every other document is unchanged. */
  function UpdateYamls(tafs: Option<seq<TafFile>>, walk: seq<WalkStep>, store: map<string, Document>): (r: Applied)
    requires Paths(walk) <= store.Keys
    ensures tafs.None? || tafs.value == [] ==> r == Applied(store, [])
    ensures tafs.Some? ==> |r.writes| <= |tafs.value|
    ensures r.store.Keys == store.Keys
    ensures forall p :: p in r.writes ==> p in Paths(walk)
    ensures forall p :: p in store && p !in r.writes ==> r.store[p] == store[p]
  {
    if tafs.None? then Applied(store, [])
    else ApplyPatches(PatchCalls(tafs.value, walk), store)
  }

  /** `main`: fetch, correlate, then look up and patch. */
  function Run(filesRes: Result<seq<TafFile>, string>, tagsRes: Result<seq<Tag>, string>,
               walk: seq<WalkStep>, store: map<string, Document>): (r: Applied)
    requires Paths(walk) <= store.Keys
    ensures filesRes.Failure? || tagsRes.Failure? ==> r == Applied(store, [])
    ensures filesRes.Success? && tagsRes.Success? ==>
      |r.writes| <= |Correlate(filesRes.value, tagsRes.value)|
    ensures filesRes.Success? && tagsRes.Success? ==>
      r == UpdateYamls(Some(Correlate(filesRes.value, tagsRes.value)), walk, store)
  {
    UpdateYamls(GetNewTafsWithInfos(filesRes, tagsRes).tafs, walk, store)
  }

  /** `update_yamls` handles the files one at a time: the first file's model is
      looked up; when a document is found it is patched on its own (at most one
      write), and the remaining files then act on the resulting store, their
      writes following. */
  lemma UpdateYamlsFileByFile(f: TafFile, rest: seq<TafFile>, walk: seq<WalkStep>, store: map<string, Document>)
    requires Paths(walk) <= store.Keys
    ensures var path := FindYamlByModel(ModelOf(f), walk);
      var first := if path.Some? then PatchOne(PatchCall(path.value, f.tafHeader), store) else Applied(store, []);
      && |first.writes| <= 1
      && UpdateYamls(Some([f] + rest), walk, store)
         == Applied(UpdateYamls(Some(rest), walk, first.store).store,
                    first.writes + UpdateYamls(Some(rest), walk, first.store).writes)
  {
    var path := FindYamlByModel(ModelOf(f), walk);
    var head := CallFor(f, walk);
    assert ([f] + rest)[1..] == rest;
    assert PatchCalls([f] + rest, walk) == head + PatchCalls(rest, walk);
    ApplyPatchesAppend(head, PatchCalls(rest, walk), store);
    if path.Some? {
      assert head == [PatchCall(path.value, f.tafHeader)];
      ApplyPatchesOne(head[0], store);
    } else {
      assert head == [];
      assert ApplyPatches(head, store) == Applied(store, []);
    }
  }

  /** A whole run keeps every document free of duplicate (audio-id, hash) pairs. */
  lemma RunPreservesNoDuplicates(filesRes: Result<seq<TafFile>, string>, tagsRes: Result<seq<Tag>, string>,
                                 walk: seq<WalkStep>, store: map<string, Document>)
    requires Paths(walk) <= store.Keys
    requires StoreNoDuplicates(store)
    ensures StoreNoDuplicates(Run(filesRes, tagsRes, walk, store).store)
  {
    var fetched := GetNewTafsWithInfos(filesRes, tagsRes);
    if fetched.tafs.Some? {
      ApplyPatchesPreservesNoDuplicates(PatchCalls(fetched.tafs.value, walk), store);
    }
  }
}
