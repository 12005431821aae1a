# tonies-json audio-id updater, modelled in Dafny

The updater reads the media library of a TeddyCloud server. It looks for TAF
audio files that have no `tonieInfo` yet. Each such file is matched with the
first tag whose `source` ends with the file's name. This is a plain suffix
test, so a tag for `/x/ba.taf` also matches `a.taf`
(`Scenarios.SuffixCollision`). When that tag carries `tonieInfo`, the file
receives it. The updater then finds the
tonies-json descriptor document `<model>.yaml` of the file's model. Into it, it
inserts an identifier record {audio-id, hash, size, tracks, confidence} built
from the file's TAF header.

The model has three pure parts, and the whole run that composes them:

- `YamlUpdater` (app/yaml_updater.py): the patcher. A document is a `data`
  list of entries, and each entry has an optional `ids` list of records. The
  patcher returns the new document plus `read` and `written` flags. The flags
  stand for opening the file and rewriting it.
- `ToniesJsonRepo` (app/tonies_json_repo.py): the first-match search for the
  file name `model + ".yaml"`. The directory walk is a given sequence of
  (directory, file names) steps in traversal order.
- `Orchestrator` (app/main.py): the two fetches are given as `Result` values.
  Then come the correlation of files with tags and the dispatch of lookups and
  patches. The documents on disk form a map from path to document.
- `Scenarios`: concrete runs. One is the "alpha.taf" run, where a file is
  matched, patched and written. Another repeats it with the record already
  present, and nothing is written. Two more show repeated patches on a
  two-entry document. One shows the suffix match of tags, and the last shows
  exact file-name matching.

The code continues scanning past an entry that already holds the
(audio-id, hash) pair. A second identical call therefore inserts the record
into the next later entry whose `ids` list lacks the pair, when there is one
(`RepeatPatchesLaterEntry`). A repeated patch is therefore not idempotent in
general. It is idempotent when the document has at most one `ids` list
(`RepeatOnSingleEntryIsIdempotent`). It is also idempotent whenever every
`ids` list already holds the pair, since the patcher then writes nothing
(`UpdateYamlByTafHeader`, shown concretely by
`Scenarios.EveryListHoldsPairWritesNothing`). On a
document with two empty `ids` lists, both of two identical calls write
(`Scenarios.RepeatWritesTwiceOnTwoEntries`).

## Model

| member | source | states |
|---|---|---|
| YamlUpdater.GuardRejectsFalsy | app/yaml_updater.py:8-9 | The patcher's guard fails for an empty path, for an absent header, and for a header whose `valid` is absent or not true; it passes only for a non-empty path and a header whose `valid` is true |
| YamlUpdater.NewRecord | app/yaml_updater.py:14-22 | The record copies `audioId` into audio-id, `sha1Hash` into hash and `size` into size. Its track count is the length of `trackSeconds`, or 0 when that is absent, and its confidence is 0. It can be inserted iff both `audioId` and `sha1Hash` are present |
| YamlUpdater.ScanEntries | app/yaml_updater.py:23-39 | The scan inserts exactly when some entry has `ids` lacking the pair. It then changes only the first such entry, prepending the record; otherwise the entries are unchanged |
| YamlUpdater.UpdateYamlByTafHeader | app/yaml_updater.py:7-39 | With an empty path, or a header that is absent, empty or not `valid`, nothing is read or written and the document is unchanged. A missing audio id or hash means no write. A write happens iff an eligible entry exists, and only that first eligible entry changes. It receives {audio-id: audioId, hash: sha1Hash, size, tracks: length of trackSeconds (0 if absent), confidence: 0} at index 0 |
| YamlUpdater.EntryFrame | app/yaml_updater.py:24-30 | Entries without `ids`, and entries already holding the pair, are unchanged. A changed entry keeps its other keys, and its old records follow the new one, shifted by one |
| YamlUpdater.AtMostOneInsertion | app/yaml_updater.py:29-36 | Two changed entries are the same entry: at most one insertion per call |
| YamlUpdater.PrependKeepsNoDuplicates | app/yaml_updater.py:25-30 | Prepending a record whose pair is absent keeps a list free of duplicate (audio-id, hash) pairs |
| YamlUpdater.PatchPreservesNoDuplicates | app/yaml_updater.py:25-30 | If no `ids` list has a duplicate pair before the call, none has one after it |
| YamlUpdater.RepeatOnSingleEntryIsIdempotent | app/yaml_updater.py:23-39 | With at most one `ids`-bearing entry, repeating the call on the patched document writes nothing and changes nothing |
| YamlUpdater.RepeatPatchesLaterEntry | app/yaml_updater.py:23-39 | A second call writes only if the first did. When both write, the second inserts into a strictly later entry |
| ToniesJsonRepo.FindInWalk | app/tonies_json_repo.py:18-23 | There is no result iff no step lists the name. Otherwise the result is the join of the first listing directory with the name |
| ToniesJsonRepo.NotFoundInWalk | app/tonies_json_repo.py:18-23 | Restated per file: the search finds nothing iff no file of any directory has the name |
| ToniesJsonRepo.FoundInWalk | app/tonies_json_repo.py:18-22 | Restated per file: a found path is the join of the first (directory, file) pair in traversal order whose name matches, and it is a path of the walk |
| ToniesJsonRepo.FindYamlByModel | app/tonies_json_repo.py:14-23 | An absent or empty model gives no result, whatever the walk. Otherwise the result is absent iff no file name equals `model + ".yaml"` exactly. A result is `join(root, file)` for the first match in traversal order, and later duplicates are ignored |
| Orchestrator.FirstTagFor | app/main.py:36 | There is no tag iff no tag's source (default `""`) ends with the name. Otherwise it is the first such tag in list order |
| Orchestrator.KeptByFirstTag | app/main.py:36-38 | A file gains `tonieInfo` iff it lacks one and the first matching tag carries one. It then gets that tag's `tonieInfo`. A first match without `tonieInfo` shadows later matches |
| Orchestrator.Correlate | app/main.py:31-40 | The output is no longer than the listing, and every output file carries `tonieInfo` |
| Orchestrator.CorrelateMembers | app/main.py:31-40 | A file is in the output iff it is the enriched form of a listed file that lacked `tonieInfo` and whose first matching tag carries `tonieInfo` |
| Orchestrator.CorrelatePreservesOrder | app/main.py:40 | The correlation distributes over concatenation of the listing, so the relative order of files is kept |
| Orchestrator.GetNewTafsWithInfos | app/main.py:16-41 | A failed library fetch gives None, and the tag listing is never requested. A failed tag fetch gives None. Otherwise the result is the correlation |
| Orchestrator.ModelOf | app/main.py:53 | The model is present iff the file has `tonieInfo` and that carries a `model`, and it is then that `model` |
| Orchestrator.ModelOfEnriched | app/main.py:36-38 | An enriched file's model, the one its document is looked up by at line 53, is the `model` of the first tag whose source ends with the file's name |
| Orchestrator.CallFor | app/main.py:53-56 | One file triggers at most one patch call. It triggers one iff its model is non-empty and the walk lists `model + ".yaml"`. The call carries the file's `tafHeader`, and its path is the join of the first matching (directory, file) pair in traversal order |
| Orchestrator.PatchCalls | app/main.py:52-56 | There are no more patch calls than files, and every call's path is a document of the walk |
| Orchestrator.PatchCallForFile | app/main.py:53-57 | A file triggers a patch iff its model is non-empty and the walk lists `model + ".yaml"`. The call carries the file's `tafHeader`, which is absent by default. Its path is the one the lookup returns: the join of the first matching (directory, file) pair in traversal order |
| Orchestrator.PatchCallsPreserveOrder | app/main.py:52 | Patch calls are made in file order: they distribute over concatenation of the files |
| Orchestrator.ApplyPatches | app/main.py:57 | The store keeps its paths. There are no more writes than calls, and every written path was called. Documents at paths never written are unchanged |
| Orchestrator.ApplyPatchesOne | app/main.py:57 | One call writes its path iff the patcher writes, and then stores the patcher's document there. Otherwise the store is unchanged and nothing is written |
| Orchestrator.ApplyPatchesAppend | app/main.py:52-57 | Calls take effect in order: later calls act on the store the earlier ones left, and their writes follow the earlier writes |
| Orchestrator.ApplyPatchesPreservesNoDuplicates | app/main.py:52-57 | A sequence of patches keeps every stored document free of duplicate pairs |
| Orchestrator.UpdateYamls | app/main.py:48-57 | `None` or an empty list does nothing. Otherwise there are no more writes than files, only to documents of the walk, and every other document is unchanged |
| Orchestrator.Run | app/main.py:59-61 | If either fetch fails, nothing is written. Otherwise the run is `update_yamls` of the correlated files, so there are no more writes than correlated files |
| Orchestrator.UpdateYamlsFileByFile | app/main.py:52-57 | The files are handled one at a time. The first file's model is looked up. If a document is found, it is patched on its own, with at most one write. The remaining files then act on the resulting store, and their writes follow |
| Orchestrator.RunPreservesNoDuplicates | app/main.py:59-61 | A whole run keeps every document free of duplicate (audio-id, hash) pairs |
| Scenarios.AlphaCalls | app/main.py:31-56 | The file "alpha.taf" without `tonieInfo` gets the `tonieInfo` of the tag with source ".../alpha.taf". It then triggers exactly one patch of "repo/yaml/10000001.yaml", carrying its header |
| Scenarios.AlphaIsPatched | app/main.py:35-57 | The file "alpha.taf" matches a tag with source ".../alpha.taf". Its descriptor gains {123, "abc", 10, 2 tracks, confidence 0} at the list head and is written |
| Scenarios.AlphaAlreadyPresent | app/yaml_updater.py:25-39 | When the identical record is already listed, the same run writes nothing |
| Scenarios.RepeatWritesTwiceOnTwoEntries | app/yaml_updater.py:23-39 | Two identical calls on a document with two empty `ids` lists both write, one entry each |
| Scenarios.EveryListHoldsPairWritesNothing | app/yaml_updater.py:23-39 | On a document whose two `ids` lists both hold the pair, a further identical call reads and writes nothing |
| Scenarios.SuffixCollision | app/main.py:36-38 | The file "a.taf" takes the `tonieInfo` of the first tag, whose source "/x/ba.taf" ends with "a.taf" but names a different audio file |
| Scenarios.ExactNameOnly | app/tonies_json_repo.py:20 | `xmodel.yaml` is not the document of model `model`. A later `model.yaml` in the same directory is found |

## Left out

- Git working-copy synchronisation, per-file commits and lease-guarded push: no such code is in the modelled files. `main` only fetches and patches.
- HTTP calls to the media server (app/teddycloud_api.py): each fetch is a given `Result`. Timeouts, status codes and JSON parsing all collapse into `Failure`.
- Logging (app/logger_factory.py) and the warnings and errors it prints: they have no effect on results.
- Environment configuration, `load_dotenv`, `asyncio`, and the `ValueError` raised when a variable is unset.
- YAML parsing and dumping, and file `open`: a document is a datatype, and the stores are maps from path to document. A document read back as `None` would crash; that case is not modelled.
- `os.walk`: the walk is a given sequence of steps, so traversal order is whatever that sequence says.
- Orchestrator.UpdateYamls: requires every path of the walk to be in the store. The walk and the store describe one filesystem, so the `FileNotFoundError` of a missing file is not modelled.
- Orchestrator.GetNewTafsWithInfos: the broad `except` is not modelled, because the model has no value that raises. A file name is a required string, whereas the source interpolates a missing name as `"None"`.
- Orchestrator.Source: a tag whose `source` is JSON `null` is read as `""`, which matches only the empty file name. In the source, `.endswith` on `None` raises `AttributeError` when a file's search (line 36) reaches that tag before its first match. The `except` at line 43 then makes the whole result None. So for a non-empty name the model passes over such a tag where the source aborts the run, and a file named `""` is enriched from it by the model where the source aborts the run. The search stops at its first match, so a tag after every match is harmless in both.
- Orchestrator.Correlate: a file whose `tonieInfo` key is present but `null` is treated as lacking one, so it is a candidate for enrichment. The source's test at line 31 is on the key, so it drops that file.
- Orchestrator.Correlate: a tag whose `tonieInfo` is present but `null` is treated as carrying none, so the file is not kept. In the source, line 38 copies the `null`, and line 40 keeps the file. Then `.get("model")` on `None` at line 53 raises `AttributeError`. Nothing handles it, so the patches of that file and of every later file are lost.
- YamlUpdater.IdRecord: a stored record always has `tracks` and `confidence` and no other keys. The source copies stored records unchanged whatever keys they have. Only audio-id and hash are compared (yaml_updater.py:25-27), so the patcher's behaviour does not depend on the missing cases.
- Dynamic typing: `audioId` is an integer and `sha1Hash` a string. `valid` counts as true only when it is the boolean `true`. `ids` or `trackSeconds` present but `null` would crash and is treated as absent.
- YamlUpdater.UpdateYamlByTafHeader: a document whose `data` key is present but `null` makes line 23 raise `TypeError`. `update_yamls` has no handler, so that exception would also abort the patches of all later files. The model treats such `data` as absent: the document is read, nothing is written, and the run goes on.
- Other keys of entries, documents and `tonieInfo` are kept as string maps. They are carried through unchanged, and key order is not modelled.
