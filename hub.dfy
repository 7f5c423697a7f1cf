/** upload_to_huggingface.py: republish the newest dataset and its
    metadata to a dataset repository on the hub. The directory listing,
    file times and existence, the parsed metadata documents and the hub's
    answer to each call are inputs. */
module HubUpload {
  import opened Json
  import opened Text
  import Generator

  const Username := "Victorespi6"
  const DatasetsDir := "."
  const NamePrefix := "premium-"
  const ShaFallback := "Verificado"

  /** A directory entry that `glob("./dataset_*.meta.json")` returns. */
  predicate IsMetaFile(name: string) {
    MatchesGlob(name, Generator.DataPrefix, Generator.MetaSuffix)
  }

  /** `glob(f"{DATASETS_DIR}/dataset_*.meta.json")`: the matching entries,
      joined to the directory, in listing order. */
  function Candidates(names: seq<string>): (paths: seq<string>)
    ensures |paths| <= |names|
    ensures paths == [] <==> forall k :: 0 <= k < |names| ==> !IsMetaFile(names[k])
    ensures forall k :: 0 <= k < |names| && IsMetaFile(names[k]) ==> DatasetsDir + "/" + names[k] in paths
    ensures forall p :: p in paths ==> exists k :: 0 <= k < |names| && IsMetaFile(names[k]) && p == DatasetsDir + "/" + names[k]
  {
    if names == [] then []
    else
      var rest := Candidates(names[1..]);
      assert forall k :: 1 <= k < |names| ==> names[k] == names[1..][k - 1];
      (if IsMetaFile(names[0]) then [DatasetsDir + "/" + names[0]] else []) + rest
  }

  /** `max(paths, key=os.path.getmtime)`: the first path whose time is not
      exceeded by any other. */
  method LatestByMtime(paths: seq<string>, mtime: string -> int) returns (k: nat)
    requires |paths| > 0
    ensures k < |paths|
    ensures forall j :: 0 <= j < |paths| ==> mtime(paths[j]) <= mtime(paths[k])
    ensures forall j :: 0 <= j < k ==> mtime(paths[j]) < mtime(paths[k])
  {
    k := 0;
    for j := 1 to |paths|
      invariant k < j
      invariant forall i :: 0 <= i < j ==> mtime(paths[i]) <= mtime(paths[k])
      invariant forall i :: 0 <= i < k ==> mtime(paths[i]) < mtime(paths[k])
    {
      if mtime(paths[j]) > mtime(paths[k]) {
        k := j;
      }
    }
  }

  /** `latest_meta.replace('.meta.json', '')`. */
  function DataFileOf(metaPath: string): string {
    RemoveAll(metaPath, Generator.MetaSuffix)
  }

  /** `f"premium-{basename.replace('.', '-').replace('_', '-')}"`: no dot or
      underscore survives, and every other character keeps its position. */
  function DatasetName(dataFile: string): (name: string)
    ensures var base := Basename(dataFile);
            && |name| == |NamePrefix| + |base|
            && name[..|NamePrefix|] == NamePrefix
            && '.' !in name && '_' !in name && '/' !in name
            && forall k :: 0 <= k < |base| ==>
                 name[|NamePrefix| + k] == (if base[k] == '.' || base[k] == '_' then '-' else base[k])
  {
    var base := Basename(dataFile);
    var dashed := ReplaceChar(ReplaceChar(base, '.', '-'), '_', '-');
    var name := NamePrefix + dashed;
    assert forall k :: 0 <= k < |dashed| ==> name[|NamePrefix| + k] == dashed[k];
    assert forall k :: 0 <= k < |name| ==> name[k] != '.' && name[k] != '_' && name[k] != '/' by {
      forall k | 0 <= k < |name| ensures name[k] != '.' && name[k] != '_' && name[k] != '/' {
        if k >= |NamePrefix| {
          assert name[k] == dashed[k - |NamePrefix|];
          assert base[k - |NamePrefix|] != '/';
        }
      }
    }
    name
  }

  /** `f"{HF_USERNAME}/{dataset_name}"`: for a slash-free name, the id
      splits into exactly the owner and the name. */
  function RepoId(name: string): (id: string)
    ensures '/' !in name ==> Split(id, '/') == [Username, name]
  {
    if '/' !in name then
      SplitFront(Username, '/', name);
      SplitNoSeparator(name, '/');
      Username + "/" + name
    else
      Username + "/" + name
  }

  /** `meta.get('file_sha256', 'Verificado')`. */
  function CardHash(meta: map<string, Value>): (v: Value)
    ensures "file_sha256" in meta ==> v == meta["file_sha256"]
    ensures "file_sha256" !in meta ==> v == Str(ShaFallback)
  {
    if "file_sha256" in meta then meta["file_sha256"] else Str(ShaFallback)
  }

  /** The card text can be built: the document is an object, `meta['rows']`
      exists and the `,` format accepts it (a number; a boolean counts as
      one). Otherwise building the text raises, after the uploads, and the
      `except` clause ends the run. */
  predicate CardReady(meta: Value) {
    && meta.Obj? && "rows" in meta.fields
    && (meta.fields["rows"].Int? || meta.fields["rows"].Num? || meta.fields["rows"].Bool?)
  }

  datatype HubCall =
    | CreateRepo(repoId: string)
    | UploadFile(localPath: string, pathInRepo: string, repoId: string)
    | PushCard(repoId: string, rows: Value, sha256: Value)

  datatype HubOutcome = NoMetadata | MissingDataFile(dataFile: string) | Published(repoId: string) | Failed

  /** The hub calls made, how the run ended, and the metadata path it chose. */
  datatype HubRun = HubRun(calls: seq<HubCall>, outcome: HubOutcome, picked: Option<string>)

  /** The hub calls for repository `repo`, data file `data` and metadata
      file `metaPath`, in the order the `try` block makes them. */
  function CallSequence(data: string, metaPath: string, repo: string, meta: Value): (calls: seq<HubCall>)
    ensures |calls| == (if CardReady(meta) then 4 else 3)
    ensures calls[0] == CreateRepo(repo)
    ensures calls[1] == UploadFile(data, Basename(data), repo)
    ensures calls[2] == UploadFile(metaPath, Basename(metaPath), repo)
    ensures CardReady(meta) ==> calls[3] == PushCard(repo, meta.fields["rows"], CardHash(meta.fields))
  {
    var create, upData, upMeta := CreateRepo(repo), UploadFile(data, Basename(data), repo), UploadFile(metaPath, Basename(metaPath), repo);
    if CardReady(meta) then [create, upData, upMeta, PushCard(repo, meta.fields["rows"], CardHash(meta.fields))]
    else [create, upData, upMeta]
  }

  /** The calls `main` makes for the chosen metadata path when none raises:
      create the repository, upload the data file, then the metadata file,
      each under its basename, then push the card, which needs `CardReady`. */
  function Plan(metaPath: string, meta: Value): (calls: seq<HubCall>)
    ensures var data := DataFileOf(metaPath);
            var repo := RepoId(DatasetName(data));
            && |calls| == (if CardReady(meta) then 4 else 3)
            && calls[0] == CreateRepo(repo)
            && calls[1] == UploadFile(data, Basename(data), repo)
            && calls[2] == UploadFile(metaPath, Basename(metaPath), repo)
            && (CardReady(meta) ==> calls[3] == PushCard(repo, meta.fields["rows"], CardHash(meta.fields)))
  {
    var data := DataFileOf(metaPath);
    CallSequence(data, metaPath, RepoId(DatasetName(data)), meta)
  }

  predicate AllAccepted(calls: seq<HubCall>, accepts: HubCall -> bool) {
    forall k :: 0 <= k < |calls| ==> accepts(calls[k])
  }

  /** The `try` block of `main()`: create the repository, upload the two
      files, push the card. `accepts(c)` says whether the hub call `c`
      returns or raises; the first raise, or a metadata document that is not
      `CardReady`, ends the block through the `except` clause. */
  method CallHub(dataFile: string, metaPath: string, repo: string, meta: Value,
                 accepts: HubCall -> bool)
    returns (calls: seq<HubCall>, published: bool)
    ensures var plan := CallSequence(dataFile, metaPath, repo, meta);
            1 <= |calls| <= |plan| && calls == plan[..|calls|]
    ensures AllAccepted(calls[..|calls| - 1], accepts)
    ensures |calls| < |CallSequence(dataFile, metaPath, repo, meta)| ==> !accepts(calls[|calls| - 1])
    ensures published <==> calls == CallSequence(dataFile, metaPath, repo, meta) && CardReady(meta) && AllAccepted(calls, accepts)
  {
    ghost var plan := CallSequence(dataFile, metaPath, repo, meta);
    var call := CreateRepo(repo);
    calls := [call];
    if !accepts(call) {
      return calls, false;
    }
    var files := [dataFile, metaPath];
    for i := 0 to |files|
      invariant calls == plan[..1 + i]
      invariant AllAccepted(calls, accepts)
    {
      var f := files[i];
      call := UploadFile(f, Basename(f), repo);
      if i == 0 {
        assert call == plan[1];
      } else {
        assert call == plan[2];
      }
      calls := calls + [call];
      assert plan[..2 + i] == plan[..1 + i] + [call];
      if !accepts(call) {
        assert calls[..|calls| - 1] == plan[..1 + i];
        return calls, false;
      }
    }
    if !CardReady(meta) {
      assert calls == plan;
      return calls, false;
    }
    call := PushCard(repo, meta.fields["rows"], CardHash(meta.fields));
    calls := calls + [call];
    assert calls == plan;
    published := accepts(call);
  }

  /** `main()`. */
  method PublishToHub(names: seq<string>, mtime: string -> int, pathExists: string -> bool,
                      readMeta: string -> Value, accepts: HubCall -> bool)
    returns (run: HubRun)
    ensures run.picked.None? <==> Candidates(names) == []
    ensures run.picked.None? ==> run.calls == [] && run.outcome == NoMetadata
    ensures run.picked.Some? ==>
              var cands, p := Candidates(names), run.picked.value;
              && p in cands
              && (forall j :: 0 <= j < |cands| ==> mtime(cands[j]) <= mtime(p))
    ensures run.picked.Some? && !pathExists(DataFileOf(run.picked.value)) ==>
              run.calls == [] && run.outcome == MissingDataFile(DataFileOf(run.picked.value))
    ensures run.picked.Some? && pathExists(DataFileOf(run.picked.value)) ==>
              var plan := Plan(run.picked.value, readMeta(run.picked.value));
              && 1 <= |run.calls| <= |plan| && run.calls == plan[..|run.calls|]
              && AllAccepted(run.calls[..|run.calls| - 1], accepts)
              && (|run.calls| < |plan| ==> !accepts(run.calls[|run.calls| - 1]))
              && (run.outcome.Published? <==> run.calls == plan && |plan| == 4 && AllAccepted(plan, accepts))
              && (run.outcome.Published? ==> run.outcome.repoId == RepoId(DatasetName(DataFileOf(run.picked.value))))
              && (!run.outcome.Published? ==> run.outcome == Failed)
  {
    var cands := Candidates(names);
    if cands == [] {
      return HubRun([], NoMetadata, None);
    }
    var k := LatestByMtime(cands, mtime);
    var latestMeta := cands[k];
    var dataFile := DataFileOf(latestMeta);
    if !pathExists(dataFile) {
      return HubRun([], MissingDataFile(dataFile), Some(latestMeta));
    }
    var meta := readMeta(latestMeta);
    var repo := RepoId(DatasetName(dataFile));
    var calls, published := CallHub(dataFile, latestMeta, repo, meta, accepts);
    var outcome := if published then Published(repo) else Failed;
    run := HubRun(calls, outcome, Some(latestMeta));
  }
}
