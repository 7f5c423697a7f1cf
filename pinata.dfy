/** uploader_pinata.py: pin the newest dataset file, then its metadata
    extended with the file's CID. The HTTP service is represented by the
    responses it gives; the file system by a directory listing and the
    metadata documents that exist. */
module Pinata {
  import opened Json
  import opened Text
  import Generator

  const PinFileUrl := "https://api.pinata.cloud/pinning/pinFileToIPFS"
  const PinJsonUrl := "https://api.pinata.cloud/pinning/pinJSONToIPFS"

  /** The environment variables read when the script starts. */
  datatype Env = Env(apiKey: Option<string>, apiSecret: Option<string>, wallet: Option<string>)

  /** The status code of a reply and the `IpfsHash` field of its JSON body, if any. */
  datatype Response = Response(status: int, ipfsHash: Option<string>)

  datatype Request =
    | PinFile(url: string, path: string)
    | PinJson(url: string, doc: map<string, Value>)

  /** Outcome of `upload_file` / `upload_json`: a `SystemExit` raised before
      anything is sent, or one request sent and the CID it yielded. */
  datatype Call = Abort | Posted(request: Request, cid: Option<string>)

  /** Python truthiness of an optional string: present and not empty. */
  predicate Truthy(s: Option<string>) {
    s.Some? && s.value != ""
  }

  predicate HasCredentials(env: Env) {
    Truthy(env.apiKey) && Truthy(env.apiSecret)
  }

  /** `os.getenv("WALLET_ADDRESS", "")`. */
  function Wallet(env: Env): string {
    match env.wallet
    case None => ""
    case Some(w) => w
  }

  /** Status 200 or 201 (section 15.3 of RFC 9110) lets the body's `IpfsHash`
      through; any other status gives `None`. */
  function AcceptedCid(r: Response): (cid: Option<string>)
    ensures r.status != 200 && r.status != 201 ==> cid == None
    ensures r.status == 200 || r.status == 201 ==> cid == r.ipfsHash
  {
    if r.status == 200 || r.status == 201 then r.ipfsHash else None
  }

  /** `upload_file(filepath)` against a service that answers `response`. */
  function UploadFile(env: Env, path: string, response: Response): (c: Call)
    ensures c.Abort? <==> !HasCredentials(env)
    ensures c.Posted? ==> c.request == PinFile(PinFileUrl, path)
    ensures c.Posted? ==> (c.cid.Some? <==> (response.status == 200 || response.status == 201) && response.ipfsHash.Some?)
    ensures c.Posted? && c.cid.Some? ==> c.cid == response.ipfsHash
  {
    if !HasCredentials(env) then Abort else Posted(PinFile(PinFileUrl, path), AcceptedCid(response))
  }

  /** `upload_json(meta)` against a service that answers `response`. */
  function UploadJson(env: Env, doc: map<string, Value>, response: Response): (c: Call)
    ensures c.Abort? <==> !HasCredentials(env)
    ensures c.Posted? ==> c.request == PinJson(PinJsonUrl, doc)
    ensures c.Posted? ==> (c.cid.Some? <==> (response.status == 200 || response.status == 201) && response.ipfsHash.Some?)
    ensures c.Posted? && c.cid.Some? ==> c.cid == response.ipfsHash
  {
    if !HasCredentials(env) then Abort else Posted(PinJson(PinJsonUrl, doc), AcceptedCid(response))
  }

  /** A directory entry that `glob("dataset_*.jsonl")` returns. */
  predicate IsDataFile(name: string) {
    MatchesGlob(name, Generator.DataPrefix, Generator.DataExtension)
  }

  predicate NoDataFile(names: seq<string>) {
    forall k :: 0 <= k < |names| ==> !IsDataFile(names[k])
  }

  /** `name` is a matching entry that no other matching entry follows in
      code-point order. */
  predicate IsNewest(names: seq<string>, name: string) {
    && name in names && IsDataFile(name)
    && forall k :: 0 <= k < |names| && IsDataFile(names[k]) ==> !Less(name, names[k])
  }

  /** `sorted(glob("dataset_*.jsonl"), reverse=True)[0]`, or `None` when the
      glob matches nothing. */
  method LatestDataFile(names: seq<string>) returns (latest: Option<string>)
    ensures latest.None? <==> NoDataFile(names)
    ensures latest.Some? ==> IsNewest(names, latest.value)
  {
    latest := None;
    for k := 0 to |names|
      invariant latest.None? <==> NoDataFile(names[..k])
      invariant latest.Some? ==> latest.value in names[..k] && IsDataFile(latest.value)
      invariant latest.Some? ==> forall j :: 0 <= j < k && IsDataFile(names[j]) ==> !Less(latest.value, names[j])
    {
      var name := names[k];
      if IsDataFile(name) && (latest.None? || Less(latest.value, name)) {
        forall j | 0 <= j < k + 1 && IsDataFile(names[j]) ensures !Less(name, names[j]) {
          if j == k {
            LessIrreflexive(name);
          } else if Less(name, names[j]) {
            LessTransitive(latest.value, name, names[j]);
          }
        }
        latest := Some(name);
      }
      assert names[..k + 1] == names[..k] + [name];
    }
    assert names[..|names|] == names;
  }

  /** `meta.update({"ipfs_cid": cid, "filename": latest, "publisher_wallet": wallet})`:
      the three keys are set and every other key keeps its value. */
  function Merge(meta: map<string, Value>, cid: string, filename: string, wallet: string)
    : (r: map<string, Value>)
    ensures r.Keys == meta.Keys + {"ipfs_cid", "filename", "publisher_wallet"}
    ensures r["ipfs_cid"] == Str(cid) && r["filename"] == Str(filename)
    ensures r["publisher_wallet"] == Str(wallet)
    ensures forall key :: key in meta && key != "ipfs_cid" && key != "filename" && key != "publisher_wallet"
              ==> r[key] == meta[key]
  {
    meta + map["ipfs_cid" := Str(cid), "filename" := Str(filename), "publisher_wallet" := Str(wallet)]
  }

  /** The metadata document the script starts from: the sibling file's
      contents, or `{}` when there is none. */
  function LoadMeta(files: map<string, map<string, Value>>, path: string): map<string, Value> {
    if path in files then files[path] else map[]
  }

  datatype Status = NoDatasetFiles | MissingCredentials | Completed

  /** What a run sent, how it ended, and the two CIDs it printed. */
  datatype PinataRun = PinataRun(sent: seq<Request>, status: Status,
                                 fileCid: Option<string>, metaCid: Option<string>)

  /** The process exit status: `sys.exit(1)` and `SystemExit("...")` both give 1. */
  function ExitCode(s: Status): (code: int)
    ensures code == 0 <==> s == Completed
  {
    if s == Completed then 0 else 1
  }

  /** The script's main block. `names` is the working directory's listing,
      `metaFiles` the metadata documents present in it. */
  method PublishLatest(env: Env, names: seq<string>, metaFiles: map<string, map<string, Value>>,
                       fileResponse: Response, jsonResponse: Response)
    returns (run: PinataRun)
    ensures run.status == NoDatasetFiles <==> NoDataFile(names)
    ensures run.status == MissingCredentials <==> !NoDataFile(names) && !HasCredentials(env)
    ensures run.status != Completed ==> run.sent == [] && run.fileCid == None && run.metaCid == None
    ensures run.status == Completed ==>
              && 1 <= |run.sent| <= 2
              && run.sent[0].PinFile? && run.sent[0].url == PinFileUrl
              && IsNewest(names, run.sent[0].path)
              && run.fileCid == AcceptedCid(fileResponse)
    ensures |run.sent| == 2 <==> run.status == Completed && Truthy(AcceptedCid(fileResponse))
    ensures |run.sent| == 2 ==>
              var latest := run.sent[0].path;
              && run.sent[1] == PinJson(PinJsonUrl, Merge(LoadMeta(metaFiles, Generator.MetaPath(latest)),
                                                          run.fileCid.value, latest, Wallet(env)))
              && run.metaCid == AcceptedCid(jsonResponse)
    ensures |run.sent| < 2 ==> run.metaCid == None
  {
    var found := LatestDataFile(names);
    if found.None? {
      return PinataRun([], NoDatasetFiles, None, None);
    }
    var latest := found.value;
    var up := UploadFile(env, latest, fileResponse);
    if up.Abort? {
      return PinataRun([], MissingCredentials, None, None);
    }
    var sent := [up.request];
    var cid := up.cid;
    var metaCid: Option<string> := None;
    if Truthy(cid) {
      var metaFile := latest + Generator.MetaSuffix;
      var meta: map<string, Value> := map[];
      if metaFile in metaFiles {
        meta := metaFiles[metaFile];
      }
      meta := Merge(meta, cid.value, latest, Wallet(env));
      var upMeta := UploadJson(env, meta, jsonResponse);
      assert upMeta.Posted?;
      sent := sent + [upMeta.request];
      metaCid := upMeta.cid;
    }
    run := PinataRun(sent, Completed, cid, metaCid);
  }
}
