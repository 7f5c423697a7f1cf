/** How the four scripts fit together: the names generator.py writes are
    the names the two uploaders look for, their order is the order of the
    runs, and the metadata it writes is what the uploaders read. */
module Pipeline {
  import opened Json
  import opened Text
  import opened Clock
  import Generator
  import Pinata
  import HubUpload

  /** The path under which `glob("./dataset_*.meta.json")` reports the
      metadata file written at `t`. */
  function GlobbedMeta(t: Instant): string {
    HubUpload.DatasetsDir + "/" + Generator.MetaPath(Generator.DataFileName(t))
  }

  lemma MetaSuffixBorderless()
    ensures Borderless(Generator.MetaSuffix)
  {
    var pat := Generator.MetaSuffix;
    forall k | 0 < k < |pat| ensures pat[..k] != pat[|pat| - k..] {
      if k == 5 {
        assert pat[..k][1] != pat[|pat| - k..][1];
      } else {
        assert pat[..k][0] != pat[|pat| - k..][0];
      }
    }
  }

  /** The characters a data file name is made of: no `m` among them. */
  lemma DataFileNameChars(t: Instant)
    ensures var name := Generator.DataFileName(t);
            forall k :: 0 <= k < |name| ==> name[k] != 'm' && name[k] != '/'
  {
    var name := Generator.DataFileName(t);
    var st := Stamp(t);
    forall k | 0 <= k < |name| ensures name[k] != 'm' && name[k] != '/' {
      if k < 8 {
        assert name[k] == name[..8][k];
      } else if k < 24 {
        assert name[k] == st[k - 8];
        assert IsDigit(st[k - 8]) || st[k - 8] == 'T' || st[k - 8] == 'Z';
      } else {
        assert name[k] == name[24..][k - 24];
      }
    }
  }

  /** upload_to_huggingface.py strips `.meta.json` off the globbed metadata
      path and finds the data file generator.py wrote beside it, whose
      basename is the name generator.py gave it. */
  lemma SiblingRoundTrip(t: Instant)
    ensures HubUpload.DataFileOf(GlobbedMeta(t)) == HubUpload.DatasetsDir + "/" + Generator.DataFileName(t)
    ensures Basename(HubUpload.DataFileOf(GlobbedMeta(t))) == Generator.DataFileName(t)
  {
    var name := Generator.DataFileName(t);
    var data := HubUpload.DatasetsDir + "/" + name;
    DataFileNameChars(t);
    assert GlobbedMeta(t) == data + Generator.MetaSuffix;
    assert Generator.MetaSuffix[1] == 'm';
    assert forall k :: 0 <= k < |data| ==> data[k] != 'm' by {
      forall k | 0 <= k < |data| ensures data[k] != 'm' {
        if k >= 2 { assert data[k] == name[k - 2]; }
      }
    }
    MissingCharNotContained(data, Generator.MetaSuffix, 1);
    MetaSuffixBorderless();
    RemoveAllSuffix(data, Generator.MetaSuffix);
    assert '/' !in name;
    BasenameOfJoin(HubUpload.DatasetsDir, name);
  }

  /** A data file name is what uploader_pinata.py globs for and not what
      upload_to_huggingface.py globs for; its metadata file the other way
      round. */
  lemma GlobsSeparateFiles(t: Instant)
    ensures Pinata.IsDataFile(Generator.DataFileName(t))
    ensures !HubUpload.IsMetaFile(Generator.DataFileName(t))
    ensures HubUpload.IsMetaFile(Generator.MetaPath(Generator.DataFileName(t)))
    ensures !Pinata.IsDataFile(Generator.MetaPath(Generator.DataFileName(t)))
  {
    var name := Generator.DataFileName(t);
    var meta := Generator.MetaPath(name);
    DataFileNameChars(t);
    assert name[|name| - 10..][9] == name[29] == 'l';
    assert '/' !in meta by {
      forall k | 0 <= k < |meta| ensures meta[k] != '/' {
        if k < |name| { assert meta[k] == meta[..|name|][k]; }
        else { assert meta[k] == meta[|name|..][k - |name|]; }
      }
    }
    assert meta[..8] == meta[..|name|][..8];
    assert meta[|meta| - 6..][0] == meta[|name|..][4] == 'a';
  }

  /** Data file names sort exactly as the runs that wrote them, to the
      second; two runs in the same second write the same name. */
  lemma DataFileNameOrder(t1: Instant, t2: Instant)
    ensures Less(Generator.DataFileName(t1), Generator.DataFileName(t2)) <==> SecondBefore(t1, t2)
    ensures Generator.DataFileName(t1) == Generator.DataFileName(t2) <==> SameSecond(t1, t2)
  {
    var s1, s2 := Stamp(t1), Stamp(t2);
    CommonSuffixOrder(s1, s2, Generator.DataExtension);
    CommonPrefixOrder(Generator.DataPrefix, s1 + Generator.DataExtension, s2 + Generator.DataExtension);
    assert Generator.DataFileName(t1) == Generator.DataPrefix + (s1 + Generator.DataExtension);
    assert Generator.DataFileName(t2) == Generator.DataPrefix + (s2 + Generator.DataExtension);
    StampOrder(t1, t2);
    if Generator.DataFileName(t1) == Generator.DataFileName(t2) {
      assert s1 == Generator.DataFileName(t1)[8..24];
    }
  }

  /** The listing of a directory holding the data files of the runs `runs`. */
  function RunNames(runs: seq<Instant>): (names: seq<string>)
    ensures |names| == |runs|
    ensures forall k :: 0 <= k < |runs| ==> names[k] == Generator.DataFileName(runs[k])
  {
    seq(|runs|, k requires 0 <= k < |runs| => Generator.DataFileName(runs[k]))
  }

  /** uploader_pinata.py picks the data file of a run that no other run
      follows by a whole second, and only such a file. */
  lemma NewestIsLatestRun(runs: seq<Instant>, j: nat)
    requires j < |runs|
    ensures Pinata.IsNewest(RunNames(runs), Generator.DataFileName(runs[j]))
            <==> forall i :: 0 <= i < |runs| ==> !SecondBefore(runs[j], runs[i])
  {
    var names := RunNames(runs);
    var name := Generator.DataFileName(runs[j]);
    assert name == names[j];
    GlobsSeparateFiles(runs[j]);
    forall i | 0 <= i < |runs|
      ensures Pinata.IsDataFile(names[i])
      ensures Less(name, names[i]) <==> SecondBefore(runs[j], runs[i])
    {
      GlobsSeparateFiles(runs[i]);
      DataFileNameOrder(runs[j], runs[i]);
    }
  }

  /** The hub repository named after a generated file: `premium-`, then
      the name with `_` and `.` turned into `-`. */
  lemma DatasetNameOfRun(t: Instant)
    ensures HubUpload.DatasetName(HubUpload.DataFileOf(GlobbedMeta(t)))
            == HubUpload.NamePrefix + ("dataset-" + Stamp(t) + "-jsonl")
  {
    SiblingRoundTrip(t);
    DatasetNameOfBase(HubUpload.DataFileOf(GlobbedMeta(t)), t);
  }

  /** The rewrite `DatasetName` applies to each character of a basename. */
  function Dash(c: char): char {
    if c == '.' || c == '_' then '-' else c
  }

  /** A data file name, with `.` and `_` rewritten, is `dataset-<stamp>-jsonl`. */
  lemma DashedDataFileName(t: Instant)
    ensures var name, tail := Generator.DataFileName(t), "dataset-" + Stamp(t) + "-jsonl";
            |tail| == |name| && forall k :: 0 <= k < |name| ==> Dash(name[k]) == tail[k]
  {
    var name, st := Generator.DataFileName(t), Stamp(t);
    var tail := "dataset-" + st + "-jsonl";
    forall k | 0 <= k < |name| ensures Dash(name[k]) == tail[k] {
      if k < 8 {
        assert name[k] == Generator.DataPrefix[k] && tail[k] == "dataset-"[k];
      } else if k < 24 {
        assert name[k] == st[k - 8] && tail[k] == st[k - 8];
        assert IsDigit(st[k - 8]) || st[k - 8] == 'T' || st[k - 8] == 'Z';
      } else {
        assert name[k] == Generator.DataExtension[k - 24] && tail[k] == "-jsonl"[k - 24];
      }
    }
  }

  /** `DatasetName` is `premium-` followed by the rewritten basename. */
  lemma DatasetNameFromBase(data: string, tail: string)
    requires |tail| == |Basename(data)|
    requires forall k :: 0 <= k < |tail| ==> tail[k] == Dash(Basename(data)[k])
    ensures HubUpload.DatasetName(data) == HubUpload.NamePrefix + tail
  {
    var got, want := HubUpload.DatasetName(data), HubUpload.NamePrefix + tail;
    forall k | 0 <= k < |got| ensures got[k] == want[k] {
      if k < 8 {
        assert got[k] == got[..8][k];
      }
    }
  }

  lemma DatasetNameOfBase(data: string, t: Instant)
    requires Basename(data) == Generator.DataFileName(t)
    ensures HubUpload.DatasetName(data) == HubUpload.NamePrefix + ("dataset-" + Stamp(t) + "-jsonl")
  {
    var tail := "dataset-" + Stamp(t) + "-jsonl";
    DashedDataFileName(t);
    DatasetNameFromBase(data, tail);
  }

  /** The metadata generator.py writes carries `rows` and no
      `file_sha256`: the hub card is pushed, with the fallback text. */
  lemma GeneratedMetaMakesCard(file: string, rows: nat, at: Instant, metaPath: string)
    ensures var meta := Generator.Metadata(file, rows, at);
            && HubUpload.CardHash(meta) == Str(HubUpload.ShaFallback)
            && |HubUpload.Plan(metaPath, Obj(meta))| == 4
            && HubUpload.Plan(metaPath, Obj(meta))[3].rows == Int(rows)
  {
    var meta := Generator.Metadata(file, rows, at);
    assert "file_sha256" !in meta;
  }

  /** uploader_pinata.py extends generator.py's metadata without losing any
      of it, and the `filename` it adds repeats the `file` already there. */
  lemma PinnedMetaExtendsGenerated(t: Instant, rows: nat, at: Instant, cid: string, wallet: string)
    ensures var name := Generator.DataFileName(t);
            var meta := Generator.Metadata(name, rows, at);
            var pinned := Pinata.Merge(meta, cid, name, wallet);
            && pinned.Keys == meta.Keys + {"ipfs_cid", "filename", "publisher_wallet"}
            && (forall key :: key in meta ==> pinned[key] == meta[key])
            && pinned["filename"] == pinned["file"]
  {
  }
}
