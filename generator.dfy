/** generator.py: synthetic rows, the JSON Lines data file and the metadata
    document written beside it. The clock, `uuid4` and `random` are inputs
    (`RowDraw`); the JSON encoder is a parameter. */
module Generator {
  import opened Json
  import opened Text
  import opened Clock

  const DefaultRows: int := 10000
  const Categories: seq<string> := ["A", "B", "C", "D"]
  const DataPrefix := "dataset_"
  const DataExtension := ".jsonl"
  /** Appended to the data file name, not substituted for its extension. */
  const MetaSuffix := ".meta.json"

  /** An index into `Categories`, as `random.choice` draws it. */
  type CategoryPick = k: nat | k < 4

  /** What `generate_row` takes from `time.time()`, `uuid4().hex`,
      `datetime.utcnow()` and `random` for one row. */
  datatype RowDraw = RowDraw(epoch: int, uuidHex: string, now: Instant, value: real,
                             category: CategoryPick, flag: bool, lat: real, lon: real)

  datatype Row = Row(uid: string, ts: string, value: real, category: string,
                     flag: bool, lat: real, lon: real)

  /** A 32-character lower-case hexadecimal string, as `uuid4().hex` returns. */
  predicate IsUuidHex(s: string) {
    |s| == 32 && forall k :: 0 <= k < |s| ==> IsHexDigit(s[k])
  }

  /** `s[:n]` */
  function Take(s: string, n: nat): (r: string)
    ensures |r| == if |s| < n then |s| else n
    ensures r == s[..|r|]
  {
    if |s| <= n then s else s[..n]
  }

  function Last<T>(s: seq<T>): T
    requires |s| > 0
  {
    s[|s| - 1]
  }

  // ---------------------------------------------------------------------
  // generate_row

  /** `f"{int(time.time())}-{uuid.uuid4().hex[:6]}-{i}"`. Whatever the clock
      reading and the uuid, the last `-`-separated field is the decimal of `i`. */
  function Uid(epoch: int, uuidHex: string, i: nat): (uid: string)
    ensures Last(Split(uid, '-')) == NatToString(i)
  {
    var head := IntToString(epoch) + "-" + Take(uuidHex, 6);
    var index := NatToString(i);
    assert '-' !in index by {
      assert forall k :: 0 <= k < |index| ==> index[k] != '-';
    }
    SplitBack(head, '-', index);
    head + "-" + index
  }

  /** With a clock after 1970 and a real uuid, the uid has exactly three
      fields: the epoch seconds, six hexadecimal digits and the index. */
  lemma UidFields(epoch: int, uuidHex: string, i: nat)
    requires epoch >= 0 && IsUuidHex(uuidHex)
    ensures Split(Uid(epoch, uuidHex, i), '-') == [NatToString(epoch), uuidHex[..6], NatToString(i)]
    ensures |uuidHex[..6]| == 6 && forall k :: 0 <= k < 6 ==> IsHexDigit(uuidHex[..6][k])
  {
    var t, h, n := NatToString(epoch), uuidHex[..6], NatToString(i);
    assert '-' !in t by { assert forall k :: 0 <= k < |t| ==> t[k] != '-'; }
    assert '-' !in h by { assert forall k :: 0 <= k < |h| ==> h[k] == uuidHex[k]; }
    assert '-' !in n by { assert forall k :: 0 <= k < |n| ==> n[k] != '-'; }
    assert Uid(epoch, uuidHex, i) == t + ['-'] + (h + ['-'] + n);
    SplitFront(t, '-', h + ['-'] + n);
    SplitFront(h, '-', n);
    SplitNoSeparator(n, '-');
  }

  /** Rows with different indices get different uids, whatever the clock
      and uuid readings were. */
  lemma UidsDistinct(e1: int, h1: string, i: nat, e2: int, h2: string, j: nat)
    requires i != j
    ensures Uid(e1, h1, i) != Uid(e2, h2, j)
  {
    if Uid(e1, h1, i) == Uid(e2, h2, j) {
      NatToStringInjective(i, j);
    }
  }

  /** `generate_row(i)`. */
  function GenerateRow(i: nat, draw: RowDraw): (row: Row)
    ensures row.category in Categories
    ensures Last(Split(row.uid, '-')) == NatToString(i)
    ensures |row.ts| >= 19 && row.ts[|row.ts| - 6..] == "+00:00"
  {
    Row(Uid(draw.epoch, draw.uuidHex, i), Isoformat(draw.now) + "+00:00", draw.value,
        Categories[draw.category], draw.flag, draw.lat, draw.lon)
  }

  /** The dict `generate_row` returns, as a JSON object. */
  function RowObject(row: Row): map<string, Value> {
    map["uid" := Str(row.uid), "ts" := Str(row.ts), "value" := Num(row.value),
        "category" := Str(row.category), "flag" := Bool(row.flag),
        "geo" := Obj(map["lat" := Num(row.lat), "lon" := Num(row.lon)])]
  }

  /** `generate_dataset(rows)`: `[generate_row(i) for i in range(rows)]`;
      a count below one gives no rows. */
  function GenerateDataset(rows: int, draw: nat -> RowDraw): (ds: seq<Row>)
    ensures |ds| == if rows < 0 then 0 else rows
    ensures forall k :: 0 <= k < |ds| ==> ds[k] == GenerateRow(k, draw(k))
  {
    if rows <= 0 then [] else seq(rows, k requires 0 <= k < rows => GenerateRow(k, draw(k)))
  }

  /** Every row of a generated dataset has its own uid and a category from
      the fixed label set. */
  lemma DatasetRowsWellFormed(rows: int, draw: nat -> RowDraw)
    ensures forall a, b :: 0 <= a < b < |GenerateDataset(rows, draw)| ==>
              GenerateDataset(rows, draw)[a].uid != GenerateDataset(rows, draw)[b].uid
    ensures forall k :: 0 <= k < |GenerateDataset(rows, draw)| ==>
              GenerateDataset(rows, draw)[k].category in Categories
  {
    var ds := GenerateDataset(rows, draw);
    forall a, b | 0 <= a < b < |ds| ensures ds[a].uid != ds[b].uid {
      var da, db := draw(a), draw(b);
      UidsDistinct(da.epoch, da.uuidHex, a, db.epoch, db.uuidHex, b);
    }
  }

  // ---------------------------------------------------------------------
  // write_jsonl

  /** The encoder never emits a raw line feed, as section 7 of RFC 8259
      requires control characters inside strings to be escaped. */
  ghost predicate NoRawNewline(encode: Value -> string) {
    forall v :: '\n' !in encode(v)
  }

  function EncodeRows(ds: seq<Row>, encode: Value -> string): (lines: seq<string>)
    ensures |lines| == |ds|
    ensures forall k :: 0 <= k < |ds| ==> lines[k] == encode(Obj(RowObject(ds[k])))
  {
    seq(|ds|, k requires 0 <= k < |ds| => encode(Obj(RowObject(ds[k]))))
  }

  /** JSON Lines framing: each line followed by a line feed, in order. */
  function Frame(lines: seq<string>): string {
    if lines == [] then "" else lines[0] + "\n" + Frame(lines[1..])
  }

  lemma {:induction false} FrameAppend(lines: seq<string>, line: string)
    ensures Frame(lines + [line]) == Frame(lines) + line + "\n"
    decreases |lines|
  {
    if lines == [] {
      assert [line][1..] == [];
    } else {
      assert (lines + [line])[1..] == lines[1..] + [line];
      FrameAppend(lines[1..], line);
    }
  }

  /** Splitting a framed file on line feeds gives back the lines in order,
      and a trailing empty piece. */
  lemma {:induction false} FrameSplit(lines: seq<string>)
    requires forall k :: 0 <= k < |lines| ==> '\n' !in lines[k]
    ensures Split(Frame(lines), '\n') == lines + [""]
    decreases |lines|
  {
    if lines != [] {
      FrameSplit(lines[1..]);
      SplitFront(lines[0], '\n', Frame(lines[1..]));
      assert lines == [lines[0]] + lines[1..];
    }
  }

  /** A framed file holds exactly one line feed per line. */
  lemma {:induction false} FrameNewlines(lines: seq<string>)
    requires forall k :: 0 <= k < |lines| ==> '\n' !in lines[k]
    ensures multiset(Frame(lines))['\n'] == |lines|
    decreases |lines|
  {
    if lines != [] {
      FrameNewlines(lines[1..]);
      assert multiset(lines[0])['\n'] == 0;
      assert Frame(lines) == lines[0] + "\n" + Frame(lines[1..]);
      assert multiset(Frame(lines)) == multiset(lines[0]) + multiset("\n") + multiset(Frame(lines[1..]));
    }
  }

  /** `write_jsonl(dataset, outpath)`: the text the file holds afterwards. */
  method WriteJsonl(dataset: seq<Row>, encode: Value -> string) returns (text: string)
    ensures text == Frame(EncodeRows(dataset, encode))
    ensures NoRawNewline(encode) ==> Split(text, '\n') == EncodeRows(dataset, encode) + [""]
    ensures NoRawNewline(encode) ==> multiset(text)['\n'] == |dataset|
  {
    ghost var lines := EncodeRows(dataset, encode);
    text := "";
    for k := 0 to |dataset|
      invariant text == Frame(lines[..k])
    {
      FrameAppend(lines[..k], lines[k]);
      assert lines[..k + 1] == lines[..k] + [lines[k]];
      text := text + encode(Obj(RowObject(dataset[k]))) + "\n";
    }
    assert lines[..|dataset|] == lines;
    if NoRawNewline(encode) {
      FrameSplit(lines);
      FrameNewlines(lines);
    }
  }

  // ---------------------------------------------------------------------
  // The script's main block

  /** `int(os.getenv("ROWS_PER_DATASET", "10000"))`, already parsed. */
  function RowCount(env: Option<int>): (n: int)
    ensures env.None? ==> n == DefaultRows
    ensures env.Some? ==> n == env.value
  {
    match env
    case None => DefaultRows
    case Some(n) => n
  }

  /** `f"dataset_{stamp}.jsonl"`. */
  function DataFileName(start: Instant): (name: string)
    ensures |name| == 30
    ensures name[..8] == DataPrefix && name[8..24] == Stamp(start) && name[24..] == DataExtension
  {
    DataPrefix + Stamp(start) + DataExtension
  }

  /** `filename + ".meta.json"`: the data file name is kept whole. */
  function MetaPath(dataPath: string): (p: string)
    ensures |p| == |dataPath| + 10 && p[..|dataPath|] == dataPath && p[|dataPath|..] == MetaSuffix
  {
    dataPath + MetaSuffix
  }

  /** The type labels of the metadata's `schema`. */
  const Schema: map<string, Value> :=
    map["uid" := Str("string"), "ts" := Str("datetime"), "value" := Str("float"),
        "category" := Str("string"), "flag" := Str("bool"), "geo" := Str("object")]

  /** A schema type label that describes a JSON value. */
  predicate Describes(tag: Value, v: Value) {
    match tag
    case Str("string") => v.Str?
    case Str("datetime") => v.Str?
    case Str("float") => v.Num?
    case Str("bool") => v.Bool?
    case Str("object") => v.Obj?
    case _ => false
  }

  /** The schema names exactly the keys of a generated row, and each label
      describes the value stored under its key. */
  lemma SchemaDescribesRow(row: Row)
    ensures Schema.Keys == RowObject(row).Keys
    ensures forall key :: key in Schema ==> Describes(Schema[key], RowObject(row)[key])
  {
    var o := RowObject(row);
    assert Schema.Keys == {"uid", "ts", "value", "category", "flag", "geo"} == o.Keys;
  }

  /** The metadata dict of the main block. */
  function Metadata(file: string, rows: nat, generatedAt: Instant): (meta: map<string, Value>)
    ensures meta.Keys == {"file", "rows", "generated_at", "schema"}
    ensures meta["file"] == Str(file) && meta["rows"] == Int(rows) && meta["schema"] == Obj(Schema)
  {
    map["file" := Str(file), "rows" := Int(rows),
        "generated_at" := Str(Isoformat(generatedAt)), "schema" := Obj(Schema)]
  }

  /** What one run of generator.py leaves on disk: the data file and its text,
      the metadata file and its document. */
  datatype GeneratorRun = GeneratorRun(dataPath: string, dataText: string,
                                       metaPath: string, meta: map<string, Value>)

  /** The main block: `start` is the clock reading behind the stamp,
      `metaTime` the one behind `generated_at`. */
  method RunGenerator(envRows: Option<int>, start: Instant, metaTime: Instant,
                      draw: nat -> RowDraw, encode: Value -> string)
    returns (run: GeneratorRun)
    ensures run.dataPath == DataFileName(start) && run.metaPath == MetaPath(run.dataPath)
    ensures var n := RowCount(envRows);
            run.meta == Metadata(run.dataPath, if n < 0 then 0 else n, metaTime)
    ensures run.dataText == Frame(EncodeRows(GenerateDataset(RowCount(envRows), draw), encode))
    ensures envRows.None? ==> run.meta["rows"] == Int(DefaultRows)
    ensures NoRawNewline(encode) ==> run.meta["rows"] == Int(multiset(run.dataText)['\n'])
    ensures NoRawNewline(encode) ==> |Split(run.dataText, '\n')| == run.meta["rows"].i + 1
  {
    var rows := RowCount(envRows);
    var filename := DataFileName(start);
    var ds := GenerateDataset(rows, draw);
    var text := WriteJsonl(ds, encode);
    var meta := Metadata(filename, |ds|, metaTime);
    run := GeneratorRun(filename, text, MetaPath(filename), meta);
  }
}
