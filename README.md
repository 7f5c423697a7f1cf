# auto-datasets, modelled in Dafny

auto-datasets is four small Python scripts that make up a pipeline:

- `generator.py` writes a file of synthetic JSON Lines rows, `dataset_<stamp>.jsonl`, and a metadata document beside it, `dataset_<stamp>.jsonl.meta.json`.
- `uploader_pinata.py` pins the newest data file to IPFS through Pinata. It then pins the metadata, extended with the file's CID and the publisher's wallet.
- `upload_to_huggingface.py` picks the most recently modified metadata file and finds its data file. It creates a `premium-…` dataset repository on the Hugging Face hub, uploads both files and pushes a dataset card.
- `revenue_manager.py` keeps an append-only ledger of sales in `ledger.json`.

The model takes the form of each script:

- Pure string and record logic becomes functions with contracts. This covers row and uid construction, file names, the `.meta.json` strip, the hub repository name, the response check and the metadata merge.
- The scripts' main blocks and their loops become methods. This covers `write_jsonl`, the newest-file and newest-mtime choices, the upload loop and the early exits.
- The ledger file becomes the class `Revenue.Ledger`, whose field the methods update.

Everything outside the programs is a parameter: the clock, `uuid4`, `random`, the directory listing, file times and existence, the documents read from disk, the JSON encoder, and the answers of Pinata and of the hub.

Modules:

- `Json`: the JSON values the scripts handle.
- `Text`: the Python string operations the scripts use (`str.replace`, code-point comparison, `os.path.basename`, decimal rendering). It also holds `str.split`, which no script calls; it states what a reader of the output recovers (the uid fields, the JSON Lines rows, the owner and name in a repository id).
- `Clock`: `datetime` readings, `strftime("%Y%m%dT%H%M%SZ")` (the basic format of ISO 8601) and `isoformat()`.
- `Generator`, `Pinata`, `HubUpload` and `Revenue`: one module per script.
- `Pipeline`: lemmas that connect the scripts. The names the generator writes are the names the uploaders glob for. The order of those names is the order of the runs. The uploaders read back what the generator wrote.

## Model

| member | source | states |
|---|---|---|
| Json.OptionalString | revenue_manager.py:27-30 | `None` becomes JSON `null` and nothing else does; a present string stays that string |
| Text.NatToString | generator.py:9 | the decimal of a natural number is non-empty and all digits, with at least two digits from 10 up |
| Text.IntToString | generator.py:9 | the decimal of `int(time.time())` holds no `-` when the value is not negative |
| Text.NatToStringInjective | generator.py:9 | different indices have different decimals |
| Text.Digits | generator.py:28 | a zero-padded field has exactly its width and only digits |
| Text.DigitsOrder | generator.py:28 | fixed-width zero-padded numbers compare as strings exactly as they compare as numbers, and are equal exactly when the numbers are |
| Text.LessIrreflexive | uploader_pinata.py:37 | no string sorts before itself under Python's code-point order |
| Text.LessAsymmetric | uploader_pinata.py:37 | two strings never each sort before the other |
| Text.LessTransitive | uploader_pinata.py:37 | the code-point order is transitive |
| Text.LessTotal | uploader_pinata.py:37 | any two different strings are ordered one way round |
| Text.ReplaceChar | upload_to_huggingface.py:52 | `s.replace(c, d)` for single characters keeps the length and changes exactly the positions holding `c` |
| Text.RemoveAll | upload_to_huggingface.py:39 | `s.replace(pat, "")` never lengthens `s` and leaves a string without `pat` unchanged; `HubUpload.DataFileOf` applies it with `.meta.json` |
| Text.RemoveAllSuffix | upload_to_huggingface.py:39 | removing a pattern that cannot overlap itself from `f + pat`, where `f` does not contain it, gives back exactly `f` |
| Text.Basename | upload_to_huggingface.py:52 | `os.path.basename` holds no `/` and is a suffix of the path |
| Text.BasenameOfJoin | upload_to_huggingface.py:70 | the basename of `dir/name` is `name` when the name holds no slash |
| Clock.Stamp | generator.py:28 | the stamp has 16 characters: digits, with `T` at index 8 and `Z` at index 15 |
| Clock.StampOrder | generator.py:28 | one stamp sorts before another exactly when its reading falls in an earlier second, and two stamps are equal exactly when the readings fall in the same second |
| Clock.Isoformat | generator.py:37 | `isoformat()` has 19 characters, or 26 when there are microseconds, with its separators at fixed positions |
| Generator.Take | generator.py:9 | `s[:n]` has length `min(len(s), n)` and is a prefix of `s` |
| Generator.Uid | generator.py:9 | whatever the clock and uuid, the last `-`-separated field of row `i`'s uid is the decimal of `i` |
| Generator.UidFields | generator.py:9 | for a non-negative clock value and a 32-digit hex uuid, the uid splits into exactly the epoch, six hex digits and the index |
| Generator.UidsDistinct | generator.py:9 | rows with different indices get different uids, whatever clock values and uuids they drew |
| Generator.GenerateRow | generator.py:7-15 | the category is one of `A`–`D`, the uid ends in the row's index, and the timestamp carries the `+00:00` offset; `Generator.RowObject` renders the row as the dict of these lines, with `geo` nested |
| Generator.GenerateDataset | generator.py:17-18 | `max(rows, 0)` rows, where element `k` is `generate_row(k)` |
| Generator.DatasetRowsWellFormed | generator.py:17-18 | all uids in a dataset are pairwise distinct, and every category is one of the four |
| Generator.EncodeRows | generator.py:23 | one encoded line per row, in row order |
| Generator.FrameAppend | generator.py:22-23 | writing one more row appends exactly its line and a newline |
| Generator.FrameSplit | generator.py:20-23 | when no line holds a newline, splitting the file on `\n` gives back the lines in order, followed by one empty piece |
| Generator.FrameNewlines | generator.py:20-23 | when no line holds a newline, the file holds exactly one newline per line |
| Generator.WriteJsonl | generator.py:20-23 | the file text is each encoded row followed by `\n`, in order; with an encoder that escapes newlines, splitting recovers the encoded rows and the newline count is the row count |
| Generator.RowCount | generator.py:27 | the row count is 10000 when `ROWS_PER_DATASET` is unset, and the given value otherwise |
| Generator.DataFileName | generator.py:28-29 | the name is `dataset_`, the 16-character stamp and `.jsonl`: 30 characters |
| Generator.MetaPath | generator.py:40 | the metadata path is the whole data file name followed by `.meta.json` |
| Generator.SchemaDescribesRow | generator.py:38 | the schema has exactly the keys of a generated row, and each label names the JSON type of that field |
| Generator.Metadata | generator.py:34-39 | the metadata has exactly the keys `file`, `rows`, `generated_at` and `schema`, with `file`, `rows` and `schema` as given |
| Generator.RunGenerator | generator.py:25-41 | the data file is named from the start stamp, the metadata file sits beside it, and `rows` is the number of rows written: the file's newline count, one less than its piece count |
| Pinata.AcceptedCid | uploader_pinata.py:19-23 | status 200 or 201 yields the body's `IpfsHash` when present; any other status yields nothing |
| Pinata.UploadFile | uploader_pinata.py:12-23 | a missing key or secret aborts with nothing sent; otherwise the file is posted to the pin-file endpoint and a CID comes back exactly when the reply is accepted and carries one |
| Pinata.UploadJson | uploader_pinata.py:25-33 | the same for a JSON document posted to the pin-JSON endpoint |
| Pinata.LatestDataFile | uploader_pinata.py:37-41 | nothing when no entry matches `dataset_*.jsonl`; otherwise a matching entry that no matching entry follows in code-point order |
| Pinata.Merge | uploader_pinata.py:50 | `ipfs_cid`, `filename` and `publisher_wallet` are set to the CID, the file name and the wallet; every other key keeps its value, and no key is added besides these |
| Pinata.ExitCode | uploader_pinata.py:38-40 | the exit status is 0 exactly for a completed run, provided every post returns a reply |
| Pinata.PublishLatest | uploader_pinata.py:35-52 | with no data file, or without credentials, nothing is sent; otherwise the newest file is pinned, and the metadata is pinned, merged from its sibling file or from `{}`, exactly when the file CID is non-empty |
| HubUpload.Candidates | upload_to_huggingface.py:29 | the candidates are exactly the `dataset_*.meta.json` entries joined to `.`, and there are none exactly when no entry matches |
| HubUpload.LatestByMtime | upload_to_huggingface.py:38 | the chosen path has a modification time at least every other candidate's, and it is the first such path, as `max` returns |
| HubUpload.DatasetName | upload_to_huggingface.py:52 | `premium-` followed by the basename with each `.` and `_` turned into `-`: the same length plus 8, no `.`, `_` or `/`, every other character in place |
| HubUpload.RepoId | upload_to_huggingface.py:53 | for a slash-free name, the repository id splits on `/` into exactly the user name and the name |
| HubUpload.CardHash | upload_to_huggingface.py:80 | the card shows `file_sha256` when the metadata has it, and `Verificado` otherwise |
| HubUpload.CallSequence | upload_to_huggingface.py:62-90 | create the repository, upload the data file and then the metadata file under their basenames, then push the card when its text can be built: the document is an object whose `rows` is a number |
| HubUpload.Plan | upload_to_huggingface.py:39-90 | the same calls for a chosen metadata path, with the data path and repository id derived from it |
| HubUpload.CallHub | upload_to_huggingface.py:58-96 | the calls made are a prefix of the plan; every call but the last was accepted; the block stops short of the plan only at a call the hub rejected; the card is published exactly when all four planned calls were made and accepted |
| HubUpload.PublishToHub | upload_to_huggingface.py:13-96 | with no candidate nothing is called; a missing data file stops the run before any call; otherwise the newest-by-mtime metadata is used and the hub sees a prefix of its plan that stops short only at a rejected call, published exactly when every call went through |
| Revenue.SaleEntry | revenue_manager.py:21-31 | the entry has exactly the nine keys; the timestamp is `isoformat()` followed by `Z`; amount, currency and source are as given; each optional field is `null` exactly when it was not given |
| Revenue.Ledger.constructor | revenue_manager.py:10 | the ledger starts as the file found on disk, or as absent |
| Revenue.Ledger.EnsureLedger | revenue_manager.py:12-16 | an absent ledger becomes `[]`, and an existing one is unchanged |
| Revenue.Ledger.RecordSale | revenue_manager.py:18-37 | the ledger becomes exactly its old entries followed by the returned entry: one longer, the old entries unchanged and in order, and the entries a well-formed ledger holds stay well formed; the defaults are `USD`, `market` and `None` |
| Revenue.Ledger.ShowLedger | revenue_manager.py:39-44 | returns the current entries, or `[]` when there was no ledger, and the ledger afterwards holds exactly those |
| Revenue.AfterSales | revenue_manager.py:32-36 | recording sales one after another adds exactly one entry per sale |
| Revenue.AfterSalesAppendOnly | revenue_manager.py:34 | after any number of sales the earlier entries still come first and unchanged, and the new entries follow in the order they were recorded |
| Revenue.AfterSalesConcat | revenue_manager.py:18-37 | recording one batch of sales and then another is recording both batches in order |
| Pipeline.SiblingRoundTrip | upload_to_huggingface.py:39 | stripping `.meta.json` from the globbed metadata path of a generated run gives exactly `./` followed by that run's data file name, whose basename is that name |
| Pipeline.GlobsSeparateFiles | uploader_pinata.py:37 | a generated data file matches the Pinata glob and not the hub glob; its metadata file matches the hub glob and not the Pinata glob |
| Pipeline.DataFileNameOrder | uploader_pinata.py:37-41 | data file names sort as their runs, to the second, and two names are equal exactly when their runs fall in the same second |
| Pipeline.NewestIsLatestRun | uploader_pinata.py:37-41 | among the data files of several runs, a run's file is the one uploader_pinata.py may pick exactly when no other run came a whole second later |
| Pipeline.DatasetNameOfRun | upload_to_huggingface.py:52 | the hub repository of a generated run is named `premium-dataset-<stamp>-jsonl` |
| Pipeline.GeneratedMetaMakesCard | upload_to_huggingface.py:80 | generated metadata has no `file_sha256`, so the card shows `Verificado`; it has an integer `rows`, so the plan includes pushing a card with that count |
| Pipeline.PinnedMetaExtendsGenerated | uploader_pinata.py:50 | pinning keeps every key of the generated metadata, adds exactly the three new keys, and the added `filename` equals the existing `file` |

## Left out

- Network: `requests.post`, `HfApi` and `DatasetCard.push_to_hub` are not modelled. Each Pinata reply is a status code and an optional `IpfsHash`. Each hub call either returns or raises, as `accepts` says.
- Pinata replies with a body that is not JSON raise in `r.json()`. That exception is not modelled.
- Pinata.PublishLatest / Pinata.ExitCode: the model assumes every post returns a reply whose body is a JSON object. It does not model `requests.post` raising (a connection error, or the 120 s or 60 s timeout), nor a body that is JSON but not an object, which makes `.get` raise. Either case ends the script with status 1, possibly after the file was already pinned, where the model reports `Completed` with status 0.
- File system: `glob`, `os.listdir`, `os.path.getmtime`, `os.path.exists` and `open` become parameters: a listing, a time function, an existence test, and a map of documents. Pinata: `glob` results are the entries of the working directory.
- HubUpload.PublishToHub: the metadata file is assumed to load without error. A file that is not valid JSON makes `json.load` fail outside the `try`, and that is not modelled. A document that loads but is not an object, or lacks a numeric `rows`, is modelled: the repository is created and both files are uploaded, and then the card text raises inside the `try`.
- Pinata.PublishLatest: a sibling metadata file that does not hold a JSON object would make `meta.update` fail. This is not modelled. The in-place `update` is modelled as building the merged value.
- Revenue: a ledger file holding something other than a JSON list would make `append` fail. This is not modelled. Reading and rewriting the file with `indent=2` is modelled as replacing the field's list.
- Randomness, the clock and `uuid4` are inputs (`RowDraw`, `Instant`, `epoch`). `random.gauss`, `random.uniform`, `round` and the latitude and longitude bounds are not modelled.
- Floating point: `value`, `lat`, `lon`, `amount` and `epoch` are Dafny reals. Rounding and `float(amount)` on a string are not modelled. The float that `os.path.getmtime` returns is modelled as an integer, because only its order matters.
- JSON encoding and decoding: the encoder is a parameter. The property that it leaves no raw newline in its output (section 7 of RFC 8259) is a predicate the framing properties assume. Objects are maps, so key order is not modelled.
- Clock readings are limited to years 1000–9999, because `%Y` pads earlier years differently from platform to platform.
- Sorting: `sorted(..., reverse=True)[0]` is modelled as choosing a maximal entry, and `max(..., key=getmtime)` as choosing the first maximal entry. The sorted list itself is never built.
- Environment and command line: `int(os.getenv("ROWS_PER_DATASET"))` failing on a non-number, the `argparse` command line of `revenue_manager.py`, and the `LEDGER_FILE` variable are not modelled.
- Display: the printed messages, the debug directory listing in `upload_to_huggingface.py`, the card's other text and card data, and the hard-coded token are not modelled.
