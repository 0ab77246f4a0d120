# Data lake server: upload ingestion, modelled in Dafny

This project models the core of a small data-lake service. The service takes
uploaded files with YAML metadata and stores each payload in a MinIO bucket.
It records one catalog row per file in PostgreSQL, and it serves searches over
that catalog. The model covers three source files:

- **Sanitiser** (`server_backend/app/utils.py`): how a file name and a project
  id become key segments, and how the catalog's file type is derived.
- **Catalog** (`server_backend/app/db.py`): the insert and its error statuses,
  the search query builder, and the lookup by file id.
- **Pipeline and handlers** (`server_backend/app/main.py`):
  `process_and_store_file` composes the desired key, probes the store until a
  free key is found (`name(1).ext`, `name(2).ext`, …), writes the object and
  inserts the row. The handlers add the status code of a single upload, the
  filter and sequential fan-out of a folder upload, and the search endpoint.

Modules, one per file:

| module | file | contents |
|---|---|---|
| `Wrappers` | `wrappers.dfy` | `Option`, `Result` |
| `Text` | `text.dfy` | ASCII `isalnum`/`upper`/`isspace`, `lstrip`/`rstrip`, `str(int)`, `str.join` |
| `PosixPath` | `posix_path.dfy` | `os.path.splitext`, `os.path.join` |
| `Utils` | `utils.dfy` | `utils.py` |
| `Db` | `db.dfy` | `db.py` |
| `Pipeline` | `pipeline.dfy` | `process_and_store_file` |
| `Endpoints` | `endpoints.dfy` | `create_upload_file`, `create_upload_folder`, `search_files_endpoint` |

How the external world appears in the model:

- **Object store:** a value with its objects by key. It also holds the S3
  error code `stat_object` meets on given keys, and the error `put_object`
  meets on given keys.
- **Catalog:** a value with its rows and the fault, if any, that every later
  call meets. A fault is sticky: a failed insert leaves the catalog as it was,
  so every later call of the same batch meets the same fault.
- **Pipeline run:** a function `Ingest` from the store, the catalog, the
  upload and an `Env` to an `Ingestion`. The `Ingestion` holds:
  - the returned dictionary or the exception raised;
  - the trace of `stat`/`put`/`insert` calls made;
  - the store and catalog left behind.
- **`Env`:** the clock readings, the fresh UUID and `strptime`, passed as
  parameters.

The imperative parts keep the source's form:

- **The probe loop** (`Pipeline.ResolveKey`) is a `while true` loop. It is
  proved equal to the recursive specification `Resolve`. Termination follows
  from the probed keys being distinct keys of a finite store.
- **The folder fan-out** (`Endpoints.UploadFolder`) is a `for` loop. It is
  proved equal to the specification `FanOut`.
- **The search builder** (`Db.BuildSearchQuery`) appends one conditional
  block per filter. It is proved equal to `SearchQuery` and `SearchParams`.

Where the source does not do what its authors evidently meant (see
"## Findings"), the model keeps both versions. An `…AsWritten` member follows
the code as written, including the sanitiser's `AttributeError` on an empty
file name, which `Pipeline.IngestAsWritten` raises before any call to the store. The corrected member is used everywhere else.

### Where the code and its documentation differ (the model follows the code)

- **Metadata key.** The project id is read from the metadata key
  `research_project_id` (`main.py:63`), not `project_id`. A missing key gives
  `""`.
- **Put failures in a batch.** A failed object write is not a per-file
  outcome. It propagates out of `process_and_store_file`, and in a folder
  upload it ends the whole batch with 500 (`main.py:251-273`). So do probe
  errors.
- **Search matching.** The search filters on project id, author, file type,
  experiment type and tags are all `ILIKE '%v%'` partial matches
  (`db.py:223-252`). The file type and the project id are not exact matches.
  The file id is compared with `=`.
- **Empty extension.** `get_file_extension("a.")` is `""`, not `UNKNOWN`,
  because `splitext` gives the extension `"."`, which is truthy.

## Model

| member | source | states |
|---|---|---|
| Text.Upper | server_backend/app/utils.py:10 | upper-casing keeps alphanumerics alphanumeric, never produces a dot, and maps exactly the ASCII lower-case letters down by 32 |
| Text.UpperString | server_backend/app/utils.py:10 | `s.upper()` has the same length and upper-cases each character in place |
| Text.LStripSpec | server_backend/app/utils.py:31 | `lstrip(c)` leaves a suffix that does not start with `c` and removes only `c` |
| Text.RStripSpec | server_backend/app/utils.py:47 | `rstrip(c)` leaves a prefix that does not end with `c` and removes only `c` |
| Text.Dec | server_backend/app/main.py:88 | `str(counter)` is a non-empty run of digits with no leading zero |
| Text.ParseDecOfDec | server_backend/app/main.py:88 | reading back the decimal form of a counter gives the counter |
| Text.DecInjective | server_backend/app/main.py:86-89 | different counters have different decimal forms |
| Text.Count | server_backend/app/utils.py:38 | the number of occurrences of a character is zero exactly when it does not occur |
| PosixPath.RFind | server_backend/app/utils.py:7 | the index found holds the character and no later index does; -1 when absent |
| PosixPath.SplitExt | server_backend/app/utils.py:16 | `splitext` splits the path into base + extension; the extension is empty or starts with its only dot and holds no `/` |
| PosixPath.SplitExtFindsExtension | server_backend/app/utils.py:7-8 | an extension is found exactly when a dot of the last segment is preceded, within that segment, by a non-dot character |
| PosixPath.SplitExtBaseEmpty | server_backend/app/utils.py:16-21 | the base of `splitext` is empty exactly for the empty path |
| PosixPath.SplitExtJoined | server_backend/app/main.py:82 | a base without dots or slashes followed by `.ext` splits back into exactly those parts |
| PosixPath.Join | server_backend/app/main.py:74-77 | `os.path.join`: an absolute right side replaces the left, an empty left side yields the right, a left side ending in `/` is followed directly by the right |
| PosixPath.JoinKeepsBoth | server_backend/app/main.py:77 | joining a relative name keeps the prefix at the start and the name at the end, with exactly one `/` between them when the prefix is non-empty |
| PosixPath.JoinInjective | server_backend/app/main.py:90-92 | under a fixed prefix, different relative names give different keys |
| Utils.Substitute | server_backend/app/utils.py:18-20 | same length; each safe character is kept and every other character becomes `_` |
| Utils.KeepAlnum | server_backend/app/utils.py:29-33 | keeps only alphanumerics, never lengthens, returns an all-alphanumeric input unchanged, and is empty exactly when the input has none |
| Utils.KeepAlnumUnit | server_backend/app/utils.py:29-33 | one character is kept exactly when it is alphanumeric |
| Utils.KeepAlnumAppend | server_backend/app/utils.py:29-33 | filtering distributes over concatenation, so every alphanumeric is kept, in order, and nothing else |
| Utils.Pad | server_backend/app/utils.py:24 | zero-padded decimal: all digits, width at least the field width, every padding character `'0'`, ending in the number's decimal form |
| Utils.PadField | server_backend/app/utils.py:24 | a number below `10^w` padded to width `w` takes exactly `w` digits and reads back as the number |
| Utils.Stamp | server_backend/app/utils.py:24 | `strftime('%Y%m%d%H%M%S%f')` is all digits, at least 20 of them |
| Utils.StampFromFields | server_backend/app/utils.py:24 | seven digit fields of widths 4, 2, 2, 2, 2, 2, 6, concatenated, read back field by field at their offsets |
| Utils.StampFields | server_backend/app/utils.py:24 | for an instant a clock reports, the stamp is 20 digits: year in 0-4, month, day, hour, minute, second in two digits each, microseconds in 14-20, each reading back as its field |
| Utils.FallbackName | server_backend/app/utils.py:24 | the fallback base is `upload_` followed by digits only, and is made of safe characters |
| Utils.FallbackNameStamp | server_backend/app/utils.py:24 | the digits after `upload_` are exactly `Stamp(now)` |
| Utils.SaneBase | server_backend/app/utils.py:16-24 | the sanitised base is non-empty and made of safe characters |
| Utils.SaneExt | server_backend/app/utils.py:26-36 | the sanitised extension is empty, or a dot followed by at least one alphanumeric and nothing else |
| Utils.ExtLStrip | server_backend/app/utils.py:31-32 | a found extension starts with `.`, and `lstrip(".")` removes exactly that one dot |
| Utils.SplitSanitized | server_backend/app/utils.py:38 | the sanitised name splits back into its sanitised base and extension, and holds at most one dot |
| Utils.SanitizeFilename | server_backend/app/utils.py:14-38 | the result splits into the sanitised base and extension of the input |
| Utils.SanitizeFilenameSpec | server_backend/app/utils.py:14-38 | the result's base is non-empty and safe, the original base substituted character by character (or the fallback when that base is empty); its extension is empty exactly when the original has no alphanumeric, otherwise `.` plus exactly those alphanumerics; at most one dot |
| Utils.SaneExtKeepsAlnum | server_backend/app/utils.py:26-36 | the sanitised extension is empty exactly when the original one has no alphanumeric, and otherwise holds exactly its alphanumerics |
| Utils.SanitizeFilenameIdempotent | server_backend/app/utils.py:14-38 | sanitising a sanitised name changes nothing, whatever the clock reads |
| Utils.SanitizeFilenameAsWritten | server_backend/app/utils.py:21-24 | as written, sanitising raises exactly for the empty name, and otherwise agrees with the intended sanitiser |
| Utils.EmptyNameRaisesAsWritten | server_backend/app/utils.py:24 | the empty name makes the code as written raise, where the intended sanitiser gives the fallback name |
| Utils.LStripSpaceSpec | server_backend/app/utils.py:46 | the leading side of `strip()` leaves a suffix not starting with whitespace and removes only whitespace |
| Utils.RStripSpaceSpec | server_backend/app/utils.py:46 | the trailing side of `strip()` leaves a prefix not ending with whitespace and removes only whitespace |
| Utils.TrimKeepsKept | server_backend/app/utils.py:46 | trimming whitespace removes no alphanumeric and no `-` |
| Utils.SubstituteAllUnderscore | server_backend/app/utils.py:45-47 | substitution gives only underscores exactly when the input has no alphanumeric and no `-` |
| Utils.StripUnderscoreShape | server_backend/app/utils.py:47 | `strip("_")` of a safe string is safe, has no `_` at either end, and is empty exactly when the input was all `_` |
| Utils.CleanProjectId | server_backend/app/utils.py:45-47 | by definition: strip the ASCII whitespace, substitute `_` for every unsafe character, then strip `_` from both ends; its shape is stated by Utils.CleanTrimmedShape and Utils.CleanProjectIdShape |
| Utils.CleanTrimmedShape | server_backend/app/utils.py:45-47 | the substituted and stripped identifier is safe, has no `_` at either end, and is empty exactly when nothing is kept |
| Utils.CleanProjectIdShape | server_backend/app/utils.py:45-48 | the cleaned project id is safe, has no `_` at either end, and is empty exactly when the input has no alphanumeric and no `-` |
| Utils.CleanProjectIdFixpoint | server_backend/app/utils.py:45-47 | cleaning a cleaned identifier leaves it unchanged |
| Utils.SanitizeProjectId | server_backend/app/utils.py:41-51 | the prefix is empty exactly for `None` or an id with no alphanumeric and no `-`; otherwise a safe identifier with no `_` at either end, followed by one `/` |
| Utils.PrefixParts | server_backend/app/utils.py:50 | a non-empty prefix is its identifier followed by the slash |
| Utils.SanitizeCleanedProjectId | server_backend/app/utils.py:41-51 | a cleaned identifier sanitises to itself plus `/` |
| Utils.SanitizeProjectIdStable | server_backend/app/utils.py:41-51 | sanitising the identifier of a prefix gives the same prefix again |
| Utils.GetFileExtension | server_backend/app/utils.py:5-11 | `UNKNOWN` when `splitext` finds no extension; otherwise the extension without its dot, upper-cased character by character |
| Utils.FileTypeOfSanitizedName | server_backend/app/main.py:109 | for an alphanumeric extension, the file type of the stored name equals that of the original name |
| Utils.ProjectIdExamples | server_backend/app/utils.py:41-51 | `" My Proj "` gives `My_Proj/` |
| Utils.BlankProjectIdExamples | server_backend/app/utils.py:41-51 | blank, punctuation-only, empty and absent project ids give no prefix |
| Utils.FileExtensionExamples | server_backend/app/utils.py:5-11 | `notes.MATLAB.mat` has type `MAT` |
| Utils.TiffExtensionExample | server_backend/app/utils.py:5-11 | `scan.tiff` has type `TIFF` |
| Utils.NoExtensionExamples | server_backend/app/utils.py:5-11 | `README` and `.bashrc` have type `UNKNOWN` |
| Utils.EmptyExtensionExample | server_backend/app/utils.py:5-11 | `a.` has the empty type |
| Utils.SanitizeSpacedName | server_backend/app/utils.py:14-38 | `my report.pdf` is stored as `my_report.pdf` |
| Utils.SanitizeDoubleExtension | server_backend/app/utils.py:14-38 | `data.tar.gz` is stored as `data_tar.gz` |
| Utils.SanitizeOddExtension | server_backend/app/utils.py:26-36 | `notes.m@t` is stored as `notes.mt` |
| Db.Rank | server_backend/app/db.py:219-252 | each filter has its own position in the builder's fixed order |
| Db.Wildcard | server_backend/app/db.py:226-227 | `%v%` is the value with one `%` on each side |
| Db.Clauses | server_backend/app/db.py:215-252 | one condition text per field, the field's own condition at each position |
| Db.ParamNameInjective | server_backend/app/db.py:216-252 | distinct filters bind distinct parameter names |
| Db.ClausesAppend | server_backend/app/db.py:215-252 | the conditions of two runs of fields are those of each, one after the other |
| Db.AddFilter | server_backend/app/db.py:223-228 | one filter block appends its condition and binds its parameter exactly when the filter is truthy, and otherwise changes nothing |
| Db.AssembleQuery | server_backend/app/db.py:254-259 | the WHERE clause joins the conditions with ` AND ` and appears only when there is a condition; the ORDER BY/LIMIT suffix is always there |
| Db.SearchQuery | server_backend/app/db.py:209-259 | by definition: the base SELECT, then ` WHERE ` and the conditions of the truthy filters joined with ` AND ` in builder order, then the ORDER BY/LIMIT suffix; characterised by Db.NoWhereIffNoFilter and Db.ActiveFieldsOrdered |
| Db.SearchParams | server_backend/app/db.py:216-252 | by definition: one bound value per truthy filter, under its own name; characterised by Db.SearchParamsExact and Db.SearchParamsKeys |
| Db.BuildSearchQuery | server_backend/app/db.py:215-259 | the built query and parameters are the search's specification |
| Db.NoWhereIffNoFilter | server_backend/app/db.py:254-257 | the query has no WHERE clause exactly when no filter is truthy |
| Db.ActiveFieldsMembership | server_backend/app/db.py:218-252 | a filter contributes a condition exactly when it is truthy (a UUID or date when given, a text when non-empty) |
| Db.ActiveFieldsOrdered | server_backend/app/db.py:219-252 | the conditions appear in the builder's fixed order, each at most once |
| Db.SearchParamsExact | server_backend/app/db.py:216-252 | a parameter is bound exactly for each truthy filter: the raw file id, `%v%` for text, the date itself for dates |
| Db.SearchParamsKeys | server_backend/app/db.py:216-252 | every bound parameter name belongs to a truthy filter |
| Db.FaultMessage | server_backend/app/db.py:139-169 | each kind of fault gets its handler's message prefix |
| Db.StoreFileMetadata | server_backend/app/db.py:108-169 | success exactly when the call meets no fault, and then the row is appended and the success status carries the id, summary and message; on a fault the catalog is unchanged and the message names the fault |
| Db.FindRow | server_backend/app/db.py:302-306 | finds the first row with the id, or reports that none has it |
| Db.GetFileMinioDetails | server_backend/app/db.py:284-327 | the fault re-raised when there is one; otherwise the location of a row with that id, or `None` exactly when no row has it |
| Db.StoreThenFind | server_backend/app/db.py:126-138 | after a successful store under a fresh id, the lookup finds the stored location |
| Db.StoreKeepsOthers | server_backend/app/db.py:126-127 | storing a row changes no lookup of another id |
| Db.FindRowAppend | server_backend/app/db.py:306 | appending a row with another id leaves the first match unchanged |
| Pipeline.StatObject | server_backend/app/main.py:85-97 | with no injected faults, a probe answers present exactly for stored keys and `NoSuchKey` otherwise |
| Pipeline.ProjectIdOf | server_backend/app/main.py:63 | a missing `research_project_id` reads as `""` |
| Pipeline.EffectiveContentType | server_backend/app/main.py:106 | a given non-empty content type is kept; otherwise `application/octet-stream` |
| Pipeline.DateConducted | server_backend/app/main.py:110-119 | a date only when the field is given and non-empty, and then exactly the parse result (an unparseable date gives none) |
| Pipeline.Plan | server_backend/app/main.py:70-82 | the counter's base and extension are the `splitext` of the sanitised name, the base non-empty and safe; the prefix is the project prefix joined with the folder prefix |
| Pipeline.DesiredKey | server_backend/app/main.py:74-77 | the desired key is the key tried at counter 0 |
| Pipeline.CounterInName | server_backend/app/main.py:87-89 | the name at a positive counter holds the counter's decimal form between the parentheses |
| Pipeline.CandidateNameInjective | server_backend/app/main.py:86-89 | different counters give different names |
| Pipeline.CandidateInjective | server_backend/app/main.py:86-92 | different counters give different keys |
| Pipeline.TriedStep | server_backend/app/main.py:83-92 | the key at counter `k` was not tried before `k` |
| Pipeline.Resolve | server_backend/app/main.py:83-97 | the probe loop stops at or after its start, on a key answered `NoSuchKey`, or on another S3 error whose code it reports |
| Pipeline.ResolvePassesPresent | server_backend/app/main.py:85-92 | every key probed before the loop stops is present |
| Pipeline.Probes | server_backend/app/main.py:85 | the trace of the first `k` probes, in counter order |
| Pipeline.RowOf | server_backend/app/main.py:124-138 | the row records the new id, the key written, the original name, its file type, the effective content type, the metadata fields, the parsed date, the size, the bucket and the ingestion time |
| Pipeline.Written | server_backend/app/main.py:100-107 | after the write the key holds the payload's size and content type, and every other object is unchanged |
| Pipeline.ComposeKey | server_backend/app/main.py:69-82 | the prefix, base and extension are the upload's plan, and the desired key is the counter-0 key |
| Pipeline.ResolveKey | server_backend/app/main.py:80-97 | the loop ends on the probe loop's final key, with the probes of every counter up to it, and reports an S3 error exactly when the loop stopped on one |
| Pipeline.WriteAndRecord | server_backend/app/main.py:99-146 | the write at the free key, then the insert, as the specification of the run after the probe loop says |
| Pipeline.Ingest | server_backend/app/main.py:50-146 | by definition: the plan, the probe loop, then the write and the insert, with the project id passed as `project_id`; characterised by Pipeline.IngestOutcomes, Pipeline.CommitSpec and the lemmas after them |
| Pipeline.IngestAsWritten | server_backend/app/main.py:50-146 | as written, the run raises in the sanitiser exactly for the empty file name, and then with no call to the store and nothing changed; otherwise it is the intended run up to the catalog call, which raises `TypeError` |
| Pipeline.ProcessAndStoreFile | server_backend/app/main.py:50-146 | the imperative pipeline computes the run `Ingest` specifies |
| Pipeline.IngestOutcomes | server_backend/app/main.py:83-146 | a probe error exactly when the loop stops on one; a write error exactly when the free key's write fails; a result otherwise; the intended catalog call never raises |
| Pipeline.ProbeErrorStops | server_backend/app/main.py:93-97 | a probe error other than `NoSuchKey` propagates after probes only: nothing written, nothing inserted |
| Pipeline.PutErrorStops | server_backend/app/main.py:100-107 | a failed write propagates after the probes and one write; no insert, store and catalog unchanged |
| Pipeline.IngestReachesCatalog | server_backend/app/main.py:99-146 | once a free key is found and can be written, the run writes there and then inserts |
| Pipeline.CommitSpec | server_backend/app/main.py:100-146 | the write then the insert, in that order; the object has the upload's size and content type; the row records the same key and content type; status and message are the catalog's |
| Pipeline.IngestStatusMirrorsCatalog | server_backend/app/main.py:124-146 | a returned result is `success` with the stored message and one new row when the catalog accepts, and `error` with the fault's message and no row when it fails |
| Pipeline.FinalKeyWasFree | server_backend/app/main.py:93-95 | the key written was answered `NoSuchKey` by the last probe, and the write follows that probe |
| Pipeline.DesiredKeyKeptWhenFree | server_backend/app/main.py:77-78 | when the desired key is free it is the key written |
| Pipeline.TriedCount | server_backend/app/main.py:83-92 | the first `k` counters name `k` distinct keys |
| Pipeline.LeastFreeCounter | server_backend/app/main.py:80-97 | without injected faults the loop stops at the least counter whose key is absent, which is at most the number of stored objects |
| Pipeline.NeverOverwrites | server_backend/app/main.py:80-107 | without injected faults a run never replaces an object: the key written was absent and every earlier object is kept |
| Pipeline.CandidateAtRoot | server_backend/app/main.py:90-92 | with no prefix the key is the name itself |
| Pipeline.CandidateUnderDirectory | server_backend/app/main.py:90-92 | under a prefix ending in `/` the key is the prefix followed by the name |
| Pipeline.OneCollisionExample | server_backend/app/main.py:86-92 | with `a.txt` taken, the next upload of `a.txt` goes to `a(1).txt` |
| Pipeline.TwoCollisionsExample | server_backend/app/main.py:87-89 | with `a.txt` and `a(1).txt` taken, the next goes to `a(2).txt`, rebuilt from the original base |
| Pipeline.PrefixedCollisionExample | server_backend/app/main.py:90-92 | under `proj/` the counter goes into the name: `proj/a(1).txt` |
| Pipeline.AsWrittenOrphansObject | server_backend/app/main.py:124-138 | as written, for a non-empty file name, once the object is written the catalog call raises `TypeError`: the object stays, no row is inserted |
| Pipeline.AsWrittenAgreesBeforeCatalog | server_backend/app/main.py:83-107 | for a non-empty file name, when a run fails before the catalog call, the code as written does exactly what the intended code does |
| Pipeline.AsWrittenEmptyNameRaises | server_backend/app/main.py:70 | as written, the empty file name raises in the sanitiser with no probe, write or insert and nothing changed, where the intended run starts by probing a key |
| Pipeline.IngestProbesDesiredFirst | server_backend/app/main.py:76-85 | the intended run's first call is the `stat_object` of the desired key |
| Endpoints.UploadFileCode | server_backend/app/main.py:185-195 | the reply code is 200 or 500 |
| Endpoints.UploadFileOk | server_backend/app/main.py:185-187 | a single upload is answered 200 exactly when a free key is found, written, and the catalog accepts the row |
| Endpoints.UploadFileAsWrittenFails | server_backend/app/main.py:177-195 | as written every single upload is answered 500 |
| Endpoints.Suffix | server_backend/app/main.py:247 | the suffix is non-empty exactly when the name's last dot is neither its first nor its last character, and is then the name from that dot on |
| Endpoints.EligibleNarrows | server_backend/app/main.py:244-248 | the intended filter keeps only entries the written filter keeps |
| Endpoints.EligibleAsWritten | server_backend/app/main.py:244-247 | by definition: a regular file whose own name does not start with `__MACOSX` and whose suffix is not `.zip` |
| Endpoints.Eligible | server_backend/app/main.py:244-247 | the intended filter holds exactly when the written filter holds and no directory above the file starts with `__MACOSX` |
| Endpoints.MacResourceForkIngestedAsWritten | server_backend/app/main.py:246 | `__MACOSX/._a.csv` passes the filter as written but not the intended one |
| Endpoints.ArchiveSkipped | server_backend/app/main.py:247 | a file named `*.zip` is never ingested |
| Endpoints.FolderPrefix | server_backend/app/main.py:224-227 | the batch folder is longer than its `_` and eight UUID digits |
| Endpoints.FolderPrefixShape | server_backend/app/main.py:224-227 | the batch folder is the sanitised archive base, `_` and the first eight UUID digits, and it has no `/` |
| Endpoints.SanitizedHasNoSlash | server_backend/app/utils.py:18-36 | a sanitised name is non-empty and has no `/` |
| Endpoints.PartsHaveNoSlash | server_backend/app/utils.py:18-36 | a safe base followed by a dot-and-alphanumerics extension has no `/` |
| Endpoints.Absorb | server_backend/app/main.py:251-259 | a returned result is appended; an exception is recorded and stops the batch; calls, store and catalog carry over |
| Endpoints.FanOutStopped | server_backend/app/main.py:267-273 | once an exception stops the batch, later entries change nothing |
| Endpoints.FanOut | server_backend/app/main.py:243-259 | by definition: the walk's entries in order, each kept entry ingested under the batch folder and absorbed, the first exception freezing the batch; characterised by the lemmas below |
| Endpoints.Kept | server_backend/app/main.py:243-248 | the kept entries, in walk order, all satisfy the filter |
| Endpoints.KeptStep | server_backend/app/main.py:243-248 | the kept entries of a longer walk are those of the shorter one, plus the last entry when it is kept |
| Endpoints.OneResultPerKeptFile | server_backend/app/main.py:243-261 | a batch that runs to the end has one result per kept entry, in walk order, each naming its entry's file |
| Endpoints.NoResultsWhenNeverReturns | server_backend/app/main.py:243-273 | with a pipeline that never returns, there are no results, and the batch stops exactly when some entry is kept |
| Endpoints.BatchSharesFolder | server_backend/app/main.py:257 | every key of a batch starts with the project prefix joined with the batch folder, followed by `/` when the folder is one path segment |
| Endpoints.BatchKeysDistinct | server_backend/app/main.py:243-259 | without injected faults the files of a batch get pairwise different keys, all present afterwards, and no earlier object is replaced |
| Endpoints.IngestNamesItsFile | server_backend/app/main.py:140-146 | the intended pipeline's result names its file, and its key starts with the upload's joined prefixes, followed by `/` when the folder prefix is one path segment |
| Endpoints.CandidateUnderPrefix | server_backend/app/main.py:90-92 | every key tried starts with the joined prefix, followed by `/` when that prefix is non-empty and does not end in one |
| Endpoints.JoinSegment | server_backend/app/main.py:74 | joining a one-segment folder prefix gives a non-empty prefix not ending in `/` |
| Endpoints.IngestWritesFreshKeys | server_backend/app/main.py:80-107 | the intended pipeline keeps every object and writes its result at a previously absent key |
| Endpoints.AsWrittenNeverReturns | server_backend/app/main.py:124-138 | the pipeline as written never returns a result |
| Endpoints.FolderUploadResults | server_backend/app/main.py:243-261 | the intended folder upload, run to the end, has one result per eligible file in walk order, all under the batch folder, inside the folder when it is one segment, with pairwise different keys when the store has no injected faults |
| Endpoints.FolderBatchInsideFolder | server_backend/app/main.py:224-259 | with the folder named as the handler names it, every key of the batch starts with the joined prefix and `/`, so it lies inside the batch folder |
| Endpoints.FolderUploadAsWrittenFails | server_backend/app/main.py:243-273 | as written, a folder upload reports no result, and any archive with an eligible entry is answered 500 |
| Endpoints.FolderReplyOf | server_backend/app/main.py:261-273 | 200 with the results exactly when the batch ran to the end; 500 otherwise |
| Endpoints.IngestEntry | server_backend/app/main.py:244-259 | one step of the walk: filter, ingest, then append or stop, as the batch specification says |
| Endpoints.UploadFolder | server_backend/app/main.py:224-273 | the batch folder is `FolderPrefix` of the archive name, UUID and clock; an archive that does not open gives 400; otherwise the loop computes the batch of `FanOut` under that folder and its reply |
| Endpoints.SearchFilesEndpoint | server_backend/app/main.py:310-324 | the built query and parameters are executed; the rows come back on success, and a database error gives 500 |
| Endpoints.SearchEndpointAsWritten | server_backend/app/main.py:310-324 | by definition: the constant 500 reply, since the call raises `TypeError` at binding before any query is built |
| Endpoints.SearchAsWrittenAlwaysFails | server_backend/app/main.py:311-324 | as written every search is answered 500, even when the database would answer the query |

## Left out

- HTTP routing, the `/status` and `/download/{file_id}` endpoints, the 503 guard on a missing MinIO client, and the streamed payload: outside the ingestion core. A payload is modelled by its size only.
- YAML decoding (`yaml.safe_load`) and the 400 reply for malformed metadata: a handler receives the decoded dictionary. Non-string YAML values (numbers, lists) are not modelled; a field is a string or `null`.
- Zip extraction, the temporary directory, `shutil` and the filesystem: the folder handler receives the entries of the walk, in walk order, or `None` for an archive that does not open. The order of `rglob` is an input, not computed.
- `pathlib` is modelled only for `.name` and `.suffix`, the parts the filter reads.
- The clock (`utcnow`, `now`), `uuid4` and `strptime`: parameters in `Env`; `strptime` is a function that may fail.
- Logging, concurrency and `async`: no effect on results; the fan-out is sequential, as the source awaits each file in turn.
- `minio_client.py`, `config.py` and `get_pg_connection`: connection set-up. A connection failure is the `ConnectionFault` of the catalog value.
- PostgreSQL's evaluation of the query (ILIKE matching, ORDER BY, LIMIT 100): the search endpoint takes the database as an `Executor` function on the query text and parameters.
- The object store and the catalog are values passed in and handed back, not shared mutable objects: there is no aliasing between requests.
- Unicode: `isalnum`, `isspace` and `upper` are their ASCII restrictions.
- Text.LStrip: its own contract only bounds the length; what it removes and keeps is stated by Text.LStripSpec.
- Text.RStrip: its own contract only bounds the length; the full property is Text.RStripSpec.
- Utils.LStripSpace: its own contract only bounds the length; the full property is Utils.LStripSpaceSpec.
- Utils.RStripSpace: its own contract only bounds the length; the full property is Utils.RStripSpaceSpec.
- Utils.KeepAlnum: its own contract does not say that every alphanumeric is kept in order; that is Utils.KeepAlnumAppend with Utils.KeepAlnumUnit.
- Utils.Stamp: its own contract gives digits and length only; the field layout is Utils.StampFields, for an instant within calendar ranges (the only kind a clock reports).
- Utils.FallbackName: its own contract says only that digits follow `upload_`; that they are `Stamp(now)` is Utils.FallbackNameStamp, kept apart so that callers of the sanitiser do not carry the timestamp's layout.
- Utils.SanitizeFilename: its own contract states only how the result splits; the character-level promise is Utils.SanitizeFilenameSpec.
- Endpoints.UploadFolder: names the folder with the intended sanitiser; as written, an archive whose name has an empty `splitext` base makes `sanitize_filename` raise before the handler's `try` (the utils.py:24 finding).
- Catalog faults are sticky within a batch: a batch where one insert fails on a connection fault and a later one succeeds is not expressible, although the source opens a new connection per call.
- Db.AddFilter: one method stands for the eight near-identical `if` blocks of the builder, called once per filter in source order.
- Pipeline.ComposeKey, Pipeline.ResolveKey, Pipeline.WriteAndRecord and Endpoints.IngestEntry: the bodies of `process_and_store_file` and of the fan-out loop split into steps; the source has them inline.

## Findings

| source | as written | input that shows it | evidently intended | confidence | as-written member | corrected member |
|---|---|---|---|---|---|---|
| server_backend/app/utils.py:24 | the fallback name calls `datetime.datetime.utc()`, which does not exist, so the sanitiser raises `AttributeError` | file name `""` (its `splitext` base is empty) | `upload_` followed by the UTC timestamp | not executed | Utils.EmptyNameRaisesAsWritten | Utils.SanitizeFilename |
| server_backend/app/main.py:135 | the catalog call passes `research_project_id=`, a keyword `store_file_metadata_in_db` does not declare, so it raises `TypeError` after the object is written | any upload with a non-empty file name whose free key can be written | pass the id as `project_id=` and return the catalog's status | not executed | Pipeline.AsWrittenOrphansObject | Pipeline.ProcessAndStoreFile |
| server_backend/app/main.py:313 | the search endpoint passes `research_project_id=`, a keyword `search_files_in_db` does not declare, so every search raises `TypeError` and is answered 500 | any search, e.g. with no filter | pass the filter as `project_id=` | not executed | Endpoints.SearchAsWrittenAlwaysFails | Endpoints.SearchFilesEndpoint |
| server_backend/app/main.py:246 | the `__MACOSX` check looks only at the file's own name, so macOS resource-fork copies under `__MACOSX/` are ingested | entry `__MACOSX/._a.csv` | skip everything inside a `__MACOSX` directory | not executed | Endpoints.MacResourceForkIngestedAsWritten | Endpoints.Eligible, Endpoints.FolderUploadResults |
