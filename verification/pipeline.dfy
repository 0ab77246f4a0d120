/**
 * The ingestion pipeline of `server_backend/app/main.py`
 * (`process_and_store_file`): compose the desired object key, probe the
 * object store until a free key is found, write the object, then insert the
 * catalog row.  The object store and the catalog are values passed in and
 * handed back, and every call the pipeline makes on them is recorded in an
 * effect trace.
 */
module Pipeline {
  import opened Wrappers
  import opened Text
  import opened PosixPath
  import opened Utils
  import opened Db

  // ---------------------------------------------------------------------
  // The object store
  // ---------------------------------------------------------------------

  /** What the store keeps for an object: its length and its content type. */
  datatype StoredObject = StoredObject(size: nat, contentType: string)

  /**
   * The bucket the pipeline writes to: its objects by key, the S3 error code
   * `stat_object` meets on some keys regardless of their presence, and the
   * error `put_object` meets on some keys.
   */
  datatype ObjectStore = ObjectStore(
    objects: map<string, StoredObject>,
    statFaults: map<string, string>,
    putFaults: map<string, string>)

  /** A store whose probes answer only from its contents. */
  predicate Faultless(st: ObjectStore) {
    st.statFaults == map[]
  }

  /** The outcome of `stat_object`: the object exists, or an `S3Error` with its code. */
  datatype Probe = Present | S3Error(code: string)

  const NoSuchKey: string := "NoSuchKey"

  function StatObject(st: ObjectStore, key: string): (r: Probe)
    ensures Faultless(st) ==> (r == Present <==> key in st.objects)
    ensures Faultless(st) && r.S3Error? ==> r.code == NoSuchKey
  {
    if key in st.statFaults then S3Error(st.statFaults[key])
    else if key in st.objects then Present
    else S3Error(NoSuchKey)
  }

  /** A call the pipeline makes on the store or the catalog, in the order made. */
  datatype Effect = Stat(key: string) | Put(key: string) | Insert(fileId: string)

  // ---------------------------------------------------------------------
  // Inputs
  // ---------------------------------------------------------------------

  /** The decoded YAML metadata: a value, or YAML `null`, per key. */
  type Metadata = map<string, Option<string>>

  /** `user_metadata.get(key)`: `None` for a missing key or a null value. */
  function MetaField(meta: Metadata, key: string): Option<string> {
    if key in meta then meta[key] else None
  }

  /** `user_metadata.get("research_project_id", "")`. */
  function ProjectIdOf(meta: Metadata): (r: Option<string>)
    ensures "research_project_id" !in meta ==> r == Some("")
  {
    if "research_project_id" in meta then meta["research_project_id"] else Some("")
  }

  /** One file handed to the pipeline. */
  datatype Upload = Upload(
    filename: string,
    contentType: Option<string>,
    size: nat,
    metadata: Metadata,
    folderPrefix: string)

  /**
   * What the pipeline reads from its surroundings: the configured bucket, the
   * clock as the sanitiser reads it and at ingestion, the fresh UUID, and
   * `strptime(s, "%Y-%m-%d")` as a function that fails with `None`.
   */
  datatype Env = Env(
    bucket: string,
    sanitizeNow: Instant,
    ingestionTime: Instant,
    newFileId: string,
    parseDate: string -> Option<Date>)

  const DefaultContentType: string := "application/octet-stream"

  /** `content_type or "application/octet-stream"`. */
  function EffectiveContentType(ct: Option<string>): (r: string)
    ensures ct.Some? && ct.value != "" ==> r == ct.value
    ensures ct.None? || ct.value == "" ==> r == DefaultContentType
  {
    if ct.Some? && ct.value != "" then ct.value else DefaultContentType
  }

  /** The date conducted: parsed when given and non-empty, `None` when absent,
      empty or unparseable. */
  function DateConducted(meta: Metadata, parseDate: string -> Option<Date>): (r: Option<Date>)
    ensures r.Some? ==> Truthy(MetaField(meta, "date_conducted"))
    ensures Truthy(MetaField(meta, "date_conducted")) ==> r == parseDate(MetaField(meta, "date_conducted").value)
  {
    var s := MetaField(meta, "date_conducted");
    if Truthy(s) then parseDate(s.value) else None
  }

  // ---------------------------------------------------------------------
  // Keys
  // ---------------------------------------------------------------------

  /** Where the key of an upload comes from: the joined prefixes and the
      sanitised name split into base and extension. */
  datatype KeyPlan = KeyPlan(prefix: string, base: string, ext: string)

  function Plan(u: Upload, env: Env): (p: KeyPlan)
    ensures p.base != [] && AllSafe(p.base)
    ensures p.base + p.ext == SanitizeFilename(u.filename, env.sanitizeNow)
    ensures (p.base, p.ext) == SplitExt(SanitizeFilename(u.filename, env.sanitizeNow))
    ensures p.prefix == Join(SanitizeProjectId(ProjectIdOf(u.metadata)), u.folderPrefix)
  {
    var preferred := SanitizeFilename(u.filename, env.sanitizeNow);
    var (base, ext) := SplitExt(preferred);
    KeyPlan(Join(SanitizeProjectId(ProjectIdOf(u.metadata)), u.folderPrefix), base, ext)
  }

  /** The name tried at counter `k`: the sanitised name itself at 0, `base(k)ext` after. */
  function CandidateName(p: KeyPlan, k: nat): string {
    if k == 0 then p.base + p.ext else p.base + "(" + Dec(k) + ")" + p.ext
  }

  /** The key tried at counter `k`, always under the same prefix. */
  function Candidate(p: KeyPlan, k: nat): string {
    Join(p.prefix, CandidateName(p, k))
  }

  /** The desired key: the project prefix, the folder prefix and the sanitised
      name, joined as `os.path.join` does. */
  function DesiredKey(u: Upload, env: Env): (r: string)
    ensures r == Candidate(Plan(u, env), 0)
  {
    Join(Join(SanitizeProjectId(ProjectIdOf(u.metadata)), u.folderPrefix), SanitizeFilename(u.filename, env.sanitizeNow))
  }

  /** The decimal form of a positive counter sits between the parentheses. */
  lemma {:induction false} CounterInName(p: KeyPlan, k: nat)
    requires k != 0
    ensures var x := CandidateName(p, k);
      |x| == |p.base| + |Dec(k)| + 2 + |p.ext| && x[|p.base| + 1..|p.base| + 1 + |Dec(k)|] == Dec(k)
  {
    var x := CandidateName(p, k);
    assert x == p.base + "(" + Dec(k) + ")" + p.ext;
    assert x[|p.base| + 1..|p.base| + 1 + |Dec(k)|] == (p.base + "(" + Dec(k))[|p.base| + 1..];
  }

  /** Different counters give different names. */
  lemma {:induction false} CandidateNameInjective(p: KeyPlan, i: nat, j: nat)
    requires CandidateName(p, i) == CandidateName(p, j)
    ensures i == j
  {
    if i != 0 {
      CounterInName(p, i);
    }
    if j != 0 {
      CounterInName(p, j);
    }
    if i != 0 && j != 0 {
      DecInjective(i, j);
    }
  }

  /** Different counters give different keys. */
  lemma {:induction false} CandidateInjective(p: KeyPlan, i: nat, j: nat)
    requires p.base != []
    requires Candidate(p, i) == Candidate(p, j)
    ensures i == j
  {
    var x, y := CandidateName(p, i), CandidateName(p, j);
    assert StartsWith(x, "/") == StartsWith(y, "/") by {
      assert x[0] == p.base[0] == y[0];
    }
    JoinInjective(p.prefix, x, y);
    CandidateNameInjective(p, i, j);
  }

  /** The keys probed before counter `k`. */
  function Tried(p: KeyPlan, k: nat): set<string> {
    set j | 0 <= j < k :: Candidate(p, j)
  }

  lemma {:induction false} TriedStep(p: KeyPlan, k: nat)
    requires p.base != []
    ensures Candidate(p, k) !in Tried(p, k)
    ensures Tried(p, k + 1) == Tried(p, k) + {Candidate(p, k)}
  {
    if Candidate(p, k) in Tried(p, k) {
      var j :| 0 <= j < k && Candidate(p, j) == Candidate(p, k);
      CandidateInjective(p, j, k);
    }
  }

  /** `TriedStep` read backwards, from counter `k` to the one before it. */
  lemma {:induction false} TriedBack(p: KeyPlan, k: nat)
    requires p.base != [] && k > 0
    ensures Candidate(p, k - 1) !in Tried(p, k - 1)
    ensures Tried(p, k) == Tried(p, k - 1) + {Candidate(p, k - 1)}
    ensures |Tried(p, k)| == |Tried(p, k - 1)| + 1
  {
    TriedStep(p, k - 1);
    forall x | x in Tried(p, k)
      ensures x in Tried(p, k - 1) + {Candidate(p, k - 1)}
    {
      var j :| 0 <= j < k && x == Candidate(p, j);
      if j < k - 1 {
        assert x in Tried(p, k - 1);
      }
    }
  }

  /** How the probe loop ends: a free key at counter `n`, or a probe error there. */
  datatype Resolution = Free(n: nat) | StatFailed(n: nat, code: string)

  /**
   * The probe loop from counter `k` on: a present key moves to the next
   * counter, `NoSuchKey` stops at a free key, any other code stops with that
   * error.  It ends because every present key probed is a distinct key of the
   * finite store.
   */
  function Resolve(st: ObjectStore, p: KeyPlan, k: nat): (r: Resolution)
    requires p.base != []
    ensures r.n >= k
    ensures r.Free? ==> StatObject(st, Candidate(p, r.n)) == S3Error(NoSuchKey)
    ensures r.StatFailed? ==> StatObject(st, Candidate(p, r.n)) == S3Error(r.code) && r.code != NoSuchKey
    decreases st.objects.Keys - Tried(p, k)
  {
    var key := Candidate(p, k);
    match StatObject(st, key)
    case Present =>
      TriedStep(p, k);
      Resolve(st, p, k + 1)
    case S3Error(code) =>
      if code == NoSuchKey then Free(k) else StatFailed(k, code)
  }

  /** Every key probed before the loop ends is present. */
  lemma {:induction false} ResolvePassesPresent(st: ObjectStore, p: KeyPlan, k: nat, j: nat)
    requires p.base != []
    requires k <= j < Resolve(st, p, k).n
    ensures StatObject(st, Candidate(p, j)) == Present
    decreases st.objects.Keys - Tried(p, k)
  {
    TriedStep(p, k);
    if j > k {
      ResolvePassesPresent(st, p, k + 1, j);
    }
  }

  /** The probe loop as the pipeline runs it, from counter 0. */
  function ProbeLoop(st: ObjectStore, p: KeyPlan): Resolution
    requires p.base != []
  {
    Resolve(st, p, 0)
  }

  /** The probes of the counters below `k`, in order. */
  function Probes(p: KeyPlan, k: nat): (r: seq<Effect>)
    ensures |r| == k
    ensures forall j :: 0 <= j < k ==> r[j] == Stat(Candidate(p, j))
  {
    seq(k, j requires 0 <= j < k => Stat(Candidate(p, j)))
  }

  lemma {:induction false} ProbesStep(p: KeyPlan, k: nat)
    ensures Probes(p, k + 1) == Probes(p, k) + [Stat(Candidate(p, k))]
  {
  }

  // ---------------------------------------------------------------------
  // The pipeline
  // ---------------------------------------------------------------------

  /** The dictionary `process_and_store_file` returns. */
  datatype FileResult = FileResult(
    status: string,
    originalFilename: string,
    finalObjectName: string,
    fileId: string,
    message: string)

  /** An exception that escapes `process_and_store_file`. */
  datatype Raised =
    | ProbeError(key: string, code: string)
    | PutError(key: string, error: string)
    | StoreCallTypeError
    | SanitizerError(error: string)

  /** A run of the pipeline: its return or exception, the calls it made, and
      the store and catalog it leaves. */
  datatype Ingestion = Ingestion(
    outcome: Result<FileResult, Raised>,
    effects: seq<Effect>,
    store: ObjectStore,
    catalog: Catalog)

  /** The catalog row of an upload written at `key`. */
  function RowOf(u: Upload, env: Env, key: string): (row: Row)
    ensures row.fileId == env.newFileId && row.objectPath == key && row.fileName == u.filename
    ensures row.contentType == EffectiveContentType(u.contentType)
    ensures row.projectId == ProjectIdOf(u.metadata)
    ensures row.author == MetaField(u.metadata, "author")
    ensures row.experimentType == MetaField(u.metadata, "experiment_type")
    ensures row.customTags == MetaField(u.metadata, "custom_tags")
    ensures row.dateConducted == DateConducted(u.metadata, env.parseDate)
    ensures row.fileType == GetFileExtension(u.filename)
    ensures row.sizeBytes == u.size && row.bucket == env.bucket && row.uploadTimestamp == env.ingestionTime
  {
    Row(env.newFileId, ProjectIdOf(u.metadata), u.filename, GetFileExtension(u.filename),
        EffectiveContentType(u.contentType), MetaField(u.metadata, "experiment_type"),
        MetaField(u.metadata, "author"), DateConducted(u.metadata, env.parseDate), u.size,
        env.bucket, key, env.ingestionTime, MetaField(u.metadata, "custom_tags"))
  }

  /** The status and message of the catalog's answer. */
  function StatusOf(out: StoreOutcome): string {
    if out.StoreSuccess? then "success" else "error"
  }

  /** The store after `put_object` of the upload at `key`. */
  function Written(st: ObjectStore, key: string, u: Upload): (st': ObjectStore)
    ensures key in st'.objects && st'.objects[key] == StoredObject(u.size, EffectiveContentType(u.contentType))
    ensures forall k :: k in st.objects && k != key ==> k in st'.objects && st'.objects[k] == st.objects[k]
    ensures st'.objects.Keys == st.objects.Keys + {key}
    ensures st'.statFaults == st.statFaults && st'.putFaults == st.putFaults
  {
    st.(objects := st.objects[key := StoredObject(u.size, EffectiveContentType(u.contentType))])
  }

  /** The write and the insert at a resolved free key, after the probes. */
  function Commit(st: ObjectStore, cat: Catalog, u: Upload, env: Env, key: string, probes: seq<Effect>): Ingestion {
    if key in st.putFaults then
      Ingestion(Failure(PutError(key, st.putFaults[key])), probes + [Put(key)], st, cat)
    else
      var (cat', out) := StoreFileMetadata(cat, RowOf(u, env, key));
      var result := FileResult(StatusOf(out), u.filename, key, env.newFileId, out.message);
      Ingestion(Success(result), probes + [Put(key), Insert(env.newFileId)], Written(st, key, u), cat')
  }

  /** The run after the probe loop has ended as `res` says. */
  function Settle(st: ObjectStore, cat: Catalog, u: Upload, env: Env, p: KeyPlan, res: Resolution): Ingestion {
    if res.Free? then Commit(st, cat, u, env, Candidate(p, res.n), Probes(p, res.n + 1))
    else Ingestion(Failure(ProbeError(Candidate(p, res.n), res.code)), Probes(p, res.n + 1), st, cat)
  }

  /**
   * `process_and_store_file` with the catalog call its authors intended
   * (the project id passed as `project_id`).
   */
  function Ingest(st: ObjectStore, cat: Catalog, u: Upload, env: Env): Ingestion {
    Settle(st, cat, u, env, Plan(u, env), ProbeLoop(st, Plan(u, env)))
  }

  /**
   * `process_and_store_file` as written: the sanitiser as written raises for
   * the empty file name before any call to the store; otherwise the catalog
   * call passes the keyword `research_project_id`, which
   * `store_file_metadata_in_db` does not accept, so once the object is
   * written the call raises `TypeError` and no row is inserted.
   */
  function IngestAsWritten(st: ObjectStore, cat: Catalog, u: Upload, env: Env): (r: Ingestion)
    ensures r.outcome.Failure? && r.outcome.error.SanitizerError? <==> u.filename == ""
    ensures u.filename == "" ==> r.effects == [] && r.store == st && r.catalog == cat
  {
    var named := SanitizeFilenameAsWritten(u.filename);
    if named.Failure? then Ingestion(Failure(SanitizerError(named.error)), [], st, cat)
    else SettleAsWritten(st, cat, u, env, Plan(u, env), ProbeLoop(st, Plan(u, env)))
  }

  /** The run as written after the probe loop has ended as `res` says: up to
      the catalog call it is the intended run. */
  function SettleAsWritten(st: ObjectStore, cat: Catalog, u: Upload, env: Env, p: KeyPlan, res: Resolution): Ingestion {
    if res.Free? && Candidate(p, res.n) !in st.putFaults then
      Ingestion(Failure(StoreCallTypeError), Probes(p, res.n + 1) + [Put(Candidate(p, res.n))],
                Written(st, Candidate(p, res.n), u), cat)
    else
      Settle(st, cat, u, env, p, res)
  }

  /**
   * The key composition of `process_and_store_file`: the sanitised name, the
   * sanitised project prefix joined with the folder prefix, the desired key
   * under that prefix, and the name's base and extension for the counter.
   */
  method ComposeKey(u: Upload, env: Env) returns (fullPrefix: string, base: string, ext: string, desired: string)
    ensures KeyPlan(fullPrefix, base, ext) == Plan(u, env)
    ensures desired == DesiredKey(u, env)
  {
    var preferred := SanitizeFilename(u.filename, env.sanitizeNow);
    var projectIdPrefix := SanitizeProjectId(ProjectIdOf(u.metadata));
    fullPrefix := Join(projectIdPrefix, u.folderPrefix);
    desired := Join(fullPrefix, preferred);
    base, ext := SplitExt(preferred).0, SplitExt(preferred).1;
  }

  /**
   * The probe loop of `process_and_store_file`: starting from the desired
   * key, probe; on a present key count up and rebuild the name from the
   * original base and extension under the same prefix; stop at `NoSuchKey`,
   * or with the code of any other error.  Every probe is recorded.
   */
  method ResolveKey(st: ObjectStore, fullPrefix: string, base: string, ext: string, desired: string)
    returns (finalName: string, probes: seq<Effect>, error: Option<string>)
    requires base != []
    requires desired == Candidate(KeyPlan(fullPrefix, base, ext), 0)
    ensures var p := KeyPlan(fullPrefix, base, ext);
      var res := ProbeLoop(st, p);
      && finalName == Candidate(p, res.n)
      && probes == Probes(p, res.n + 1)
      && error == (if res.Free? then None else Some(res.code))
  {
    ghost var p := KeyPlan(fullPrefix, base, ext);
    finalName := desired;
    probes := [];
    var counter := 0;
    while true
      invariant finalName == Candidate(p, counter)
      invariant probes == Probes(p, counter)
      invariant Resolve(st, p, counter) == ProbeLoop(st, p)
      decreases st.objects.Keys - Tried(p, counter)
    {
      ProbesStep(p, counter);
      probes := probes + [Stat(finalName)];
      var probe := StatObject(st, finalName);
      if probe.Present? {
        TriedStep(p, counter);
        counter := counter + 1;
        finalName := Join(fullPrefix, base + "(" + Dec(counter) + ")" + ext);
      } else if probe.code == NoSuchKey {
        error := None;
        break;
      } else {
        error := Some(probe.code);
        break;
      }
    }
  }

  /**
   * The steps of `process_and_store_file` after the probe loop: the object
   * write at the free key (a failure propagates and nothing is inserted),
   * the file type and date, and the catalog insert, whose status and message
   * are passed back.
   */
  method WriteAndRecord(st: ObjectStore, cat: Catalog, u: Upload, env: Env, finalName: string, probes: seq<Effect>,
                        ghost p: KeyPlan, ghost res: Resolution)
    returns (r: Ingestion)
    requires res.Free? && finalName == Candidate(p, res.n) && probes == Probes(p, res.n + 1)
    ensures r == Settle(st, cat, u, env, p, res)
  {
    assert Settle(st, cat, u, env, p, res) == Commit(st, cat, u, env, finalName, probes);
    var effects := probes;
    if finalName in st.putFaults {
      r := Ingestion(Failure(PutError(finalName, st.putFaults[finalName])), effects + [Put(finalName)], st, cat);
      return;
    }
    // put_object: the store now holds the payload under the final key.
    var contentType := EffectiveContentType(u.contentType);
    var st' := Written(st, finalName, u);
    effects := effects + [Put(finalName)];

    var fileType := GetFileExtension(u.filename);
    var dateConducted := DateConducted(u.metadata, env.parseDate);
    var row := Row(env.newFileId, ProjectIdOf(u.metadata), u.filename, fileType, contentType,
                   MetaField(u.metadata, "experiment_type"), MetaField(u.metadata, "author"),
                   dateConducted, u.size, env.bucket, finalName, env.ingestionTime,
                   MetaField(u.metadata, "custom_tags"));
    var (cat', out) := StoreFileMetadata(cat, row);
    effects := effects + [Insert(env.newFileId)];
    r := Ingestion(Success(FileResult(StatusOf(out), u.filename, finalName, env.newFileId, out.message)),
                   effects, st', cat');
    assert row == RowOf(u, env, finalName);
  }

  /**
   * `process_and_store_file` (with the intended catalog call), step by step:
   * the key composition, the probe loop, the write, then the insert.
   */
  method ProcessAndStoreFile(st: ObjectStore, cat: Catalog, u: Upload, env: Env) returns (r: Ingestion)
    ensures r == Ingest(st, cat, u, env)
  {
    var fullPrefix, base, ext, desired := ComposeKey(u, env);
    var finalName, effects, error := ResolveKey(st, fullPrefix, base, ext, desired);
    if error.Some? {
      r := Ingestion(Failure(ProbeError(finalName, error.value)), effects, st, cat);
      return;
    }
    ghost var p := KeyPlan(fullPrefix, base, ext);
    r := WriteAndRecord(st, cat, u, env, finalName, effects, p, ProbeLoop(st, p));
  }

  // ---------------------------------------------------------------------
  // What the pipeline promises
  // ---------------------------------------------------------------------

  /**
   * How a run ends: a probe error exactly when the probe loop stops on one,
   * a write error exactly when the free key's write fails, a returned
   * result otherwise; the intended catalog call never raises.
   */
  lemma {:induction false} IngestOutcomes(st: ObjectStore, cat: Catalog, u: Upload, env: Env)
    ensures var p := Plan(u, env); var res := ProbeLoop(st, p); var r := Ingest(st, cat, u, env);
      && (r.outcome.Failure? && r.outcome.error.ProbeError? <==> res.StatFailed?)
      && (r.outcome.Failure? && r.outcome.error.PutError? <==> res.Free? && Candidate(p, res.n) in st.putFaults)
      && (r.outcome.Success? <==> res.Free? && Candidate(p, res.n) !in st.putFaults)
      && r.outcome != Failure(StoreCallTypeError)
  {
    assert Ingest(st, cat, u, env) == Settle(st, cat, u, env, Plan(u, env), ProbeLoop(st, Plan(u, env)));
  }

  /**
   * A probe error other than `NoSuchKey` propagates at once: the run made
   * only probes, wrote nothing and inserted nothing.
   */
  lemma {:induction false} ProbeErrorStops(st: ObjectStore, cat: Catalog, u: Upload, env: Env)
    requires ProbeLoop(st, Plan(u, env)).StatFailed?
    ensures var p := Plan(u, env); var res := ProbeLoop(st, p); var r := Ingest(st, cat, u, env);
      && r.outcome == Failure(ProbeError(Candidate(p, res.n), res.code))
      && res.code != NoSuchKey
      && |r.effects| == res.n + 1
      && (forall i :: 0 <= i < |r.effects| ==> r.effects[i] == Stat(Candidate(p, i)))
      && r.store == st && r.catalog == cat
  {
    assert Ingest(st, cat, u, env) == Settle(st, cat, u, env, Plan(u, env), ProbeLoop(st, Plan(u, env)));
  }

  /**
   * A failed write propagates: the probes, then one write at the free key,
   * and no insert; the store and the catalog are as before.
   */
  lemma {:induction false} PutErrorStops(st: ObjectStore, cat: Catalog, u: Upload, env: Env)
    requires ProbeLoop(st, Plan(u, env)).Free?
    requires Candidate(Plan(u, env), ProbeLoop(st, Plan(u, env)).n) in st.putFaults
    ensures var p := Plan(u, env); var n := ProbeLoop(st, p).n; var key := Candidate(p, n);
      var r := Ingest(st, cat, u, env);
      && r.outcome == Failure(PutError(key, st.putFaults[key]))
      && r.effects == Probes(p, n + 1) + [Put(key)]
      && r.store == st && r.catalog == cat
  {
    assert Ingest(st, cat, u, env) == Settle(st, cat, u, env, Plan(u, env), ProbeLoop(st, Plan(u, env)));
  }

  /** A run whose probe loop finds a free key that can be written goes on
      to the write and the insert at that key, after the probes. */
  lemma {:induction false} IngestReachesCatalog(st: ObjectStore, cat: Catalog, u: Upload, env: Env)
    requires ProbeLoop(st, Plan(u, env)).Free?
    requires Candidate(Plan(u, env), ProbeLoop(st, Plan(u, env)).n) !in st.putFaults
    ensures Ingest(st, cat, u, env)
         == Commit(st, cat, u, env, Candidate(Plan(u, env), ProbeLoop(st, Plan(u, env)).n),
                   Probes(Plan(u, env), ProbeLoop(st, Plan(u, env)).n + 1))
  {
    assert Ingest(st, cat, u, env) == Settle(st, cat, u, env, Plan(u, env), ProbeLoop(st, Plan(u, env)));
  }

  /**
   * The write and the insert at a key that can be written: after the
   * probes, one write at the key, then one insert of the new file id; the
   * object written has the upload's size and effective content type; the
   * row records the same key and content type; the status and message are
   * the catalog's.
   */
  lemma {:induction false} CommitSpec(st: ObjectStore, cat: Catalog, u: Upload, env: Env, key: string, probes: seq<Effect>)
    requires key !in st.putFaults
    ensures var r := Commit(st, cat, u, env, key, probes); var row := RowOf(u, env, key);
      && r.outcome.Success?
      && r.outcome.value.finalObjectName == key
      && r.outcome.value.originalFilename == u.filename
      && r.outcome.value.fileId == env.newFileId
      && r.effects == probes + [Put(key), Insert(env.newFileId)]
      && r.store.objects == st.objects[key := StoredObject(u.size, EffectiveContentType(u.contentType))]
      && r.store.statFaults == st.statFaults && r.store.putFaults == st.putFaults
      && row.objectPath == key && row.contentType == r.store.objects[key].contentType
      && r.catalog == StoreFileMetadata(cat, row).0
      && r.outcome.value.message == StoreFileMetadata(cat, row).1.message
      && (r.outcome.value.status == "success" <==> StoreFileMetadata(cat, row).1.StoreSuccess?)
  {
  }

  /**
   * With a catalog that accepts the insert, the run reports success with the
   * catalog's message, and the catalog gains exactly the new row; with one
   * that fails, the run reports an error and the catalog is unchanged.
   */
  lemma {:induction false} IngestStatusMirrorsCatalog(st: ObjectStore, cat: Catalog, u: Upload, env: Env)
    requires Ingest(st, cat, u, env).outcome.Success?
    ensures var r := Ingest(st, cat, u, env); var res := r.outcome.value;
      && (cat.fault.None? ==>
            res.status == "success" && res.message == StoredMessage
            && r.catalog.rows == cat.rows + [RowOf(u, env, res.finalObjectName)])
      && (cat.fault.Some? ==>
            res.status == "error" && res.message == FaultMessage(cat.fault.value) && r.catalog == cat)
  {
    assert Ingest(st, cat, u, env) == Settle(st, cat, u, env, Plan(u, env), ProbeLoop(st, Plan(u, env)));
  }

  /** The key written was answered `NoSuchKey` at its probe, the last one made. */
  lemma {:induction false} FinalKeyWasFree(st: ObjectStore, cat: Catalog, u: Upload, env: Env)
    requires ProbeLoop(st, Plan(u, env)).Free?
    ensures var p := Plan(u, env); var n := ProbeLoop(st, p).n; var r := Ingest(st, cat, u, env);
      && StatObject(st, Candidate(p, n)) == S3Error(NoSuchKey)
      && r.effects[n] == Stat(Candidate(p, n))
      && r.effects[n + 1] == Put(Candidate(p, n))
  {
    assert Ingest(st, cat, u, env) == Settle(st, cat, u, env, Plan(u, env), ProbeLoop(st, Plan(u, env)));
  }

  /** When the desired key is free, it is the key written. */
  lemma {:induction false} DesiredKeyKeptWhenFree(st: ObjectStore, cat: Catalog, u: Upload, env: Env)
    requires StatObject(st, DesiredKey(u, env)) == S3Error(NoSuchKey)
    ensures ProbeLoop(st, Plan(u, env)) == Free(0)
    ensures Candidate(Plan(u, env), ProbeLoop(st, Plan(u, env)).n) == DesiredKey(u, env)
    ensures Ingest(st, cat, u, env).outcome.Success?
        ==> Ingest(st, cat, u, env).outcome.value.finalObjectName == DesiredKey(u, env)
  {
    var p := Plan(u, env);
    assert Resolve(st, p, 0) == Free(0);
    assert Ingest(st, cat, u, env) == Settle(st, cat, u, env, p, ProbeLoop(st, p));
  }

  /** The counters below `k` name `k` distinct keys. */
  lemma {:induction false} TriedCount(p: KeyPlan, k: nat)
    requires p.base != []
    ensures |Tried(p, k)| == k
  {
    if k == 0 {
      assert Tried(p, k) == {};
    } else {
      TriedCount(p, k - 1);
      TriedBack(p, k);
      assert |Tried(p, k)| == |Tried(p, k - 1)| + 1 == k;
    }
  }

  /**
   * In a store whose probes answer from its contents, the loop stops at the
   * least counter whose key is absent: every key before it is present, so
   * it is at most the number of objects in the store.
   */
  lemma {:induction false} LeastFreeCounter(st: ObjectStore, p: KeyPlan)
    requires Faultless(st) && p.base != []
    ensures var res := ProbeLoop(st, p);
      && res.Free?
      && Candidate(p, res.n) !in st.objects
      && (forall j :: 0 <= j < res.n ==> Candidate(p, j) in st.objects)
      && res.n <= |st.objects|
  {
    var n := ProbeLoop(st, p).n;
    forall j | 0 <= j < n
      ensures Candidate(p, j) in st.objects
    {
      ResolvePassesPresent(st, p, 0, j);
    }
    TriedCount(p, n);
    assert Tried(p, n) <= st.objects.Keys;
    SubsetCard(Tried(p, n), st.objects.Keys);
  }

  lemma {:induction false} SubsetCard<T>(a: set<T>, b: set<T>)
    requires a <= b
    ensures |a| <= |b|
  {
    if a != {} {
      var x :| x in a;
      SubsetCard(a - {x}, b - {x});
    }
  }

  /**
   * In a store whose probes answer from its contents, a run never replaces
   * an object: the key written was absent and every earlier object is kept.
   */
  lemma {:induction false} NeverOverwrites(st: ObjectStore, cat: Catalog, u: Upload, env: Env)
    requires Faultless(st)
    requires Ingest(st, cat, u, env).outcome.Success?
    ensures var r := Ingest(st, cat, u, env);
      && r.outcome.value.finalObjectName !in st.objects
      && (forall k :: k in st.objects ==> k in r.store.objects && r.store.objects[k] == st.objects[k])
  {
    assert Ingest(st, cat, u, env) == Settle(st, cat, u, env, Plan(u, env), ProbeLoop(st, Plan(u, env)));
  }

  /** At the root of the bucket a key is just its name. */
  lemma {:induction false} CandidateAtRoot(p: KeyPlan, k: nat)
    requires p.prefix == ""
    ensures Candidate(p, k) == CandidateName(p, k)
  {
  }

  /** Under a prefix ending in `/`, a key is the prefix followed by its name. */
  lemma {:induction false} CandidateUnderDirectory(p: KeyPlan, k: nat)
    requires EndsWith(p.prefix, "/") && p.base != [] && p.base[0] != '/'
    ensures Candidate(p, k) == p.prefix + CandidateName(p, k)
  {
    assert CandidateName(p, k)[0] == p.base[0];
  }

  /** `a.txt` taken: the second upload of `a.txt` is stored as `a(1).txt`. */
  lemma {:induction false} OneCollisionExample(o: StoredObject)
    ensures var p := KeyPlan("", "a", ".txt");
      var st := ObjectStore(map["a.txt" := o], map[], map[]);
      ProbeLoop(st, p) == Free(1) && Candidate(p, 1) == "a(1).txt"
  {
    var p := KeyPlan("", "a", ".txt");
    var st := ObjectStore(map["a.txt" := o], map[], map[]);
    assert Dec(1) == "1";
    assert CandidateName(p, 0) == "a" + ".txt" == "a.txt";
    assert CandidateName(p, 1) == "a" + "(" + "1" + ")" + ".txt" == "a(1).txt";
    CandidateAtRoot(p, 0);
    CandidateAtRoot(p, 1);
    assert Resolve(st, p, 0) == Resolve(st, p, 1);
    assert Resolve(st, p, 1) == Free(1);
  }

  /** `a.txt` and `a(1).txt` taken: the next is `a(2).txt`, rebuilt from the
      original base, not `a(1)(2).txt`. */
  lemma {:induction false} TwoCollisionsExample(o: StoredObject)
    ensures var p := KeyPlan("", "a", ".txt");
      var st := ObjectStore(map["a.txt" := o, "a(1).txt" := o], map[], map[]);
      ProbeLoop(st, p) == Free(2) && Candidate(p, 2) == "a(2).txt"
  {
    var p := KeyPlan("", "a", ".txt");
    var st := ObjectStore(map["a.txt" := o, "a(1).txt" := o], map[], map[]);
    assert Dec(1) == "1" && Dec(2) == "2";
    assert CandidateName(p, 0) == "a" + ".txt" == "a.txt";
    assert CandidateName(p, 1) == "a" + "(" + "1" + ")" + ".txt" == "a(1).txt";
    assert CandidateName(p, 2) == "a" + "(" + "2" + ")" + ".txt" == "a(2).txt";
    CandidateAtRoot(p, 0);
    CandidateAtRoot(p, 1);
    CandidateAtRoot(p, 2);
    assert Resolve(st, p, 0) == Resolve(st, p, 1);
    assert Resolve(st, p, 1) == Resolve(st, p, 2);
    assert Resolve(st, p, 2) == Free(2);
  }

  /** Under a prefix, the counter goes into the name, not the prefix. */
  lemma {:induction false} PrefixedCollisionExample(o: StoredObject)
    ensures var p := KeyPlan("proj/", "a", ".txt");
      var st := ObjectStore(map["proj/a.txt" := o], map[], map[]);
      ProbeLoop(st, p) == Free(1) && Candidate(p, 1) == "proj/a(1).txt"
  {
    var p := KeyPlan("proj/", "a", ".txt");
    var st := ObjectStore(map["proj/a.txt" := o], map[], map[]);
    assert "proj/"[5 - 1..] == "/";
    assert Dec(1) == "1";
    assert CandidateName(p, 0) == "a" + ".txt";
    assert CandidateName(p, 1) == "a" + "(" + "1" + ")" + ".txt";
    CandidateUnderDirectory(p, 0);
    CandidateUnderDirectory(p, 1);
    assert Candidate(p, 0) == "proj/" + "a" + ".txt" == "proj/a.txt";
    assert Candidate(p, 1) == "proj/" + "a" + "(" + "1" + ")" + ".txt" == "proj/a(1).txt";
    assert Resolve(st, p, 0) == Resolve(st, p, 1);
    assert Resolve(st, p, 1) == Free(1);
  }

  /**
   * The code as written: once the object is written, the catalog call raises
   * `TypeError`, so the object is left in the store with no catalog row,
   * while the intended call would have reached the catalog.
   */
  lemma {:induction false} AsWrittenOrphansObject(st: ObjectStore, cat: Catalog, u: Upload, env: Env)
    requires u.filename != ""
    requires ProbeLoop(st, Plan(u, env)).Free?
    requires Candidate(Plan(u, env), ProbeLoop(st, Plan(u, env)).n) !in st.putFaults
    ensures var p := Plan(u, env); var key := Candidate(p, ProbeLoop(st, p).n);
      IngestAsWritten(st, cat, u, env)
        == Ingestion(Failure(StoreCallTypeError), Probes(p, ProbeLoop(st, p).n + 1) + [Put(key)], Written(st, key, u), cat)
  {
    assert IngestAsWritten(st, cat, u, env) == SettleAsWritten(st, cat, u, env, Plan(u, env), ProbeLoop(st, Plan(u, env)));
  }

  /** Where the run fails before the catalog call, the code as written does
      exactly what the intended code does, provided the file name is not
      empty. */
  lemma {:induction false} AsWrittenAgreesBeforeCatalog(st: ObjectStore, cat: Catalog, u: Upload, env: Env)
    requires u.filename != ""
    requires Ingest(st, cat, u, env).outcome.Failure?
    ensures IngestAsWritten(st, cat, u, env) == Ingest(st, cat, u, env)
  {
    assert Ingest(st, cat, u, env) == Settle(st, cat, u, env, Plan(u, env), ProbeLoop(st, Plan(u, env)));
    assert IngestAsWritten(st, cat, u, env) == SettleAsWritten(st, cat, u, env, Plan(u, env), ProbeLoop(st, Plan(u, env)));
  }

  /** The intended run starts by probing the desired key. */
  lemma {:induction false} IngestProbesDesiredFirst(st: ObjectStore, cat: Catalog, u: Upload, env: Env)
    ensures var r := Ingest(st, cat, u, env);
      r.effects != [] && r.effects[0] == Stat(Candidate(Plan(u, env), 0))
  {
    var p := Plan(u, env);
    var res := ProbeLoop(st, p);
    assert Ingest(st, cat, u, env) == Settle(st, cat, u, env, p, res);
    assert Probes(p, res.n + 1)[0] == Stat(Candidate(p, 0));
  }

  /** For the empty file name the code as written raises in the sanitiser:
      no probe, no write, no insert, store and catalog untouched; the
      intended code starts by probing the fallback name's key. */
  lemma {:induction false} AsWrittenEmptyNameRaises(st: ObjectStore, cat: Catalog, u: Upload, env: Env)
    requires u.filename == ""
    ensures var r := IngestAsWritten(st, cat, u, env);
      && r.outcome.Failure? && r.outcome.error.SanitizerError?
      && r.effects == [] && r.store == st && r.catalog == cat
    ensures var r := Ingest(st, cat, u, env);
      r.effects != [] && r.effects[0] == Stat(Candidate(Plan(u, env), 0))
  {
    assert SanitizeFilenameAsWritten(u.filename).Failure?;
    IngestProbesDesiredFirst(st, cat, u, env);
  }
}
