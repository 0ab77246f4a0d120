/**
 * The request handlers of `server_backend/app/main.py` around the pipeline:
 * the status code of a single upload, the file filter and the sequential
 * fan-out of a folder upload, and the search endpoint's use of the query
 * builder.  HTTP, YAML decoding and archive extraction are outside the
 * model: a handler receives the decoded metadata, the entries the archive
 * walk finds, and the answers of the services.
 */
module Endpoints {
  import opened Wrappers
  import opened Text
  import opened PosixPath
  import opened Utils
  import opened Db
  import opened Pipeline

  // ---------------------------------------------------------------------
  // Single upload (create_upload_file)
  // ---------------------------------------------------------------------

  /** The status code of the reply: 200 for a returned result whose status
      is `success`, 500 for any other result and for any exception. */
  function UploadFileCode(r: Ingestion): (code: nat)
    ensures code == 200 || code == 500
  {
    if r.outcome.Success? && r.outcome.value.status == "success" then 200 else 500
  }

  /**
   * With the intended catalog call, a single upload is answered 200 exactly
   * when the probe loop finds a free key, the write succeeds and the catalog
   * accepts the row.
   */
  lemma {:induction false} UploadFileOk(st: ObjectStore, cat: Catalog, u: Upload, env: Env)
    ensures var p := Plan(u, env); var res := ProbeLoop(st, p);
      (UploadFileCode(Ingest(st, cat, u, env)) == 200
       <==> res.Free? && Candidate(p, res.n) !in st.putFaults && cat.fault.None?)
  {
    var p := Plan(u, env);
    var res := ProbeLoop(st, p);
    IngestOutcomes(st, cat, u, env);
    if res.Free? && Candidate(p, res.n) !in st.putFaults {
      IngestReachesCatalog(st, cat, u, env);
    }
  }

  /** As written, every single upload is answered 500: each run either
      raises before the catalog call or raises `TypeError` at it. */
  lemma {:induction false} UploadFileAsWrittenFails(st: ObjectStore, cat: Catalog, u: Upload, env: Env)
    ensures UploadFileCode(IngestAsWritten(st, cat, u, env)) == 500
  {
    var p := Plan(u, env);
    var res := ProbeLoop(st, p);
    if u.filename == "" {
      AsWrittenEmptyNameRaises(st, cat, u, env);
    } else if res.Free? && Candidate(p, res.n) !in st.putFaults {
      AsWrittenOrphansObject(st, cat, u, env);
    } else {
      assert IngestAsWritten(st, cat, u, env) == Settle(st, cat, u, env, p, res);
    }
  }

  // ---------------------------------------------------------------------
  // Folder upload (create_upload_folder)
  // ---------------------------------------------------------------------

  /**
   * A path the walk of the extraction directory finds: its components below
   * that directory, whether it is a regular file, and its size.  The uploaded
   * archive is saved in the same directory, so the walk finds it too.
   */
  datatype Entry = Entry(path: seq<string>, isFile: bool, size: nat)

  /** `Path.name`: the last component. */
  function Name(e: Entry): string {
    if e.path == [] then "" else e.path[|e.path| - 1]
  }

  /** The last dot of `name` is at `i`. */
  predicate LastDotAt(name: string, i: int) {
    0 <= i < |name| && name[i] == '.' && forall j :: i < j < |name| ==> name[j] != '.'
  }

  /** `PurePath.suffix`: the name from its last dot on, provided that dot is
      neither its first nor its last character; otherwise empty. */
  function Suffix(name: string): (r: string)
    ensures r != "" ==> |r| >= 2 && |r| < |name| && r[0] == '.' && EndsWith(name, r)
    ensures r != "" ==> forall i :: 1 <= i < |r| ==> r[i] != '.'
    ensures r != "" <==> exists i :: 0 < i < |name| - 1 && LastDotAt(name, i)
    ensures forall i :: 0 < i < |name| - 1 && LastDotAt(name, i) ==> r == name[i..]
  {
    var i := RFind(name, '.');
    LastDotIsRFind(name);
    if 0 < i < |name| - 1 then
      assert LastDotAt(name, i);
      assert name[|name| - |name[i..]|..] == name[i..];
      name[i..]
    else ""
  }

  /** The last dot, when there is one, is where `rfind` finds it. */
  lemma {:induction false} LastDotIsRFind(name: string)
    ensures forall i :: LastDotAt(name, i) ==> i == RFind(name, '.')
  {
    forall i | LastDotAt(name, i) ensures i == RFind(name, '.') {
    }
  }

  /** The filter as written: a regular file whose name does not start with
      `__MACOSX` and whose suffix is not `.zip`. */
  predicate EligibleAsWritten(e: Entry) {
    e.isFile && !StartsWith(Name(e), "__MACOSX") && Suffix(Name(e)) != ".zip"
  }

  /** The filter as intended: also nothing inside a `__MACOSX` directory.  It
      is the written filter plus a test on every directory above the file. */
  predicate Eligible(e: Entry)
    ensures Eligible(e) <==>
      && EligibleAsWritten(e)
      && forall i :: 0 <= i < |e.path| - 1 ==> !StartsWith(e.path[i], "__MACOSX")
  {
    && e.isFile
    && (forall i :: 0 <= i < |e.path| ==> !StartsWith(e.path[i], "__MACOSX"))
    && Suffix(Name(e)) != ".zip"
  }

  /** The intended filter only narrows the written one. */
  lemma {:induction false} EligibleNarrows(e: Entry)
    requires Eligible(e)
    ensures EligibleAsWritten(e)
  {
    if e.path != [] {
      assert !StartsWith(e.path[|e.path| - 1], "__MACOSX");
    }
  }

  /** The resource-fork copy macOS puts under `__MACOSX/` passes the filter
      as written, but not the intended one. */
  lemma {:induction false} MacResourceForkIngestedAsWritten()
    ensures EligibleAsWritten(Entry(["__MACOSX", "._a.csv"], true, 4))
    ensures !Eligible(Entry(["__MACOSX", "._a.csv"], true, 4))
  {
    var e := Entry(["__MACOSX", "._a.csv"], true, 4);
    assert Name(e) == "._a.csv";
    assert "._a.csv"[..6] == "._a.cs" && "._a.cs"[..5] == "._a.c" && "._a.c"[..4] == "._a.";
    assert RFind("._a.", '.') == 3;
    assert RFind("._a.csv", '.') == 3;
    assert "._a.csv"[3..] == ".csv";
    assert Suffix(Name(e)) == ".csv";
    assert !StartsWith("._a.csv", "__MACOSX");
    assert StartsWith(e.path[0], "__MACOSX");
  }

  /** The archive itself is never ingested when its name ends in `.zip`. */
  lemma {:induction false} ArchiveSkipped(path: seq<string>, size: nat)
    requires path != [] && |path[|path| - 1]| > 4 && EndsWith(path[|path| - 1], ".zip")
    ensures !Eligible(Entry(path, true, size)) && !EligibleAsWritten(Entry(path, true, size))
  {
    var name := path[|path| - 1];
    var i := |name| - 4;
    assert name[i] == '.' && name[i + 1..] == "zip";
    assert RFind(name, '.') == i;
    assert Suffix(name) == name[i..] == ".zip";
  }

  /** The batch folder: the sanitised base of the archive's name, `_`, and
      the first eight hex digits of a fresh UUID (32 digits in all). */
  function FolderPrefix(zipName: string, uuidHex: string, now: Instant): (r: string)
    requires |uuidHex| == 32
    ensures |r| > 9
  {
    SanitizeFilename(SplitExt(zipName).0, now) + "_" + uuidHex[..8]
  }

  /** The batch folder ends in `_` and the eight digits, and it is one path
      segment, so every key of the batch sits inside it. */
  lemma {:induction false} FolderPrefixShape(zipName: string, uuidHex: string, now: Instant)
    requires |uuidHex| == 32 && forall i :: 0 <= i < |uuidHex| ==> IsAlnum(uuidHex[i])
    ensures var r := FolderPrefix(zipName, uuidHex, now);
      && EndsWith(r, "_" + uuidHex[..8])
      && StartsWith(r, SanitizeFilename(SplitExt(zipName).0, now))
      && forall i :: 0 <= i < |r| ==> r[i] != '/'
  {
    SanitizedHasNoSlash(SplitExt(zipName).0, now);
    TaggedShape(SanitizeFilename(SplitExt(zipName).0, now), uuidHex[..8]);
  }

  /** A name with no `/`, followed by `_` and alphanumerics, starts with the
      name, ends with the tag and has no `/`. */
  lemma {:induction false} TaggedShape(name: string, tag: string)
    requires forall i :: 0 <= i < |name| ==> name[i] != '/'
    requires forall i :: 0 <= i < |tag| ==> IsAlnum(tag[i])
    ensures var r := name + "_" + tag;
      && EndsWith(r, "_" + tag) && StartsWith(r, name)
      && forall i :: 0 <= i < |r| ==> r[i] != '/'
  {
    var tail := "_" + tag;
    var r := name + tail;
    assert name + "_" + tag == r;
    assert r[|r| - |tail|..] == tail;
    assert r[..|name|] == name;
    forall i | 0 <= i < |r|
      ensures r[i] != '/'
    {
      if i >= |name| {
        assert r[i] == tail[i - |name|];
        if i > |name| {
          assert tail[i - |name|] == tag[i - |name| - 1];
        }
      }
    }
  }


  /** A sanitised name has no `/`: its base is made of safe characters and
      its extension of a dot and alphanumerics. */
  lemma {:induction false} SanitizedHasNoSlash(filename: string, now: Instant)
    ensures var r := SanitizeFilename(filename, now);
      r != [] && forall i :: 0 <= i < |r| ==> r[i] != '/'
  {
    var base, ext := SaneBase(filename, now), SaneExt(filename);
    assert base + ext == SanitizeFilename(filename, now);
    PartsHaveNoSlash(base, ext);
  }

  lemma {:induction false} PartsHaveNoSlash(base: string, ext: string)
    requires AllSafe(base)
    requires ext == [] || (|ext| >= 2 && ext[0] == '.' && AllAlnum(ext[1..]))
    ensures forall i :: 0 <= i < |base + ext| ==> (base + ext)[i] != '/'
  {
    var r := base + ext;
    forall i | 0 <= i < |r|
      ensures r[i] != '/'
    {
      if i < |base| {
        assert r[i] == base[i] && IsSafe(base[i]);
      } else if i > |base| {
        assert r[i] == ext[1..][i - |base| - 1];
      }
    }
  }

  /** The upload of one entry: its name, no content type, its size, the
      batch's metadata and the batch folder. */
  function EntryUpload(e: Entry, meta: Metadata, folder: string): Upload {
    Upload(Name(e), None, e.size, meta, folder)
  }

  /** One call of `process_and_store_file`, as a value. */
  type Ingester = (ObjectStore, Catalog, Upload, Env) -> Ingestion

  /** The two pieces of code a folder upload is built from: its filter and
      the pipeline it calls per file. */
  datatype Handler = Handler(keep: Entry -> bool, ingest: Ingester)

  /** The handler as intended. */
  const Intended: Handler := Handler(Eligible, Ingest)

  /** The handler as written: the name-only filter, and the pipeline whose
      catalog call raises. */
  const AsWritten: Handler := Handler(EligibleAsWritten, IngestAsWritten)

  /** What one folder upload works on: the entries of the walk, in walk
      order, what the pipeline reads from its surroundings for each, the
      decoded metadata and the batch folder. */
  datatype FolderJob = FolderJob(entries: seq<Entry>, envs: seq<Env>, meta: Metadata, folder: string)

  /** The state of a folder upload: the results so far, every call made, the
      store and catalog, and the exception that ended it, if any. */
  datatype Batch = Batch(
    results: seq<FileResult>,
    effects: seq<Effect>,
    store: ObjectStore,
    catalog: Catalog,
    raised: Option<Raised>)

  /** The batch after one run of the pipeline. */
  function Absorb(b: Batch, r: Ingestion): (b': Batch)
    ensures b'.effects == b.effects + r.effects && b'.store == r.store && b'.catalog == r.catalog
    ensures r.outcome.Success? ==> b'.results == b.results + [r.outcome.value] && b'.raised.None?
    ensures r.outcome.Failure? ==> b'.results == b.results && b'.raised == Some(r.outcome.error)
  {
    if r.outcome.Success? then
      Batch(b.results + [r.outcome.value], b.effects + r.effects, r.store, r.catalog, None)
    else
      Batch(b.results, b.effects + r.effects, r.store, r.catalog, Some(r.outcome.error))
  }

  /** The batch after the first `n` entries of the walk: an entry is skipped
      when the batch has stopped or the filter rejects it; otherwise the
      pipeline runs on it and its result is appended, or its exception stops
      the batch. */
  function FanOut(h: Handler, st: ObjectStore, cat: Catalog, job: FolderJob, n: nat): Batch
    requires n <= |job.entries| <= |job.envs|
  {
    if n == 0 then Batch([], [], st, cat, None)
    else
      var b := FanOut(h, st, cat, job, n - 1);
      var e := job.entries[n - 1];
      if b.raised.Some? || !h.keep(e) then b
      else Absorb(b, h.ingest(b.store, b.catalog, EntryUpload(e, job.meta, job.folder), job.envs[n - 1]))
  }

  /** Once an exception has stopped the batch, later entries change nothing. */
  lemma {:induction false} FanOutStopped(h: Handler, st: ObjectStore, cat: Catalog, job: FolderJob, i: nat, j: nat)
    requires i <= j <= |job.entries| <= |job.envs|
    requires FanOut(h, st, cat, job, i).raised.Some?
    ensures FanOut(h, st, cat, job, j) == FanOut(h, st, cat, job, i)
    decreases j
  {
    if j > i {
      FanOutStopped(h, st, cat, job, i, j - 1);
    }
  }

  /** The entries the filter keeps, in walk order. */
  function Kept(keep: Entry -> bool, es: seq<Entry>): (r: seq<Entry>)
    ensures |r| <= |es|
    ensures forall k :: 0 <= k < |r| ==> keep(r[k])
  {
    if es == [] then []
    else Kept(keep, es[..|es| - 1]) + (if keep(es[|es| - 1]) then [es[|es| - 1]] else [])
  }

  lemma {:induction false} KeptStep(keep: Entry -> bool, es: seq<Entry>, n: nat)
    requires 0 < n <= |es|
    ensures Kept(keep, es[..n]) == Kept(keep, es[..n - 1]) + (if keep(es[n - 1]) then [es[n - 1]] else [])
  {
    assert es[..n][..n - 1] == es[..n - 1];
  }

  /** Every result a pipeline returns names the file it was given. */
  ghost predicate NamesItsFile(ingest: Ingester) {
    forall s, c, u, e :: ingest(s, c, u, e).outcome.Success? ==> ingest(s, c, u, e).outcome.value.originalFilename == u.filename
  }

  /**
   * A batch that ran to the end has exactly one result per entry the filter
   * keeps, in walk order, each naming its entry's file.
   */
  lemma {:induction false} OneResultPerKeptFile(h: Handler, st: ObjectStore, cat: Catalog, job: FolderJob, n: nat)
    requires n <= |job.entries| <= |job.envs|
    requires NamesItsFile(h.ingest)
    requires FanOut(h, st, cat, job, n).raised.None?
    ensures var b := FanOut(h, st, cat, job, n); var es := Kept(h.keep, job.entries[..n]);
      && |b.results| == |es|
      && forall k :: 0 <= k < |es| ==> b.results[k].originalFilename == Name(es[k])
  {
    if n > 0 {
      KeptStep(h.keep, job.entries, n);
      OneResultPerKeptFile(h, st, cat, job, n - 1);
    }
  }

  /** A pipeline that never returns a result. */
  ghost predicate NeverReturns(ingest: Ingester) {
    forall s, c, u, e :: ingest(s, c, u, e).outcome.Failure?
  }

  /** With a pipeline that never returns, a batch has no results, and it
      stops exactly when the filter keeps some entry. */
  lemma {:induction false} NoResultsWhenNeverReturns(h: Handler, st: ObjectStore, cat: Catalog, job: FolderJob, n: nat)
    requires n <= |job.entries| <= |job.envs|
    requires NeverReturns(h.ingest)
    ensures FanOut(h, st, cat, job, n).results == []
    ensures FanOut(h, st, cat, job, n).raised.Some? <==> Kept(h.keep, job.entries[..n]) != []
  {
    if n > 0 {
      KeptStep(h.keep, job.entries, n);
      NoResultsWhenNeverReturns(h, st, cat, job, n - 1);
      var prev := FanOut(h, st, cat, job, n - 1);
      var e := job.entries[n - 1];
      if prev.raised.None? && h.keep(e) {
        var r := h.ingest(prev.store, prev.catalog, EntryUpload(e, job.meta, job.folder), job.envs[n - 1]);
        assert r.outcome.Failure?;
      }
    }
  }

  /** A non-empty path segment: no `/` in it. */
  predicate IsSegment(f: string) {
    f != "" && forall i :: 0 <= i < |f| ==> f[i] != '/'
  }

  /** Joining a segment gives a non-empty path that does not end in `/`. */
  lemma {:induction false} JoinSegment(a: string, f: string)
    requires IsSegment(f)
    ensures Join(a, f) != "" && !EndsWith(Join(a, f), "/")
  {
    assert f[0] != '/';
    var r := Join(a, f);
    assert r[|r| - 1] == f[|f| - 1];
  }

  /** Every key a pipeline returns lies under the project prefix joined with
      the folder it was given, and, when that folder is one segment, inside
      it: the joined prefix is followed by `/`. */
  ghost predicate KeysUnderFolder(ingest: Ingester) {
    forall s, c, u, e :: ingest(s, c, u, e).outcome.Success? ==>
      && StartsWith(ingest(s, c, u, e).outcome.value.finalObjectName,
                    Join(SanitizeProjectId(ProjectIdOf(u.metadata)), u.folderPrefix))
      && (IsSegment(u.folderPrefix) ==>
            StartsWith(ingest(s, c, u, e).outcome.value.finalObjectName,
                       Join(SanitizeProjectId(ProjectIdOf(u.metadata)), u.folderPrefix) + "/"))
  }

  /** Every key of a batch lies under the project prefix joined with the
      batch folder, and inside that folder when it is one segment: the files
      of one archive share one folder. */
  lemma {:induction false} BatchSharesFolder(h: Handler, st: ObjectStore, cat: Catalog, job: FolderJob, n: nat)
    requires n <= |job.entries| <= |job.envs|
    requires KeysUnderFolder(h.ingest)
    ensures forall k :: 0 <= k < |FanOut(h, st, cat, job, n).results| ==>
      StartsWith(FanOut(h, st, cat, job, n).results[k].finalObjectName, Join(SanitizeProjectId(ProjectIdOf(job.meta)), job.folder))
    ensures IsSegment(job.folder) ==> forall k :: 0 <= k < |FanOut(h, st, cat, job, n).results| ==>
      StartsWith(FanOut(h, st, cat, job, n).results[k].finalObjectName, Join(SanitizeProjectId(ProjectIdOf(job.meta)), job.folder) + "/")
  {
    if n > 0 {
      BatchSharesFolder(h, st, cat, job, n - 1);
    }
  }

  /** A pipeline that, on a store whose probes answer from its contents,
      keeps every object, adds the one it reports at a key that was absent,
      and leaves the store answering from its contents. */
  ghost predicate WritesFreshKeys(ingest: Ingester) {
    forall s, c, u, e :: Faultless(s) ==>
      && Faultless(ingest(s, c, u, e).store)
      && (forall k :: k in s.objects ==> k in ingest(s, c, u, e).store.objects && ingest(s, c, u, e).store.objects[k] == s.objects[k])
      && (ingest(s, c, u, e).outcome.Success? ==>
            && ingest(s, c, u, e).outcome.value.finalObjectName !in s.objects
            && ingest(s, c, u, e).outcome.value.finalObjectName in ingest(s, c, u, e).store.objects)
  }

  /**
   * In a store whose probes answer from its contents, the files of a batch
   * get pairwise different keys, each present in the store afterwards, and
   * every object present before is kept: two files of the same name in
   * different directories of the archive do not overwrite each other.
   */
  lemma {:induction false} BatchKeysDistinct(h: Handler, st: ObjectStore, cat: Catalog, job: FolderJob, n: nat)
    requires n <= |job.entries| <= |job.envs|
    requires Faultless(st) && WritesFreshKeys(h.ingest)
    ensures var b := FanOut(h, st, cat, job, n);
      && Faultless(b.store)
      && (forall k :: k in st.objects ==> k in b.store.objects && b.store.objects[k] == st.objects[k])
      && (forall k :: 0 <= k < |b.results| ==> b.results[k].finalObjectName in b.store.objects)
      && (forall k, l :: 0 <= k < l < |b.results| ==> b.results[k].finalObjectName != b.results[l].finalObjectName)
  {
    if n > 0 {
      BatchKeysDistinct(h, st, cat, job, n - 1);
    }
  }

  /** The intended pipeline names its file and writes under the folder. */
  lemma {:induction false} IngestNamesItsFile()
    ensures NamesItsFile(Ingest) && KeysUnderFolder(Ingest)
  {
    forall s, c, u, e | Ingest(s, c, u, e).outcome.Success?
      ensures Ingest(s, c, u, e).outcome.value.originalFilename == u.filename
      ensures StartsWith(Ingest(s, c, u, e).outcome.value.finalObjectName,
                         Join(SanitizeProjectId(ProjectIdOf(u.metadata)), u.folderPrefix))
      ensures IsSegment(u.folderPrefix) ==>
        StartsWith(Ingest(s, c, u, e).outcome.value.finalObjectName,
                   Join(SanitizeProjectId(ProjectIdOf(u.metadata)), u.folderPrefix) + "/")
    {
      IngestOutcomes(s, c, u, e);
      IngestReachesCatalog(s, c, u, e);
      var p := Plan(u, e);
      if IsSegment(u.folderPrefix) {
        JoinSegment(SanitizeProjectId(ProjectIdOf(u.metadata)), u.folderPrefix);
      }
      CandidateUnderPrefix(p, ProbeLoop(s, p).n);
    }
  }

  /** A key built under `p` starts with the plan's prefix, followed by `/`
      when the prefix is non-empty and does not already end in one. */
  lemma {:induction false} CandidateUnderPrefix(p: KeyPlan, k: nat)
    requires p.base != [] && AllSafe(p.base)
    ensures StartsWith(Candidate(p, k), p.prefix)
    ensures p.prefix != "" && !EndsWith(p.prefix, "/") ==> StartsWith(Candidate(p, k), p.prefix + "/")
  {
    var x := CandidateName(p, k);
    assert x[0] == p.base[0] && IsSafe(p.base[0]);
    assert !StartsWith(x, "/");
    JoinKeepsBoth(p.prefix, x);
    if p.prefix != "" && !EndsWith(p.prefix, "/") {
      assert Candidate(p, k) == p.prefix + "/" + x;
      assert (p.prefix + "/" + x)[..|p.prefix| + 1] == p.prefix + "/";
    }
  }

  /** The intended pipeline never replaces an object. */
  lemma {:induction false} IngestWritesFreshKeys()
    ensures WritesFreshKeys(Ingest)
  {
    forall s, c, u, e | Faultless(s)
      ensures Faultless(Ingest(s, c, u, e).store)
      ensures forall k :: k in s.objects ==> k in Ingest(s, c, u, e).store.objects && Ingest(s, c, u, e).store.objects[k] == s.objects[k]
      ensures Ingest(s, c, u, e).outcome.Success? ==>
        && Ingest(s, c, u, e).outcome.value.finalObjectName !in s.objects
        && Ingest(s, c, u, e).outcome.value.finalObjectName in Ingest(s, c, u, e).store.objects
    {
      IngestOutcomes(s, c, u, e);
      var r := Ingest(s, c, u, e);
      if r.outcome.Success? {
        IngestReachesCatalog(s, c, u, e);
        NeverOverwrites(s, c, u, e);
      } else if r.outcome.error.ProbeError? {
        ProbeErrorStops(s, c, u, e);
      } else {
        PutErrorStops(s, c, u, e);
      }
    }
  }

  /** The pipeline as written never returns a result. */
  lemma {:induction false} AsWrittenNeverReturns()
    ensures NeverReturns(IngestAsWritten)
  {
    forall s, c, u, e
      ensures IngestAsWritten(s, c, u, e).outcome.Failure?
    {
      var p := Plan(u, e);
      var res := ProbeLoop(s, p);
      if u.filename == "" {
        AsWrittenEmptyNameRaises(s, c, u, e);
      } else if res.Free? && Candidate(p, res.n) !in s.putFaults {
        AsWrittenOrphansObject(s, c, u, e);
      } else {
        assert IngestAsWritten(s, c, u, e) == Settle(s, c, u, e, p, res);
        IngestOutcomes(s, c, u, e);
      }
    }
  }

  /**
   * The folder upload as intended, run to the end: one result per eligible
   * file in walk order, all under the batch folder; on a store whose probes
   * answer from its contents, with pairwise different keys and no object
   * replaced.
   */
  lemma {:induction false} FolderUploadResults(st: ObjectStore, cat: Catalog, job: FolderJob)
    requires |job.entries| <= |job.envs|
    ensures var b := FanOut(Intended, st, cat, job, |job.entries|); var es := Kept(Eligible, job.entries);
      && (b.raised.None? ==>
            |b.results| == |es| && forall k :: 0 <= k < |es| ==> b.results[k].originalFilename == Name(es[k]))
      && (forall k :: 0 <= k < |b.results| ==>
            StartsWith(b.results[k].finalObjectName, Join(SanitizeProjectId(ProjectIdOf(job.meta)), job.folder)))
      && (IsSegment(job.folder) ==> forall k :: 0 <= k < |b.results| ==>
            StartsWith(b.results[k].finalObjectName, Join(SanitizeProjectId(ProjectIdOf(job.meta)), job.folder) + "/"))
      && (Faultless(st) ==>
            forall k, l :: 0 <= k < l < |b.results| ==> b.results[k].finalObjectName != b.results[l].finalObjectName)
  {
    var n := |job.entries|;
    assert job.entries[..n] == job.entries;
    IngestNamesItsFile();
    IngestWritesFreshKeys();
    if FanOut(Intended, st, cat, job, n).raised.None? {
      OneResultPerKeptFile(Intended, st, cat, job, n);
    }
    BatchSharesFolder(Intended, st, cat, job, n);
    if Faultless(st) {
      BatchKeysDistinct(Intended, st, cat, job, n);
    }
  }

  /** The folder upload as written: no result is ever reported, and any
      archive with an entry the filter keeps is answered 500. */
  /** A batch named as the handler names it, from the archive's name, a
      fresh UUID and the clock, keeps every key inside its folder. */
  lemma {:induction false} FolderBatchInsideFolder(st: ObjectStore, cat: Catalog, entries: seq<Entry>, envs: seq<Env>,
                                                   meta: Metadata, zipName: string, uuidHex: string, now: Instant)
    requires |uuidHex| == 32 && forall i :: 0 <= i < |uuidHex| ==> IsAlnum(uuidHex[i])
    requires |entries| <= |envs|
    ensures var folder := FolderPrefix(zipName, uuidHex, now);
      var b := FanOut(Intended, st, cat, FolderJob(entries, envs, meta, folder), |entries|);
      forall k :: 0 <= k < |b.results| ==>
        StartsWith(b.results[k].finalObjectName, Join(SanitizeProjectId(ProjectIdOf(meta)), folder) + "/")
  {
    var folder := FolderPrefix(zipName, uuidHex, now);
    FolderPrefixShape(zipName, uuidHex, now);
    assert IsSegment(folder);
    FolderUploadResults(st, cat, FolderJob(entries, envs, meta, folder));
  }

  lemma {:induction false} FolderUploadAsWrittenFails(st: ObjectStore, cat: Catalog, job: FolderJob)
    requires |job.entries| <= |job.envs|
    ensures var b := FanOut(AsWritten, st, cat, job, |job.entries|);
      && b.results == []
      && (Kept(EligibleAsWritten, job.entries) != [] ==> FolderReplyOf(b) == FolderFailed(500))
  {
    assert job.entries[..|job.entries|] == job.entries;
    AsWrittenNeverReturns();
    NoResultsWhenNeverReturns(AsWritten, st, cat, job, |job.entries|);
  }

  /** The reply of a folder upload. */
  datatype FolderReply = FolderOk(uploadResults: seq<FileResult>) | FolderFailed(code: nat)

  /** 200 with the results when the batch ran to the end, 500 when an
      exception stopped it. */
  function FolderReplyOf(b: Batch): (reply: FolderReply)
    ensures reply.FolderOk? <==> b.raised.None?
    ensures reply.FolderOk? ==> reply.uploadResults == b.results
    ensures reply.FolderFailed? ==> reply.code == 500
  {
    if b.raised.Some? then FolderFailed(500) else FolderOk(b.results)
  }

  /** One entry of the walk: filtered, then, when kept, ingested; the
      result is appended, or the exception returned. */
  method IngestEntry(ghost st: ObjectStore, ghost cat: Catalog, ghost job: FolderJob, ghost i: nat,
                     results: seq<FileResult>, effects: seq<Effect>, store: ObjectStore, catalog: Catalog,
                     e: Entry, env: Env, meta: Metadata, folder: string)
    returns (results': seq<FileResult>, effects': seq<Effect>, store': ObjectStore, catalog': Catalog,
             raised: Option<Raised>)
    requires i < |job.entries| <= |job.envs|
    requires e == job.entries[i] && env == job.envs[i] && meta == job.meta && folder == job.folder
    requires Batch(results, effects, store, catalog, None) == FanOut(Intended, st, cat, job, i)
    ensures Batch(results', effects', store', catalog', raised) == FanOut(Intended, st, cat, job, i + 1)
  {
    results', effects', store', catalog', raised := results, effects, store, catalog, None;
    if Eligible(e) {
      var r := ProcessAndStoreFile(store, catalog, EntryUpload(e, meta, folder), env);
      effects' := effects + r.effects;
      store', catalog' := r.store, r.catalog;
      if r.outcome.Failure? {
        raised := Some(r.outcome.error);
      } else {
        results' := results + [r.outcome.value];
      }
    }
  }

  /**
   * `create_upload_folder` (as intended) once the metadata has been decoded:
   * the batch folder is named from the archive's name, a fresh UUID and the
   * clock; an archive that does not open is answered 400; otherwise each
   * entry of the walk is filtered and ingested in turn under that folder,
   * and the first exception ends the batch with 500.
   */
  method UploadFolder(st: ObjectStore, cat: Catalog, archive: Option<seq<Entry>>, envs: seq<Env>,
                      meta: Metadata, zipName: string, uuidHex: string, now: Instant)
    returns (reply: FolderReply, b: Batch)
    requires |uuidHex| == 32
    requires archive.Some? ==> |archive.value| <= |envs|
    ensures archive.None? ==> reply == FolderFailed(400) && b == Batch([], [], st, cat, None)
    ensures archive.Some? ==>
      && b == FanOut(Intended, st, cat,
                     FolderJob(archive.value, envs, meta, FolderPrefix(zipName, uuidHex, now)), |archive.value|)
      && reply == FolderReplyOf(b)
  {
    var folder := FolderPrefix(zipName, uuidHex, now);
    if archive.None? {
      return FolderFailed(400), Batch([], [], st, cat, None);
    }
    ghost var job := FolderJob(archive.value, envs, meta, folder);
    var entries := archive.value;
    var results: seq<FileResult> := [];
    var effects: seq<Effect> := [];
    var store, catalog := st, cat;
    for i := 0 to |entries|
      invariant Batch(results, effects, store, catalog, None) == FanOut(Intended, st, cat, job, i)
    {
      var raised;
      results, effects, store, catalog, raised :=
        IngestEntry(st, cat, job, i, results, effects, store, catalog, entries[i], envs[i], meta, folder);
      if raised.Some? {
        b := Batch(results, effects, store, catalog, raised);
        FanOutStopped(Intended, st, cat, job, i + 1, |entries|);
        return FolderFailed(500), b;
      }
    }
    b := Batch(results, effects, store, catalog, None);
    reply := FolderOk(results);
  }

  // ---------------------------------------------------------------------
  // Search (search_files_endpoint)
  // ---------------------------------------------------------------------

  /** The reply of the search endpoint: the matching rows, or a 500. */
  datatype SearchReply = SearchOk(rows: seq<Row>) | SearchFailed(code: nat)

  /** What PostgreSQL answers to a query text and its bound parameters. */
  type Executor = (string, map<string, ParamValue>) -> Result<seq<Row>, DbFault>

  /**
   * The search endpoint with the filter passed under the name the search
   * function declares: the built query and parameters are executed, the rows
   * returned with 200, and a database error answered 500.
   */
  method SearchFilesEndpoint(q: SearchFilters, execute: Executor) returns (reply: SearchReply)
    ensures execute(SearchQuery(q), SearchParams(q)).Success? ==>
      reply == SearchOk(execute(SearchQuery(q), SearchParams(q)).value)
    ensures execute(SearchQuery(q), SearchParams(q)).Failure? ==> reply == SearchFailed(500)
  {
    var query, params := BuildSearchQuery(q);
    var answer := execute(query, params);
    if answer.Success? {
      reply := SearchOk(answer.value);
    } else {
      reply := SearchFailed(500);
    }
  }

  /** The search endpoint as written: the call passes the keyword
      `research_project_id`, which the search function does not accept, so
      it raises `TypeError` before any query is built. */
  function SearchEndpointAsWritten(q: SearchFilters, execute: Executor): SearchReply {
    SearchFailed(500)
  }

  /** As written, every search is answered 500, even when the database
      would answer the built query. */
  lemma {:induction false} SearchAsWrittenAlwaysFails(q: SearchFilters, execute: Executor)
    ensures SearchEndpointAsWritten(q, execute) == SearchFailed(500)
    ensures execute(SearchQuery(q), SearchParams(q)).Success? ==> !SearchEndpointAsWritten(q, execute).SearchOk?
  {
  }
}
