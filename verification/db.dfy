/**
 * The catalog side of `server_backend/app/db.py`: the search-query builder of
 * `search_files_in_db`, the outcome mapping of `store_file_metadata_in_db`
 * and the lookup of `get_file_minio_details`.  The PostgreSQL server is an
 * abstract value: its rows and the fault, if any, that every later call
 * meets (a fault is sticky: a failed call leaves the catalog as it was).
 */
module Db {
  import opened Wrappers
  import opened Text
  import opened Utils

  /** A calendar date as `datetime.date` holds it. */
  datatype Date = Date(year: nat, month: nat, day: nat)

  // ---------------------------------------------------------------------
  // Search query construction (search_files_in_db)
  // ---------------------------------------------------------------------

  /**
   * The optional filters of `search_files_in_db`.  `fileId` is the string
   * form of a UUID; a UUID and a date are always truthy, while a text filter
   * is falsy when it is absent or empty.
   */
  datatype SearchFilters = SearchFilters(
    fileId: Option<string>,
    projectId: Option<string>,
    author: Option<string>,
    fileType: Option<string>,
    experimentType: Option<string>,
    tagsContain: Option<string>,
    dateBefore: Option<Date>,
    dateAfter: Option<Date>)

  /** A bound query parameter: text, or a date passed to the driver as is. */
  datatype ParamValue = TextParam(text: string) | DateParam(date: Date)

  /** The filterable fields, one per `if` of the builder. */
  datatype Field =
    | FileIdField | ProjectIdField | AuthorField | FileTypeField
    | ExperimentTypeField | DateAfterField | DateBeforeField | TagsField

  /** The order in which the builder considers the filters. */
  const FieldOrder: seq<Field> := [FileIdField, ProjectIdField, AuthorField, FileTypeField,
                                   ExperimentTypeField, DateAfterField, DateBeforeField, TagsField]

  /** The position of a field in `FieldOrder`. */
  function Rank(f: Field): (r: nat)
    ensures r < |FieldOrder| && FieldOrder[r] == f
  {
    match f
    case FileIdField => 0
    case ProjectIdField => 1
    case AuthorField => 2
    case FileTypeField => 3
    case ExperimentTypeField => 4
    case DateAfterField => 5
    case DateBeforeField => 6
    case TagsField => 7
  }

  /** The name of the field's query parameter. */
  function ParamName(f: Field): string {
    match f
    case FileIdField => "file_id"
    case ProjectIdField => "project_id"
    case AuthorField => "author"
    case FileTypeField => "file_type"
    case ExperimentTypeField => "experiment_type"
    case DateAfterField => "date_after"
    case DateBeforeField => "date_before"
    case TagsField => "tags_contain"
  }

  /** The catalog column the field's condition tests. */
  function Column(f: Field): string {
    match f
    case FileIdField => "file_id"
    case ProjectIdField => "project_id"
    case AuthorField => "author"
    case FileTypeField => "file_type"
    case ExperimentTypeField => "experiment_type"
    case DateAfterField => "date_conducted"
    case DateBeforeField => "date_conducted"
    case TagsField => "custom_tags"
  }

  /** The comparison the field's condition uses. */
  function Op(f: Field): string {
    match f
    case FileIdField => "="
    case DateAfterField => ">="
    case DateBeforeField => "<="
    case _ => "ILIKE"
  }

  /**
   * The condition text the builder appends for a field: its column, its
   * operator and its named parameter, as in `file_id = %(file_id)s` or
   * `date_conducted >= %(date_after)s`.
   */
  function Clause(f: Field): string {
    Column(f) + " " + Op(f) + " %(" + ParamName(f) + ")s"
  }

  /** A text filter is truthy when present and non-empty. */
  predicate Truthy(v: Option<string>) {
    v.Some? && v.value != ""
  }

  /** `%v%`: the value wrapped for a partial ILIKE match. */
  function Wildcard(v: string): (r: string)
    ensures |r| == |v| + 2 && r[0] == '%' && r[|r| - 1] == '%' && r[1..|r| - 1] == v
  {
    "%" + v + "%"
  }

  /** The parameter a field binds, when its filter is truthy. */
  function Param(q: SearchFilters, f: Field): Option<ParamValue> {
    match f
    case FileIdField => if q.fileId.Some? then Some(TextParam(q.fileId.value)) else None
    case ProjectIdField => if Truthy(q.projectId) then Some(TextParam(Wildcard(q.projectId.value))) else None
    case AuthorField => if Truthy(q.author) then Some(TextParam(Wildcard(q.author.value))) else None
    case FileTypeField => if Truthy(q.fileType) then Some(TextParam(Wildcard(q.fileType.value))) else None
    case ExperimentTypeField =>
      if Truthy(q.experimentType) then Some(TextParam(Wildcard(q.experimentType.value))) else None
    case DateAfterField => if q.dateAfter.Some? then Some(DateParam(q.dateAfter.value)) else None
    case DateBeforeField => if q.dateBefore.Some? then Some(DateParam(q.dateBefore.value)) else None
    case TagsField => if Truthy(q.tagsContain) then Some(TextParam(Wildcard(q.tagsContain.value))) else None
  }

  predicate Active(q: SearchFilters, f: Field) {
    Param(q, f).Some?
  }

  /** The field, when its filter is truthy; nothing otherwise. */
  function OptField(q: SearchFilters, f: Field): seq<Field> {
    if Active(q, f) then [f] else []
  }

  /** The fields that contribute a condition, in builder order. */
  function ActiveFields(q: SearchFilters): seq<Field> {
    OptField(q, FileIdField) + OptField(q, ProjectIdField) + OptField(q, AuthorField)
    + OptField(q, FileTypeField) + OptField(q, ExperimentTypeField) + OptField(q, DateAfterField)
    + OptField(q, DateBeforeField) + OptField(q, TagsField)
  }

  /** The condition texts of some fields, in the same order. */
  function Clauses(fs: seq<Field>): (r: seq<string>)
    ensures |r| == |fs|
    ensures forall i :: 0 <= i < |fs| ==> r[i] == Clause(fs[i])
  {
    seq(|fs|, i requires 0 <= i < |fs| => Clause(fs[i]))
  }

  /** The SELECT of `search_files_in_db`, with its layout. */
  const BaseQuery: string :=
    "\n            SELECT file_id, project_id, file_name, file_type, content_type,\n"
    + "                   experiment_type, author, date_conducted, size_bytes,\n"
    + "                   minio_bucket_name, minio_object_path, upload_timestamp, custom_tags\n"
    + "            FROM file_index.files_metadata_catalog\n            "

  const OrderSuffix: string := " ORDER BY upload_timestamp DESC LIMIT 100;"

  /** The query text a list of conditions yields. */
  function QueryText(clauses: seq<string>): string {
    (if clauses != [] then BaseQuery + " WHERE " + JoinWith(clauses, " AND ") else BaseQuery) + OrderSuffix
  }

  /** The query text of a search. */
  function SearchQuery(q: SearchFilters): string {
    QueryText(Clauses(ActiveFields(q)))
  }

  /** `m` with the field's parameter bound, when its filter is truthy. */
  function Bind(q: SearchFilters, f: Field, m: map<string, ParamValue>): map<string, ParamValue> {
    if Active(q, f) then m[ParamName(f) := Param(q, f).value] else m
  }

  /** The parameters of a search: every truthy filter's value under its name. */
  function SearchParams(q: SearchFilters): map<string, ParamValue> {
    Bind(q, TagsField, Bind(q, DateBeforeField, Bind(q, DateAfterField, Bind(q, ExperimentTypeField,
      Bind(q, FileTypeField, Bind(q, AuthorField, Bind(q, ProjectIdField, Bind(q, FileIdField, map[]))))))))
  }

  /** Distinct fields bind distinct parameter names. */
  lemma {:induction false} ParamNameInjective(f: Field, g: Field)
    requires ParamName(f) == ParamName(g)
    ensures f == g
  {
  }

  /** The conditions of two runs of fields, one after the other. */
  lemma {:induction false} ClausesAppend(a: seq<Field>, b: seq<Field>)
    ensures Clauses(a + b) == Clauses(a) + Clauses(b)
  {
  }

  /**
   * One filter block of `search_files_in_db`: when the filter is given (and,
   * for a text filter, non-empty) its condition is appended and its
   * parameter bound; otherwise nothing changes.
   */
  method AddFilter(q: SearchFilters, f: Field, whereClauses: seq<string>, queryParams: map<string, ParamValue>,
                   ghost done: seq<Field>)
    returns (clauses': seq<string>, params': map<string, ParamValue>)
    requires whereClauses == Clauses(done)
    ensures clauses' == Clauses(done + OptField(q, f))
    ensures params' == Bind(q, f, queryParams)
  {
    ClausesAppend(done, OptField(q, f));
    clauses', params' := whereClauses, queryParams;
    var p := Param(q, f);
    if p.Some? {
      clauses' := clauses' + [Clause(f)];
      params' := params'[ParamName(f) := p.value];
    }
  }

  /** The tail of `search_files_in_db`'s query construction: WHERE only when there is a condition. */
  method AssembleQuery(whereClauses: seq<string>) returns (query: string)
    ensures whereClauses == [] ==> query == BaseQuery + OrderSuffix
    ensures whereClauses != [] ==> query == BaseQuery + " WHERE " + JoinWith(whereClauses, " AND ") + OrderSuffix
  {
    var finalQuery: string;
    if whereClauses != [] {
      finalQuery := BaseQuery + " WHERE " + JoinWith(whereClauses, " AND ");
    } else {
      finalQuery := BaseQuery;
    }
    query := finalQuery + OrderSuffix;
  }

  /**
   * The WHERE/params construction of `search_files_in_db`: one conditional
   * block per filter, in the fixed order, then the joined WHERE clause when
   * there is one, and the ORDER BY/LIMIT suffix in every case.
   */
  method BuildSearchQuery(q: SearchFilters) returns (query: string, params: map<string, ParamValue>)
    ensures query == SearchQuery(q)
    ensures params == SearchParams(q)
  {
    var whereClauses: seq<string> := [];
    var queryParams: map<string, ParamValue> := map[];
    ghost var done: seq<Field> := [];
    whereClauses, queryParams := AddFilter(q, FileIdField, whereClauses, queryParams, done);
    assert [] + OptField(q, FileIdField) == OptField(q, FileIdField);
    done := OptField(q, FileIdField);
    whereClauses, queryParams := AddFilter(q, ProjectIdField, whereClauses, queryParams, done);
    done := done + OptField(q, ProjectIdField);
    whereClauses, queryParams := AddFilter(q, AuthorField, whereClauses, queryParams, done);
    done := done + OptField(q, AuthorField);
    whereClauses, queryParams := AddFilter(q, FileTypeField, whereClauses, queryParams, done);
    done := done + OptField(q, FileTypeField);
    whereClauses, queryParams := AddFilter(q, ExperimentTypeField, whereClauses, queryParams, done);
    done := done + OptField(q, ExperimentTypeField);
    whereClauses, queryParams := AddFilter(q, DateAfterField, whereClauses, queryParams, done);
    done := done + OptField(q, DateAfterField);
    whereClauses, queryParams := AddFilter(q, DateBeforeField, whereClauses, queryParams, done);
    done := done + OptField(q, DateBeforeField);
    whereClauses, queryParams := AddFilter(q, TagsField, whereClauses, queryParams, done);
    done := done + OptField(q, TagsField);
    assert done == ActiveFields(q);
    query := AssembleQuery(whereClauses);
    params := queryParams;
  }

  /** A search with no truthy filter has no WHERE clause, and only such a search. */
  lemma {:induction false} NoWhereIffNoFilter(q: SearchFilters)
    ensures SearchQuery(q) == BaseQuery + OrderSuffix <==> (forall f :: !Active(q, f))
  {
    var a := ActiveFields(q);
    if a != [] {
      assert Active(q, a[0]) by { ActiveFieldsMembership(q, a[0]); }
      assert |SearchQuery(q)| > |BaseQuery + OrderSuffix|;
    } else {
      forall f ensures !Active(q, f) {
        ActiveFieldsMembership(q, f);
      }
    }
  }

  /** `f` is among the fields of `a` extended by `g`'s contribution. */
  lemma {:induction false} MemberStep(q: SearchFilters, a: seq<Field>, g: Field, f: Field, seen: bool)
    requires f in a <==> seen && Active(q, f)
    ensures f in a + OptField(q, g) <==> (seen || f == g) && Active(q, f)
  {
  }

  /** A field contributes a condition exactly when its filter is truthy. */
  lemma {:induction false} ActiveFieldsMembership(q: SearchFilters, f: Field)
    ensures f in ActiveFields(q) <==> Active(q, f)
  {
    assert f in [] + OptField(q, FileIdField) <==> f == FileIdField && Active(q, f) by {
      MemberStep(q, [], FileIdField, f, false);
    }
    assert [] + OptField(q, FileIdField) == OptField(q, FileIdField);
    var a := OptField(q, FileIdField);
    MemberStep(q, a, ProjectIdField, f, Rank(f) < 1);
    a := a + OptField(q, ProjectIdField);
    MemberStep(q, a, AuthorField, f, Rank(f) < 2);
    a := a + OptField(q, AuthorField);
    MemberStep(q, a, FileTypeField, f, Rank(f) < 3);
    a := a + OptField(q, FileTypeField);
    MemberStep(q, a, ExperimentTypeField, f, Rank(f) < 4);
    a := a + OptField(q, ExperimentTypeField);
    MemberStep(q, a, DateAfterField, f, Rank(f) < 5);
    a := a + OptField(q, DateAfterField);
    MemberStep(q, a, DateBeforeField, f, Rank(f) < 6);
    a := a + OptField(q, DateBeforeField);
    MemberStep(q, a, TagsField, f, Rank(f) < 7);
    a := a + OptField(q, TagsField);
  }

  /** All ranks in `a` are below `n`. */
  predicate RanksBelow(a: seq<Field>, n: nat) {
    forall i :: 0 <= i < |a| ==> Rank(a[i]) < n
  }

  /** Ranks strictly increase along `a`. */
  predicate RankOrdered(a: seq<Field>) {
    forall i, j :: 0 <= i < j < |a| ==> Rank(a[i]) < Rank(a[j])
  }

  lemma {:induction false} OrderedStep(q: SearchFilters, a: seq<Field>, f: Field)
    requires RankOrdered(a) && RanksBelow(a, Rank(f))
    ensures RankOrdered(a + OptField(q, f)) && RanksBelow(a + OptField(q, f), Rank(f) + 1)
  {
  }

  /** The conditions appear in the builder's fixed order, each at most once. */
  lemma {:induction false} ActiveFieldsOrdered(q: SearchFilters)
    ensures RankOrdered(ActiveFields(q))
  {
    var a := OptField(q, FileIdField);
    OrderedStep(q, a, ProjectIdField);
    a := a + OptField(q, ProjectIdField);
    OrderedStep(q, a, AuthorField);
    a := a + OptField(q, AuthorField);
    OrderedStep(q, a, FileTypeField);
    a := a + OptField(q, FileTypeField);
    OrderedStep(q, a, ExperimentTypeField);
    a := a + OptField(q, ExperimentTypeField);
    OrderedStep(q, a, DateAfterField);
    a := a + OptField(q, DateAfterField);
    OrderedStep(q, a, DateBeforeField);
    a := a + OptField(q, DateBeforeField);
    OrderedStep(q, a, TagsField);
  }

  /** Binding one field never touches another field's parameter. */
  lemma {:induction false} BindOther(q: SearchFilters, f: Field, g: Field, m: map<string, ParamValue>)
    requires f != g
    ensures ParamName(g) in Bind(q, f, m) <==> ParamName(g) in m
    ensures ParamName(g) in m ==> Bind(q, f, m)[ParamName(g)] == m[ParamName(g)]
  {
    if ParamName(f) == ParamName(g) {
      ParamNameInjective(f, g);
    }
  }

  /** `m` binds `f`'s parameter as the builder does once `f` has been
      considered (`seen`), and not at all before. */
  predicate ParamAgrees(q: SearchFilters, m: map<string, ParamValue>, f: Field, seen: bool) {
    && (ParamName(f) in m <==> seen && Active(q, f))
    && (ParamName(f) in m ==> m[ParamName(f)] == Param(q, f).value)
  }

  lemma {:induction false} BindStep(q: SearchFilters, m: map<string, ParamValue>, g: Field, f: Field, seen: bool)
    requires ParamAgrees(q, m, f, seen)
    ensures ParamAgrees(q, Bind(q, g, m), f, seen || f == g)
  {
    if f != g {
      BindOther(q, g, f, m);
    }
  }

  /**
   * The bound parameters are exactly those of the truthy filters, each under
   * its own name with the value `Param` gives: the raw file id, `%v%` for a
   * text filter, the date itself for a date filter.
   */
  lemma {:induction false} SearchParamsExact(q: SearchFilters, f: Field)
    ensures ParamName(f) in SearchParams(q) <==> Active(q, f)
    ensures Active(q, f) ==> SearchParams(q)[ParamName(f)] == Param(q, f).value
  {
    var m: map<string, ParamValue> := map[];
    BindStep(q, m, FileIdField, f, false);
    m := Bind(q, FileIdField, m);
    BindStep(q, m, ProjectIdField, f, Rank(f) < 1);
    m := Bind(q, ProjectIdField, m);
    BindStep(q, m, AuthorField, f, Rank(f) < 2);
    m := Bind(q, AuthorField, m);
    BindStep(q, m, FileTypeField, f, Rank(f) < 3);
    m := Bind(q, FileTypeField, m);
    BindStep(q, m, ExperimentTypeField, f, Rank(f) < 4);
    m := Bind(q, ExperimentTypeField, m);
    BindStep(q, m, DateAfterField, f, Rank(f) < 5);
    m := Bind(q, DateAfterField, m);
    BindStep(q, m, DateBeforeField, f, Rank(f) < 6);
    m := Bind(q, DateBeforeField, m);
    BindStep(q, m, TagsField, f, Rank(f) < 7);
    m := Bind(q, TagsField, m);
  }

  /** Every bound name belongs to a truthy filter. */
  lemma {:induction false} SearchParamsKeys(q: SearchFilters, key: string)
    requires key in SearchParams(q)
    ensures exists f :: ParamName(f) == key && Active(q, f)
  {
  }

  // ---------------------------------------------------------------------
  // The catalog (store_file_metadata_in_db, get_file_minio_details)
  // ---------------------------------------------------------------------

  /** One row of `file_index.files_metadata_catalog`. */
  datatype Row = Row(
    fileId: string,
    projectId: Option<string>,
    fileName: string,
    fileType: string,
    contentType: string,
    experimentType: Option<string>,
    author: Option<string>,
    dateConducted: Option<Date>,
    sizeBytes: nat,
    bucket: string,
    objectPath: string,
    uploadTimestamp: Instant,
    customTags: Option<string>)

  /**
   * What the next database call meets: a `DatabaseConnectionError` from
   * `get_pg_connection`, a `psycopg2.Error` from the statement or the commit,
   * or any other exception; each carries its text.
   */
  datatype DbFault =
    | ConnectionFault(detail: string)
    | OperationalFault(detail: string)
    | UnexpectedFault(detail: string)

  /** The PostgreSQL catalog: its rows and the fault, if any, that every later
      call meets until the value is replaced. */
  datatype Catalog = Catalog(rows: seq<Row>, fault: Option<DbFault>)

  /** The `inserted_metadata_summary` of a successful store. */
  datatype Summary = Summary(originalFileName: string, objectPath: string, projectId: Option<string>)

  /** The status dictionary `store_file_metadata_in_db` returns. */
  datatype StoreOutcome =
    | StoreSuccess(fileId: string, summary: Summary, message: string)
    | StoreError(message: string)

  const StoredMessage: string := "Metadata stored successfully."

  /** The error message for a fault, by the handler that catches it. */
  function FaultMessage(e: DbFault): (r: string)
    ensures e.ConnectionFault? ==> r == "Database Connection Error: " + e.detail
    ensures e.OperationalFault? ==> r == "Database operational error: " + e.detail
    ensures e.UnexpectedFault? ==> r == "Failed to store metadata: " + e.detail
  {
    match e
    case ConnectionFault(d) => "Database Connection Error: " + d
    case OperationalFault(d) => "Database operational error: " + d
    case UnexpectedFault(d) => "Failed to store metadata: " + d
  }

  /**
   * `store_file_metadata_in_db`: the INSERT of one row and its commit, or,
   * when the call meets a fault, a rollback that leaves the catalog as it
   * was and the error status naming the fault.
   */
  function StoreFileMetadata(cat: Catalog, row: Row): (r: (Catalog, StoreOutcome))
    ensures r.1.StoreSuccess? <==> cat.fault.None?
    ensures r.1.StoreSuccess? ==> r.0 == cat.(rows := cat.rows + [row])
    ensures r.1.StoreSuccess? ==> r.1 == StoreSuccess(row.fileId, Summary(row.fileName, row.objectPath, row.projectId), StoredMessage)
    ensures r.1.StoreError? ==> r.0 == cat && r.1.message == FaultMessage(cat.fault.value)
  {
    match cat.fault
    case None =>
      (cat.(rows := cat.rows + [row]), StoreSuccess(row.fileId, Summary(row.fileName, row.objectPath, row.projectId), StoredMessage))
    case Some(e) => (cat, StoreError(FaultMessage(e)))
  }

  /** The position of the first row with the given id, as `fetchone` returns it. */
  function FindRow(rows: seq<Row>, id: string): (r: Option<nat>)
    ensures r.Some? ==> r.value < |rows| && rows[r.value].fileId == id
    ensures r.Some? ==> forall j :: 0 <= j < r.value ==> rows[j].fileId != id
    ensures r.None? ==> forall j :: 0 <= j < |rows| ==> rows[j].fileId != id
  {
    if rows == [] then None
    else if rows[0].fileId == id then Some(0)
    else match FindRow(rows[1..], id)
      case None => None
      case Some(i) => Some(i + 1)
  }

  /** The dictionary `get_file_minio_details` returns for a row. */
  datatype Location = Location(bucket: string, path: string, filename: string, contentType: string)

  function LocationOf(row: Row): Location {
    Location(row.bucket, row.objectPath, row.fileName, row.contentType)
  }

  /**
   * `get_file_minio_details`: the bucket, path, name and content type of the
   * file's row, `None` when there is no such row, and the fault re-raised
   * when the call meets one.
   */
  function GetFileMinioDetails(cat: Catalog, id: string): (r: Result<Option<Location>, DbFault>)
    ensures r.Failure? <==> cat.fault.Some?
    ensures r.Failure? ==> r.error == cat.fault.value
    ensures r.Success? && r.value.Some? ==>
      exists i :: 0 <= i < |cat.rows| && cat.rows[i].fileId == id && r.value.value == LocationOf(cat.rows[i])
    ensures r.Success? && r.value.None? ==> forall i :: 0 <= i < |cat.rows| ==> cat.rows[i].fileId != id
  {
    match cat.fault
    case Some(e) => Failure(e)
    case None =>
      match FindRow(cat.rows, id)
      case None => Success(None)
      case Some(i) => Success(Some(LocationOf(cat.rows[i])))
  }

  /**
   * A file stored under a fresh id is found afterwards, at the location it
   * was stored with; a failed store leaves every lookup as it was.
   */
  lemma {:induction false} StoreThenFind(cat: Catalog, row: Row)
    requires forall i :: 0 <= i < |cat.rows| ==> cat.rows[i].fileId != row.fileId
    ensures var (cat', out) := StoreFileMetadata(cat, row);
      out.StoreSuccess? ==> GetFileMinioDetails(cat', row.fileId) == Success(Some(LocationOf(row)))
  {
    var (cat', out) := StoreFileMetadata(cat, row);
    if out.StoreSuccess? {
      assert cat'.rows[|cat.rows|] == row;
      assert forall j :: 0 <= j < |cat.rows| ==> cat'.rows[j] == cat.rows[j];
    }
  }

  /** Storing a row leaves the lookup of every other id unchanged. */
  lemma {:induction false} StoreKeepsOthers(cat: Catalog, row: Row, id: string)
    requires id != row.fileId
    ensures GetFileMinioDetails(StoreFileMetadata(cat, row).0, id) == GetFileMinioDetails(cat, id)
  {
    var cat' := StoreFileMetadata(cat, row).0;
    if cat.fault.None? {
      FindRowAppend(cat.rows, row, id);
    }
  }

  lemma {:induction false} FindRowAppend(rows: seq<Row>, row: Row, id: string)
    requires id != row.fileId
    ensures FindRow(rows + [row], id) == FindRow(rows, id)
  {
    if rows != [] {
      assert (rows + [row])[1..] == rows[1..] + [row];
      FindRowAppend(rows[1..], row, id);
    }
  }
}
