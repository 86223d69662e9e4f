/**
 * The deduplicating merge store of lsr_core.py (`update_lsr_database` and
 * `normalize_and_import_csv`): one cumulative stage-0 dataset per project, to which
 * each import appends the records whose title it has not seen before, all stamped
 * with one new batch id.
 */
module MergeStore {
  import opened Wrappers
  import opened Strings
  import opened Tables

  /** FINAL_COLUMNS, the schema of a stage-0 dataset. */
  const FinalColumns: seq<string> := [
    "database", "title", "journal", "year", "abstract", "abstract_source",
    "search_id", "search_start_year", "search_end_year", "run_date"
  ]

  /** `pd.DataFrame(columns=FINAL_COLUMNS)`: what a missing or empty file loads as. */
  const EmptyStore: Table := Frame(FinalColumns, [])

  /** One record dict handed to `update_lsr_database`; a key it lacks is None here. */
  datatype Candidate = Candidate(
    database: Value,
    title: Value,
    journal: Value,
    year: Value,
    abstractText: Value,
    abstractSource: Option<Value>)

  /** The exceptions loading can raise; each one stops the import before any write. */
  datatype StoreError =
    | MissingColumn(name: string)  // KeyError on `df_old[name]`
    | NoStoredId                   // `int(NaN)`: no stored row carries an id
    | NonNumericId                 // a non-integer id cell

  /** The stored dataset after loading, the id the batch will get, and the stored titles. */
  datatype Loaded = Loaded(table: Table, nextId: int, existing: set<string>)

  /** Backward compatibility: a legacy `search_round` header is renamed to `search_id`. */
  function Migrate(t: Table): (r: Table)
    ensures r.rows == t.rows && |r.columns| == |t.columns|
    ensures "search_id" in r.columns <==> "search_id" in t.columns || "search_round" in t.columns
    ensures "search_id" in t.columns ==> r == t
    ensures forall c :: c in t.columns && c != "search_round" ==> c in r.columns
  {
    if "search_id" !in t.columns && "search_round" in t.columns then
      var r := RenameColumns(t, map["search_round" := "search_id"]);
      ColumnIndexFirst(t.columns, "search_round");
      assert r.columns[ColumnIndex(t.columns, "search_round")] == "search_id";
      assert forall i :: 0 <= i < |t.columns| && t.columns[i] != "search_round" ==> r.columns[i] == t.columns[i];
      r
    else
      t
  }

  /** `max()` over a column, skipping missing cells; None when no cell holds a number. */
  function MaxNumber(cells: seq<Value>): (r: Option<int>)
    ensures r.None? <==> forall v :: v in cells ==> !v.Num?
    ensures r.Some? ==> Num(r.value) in cells && forall v :: v in cells && v.Num? ==> v.n <= r.value
    decreases |cells|
  {
    if cells == [] then None
    else
      var init := cells[..|cells| - 1];
      var last := cells[|cells| - 1];
      var rest := MaxNumber(init);
      assert cells == init + [last];
      if !last.Num? then rest
      else if rest.Some? && last.n <= rest.value then rest
      else Some(last.n)
  }

  /** A stored title as the existing-title set holds it: lower-cased, then stripped. */
  function TitleKey(v: Value): string
  {
    Trim(Lower(CellText(v)))
  }

  function StoredTitleKeys(t: Table): set<string>
  {
    set i | 0 <= i < |t.rows| :: TitleKey(Cell(t, i, "title"))
  }

  /**
   * Lines 77-87 on the migrated dataset: its next id is one more than its largest stored
   * id, so it exceeds every stored id.  A header with no rows has no largest id and fails.
   */
  function LoadTable(m: Table): (r: Result<Loaded, StoreError>)
    ensures r.Success? ==> r.value.table == m && r.value.existing == StoredTitleKeys(m)
    ensures r.Success? ==> "search_id" in m.columns && "title" in m.columns
    ensures r.Success? ==> forall v :: v in Column(m, "search_id") ==> !v.Str? && (v.Num? ==> v.n < r.value.nextId)
    ensures r.Success? ==> Num(r.value.nextId - 1) in Column(m, "search_id")
    ensures m.rows == [] ==> r.Failure?
  {
    if "search_id" !in m.columns then Failure(MissingColumn("search_id"))
    else
      var ids := Column(m, "search_id");
      if exists v :: v in ids && v.Str? then Failure(NonNumericId)
      else
        var top := MaxNumber(ids);
        if top.None? then Failure(NoStoredId)
        else if "title" !in m.columns then Failure(MissingColumn("title"))
        else Success(Loaded(m, top.value + 1, StoredTitleKeys(m)))
  }

  /**
   * Conversely, a dataset with both columns whose id cells are missing or numbers, with
   * `top` the largest of them, loads with next id `top + 1`.
   */
  lemma LoadTableFinds(m: Table, top: int)
    requires "search_id" in m.columns && "title" in m.columns
    requires forall v :: v in Column(m, "search_id") ==> !v.Str? && (v.Num? ==> v.n <= top)
    requires Num(top) in Column(m, "search_id")
    ensures LoadTable(m) == Success(Loaded(m, top + 1, StoredTitleKeys(m)))
  {
    var ids := Column(m, "search_id");
    assert MaxNumber(ids) == Some(top);
  }

  /**
   * Lines 72-87: a missing or zero-byte file starts a fresh dataset with batch id 1; a
   * written file is migrated first.
   */
  function Load(file: StoreFile): (r: Result<Loaded, StoreError>)
    ensures !file.Written? ==> r == Success(Loaded(EmptyStore, 1, {}))
    ensures file.Written? ==> r == LoadTable(Migrate(file.table))
  {
    if !file.Written? then Success(Loaded(EmptyStore, 1, {}))
    else LoadTable(Migrate(file.table))
  }

  /** A written dataset that already uses `search_id` loads as `LoadTableFinds` says. */
  lemma LoadWrittenFinds(m: Table, top: int)
    requires "search_id" in m.columns && "title" in m.columns
    requires forall v :: v in Column(m, "search_id") ==> !v.Str? && (v.Num? ==> v.n <= top)
    requires Num(top) in Column(m, "search_id")
    ensures Load(Written(m)) == Success(Loaded(m, top + 1, StoredTitleKeys(m)))
  {
    LoadTableFinds(m, top);
  }

  /** Line 92: the title stringified and stripped, original case kept. */
  function CandidateTitle(r: Candidate): string
  {
    Trim(CellText(r.title))
  }

  /** Line 96: the identity the duplicate test uses. */
  function TitleIdentity(r: Candidate): string
  {
    Lower(CandidateTitle(r))
  }

  /** Lines 93-97: a record survives when its title is not blank and not already stored. */
  predicate Admits(existing: set<string>, r: Candidate)
  {
    CandidateTitle(r) != [] && TitleIdentity(r) !in existing
  }

  /**
   * The records the loop of lines 91-110 keeps, in input order.  Admission is decided
   * against the pre-batch title set only.
   */
  function Admitted(records: seq<Candidate>, existing: set<string>): (a: seq<Candidate>)
    ensures |a| <= |records|
    ensures forall r :: r in a ==> r in records && Admits(existing, r)
    ensures forall r :: r in records && Admits(existing, r) ==> r in a
    decreases |records|
  {
    if records == [] then []
    else
      var init := records[..|records| - 1];
      var last := records[|records| - 1];
      assert records == init + [last];
      Admitted(init, existing) + (if Admits(existing, last) then [last] else [])
  }

  /**
   * Lines 99-110: the dict built for a surviving record, as a row under FinalColumns
   * (its key order): the record's own fields with the title stripped and the abstract
   * source defaulted, then the batch id, the search years and the run date.
   */
  function StampedRow(r: Candidate, id: int, startYear: int, endYear: int, runDate: string): (row: seq<Value>)
    ensures |row| == |FinalColumns|
  {
    [r.database, Str(CandidateTitle(r)), r.journal, r.year, r.abstractText,
     r.abstractSource.GetOr(Str("csv_import")),
     Num(id), Num(startYear), Num(endYear), Str(runDate)]
  }

  /** No schema name occurs twice. */
  lemma SchemaDistinct()
    ensures Distinct(FinalColumns)
  {
  }

  /** A name's first position in the schema is its only one. */
  lemma FinalColumnsDistinct(k: nat)
    requires k < |FinalColumns|
    ensures ColumnIndex(FinalColumns, FinalColumns[k]) == k
  {
    SchemaDistinct();
    DistinctColumnIndex(FinalColumns, k);
  }

  /** One stamped row per record, in order. */
  function StampAll(a: seq<Candidate>, id: int, startYear: int, endYear: int, runDate: string)
    : (rows: seq<seq<Value>>)
    ensures |rows| == |a|
    ensures forall k :: 0 <= k < |a| ==> rows[k] == StampedRow(a[k], id, startYear, endYear, runDate)
  {
    seq(|a|, k requires 0 <= k < |a| => StampedRow(a[k], id, startYear, endYear, runDate))
  }

  lemma StampAllAppend(a: seq<Candidate>, b: seq<Candidate>, id: int, startYear: int, endYear: int, runDate: string)
    ensures StampAll(a + b, id, startYear, endYear, runDate)
         == StampAll(a, id, startYear, endYear, runDate) + StampAll(b, id, startYear, endYear, runDate)
  {
    var l := StampAll(a + b, id, startYear, endYear, runDate);
    var rr := StampAll(a, id, startYear, endYear, runDate) + StampAll(b, id, startYear, endYear, runDate);
    assert |l| == |rr|;
    forall k | 0 <= k < |l| ensures l[k] == rr[k] {
      if k < |a| {
        assert (a + b)[k] == a[k];
      } else {
        assert (a + b)[k] == b[k - |a|];
      }
    }
  }

  /** `new_rows` after the loop of lines 91-110: a stamped row per admitted record. */
  function BatchRows(records: seq<Candidate>, existing: set<string>, id: int, startYear: int, endYear: int, runDate: string)
    : seq<seq<Value>>
  {
    StampAll(Admitted(records, existing), id, startYear, endYear, runDate)
  }

  /** `pd.DataFrame(new_rows)`: the stamped rows under the schema header. */
  function BatchFrame(rows: seq<seq<Value>>): (t: Table)
    requires forall k :: 0 <= k < |rows| ==> |rows[k]| == |FinalColumns|
    ensures t.columns == FinalColumns && t.rows == rows
  {
    assert forall row :: row in rows ==> |row| == |FinalColumns| by {
      forall row | row in rows ensures |row| == |FinalColumns| {
        var k :| 0 <= k < |rows| && rows[k] == row;
      }
    }
    Frame(FinalColumns, rows)
  }

  lemma AdmittedStep(records: seq<Candidate>, i: nat, existing: set<string>)
    requires i < |records|
    ensures Admitted(records[..i + 1], existing)
         == Admitted(records[..i], existing) + (if Admits(existing, records[i]) then [records[i]] else [])
  {
    assert records[..i + 1][..i] == records[..i] && records[..i + 1][i] == records[i];
  }

  /** One more record extends the batch by its stamped row exactly when it is admitted. */
  lemma BatchRowsStep(records: seq<Candidate>, i: nat, existing: set<string>, id: int, startYear: int, endYear: int, runDate: string)
    requires i < |records|
    ensures BatchRows(records[..i + 1], existing, id, startYear, endYear, runDate)
         == BatchRows(records[..i], existing, id, startYear, endYear, runDate)
            + (if Admits(existing, records[i]) then [StampedRow(records[i], id, startYear, endYear, runDate)] else [])
  {
    var r := records[i];
    var step := if Admits(existing, r) then [r] else [];
    AdmittedStep(records, i, existing);
    StampAllAppend(Admitted(records[..i], existing), step, id, startYear, endYear, runDate);
    assert StampAll(step, id, startYear, endYear, runDate)
        == if Admits(existing, r) then [StampedRow(r, id, startYear, endYear, runDate)] else [];
  }

  /** The names of `wanted` that `cols` lacks, in the order of `wanted`. */
  function AbsentColumns(wanted: seq<string>, cols: seq<string>): (r: seq<string>)
    ensures forall c :: c in r <==> c in wanted && c !in cols
    decreases |wanted| + |cols|
  {
    if wanted == [] then []
    else (if wanted[0] in cols then [] else [wanted[0]]) + AbsentColumns(wanted[1..], cols)
  }

  /** The header of a concatenation: the first header, then the names only the second has. */
  function MergedHeader(cols: seq<string>, incoming: seq<string>): (h: seq<string>)
    ensures |cols| <= |h| && h[..|cols|] == cols
    ensures forall c :: c in h <==> c in cols || c in incoming
  {
    // Identical headers align column for column.
    if incoming == cols then cols else cols + AbsentColumns(incoming, cols)
  }

  /** Row `j` of `t` laid out under the header `cols`: names `t` lacks become missing cells. */
  function ProjectRow(t: Table, j: nat, cols: seq<string>): (row: seq<Value>)
    requires j < |t.rows|
    ensures |row| == |cols|
    ensures forall k :: 0 <= k < |cols| ==> row[k] == Cell(t, j, cols[k])
  {
    seq(|cols|, k requires 0 <= k < |cols| => Cell(t, j, cols[k]))
  }

  /** The rows of `t`, each padded with `pad` missing cells. */
  function PaddedRows(t: Table, pad: nat): (rows: seq<seq<Value>>)
    ensures |rows| == |t.rows|
    ensures forall i :: 0 <= i < |rows| ==> rows[i] == t.rows[i] + Blanks(pad)
    ensures forall i :: 0 <= i < |rows| ==> |rows[i]| == |t.columns| + pad
  {
    seq(|t.rows|, i requires 0 <= i < |t.rows| => t.rows[i] + Blanks(pad))
  }

  /** The rows of `t`, each laid out under `cols`. */
  function ProjectedRows(t: Table, cols: seq<string>): (rows: seq<seq<Value>>)
    ensures |rows| == |t.rows|
    ensures forall j :: 0 <= j < |rows| ==> rows[j] == ProjectRow(t, j, cols)
  {
    seq(|t.rows|, j requires 0 <= j < |t.rows| => ProjectRow(t, j, cols))
  }

  /**
   * Lines 112-116, `pd.concat([df_old, df_new])`.  A batch without rows has no columns
   * either and leaves the dataset as loaded; otherwise the header gains the incoming
   * columns it lacked, every stored row is kept in place (padded with missing cells),
   * and the incoming rows follow in order, aligned by column name.
   */
  function Merge(stored: Table, incoming: Table): (r: Table)
    ensures incoming.rows == [] ==> r == stored
    ensures |r.rows| == |stored.rows| + |incoming.rows|
  {
    if incoming.rows == [] then stored
    else
      var cols := MergedHeader(stored.columns, incoming.columns);
      var kept := PaddedRows(stored, |cols| - |stored.columns|);
      var added := ProjectedRows(incoming, cols);
      RowsFit(kept, added, |cols|);
      Frame(cols, kept + added)
  }

  /**
   * The layout `pd.concat` gives `r`: the stored header first and unchanged, then only
   * names of the incoming header, every one of which is present when the batch has
   * rows; every stored row in place, padded with missing cells; then every incoming
   * row in order, laid out under the merged header by column name.
   */
  predicate MergeLayout(r: Table, stored: Table, incoming: Table)
  {
    && |r.rows| == |stored.rows| + |incoming.rows|
    && |stored.columns| <= |r.columns| && r.columns[..|stored.columns|] == stored.columns
    && (forall c :: c in r.columns ==> c in stored.columns || c in incoming.columns)
    && (incoming.rows != [] ==> forall c :: c in incoming.columns ==> c in r.columns)
    && (forall i :: 0 <= i < |stored.rows| ==> r.rows[i][..|stored.columns|] == stored.rows[i])
    && (forall j :: 0 <= j < |incoming.rows| ==> r.rows[|stored.rows| + j] == ProjectRow(incoming, j, r.columns))
  }

  lemma MergeHasLayout(stored: Table, incoming: Table)
    ensures MergeLayout(Merge(stored, incoming), stored, incoming)
  {
    MergeKeepsStoredRows(stored, incoming);
  }

  lemma MergeKeepsStoredRows(stored: Table, incoming: Table)
    ensures var r := Merge(stored, incoming);
      forall i :: 0 <= i < |stored.rows| ==> r.rows[i][..|stored.columns|] == stored.rows[i]
  {
    var r := Merge(stored, incoming);
    if incoming.rows != [] {
      var pad := |r.columns| - |stored.columns|;
      forall i | 0 <= i < |stored.rows| ensures r.rows[i][..|stored.columns|] == stored.rows[i] {
        assert r.rows[i] == PaddedRows(stored, pad)[i] == stored.rows[i] + Blanks(pad);
        assert stored.rows[i] in stored.rows;
      }
    }
  }

  /** What one call of `update_lsr_database` returns and leaves on disk. */
  datatype ImportEffect = ImportEffect(result: Result<(nat, int), StoreError>, file: StoreFile)

  /** Lines 64-119: on a load error nothing is written; otherwise the merged dataset is. */
  function Imported(f: StoreFile, records: seq<Candidate>, startYear: int, endYear: int, runDate: string)
    : (e: ImportEffect)
    ensures e.result.Failure? <==> Load(f).Failure?
    ensures e.result.Failure? ==> e.file == f && e.result.error == Load(f).error
    ensures e.result.Success? ==>
      && e.result.value.1 == Load(f).value.nextId
      && e.result.value.0 <= |records|
      && e.file.Written?
      && |e.file.table.rows| == |Load(f).value.table.rows| + e.result.value.0
  {
    match Load(f)
    case Failure(e) => ImportEffect(Failure(e), f)
    case Success(l) =>
      var batch := BatchRows(records, l.existing, l.nextId, startYear, endYear, runDate);
      ImportEffect(Success((|batch|, l.nextId)), Written(Merge(l.table, BatchFrame(batch))))
  }

  /**
   * The loop of lines 91-110: blank titles and titles already stored are skipped, and
   * every other record becomes a stamped row; titles repeated within the batch all stay.
   */
  method NewRows(records: seq<Candidate>, existing: set<string>, id: int, startYear: int, endYear: int, runDate: string)
    returns (newRows: seq<seq<Value>>)
    ensures newRows == BatchRows(records, existing, id, startYear, endYear, runDate)
  {
    newRows := [];
    for i := 0 to |records|
      invariant newRows == BatchRows(records[..i], existing, id, startYear, endYear, runDate)
    {
      var r := records[i];
      BatchRowsStep(records, i, existing, id, startYear, endYear, runDate);
      var title := CandidateTitle(r);
      if title != [] && Lower(title) !in existing {
        newRows := newRows + [StampedRow(r, id, startYear, endYear, runDate)];
      }
    }
    assert records[..|records|] == records;
  }

  /** The stage-0 dataset file of one project. */
  class Store {
    var file: StoreFile

    constructor (file: StoreFile)
      ensures this.file == file
    {
      this.file := file;
    }

    /** `update_lsr_database`, with `date.today()` passed in as `runDate`. */
    method Import(records: seq<Candidate>, startYear: int, endYear: int, runDate: string)
      returns (res: Result<(nat, int), StoreError>)
      modifies this
      ensures var e := Imported(old(file), records, startYear, endYear, runDate);
        res == e.result && file == e.file
    {
      var e := Update(file, records, startYear, endYear, runDate);
      file := e.file;
      res := e.result;
    }

    /** The body of `update_lsr_database` on the file's contents: what it returns and writes. */
    static method Update(f: StoreFile, records: seq<Candidate>, startYear: int, endYear: int, runDate: string)
      returns (e: ImportEffect)
      ensures e == Imported(f, records, startYear, endYear, runDate)
    {
      var loaded := Load(f);
      if loaded.Failure? {
        return ImportEffect(Failure(loaded.error), f);
      }
      var l := loaded.value;
      var newRows := NewRows(records, l.existing, l.nextId, startYear, endYear, runDate);
      e := ImportEffect(Success((|newRows|, l.nextId)), Written(Merge(l.table, BatchFrame(newRows))));
    }
  }

  /** Lines 136-143: the record built from row `i` of the upload. */
  function CandidateOf(t: Table, i: nat, database: string): Candidate
    requires i < |t.rows|
  {
    Candidate(Str(database), Cell(t, i, "title"), Cell(t, i, "journal"), Cell(t, i, "year"),
      Cell(t, i, "abstract"), Some(Str("csv_import")))
  }

  function Candidates(t: Table, database: string): (rs: seq<Candidate>)
    ensures |rs| == |t.rows|
    ensures forall i :: 0 <= i < |rs| ==> rs[i] == CandidateOf(t, i, database)
  {
    seq(|t.rows|, i requires 0 <= i < |t.rows| => CandidateOf(t, i, database))
  }

  /**
   * The loop of `normalize_and_import_csv`: exactly one record per row, in row order,
   * carrying the database name, the `csv_import` tag, and the four canonical cells
   * (missing when the upload has no such column).
   */
  method NormalizeRows(upload: Table, database: string) returns (records: seq<Candidate>)
    ensures |records| == |upload.rows|
    ensures forall i :: 0 <= i < |records| ==>
      && records[i].database == Str(database)
      && records[i].abstractSource == Some(Str("csv_import"))
      && records[i].title == Cell(upload, i, "title")
      && records[i].journal == Cell(upload, i, "journal")
      && records[i].year == Cell(upload, i, "year")
      && records[i].abstractText == Cell(upload, i, "abstract")
    ensures records == Candidates(upload, database)
  {
    ghost var all := Candidates(upload, database);
    records := [];
    for i := 0 to |upload.rows|
      invariant records == all[..i]
    {
      var r := Candidate(Str(database), Cell(upload, i, "title"), Cell(upload, i, "journal"),
        Cell(upload, i, "year"), Cell(upload, i, "abstract"), Some(Str("csv_import")));
      assert r == all[i];
      assert all[..i + 1] == all[..i] + [r];
      records := records + [r];
    }
    assert records == all;
  }

  /** `normalize_and_import_csv`: normalise the upload, then merge it into the store. */
  method NormalizeAndImport(store: Store, upload: Table, database: string, startYear: int, endYear: int, runDate: string)
    returns (res: Result<(nat, int), StoreError>)
    modifies store
    ensures var e := Imported(old(store.file), Candidates(upload, database), startYear, endYear, runDate);
      res == e.result && store.file == e.file
  {
    var records := NormalizeRows(upload, database);
    res := store.Import(records, startYear, endYear, runDate);
  }
}
