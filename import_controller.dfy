/**
 * The two steps of registering a reference search in lsr_app.py.  The first button
 * checks the registration fields and holds the parsed upload; the confirm button of the
 * column-mapping dialog standardises its columns, checks it against the previous
 * stage's file, writes the stage file (merging into the deduplicated store at the
 * first stage) and appends one entry to the search log.
 */
module ImportController {
  import opened Wrappers
  import opened Strings
  import opened Tables
  import opened MergeStore
  import opened Stages
  import opened ProjectMetadata
  import MergeProperties

  /** The placeholder choice of the required title selector. */
  const TitlePlaceholder: string := "— Select —"

  /** `clean` of lines 684-685: a choice starting with an em dash is a placeholder. */
  function Clean(choice: string): (r: Option<string>)
    ensures r.None? <==> |choice| > 0 && choice[0] == '—'
    ensures r.Some? ==> r.value == choice
  {
    if |choice| > 0 && choice[0] == '—' then None else Some(choice)
  }

  /** The selections of the mapping dialog (lines 640-673). */
  datatype Mapping = Mapping(
    title: string,
    authors: string,
    journal: string,
    year: string,
    abstractCol: string,
    custom: string)

  /** Column `c` was chosen for an optional field. */
  predicate Picked(choice: string, c: string)
  {
    Clean(choice).Some? && choice == c
  }

  /** Fields whose names the upload may lack and which are then added empty (line 700). */
  const Standard: seq<string> := ["authors", "journal", "year", "abstract"]

  /** The rename map of lines 687-696, built in the order the source builds it. */
  function RenameMap(m: Mapping): map<string, string>
  {
    var r0 := map[m.title := "title"];
    var r1 := if Clean(m.authors).Some? then r0[m.authors := "authors"] else r0;
    var r2 := if Clean(m.journal).Some? then r1[m.journal := "journal"] else r1;
    var r3 := if Clean(m.year).Some? then r2[m.year := "year"] else r2;
    if Clean(m.abstractCol).Some? then r3[m.abstractCol := "abstract"] else r3
  }

  /** The rename map renames exactly the title choice and the optional fields chosen. */
  lemma RenameMapKeys(m: Mapping)
    ensures var r := RenameMap(m);
      forall c :: c in r <==>
        c == m.title || Picked(m.authors, c) || Picked(m.journal, c) || Picked(m.year, c) || Picked(m.abstractCol, c)
  {
  }

  /**
   * Each optional field chosen renames its column to that field's name; a column chosen
   * for several fields takes the last of them in the order authors, journal, year, abstract.
   */
  lemma RenameMapFields(m: Mapping)
    ensures var r := RenameMap(m);
      forall c :: Picked(m.abstractCol, c) ==> r[c] == "abstract"
    ensures var r := RenameMap(m);
      forall c :: Picked(m.year, c) && !Picked(m.abstractCol, c) ==> r[c] == "year"
    ensures var r := RenameMap(m);
      forall c :: Picked(m.journal, c) && !Picked(m.year, c) && !Picked(m.abstractCol, c) ==> r[c] == "journal"
    ensures var r := RenameMap(m);
      forall c ::
        (Picked(m.authors, c) && !Picked(m.journal, c) && !Picked(m.year, c) && !Picked(m.abstractCol, c)) ==> r[c] == "authors"
  {
  }

  /** A column is renamed to "title" exactly when it is the title choice and no field re-picks it. */
  lemma RenameMapTitle(m: Mapping)
    ensures var r := RenameMap(m);
      forall c :: c in r ==> (r[c] == "title" <==>
        c == m.title && !Picked(m.authors, c) && !Picked(m.journal, c) && !Picked(m.year, c) && !Picked(m.abstractCol, c))
  {
  }

  /** `longer` starts with the names of `cols`, in order. */
  predicate HeaderExtends(longer: seq<string>, cols: seq<string>)
  {
    |cols| <= |longer| && forall k :: 0 <= k < |cols| ==> longer[k] == cols[k]
  }

  /**
   * `df[name] = None` for each name the header still lacks, in order: a name listed
   * twice is added once.
   */
  function Filled(t: Table, names: seq<string>): (r: Table)
    ensures |r.rows| == |t.rows|
    ensures HeaderExtends(r.columns, t.columns)
    decreases |names|
  {
    if names == [] then t
    else
      var u := Filled(t, names[..|names| - 1]);
      var c := names[|names| - 1];
      if c in u.columns then u else AddColumn(u, c)
  }

  /** After filling, every name given is a column. */
  lemma {:induction false} FilledHasNames(t: Table, names: seq<string>)
    ensures forall c :: c in names ==> c in Filled(t, names).columns
    decreases |names|
  {
    if names != [] {
      var front := names[..|names| - 1];
      FilledHasNames(t, front);
      assert names == front + [names[|names| - 1]];
    }
  }

  /** Filling adds no name but the ones it was given. */
  lemma {:induction false} FilledOnlyNames(t: Table, names: seq<string>, c: string)
    requires c in Filled(t, names).columns
    ensures c in t.columns || c in names
    decreases |names|
  {
    if names != [] {
      var front := names[..|names| - 1];
      var u := Filled(t, front);
      var last := names[|names| - 1];
      if c in u.columns {
        FilledOnlyNames(t, front, c);
        assert c in front ==> c in names;
      }
    }
  }

  /**
   * Filling keeps every row's cells in place and puts a missing cell under each added
   * column.
   */
  lemma {:induction false} FilledRows(t: Table, names: seq<string>, i: nat)
    requires i < |t.rows|
    ensures var r := Filled(t, names);
      && i < |r.rows| && |r.rows[i]| == |r.columns| && |t.rows[i]| == |t.columns|
      && (forall k :: 0 <= k < |t.columns| ==> r.rows[i][k] == t.rows[i][k])
      && (forall k :: |t.columns| <= k < |r.columns| ==> r.rows[i][k] == Missing)
    decreases |names|
  {
    var r := Filled(t, names);
    assert t.rows[i] in t.rows;
    assert r.rows[i] in r.rows;
    if names != [] {
      var u := Filled(t, names[..|names| - 1]);
      var c := names[|names| - 1];
      FilledRows(t, names[..|names| - 1], i);
      assert u.rows[i] in u.rows;
      if c !in u.columns {
        assert r == AddColumn(u, c);
        assert r.rows[i] == u.rows[i] + [Missing];
      }
    }
  }

  /** Filling never adds a name twice: a header without repeats keeps none. */
  lemma {:induction false} FilledDistinct(t: Table, names: seq<string>)
    requires Distinct(t.columns)
    ensures Distinct(Filled(t, names).columns)
    decreases |names|
  {
    if names != [] {
      FilledDistinct(t, names[..|names| - 1]);
    }
  }

  /** A longer header keeps the position of every name its prefix already has. */
  lemma ColumnIndexExtends(longer: seq<string>, cols: seq<string>, name: string)
    requires HeaderExtends(longer, cols)
    ensures name in cols ==> ColumnIndex(longer, name) == ColumnIndex(cols, name)
    ensures name !in cols ==> ColumnIndex(longer, name) >= |cols|
  {
    ColumnIndexFirst(cols, name);
    ColumnIndexFirst(longer, name);
    var i := ColumnIndex(cols, name);
    var j := ColumnIndex(longer, name);
    if name in cols {
      assert longer[i] == name;
    }
  }

  /** A column the table had reads the same after filling; a filled-in column reads missing. */
  lemma FilledCells(t: Table, names: seq<string>, i: nat, c: string)
    requires i < |t.rows|
    ensures i < |Filled(t, names).rows|
    ensures c in t.columns ==> Cell(Filled(t, names), i, c) == Cell(t, i, c)
    ensures c !in t.columns && c in names ==> Cell(Filled(t, names), i, c) == Missing
  {
    var r := Filled(t, names);
    FilledRows(t, names, i);
    ColumnIndexExtends(r.columns, t.columns, c);
    ColumnIndexFirst(t.columns, c);
  }

  /** Keeps the names that are not blank once stripped, stripped. */
  function NonBlankTrimmed(parts: seq<string>): seq<string>
    decreases |parts|
  {
    if parts == [] then []
    else
      var rest := NonBlankTrimmed(parts[1..]);
      if Trim(parts[0]) != [] then [Trim(parts[0])] + rest else rest
  }

  /** What is kept is exactly the stripped non-blank names, and stripping it again changes nothing. */
  lemma {:induction false} NonBlankTrimmedSpec(parts: seq<string>)
    ensures var r := NonBlankTrimmed(parts);
      forall c :: c in r ==> c != [] && Trim(c) == c
    ensures var r := NonBlankTrimmed(parts);
      forall c :: c in r <==> exists p :: p in parts && Trim(p) == c && c != []
    decreases |parts|
  {
    if parts != [] {
      NonBlankTrimmedSpec(parts[1..]);
      var p := parts[0];
      assert parts == [p] + parts[1..];
      TrimIdempotent(p);
    }
  }

  /** Line 704: the extra columns typed by the user, split at commas and stripped. */
  function CustomNames(raw: string): seq<string>
  {
    NonBlankTrimmed(Split(raw, ','))
  }

  /**
   * The custom names are the comma-separated pieces of the input that are not blank,
   * stripped: none is empty, none has surrounding space, none holds a comma.
   */
  lemma CustomNamesClean(raw: string)
    ensures forall c :: c in CustomNames(raw) ==> c != [] && Trim(c) == c && ',' !in c
    ensures forall c :: c in CustomNames(raw) <==> exists p :: p in Split(raw, ',') && Trim(p) == c && c != []
  {
    var parts := Split(raw, ',');
    NonBlankTrimmedSpec(parts);
    forall c | c in CustomNames(raw) ensures ',' !in c {
      var p :| p in parts && Trim(p) == c;
      TrimWithin(p);
    }
  }

  /**
   * Lines 698-706: the upload renamed by the mapping, then given every standard field it
   * lacks, then every custom column it lacks.
   */
  function Standardized(upload: Table, m: Mapping): Table
  {
    Filled(Filled(RenameColumns(upload, RenameMap(m)), Standard), CustomNames(m.custom))
  }

  /**
   * The standardised upload has as many rows as the upload; its header starts with the
   * renamed upload header and holds every standard field and every custom column.
   */
  lemma StandardizedShape(upload: Table, m: Mapping)
    ensures var std := Standardized(upload, m);
      && |std.rows| == |upload.rows|
      && HeaderExtends(std.columns, RenameColumns(upload, RenameMap(m)).columns)
      && (forall c :: c in Standard ==> c in std.columns)
      && (forall c :: c in CustomNames(m.custom) ==> c in std.columns)
  {
    var u := Filled(RenameColumns(upload, RenameMap(m)), Standard);
    assert HeaderExtends(u.columns, RenameColumns(upload, RenameMap(m)).columns);
    FilledHasNames(RenameColumns(upload, RenameMap(m)), Standard);
    FilledHasNames(u, CustomNames(m.custom));
  }

  /**
   * Row `i` of the standardised upload is row `i` of the upload, followed by missing
   * cells under the added columns.
   */
  lemma StandardizedRow(upload: Table, m: Mapping, i: nat)
    requires i < |upload.rows|
    ensures var std := Standardized(upload, m);
      && i < |std.rows|
      && (forall k :: 0 <= k < |upload.columns| ==> std.rows[i][k] == upload.rows[i][k])
      && (forall k :: |upload.columns| <= k < |std.columns| ==> std.rows[i][k] == Missing)
  {
    var renamed := RenameColumns(upload, RenameMap(m));
    var u := Filled(renamed, Standard);
    FilledRows(renamed, Standard, i);
    FilledRows(u, CustomNames(m.custom), i);
  }

  /**
   * The chosen title column becomes "title" in the standardised upload, unless the same
   * column was also chosen for another field.
   */
  lemma TitleColumnRenamed(upload: Table, m: Mapping)
    requires m.title in upload.columns
    requires !Picked(m.authors, m.title) && !Picked(m.journal, m.title)
    requires !Picked(m.year, m.title) && !Picked(m.abstractCol, m.title)
    ensures "title" in Standardized(upload, m).columns
  {
    var renamed := RenameColumns(upload, RenameMap(m));
    RenameMapKeys(m);
    RenameMapTitle(m);
    var k :| 0 <= k < |upload.columns| && upload.columns[k] == m.title;
    assert renamed.columns[k] == "title";
    StandardizedShape(upload, m);
  }

  /** A title column also chosen for another field takes that field's name. */
  lemma RenamedWithoutTitle(upload: Table, m: Mapping)
    requires "title" !in upload.columns
    requires Picked(m.authors, m.title) || Picked(m.journal, m.title) || Picked(m.year, m.title) || Picked(m.abstractCol, m.title)
    ensures "title" !in RenameColumns(upload, RenameMap(m)).columns
  {
    RenameMapKeys(m);
    RenameMapTitle(m);
  }

  /**
   * A title column also chosen for another field is renamed to that field: an upload
   * with no column already called "title" then has none, unless one is typed as a
   * custom column, and every row reads a missing title.
   */
  lemma TitleColumnReused(upload: Table, m: Mapping)
    requires "title" !in upload.columns && "title" !in CustomNames(m.custom)
    requires Picked(m.authors, m.title) || Picked(m.journal, m.title) || Picked(m.year, m.title) || Picked(m.abstractCol, m.title)
    ensures "title" !in Standardized(upload, m).columns
  {
    var renamed := RenameColumns(upload, RenameMap(m));
    RenamedWithoutTitle(upload, m);
    var u := Filled(renamed, Standard);
    if "title" in Standardized(upload, m).columns {
      FilledOnlyNames(u, CustomNames(m.custom), "title");
      FilledOnlyNames(renamed, Standard, "title");
    }
  }

  /** Why an import is refused; every refusal leaves the project as it was. */
  datatype Rejection =
    | MissingDatabase                                   // line 611
    | MissingQuery                                      // line 615
    | NoTitleColumn                                     // line 681
    | MissingPreviousStage(previous: Stage)             // line 719
    | TooManyRecords(count: nat, previousCount: nat)    // lines 724-729
    | StoreFailed(error: StoreError)                    // an exception raised by the store

  /** The registration fields of the search form (lines 554-599). */
  datatype Form = Form(stage: Stage, database: string, strategy: string, startYear: int, endYear: int)

  /** Lines 609-616: a database search needs a database name and a query. */
  function Registration(form: Form): (r: Option<Rejection>)
    ensures r.None? <==> form.stage != Search || (!IsBlank(form.database) && !IsBlank(form.strategy))
    ensures r.Some? ==> r.value == (if IsBlank(form.database) then MissingDatabase else MissingQuery)
  {
    if form.stage == Search && IsBlank(form.database) then Some(MissingDatabase)
    else if form.stage == Search && IsBlank(form.strategy) then Some(MissingQuery)
    else None
  }

  /** The file an upload for `stage` must narrow down. */
  function PreviousPath(projectId: string, stage: Stage): string
    requires Index(stage) > 0
  {
    StageDataPath(projectId, Previous(stage))
  }

  /** `os.path.exists`: a zero-byte file exists; an absent one does not. */
  predicate Exists(files: Files, path: string)
  {
    !FileAt(files, path).Absent?
  }

  /**
   * Lines 712-730: an upload for a later stage needs the previous stage's file and may
   * not hold more records than it.
   */
  function StageCheck(files: Files, projectId: string, stage: Stage, count: nat): (r: Option<Rejection>)
    ensures r.None? <==> (Index(stage) == 0 ||
      (Exists(files, PreviousPath(projectId, stage)) && count <= CountRows(files, PreviousPath(projectId, stage))))
    ensures r.Some? ==> (Index(stage) > 0 &&
      r.value == (if !Exists(files, PreviousPath(projectId, stage)) then MissingPreviousStage(Previous(stage))
                  else TooManyRecords(count, CountRows(files, PreviousPath(projectId, stage)))))
  {
    if Index(stage) == 0 then None
    else
      var prev := PreviousPath(projectId, stage);
      if !Exists(files, prev) then Some(MissingPreviousStage(Previous(stage)))
      else if count > CountRows(files, prev) then Some(TooManyRecords(count, CountRows(files, prev)))
      else None
  }

  /** What confirming an upload returns, the project files after it, and what it logs. */
  datatype Confirmation = Confirmation(result: Result<nat, Rejection>, files: Files, logged: seq<SearchEntry>)

  /** The search-log entry of lines 756-766 for a database search. */
  function SearchLogged(form: Form, runDate: string, raw: nat, added: nat, id: int): SearchEntry
  {
    SearchEntry(Some(id), Some(form.database), Some(form.strategy), Some(form.startYear), Some(form.endYear),
      runDate, raw, Some(added), Search)
  }

  /** The search-log entry of lines 756-766 for a screening stage. */
  function ScreeningLogged(form: Form, runDate: string, raw: nat): SearchEntry
  {
    SearchEntry(None, None, None, None, None, runDate, raw, None, form.stage)
  }

  /**
   * Lines 738-745: what the merge store does with a standardised database-search upload,
   * `normalize_and_import_csv` into the project's deduplicated file.
   */
  function StoreRun(projectId: string, files: Files, std: Table, form: Form, runDate: string): ImportEffect
  {
    Imported(FileAt(files, StageDataPath(projectId, Search)), Candidates(std, form.database),
      form.startYear, form.endYear, runDate)
  }

  /**
   * Lines 712-768 for a standardised upload `std`, given what the merge store does with
   * it (`store`, which `StoreRun` gives).  A refused upload changes no file and logs
   * nothing.  An accepted one rewrites only its own stage's file and logs exactly one
   * entry, for its stage, with the upload's row count as raw count; a later stage is
   * accepted only over an existing previous-stage file holding at least as many records.
   */
  function Checked(projectId: string, files: Files, std: Table, form: Form, runDate: string, store: ImportEffect)
    : (c: Confirmation)
    ensures c.result.Failure? ==> c.files == files && c.logged == []
    ensures c.result.Success? ==>
      && |c.logged| == 1
      && c.logged[0].importStage == form.stage
      && c.logged[0].recordsRaw == |std.rows|
      && StageDataPath(projectId, form.stage) in c.files
      && (forall p :: p != StageDataPath(projectId, form.stage) ==> FileAt(c.files, p) == FileAt(files, p))
    ensures c.result.Success? && Index(form.stage) > 0 ==>
      && Exists(files, PreviousPath(projectId, form.stage))
      && |std.rows| <= CountRows(files, PreviousPath(projectId, form.stage))
    ensures c.result != Failure(NoTitleColumn)
  {
    match StageCheck(files, projectId, form.stage, |std.rows|)
    case Some(rejection) => Confirmation(Failure(rejection), files, [])
    case None =>
      var path := StageDataPath(projectId, form.stage);
      if form.stage == Search then
        match store.result
        case Failure(err) => Confirmation(Failure(StoreFailed(err)), files, [])
        case Success(r) =>
          Confirmation(Success(r.0), files[path := store.file], [SearchLogged(form, runDate, |std.rows|, r.0, r.1)])
      else
        Confirmation(Success(|std.rows|), files[path := Written(std)], [ScreeningLogged(form, runDate, |std.rows|)])
  }

  /**
   * What an accepted upload leaves behind.  A screening upload replaces its stage's file
   * with the standardised upload exactly and logs no search id, database, query, years
   * or deduplicated count.  A database search writes what the merge store wrote, reports
   * the store's added count, and logs the store's batch id and added count with the
   * form's fields; a store error refuses the upload.
   */
  lemma CheckedWrites(projectId: string, files: Files, std: Table, form: Form, runDate: string, store: ImportEffect)
    ensures var c := Checked(projectId, files, std, form, runDate, store);
      c.result.Success? && form.stage != Search ==>
        && FileAt(c.files, StageDataPath(projectId, form.stage)) == Written(std)
        && c.result.value == |std.rows|
        && c.logged == [SearchEntry(None, None, None, None, None, runDate, |std.rows|, None, form.stage)]
    ensures var c := Checked(projectId, files, std, form, runDate, store);
      form.stage == Search ==>
        && (c.result.Success? <==> store.result.Success?)
        && (c.result.Success? ==>
              && FileAt(c.files, StageDataPath(projectId, Search)) == store.file
              && c.result.value == store.result.value.0
              && c.logged[0].searchId == Some(store.result.value.1)
              && c.logged[0].recordsDeduplicated == Some(store.result.value.0)
              && c.logged[0].database == Some(form.database)
              && c.logged[0].strategy == Some(form.strategy)
              && c.logged[0].startYear == Some(form.startYear)
              && c.logged[0].endYear == Some(form.endYear))
  {
  }

  /**
   * Lines 680-768: without a title column the upload is refused; otherwise it is
   * standardised and checked as `Checked` says.
   */
  function Confirmed(projectId: string, files: Files, upload: Table, form: Form, m: Mapping, runDate: string,
                     store: ImportEffect): (c: Confirmation)
    ensures c.result.Failure? ==> c.files == files && c.logged == []
    ensures c.result.Success? ==> |c.logged| == 1 && c.logged[0].recordsRaw == |upload.rows|
    ensures c.result == Failure(NoTitleColumn) <==> m.title == TitlePlaceholder
  {
    if m.title == TitlePlaceholder then Confirmation(Failure(NoTitleColumn), files, [])
    else Checked(projectId, files, Standardized(upload, m), form, runDate, store)
  }

  /**
   * The stage files narrow down: a screening file exists only after the file before it,
   * and the title/abstract file holds no more records than the deduplicated one.
   */
  predicate Narrowing(files: Files, projectId: string)
  {
    var p0 := StageDataPath(projectId, Search);
    var p1 := StageDataPath(projectId, AfterTitleAbstract);
    var p2 := StageDataPath(projectId, AfterFullText);
    && (Exists(files, p1) ==> Exists(files, p0))
    && (Exists(files, p2) ==> Exists(files, p1))
    && CountRows(files, p1) <= CountRows(files, p0)
  }

  /** Every checked upload keeps the stage files narrowing down, with a store that never shrinks. */
  lemma CheckedKeepsNarrowing(projectId: string, files: Files, std: Table, form: Form, runDate: string,
                              store: ImportEffect)
    requires Narrowing(files, projectId)
    requires MergeProperties.NeverShrinks(FileAt(files, StageDataPath(projectId, Search)), store)
    ensures Narrowing(Checked(projectId, files, std, form, runDate, store).files, projectId)
  {
    var c := Checked(projectId, files, std, form, runDate, store);
    if c.result.Success? {
      StageDataPathInjective(projectId, Search, AfterTitleAbstract);
      StageDataPathInjective(projectId, Search, AfterFullText);
      StageDataPathInjective(projectId, AfterTitleAbstract, AfterFullText);
    }
  }

  /** Every confirmation keeps the stage files narrowing down, with a store that never shrinks. */
  lemma ConfirmKeepsNarrowing(projectId: string, files: Files, upload: Table, form: Form, m: Mapping, runDate: string,
                              store: ImportEffect)
    requires Narrowing(files, projectId)
    requires MergeProperties.NeverShrinks(FileAt(files, StageDataPath(projectId, Search)), store)
    ensures Narrowing(Confirmed(projectId, files, upload, form, m, runDate, store).files, projectId)
  {
    if m.title != TitlePlaceholder {
      CheckedKeepsNarrowing(projectId, files, Standardized(upload, m), form, runDate, store);
    }
  }

  /** The merge store of lsr_core.py never shrinks its file, so confirmations keep the files narrowing. */
  lemma ConfirmedByStoreKeepsNarrowing(projectId: string, files: Files, upload: Table, form: Form, m: Mapping,
                                       runDate: string)
    requires Narrowing(files, projectId)
    ensures var store := StoreRun(projectId, files, Standardized(upload, m), form, runDate);
      Narrowing(Confirmed(projectId, files, upload, form, m, runDate, store).files, projectId)
  {
    var p0 := StageDataPath(projectId, Search);
    var std := Standardized(upload, m);
    MergeProperties.ImportKeepsRowCount(FileAt(files, p0), Candidates(std, form.database), form.startYear, form.endYear, runDate);
    ConfirmKeepsNarrowing(projectId, files, upload, form, m, runDate, StoreRun(projectId, files, std, form, runDate));
  }

  /**
   * Records identified grow by the upload's row count with each accepted database search
   * and stay as they were with everything else.
   */
  lemma ConfirmIdentifiedCount(projectId: string, files: Files, upload: Table, form: Form, m: Mapping, runDate: string,
                               store: ImportEffect, searches: seq<SearchEntry>)
    ensures var c := Confirmed(projectId, files, upload, form, m, runDate, store);
      IdentifiedCount(searches + c.logged) ==
        IdentifiedCount(searches) + (if c.result.Success? && form.stage == Search then |upload.rows| else 0)
  {
    var c := Confirmed(projectId, files, upload, form, m, runDate, store);
    if c.result.Success? {
      IdentifiedCountAppend(searches, c.logged);
      assert c.logged[..0] == [];
    } else {
      assert searches + c.logged == searches;
    }
  }

  /** One project: its stage files, its metadata, and the upload awaiting its column mapping. */
  class Project {
    const id: string
    const meta: Metadata
    var files: Files
    var pending: Option<Table>

    constructor (id: string, files: Files, meta: Metadata)
      ensures this.id == id && this.files == files && this.meta == meta && pending == None
    {
      this.id := id;
      this.files := files;
      this.meta := meta;
      pending := None;
    }

    /**
     * Lines 608-627: the import button.  A database search without a database name or a
     * query is refused; otherwise the parsed upload is held for the mapping dialog.
     */
    method RequestImport(form: Form, upload: Table) returns (r: Option<Rejection>)
      modifies this
      ensures r == Registration(form)
      ensures pending == (if r.None? then Some(upload) else old(pending))
      ensures files == old(files)
    {
      r := Registration(form);
      if r.None? {
        pending := Some(upload);
      }
    }

    /** Lines 775-779: cancelling drops the held upload. */
    method CancelImport()
      modifies this
      ensures pending == None && files == old(files)
    {
      pending := None;
    }

    /** Lines 687-706: rename by the mapping, then add the missing standard and custom columns. */
    static method Standardize(upload: Table, m: Mapping) returns (std: Table)
      ensures std == Standardized(upload, m)
    {
      std := RenameColumns(upload, RenameMap(m));
      std := FillColumns(std, Standard);
      var custom := CustomNames(m.custom);
      std := FillColumns(std, custom);
    }

    /** The loops of lines 700-706 adding each absent name as an empty column. */
    static method FillColumns(t: Table, names: seq<string>) returns (r: Table)
      ensures r == Filled(t, names)
    {
      r := t;
      for k := 0 to |names|
        invariant r == Filled(t, names[..k])
      {
        var c := names[k];
        assert names[..k + 1][..k] == names[..k] && names[..k + 1][k] == c;
        if c !in r.columns {
          r := AddColumn(r, c);
        }
      }
      assert names[..|names|] == names;
    }

    /**
     * Lines 678-773, the confirm button: the held upload is standardised, checked,
     * written to its stage file and logged as `Confirmed` says; on success the dialog
     * closes.  The outcome is returned for the message the page shows.
     */
    method ConfirmImport(form: Form, m: Mapping, runDate: string) returns (c: Confirmation)
      requires pending.Some?
      modifies this, meta
      ensures c == Confirmed(id, old(files), old(pending).value, form, m, runDate,
                             StoreRun(id, old(files), Standardized(old(pending).value, m), form, runDate))
      ensures files == c.files
      ensures meta.searches == old(meta.searches) + c.logged
      ensures pending == (if c.result.Success? then None else old(pending))
      ensures meta.stageStatus == old(meta.stageStatus) && meta.history == old(meta.history)
      ensures meta.current == old(meta.current)
    {
      c := Confirm(id, files, pending.value, form, m, runDate);
      Commit(c);
    }

    /** The decision of lines 680-766 on values: the title check, standardising, the stage write. */
    static method Confirm(projectId: string, files: Files, upload: Table, form: Form, m: Mapping, runDate: string)
      returns (c: Confirmation)
      ensures c == Confirmed(projectId, files, upload, form, m, runDate,
                             StoreRun(projectId, files, Standardized(upload, m), form, runDate))
    {
      if m.title == TitlePlaceholder {
        return Confirmation(Failure(NoTitleColumn), files, []);
      }
      var std := Standardize(upload, m);
      c := Stage(projectId, files, std, form, runDate);
    }

    /**
     * Lines 712-766: the stage check, then the stage file written (through the merge
     * store for the search stage) and the log entry made.
     */
    static method Stage(projectId: string, files: Files, std: Table, form: Form, runDate: string)
      returns (c: Confirmation)
      ensures c == Checked(projectId, files, std, form, runDate, StoreRun(projectId, files, std, form, runDate))
    {
      var check := StageCheck(files, projectId, form.stage, |std.rows|);
      if check.Some? {
        return Confirmation(Failure(check.value), files, []);
      }
      var path := StageDataPath(projectId, form.stage);
      if form.stage == Search {
        var store := new Store(FileAt(files, path));
        var r := NormalizeAndImport(store, std, form.database, form.startYear, form.endYear, runDate);
        if r.Failure? {
          return Confirmation(Failure(StoreFailed(r.error)), files, []);
        }
        c := Confirmation(Success(r.value.0), files[path := store.file],
                          [SearchLogged(form, runDate, |std.rows|, r.value.0, r.value.1)]);
      } else {
        c := Confirmation(Success(|std.rows|), files[path := Written(std)],
                          [ScreeningLogged(form, runDate, |std.rows|)]);
      }
    }

    /** Lines 756-773: the new stage files kept, the entry appended to the search log, the dialog closed. */
    method Commit(c: Confirmation)
      requires c.result.Success? ==> |c.logged| == 1
      requires c.result.Failure? ==> c.logged == []
      modifies this, meta
      ensures files == c.files
      ensures meta.searches == old(meta.searches) + c.logged
      ensures pending == (if c.result.Success? then None else old(pending))
      ensures meta.stageStatus == old(meta.stageStatus) && meta.history == old(meta.history)
      ensures meta.current == old(meta.current)
    {
      files := c.files;
      if c.result.Success? {
        meta.LogSearch(c.logged[0]);
        pending := None;
      } else {
        assert old(meta.searches) + c.logged == old(meta.searches);
      }
    }
  }
}
