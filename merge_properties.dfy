/**
 * What one or two imports into the stage-0 store guarantee: stored rows survive, every
 * new row carries the batch stamps, batch ids grow by one per non-empty batch, and a
 * title once stored is never admitted again.
 */
module MergeProperties {
  import opened Wrappers
  import opened Strings
  import opened Tables
  import opened MergeStore

  /** A stored cell keeps its value through a merge. */
  lemma StoredCellKept(t: Table, stored: Table, incoming: Table, i: nat, name: string)
    requires MergeLayout(t, stored, incoming)
    requires i < |stored.rows| && name in stored.columns
    ensures i < |t.rows| && Cell(t, i, name) == Cell(stored, i, name)
  {
    var n := |stored.columns|;
    assert t.columns == stored.columns + t.columns[n..];
    ColumnIndexPrefix(stored.columns, t.columns[n..], name);
    ColumnIndexFirst(stored.columns, name);
    var p := ColumnIndex(stored.columns, name);
    assert t.rows[i] in t.rows;
    assert t.rows[i][..n][p] == t.rows[i][p];
  }

  /** A merge keeps every stored column name. */
  lemma StoredColumnKept(t: Table, stored: Table, incoming: Table, name: string)
    requires MergeLayout(t, stored, incoming) && name in stored.columns
    ensures name in t.columns
  {
    var n := |stored.columns|;
    assert t.columns == stored.columns + t.columns[n..];
  }

  /** A cell of an appended row holds the incoming row's value under that name. */
  lemma AppendedCell(t: Table, stored: Table, incoming: Table, j: nat, name: string)
    requires MergeLayout(t, stored, incoming)
    requires j < |incoming.rows| && name in incoming.columns
    ensures |stored.rows| + j < |t.rows| && Cell(t, |stored.rows| + j, name) == Cell(incoming, j, name)
  {
    ColumnIndexFirst(t.columns, name);
    var p := ColumnIndex(t.columns, name);
    assert t.columns[p] == name;
    assert t.rows[|stored.rows| + j] == ProjectRow(incoming, j, t.columns);
  }

  /**
   * Read under the schema columns, row `i` of `t` is exactly the dict of lines 99-110
   * for record `r`: its own fields, then the batch stamps.
   */
  predicate RowStamped(t: Table, i: nat, r: Candidate, id: int, startYear: int, endYear: int, runDate: string)
    requires i < |t.rows|
  {
    ProjectRow(t, i, FinalColumns) == StampedRow(r, id, startYear, endYear, runDate)
  }

  /** The row a merge appends for a stamped batch row reads back as that stamped row. */
  lemma AppendedRowStamped(t: Table, stored: Table, batch: seq<seq<Value>>, j: nat,
                           r: Candidate, id: int, startYear: int, endYear: int, runDate: string)
    requires forall k :: 0 <= k < |batch| ==> |batch[k]| == |FinalColumns|
    requires MergeLayout(t, stored, BatchFrame(batch))
    requires j < |batch| && batch[j] == StampedRow(r, id, startYear, endYear, runDate)
    ensures |stored.rows| + j < |t.rows| && RowStamped(t, |stored.rows| + j, r, id, startYear, endYear, runDate)
  {
    var b := BatchFrame(batch);
    var row := ProjectRow(t, |stored.rows| + j, FinalColumns);
    var stamped := StampedRow(r, id, startYear, endYear, runDate);
    forall k | 0 <= k < |FinalColumns| ensures row[k] == stamped[k] {
      AppendedCell(t, stored, b, j, FinalColumns[k]);
      FinalColumnsDistinct(k);
    }
  }

  /**
   * Merging a batch of stamped records keeps every stored row in place and appends one
   * row per record, in order, each reading back as that record's stamped row.
   */
  lemma BatchStamped(t: Table, stored: Table, a: seq<Candidate>, id: int, startYear: int, endYear: int, runDate: string)
    requires MergeLayout(t, stored, BatchFrame(StampAll(a, id, startYear, endYear, runDate)))
    ensures |t.rows| == |stored.rows| + |a|
    ensures forall i :: 0 <= i < |stored.rows| ==> t.rows[i][..|stored.columns|] == stored.rows[i]
    ensures forall j :: 0 <= j < |a| ==> RowStamped(t, |stored.rows| + j, a[j], id, startYear, endYear, runDate)
  {
    var batch := StampAll(a, id, startYear, endYear, runDate);
    forall j | 0 <= j < |a| ensures RowStamped(t, |stored.rows| + j, a[j], id, startYear, endYear, runDate) {
      AppendedRowStamped(t, stored, batch, j, a[j], id, startYear, endYear, runDate);
    }
  }

  /** What a successful load guarantees about the loaded dataset. */
  predicate Consistent(l: Loaded)
  {
    && "search_id" in l.table.columns
    && "title" in l.table.columns
    && (forall v :: v in Column(l.table, "search_id") ==> !v.Str? && (v.Num? ==> v.n < l.nextId))
    && l.existing == StoredTitleKeys(l.table)
  }

  lemma LoadConsistent(f: StoreFile)
    requires Load(f).Success?
    ensures Consistent(Load(f).value)
  {
  }

  /** The dataset an import writes, given what it loaded. */
  function After(l: Loaded, records: seq<Candidate>, startYear: int, endYear: int, runDate: string): Table
  {
    Merge(l.table, BatchFrame(BatchRows(records, l.existing, l.nextId, startYear, endYear, runDate)))
  }

  lemma AfterLayout(l: Loaded, records: seq<Candidate>, startYear: int, endYear: int, runDate: string)
    ensures MergeLayout(After(l, records, startYear, endYear, runDate), l.table,
      BatchFrame(StampAll(Admitted(records, l.existing), l.nextId, startYear, endYear, runDate)))
  {
    MergeHasLayout(l.table, BatchFrame(BatchRows(records, l.existing, l.nextId, startYear, endYear, runDate)));
  }

  /**
   * An import that fails to load writes nothing and reports the error; one that loads
   * reports the admitted count and the batch id, and writes the merged dataset.
   */
  lemma ImportWrites(f: StoreFile, records: seq<Candidate>, startYear: int, endYear: int, runDate: string)
    ensures var e := Imported(f, records, startYear, endYear, runDate);
      Load(f).Failure? ==> e.file == f && e.result == Failure(Load(f).error)
    ensures var e := Imported(f, records, startYear, endYear, runDate);
      Load(f).Success? ==>
        var l := Load(f).value;
        && e.result == Success((|Admitted(records, l.existing)|, l.nextId))
        && e.file == Written(After(l, records, startYear, endYear, runDate))
  {
  }

  /** Loading a written file keeps its rows as they are, in order. */
  lemma LoadKeepsRows(f: StoreFile)
    requires f.Written? && Load(f).Success?
    ensures Load(f).value.table.rows == f.table.rows
  {
  }

  /**
   * The merged dataset holds the stored rows unchanged and in order, followed by one
   * stamped row per admitted record, in input order.
   */
  lemma AfterAppends(l: Loaded, records: seq<Candidate>, startYear: int, endYear: int, runDate: string)
    ensures var a := Admitted(records, l.existing);
      var t := After(l, records, startYear, endYear, runDate);
      var n := |l.table.rows|;
      && |t.rows| == n + |a|
      && (forall i :: 0 <= i < n ==> t.rows[i][..|l.table.columns|] == l.table.rows[i])
      && (forall j :: 0 <= j < |a| ==> RowStamped(t, n + j, a[j], l.nextId, startYear, endYear, runDate))
  {
    AfterLayout(l, records, startYear, endYear, runDate);
    BatchStamped(After(l, records, startYear, endYear, runDate), l.table, Admitted(records, l.existing),
      l.nextId, startYear, endYear, runDate);
  }

  /**
   * An import that never shrinks the store: on failure the file is left as it was; on
   * success a dataset is written holding at least the rows already stored.
   */
  predicate NeverShrinks(f: StoreFile, e: ImportEffect)
  {
    && (e.result.Failure? ==> e.file == f)
    && (e.result.Success? ==> e.file.Written? && RowCount(e.file) >= RowCount(f))
  }

  /** `update_lsr_database` never shrinks the store. */
  lemma ImportKeepsRowCount(f: StoreFile, records: seq<Candidate>, startYear: int, endYear: int, runDate: string)
    ensures NeverShrinks(f, Imported(f, records, startYear, endYear, runDate))
  {
    ImportWrites(f, records, startYear, endYear, runDate);
    if Load(f).Success? {
      var l := Load(f).value;
      AfterAppends(l, records, startYear, endYear, runDate);
      if f.Written? {
        LoadKeepsRows(f);
      }
    }
  }

  /** A store created by its first import has exactly the schema columns, in order. */
  lemma FreshStoreSchema(f: StoreFile, records: seq<Candidate>, startYear: int, endYear: int, runDate: string)
    requires !f.Written?
    ensures Imported(f, records, startYear, endYear, runDate).file.table.columns == FinalColumns
  {
  }

  /** Every row of a stamped batch holds the batch id and the record's stripped title. */
  lemma BatchCells(a: seq<Candidate>, id: int, startYear: int, endYear: int, runDate: string)
    ensures var b := BatchFrame(StampAll(a, id, startYear, endYear, runDate));
      && |b.rows| == |a| && "search_id" in b.columns && "title" in b.columns
      && (forall j :: 0 <= j < |a| ==> Cell(b, j, "search_id") == Num(id))
      && (forall j :: 0 <= j < |a| ==> Cell(b, j, "title") == Str(CandidateTitle(a[j])))
  {
    FinalColumnsDistinct(1);
    FinalColumnsDistinct(6);
    assert FinalColumns[1] == "title" && FinalColumns[6] == "search_id";
  }

  /**
   * A merge whose incoming rows all hold `id` under `name`, over a store whose cells
   * under `name` are missing or numbers below `id`, holds only missing cells and numbers
   * up to `id` there, and holds `id` itself.
   */
  lemma MergedIds(t: Table, stored: Table, incoming: Table, name: string, id: int)
    requires MergeLayout(t, stored, incoming)
    requires name in stored.columns && name in incoming.columns && incoming.rows != []
    requires forall v :: v in Column(stored, name) ==> !v.Str? && (v.Num? ==> v.n < id)
    requires forall j :: 0 <= j < |incoming.rows| ==> Cell(incoming, j, name) == Num(id)
    ensures forall v :: v in Column(t, name) ==> !v.Str? && (v.Num? ==> v.n <= id)
    ensures Num(id) in Column(t, name)
  {
    var ids := Column(t, name);
    var before := Column(stored, name);
    var n := |stored.rows|;
    forall k | 0 <= k < |ids| ensures !ids[k].Str? && (ids[k].Num? ==> ids[k].n <= id) {
      if k < n {
        StoredCellKept(t, stored, incoming, k, name);
        assert ids[k] == before[k];
        assert before[k] in before;
      } else {
        AppendedCell(t, stored, incoming, k - n, name);
      }
    }
    AppendedCell(t, stored, incoming, 0, name);
    assert ids[n] == Num(id);
  }

  /**
   * A dataset merged from a loaded store and a non-empty batch stamped with the next id
   * can be loaded again: it has both columns, its ids are missing or numbers no larger
   * than the batch id, and the batch id occurs (so `LoadWrittenFinds` applies with it).
   */
  lemma MergedLoadable(t: Table, l: Loaded, incoming: Table)
    requires Consistent(l) && MergeLayout(t, l.table, incoming)
    requires incoming.rows != [] && "search_id" in incoming.columns
    requires forall j :: 0 <= j < |incoming.rows| ==> Cell(incoming, j, "search_id") == Num(l.nextId)
    ensures "search_id" in t.columns && "title" in t.columns
    ensures forall v :: v in Column(t, "search_id") ==> !v.Str? && (v.Num? ==> v.n <= l.nextId)
    ensures Num(l.nextId) in Column(t, "search_id")
  {
    MergedIds(t, l.table, incoming, "search_id", l.nextId);
    StoredColumnKept(t, l.table, incoming, "search_id");
    StoredColumnKept(t, l.table, incoming, "title");
  }

  /**
   * Batch ids: a batch that adds rows makes the next import's id one larger; a batch that
   * adds nothing to a written file leaves the file and the next id as they were; a first
   * import that adds nothing leaves a header-only file that no later import can load,
   * because it holds no id to continue from.
   */
  lemma NextIdAfterImport(f: StoreFile, records: seq<Candidate>, startYear: int, endYear: int, runDate: string)
    requires Load(f).Success?
    ensures var l := Load(f).value;
      var g := Imported(f, records, startYear, endYear, runDate).file;
      && (Admitted(records, l.existing) != [] ==> Load(g).Success? && Load(g).value.nextId == l.nextId + 1)
      && (Admitted(records, l.existing) == [] && f.Written? ==> Load(g) == Load(f))
      && (Admitted(records, l.existing) == [] && !f.Written? ==> Load(g).Failure?)
  {
    var l := Load(f).value;
    LoadConsistent(f);
    var a := Admitted(records, l.existing);
    if a != [] {
      AfterLayout(l, records, startYear, endYear, runDate);
      BatchCells(a, l.nextId, startYear, endYear, runDate);
      var t := After(l, records, startYear, endYear, runDate);
      MergedLoadable(t, l, BatchFrame(StampAll(a, l.nextId, startYear, endYear, runDate)));
      LoadWrittenFinds(t, l.nextId);
    } else if f.Written? {
      assert Migrate(l.table) == l.table;
    }
  }

  /** The stored-title set only grows when a merge appends rows. */
  lemma StoredTitlesKept(t: Table, stored: Table, incoming: Table)
    requires MergeLayout(t, stored, incoming)
    requires "title" in stored.columns
    ensures StoredTitleKeys(stored) <= StoredTitleKeys(t)
  {
    forall k | k in StoredTitleKeys(stored) ensures k in StoredTitleKeys(t) {
      var i :| 0 <= i < |stored.rows| && k == TitleKey(Cell(stored, i, "title"));
      StoredCellKept(t, stored, incoming, i, "title");
      assert k == TitleKey(Cell(t, i, "title"));
    }
  }

  /** The key stored for an admitted record is the identity it was admitted under. */
  lemma StoredKeyOfTitle(r: Candidate)
    ensures TitleKey(Str(CandidateTitle(r))) == TitleIdentity(r)
  {
    TrimLowerCommute(CandidateTitle(r));
    TrimIdempotent(CellText(r.title));
  }

  /**
   * After merging rows that carry the titles of the records `a`, the stored titles
   * include every title stored before and the identity of every record of `a`.
   */
  lemma TitlesAfterBatch(t: Table, l: Loaded, incoming: Table, a: seq<Candidate>, r: Candidate)
    requires Consistent(l) && MergeLayout(t, l.table, incoming)
    requires |incoming.rows| == |a| && "title" in incoming.columns
    requires forall j :: 0 <= j < |a| ==> Cell(incoming, j, "title") == Str(CandidateTitle(a[j]))
    requires r in a
    ensures l.existing <= StoredTitleKeys(t)
    ensures TitleIdentity(r) in StoredTitleKeys(t)
  {
    StoredTitlesKept(t, l.table, incoming);
    var j :| 0 <= j < |a| && a[j] == r;
    AppendedCell(t, l.table, incoming, j, "title");
    StoredKeyOfTitle(r);
    assert TitleKey(Cell(t, |l.table.rows| + j, "title")) in StoredTitleKeys(t);
  }

  /**
   * A non-empty batch leaves a dataset that reloads with the next id and whose stored
   * titles include the identity of every record of the batch with a non-blank title.
   */
  lemma BatchRecordsTitles(l: Loaded, records: seq<Candidate>, startYear: int, endYear: int, runDate: string, r: Candidate)
    requires Consistent(l) && Admitted(records, l.existing) != []
    requires r in records && CandidateTitle(r) != []
    ensures var t := After(l, records, startYear, endYear, runDate);
      && "search_id" in t.columns && "title" in t.columns
      && (forall v :: v in Column(t, "search_id") ==> !v.Str? && (v.Num? ==> v.n <= l.nextId))
      && Num(l.nextId) in Column(t, "search_id")
      && TitleIdentity(r) in StoredTitleKeys(t)
  {
    var a := Admitted(records, l.existing);
    var t := After(l, records, startYear, endYear, runDate);
    var b := BatchFrame(StampAll(a, l.nextId, startYear, endYear, runDate));
    AfterLayout(l, records, startYear, endYear, runDate);
    BatchCells(a, l.nextId, startYear, endYear, runDate);
    MergedLoadable(t, l, b);
    if Admits(l.existing, r) {
      TitlesAfterBatch(t, l, b, a, r);
    } else {
      StoredTitlesKept(t, l.table, b);
    }
  }

  /**
   * After an import, the identity of every record with a non-blank title is stored:
   * either it was already, or the import appended it.
   */
  lemma SeenTitleStored(f: StoreFile, records: seq<Candidate>, startYear: int, endYear: int, runDate: string, r: Candidate)
    requires Load(f).Success?
    requires r in records && CandidateTitle(r) != []
    ensures var g := Imported(f, records, startYear, endYear, runDate).file;
      Load(g).Success? && TitleIdentity(r) in Load(g).value.existing
  {
    var l := Load(f).value;
    LoadConsistent(f);
    ImportWrites(f, records, startYear, endYear, runDate);
    if Admitted(records, l.existing) != [] {
      BatchRecordsTitles(l, records, startYear, endYear, runDate, r);
      LoadWrittenFinds(After(l, records, startYear, endYear, runDate), l.nextId);
    } else {
      NextIdAfterImport(f, records, startYear, endYear, runDate);
      assert r !in Admitted(records, l.existing);
    }
  }

  /** A batch none of whose records is admitted reports zero rows and the next id. */
  lemma NothingAdmittedAddsNothing(g: StoreFile, records: seq<Candidate>, startYear: int, endYear: int, runDate: string)
    requires Load(g).Success?
    requires forall r :: r in records ==> !Admits(Load(g).value.existing, r)
    ensures Imported(g, records, startYear, endYear, runDate).result == Success((0, Load(g).value.nextId))
  {
    var l := Load(g).value;
    ImportWrites(g, records, startYear, endYear, runDate);
    NoneAdmitted(records, l.existing);
  }

  /** Importing the same records a second time adds nothing. */
  lemma ReimportAddsNothing(f: StoreFile, records: seq<Candidate>, startYear: int, endYear: int, runDate: string,
                            startYear2: int, endYear2: int, runDate2: string)
    requires Load(f).Success?
    ensures var g := Imported(f, records, startYear, endYear, runDate).file;
      Load(g).Success? ==>
        Imported(g, records, startYear2, endYear2, runDate2).result == Success((0, Load(g).value.nextId))
  {
    var g := Imported(f, records, startYear, endYear, runDate).file;
    if Load(g).Success? {
      forall r | r in records ensures !Admits(Load(g).value.existing, r) {
        if CandidateTitle(r) != [] {
          SeenTitleStored(f, records, startYear, endYear, runDate, r);
        }
      }
      NothingAdmittedAddsNothing(g, records, startYear2, endYear2, runDate2);
    }
  }

  lemma {:induction false} AdmittedAppend(a: seq<Candidate>, b: seq<Candidate>, existing: set<string>)
    ensures Admitted(a + b, existing) == Admitted(a, existing) + Admitted(b, existing)
    decreases |b|
  {
    if b == [] {
      assert a + b == a;
    } else {
      var b' := b[..|b| - 1];
      assert (a + b)[..|a + b| - 1] == a + b' && (a + b)[|a + b| - 1] == b[|b| - 1];
      AdmittedAppend(a, b', existing);
    }
  }

  /** Admission looks only at the stored titles, so a batch of new titles is kept whole. */
  lemma {:induction false} AllAdmittedKept(records: seq<Candidate>, existing: set<string>)
    requires forall r :: r in records ==> Admits(existing, r)
    ensures Admitted(records, existing) == records
    decreases |records|
  {
    if records != [] {
      var init := records[..|records| - 1];
      assert records == init + [records[|records| - 1]];
      AllAdmittedKept(init, existing);
    }
  }

  /** A batch of records that are all blank or already stored admits nothing. */
  lemma {:induction false} NoneAdmitted(records: seq<Candidate>, existing: set<string>)
    requires forall r :: r in records ==> !Admits(existing, r)
    ensures Admitted(records, existing) == []
    decreases |records|
  {
    if records != [] {
      var init := records[..|records| - 1];
      assert forall r :: r in init ==> r in records;
      NoneAdmitted(init, existing);
      assert records[|records| - 1] in records;
    }
  }

  /**
   * Titles repeated inside one batch are all stored: the duplicate test does not see the
   * batch's own rows.
   */
  lemma DuplicatesWithinBatchKept(f: StoreFile, r: Candidate, startYear: int, endYear: int, runDate: string)
    requires Load(f).Success? && Admits(Load(f).value.existing, r)
    ensures Imported(f, [r, r], startYear, endYear, runDate).result == Success((2, Load(f).value.nextId))
  {
    AllAdmittedKept([r, r], Load(f).value.existing);
  }

  /** A record whose title is blank is never stored. */
  lemma BlankTitleSkipped(f: StoreFile, records: seq<Candidate>, r: Candidate)
    requires Load(f).Success? && IsBlank(CellText(r.title))
    ensures r !in Admitted(records, Load(f).value.existing)
  {
  }

  /** A legacy header `search_round` is read as `search_id`, values untouched. */
  lemma LegacyRoundColumn(t: Table)
    requires "search_round" in t.columns && "search_id" !in t.columns
    ensures Column(Migrate(t), "search_id") == Column(t, "search_round")
  {
    var m := Migrate(t);
    var p := ColumnIndex(t.columns, "search_round");
    var q := ColumnIndex(m.columns, "search_id");
    ColumnIndexFirst(t.columns, "search_round");
    ColumnIndexFirst(m.columns, "search_id");
    assert m.columns[p] == "search_id";
    assert q == p by {
      forall k | 0 <= k < p ensures m.columns[k] != "search_id" {
        assert m.columns[k] == Renamed(t.columns[k], map["search_round" := "search_id"]);
      }
    }
  }

  /**
   * Read back by column name from its batch frame, a stamped row holds what the dict of
   * lines 99-110 puts under each key: the record's fields, the stripped title, the abstract
   * source defaulted to `csv_import`, then the batch id, the search years and the run date.
   * Any other name reads as missing.
   */
  lemma StampedRowByName(r: Candidate, id: int, startYear: int, endYear: int, runDate: string, name: string)
    ensures var c := Cell(BatchFrame([StampedRow(r, id, startYear, endYear, runDate)]), 0, name);
      && (name == "database" ==> c == r.database)
      && (name == "title" ==> c == Str(CandidateTitle(r)))
      && (name == "journal" ==> c == r.journal)
      && (name == "year" ==> c == r.year)
      && (name == "abstract" ==> c == r.abstractText)
      && (name == "abstract_source" ==> c == r.abstractSource.GetOr(Str("csv_import")))
      && (name == "search_id" ==> c == Num(id))
      && (name == "search_start_year" ==> c == Num(startYear))
      && (name == "search_end_year" ==> c == Num(endYear))
      && (name == "run_date" ==> c == Str(runDate))
      && (name !in FinalColumns ==> c == Missing)
  {
    var row := StampedRow(r, id, startYear, endYear, runDate);
    if name == "database" {
      StampedCell(row, name, 0);
    } else if name == "title" {
      StampedCell(row, name, 1);
    } else if name == "journal" {
      StampedCell(row, name, 2);
    } else if name == "year" {
      StampedCell(row, name, 3);
    } else if name == "abstract" {
      StampedCell(row, name, 4);
    } else if name == "abstract_source" {
      StampedCell(row, name, 5);
    } else if name == "search_id" {
      StampedCell(row, name, 6);
    } else if name == "search_start_year" {
      StampedCell(row, name, 7);
    } else if name == "search_end_year" {
      StampedCell(row, name, 8);
    } else if name == "run_date" {
      StampedCell(row, name, 9);
    } else {
      ColumnIndexFirst(FinalColumns, name);
    }
  }

  /** The cell under the k-th schema name of a one-row batch frame is the row's k-th value. */
  lemma StampedCell(row: seq<Value>, name: string, k: nat)
    requires |row| == |FinalColumns| && k < |FinalColumns| && FinalColumns[k] == name
    ensures Cell(BatchFrame([row]), 0, name) == row[k]
  {
    FinalColumnsDistinct(k);
  }
}
