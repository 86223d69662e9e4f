# Living systematic review: record import pipeline

This project models the record import pipeline of a living systematic review manager
(`lsr_core.py` and the import parts of `lsr_app.py`) in Dafny and proves what it promises.

- **Column alias resolver** (`ColumnAliases`). An export header is normalised by
  lower-casing it and deleting spaces and underscores. Each of the four bibliographic
  fields (title, abstract, journal, year) is then looked up in a fixed table of known
  spellings.
- **Merge store** (`MergeStore`, `MergeProperties`). This is the cumulative, deduplicated
  stage-0 dataset of a project. Its file is absent, zero bytes, or a written table.
  - Each import loads the file. A legacy `search_round` header is read as `search_id`.
  - The batch gets one id: the largest stored id plus one, or 1 for a fresh store.
  - Records with a blank title are dropped. So are records whose lower-cased, stripped
    title is among the stored titles. That set is taken before the batch, so repeats
    inside one batch are all kept.
  - The survivors are appended below the stored rows, stamped with the batch id, the
    search years and the run date.
- **Import controller** (`ImportController`). An import goes in two steps:
  - The import button checks that a database search names its database and query, then
    holds the upload.
  - The confirm button then:
    1. Refuses the upload while the title selector is on its placeholder.
    2. Renames the chosen columns and adds any missing standard or custom columns.
    3. Checks the upload against the previous stage's file: the file must exist, and the
       upload may not hold more rows than it.
    4. Writes the stage file. Stage 0 goes through the merge store; a later stage
       replaces its file.
    5. Appends one entry to the search log.
  - A refused upload changes nothing.
- **Stages and metadata** (`Stages`, `ProjectMetadata`):
  - The three upload stages and their files, and the row count of a stage file.
  - The three-state status cycle and the defaulting of the status map.
  - The numbered study-identification history.
  - The search log and the count of records identified.
- **Sankey links** (`Sankey`). There is one link per searched database into "Records
  identified", carrying that database's raw record total, then the three screening links.

Imperative parts are modelled as imperative Dafny:
- `MergeStore.Store` is a class whose file field `Import` replaces.
- `ProjectMetadata.Metadata` is a class whose fields its methods update.
- `ImportController.Project` holds the stage files and the pending upload.
- The record loops, the column-filling loop, the status defaulting loop and the Sankey
  list loops are `for` loops, each proved against the function that specifies it.

Some behaviour the proofs pin down:
- Importing the same records again adds nothing (`ReimportAddsNothing`).
- A batch that adds rows makes the next batch id exactly one larger (`NextIdAfterImport`).
- A batch that adds nothing to a written file leaves the next id unchanged.
- A first import that adds nothing writes a header-only file. Its id column holds no
  number, so every later import of that project fails to load (`NextIdAfterImport`,
  third clause). The code does this (lines 80 and 118 of `lsr_core.py`), and the model
  keeps it.
- A column chosen both as the title and as another field is renamed to the other field.
  If the upload has no header named "title" and the custom names do not include
  "title", the standardised upload then has no "title" column (`TitleColumnReused`).
- Confirmations keep the stage files narrowing: the title/abstract file exists only after
  the deduplicated file and holds no more rows (`ConfirmedByStoreKeepsNarrowing`).
- The database link values sum to the identified count (`LinkValuesSumToIdentified`).

A field resolves through whichever of its spellings is tried first among those some header
normalises to (`lsr_core.py:36-39`). It gets the last raw header with that spelling's
normalised form, because the header map keeps the last header for each form
(`lsr_core.py:32`). A later header matching a different spelling of the same field does
not displace it. Python's set order decides which spelling is tried first; the model fixes
it to the listed order, and `Resolve` promises only "some matching spelling".

## Model

| member | source | states |
|---|---|---|
| Strings.Lower | lsr_core.py:9 | `lower()` keeps the length and lower-cases each character in place |
| Strings.Without | lsr_core.py:9 | `replace(ch, "")` leaves no `ch`, adds no character and never lengthens |
| Strings.TrimStartShape | lsr_core.py:92 | `lstrip` removes exactly a whitespace prefix: a suffix remains that is empty or starts with a non-space |
| Strings.TrimEndShape | lsr_core.py:92 | `rstrip` removes exactly a whitespace suffix |
| Strings.TrimShape | lsr_core.py:92 | `strip` leaves a string that is empty or starts and ends with a non-space, never longer |
| Strings.TrimIdempotent | lsr_core.py:92 | stripping twice is stripping once |
| Strings.BlankIffAllSpace | lsr_app.py:610 | a string is blank exactly when all its characters are whitespace |
| Strings.TrimLowerCommute | lsr_core.py:82-96 | lower-then-strip (stored titles) equals strip-then-lower (candidate titles) |
| Strings.LowerOfLower | lsr_core.py:9 | lower-casing is idempotent |
| Strings.TrimWithin | lsr_app.py:704 | stripping introduces no character |
| Strings.Split | lsr_app.py:704 | `split(",")` gives at least one piece and no piece holds the separator |
| Strings.JoinSplit | lsr_app.py:704 | the pieces of a split, joined with the separator, give the input back |
| Strings.SplitJoin | lsr_app.py:704 | splitting joined separator-free pieces gives the pieces back |
| Tables.RowCount | lsr_app.py:290-293 | a missing or zero-byte file counts 0 rows; a written file counts its table's rows |
| Tables.ColumnIndex | lsr_core.py:138-141 | the position found holds the name, or is past the end |
| Tables.ColumnIndexFirst | lsr_core.py:138-141 | lookup by name finds the first column so named, and finds one exactly when the name occurs |
| Tables.RenameColumns | lsr_app.py:698 | `rename(columns=m)` keeps the rows and replaces each header named in `m` |
| Tables.AddColumn | lsr_app.py:702 | `df[name] = None` appends one column, missing in every row, rows otherwise kept |
| ColumnAliases.NormalizeColname | lsr_core.py:8-9 | the result has no space, underscore or capital and is no longer than the header |
| ColumnAliases.NormalizeColnameIsSquash | lsr_core.py:8-9 | normalising keeps every character other than space and underscore, in order, lower-cased |
| ColumnAliases.NormalizeColnameIdempotent | lsr_core.py:8-9 | normalising twice equals normalising once |
| ColumnAliases.LastWithForm | lsr_core.py:32 | finds the last header with a given normalised form, or none |
| ColumnAliases.NormalizedHeaders | lsr_core.py:32 | a normalised form is a key exactly when some header has it, and maps to the last such header |
| ColumnAliases.FirstAlias | lsr_core.py:36-39 | None exactly when no spelling is a key; otherwise the header behind some spelling |
| ColumnAliases.Resolve | lsr_core.py:31-41 | exactly the four fields as keys; a field is None exactly when no header normalises to one of its spellings, otherwise the last header with a matching form |
| ColumnAliases.FirstAliasMatches | lsr_core.py:31-41 | the lookup answer for one field satisfies the resolver's contract |
| ColumnAliases.AliasesDisjoint | lsr_core.py:12-28 | no spelling belongs to two fields |
| MergeStore.Migrate | lsr_core.py:77-78 | `search_round` is renamed to `search_id` only when `search_id` is absent; rows and other headers kept |
| MergeStore.MaxNumber | lsr_core.py:80 | the maximum over the numeric cells, which occurs among them; None when there is none |
| MergeStore.LoadTable | lsr_core.py:77-83 | a loaded dataset's next id exceeds every stored id, and one less is stored; a dataset without rows fails |
| MergeStore.LoadTableFinds | lsr_core.py:77-83 | conversely, a dataset whose ids are numbers up to `top`, with `top` present, loads with id `top + 1` |
| MergeStore.Load | lsr_core.py:72-87 | a missing or zero-byte file loads as the empty schema with id 1; a written file is migrated, then loaded |
| MergeStore.LoadWrittenFinds | lsr_core.py:73-87 | a written dataset whose largest id is `top` loads with next id `top + 1` |
| MergeStore.Admitted | lsr_core.py:91-97 | a record is kept exactly when its stripped title is non-blank and its identity is not stored; never more than the input |
| MergeStore.SchemaDistinct | lsr_core.py:47-58 | the schema names no column twice |
| MergeStore.StampedRow | lsr_core.py:99-110 | one cell per schema column; which cell holds which field is stated by `StampedRowByName` |
| MergeStore.BatchFrame | lsr_core.py:113 | the new frame has the schema header and the batch rows |
| MergeStore.BatchRowsStep | lsr_core.py:91-110 | one more record extends the batch by its stamped row exactly when it is admitted |
| MergeStore.AbsentColumns | lsr_core.py:114 | lists exactly the incoming names the stored header lacks |
| MergeStore.MergedHeader | lsr_core.py:114 | the concatenated header starts with the stored header and holds exactly the names of both |
| MergeStore.ProjectRow | lsr_core.py:114 | an incoming row laid out under a header reads each name's value by name |
| MergeStore.Merge | lsr_core.py:112-116 | an empty batch leaves the dataset as loaded; otherwise the row count is the sum |
| MergeStore.MergeHasLayout | lsr_core.py:112-116 | stored header and rows kept in place, incoming names present, incoming rows appended in order and aligned by name |
| MergeStore.MergeKeepsStoredRows | lsr_core.py:114 | every stored row survives unchanged under the stored header |
| MergeStore.NewRows | lsr_core.py:89-110 | the loop builds exactly the stamped rows of the admitted records |
| MergeStore.Imported | lsr_core.py:64-119 | fails exactly when the load fails, and then keeps the file and reports the load error; on success returns the loaded next id as batch id and at most one added row per record, and writes a table whose row count is the stored rows plus the added ones |
| MergeStore.Store.Import | lsr_core.py:64-119 | returns the result and leaves the file that `Imported` describes |
| MergeStore.Store.Update | lsr_core.py:72-118 | on the file's contents: a load error is returned with the file unchanged; otherwise the admitted count and batch id are returned with the merged dataset, as `Imported` describes |
| MergeStore.Candidates | lsr_core.py:133-143 | one record per upload row |
| MergeStore.NormalizeRows | lsr_core.py:133-143 | one record per row, in order, with the database name, `csv_import`, and the four canonical cells |
| MergeStore.NormalizeAndImport | lsr_core.py:126-150 | merges the normalised rows into the store as `Imported` describes |
| MergeProperties.StoredCellKept | lsr_core.py:114 | every stored cell reads the same after a merge |
| MergeProperties.StoredColumnKept | lsr_core.py:114 | a merge keeps every stored column name |
| MergeProperties.AppendedCell | lsr_core.py:114 | an appended row reads the incoming value under each incoming name |
| MergeProperties.AppendedRowStamped | lsr_core.py:99-114 | an appended batch row reads back as the record's stamped row |
| MergeProperties.BatchStamped | lsr_core.py:99-116 | stored rows kept in place, then one row per record in order, each with the record's fields and the batch stamps |
| MergeProperties.LoadConsistent | lsr_core.py:73-87 | a successful load has both key columns, ids below the next id, and the stored title set |
| MergeProperties.AfterLayout | lsr_core.py:112-116 | the written dataset has the concatenation layout over the admitted batch |
| MergeProperties.ImportWrites | lsr_core.py:64-119 | a load error writes nothing and is reported; otherwise the admitted count and batch id are returned and the merge is written |
| MergeProperties.LoadKeepsRows | lsr_core.py:74-78 | loading a written file keeps its rows |
| MergeProperties.AfterAppends | lsr_core.py:99-116 | the written dataset holds the stored rows unchanged and in order, then one stamped row per admitted record in input order |
| MergeProperties.ImportKeepsRowCount | lsr_core.py:112-118 | an import never shrinks the store: failure leaves the file, success writes at least the stored rows |
| MergeProperties.FreshStoreSchema | lsr_core.py:85-118 | a store created by its first import has exactly the schema columns |
| MergeProperties.StampedRowByName | lsr_core.py:99-113 | read by column name, a stamped row gives the database, stripped title, journal, year, abstract, abstract source (default `csv_import`), batch id, start year, end year and run date; any other name reads missing |
| MergeProperties.BatchCells | lsr_core.py:99-113 | every batch row holds the batch id and the record's stripped title |
| MergeProperties.MergedIds | lsr_core.py:80-114 | after merging a batch stamped with `id`, all ids are at most `id` and `id` occurs |
| MergeProperties.MergedLoadable | lsr_core.py:80-114 | a dataset merged from a loaded store and a non-empty batch can be loaded again |
| MergeProperties.NextIdAfterImport | lsr_core.py:73-118 | a batch that adds rows raises the next id by one; an empty batch on a written file changes nothing; an empty first batch leaves an unloadable file |
| MergeProperties.StoredTitlesKept | lsr_core.py:81-83 | the stored title set only grows through a merge |
| MergeProperties.StoredKeyOfTitle | lsr_core.py:82-101 | the key stored for an admitted title is the identity it was admitted under |
| MergeProperties.TitlesAfterBatch | lsr_core.py:81-114 | after a batch the stored titles include the old ones and every appended record's identity |
| MergeProperties.BatchRecordsTitles | lsr_core.py:81-118 | a non-empty batch leaves a loadable dataset holding every non-blank batch title |
| MergeProperties.SeenTitleStored | lsr_core.py:81-118 | after an import, every non-blank title of the batch is among the stored titles |
| MergeProperties.NothingAdmittedAddsNothing | lsr_core.py:112-119 | a batch with nothing admitted reports 0 added and the next id |
| MergeProperties.ReimportAddsNothing | lsr_core.py:64-119 | importing the same records again adds nothing |
| MergeProperties.AdmittedAppend | lsr_core.py:91-97 | admission of a concatenation is the concatenation of admissions |
| MergeProperties.AllAdmittedKept | lsr_core.py:91-97 | a batch of new non-blank titles is kept whole, in order |
| MergeProperties.NoneAdmitted | lsr_core.py:91-97 | a batch of blank or stored titles admits nothing |
| MergeProperties.DuplicatesWithinBatchKept | lsr_core.py:81-110 | the same new record twice in one batch is stored twice |
| MergeProperties.BlankTitleSkipped | lsr_core.py:92-94 | a record with a blank title is never stored |
| MergeProperties.LegacyRoundColumn | lsr_core.py:77-78 | the migrated `search_id` column holds the legacy `search_round` values |
| Stages.Index | lsr_app.py:712 | the position of the stage in STAGE_ORDER |
| Stages.IndexOfOrder | lsr_app.py:111-115 | each position of the order holds the stage with that index |
| Stages.Previous | lsr_app.py:716 | the stage one before in the order |
| Stages.StageDataPath | lsr_app.py:281-287 | the path is "projects/", the project id, "/" and then the stage's file name |
| Stages.FileNameInjective | lsr_app.py:282-286 | different stages have different file names |
| Stages.StageDataPathInjective | lsr_app.py:281-287 | within a project, two stages share a path exactly when they are the same stage |
| Stages.FileAt | lsr_app.py:291 | a path not in the directory is absent |
| Stages.CountRows | lsr_app.py:290-293 | a written file counts its table's rows; an absent or zero-byte file counts 0, so a positive count comes from a written file |
| Stages.CountAfterWrite | lsr_app.py:290-293 | after a table is written at a path, that path counts the table's rows and every other path counts as before |
| ProjectMetadata.EveryPhaseListed | lsr_app.py:104-109 | every review phase is in STAGES |
| ProjectMetadata.NextStatus | lsr_app.py:380-384 | every click changes the status: not started to in progress to completed and back |
| ProjectMetadata.ClickedPeriod | lsr_app.py:380-386 | three clicks restore a status: only the count modulo 3 matters |
| ProjectMetadata.Defaulted | lsr_app.py:315-317 | every phase has a status; existing ones kept, missing ones not started |
| ProjectMetadata.DefaultedIdempotent | lsr_app.py:315-317 | defaulting twice equals defaulting once |
| ProjectMetadata.Promoted | lsr_app.py:486-488 | only study identification changes, and only from not started to in progress |
| ProjectMetadata.IdentifiedCount | lsr_app.py:326-330 | the identified count is at least every entry's contribution, and 0 when no entry is a search |
| ProjectMetadata.IdentifiedCountAppend | lsr_app.py:326-330 | the identified count of a log is the sum over its parts |
| ProjectMetadata.IdentifiedCountScreening | lsr_app.py:326-330 | a screening entry leaves the identified count unchanged |
| ProjectMetadata.NumberedAppend | lsr_app.py:464-483 | appending the snapshot numbered one past the length keeps the numbering 1, 2, 3, ... |
| ProjectMetadata.Metadata.constructor | lsr_app.py:300-306 | a new project has every phase not started and empty log and history |
| ProjectMetadata.Metadata.DefaultStatuses | lsr_app.py:315-317 | the status map becomes its defaulted form; nothing else changes |
| ProjectMetadata.Metadata.CycleStatus | lsr_app.py:379-386 | exactly one phase's status moves on |
| ProjectMetadata.Metadata.SaveVersion | lsr_app.py:463-488 | the version is the history length plus one; the snapshot is appended and becomes current; the status is promoted; numbering is kept |
| ProjectMetadata.Metadata.LogSearch | lsr_app.py:756-766 | exactly one entry is appended to the log |
| Sankey.DbOrder | lsr_app.py:125-131 | the keys of `db_counts` in insertion order: exactly the databases some search import came from, none twice, ordered by their first search import |
| Sankey.FirstCounted | lsr_app.py:126-129 | the position of the first search import from a database, which no earlier entry searches; the log length when there is none |
| Sankey.UnlistedTotalZero | lsr_app.py:125-129 | a database that was never searched totals 0 |
| Sankey.SumOverStep | lsr_app.py:125-129 | one more entry adds its raw count to the listed databases' sum exactly when its database is listed |
| Sankey.TotalsAddUp | lsr_app.py:125-129 | the per-database totals sum to the identified count |
| Sankey.SumOfTotals | lsr_app.py:144-147 | values listed per database sum to those databases' totals |
| Sankey.LastAtUnique | lsr_app.py:132-141 | a label has at most one last position |
| Sankey.LastAtTail | lsr_app.py:135-142 | a fixed node listed once sits at its own place after the databases |
| Sankey.DatabaseNode | lsr_app.py:131-142 | a database not named like a fixed node keeps its own position |
| Sankey.FixedDistinct | lsr_app.py:135-140 | the four fixed node names are distinct |
| Sankey.CountByDatabase | lsr_app.py:125-129 | the loop yields the databases in first-seen order and each one's raw total |
| Sankey.PlaceNodes | lsr_app.py:131-142 | the labels are the databases then the fixed nodes; every index points to its name's last position; the fixed nodes sit at the number of databases plus 0, 1, 2 and 3 |
| Sankey.PlaceLabels | lsr_app.py:131-142 | the names are appended to the labels and each index points to its name's last position |
| Sankey.PlacedTail | lsr_app.py:135-142 | each fixed node's index is the number of databases plus its place |
| Sankey.DatabaseLinks | lsr_app.py:144-147 | one link per database from its node into the hub, carrying its total |
| Sankey.SankeyLinks | lsr_app.py:121-159 | labels are the databases then the fixed nodes; all lists have length databases + 3; database links carry totals into "Records identified"; the last three links are the screening chain with values ta, ft, de |
| Sankey.LinkValuesSumToIdentified | lsr_app.py:125-147 | the database link values sum to the identified count |
| ImportController.Clean | lsr_app.py:684-685 | a choice is a placeholder exactly when it starts with an em dash; otherwise it is kept |
| ImportController.RenameMapKeys | lsr_app.py:687-696 | the map renames exactly the title choice and the optional columns chosen |
| ImportController.RenameMapFields | lsr_app.py:687-696 | each chosen optional column maps to its field; a column chosen twice takes the later field |
| ImportController.RenameMapTitle | lsr_app.py:687-696 | a column maps to "title" exactly when it is the title choice and no later field re-picks it |
| ImportController.Filled | lsr_app.py:700-706 | filling keeps the row count and the existing header as a prefix |
| ImportController.FilledHasNames | lsr_app.py:700-706 | after filling, every given name is a column |
| ImportController.FilledOnlyNames | lsr_app.py:700-706 | filling adds no name but the given ones |
| ImportController.FilledRows | lsr_app.py:700-706 | existing cells stay in place; added columns are missing in every row |
| ImportController.FilledDistinct | lsr_app.py:700-706 | filling never duplicates a column |
| ImportController.FilledCells | lsr_app.py:700-706 | an existing column reads the same after filling; an added one reads missing |
| ImportController.NonBlankTrimmedSpec | lsr_app.py:704 | exactly the stripped non-blank pieces are kept |
| ImportController.CustomNamesClean | lsr_app.py:704 | custom names are exactly the non-blank comma-separated pieces, stripped, with no comma |
| ImportController.StandardizedShape | lsr_app.py:698-706 | same row count; the renamed header comes first; every standard and custom name is a column |
| ImportController.StandardizedRow | lsr_app.py:698-706 | each row keeps its cells and gets missing cells under the added columns |
| ImportController.TitleColumnRenamed | lsr_app.py:687-706 | a title column not re-picked becomes "title" |
| ImportController.RenamedWithoutTitle | lsr_app.py:687-698 | a re-picked title column loses the name "title" |
| ImportController.TitleColumnReused | lsr_app.py:687-706 | a title column re-picked for another field leaves no "title" column, provided the upload has no "title" header and the custom names do not include "title" |
| ImportController.Registration | lsr_app.py:609-616 | a database search is refused exactly when its database or query is blank, database checked first |
| ImportController.StageCheck | lsr_app.py:712-730 | a later stage is accepted exactly when the previous file exists and holds at least as many rows; the rejection says which test failed |
| ImportController.Checked | lsr_app.py:712-766 | refusal changes no file and logs nothing; acceptance rewrites only its stage's file and logs one entry for its stage with the raw row count |
| ImportController.CheckedWrites | lsr_app.py:738-766 | screening stages store the upload exactly and log no search fields; the search stage stores the merge store's file and logs its id and added count |
| ImportController.Confirmed | lsr_app.py:680-766 | refused for missing title exactly when the title is on the placeholder; refusal changes nothing; acceptance logs one entry with the upload's row count |
| ImportController.CheckedKeepsNarrowing | lsr_app.py:712-754 | with a store that never shrinks, a checked import keeps the stage files narrowing |
| ImportController.ConfirmKeepsNarrowing | lsr_app.py:680-754 | the same for a confirmation |
| ImportController.ConfirmedByStoreKeepsNarrowing | lsr_app.py:712-754 | with the merge store, confirmations keep the stage files narrowing |
| ImportController.ConfirmIdentifiedCount | lsr_app.py:756-766 | an accepted search import adds its row count to the identified count; anything else leaves it |
| ImportController.Project.constructor | lsr_app.py:277-279 | a project starts with its files and no pending upload |
| ImportController.Project.RequestImport | lsr_app.py:608-626 | the registration verdict; on acceptance the upload is held, otherwise nothing changes |
| ImportController.Project.CancelImport | lsr_app.py:775-779 | the held upload is dropped; files unchanged |
| ImportController.Project.Standardize | lsr_app.py:687-706 | computes the standardised upload |
| ImportController.Project.FillColumns | lsr_app.py:700-706 | the loop adds each absent name as a missing column, as `Filled` says |
| ImportController.Project.ConfirmImport | lsr_app.py:678-773 | the outcome is `Confirmed` with the real store; files and log follow it; the dialog closes on success; statuses, history and current data untouched |
| ImportController.Project.Confirm | lsr_app.py:680-766 | the decision on values equals `Confirmed` with the real store |
| ImportController.Project.Stage | lsr_app.py:712-766 | the stage check and write equal `Checked` with the real store |
| ImportController.Project.Commit | lsr_app.py:756-773 | the new files kept, the logged entries appended, the dialog closed on success |

## Left out

- Streamlit widgets, session-state plumbing, `st.stop`/`st.rerun` and page layout: the
  form values and mapping choices are parameters, and the pending upload is a field.
- Remote metadata load and save, and project creation, listing and deletion: the
  metadata is an in-memory object.
- CSV parsing and writing, including the UTF-8/latin-1 fallback. A file is absent, zero
  bytes, or a table, and an upload arrives already parsed.
- `date.today()`: the run date is a parameter, the same for the store and the search log.
- The Plotly figure and the TXT export, which are rendering only.
- Concurrency and atomic writes. The code has neither.
- Python and pandas stringification: `CellText` reads a missing cell as "" where Python
  gives "None" or "nan".
- Lower-casing covers ASCII letters only. Stripping removes the ASCII whitespace and
  separator characters (tab to carriage return, 0x1C-0x1F, space); the other Unicode
  whitespace characters Python also strips are not modelled.
- Python set iteration order over the alias spellings: the model tries them in the listed
  order, and `Resolve` promises only "some matching spelling".
- `os.path.join` is modelled as joining with "/".
- `MergeStore.LoadTable` approximates pandas typing of the id column. Any text cell
  there is an error. A numeric column with no number is the `int(NaN)` failure of line 80.
- `Tables.Cell` is simplified for duplicate headers: a name that occurs twice reads its
  first column, where pandas would return both.
- ImportController.Project.ConfirmImport does not check the registration fields again.
  The source checks them only when the import button is pressed (`RequestImport`).
- ImportController.Narrowing covers only the title/abstract file against the
  deduplicated file. The full-text file's row bound is checked when it is written, but a
  later title/abstract upload may shrink below it, as the source allows.
- Sankey.SankeyLinks: a database named like a fixed node shares that node's index, as in
  the source. The contract states this through `LastAt` rather than giving the index
  outright.
