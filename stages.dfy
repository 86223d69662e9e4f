/**
 * The three kinds of upload a project accepts, in the order of STAGE_ORDER, and the
 * per-project file each one is written to.  The project directory is a map from path
 * to file state: a path the map lacks does not exist.
 */
module Stages {
  import opened Tables

  datatype Stage = Search | AfterTitleAbstract | AfterFullText

  /** STAGE_ORDER (lsr_app.py:111-115). */
  const StageOrder: seq<Stage> := [Search, AfterTitleAbstract, AfterFullText]

  /** `STAGE_ORDER.index(stage)`: the position of the stage in the order. */
  function Index(s: Stage): (n: nat)
    ensures n < |StageOrder| && StageOrder[n] == s
  {
    match s
    case Search => 0
    case AfterTitleAbstract => 1
    case AfterFullText => 2
  }

  /** Every position of the order holds the stage whose index it is. */
  lemma IndexOfOrder(n: nat)
    requires n < |StageOrder|
    ensures Index(StageOrder[n]) == n
  {
  }

  /** `STAGE_ORDER[current_stage_index - 1]`: the stage an upload must narrow. */
  function Previous(s: Stage): (p: Stage)
    requires Index(s) > 0
    ensures Index(p) == Index(s) - 1
  {
    StageOrder[Index(s) - 1]
  }

  function FileName(s: Stage): string
  {
    match s
    case Search => "records_deduplicated.csv"
    case AfterTitleAbstract => "records_after_ta.csv"
    case AfterFullText => "records_after_ft.csv"
  }

  /** `stage_data_path` (lsr_app.py:281-287), joining with `/`. */
  function StageDataPath(projectId: string, s: Stage): (p: string)
    ensures var dir := "projects/" + projectId + "/";
      && |p| == |dir| + |FileName(s)|
      && p[..|dir|] == dir
      && p[|dir|..] == FileName(s)
  {
    "projects/" + projectId + "/" + FileName(s)
  }

  lemma FileNameInjective(s: Stage, t: Stage)
    requires FileName(s) == FileName(t)
    ensures s == t
  {
  }

  /** Within one project, different stages write different files. */
  lemma StageDataPathInjective(projectId: string, s: Stage, t: Stage)
    ensures StageDataPath(projectId, s) == StageDataPath(projectId, t) <==> s == t
  {
    if StageDataPath(projectId, s) == StageDataPath(projectId, t) {
      FileNameInjective(s, t);
    }
  }

  /** The project directory: what lies at each path. */
  type Files = map<string, StoreFile>

  function FileAt(files: Files, path: string): (f: StoreFile)
    ensures path !in files ==> f == Absent
    ensures path in files ==> f == files[path]
  {
    if path in files then files[path] else Absent
  }

  /**
   * `count_rows` (lsr_app.py:290-293): the number of rows of the file written at `path`;
   * a missing or zero-byte file counts as 0 rows.
   */
  function CountRows(files: Files, path: string): (n: nat)
    ensures FileAt(files, path).Written? ==> n == |FileAt(files, path).table.rows|
    ensures !FileAt(files, path).Written? ==> n == 0
    ensures n > 0 ==> FileAt(files, path).Written?
  {
    RowCount(FileAt(files, path))
  }

  /** Writing a table at a path makes `count_rows` of that path its row count, and leaves other paths' counts. */
  lemma CountAfterWrite(files: Files, path: string, t: Table, other: string)
    ensures CountRows(files[path := Written(t)], path) == |t.rows|
    ensures other != path ==> CountRows(files[path := Written(t)], other) == CountRows(files, other)
  {
  }
}
