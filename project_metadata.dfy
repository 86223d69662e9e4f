/**
 * The per-project metadata record of lsr_app.py: a status for each review phase, the
 * search log that every accepted import extends, and the versioned study-identification
 * form.  Loading and saving it remotely is not modelled; it lives in memory here.
 */
module ProjectMetadata {
  import opened Wrappers
  import opened Stages

  /** STAGES (lsr_app.py:104-109): the review phases shown on the dashboard. */
  datatype Phase = StudyIdentification | TitleAbstractScreening | FullTextScreening | DataExtraction

  const Phases: seq<Phase> := [StudyIdentification, TitleAbstractScreening, FullTextScreening, DataExtraction]

  lemma EveryPhaseListed(p: Phase)
    ensures p in Phases
  {
  }

  datatype Status = NotStarted | InProgress | Completed

  /** The transition map of lines 380-384: every click moves a status on. */
  function NextStatus(s: Status): (r: Status)
    ensures r != s
    ensures s == NotStarted <==> r == InProgress
    ensures s == InProgress <==> r == Completed
  {
    match s
    case NotStarted => InProgress
    case InProgress => Completed
    case Completed => NotStarted
  }

  /** The status after `n` clicks. */
  function Clicked(s: Status, n: nat): Status
    decreases n
  {
    if n == 0 then s else NextStatus(Clicked(s, n - 1))
  }

  /** Every three clicks restore the status, so only the count modulo 3 matters. */
  lemma {:induction false} ClickedPeriod(s: Status, n: nat)
    ensures Clicked(s, n) == Clicked(s, n % 3)
    decreases n
  {
    if n >= 3 {
      ClickedPeriod(s, n - 3);
      var x := Clicked(s, n - 3);
      assert Clicked(s, n) == NextStatus(NextStatus(NextStatus(x))) by {
        assert Clicked(s, n - 1) == NextStatus(Clicked(s, n - 2));
        assert Clicked(s, n - 2) == NextStatus(x);
      }
      assert (n - 3) % 3 == n % 3;
    }
  }

  /**
   * Lines 315-317 on a status map: every phase gets a status; a phase that had one
   * keeps it and a phase that had none starts as not started.
   */
  function Defaulted(m: map<Phase, Status>): (r: map<Phase, Status>)
    ensures forall p :: p in r
    ensures forall p :: p in m ==> r[p] == m[p]
    ensures forall p :: p !in m ==> r[p] == NotStarted
  {
    assert forall p :: p in Phases by {
      forall p ensures p in Phases {
        EveryPhaseListed(p);
      }
    }
    map p | p in Phases :: if p in m then m[p] else NotStarted
  }

  /** Defaulting a map that already has every phase changes nothing. */
  lemma DefaultedIdempotent(m: map<Phase, Status>)
    ensures Defaulted(Defaulted(m)) == Defaulted(m)
  {
  }

  /**
   * Line 487-488: saving the form moves the study-identification phase from not started
   * to in progress and changes nothing else.
   */
  function Promoted(m: map<Phase, Status>): (r: map<Phase, Status>)
    ensures r.Keys == m.Keys
    ensures forall p :: p in m && p != StudyIdentification ==> r[p] == m[p]
    ensures StudyIdentification in m ==>
      r[StudyIdentification] == (if m[StudyIdentification] == NotStarted then InProgress else m[StudyIdentification])
  {
    if StudyIdentification in m && m[StudyIdentification] == NotStarted then m[StudyIdentification := InProgress]
    else m
  }

  /** One search-log entry, as lines 756-766 append it. */
  datatype SearchEntry = SearchEntry(
    searchId: Option<int>,
    database: Option<string>,
    strategy: Option<string>,
    startYear: Option<int>,
    endYear: Option<int>,
    runDate: string,
    recordsRaw: nat,
    recordsDeduplicated: Option<nat>,
    importStage: Stage)

  /** The raw rows an entry contributes to the identified count. */
  function Identified(e: SearchEntry): nat
  {
    if e.importStage == Search then e.recordsRaw else 0
  }

  /**
   * Lines 326-330: the records identified, with duplicates, are the raw row counts of the
   * database-search imports summed.
   */
  function IdentifiedCount(searches: seq<SearchEntry>): (n: nat)
    ensures forall i :: 0 <= i < |searches| ==> Identified(searches[i]) <= n
    ensures (forall i :: 0 <= i < |searches| ==> searches[i].importStage != Search) ==> n == 0
    decreases |searches|
  {
    if searches == [] then 0
    else
      var init := searches[..|searches| - 1];
      assert forall i :: 0 <= i < |init| ==> init[i] == searches[i];
      IdentifiedCount(init) + Identified(searches[|searches| - 1])
  }

  /** The count over a log is the sum of the counts over its parts. */
  lemma {:induction false} IdentifiedCountAppend(a: seq<SearchEntry>, b: seq<SearchEntry>)
    ensures IdentifiedCount(a + b) == IdentifiedCount(a) + IdentifiedCount(b)
    decreases |b|
  {
    if b != [] {
      var b' := b[..|b| - 1];
      assert (a + b)[..|a + b| - 1] == a + b';
      assert (a + b)[|a + b| - 1] == b[|b| - 1];
      IdentifiedCountAppend(a, b');
    } else {
      assert a + b == a;
    }
  }

  /** Screening imports leave the identified count as it was. */
  lemma IdentifiedCountScreening(searches: seq<SearchEntry>, e: SearchEntry)
    requires e.importStage != Search
    ensures IdentifiedCount(searches + [e]) == IdentifiedCount(searches)
  {
    IdentifiedCountAppend(searches, [e]);
    assert [e][..0] == [];
  }

  /** The fields of the study-identification form (lines 468-480). */
  datatype StudyData = StudyData(
    title: string,
    researchQuestion: string,
    population: string,
    intervention: string,
    comparator: string,
    outcomes: string,
    studyDesigns: string,
    inclusion: string,
    exclusion: string,
    notes: string)

  datatype Snapshot = Snapshot(version: nat, savedAt: string, data: StudyData)

  /** The history numbers its snapshots 1, 2, 3, ... in order. */
  predicate Numbered(history: seq<Snapshot>)
  {
    forall i :: 0 <= i < |history| ==> history[i].version == i + 1
  }

  /** Appending the snapshot numbered one past the length keeps the numbering. */
  lemma NumberedAppend(history: seq<Snapshot>, s: Snapshot)
    requires Numbered(history) && s.version == |history| + 1
    ensures Numbered(history + [s])
  {
    assert forall i :: 0 <= i < |history| ==> (history + [s])[i] == history[i];
  }

  class Metadata {
    var stageStatus: map<Phase, Status>
    var searches: seq<SearchEntry>
    var history: seq<Snapshot>
    var current: Option<StudyData>

    /** The metadata of a new project (lines 300-306). */
    constructor ()
      ensures stageStatus == Defaulted(map[])
      ensures searches == [] && history == [] && current == None
    {
      stageStatus := map p | p in Phases :: NotStarted;
      searches := [];
      history := [];
      current := None;
    }

    /** Lines 315-317: `setdefault` for the status map and for every phase in it. */
    method DefaultStatuses()
      modifies this
      ensures stageStatus == Defaulted(old(stageStatus))
      ensures searches == old(searches) && history == old(history) && current == old(current)
    {
      var status := stageStatus;
      for k := 0 to |Phases|
        invariant forall p :: p in status <==> p in stageStatus || p in Phases[..k]
        invariant forall p :: p in stageStatus ==> status[p] == stageStatus[p]
        invariant forall p :: p in status && p !in stageStatus ==> status[p] == NotStarted
      {
        var p := Phases[k];
        if p !in status {
          status := status[p := NotStarted];
        }
      }
      assert Phases[..|Phases|] == Phases;
      forall p ensures p in status {
        EveryPhaseListed(p);
      }
      stageStatus := status;
    }

    /** Lines 380-386: a click on a phase's status button moves that status on. */
    method CycleStatus(p: Phase)
      requires p in stageStatus
      modifies this
      ensures stageStatus == old(stageStatus)[p := NextStatus(old(stageStatus)[p])]
      ensures searches == old(searches) && history == old(history) && current == old(current)
    {
      stageStatus := stageStatus[p := NextStatus(stageStatus[p])];
    }

    /**
     * Lines 464-488: the form is saved as the next numbered snapshot and becomes the
     * current data; the study-identification phase starts if it had not.
     */
    method SaveVersion(data: StudyData, savedAt: string) returns (version: nat)
      modifies this
      ensures version == |old(history)| + 1
      ensures history == old(history) + [Snapshot(version, savedAt, data)]
      ensures current == Some(data)
      ensures stageStatus == Promoted(old(stageStatus))
      ensures searches == old(searches)
      ensures Numbered(old(history)) ==> Numbered(history)
    {
      version := |history| + 1;
      var snapshot := Snapshot(version, savedAt, data);
      if Numbered(history) {
        NumberedAppend(history, snapshot);
      }
      history := history + [snapshot];
      current := Some(data);
      if StudyIdentification in stageStatus && stageStatus[StudyIdentification] == NotStarted {
        stageStatus := stageStatus[StudyIdentification := InProgress];
      }
    }

    /** Line 756: one entry appended to the search log. */
    method LogSearch(e: SearchEntry)
      modifies this
      ensures searches == old(searches) + [e]
      ensures stageStatus == old(stageStatus) && history == old(history) && current == old(current)
    {
      searches := searches + [e];
    }
  }
}
