/**
 * The link lists of `build_sankey_from_counts` (lsr_app.py:121-159): one link per
 * searched database into "Records identified", carrying the raw records imported from
 * it, then the three screening links.  The figure itself is not modelled.
 */
module Sankey {
  import opened Wrappers
  import opened Stages
  import opened ProjectMetadata

  /** A node label: a database name as logged (possibly None), or a fixed phase name. */
  type Node = Option<string>

  /** The fixed nodes, appended after the databases (lines 135-142). */
  const Fixed: seq<Node> := [
    Some("Records identified"), Some("Title/Abstract screening"),
    Some("Full-text screening"), Some("Data extraction")
  ]

  predicate Distinct(s: seq<Node>)
  {
    forall i, j :: 0 <= i < j < |s| ==> s[i] != s[j]
  }

  predicate Counted(e: SearchEntry, d: Node)
  {
    e.importStage == Search && e.database == d
  }

  /** The position of the first search import from `d`, or the log's length when there is none. */
  function FirstCounted(searches: seq<SearchEntry>, d: Node): (i: nat)
    ensures i <= |searches|
    ensures i < |searches| ==> Counted(searches[i], d)
    ensures forall j :: 0 <= j < i ==> !Counted(searches[j], d)
    decreases |searches|
  {
    if searches == [] then 0
    else
      var init := searches[..|searches| - 1];
      assert forall j :: 0 <= j < |init| ==> init[j] == searches[j];
      var f := FirstCounted(init, d);
      if f < |init| then f
      else if Counted(searches[|searches| - 1], d) then |searches| - 1
      else |searches|
  }

  /** `dbs` holds exactly the databases some search import came from. */
  ghost predicate ListsSearched(searches: seq<SearchEntry>, dbs: seq<Node>)
  {
    forall d :: d in dbs <==> exists i :: 0 <= i < |searches| && Counted(searches[i], d)
  }

  /** `dbs` is ordered by each database's first search import. */
  predicate FirstSeenOrder(searches: seq<SearchEntry>, dbs: seq<Node>)
  {
    forall k, l :: 0 <= k < l < |dbs| ==> FirstCounted(searches, dbs[k]) < FirstCounted(searches, dbs[l])
  }

  /**
   * The keys of `db_counts` in insertion order: exactly the databases some search import
   * came from, each once, ordered by their first search import.
   */
  function DbOrder(searches: seq<SearchEntry>): (dbs: seq<Node>)
    ensures Distinct(dbs)
    ensures ListsSearched(searches, dbs)
    ensures FirstSeenOrder(searches, dbs)
    decreases |searches|
  {
    if searches == [] then []
    else
      var p := DbOrder(searches[..|searches| - 1]);
      var e := searches[|searches| - 1];
      if e.importStage == Search && e.database !in p then
        DbOrderAdds(searches, p);
        p + [e.database]
      else
        DbOrderKeeps(searches, p);
        p
  }

  /** A database already searched keeps its first search import when the log grows. */
  lemma FirstCountedKept(searches: seq<SearchEntry>, d: Node, i: nat)
    requires i < |searches| - 1 && Counted(searches[i], d)
    ensures FirstCounted(searches, d) == FirstCounted(searches[..|searches| - 1], d) < |searches| - 1
  {
    var init := searches[..|searches| - 1];
    assert Counted(init[i], d);
  }

  /** A database is searched in a longer log exactly when it was before or the new entry searches it. */
  lemma SearchedExtend(searches: seq<SearchEntry>, init: seq<SearchEntry>, d: Node)
    requires searches != [] && init == searches[..|searches| - 1]
    ensures (exists i :: 0 <= i < |searches| && Counted(searches[i], d))
      <==> (exists i :: 0 <= i < |init| && Counted(init[i], d)) || Counted(searches[|searches| - 1], d)
  {
    if exists i :: 0 <= i < |searches| && Counted(searches[i], d) {
      var i :| 0 <= i < |searches| && Counted(searches[i], d);
      if i < |init| {
        assert Counted(init[i], d);
      }
    }
    if exists i :: 0 <= i < |init| && Counted(init[i], d) {
      var i :| 0 <= i < |init| && Counted(init[i], d);
      assert Counted(searches[i], d);
    }
  }

  /** What one more log entry does to the first search imports and to the searched databases. */
  lemma DbOrderExtend(searches: seq<SearchEntry>, p: seq<Node>)
    requires searches != [] && ListsSearched(searches[..|searches| - 1], p)
    ensures forall d :: d in p ==> FirstCounted(searches, d) == FirstCounted(searches[..|searches| - 1], d) < |searches| - 1
    ensures forall d :: (exists i :: 0 <= i < |searches| && Counted(searches[i], d)) <==> d in p || Counted(searches[|searches| - 1], d)
  {
    var init := searches[..|searches| - 1];
    forall d | d in p ensures FirstCounted(searches, d) == FirstCounted(init, d) < |init| {
      var i :| 0 <= i < |init| && Counted(init[i], d);
      FirstCountedKept(searches, d, i);
    }
    forall d ensures (exists i :: 0 <= i < |searches| && Counted(searches[i], d)) <==> d in p || Counted(searches[|init|], d) {
      SearchedExtend(searches, init, d);
    }
  }

  /** A search import from a database not yet listed appends it, last in first-seen order. */
  lemma DbOrderAdds(searches: seq<SearchEntry>, p: seq<Node>)
    requires searches != []
    requires Distinct(p) && ListsSearched(searches[..|searches| - 1], p) && FirstSeenOrder(searches[..|searches| - 1], p)
    requires Counted(searches[|searches| - 1], searches[|searches| - 1].database)
    requires searches[|searches| - 1].database !in p
    ensures var q := p + [searches[|searches| - 1].database];
      Distinct(q) && ListsSearched(searches, q) && FirstSeenOrder(searches, q)
  {
    DbOrderExtend(searches, p);
    var d := searches[|searches| - 1].database;
    assert FirstCounted(searches, d) == |searches| - 1;
  }

  /** Any other log entry leaves the list as it is. */
  lemma DbOrderKeeps(searches: seq<SearchEntry>, p: seq<Node>)
    requires searches != []
    requires Distinct(p) && ListsSearched(searches[..|searches| - 1], p) && FirstSeenOrder(searches[..|searches| - 1], p)
    requires !(Counted(searches[|searches| - 1], searches[|searches| - 1].database) && searches[|searches| - 1].database !in p)
    ensures ListsSearched(searches, p) && FirstSeenOrder(searches, p)
  {
    DbOrderExtend(searches, p);
  }

  /** `db_counts[d]`: the raw records of the search imports from database `d`. */
  function DbTotal(searches: seq<SearchEntry>, d: Node): nat
    decreases |searches|
  {
    if searches == [] then 0
    else
      var e := searches[|searches| - 1];
      DbTotal(searches[..|searches| - 1], d) + (if Counted(e, d) then e.recordsRaw else 0)
  }

  /** The totals of the databases `dbs`, summed. */
  function SumOver(searches: seq<SearchEntry>, dbs: seq<Node>): nat
    decreases |dbs|
  {
    if dbs == [] then 0 else SumOver(searches, dbs[..|dbs| - 1]) + DbTotal(searches, dbs[|dbs| - 1])
  }

  function Sum(xs: seq<nat>): nat
    decreases |xs|
  {
    if xs == [] then 0 else Sum(xs[..|xs| - 1]) + xs[|xs| - 1]
  }

  /** A database that never appears in a search import has total 0. */
  lemma {:induction false} UnlistedTotalZero(searches: seq<SearchEntry>, d: Node)
    requires d !in DbOrder(searches)
    ensures DbTotal(searches, d) == 0
    decreases |searches|
  {
    if searches != [] {
      var init := searches[..|searches| - 1];
      assert forall x :: x in DbOrder(init) ==> x in DbOrder(searches);
      UnlistedTotalZero(init, d);
    }
  }

  /** One more log entry adds its raw count to the sum over `dbs` exactly when its database is listed. */
  lemma {:induction false} SumOverStep(init: seq<SearchEntry>, e: SearchEntry, dbs: seq<Node>)
    requires Distinct(dbs)
    ensures SumOver(init + [e], dbs) == SumOver(init, dbs) + (if e.importStage == Search && e.database in dbs then e.recordsRaw else 0)
    decreases |dbs|
  {
    var s := init + [e];
    assert s[..|s| - 1] == init && s[|s| - 1] == e;
    if dbs != [] {
      var front := dbs[..|dbs| - 1];
      var x := dbs[|dbs| - 1];
      assert Distinct(front);
      SumOverStep(init, e, front);
      assert e.database in dbs <==> e.database in front || e.database == x by {
        assert dbs == front + [x];
      }
      assert !(x in front);
    }
  }

  /** The per-database totals add up to the identified count. */
  lemma {:induction false} TotalsAddUp(searches: seq<SearchEntry>)
    ensures SumOver(searches, DbOrder(searches)) == IdentifiedCount(searches)
    decreases |searches|
  {
    if searches != [] {
      var init := searches[..|searches| - 1];
      var e := searches[|searches| - 1];
      assert searches == init + [e];
      var p := DbOrder(init);
      TotalsAddUp(init);
      SumOverStep(init, e, p);
      if e.importStage == Search && e.database !in p {
        var q := p + [e.database];
        assert q[..|q| - 1] == p;
        UnlistedTotalZero(init, e.database);
      }
    }
  }

  /** Values listed per database sum to the identified count. */
  lemma {:induction false} SumOfTotals(searches: seq<SearchEntry>, dbs: seq<Node>, values: seq<nat>)
    requires |values| == |dbs|
    requires forall k :: 0 <= k < |dbs| ==> values[k] == DbTotal(searches, dbs[k])
    ensures Sum(values) == SumOver(searches, dbs)
    decreases |dbs|
  {
    if dbs != [] {
      SumOfTotals(searches, dbs[..|dbs| - 1], values[..|values| - 1]);
    }
  }

  /** `k` is the last position of `x` among the labels: the index `idx[x]` ends up holding. */
  predicate LastAt(labels: seq<Node>, x: Node, k: int)
  {
    0 <= k < |labels| && labels[k] == x && forall j :: k < j < |labels| ==> labels[j] != x
  }

  /** A label has at most one last position. */
  lemma LastAtUnique(labels: seq<Node>, x: Node, k: int, k': int)
    requires LastAt(labels, x, k) && LastAt(labels, x, k')
    ensures k == k'
  {
  }

  /** A name listed once among the trailing `names` is last found at its own place there. */
  lemma LastAtTail(dbs: seq<Node>, names: seq<Node>, i: nat, k: int)
    requires Distinct(names) && i < |names| && LastAt(dbs + names, names[i], k)
    ensures k == |dbs| + i
  {
    var labels := dbs + names;
    assert labels[|dbs| + i] == names[i];
    assert k >= |dbs| + i;
    assert labels[k] == names[k - |dbs|];
  }

  /** A database listed once and not named like a fixed node is its own node. */
  lemma DatabaseNode(dbs: seq<Node>, k: nat)
    requires Distinct(dbs) && k < |dbs| && dbs[k] !in Fixed
    ensures LastAt(dbs + Fixed, dbs[k], k)
  {
    var labels := dbs + Fixed;
    forall j | k < j < |labels| ensures labels[j] != dbs[k] {
      if j < |dbs| {
        assert labels[j] == dbs[j];
      } else {
        assert labels[j] == Fixed[j - |dbs|];
      }
    }
  }

  /** No fixed node name occurs twice. */
  lemma FixedDistinct()
    ensures Distinct(Fixed)
  {
  }

  /** Lines 126-130: the databases in insertion order, and the raw records summed per database. */
  method CountByDatabase(searches: seq<SearchEntry>) returns (dbs: seq<Node>, counts: map<Node, nat>)
    ensures dbs == DbOrder(searches)
    ensures forall d :: d in counts <==> d in dbs
    ensures forall d :: d in counts ==> counts[d] == DbTotal(searches, d)
  {
    dbs, counts := [], map[];
    for i := 0 to |searches|
      invariant dbs == DbOrder(searches[..i])
      invariant forall d :: d in counts <==> d in dbs
      invariant forall d :: d in counts ==> counts[d] == DbTotal(searches[..i], d)
    {
      var e := searches[i];
      assert searches[..i + 1][..i] == searches[..i] && searches[..i + 1][i] == e;
      if e.importStage == Search {
        var db := e.database;
        if db !in counts {
          UnlistedTotalZero(searches[..i], db);
          dbs := dbs + [db];
        }
        counts := counts[db := (if db in counts then counts[db] else 0) + e.recordsRaw];
      }
    }
    assert searches[..|searches|] == searches;
  }

  /**
   * The loops of lines 131-142, for either list of names: each name is appended to the
   * labels and `idx` records the position it was last given.
   */
  method PlaceLabels(idx0: map<Node, nat>, labels0: seq<Node>, names: seq<Node>)
    returns (idx: map<Node, nat>, labels: seq<Node>)
    requires forall x :: x in idx0 <==> x in labels0
    requires forall x :: x in idx0 ==> LastAt(labels0, x, idx0[x])
    ensures labels == labels0 + names
    ensures forall x :: x in idx <==> x in labels
    ensures forall x :: x in idx ==> LastAt(labels, x, idx[x])
  {
    idx, labels := idx0, labels0;
    for k := 0 to |names|
      invariant labels == labels0 + names[..k]
      invariant forall x :: x in idx <==> x in labels
      invariant forall x :: x in idx ==> LastAt(labels, x, idx[x])
    {
      var y := names[k];
      idx := idx[y := |labels|];
      assert names[..k + 1] == names[..k] + [y];
      labels := labels + [y];
    }
    assert names[..|names|] == names;
  }

  /** After the names are placed, each of them, listed once, sits at its own place after `dbs`. */
  lemma PlacedTail(dbs: seq<Node>, names: seq<Node>, idx: map<Node, nat>, labels: seq<Node>)
    requires Distinct(names) && labels == dbs + names
    requires forall x :: x in idx <==> x in labels
    requires forall x :: x in idx ==> LastAt(labels, x, idx[x])
    ensures forall i :: 0 <= i < |names| ==> names[i] in idx && idx[names[i]] == |dbs| + i
  {
    forall i | 0 <= i < |names| ensures names[i] in idx && idx[names[i]] == |dbs| + i {
      assert labels[|dbs| + i] == names[i];
      LastAtTail(dbs, names, i, idx[names[i]]);
    }
  }

  /** Lines 131-142: the databases, then the fixed nodes, each fixed node at its own place. */
  method PlaceNodes(dbs: seq<Node>) returns (idx: map<Node, nat>, labels: seq<Node>, fixedIdx: seq<nat>)
    ensures labels == dbs + Fixed
    ensures forall x :: x in idx <==> x in labels
    ensures forall x :: x in idx ==> LastAt(labels, x, idx[x])
    ensures fixedIdx == [|dbs|, |dbs| + 1, |dbs| + 2, |dbs| + 3]
  {
    idx, labels := PlaceLabels(map[], [], dbs);
    idx, labels := PlaceLabels(idx, labels, Fixed);
    FixedDistinct();
    PlacedTail(dbs, Fixed, idx, labels);
    fixedIdx := [idx[Fixed[0]], idx[Fixed[1]], idx[Fixed[2]], idx[Fixed[3]]];
  }

  /** The loop of lines 144-147: database `k` links from its node into `hub` with its total. */
  method DatabaseLinks(searches: seq<SearchEntry>, dbs: seq<Node>, counts: map<Node, nat>,
                       idx: map<Node, nat>, labels: seq<Node>, hub: nat)
    returns (source: seq<nat>, target: seq<nat>, value: seq<nat>)
    requires forall x :: x in idx ==> LastAt(labels, x, idx[x])
    requires forall k :: 0 <= k < |dbs| ==> dbs[k] in idx && dbs[k] in counts
    requires forall d :: d in counts ==> counts[d] == DbTotal(searches, d)
    ensures |source| == |dbs| && |target| == |dbs| && |value| == |dbs|
    ensures forall k :: 0 <= k < |dbs| ==> LastAt(labels, dbs[k], source[k])
    ensures forall k :: 0 <= k < |dbs| ==> target[k] == hub
    ensures forall k :: 0 <= k < |dbs| ==> value[k] == DbTotal(searches, dbs[k])
  {
    source, target, value := [], [], [];
    for k := 0 to |dbs|
      invariant |source| == k && |target| == k && |value| == k
      invariant forall i :: 0 <= i < k ==> LastAt(labels, dbs[i], source[i])
      invariant forall i :: 0 <= i < k ==> target[i] == hub
      invariant forall i :: 0 <= i < k ==> value[i] == DbTotal(searches, dbs[i])
    {
      source := source + [idx[dbs[k]]];
      target := target + [hub];
      value := value + [counts[dbs[k]]];
    }
  }

  /**
   * Lines 121-159: the node labels and the source, target and value lists, all three of
   * one length.  Database `k` links into "Records identified" with its total; a database
   * named like a fixed node takes that node's index, as `idx[name]` is reassigned.
   */
  method SankeyLinks(ta: nat, ft: nat, de: nat, searches: seq<SearchEntry>)
    returns (labels: seq<Node>, source: seq<nat>, target: seq<nat>, value: seq<nat>)
    ensures var dbs := DbOrder(searches);
      var n := |dbs|;
      && labels == dbs + Fixed
      && |source| == n + 3 && |target| == n + 3 && |value| == n + 3
      && (forall k :: 0 <= k < n ==> LastAt(labels, dbs[k], source[k]))
      && (forall k :: 0 <= k < n ==> target[k] == n)
      && (forall k :: 0 <= k < n ==> value[k] == DbTotal(searches, dbs[k]))
      && source[n..] == [n, n + 1, n + 2]
      && target[n..] == [n + 1, n + 2, n + 3]
      && value[n..] == [ta, ft, de]
  {
    var dbs, counts := CountByDatabase(searches);
    var idx;
    var f;
    idx, labels, f := PlaceNodes(dbs);
    var s0, t0, v0 := DatabaseLinks(searches, dbs, counts, idx, labels, f[0]);
    source, target, value := s0 + [f[0], f[1], f[2]], t0 + [f[1], f[2], f[3]], v0 + [ta, ft, de];
  }

  /** The database links carry, between them, every identified record. */
  lemma LinkValuesSumToIdentified(searches: seq<SearchEntry>, values: seq<nat>)
    requires |values| == |DbOrder(searches)|
    requires forall k :: 0 <= k < |values| ==> values[k] == DbTotal(searches, DbOrder(searches)[k])
    ensures Sum(values) == IdentifiedCount(searches)
  {
    SumOfTotals(searches, DbOrder(searches), values);
    TotalsAddUp(searches);
  }
}
