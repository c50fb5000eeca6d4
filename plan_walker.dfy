/**
 * `get_filters_from_plan`: the walk over a JSON `EXPLAIN` plan that
 * collects, from every scan node, the node's condition with the geometry
 * predicates removed, together with the table it scans.
 */
module PlanWalker {
  import opened Wrappers
  import opened GeomFilter

  /**
   * One node of a JSON plan: the keys the walk reads, each of which may be
   * missing. `plans` is the node's `Plans` list and means something only
   * when `hasPlans` says the key is present.
   */
  datatype PlanNode = PlanNode(
    nodeType: Option<string>,
    filter: Option<string>,
    recheckCond: Option<string>,
    relationName: Option<string>,
    hasPlans: bool,
    plans: seq<PlanNode>)

  /** A `(filter, table)` pair of the walk's result list. */
  datatype Finding = Finding(filter: string, table: string)

  /** What the walk raises: a `KeyError` for a missing key, or `NotImplementedError` for a node it cannot handle. */
  datatype WalkError = MissingKey(key: string) | NotImplemented(node: PlanNode)

  type Walk = Result<seq<Finding>, WalkError>

  const SeqScan := "Seq Scan"
  const IndexScan := "Index Scan"
  const BitmapIndexScan := "Bitmap Index Scan"
  const BitmapHeapScan := "Bitmap Heap Scan"
  const ValuesScan := "Values Scan"

  /** The node types the walk handles itself, without looking at `Plans`. */
  predicate IsLeafType(t: string) {
    t == SeqScan || t == IndexScan || t == BitmapIndexScan || t == BitmapHeapScan || t == ValuesScan
  }

  /** What the walk keeps of a filter: something is left once the geometry predicates are gone. */
  predicate IsKeptFilter(f: Finding) {
    f.filter != [] && f.filter[0] !in PyStrings.UnicodeWhitespace && f.filter[|f.filter| - 1] !in PyStrings.UnicodeWhitespace
  }

  /** Results from first to last, stopping at the first exception, as `results.extend` in a loop does. */
  function Then(r1: Walk, r2: Walk): Walk {
    match r1
    case Failure(e) => Failure(e)
    case Success(a) =>
      match r2
      case Failure(e) => Failure(e)
      case Success(b) => Success(a + b)
  }

  /** A scan node's contribution: nothing when its filter is empty, otherwise the filter and the node's table. */
  function ScanResult(col: string, cond: string, relationName: Option<string>): (r: Walk)
    ensures r.Success? ==> |r.value| <= 1 && forall i :: 0 <= i < |r.value| ==> IsKeptFilter(r.value[i])
  {
    var filter := RmGeomCondition(col, cond);
    if filter == "" then Success([])
    else
      match relationName
      case None => Failure(MissingKey("Relation Name"))
      case Some(table) => Success([Finding(filter, table)])
  }

  /** `get_filters_from_plan(plan, geom_column)`. */
  function GetFiltersFromPlan(plan: PlanNode, col: string): (r: Walk)
    ensures r.Success? ==> forall i :: 0 <= i < |r.value| ==> IsKeptFilter(r.value[i])
    decreases plan, 1
  {
    match plan.nodeType
    case None => Failure(MissingKey("Node Type"))
    case Some(t) =>
      if t == SeqScan || t == IndexScan then
        ScanResult(col, plan.filter.GetOr(""), plan.relationName)
      else if t == BitmapIndexScan || t == BitmapHeapScan then
        match plan.recheckCond
        case None => Failure(MissingKey("Recheck Cond"))
        case Some(cond) => ScanResult(col, cond, plan.relationName)
      else if t == ValuesScan then
        Success([])
      else if plan.hasPlans then
        GetFiltersFromPlans(plan.plans, col)
      else
        Failure(NotImplemented(plan))
  }

  /** The loop over a node's `Plans`, extending the result with each child's pairs in turn. */
  function GetFiltersFromPlans(plans: seq<PlanNode>, col: string): (r: Walk)
    ensures r.Success? ==> forall i :: 0 <= i < |r.value| ==> IsKeptFilter(r.value[i])
    decreases plans, 0
  {
    if plans == [] then Success([])
    else Then(GetFiltersFromPlan(plans[0], col), GetFiltersFromPlans(plans[1..], col))
  }

  // ---------------------------------------------------------------------
  // The walk as a loop over the nodes it visits.
  // ---------------------------------------------------------------------

  /** The nodes the walk visits, in the order it visits them: a node, then its children if it descends. */
  function Visited(plan: PlanNode): seq<PlanNode>
    decreases plan, 1
  {
    [plan] + if Descends(plan) then VisitedAll(plan.plans) else []
  }

  function VisitedAll(plans: seq<PlanNode>): seq<PlanNode>
    decreases plans, 0
  {
    if plans == [] then [] else Visited(plans[0]) + VisitedAll(plans[1..])
  }

  /** The walk goes into a node's children exactly when the node has an unrecognised type and a `Plans` key. */
  predicate Descends(plan: PlanNode) {
    plan.nodeType.Some? && !IsLeafType(plan.nodeType.value) && plan.hasPlans
  }

  /** What one node adds to the result, apart from what its children add. */
  function NodeResult(plan: PlanNode, col: string): Walk {
    match plan.nodeType
    case None => Failure(MissingKey("Node Type"))
    case Some(t) =>
      if t == SeqScan || t == IndexScan then ScanResult(col, plan.filter.GetOr(""), plan.relationName)
      else if t == BitmapIndexScan || t == BitmapHeapScan then
        (if plan.recheckCond.None? then Failure(MissingKey("Recheck Cond")) else ScanResult(col, plan.recheckCond.value, plan.relationName))
      else if t == ValuesScan || plan.hasPlans then Success([])
      else Failure(NotImplemented(plan))
  }

  /** The node results of `nodes`, in order, up to the first failure. */
  function RunAll(nodes: seq<PlanNode>, col: string): Walk {
    if nodes == [] then Success([]) else Then(NodeResult(nodes[0], col), RunAll(nodes[1..], col))
  }

  lemma ThenAssoc(r1: Walk, r2: Walk, r3: Walk)
    ensures Then(Then(r1, r2), r3) == Then(r1, Then(r2, r3))
  {
    if r1.Success? && r2.Success? && r3.Success? {
      assert (r1.value + r2.value) + r3.value == r1.value + (r2.value + r3.value);
    }
  }

  lemma {:induction false} RunAllAppend(a: seq<PlanNode>, b: seq<PlanNode>, col: string)
    ensures RunAll(a + b, col) == Then(RunAll(a, col), RunAll(b, col))
  {
    if a == [] {
      assert a + b == b;
      var r := RunAll(b, col);
      assert r.Success? ==> [] + r.value == r.value;
    } else {
      assert (a + b)[0] == a[0] && (a + b)[1..] == a[1..] + b;
      RunAllAppend(a[1..], b, col);
      ThenAssoc(NodeResult(a[0], col), RunAll(a[1..], col), RunAll(b, col));
    }
  }

  /** Running nothing after a result leaves the result. */
  lemma ThenNothing(r: Walk)
    ensures Then(r, Success([])) == r
  {
    if r.Success? {
      assert r.value + [] == r.value;
    }
  }

  /** The recursive walk and the loop over the visited nodes give the same result, error included. */
  lemma {:induction false} WalkIsRunAll(plan: PlanNode, col: string)
    ensures GetFiltersFromPlan(plan, col) == RunAll(Visited(plan), col)
    decreases plan, 1
  {
    var v := Visited(plan);
    assert v[0] == plan;
    if Descends(plan) {
      WalksAreRunAll(plan.plans, col);
      assert v[1..] == VisitedAll(plan.plans);
      var r := RunAll(v[1..], col);
      assert Then(Success([]), r) == r by {
        if r.Success? {
          assert [] + r.value == r.value;
        }
      }
    } else {
      assert v == [plan];
      assert v[1..] == [];
      ThenNothing(NodeResult(plan, col));
    }
  }

  lemma {:induction false} WalksAreRunAll(plans: seq<PlanNode>, col: string)
    ensures GetFiltersFromPlans(plans, col) == RunAll(VisitedAll(plans), col)
    decreases plans, 0
  {
    if plans != [] {
      WalkIsRunAll(plans[0], col);
      WalksAreRunAll(plans[1..], col);
      RunAllAppend(Visited(plans[0]), VisitedAll(plans[1..]), col);
    }
  }

  /** Walking a node's children one list after another is walking the joined list. */
  lemma WalkPlansAppend(ps1: seq<PlanNode>, ps2: seq<PlanNode>, col: string)
    ensures GetFiltersFromPlans(ps1 + ps2, col) == Then(GetFiltersFromPlans(ps1, col), GetFiltersFromPlans(ps2, col))
  {
    VisitedAllAppend(ps1, ps2);
    WalksAreRunAll(ps1 + ps2, col);
    WalksAreRunAll(ps1, col);
    WalksAreRunAll(ps2, col);
    RunAllAppend(VisitedAll(ps1), VisitedAll(ps2), col);
  }

  lemma {:induction false} VisitedAllAppend(ps1: seq<PlanNode>, ps2: seq<PlanNode>)
    ensures VisitedAll(ps1 + ps2) == VisitedAll(ps1) + VisitedAll(ps2)
  {
    if ps1 == [] {
      assert ps1 + ps2 == ps2;
    } else {
      assert (ps1 + ps2)[0] == ps1[0] && (ps1 + ps2)[1..] == ps1[1..] + ps2;
      VisitedAllAppend(ps1[1..], ps2);
    }
  }

  // ---------------------------------------------------------------------
  // Where each finding comes from, and when the walk fails.
  // ---------------------------------------------------------------------

  /** The condition a scan node is read for: `Filter` (or `''`) for a sequential or index scan, `Recheck Cond` for a bitmap scan. */
  function ScanCondition(n: PlanNode): Option<string> {
    if n.nodeType == Some(SeqScan) || n.nodeType == Some(IndexScan) then Some(n.filter.GetOr(""))
    else if n.nodeType == Some(BitmapIndexScan) || n.nodeType == Some(BitmapHeapScan) then n.recheckCond
    else None
  }

  /** `f` is the pair the scan node `n` yields: its condition less the geometry predicates, non-empty, and the node's own table. */
  predicate FoundAt(n: PlanNode, col: string, f: Finding) {
    ScanCondition(n).Some? && f.filter == RmGeomCondition(col, ScanCondition(n).value) && f.filter != ""
    && n.relationName == Some(f.table)
  }

  /** What a scan contributes, when it does not fail: the one pair of its kept condition and table, if anything is kept. */
  lemma ScanFindings(col: string, cond: string, relationName: Option<string>)
    ensures ScanResult(col, cond, relationName).Success? ==>
      forall f :: f in ScanResult(col, cond, relationName).value <==>
        f.filter == RmGeomCondition(col, cond) && f.filter != "" && relationName == Some(f.table)
  {
  }

  /** The node result is the scan result of its condition for a scan node, and nothing or a failure otherwise. */
  lemma NodeIsScan(n: PlanNode, col: string)
    ensures ScanCondition(n).Some? ==> NodeResult(n, col) == ScanResult(col, ScanCondition(n).value, n.relationName)
    ensures ScanCondition(n).None? && NodeResult(n, col).Success? ==> NodeResult(n, col).value == []
  {
  }

  /** A node that does not fail yields exactly the pairs `FoundAt` describes, at most one. */
  lemma NodeFindings(n: PlanNode, col: string)
    ensures NodeResult(n, col).Success? ==>
      |NodeResult(n, col).value| <= 1 && forall f :: f in NodeResult(n, col).value <==> FoundAt(n, col, f)
  {
    NodeIsScan(n, col);
    if ScanCondition(n).Some? {
      ScanFindings(col, ScanCondition(n).value, n.relationName);
    }
  }

  /** The loop over nodes succeeds exactly when every node does. */
  lemma {:induction false} RunAllSucceeds(nodes: seq<PlanNode>, col: string)
    ensures RunAll(nodes, col).Success? <==> forall j :: 0 <= j < |nodes| ==> NodeResult(nodes[j], col).Success?
  {
    if nodes != [] {
      RunAllSucceeds(nodes[1..], col);
      assert forall j :: 1 <= j < |nodes| ==> nodes[j] == nodes[1..][j - 1];
    }
  }

  /** A failing loop fails with the error of its first failing node. */
  lemma {:induction false} RunAllFirstFailure(nodes: seq<PlanNode>, col: string)
    ensures RunAll(nodes, col).Failure? ==>
      exists j :: 0 <= j < |nodes| && NodeResult(nodes[j], col) == Failure(RunAll(nodes, col).error)
        && forall k :: 0 <= k < j ==> NodeResult(nodes[k], col).Success?
  {
    if nodes != [] && RunAll(nodes, col).Failure? && NodeResult(nodes[0], col).Success? {
      RunAllFirstFailure(nodes[1..], col);
      var j :| 0 <= j < |nodes[1..]| && NodeResult(nodes[1..][j], col) == Failure(RunAll(nodes[1..], col).error)
        && forall k :: 0 <= k < j ==> NodeResult(nodes[1..][k], col).Success?;
      assert NodeResult(nodes[j + 1], col) == Failure(RunAll(nodes, col).error);
      assert forall k :: 1 <= k < j + 1 ==> nodes[k] == nodes[1..][k - 1];
    }
  }

  /** A successful loop yields no more than one pair per node. */
  lemma {:induction false} RunAllLength(nodes: seq<PlanNode>, col: string)
    ensures RunAll(nodes, col).Success? ==> |RunAll(nodes, col).value| <= |nodes|
  {
    if nodes != [] && RunAll(nodes, col).Success? {
      NodeFindings(nodes[0], col);
      RunAllLength(nodes[1..], col);
    }
  }

  /** Every pair of a successful loop is yielded by one of its nodes. */
  lemma {:induction false} RunAllSound(nodes: seq<PlanNode>, col: string, f: Finding)
    requires RunAll(nodes, col).Success? && f in RunAll(nodes, col).value
    ensures exists j :: 0 <= j < |nodes| && FoundAt(nodes[j], col, f)
  {
    NodeFindings(nodes[0], col);
    if f in NodeResult(nodes[0], col).value {
      assert FoundAt(nodes[0], col, f);
    } else {
      RunAllSound(nodes[1..], col, f);
      var j :| 0 <= j < |nodes[1..]| && FoundAt(nodes[1..][j], col, f);
      assert FoundAt(nodes[j + 1], col, f);
    }
  }

  /** Every pair a node yields is in the result of a successful loop. */
  lemma {:induction false} RunAllComplete(nodes: seq<PlanNode>, col: string, j: nat, f: Finding)
    requires RunAll(nodes, col).Success? && j < |nodes| && FoundAt(nodes[j], col, f)
    ensures f in RunAll(nodes, col).value
  {
    if j == 0 {
      NodeFindings(nodes[0], col);
    } else {
      assert nodes[1..][j - 1] == nodes[j];
      RunAllComplete(nodes[1..], col, j - 1, f);
    }
  }

  /** A successful loop yields exactly the pairs its nodes yield, no more than one per node. */
  lemma RunAllFindings(nodes: seq<PlanNode>, col: string)
    ensures RunAll(nodes, col).Success? ==>
      |RunAll(nodes, col).value| <= |nodes|
      && forall f :: f in RunAll(nodes, col).value <==> exists j :: 0 <= j < |nodes| && FoundAt(nodes[j], col, f)
  {
    if RunAll(nodes, col).Success? {
      RunAllLength(nodes, col);
      forall f | f in RunAll(nodes, col).value
        ensures exists j :: 0 <= j < |nodes| && FoundAt(nodes[j], col, f)
      {
        RunAllSound(nodes, col, f);
      }
      forall f, j | 0 <= j < |nodes| && FoundAt(nodes[j], col, f)
        ensures f in RunAll(nodes, col).value
      {
        RunAllComplete(nodes, col, j, f);
      }
    }
  }

  /**
   * The pairs found in a plan are exactly the pairs of the scan nodes the
   * walk reaches, in the order of `Visited`, one at most per node.
   */
  lemma WalkFindings(plan: PlanNode, col: string)
    ensures GetFiltersFromPlan(plan, col).Success? ==>
      |GetFiltersFromPlan(plan, col).value| <= |Visited(plan)|
      && forall f :: f in GetFiltersFromPlan(plan, col).value <==> exists n :: n in Visited(plan) && FoundAt(n, col, f)
  {
    WalkIsRunAll(plan, col);
    RunAllFindings(Visited(plan), col);
  }

  /**
   * The walk fails exactly when some node it reaches fails on its own, and
   * then with the error of the first such node.
   */
  lemma WalkFailure(plan: PlanNode, col: string)
    ensures GetFiltersFromPlan(plan, col).Failure? <==> exists n :: n in Visited(plan) && NodeResult(n, col).Failure?
    ensures GetFiltersFromPlan(plan, col).Failure? ==>
      exists j :: 0 <= j < |Visited(plan)| && NodeResult(Visited(plan)[j], col) == Failure(GetFiltersFromPlan(plan, col).error)
        && forall k :: 0 <= k < j ==> NodeResult(Visited(plan)[k], col).Success?
  {
    WalkIsRunAll(plan, col);
    RunAllSucceeds(Visited(plan), col);
    RunAllFirstFailure(Visited(plan), col);
  }

  /** Visiting the children in another order visits the same nodes, as many times each. */
  lemma {:induction false} VisitedAllPermuted(ps: seq<PlanNode>, qs: seq<PlanNode>)
    requires multiset(qs) == multiset(ps)
    ensures multiset(VisitedAll(qs)) == multiset(VisitedAll(ps))
    decreases |ps|
  {
    if ps == [] {
      assert qs == [];
    } else {
      var i := RemoveFirst(ps, qs);
      VisitedAllPermuted(ps[1..], qs[..i] + qs[i + 1..]);
      VisitedAllSplit(qs, i);
    }
  }

  /** Where the first element of `ps` sits in its permutation `qs`, and what is left of `qs` without it. */
  lemma RemoveFirst(ps: seq<PlanNode>, qs: seq<PlanNode>) returns (i: nat)
    requires ps != [] && multiset(qs) == multiset(ps)
    ensures i < |qs| && qs[i] == ps[0] && multiset(qs[..i] + qs[i + 1..]) == multiset(ps[1..])
  {
    assert ps == [ps[0]] + ps[1..];
    assert ps[0] in multiset(qs);
    i :| 0 <= i < |qs| && qs[i] == ps[0];
    assert qs == qs[..i] + [qs[i]] + qs[i + 1..];
    calc {
      multiset(qs[..i] + qs[i + 1..]);
      multiset(qs[..i]) + multiset(qs[i + 1..]);
      multiset(qs) - multiset{qs[i]};
      multiset(ps) - multiset{ps[0]};
      multiset(ps[1..]);
    }
  }

  /** The nodes visited from a list are those visited from its element `i` and from the rest, in any order. */
  lemma VisitedAllSplit(qs: seq<PlanNode>, i: nat)
    requires i < |qs|
    ensures multiset(VisitedAll(qs)) == multiset(Visited(qs[i])) + multiset(VisitedAll(qs[..i] + qs[i + 1..]))
  {
    VisitedAllAt(qs, i);
    VisitedAllAppend(qs[..i], qs[i + 1..]);
  }

  /** The nodes visited from a list, in order: those before element `i`, those from it, those after. */
  lemma VisitedAllAt(qs: seq<PlanNode>, i: nat)
    requires i < |qs|
    ensures VisitedAll(qs) == VisitedAll(qs[..i]) + (Visited(qs[i]) + VisitedAll(qs[i + 1..]))
  {
    assert qs == qs[..i] + qs[i..];
    VisitedAllAppend(qs[..i], qs[i..]);
    assert qs[i..][0] == qs[i] && qs[i..][1..] == qs[i + 1..];
  }

  /** A node with its `Plans` replaced fails alone, and yields alone, exactly as before. */
  lemma NodeIgnoresPlans(plan: PlanNode, ps: seq<PlanNode>, col: string)
    ensures NodeResult(plan.(plans := ps), col).Failure? <==> NodeResult(plan, col).Failure?
    ensures forall f :: FoundAt(plan.(plans := ps), col, f) <==> FoundAt(plan, col, f)
    ensures Descends(plan.(plans := ps)) == Descends(plan)
  {
    var q := plan.(plans := ps);
    assert ScanCondition(q) == ScanCondition(plan);
    NodeIsScan(q, col);
    NodeIsScan(plan, col);
  }

  /** The nodes a node with reordered `Plans` visits: itself, then its original children's nodes if it descends. */
  lemma ReorderedVisits(plan: PlanNode, ps: seq<PlanNode>)
    requires multiset(ps) == multiset(plan.plans)
    ensures forall n :: n in Visited(plan.(plans := ps)) <==>
      n == plan.(plans := ps) || (Descends(plan) && n in VisitedAll(plan.plans))
  {
    if Descends(plan) {
      VisitedAllPermuted(plan.plans, ps);
      forall n ensures n in VisitedAll(ps) <==> n in VisitedAll(plan.plans) {
        assert n in VisitedAll(ps) <==> n in multiset(VisitedAll(ps));
        assert n in VisitedAll(plan.plans) <==> n in multiset(VisitedAll(plan.plans));
      }
    }
  }

  /**
   * Reordering a node's `Plans` may change the order of the pairs found, but
   * not whether the walk raises nor which pairs it finds.
   */
  lemma ReorderedChildren(plan: PlanNode, ps: seq<PlanNode>, col: string)
    requires multiset(ps) == multiset(plan.plans)
    ensures GetFiltersFromPlan(plan.(plans := ps), col).Success? <==> GetFiltersFromPlan(plan, col).Success?
    ensures GetFiltersFromPlan(plan, col).Success? ==>
      forall f :: f in GetFiltersFromPlan(plan.(plans := ps), col).value <==> f in GetFiltersFromPlan(plan, col).value
  {
    var q := plan.(plans := ps);
    ReorderedVisits(plan, ps);
    NodeIgnoresPlans(plan, ps, col);
    assert Visited(plan) == [plan] + if Descends(plan) then VisitedAll(plan.plans) else [];
    ReorderedFailure(plan, q, col);
    if GetFiltersFromPlan(plan, col).Success? {
      ReorderedFindings(plan, q, col);
    }
  }

  /** Two nodes that fail alike and visit the same other nodes fail alike as walks. */
  lemma ReorderedFailure(plan: PlanNode, q: PlanNode, col: string)
    requires NodeResult(q, col).Failure? <==> NodeResult(plan, col).Failure?
    requires forall n :: n in Visited(q) ==> n == q || n in Visited(plan)
    requires forall n :: n in Visited(plan) ==> n == plan || n in Visited(q)
    ensures GetFiltersFromPlan(q, col).Success? <==> GetFiltersFromPlan(plan, col).Success?
  {
    WalkFailure(q, col);
    WalkFailure(plan, col);
    assert q in Visited(q) && plan in Visited(plan) by {
      assert Visited(q)[0] == q && Visited(plan)[0] == plan;
    }
  }

  /** Two nodes that yield alike and visit the same other nodes find the same pairs. */
  lemma ReorderedFindings(plan: PlanNode, q: PlanNode, col: string)
    requires forall f :: FoundAt(q, col, f) <==> FoundAt(plan, col, f)
    requires forall n :: n in Visited(q) ==> n == q || n in Visited(plan)
    requires forall n :: n in Visited(plan) ==> n == plan || n in Visited(q)
    requires GetFiltersFromPlan(q, col).Success? && GetFiltersFromPlan(plan, col).Success?
    ensures forall f :: f in GetFiltersFromPlan(q, col).value <==> f in GetFiltersFromPlan(plan, col).value
  {
    WalkFindings(q, col);
    WalkFindings(plan, col);
    assert q in Visited(q) && plan in Visited(plan) by {
      assert Visited(q)[0] == q && Visited(plan)[0] == plan;
    }
  }

  /** A scan node is never descended into: its `Plans`, present or not, change nothing. */
  lemma ScansIgnoreChildren(plan: PlanNode, col: string, hasPlans: bool, plans: seq<PlanNode>)
    requires plan.nodeType.Some? && IsLeafType(plan.nodeType.value)
    ensures GetFiltersFromPlan(plan.(hasPlans := hasPlans, plans := plans), col) == GetFiltersFromPlan(plan, col)
    ensures Visited(plan) == [plan]
  {
  }

  /** A `Values Scan` yields nothing. */
  lemma ValuesScanEmpty(plan: PlanNode, col: string)
    requires plan.nodeType == Some(ValuesScan)
    ensures GetFiltersFromPlan(plan, col) == Success([])
  {
  }

  /** A node without `Node Type` raises `KeyError('Node Type')`. */
  lemma MissingNodeType(plan: PlanNode, col: string)
    requires plan.nodeType.None?
    ensures GetFiltersFromPlan(plan, col) == Failure(MissingKey("Node Type"))
  {
  }

  /** A bitmap scan without `Recheck Cond` raises `KeyError('Recheck Cond')`. */
  lemma MissingRecheckCond(plan: PlanNode, col: string)
    requires plan.nodeType == Some(BitmapIndexScan) || plan.nodeType == Some(BitmapHeapScan)
    requires plan.recheckCond.None?
    ensures GetFiltersFromPlan(plan, col) == Failure(MissingKey("Recheck Cond"))
  {
  }

  /** A scan whose condition keeps something but that has no `Relation Name` raises `KeyError('Relation Name')`. */
  lemma MissingRelationName(plan: PlanNode, col: string)
    requires ScanCondition(plan).Some? && RmGeomCondition(col, ScanCondition(plan).value) != ""
    requires plan.relationName.None?
    ensures GetFiltersFromPlan(plan, col) == Failure(MissingKey("Relation Name"))
  {
    assert GetFiltersFromPlan(plan, col) == ScanResult(col, ScanCondition(plan).value, plan.relationName);
  }

  /** An unrecognised node without `Plans` raises `NotImplementedError(plan)`. */
  lemma UnknownLeaf(plan: PlanNode, col: string)
    requires plan.nodeType.Some? && !IsLeafType(plan.nodeType.value) && !plan.hasPlans
    ensures GetFiltersFromPlan(plan, col) == Failure(NotImplemented(plan))
  {
  }
}
