/** The narrowing a push run applies to its candidates, in the run's order
    (internal/push/candidates.go, internal/push/pipeline.go, internal/push/types.go). */
module PushNarrowing {
  import opened Wrappers
  import opened SubagentClosure

  datatype Row = Row(id: Id, harness: string, project: string)

  datatype Decision = Yes | No | WithheldConflict

  datatype PushConfig = PushConfig(bySource: bool, sources: seq<string>)

  datatype RunConfig = RunConfig(
    sourceProvider: string,
    force: bool,
    filter: seq<Id>,
    pinned: Option<set<Id>>,
    selection: Option<map<Id, Decision>>,
    inherit: map<Id, Id>,
    repository: Option<set<string>>)

  /** A missing session fails closed. */
  function DecisionIn(decisions: map<Id, Decision>, id: Id): Decision {
    if id in decisions then decisions[id] else No
  }

  /** The root whose selection decision lets this session through, if it needs one. */
  function InheritedFrom(run: RunConfig, id: Id): Option<Id> {
    if id !in run.inherit || run.selection.None? then None
    else
      var root := run.inherit[id];
      if DecisionIn(run.selection.value, id) == Yes || DecisionIn(run.selection.value, root) != Yes then None
      else Some(root)
  }

  /** A session inherits exactly when it was pulled in, the selection does not
      admit it, and admits its root. */
  lemma InheritedFromIs(run: RunConfig, id: Id, root: Id)
    ensures InheritedFrom(run, id) == Some(root) <==>
            && id in run.inherit && run.inherit[id] == root && run.selection.Some?
            && !(id in run.selection.value && run.selection.value[id] == Yes)
            && root in run.selection.value && run.selection.value[root] == Yes
  {
  }

  // ----- candidates -----

  function Where(rows: seq<Row>, keep: Row -> bool): (kept: seq<Row>)
    ensures forall r :: r in kept <==> r in rows && keep(r)
  {
    if rows == [] then []
    else (if keep(rows[0]) then [rows[0]] else []) + Where(rows[1..], keep)
  }

  function ByProvider(rows: seq<Row>, provider: string): seq<Row> {
    Where(rows, (r: Row) => r.harness == provider)
  }

  function BySources(rows: seq<Row>, sources: seq<string>): seq<Row> {
    if sources == [] then [] else ByProvider(rows, sources[0]) + BySources(rows, sources[1..])
  }

  /** The base query of a run, over every pushable session. */
  function Candidates(rows: seq<Row>, run: RunConfig, config: Option<PushConfig>): seq<Row> {
    if run.force then (if run.sourceProvider != "" then ByProvider(rows, run.sourceProvider) else rows)
    else if run.sourceProvider != "" then ByProvider(rows, run.sourceProvider)
    else if config.Some? && config.value.bySource then BySources(rows, config.value.sources)
    else rows
  }

  /** The plan's own restatement of that query's harness filter. */
  predicate HarnessAdmitted(row: Row, run: RunConfig, config: Option<PushConfig>) {
    if run.sourceProvider != "" then row.harness == run.sourceProvider
    else if config.Some? && !run.force && config.value.bySource then row.harness in config.value.sources
    else true
  }

  lemma {:induction false} BySourcesMembers(rows: seq<Row>, sources: seq<string>, r: Row)
    ensures r in BySources(rows, sources) <==> r in rows && r.harness in sources
  {
    if sources != [] {
      BySourcesMembers(rows, sources[1..], r);
    }
  }

  /** The restatement and the query agree. */
  lemma HarnessAdmittedIsQuery(rows: seq<Row>, run: RunConfig, config: Option<PushConfig>, r: Row)
    ensures r in Candidates(rows, run, config) <==> r in rows && HarnessAdmitted(r, run, config)
    ensures HarnessAdmitted(r, run, config) <==>
      && (run.sourceProvider != "" ==> r.harness == run.sourceProvider)
      && (run.sourceProvider == "" && !run.force && config.Some? && config.value.bySource ==> r.harness in config.value.sources)
  {
    if config.Some? {
      BySourcesMembers(rows, config.value.sources, r);
    }
  }

  // ----- narrowing -----

  function Chosen(rows: seq<Row>, run: RunConfig): seq<Row> {
    if run.filter != [] then Where(rows, (r: Row) => r.id in run.filter) else rows
  }

  function Pinned(rows: seq<Row>, run: RunConfig): seq<Row> {
    if run.pinned.Some? then Where(rows, (r: Row) => r.id in run.pinned.value) else rows
  }

  /** The selection's decisions with every inherited session admitted. */
  function Inheriting(run: RunConfig): Option<map<Id, Decision>> {
    if run.selection.None? || run.inherit == map[] then run.selection
    else Some(run.selection.value + map id | id in run.inherit && InheritedFrom(run, id).Some? :: Yes)
  }

  function Selected(rows: seq<Row>, run: RunConfig): seq<Row> {
    match Inheriting(run)
    case None => rows
    case Some(decisions) => Where(rows, (r: Row) => DecisionIn(decisions, r.id) == Yes)
  }

  function Scoped(rows: seq<Row>, run: RunConfig): seq<Row> {
    if run.repository.Some? then Where(rows, (r: Row) => r.project in run.repository.value) else rows
  }

  ghost predicate Holds(rows: seq<Row>, id: Id) {
    exists r :: r in rows && r.id == id
  }

  function IdSet(rows: seq<Row>): set<Id> {
    set r | r in rows :: r.id
  }

  function DropInheritedWithoutRoot(rows: seq<Row>, run: RunConfig): seq<Row> {
    if run.inherit == map[] then rows
    else
      var present := IdSet(rows);
      Where(rows, (r: Row) => InheritedFrom(run, r.id).None? || InheritedFrom(run, r.id).value in present)
  }

  /** What every description of a run narrows to. */
  function Narrow(rows: seq<Row>, run: RunConfig): seq<Row> {
    DropInheritedWithoutRoot(Scoped(Selected(Pinned(Chosen(rows, run), run), run), run), run)
  }

  /** Whether a stored session passes the check its own upload makes. */
  type Readiness = Id -> bool

  predicate RootReady(run: RunConfig, ready: Readiness, r: Row) {
    InheritedFrom(run, r.id).None? || ready(InheritedFrom(run, r.id).value)
  }

  /** The sessions the run itself goes on with. */
  function Kept(rows: seq<Row>, run: RunConfig, ready: Readiness): seq<Row> {
    WithReadyRoot(Narrow(rows, run), run, ready)
  }

  function WithReadyRoot(rows: seq<Row>, run: RunConfig, ready: Readiness): seq<Row> {
    Where(rows, (r: Row) => RootReady(run, ready, r))
  }

  function RootsOf(rows: seq<Row>, run: RunConfig): set<Id> {
    set r | r in rows && InheritedFrom(run, r.id).Some? :: InheritedFrom(run, r.id).value
  }

  lemma {:induction false} WhereSnoc(rows: seq<Row>, last: Row, keep: Row -> bool)
    ensures Where(rows + [last], keep) == Where(rows, keep) + if keep(last) then [last] else []
  {
    if rows == [] {
      assert rows + [last] == [last] && [last][1..] == [];
    } else {
      assert (rows + [last])[1..] == rows[1..] + [last];
      WhereSnoc(rows[1..], last, keep);
    }
  }

  /** A filter keeps what it admits, as often and in the order it stands. */
  lemma {:induction false} WherePicks(rows: seq<Row>, keep: Row -> bool)
    ensures Picks(rows, keep, Where(rows, keep))
  {
    hide Picks;
    if rows == [] {
      PicksNone(keep);
    } else {
      var init, last := rows[..|rows| - 1], rows[|rows| - 1];
      assert rows == init + [last];
      WherePicks(init, keep);
      WhereSnoc(init, last, keep);
      PicksSnoc(init, last, keep, Where(init, keep));
      assert Where(init, keep) + [] == Where(init, keep);
    }
  }

  lemma ReadySnoc(rows: seq<Row>, i: nat, run: RunConfig, ready: Readiness)
    requires i < |rows|
    ensures WithReadyRoot(rows[..i + 1], run, ready)
         == WithReadyRoot(rows[..i], run, ready) + if RootReady(run, ready, rows[i]) then [rows[i]] else []
  {
    assert rows[..i + 1] == rows[..i] + [rows[i]];
    WhereSnoc(rows[..i], rows[i], (r: Row) => RootReady(run, ready, r));
  }

  /** What the memory of root readiness holds: each root met, checked once. */
  ghost predicate Checked(known: map<Id, bool>, ready: Readiness, roots: set<Id>, checks: nat) {
    known.Keys == roots && checks == |roots| && forall root :: root in known ==> known[root] == ready(root)
  }

  /** A root's readiness out of the memory, or checked and remembered. */
  method CheckRoot(ready: Readiness, known: map<Id, bool>, root: Id, ghost roots: set<Id>, ghost checksBefore: nat)
      returns (rootReady: bool, remembered: map<Id, bool>, ghost checks: nat)
    requires Checked(known, ready, roots, checksBefore)
    ensures rootReady == ready(root)
    ensures Checked(remembered, ready, roots + {root}, checks)
  {
    if root in known {
      assert roots + {root} == roots;
      return known[root], known, checksBefore;
    }
    rootReady := ready(root);
    remembered := known[root := rootReady];
    checks := checksBefore + 1;
  }

  lemma RootsSnoc(rows: seq<Row>, i: nat, run: RunConfig)
    requires i < |rows|
    ensures var inherited := InheritedFrom(run, rows[i].id);
      RootsOf(rows[..i + 1], run) == RootsOf(rows[..i], run) + if inherited.Some? then {inherited.value} else {}
  {
  }

  lemma {:induction false} AllKept(rows: seq<Row>, keep: Row -> bool)
    requires forall r :: r in rows ==> keep(r)
    ensures Where(rows, keep) == rows
  {
    if rows != [] {
      AllKept(rows[1..], keep);
    }
  }

  /** Where the drop starts, and where it has nothing to do. */
  lemma NothingDropped(kept: seq<Row>, run: RunConfig, ready: Readiness)
    ensures WithReadyRoot([], run, ready) == [] && Checked(map[], ready, RootsOf([], run), 0)
    ensures run.inherit == map[] ==> WithReadyRoot(kept, run, ready) == kept && |RootsOf(kept, run)| == 0
  {
    if run.inherit == map[] {
      AllKept(kept, (r: Row) => RootReady(run, ready, r));
      assert RootsOf(kept, run) == {};
    }
  }

  lemma CheckedSize(known: map<Id, bool>, ready: Readiness, roots: set<Id>, checks: nat)
    requires Checked(known, ready, roots, checks)
    ensures checks == |roots|
  {
  }

  /** The last drop, each root's readiness checked once. */
  method DropInheritedWithUnreadyRoot(kept: seq<Row>, run: RunConfig, ready: Readiness)
      returns (out: seq<Row>, ghost checks: nat)
    ensures out == WithReadyRoot(kept, run, ready)
    ensures checks == |RootsOf(kept, run)|
  {
    out, checks := [], 0;
    NothingDropped(kept, run, ready);
    hide WithReadyRoot, Checked, RootsOf, InheritedFrom;
    if run.inherit == map[] {
      return kept, 0;
    }
    var known: map<Id, bool> := map[];
    for i := 0 to |kept|
      invariant out == WithReadyRoot(kept[..i], run, ready)
      invariant Checked(known, ready, RootsOf(kept[..i], run), checks)
    {
      var session := kept[i];
      ReadySnoc(kept, i, run, ready);
      RootsSnoc(kept, i, run);
      var inherited := InheritedFrom(run, session.id);
      if inherited.None? {
        out := out + [session];
        continue;
      }
      var rootReady;
      rootReady, known, checks := CheckRoot(ready, known, inherited.value, RootsOf(kept[..i], run), checks);
      if rootReady {
        out := out + [session];
      }
    }
    assert kept[..|kept|] == kept;
    CheckedSize(known, ready, RootsOf(kept, run), checks);
  }

  lemma SelectedMembers(rows: seq<Row>, run: RunConfig, r: Row)
    ensures r in Selected(rows, run) <==>
            r in rows && (run.selection.None? || DecisionIn(run.selection.value, r.id) == Yes
                          || InheritedFrom(run, r.id).Some?)
  {
  }

  /** Admitted by every stage but the two that ask for a root. */
  ghost predicate Admitted(rows: seq<Row>, run: RunConfig, r: Row) {
    && r in rows
    && (run.filter == [] || r.id in run.filter)
    && (run.pinned.Some? ==> r.id in run.pinned.value)
    && (run.repository.Some? ==> r.project in run.repository.value)
    && (run.selection.Some? ==> DecisionIn(run.selection.value, r.id) == Yes || InheritedFrom(run, r.id).Some?)
  }

  lemma ScopedMembers(rows: seq<Row>, run: RunConfig, r: Row)
    ensures r in Scoped(Selected(Pinned(Chosen(rows, run), run), run), run) <==> Admitted(rows, run, r)
  {
    SelectedMembers(Pinned(Chosen(rows, run), run), run, r);
  }

  /** A session that inherits nothing is kept exactly when each stage admits it. */
  lemma {:induction false} KeptMembers(rows: seq<Row>, run: RunConfig, ready: Readiness, r: Row)
    requires InheritedFrom(run, r.id).None?
    ensures r in Kept(rows, run, ready) <==>
            && r in rows
            && (run.filter == [] || r.id in run.filter)
            && (run.pinned.Some? ==> r.id in run.pinned.value)
            && (run.selection.Some? ==> DecisionIn(run.selection.value, r.id) == Yes)
            && (run.repository.Some? ==> r.project in run.repository.value)
  {
    ScopedMembers(rows, run, r);
  }

  /** A session that inherits is kept exactly when, besides, its root is kept
      and ready; and a root inherits nothing itself. */
  lemma {:induction false} InheritedMembers(rows: seq<Row>, run: RunConfig, ready: Readiness, r: Row)
    requires InheritedFrom(run, r.id).Some?
    ensures var root := InheritedFrom(run, r.id).value;
      && InheritedFrom(run, root).None?
      && (r in Kept(rows, run, ready) <==>
            Admitted(rows, run, r) && ready(root) && Holds(Kept(rows, run, ready), root))
  {
    var root := InheritedFrom(run, r.id).value;
    var scoped := Scoped(Selected(Pinned(Chosen(rows, run), run), run), run);
    ScopedMembers(rows, run, r);
    if top :| top in scoped && top.id == root {
      assert top in Narrow(rows, run) && top in Kept(rows, run, ready);
    }
    if top :| top in Kept(rows, run, ready) && top.id == root {
      assert top in scoped && root in IdSet(scoped);
    }
  }
}
