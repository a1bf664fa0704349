/** The counters of a plan against the results of its run, and its errors against
    the failures the run itself counts (cmd/peasant/cmd_push.go, failedSessions). */
module PlanErrors {
  import opened Wrappers
  import opened SubagentClosure
  import opened PushSelection
  import opened PushNarrowing
  import opened PushPlan
  import opened PlanTheorems

  /** Tried, and not published for a reason other than readiness. */
  predicate Failing(r: SessionResult) {
    r.status == StatusError && !r.failure.UnreadyFailure?
  }

  function FailedCount(results: seq<SessionResult>): nat {
    if results == [] then 0
    else FailedCount(results[..|results| - 1]) + (if Failing(results[|results| - 1]) then 1 else 0)
  }

  method FailedSessions(result: Option<seq<SessionResult>>, plan: Option<seq<PlanEntry>>) returns (failed: nat)
    ensures result.None? ==> failed == 0
    ensures result.Some? && plan.Some? ==> failed == CountVerdict(plan.value, Failed)
    ensures result.Some? && plan.None? ==> failed == FailedCount(result.value)
  {
    if result.None? {
      return 0;
    }
    if plan.Some? {
      var c := CountsOfPlan(plan.value);
      return c.errors;
    }
    failed := 0;
    var sessions := result.value;
    for i := 0 to |sessions|
      invariant failed == FailedCount(sessions[..i])
    {
      assert sessions[..i + 1][..i] == sessions[..i];
      if sessions[i].status != StatusError {
        continue;
      }
      if !sessions[i].failure.UnreadyFailure? {
        failed := failed + 1;
      }
    }
    assert sessions[..|sessions|] == sessions;
  }

  // ----- counting ids -----

  function ResultIds(results: seq<SessionResult>): (ids: seq<Id>)
    ensures |ids| == |results|
    ensures forall i :: 0 <= i < |ids| ==> ids[i] == results[i].id
  {
    seq(|results|, i requires 0 <= i < |results| => results[i].id)
  }

  /** A result of a session the results before the last do not mention. */
  lemma LastIsNew(results: seq<SessionResult>)
    requires results != [] && Distinct(ResultIds(results))
    ensures var init, last := results[..|results| - 1], results[|results| - 1];
      && results == init + [last]
      && Distinct(ResultIds(init))
      && (forall r :: r in init ==> r.id != last.id)
  {
    var init := results[..|results| - 1];
    forall i, j | 0 <= i < j < |init|
      ensures ResultIds(init)[i] != ResultIds(init)[j]
    {
      assert ResultIds(results)[i] != ResultIds(results)[j];
    }
    forall r | r in init
      ensures r.id != results[|init|].id
    {
      var i :| 0 <= i < |init| && init[i] == r;
      assert ResultIds(results)[i] != ResultIds(results)[|init|];
    }
  }

  lemma {:induction false} ResultMapIs(results: seq<SessionResult>)
    requires Distinct(ResultIds(results))
    ensures forall id :: id in ResultMap(results) ==> ResultMap(results)[id].id == id && ResultMap(results)[id] in results
    ensures forall r :: r in results ==> r.id in ResultMap(results) && ResultMap(results)[r.id] == r
  {
    if results != [] {
      var init, last := results[..|results| - 1], results[|results| - 1];
      LastIsNew(results);
      ResultMapIs(init);
    }
  }

  /** How many results `keep` accepts, and of which sessions they are. */
  function CountWhere(results: seq<SessionResult>, keep: SessionResult -> bool): nat {
    if results == [] then 0
    else CountWhere(results[..|results| - 1], keep) + (if keep(results[|results| - 1]) then 1 else 0)
  }

  function IdsWhere(results: seq<SessionResult>, keep: SessionResult -> bool): set<Id> {
    set r | r in results && keep(r) :: r.id
  }

  lemma IdsWhereSnoc(init: seq<SessionResult>, last: SessionResult, keep: SessionResult -> bool)
    ensures IdsWhere(init + [last], keep) == IdsWhere(init, keep) + if keep(last) then {last.id} else {}
  {
  }

  lemma {:induction false} CountWhereIsSize(results: seq<SessionResult>, keep: SessionResult -> bool)
    requires Distinct(ResultIds(results))
    ensures CountWhere(results, keep) == |IdsWhere(results, keep)|
  {
    if results != [] {
      var init, last := results[..|results| - 1], results[|results| - 1];
      LastIsNew(results);
      CountWhereIsSize(init, keep);
      IdsWhereSnoc(init, last, keep);
    }
  }

  function CountGiven(explain: Explain, ids: seq<Id>, v: Verdict): nat {
    if ids == [] then 0
    else (if explain(ids[0]).verdict == v then 1 else 0) + CountGiven(explain, ids[1..], v)
  }

  function GivenIds(explain: Explain, ids: seq<Id>, v: Verdict): set<Id> {
    set id | id in ids && explain(id).verdict == v
  }

  lemma GivenCons(explain: Explain, id: Id, rest: seq<Id>, v: Verdict)
    requires id !in rest
    ensures |GivenIds(explain, [id] + rest, v)| == (if explain(id).verdict == v then 1 else 0) + |GivenIds(explain, rest, v)|
  {
    var own := if explain(id).verdict == v then {id} else {};
    assert GivenIds(explain, [id] + rest, v) == own + GivenIds(explain, rest, v);
  }

  lemma {:induction false} CountGivenIsSize(explain: Explain, ids: seq<Id>, v: Verdict)
    requires Distinct(ids)
    ensures CountGiven(explain, ids, v) == |GivenIds(explain, ids, v)|
  {
    if ids != [] {
      CountGivenIsSize(explain, ids[1..], v);
      assert ids == [ids[0]] + ids[1..];
      GivenCons(explain, ids[0], ids[1..], v);
    }
  }

  function CountFlat(entries: seq<PlanEntry>, v: Verdict): nat {
    if entries == [] then 0
    else (if entries[0].verdict == v then 1 else 0) + CountFlat(entries[1..], v)
  }

  lemma {:induction false} CountFlatAppend(a: seq<PlanEntry>, b: seq<PlanEntry>, v: Verdict)
    ensures CountFlat(a + b, v) == CountFlat(a, v) + CountFlat(b, v)
  {
    if a == [] {
      assert a + b == b;
    } else {
      assert (a + b)[1..] == a[1..] + b;
      CountFlatAppend(a[1..], b, v);
    }
  }

  /** A counter counts the entries of its verdict among all of the plan's. */
  lemma {:induction false} CountIsFlat(entries: seq<PlanEntry>, v: Verdict)
    ensures CountVerdict(entries, v) == CountFlat(Flatten(entries), v)
  {
    if entries != [] {
      CountIsFlat(entries[0].subagents, v);
      CountIsFlat(entries[1..], v);
      CountFlatAppend([entries[0]] + Flatten(entries[0].subagents), Flatten(entries[1..]), v);
      CountFlatAppend([entries[0]], Flatten(entries[0].subagents), v);
      assert [entries[0]][1..] == [];
    }
  }

  lemma {:induction false} CountFlatIsIds(explain: Explain, flat: seq<PlanEntry>, v: Verdict)
    requires forall e :: e in flat ==> e.verdict == explain(e.id).verdict
    ensures CountFlat(flat, v) == CountGiven(explain, EntryIds(flat), v)
  {
    if flat != [] {
      CountFlatIsIds(explain, flat[1..], v);
      assert EntryIds(flat)[1..] == EntryIds(flat[1..]);
    }
  }

  /** A counter of the plan is the number of selected sessions given its verdict. */
  lemma {:induction false} CountedInPlan(db: Reader, requested: seq<Id>, without: bool, e: Expansion, explain: Explain, v: Verdict)
    requires Distinct(requested) && "" !in requested && Expand(db, requested, without) == Ok(e) && Faithful(explain)
    ensures CountVerdict(PlanOf(explain, e), v) == |GivenIds(explain, Ids(e.sessions), v)|
  {
    hide PlaceAll, Expand, Flatten, GivenIds;
    PlanReadsBack(db, requested, without, e, explain);
    SelectionIsDistinct(db, requested, without, e);
    CountIsFlat(PlanOf(explain, e), v);
    CountFlatIsIds(explain, Flatten(PlanOf(explain, e)), v);
    CountGivenIsSize(explain, Ids(e.sessions), v);
  }

  function PlanOf(explain: Explain, e: Expansion): seq<PlanEntry> {
    PlaceAll(explain, e.sessions, e.omitted).entries
  }

  // ----- every counter against the run -----

  /** One run as its plan is made: distinct results, of known selected sessions. */
  ghost predicate RunOf(ids: seq<Id>, inputs: Inputs, results: seq<SessionResult>) {
    && Distinct(ResultIds(results))
    && forall r :: r in results ==> r.id in ids && r.id in inputs.known
  }

  /** The selected sessions the run reports nothing for that `given` holds of. */
  function Unreported(ids: seq<Id>, results: seq<SessionResult>, given: Id -> bool): set<Id> {
    set id | id in ids && id !in ResultIds(results) && given(id)
  }

  lemma ResultKeys(results: seq<SessionResult>, id: Id)
    requires Distinct(ResultIds(results))
    ensures id in ResultMap(results) <==> id in ResultIds(results)
  {
    ResultMapIs(results);
    if id in ResultIds(results) {
      var i :| 0 <= i < |results| && ResultIds(results)[i] == id;
      assert results[i] in results;
    }
    if r :| r in results && r.id == id {
      var i :| 0 <= i < |results| && results[i] == r;
      assert ResultIds(results)[i] == id;
    }
  }

  /** A verdict given to the results `keep` accepts and to the unreported sessions
      `given` holds of counts just these. */
  lemma {:induction false} Splits(ids: seq<Id>, inputs: Inputs, rows: seq<Row>, results: seq<SessionResult>, v: Verdict,
                                  keep: SessionResult -> bool, given: Id -> bool)
    requires RunOf(ids, inputs, results)
    requires forall id :: id in ids ==>
               (Explainer(inputs, rows, results)(id).verdict == v <==>
                  if id in ResultMap(results) then keep(ResultMap(results)[id]) else given(id))
    ensures |GivenIds(Explainer(inputs, rows, results), ids, v)|
         == CountWhere(results, keep) + |Unreported(ids, results, given)|
  {
    hide Explainer, ResultMap, CountWhere, ResultIds;
    var explain, byId := Explainer(inputs, rows, results), ResultMap(results);
    var all, tried, rest := GivenIds(explain, ids, v), IdsWhere(results, keep), Unreported(ids, results, given);
    ResultMapIs(results);
    CountWhereIsSize(results, keep);
    forall id
      ensures id in tried <==> id in byId && keep(byId[id])
    {
      if id in tried {
        var r :| r in results && keep(r) && r.id == id;
        assert byId[id] == r;
      }
    }
    forall id
      ensures id in all <==> id in tried || id in rest
      ensures !(id in tried && id in rest)
    {
      ResultKeys(results, id);
    }
    assert all == tried + rest && tried !! rest;
  }

  /** The results a verdict stands for. */
  predicate ByResult(v: Verdict, r: SessionResult) {
    match v
    case WillPublish => r.status == StatusNew
    case WillUpdate => r.status == StatusUpdated
    case Unchanged => r.status == StatusSkipped
    case Held => r.status == StatusHeld
    case Failed => r.status == StatusError && !r.failure.UnreadyFailure?
    case NotReady => r.status == StatusError && r.failure.UnreadyFailure?
    case Excluded => false
    case UnknownSession => false
  }

  /** The sessions without a result it stands for: a rule holds it, nothing keeps it
      from being sent, it has no row, something drops it, it is not stored. */
  predicate ByRow(inputs: Inputs, rows: map<Id, Row>, v: Verdict, id: Id) {
    match v
    case WillPublish => false
    case WillUpdate => false
    case Unchanged => false
    case Held =>
      && id in inputs.known && id in rows
      && HarnessAdmitted(rows[id], inputs.run, inputs.config) && HeldByRule(id, inputs)
    case Failed =>
      && id in inputs.known && id in rows
      && HarnessAdmitted(rows[id], inputs.run, inputs.config)
      && !PinnedOut(id, inputs) && !Unselected(id, inputs) && !OutOfScope(rows[id], inputs)
    case NotReady => id in inputs.known && id !in rows
    case Excluded =>
      && id in inputs.known && id in rows
      && (|| !HarnessAdmitted(rows[id], inputs.run, inputs.config)
          || (PinnedOut(id, inputs) && !HeldByRule(id, inputs))
          || (!PinnedOut(id, inputs) && (Unselected(id, inputs) || OutOfScope(rows[id], inputs))))
    case UnknownSession => id !in inputs.known
  }

  lemma GivenTo(id: Id, inputs: Inputs, rows: map<Id, Row>, results: map<Id, SessionResult>, v: Verdict)
    requires id in results ==> id in inputs.known
    ensures ExplainOne(id, inputs, rows, results).verdict == v <==>
            if id in results then ByResult(v, results[id]) else ByRow(inputs, rows, v, id)
  {
    hide ExplainOne, HarnessAdmitted, PinnedOut, HeldByRule, Unselected, OutOfScope;
    VerdictsAre(id, inputs, rows, results);
  }

  /** Every counter of a plan is the number of results its verdict stands for, plus
      the number of selected sessions without a result that it stands for. */
  lemma {:induction false} PlanCountsAre(db: Reader, requested: seq<Id>, without: bool, e: Expansion,
                                         inputs: Inputs, rows: seq<Row>, results: seq<SessionResult>, v: Verdict)
    requires Distinct(requested) && "" !in requested && Expand(db, requested, without) == Ok(e)
    requires RunOf(Ids(e.sessions), inputs, results)
    ensures CountVerdict(PlanOf(Explainer(inputs, rows, results), e), v)
         == CountWhere(results, (r: SessionResult) => ByResult(v, r))
            + |Unreported(Ids(e.sessions), results, (id: Id) => ByRow(inputs, RowMap(rows), v, id))|
  {
    var explain := Explainer(inputs, rows, results);
    assert Faithful(explain) by {
      ExplainerIsFaithful(inputs, rows, results);
    }
    CountedInPlan(db, requested, without, e, explain, v);
    ResultMapIs(results);
    forall id | id in Ids(e.sessions)
      ensures explain(id).verdict == v <==>
              if id in ResultMap(results) then ByResult(v, ResultMap(results)[id]) else ByRow(inputs, RowMap(rows), v, id)
    {
      GivenTo(id, inputs, RowMap(rows), ResultMap(results), v);
    }
    hide *;
    Splits(Ids(e.sessions), inputs, rows, results, v,
           (r: SessionResult) => ByResult(v, r), (id: Id) => ByRow(inputs, RowMap(rows), v, id));
  }

  /** What was sent, updated and skipped is counted by the results alone. */
  lemma {:induction false} SentCountsAre(db: Reader, requested: seq<Id>, without: bool, e: Expansion,
                                         inputs: Inputs, rows: seq<Row>, results: seq<SessionResult>)
    requires Distinct(requested) && "" !in requested && Expand(db, requested, without) == Ok(e)
    requires RunOf(Ids(e.sessions), inputs, results)
    ensures var plan := PlanOf(Explainer(inputs, rows, results), e);
      && CountVerdict(plan, WillPublish) == CountWhere(results, (r: SessionResult) => ByResult(WillPublish, r))
      && CountVerdict(plan, WillUpdate) == CountWhere(results, (r: SessionResult) => ByResult(WillUpdate, r))
      && CountVerdict(plan, Unchanged) == CountWhere(results, (r: SessionResult) => ByResult(Unchanged, r))
  {
    hide Expand, CountVerdict, CountWhere, PlanOf, RunOf;
    forall v | v in {WillPublish, WillUpdate, Unchanged}
      ensures CountVerdict(PlanOf(Explainer(inputs, rows, results), e), v)
           == CountWhere(results, (r: SessionResult) => ByResult(v, r))
    {
      PlanCountsAre(db, requested, without, e, inputs, rows, results, v);
      assert Unreported(Ids(e.sessions), results, (id: Id) => ByRow(inputs, RowMap(rows), v, id)) == {};
    }
  }

  /** Selected sessions the run reports nothing for although nothing drops them. */
  function StoppedIds(inputs: Inputs, rows: seq<Row>, results: seq<SessionResult>, ids: seq<Id>): set<Id> {
    set id | id in ids && id !in ResultMap(results) && ExplainOne(id, inputs, RowMap(rows), ResultMap(results)).detail == RunStopped
  }

  lemma {:induction false} FailedCountIs(results: seq<SessionResult>)
    ensures FailedCount(results) == CountWhere(results, (r: SessionResult) => ByResult(Failed, r))
  {
    if results != [] {
      FailedCountIs(results[..|results| - 1]);
    }
  }

  lemma StoppedAre(ids: seq<Id>, inputs: Inputs, rows: seq<Row>, results: seq<SessionResult>)
    requires RunOf(ids, inputs, results)
    ensures StoppedIds(inputs, rows, results, ids)
         == Unreported(ids, results, (id: Id) => ByRow(inputs, RowMap(rows), Failed, id))
  {
    hide ExplainOne, RowMap, ResultMap, HarnessAdmitted, ResultIds;
    forall id
      ensures id in StoppedIds(inputs, rows, results, ids)
         <==> id in Unreported(ids, results, (id: Id) => ByRow(inputs, RowMap(rows), Failed, id))
    {
      ResultKeys(results, id);
      if id !in ResultMap(results) {
        DetailsAre(id, inputs, RowMap(rows), ResultMap(results));
        GivenTo(id, inputs, RowMap(rows), ResultMap(results), Failed);
      }
    }
  }

  /** The errors of the plan are the failures the run counts by itself, plus the
      selected sessions it stopped before. */
  lemma {:induction false} PlanErrorsAgree(db: Reader, requested: seq<Id>, without: bool, e: Expansion,
                                           inputs: Inputs, rows: seq<Row>, results: seq<SessionResult>)
    requires Distinct(requested) && "" !in requested && Expand(db, requested, without) == Ok(e)
    requires RunOf(Ids(e.sessions), inputs, results)
    ensures CountVerdict(PlanOf(Explainer(inputs, rows, results), e), Failed)
         == FailedCount(results) + |StoppedIds(inputs, rows, results, Ids(e.sessions))|
  {
    hide *;
    PlanCountsAre(db, requested, without, e, inputs, rows, results, Failed);
    FailedCountIs(results);
    StoppedAre(Ids(e.sessions), inputs, rows, results);
  }
}
