/** The per-session plan a push with an explicit selection reports, and the
    counts it prints (cmd/peasant/cmd_push_selection.go, cmd/peasant/cmd_push.go). */
module PushPlan {
  import opened Wrappers
  import opened SubagentClosure
  import opened PushNarrowing

  datatype Verdict =
    | WillPublish | WillUpdate | Unchanged | Held | Excluded | NotReady | UnknownSession | Failed

  datatype Reason =
    | NoReason | NotInStore | OutsideRepository | HarnessMismatch | BranchSelectionExcluded | NeedsIngest
    | LatestAttemptKept | UnchangedContent | TranscriptIsPublic | NoMetrics | NoModelReply

  /** Which explanation accompanies a verdict; the wording is not modelled. */
  datatype Detail =
    | NoDetail | Because(text: string) | NewerAttemptKept | NeverReachedModel | Reindex | HarvestFirst
    | NoRuleBinds | ParentNotSent(root: Id) | RunStopped

  datatype SelectedBy = ByRequest | ByParent

  datatype PlanEntry = PlanEntry(
    id: Id, verdict: Verdict, reason: Reason, detail: Detail, inheritedFrom: Option<Id>,
    selectedBy: SelectedBy, omitted: nat, subagents: seq<PlanEntry>)

  datatype Unready = LatestAttempt | NoReply | OtherUnready

  datatype Failure = NoFailure | UnreadyFailure(why: Unready) | OtherFailure(text: string)

  datatype Status = StatusNew | StatusUpdated | StatusSkipped | StatusError | StatusHeld

  datatype SessionResult = SessionResult(id: Id, status: Status, failure: Failure, heldReason: string)

  /** What the run already decided, besides the store's rows. */
  datatype Inputs = Inputs(
    known: set<Id>,
    run: RunConfig,
    config: Option<PushConfig>,
    held: map<Id, string>,
    publicHeld: set<Id>)

  // ----- one session -----

  function Bare(id: Id, verdict: Verdict, reason: Reason, detail: Detail): PlanEntry {
    PlanEntry(id, verdict, reason, detail, None, ByRequest, 0, [])
  }

  function ExplainConsidered(id: Id, inputs: Inputs, r: SessionResult): PlanEntry {
    var entry := match r.status
      case StatusNew => Bare(id, WillPublish, NoReason, NoDetail)
      case StatusUpdated => Bare(id, WillUpdate, NoReason, NoDetail)
      case StatusSkipped => Bare(id, Unchanged, UnchangedContent, NoDetail)
      case StatusHeld =>
        Bare(id, Held, if id in inputs.publicHeld then TranscriptIsPublic else NoReason, Because(r.heldReason))
      case StatusError =>
        match r.failure {
          case UnreadyFailure(LatestAttempt) => Bare(id, NotReady, LatestAttemptKept, NewerAttemptKept)
          case UnreadyFailure(NoReply) => Bare(id, NotReady, NoModelReply, NeverReachedModel)
          case UnreadyFailure(OtherUnready) => Bare(id, NotReady, NeedsIngest, Reindex)
          case OtherFailure(text) => Bare(id, Failed, NoReason, Because(text))
          case NoFailure => Bare(id, Failed, NoReason, NoDetail)
        };
    entry.(inheritedFrom := InheritedFrom(inputs.run, id))
  }

  function ExplainNarrowed(id: Id, row: Row, inputs: Inputs): PlanEntry {
    var run := inputs.run;
    var inherited := InheritedFrom(run, id);
    var pinnedOut := run.pinned.Some? && id !in run.pinned.value;
    if !HarnessAdmitted(row, run, inputs.config) then Bare(id, Excluded, HarnessMismatch, NoDetail)
    else if pinnedOut && id in inputs.held && inputs.held[id] != "" then
      Bare(id, Held, NoReason, Because(inputs.held[id]))
    else if pinnedOut then Bare(id, Excluded, NoReason, NoRuleBinds)
    else if run.selection.Some? && DecisionIn(run.selection.value, id) != Yes then
      Bare(id, Excluded, BranchSelectionExcluded,
           if inherited.Some? then ParentNotSent(inherited.value) else NoDetail)
    else if run.repository.Some? && row.project !in run.repository.value then
      Bare(id, Excluded, OutsideRepository, NoDetail)
    else Bare(id, Failed, NoReason, RunStopped)
  }

  function ExplainOne(id: Id, inputs: Inputs, rows: map<Id, Row>, results: map<Id, SessionResult>): PlanEntry {
    if id !in inputs.known then Bare(id, UnknownSession, NotInStore, NoDetail)
    else if id in results then ExplainConsidered(id, inputs, results[id])
    else if id !in rows then Bare(id, NotReady, NoMetrics, HarvestFirst)
    else ExplainNarrowed(id, rows[id], inputs)
  }

  /** The run reports a result for the session. */
  predicate Tried(id: Id, inputs: Inputs, results: map<Id, SessionResult>) {
    id in inputs.known && id in results
  }

  /** It reports none, and the session could be sent. */
  predicate Untried(id: Id, inputs: Inputs, rows: map<Id, Row>, results: map<Id, SessionResult>) {
    id in inputs.known && id !in results && id in rows
  }

  predicate PinnedOut(id: Id, inputs: Inputs) {
    inputs.run.pinned.Some? && id !in inputs.run.pinned.value
  }

  predicate HeldByRule(id: Id, inputs: Inputs) {
    PinnedOut(id, inputs) && id in inputs.held && inputs.held[id] != ""
  }

  predicate Unselected(id: Id, inputs: Inputs) {
    inputs.run.selection.Some? && (id in inputs.run.selection.value ==> inputs.run.selection.value[id] != Yes)
  }

  predicate OutOfScope(row: Row, inputs: Inputs) {
    inputs.run.repository.Some? && row.project !in inputs.run.repository.value
  }

  /** When each verdict is given. */
  lemma VerdictsAre(id: Id, inputs: Inputs, rows: map<Id, Row>, results: map<Id, SessionResult>)
    ensures var v, tried, untried := ExplainOne(id, inputs, rows, results).verdict, Tried(id, inputs, results), Untried(id, inputs, rows, results);
      && (v == UnknownSession <==> id !in inputs.known)
      && (v == WillPublish <==> tried && results[id].status == StatusNew)
      && (v == WillUpdate <==> tried && results[id].status == StatusUpdated)
      && (v == Unchanged <==> tried && results[id].status == StatusSkipped)
      && (v == Held <==>
            || (tried && results[id].status == StatusHeld)
            || (untried && HarnessAdmitted(rows[id], inputs.run, inputs.config) && HeldByRule(id, inputs)))
      && (v == Failed <==>
            || (tried && results[id].status == StatusError && !results[id].failure.UnreadyFailure?)
            || (untried && HarnessAdmitted(rows[id], inputs.run, inputs.config) && !PinnedOut(id, inputs)
                && !Unselected(id, inputs) && !OutOfScope(rows[id], inputs)))
      && (v == NotReady <==>
            || (tried && results[id].status == StatusError && results[id].failure.UnreadyFailure?)
            || (id in inputs.known && id !in results && id !in rows))
      && (v == Excluded <==>
            && untried
            && (|| !HarnessAdmitted(rows[id], inputs.run, inputs.config)
                || (PinnedOut(id, inputs) && !HeldByRule(id, inputs))
                || (!PinnedOut(id, inputs) && (Unselected(id, inputs) || OutOfScope(rows[id], inputs)))))
  {
  }

  /** When each reason is given. */
  lemma ReasonsAre(id: Id, inputs: Inputs, rows: map<Id, Row>, results: map<Id, SessionResult>)
    ensures var why, tried, untried := ExplainOne(id, inputs, rows, results).reason, Tried(id, inputs, results), Untried(id, inputs, rows, results);
      && (why == NotInStore <==> id !in inputs.known)
      && (why == UnchangedContent <==> tried && results[id].status == StatusSkipped)
      && (why == TranscriptIsPublic <==> tried && results[id].status == StatusHeld && id in inputs.publicHeld)
      && (why == LatestAttemptKept <==>
            tried && results[id].status == StatusError && results[id].failure == UnreadyFailure(LatestAttempt))
      && (why == NoModelReply <==> tried && results[id].status == StatusError && results[id].failure == UnreadyFailure(NoReply))
      && (why == NeedsIngest <==> tried && results[id].status == StatusError && results[id].failure == UnreadyFailure(OtherUnready))
      && (why == NoMetrics <==> id in inputs.known && id !in results && id !in rows)
      && (why == HarnessMismatch <==> untried && !HarnessAdmitted(rows[id], inputs.run, inputs.config))
      && (why == BranchSelectionExcluded <==>
            untried && HarnessAdmitted(rows[id], inputs.run, inputs.config) && !PinnedOut(id, inputs) && Unselected(id, inputs))
      && (why == OutsideRepository <==>
            untried && HarnessAdmitted(rows[id], inputs.run, inputs.config) && !PinnedOut(id, inputs)
            && !Unselected(id, inputs) && OutOfScope(rows[id], inputs))
  {
  }

  /** What goes with a verdict, and whose selection a session that was tried follows. */
  lemma DetailsAre(id: Id, inputs: Inputs, rows: map<Id, Row>, results: map<Id, SessionResult>)
    ensures var e, tried := ExplainOne(id, inputs, rows, results), Tried(id, inputs, results);
      && e.id == id && e.subagents == []
      && e.inheritedFrom == (if tried then InheritedFrom(inputs.run, id) else None)
      && (e.verdict == Held ==> e.detail == Because(if tried then results[id].heldReason else inputs.held[id]))
      && (e.verdict == Failed && tried ==>
            e.detail == if results[id].failure.OtherFailure? then Because(results[id].failure.text) else NoDetail)
      && (e.verdict == Failed && !tried <==> e.detail == RunStopped)
      && (e.detail == NoRuleBinds <==> e.verdict == Excluded && e.reason == NoReason)
      && (forall root :: e.detail == ParentNotSent(root) <==>
            e.reason == BranchSelectionExcluded && InheritedFrom(inputs.run, id) == Some(root))
  {
  }

  /** The first stage of the run's narrowing that drops the row. */
  datatype Stage = AtHarness | AtPins | AtSelection | AtRepository | NotDropped

  function FirstDrop(rows: seq<Row>, inputs: Inputs, row: Row): Stage {
    var run := inputs.run;
    var candidates := Chosen(Candidates(rows, run, inputs.config), run);
    if row !in candidates then AtHarness
    else if row !in Pinned(candidates, run) then AtPins
    else if row !in Selected(Pinned(candidates, run), run) then AtSelection
    else if row !in Scoped(Selected(Pinned(candidates, run), run), run) then AtRepository
    else NotDropped
  }

  function StageOf(e: PlanEntry): Stage {
    if e.reason == HarnessMismatch then AtHarness
    else if e.verdict == Held || e.detail == NoRuleBinds then AtPins
    else if e.reason == BranchSelectionExcluded then AtSelection
    else if e.reason == OutsideRepository then AtRepository
    else NotDropped
  }

  /** The run was given `row`'s id and has a stored row for it, but no result. */
  ghost predicate Unconsidered(rows: seq<Row>, inputs: Inputs, row: Row) {
    row in rows && (inputs.run.filter == [] || row.id in inputs.run.filter)
  }

  /** The sessions the run goes on with, out of every pushable one. */
  function Sent(rows: seq<Row>, inputs: Inputs, ready: Readiness): seq<Row> {
    Kept(Candidates(rows, inputs.run, inputs.config), inputs.run, ready)
  }

  /** For a session that inherits nothing, the plan names the first stage of the
      run that drops it, and reports a stopped run only when no stage does. */
  lemma ExplainsFirstDrop(rows: seq<Row>, inputs: Inputs, ready: Readiness, row: Row)
    requires Unconsidered(rows, inputs, row) && InheritedFrom(inputs.run, row.id).None?
    ensures StageOf(ExplainNarrowed(row.id, row, inputs)) == FirstDrop(rows, inputs, row)
    ensures ExplainNarrowed(row.id, row, inputs).detail == RunStopped <==> row in Sent(rows, inputs, ready)
  {
    hide Kept, Narrow, Inheriting, Candidates;
    var run := inputs.run;
    var candidates := Candidates(rows, run, inputs.config);
    HarnessAdmittedIsQuery(rows, run, inputs.config, row);
    assert row in Chosen(candidates, run) <==> row in candidates;
    SelectedMembers(Pinned(Chosen(candidates, run), run), run, row);
    KeptMembers(candidates, run, ready, row);
  }

  /** The guards of the plan that ask about the row itself. */
  predicate PassesGuards(inputs: Inputs, row: Row) {
    && HarnessAdmitted(row, inputs.run, inputs.config)
    && (inputs.run.filter == [] || row.id in inputs.run.filter)
    && (inputs.run.pinned.Some? ==> row.id in inputs.run.pinned.value)
    && (inputs.run.repository.Some? ==> row.project in inputs.run.repository.value)
  }

  /** A subagent that inherits its root's selection, where every other guard lets
      both through and the root is ready. */
  ghost predicate FollowsSentRoot(rows: seq<Row>, inputs: Inputs, ready: Readiness, row: Row) {
    var inherited := InheritedFrom(inputs.run, row.id);
    && inherited.Some?
    && PassesGuards(inputs, row)
    && ready(inherited.value)
    && exists top :: top in rows && top.id == inherited.value && PassesGuards(inputs, top)
  }

  /** Among the sessions that inherit, the run goes on with exactly these. */
  lemma InheritedIsSentIff(rows: seq<Row>, inputs: Inputs, ready: Readiness, row: Row)
    requires row in rows && InheritedFrom(inputs.run, row.id).Some?
    ensures row in Sent(rows, inputs, ready) <==> FollowsSentRoot(rows, inputs, ready, row)
  {
    hide Kept, Narrow, Candidates, HarnessAdmitted;
    var run := inputs.run;
    var root := InheritedFrom(run, row.id).value;
    var candidates := Candidates(rows, run, inputs.config);
    HarnessAdmittedIsQuery(rows, run, inputs.config, row);
    InheritedMembers(candidates, run, ready, row);
    forall top: Row | top.id == root
      ensures top in Kept(candidates, run, ready) <==> top in rows && PassesGuards(inputs, top)
    {
      HarnessAdmittedIsQuery(rows, run, inputs.config, top);
      KeptMembers(candidates, run, ready, top);
    }
  }

  /** The plan's "the run stopped" and the run's own narrowing agree exactly on
      the other sessions. One of these is reported as having an unsent parent. */
  lemma {:induction false} ExplanationAgreesIff(rows: seq<Row>, inputs: Inputs, ready: Readiness, row: Row)
    requires Unconsidered(rows, inputs, row)
    ensures (ExplainNarrowed(row.id, row, inputs).detail == RunStopped <==> row in Sent(rows, inputs, ready))
       <==> !FollowsSentRoot(rows, inputs, ready, row)
    ensures FollowsSentRoot(rows, inputs, ready, row) ==>
              ExplainNarrowed(row.id, row, inputs).detail == ParentNotSent(InheritedFrom(inputs.run, row.id).value)
  {
    hide Sent;
    if InheritedFrom(inputs.run, row.id).None? {
      ExplainsFirstDrop(rows, inputs, ready, row);
    } else {
      InheritedIsSentIff(rows, inputs, ready, row);
    }
  }

  /** Such a session exists: a subagent on an unselected branch, under a kept root. */
  lemma ExplanationCanMislead()
    ensures var rows := [Row("p", "h", "x"), Row("s", "h", "x")];
      var run := RunConfig("", false, ["p", "s"], None, Some(map["p" := Yes, "s" := No]), map["s" := "p"], None);
      var inputs := Inputs({"p", "s"}, run, None, map[], {});
      && Row("s", "h", "x") in Sent(rows, inputs, id => true)
      && ExplainNarrowed("s", Row("s", "h", "x"), inputs).detail == ParentNotSent("p")
  {
    var p, s := Row("p", "h", "x"), Row("s", "h", "x");
    var rows := [p, s];
    var run := RunConfig("", false, ["p", "s"], None, Some(map["p" := Yes, "s" := No]), map["s" := "p"], None);
    assert p in rows && s in rows;
    assert InheritedFrom(run, "s") == Some("p") && InheritedFrom(run, "p") == None;
    InheritedMembers(rows, run, id => true, s);
    KeptMembers(rows, run, id => true, p);
    assert p in Kept(rows, run, id => true);
  }

  // ----- the whole plan -----

  function RowMap(rows: seq<Row>): map<Id, Row> {
    if rows == [] then map[]
    else RowMap(rows[..|rows| - 1])[rows[|rows| - 1].id := rows[|rows| - 1]]
  }

  function ResultMap(results: seq<SessionResult>): map<Id, SessionResult> {
    if results == [] then map[]
    else ResultMap(results[..|results| - 1])[results[|results| - 1].id := results[|results| - 1]]
  }

  lemma {:induction false} RowMapIs(rows: seq<Row>, id: Id)
    ensures id in RowMap(rows) <==> exists r :: r in rows && r.id == id
    ensures id in RowMap(rows) ==> RowMap(rows)[id] in rows && RowMap(rows)[id].id == id
  {
    if rows != [] {
      var init, last := rows[..|rows| - 1], rows[|rows| - 1];
      assert rows == init + [last];
      RowMapIs(init, id);
    }
  }

  type Explain = Id -> PlanEntry

  function Explainer(inputs: Inputs, rows: seq<Row>, results: seq<SessionResult>): Explain {
    id => ExplainOne(id, inputs, RowMap(rows), ResultMap(results))
  }

  function RequestEntry(explain: Explain, id: Id, omitted: map<Id, nat>): PlanEntry {
    explain(id).(selectedBy := ByRequest, omitted := Count(omitted, id), subagents := [])
  }

  function SubagentEntry(explain: Explain, id: Id): PlanEntry {
    explain(id).(selectedBy := ByParent)
  }

  function Position(index: map<Id, nat>, id: Id): nat {
    if id in index then index[id] else 0
  }

  /** The plan and the positions of its requested sessions, session by session. */
  datatype Draft = Draft(entries: seq<PlanEntry>, index: map<Id, nat>)

  function Place(d: Draft, explain: Explain, s: Session, omitted: map<Id, nat>): Draft {
    if s.parent == "" then
      Draft(d.entries + [RequestEntry(explain, s.id, omitted)], d.index[s.id := |d.entries|])
    else
      var at := Position(d.index, s.parent);
      if at < |d.entries| then
        var entry := d.entries[at];
        d.(entries := d.entries[at := entry.(subagents := entry.subagents + [SubagentEntry(explain, s.id)])])
      else d
  }

  function PlaceAll(explain: Explain, sessions: seq<Session>, omitted: map<Id, nat>): Draft {
    if sessions == [] then Draft([], map[])
    else Place(PlaceAll(explain, sessions[..|sessions| - 1], omitted), explain, sessions[|sessions| - 1], omitted)
  }

  /** The first selected session is a request: indexing its entry cannot fail. */
  predicate StartsWithRequest(sessions: seq<Session>) {
    sessions != [] ==> sessions[0].parent == ""
  }

  method ExplainRequested(inputs: Inputs, selection: Expansion, pushable: seq<Row>, result: seq<SessionResult>)
      returns (entries: seq<PlanEntry>)
    requires StartsWithRequest(selection.sessions)
    ensures entries == PlaceAll(Explainer(inputs, pushable, result), selection.sessions, selection.omitted).entries
  {
    var rows: map<Id, Row> := map[];
    for i := 0 to |pushable|
      invariant rows == RowMap(pushable[..i])
    {
      assert pushable[..i + 1][..i] == pushable[..i];
      rows := rows[pushable[i].id := pushable[i]];
    }
    assert pushable[..|pushable|] == pushable;
    var results: map<Id, SessionResult> := map[];
    for i := 0 to |result|
      invariant results == ResultMap(result[..i])
    {
      assert result[..i + 1][..i] == result[..i];
      results := results[result[i].id := result[i]];
    }
    assert result[..|result|] == result;
    ghost var explain := Explainer(inputs, pushable, result);
    var sessions := selection.sessions;
    var index: map<Id, nat> := map[];
    entries := [];
    for i := 0 to |sessions|
      invariant Draft(entries, index) == PlaceAll(explain, sessions[..i], selection.omitted)
      invariant i > 0 ==> |entries| > 0
      invariant forall id :: id in index ==> index[id] < |entries|
    {
      var s := sessions[i];
      assert sessions[..i + 1][..i] == sessions[..i];
      var entry := ExplainOne(s.id, inputs, rows, results);
      assert entry == explain(s.id);
      if s.parent == "" {
        entry := entry.(selectedBy := ByRequest, omitted := Count(selection.omitted, s.id), subagents := []);
        index := index[s.id := |entries|];
        entries := entries + [entry];
        continue;
      }
      entry := entry.(selectedBy := ByParent);
      var parent := if s.parent in index then index[s.parent] else 0;
      entries := entries[parent := entries[parent].(subagents := entries[parent].subagents + [entry])];
    }
    assert sessions[..|sessions|] == sessions;
  }
}
