/** What the plan of an expanded selection promises, and what its counts add up to. */
module PlanTheorems {
  import opened Wrappers
  import opened SubagentClosure
  import opened SubagentTheorems
  import opened PushSelection
  import opened PushNarrowing
  import opened PushPlan

  // ----- the shape of the plan -----

  function SubagentEntries(explain: Explain, tree: seq<Id>): (s: seq<PlanEntry>)
    ensures |s| == |tree|
    ensures forall i :: 0 <= i < |s| ==> s[i] == SubagentEntry(explain, tree[i])
  {
    seq(|tree|, i requires 0 <= i < |tree| => SubagentEntry(explain, tree[i]))
  }

  /** The entry of a request with its own subagents under it. */
  function BlockEntry(explain: Explain, b: Block, without: bool, omitted: map<Id, nat>): PlanEntry {
    RequestEntry(explain, b.root, omitted).(subagents := if without then [] else SubagentEntries(explain, b.tree))
  }

  function BlockEntries(explain: Explain, blocks: seq<Block>, without: bool, omitted: map<Id, nat>): (s: seq<PlanEntry>)
    ensures |s| == |blocks|
    ensures forall i :: 0 <= i < |s| ==> s[i] == BlockEntry(explain, blocks[i], without, omitted)
  {
    seq(|blocks|, i requires 0 <= i < |blocks| => BlockEntry(explain, blocks[i], without, omitted))
  }

  lemma PlaceSnoc(explain: Explain, sessions: seq<Session>, s: Session, omitted: map<Id, nat>)
    ensures PlaceAll(explain, sessions + [s], omitted) == Place(PlaceAll(explain, sessions, omitted), explain, s, omitted)
  {
    assert (sessions + [s])[..|sessions|] == sessions;
  }

  lemma PlaceUnder(explain: Explain, entries: seq<PlanEntry>, index: map<Id, nat>, root: Id, tree: seq<Id>, id: Id, omitted: map<Id, nat>)
    requires root != "" && root in index && index[root] == |entries|
    ensures Place(Draft(entries + [BlockEntry(explain, Block(root, tree), false, omitted)], index), explain,
                  Session(id, root), omitted)
         == Draft(entries + [BlockEntry(explain, Block(root, tree + [id]), false, omitted)], index)
  {
    assert SubagentEntries(explain, tree + [id]) == SubagentEntries(explain, tree) + [SubagentEntry(explain, id)];
  }

  /** The sessions listed after a request all land under that request's entry. */
  lemma {:induction false} PlaceTree(explain: Explain, sessions: seq<Session>, root: Id, tree: seq<Id>, omitted: map<Id, nat>)
    requires root != ""
    ensures PlaceAll(explain, sessions + [Session(root, "")] + Under(root, tree), omitted)
         == (var before := PlaceAll(explain, sessions, omitted);
             Draft(before.entries + [BlockEntry(explain, Block(root, tree), false, omitted)],
                   before.index[root := |before.entries|]))
  {
    var before := PlaceAll(explain, sessions, omitted);
    var listed := sessions + [Session(root, "")];
    if tree == [] {
      PlaceSnoc(explain, sessions, Session(root, ""), omitted);
      assert listed + Under(root, tree) == listed;
      assert SubagentEntries(explain, tree) == [];
    } else {
      var init, last := tree[..|tree| - 1], tree[|tree| - 1];
      assert init + [last] == tree;
      PlaceTree(explain, sessions, root, init, omitted);
      var rest := listed + Under(root, init);
      assert listed + Under(root, tree) == rest + [Session(last, root)];
      PlaceSnoc(explain, rest, Session(last, root), omitted);
      PlaceUnder(explain, before.entries, before.index[root := |before.entries|], root, init, last, omitted);
    }
  }

  /** One more request with what is listed under it. */
  lemma PlaceBlock(explain: Explain, sessions: seq<Session>, b: Block, without: bool, omitted: map<Id, nat>)
    requires b.root != ""
    ensures PlaceAll(explain, sessions + SessionsOf([b], without), omitted).entries
         == PlaceAll(explain, sessions, omitted).entries + [BlockEntry(explain, b, without, omitted)]
  {
    assert [b][1..] == [];
    if without {
      assert sessions + SessionsOf([b], without) == sessions + [Session(b.root, "")];
      PlaceSnoc(explain, sessions, Session(b.root, ""), omitted);
    } else {
      assert sessions + SessionsOf([b], without) == sessions + [Session(b.root, "")] + Under(b.root, b.tree);
      hide PlaceAll, SessionsOf;
      PlaceTree(explain, sessions, b.root, b.tree, omitted);
    }
  }

  lemma BlocksSnoc(explain: Explain, init: seq<Block>, b: Block, without: bool, omitted: map<Id, nat>)
    ensures BlockEntries(explain, init + [b], without, omitted)
         == BlockEntries(explain, init, without, omitted) + [BlockEntry(explain, b, without, omitted)]
    ensures Roots(init + [b]) == Roots(init) + [b.root]
  {
    hide BlockEntry;
  }

  lemma NoBlocks(explain: Explain, without: bool, omitted: map<Id, nat>)
    ensures PlaceAll(explain, SessionsOf([], without), omitted).entries == []
    ensures BlockEntries(explain, [], without, omitted) == []
  {
  }

  lemma {:induction false} PlaceBlocks(explain: Explain, blocks: seq<Block>, without: bool, omitted: map<Id, nat>)
    requires "" !in Roots(blocks)
    ensures PlaceAll(explain, SessionsOf(blocks, without), omitted).entries
         == BlockEntries(explain, blocks, without, omitted)
  {
    hide *;
    if blocks == [] {
      NoBlocks(explain, without, omitted);
    } else {
      var init, b := blocks[..|blocks| - 1], blocks[|blocks| - 1];
      assert blocks == init + [b];
      BlocksSnoc(explain, init, b, without, omitted);
      assert b.root in Roots(init) + [b.root];
      PlaceBlocks(explain, init, without, omitted);
      SessionsOfAppend(init, b, without);
      PlaceBlock(explain, SessionsOf(init, without), b, without, omitted);
    }
  }

  // ----- reading the plan back -----

  function Flatten(entries: seq<PlanEntry>): seq<PlanEntry> {
    if entries == [] then []
    else [entries[0]] + Flatten(entries[0].subagents) + Flatten(entries[1..])
  }

  function EntryIds(entries: seq<PlanEntry>): (ids: seq<Id>)
    ensures |ids| == |entries|
    ensures forall i :: 0 <= i < |ids| ==> ids[i] == entries[i].id
  {
    seq(|entries|, i requires 0 <= i < |entries| => entries[i].id)
  }

  /** An explainer answers about the session it was asked about, as a leaf. */
  ghost predicate Faithful(explain: Explain) {
    forall id :: explain(id).id == id && explain(id).subagents == []
  }

  lemma ExplainerIsFaithful(inputs: Inputs, rows: seq<Row>, results: seq<SessionResult>)
    ensures Faithful(Explainer(inputs, rows, results))
  {
    hide RowMap, ResultMap;
  }

  lemma {:induction false} FlattenLeaves(entries: seq<PlanEntry>)
    requires forall e :: e in entries ==> e.subagents == []
    ensures Flatten(entries) == entries
  {
    if entries != [] {
      FlattenLeaves(entries[1..]);
    }
  }

  lemma FlattenHead(explain: Explain, blocks: seq<Block>, without: bool, omitted: map<Id, nat>)
    requires Faithful(explain) && blocks != []
    ensures var entry := BlockEntry(explain, blocks[0], without, omitted);
      Flatten(BlockEntries(explain, blocks, without, omitted))
      == [entry] + entry.subagents + Flatten(BlockEntries(explain, blocks[1..], without, omitted))
  {
    var all := BlockEntries(explain, blocks, without, omitted);
    assert all[1..] == BlockEntries(explain, blocks[1..], without, omitted);
    FlattenLeaves(all[0].subagents);
  }

  lemma EntryIdsAppend(a: seq<PlanEntry>, b: seq<PlanEntry>)
    ensures EntryIds(a + b) == EntryIds(a) + EntryIds(b)
  {
  }

  /** The plan lists the selected sessions in the order of the selection. */
  lemma {:induction false} FlattenBlocks(explain: Explain, blocks: seq<Block>, without: bool, omitted: map<Id, nat>)
    requires Faithful(explain)
    ensures EntryIds(Flatten(BlockEntries(explain, blocks, without, omitted))) == Ids(SessionsOf(blocks, without))
  {
    if blocks != [] {
      var b, rest := blocks[0], blocks[1..];
      var entry := BlockEntry(explain, b, without, omitted);
      FlattenBlocks(explain, rest, without, omitted);
      FlattenHead(explain, blocks, without, omitted);
      var own := [Session(b.root, "")] + (if without then [] else Under(b.root, b.tree));
      IdsAppend(own, SessionsOf(rest, without));
      assert EntryIds([entry] + entry.subagents) == Ids(own);
      EntryIdsAppend([entry] + entry.subagents, Flatten(BlockEntries(explain, rest, without, omitted)));
    }
  }

  lemma {:induction false} FlattenVerdicts(explain: Explain, blocks: seq<Block>, without: bool, omitted: map<Id, nat>)
    requires Faithful(explain)
    ensures forall e :: e in Flatten(BlockEntries(explain, blocks, without, omitted)) ==>
              e.verdict == explain(e.id).verdict
  {
    if blocks != [] {
      FlattenVerdicts(explain, blocks[1..], without, omitted);
      FlattenHead(explain, blocks, without, omitted);
    }
  }

  lemma BlocksStart(blocks: seq<Block>, without: bool)
    ensures StartsWithRequest(SessionsOf(blocks, without))
  {
  }

  /** A request and its subagents say what the explanation says, how each was
      selected, and nothing else. */
  ghost predicate SaysAsExplained(explain: Explain, entry: PlanEntry) {
    var said := explain(entry.id);
    && entry == PlanEntry(entry.id, said.verdict, said.reason, said.detail, said.inheritedFrom, ByRequest,
                          entry.omitted, entry.subagents)
    && forall s :: s in entry.subagents ==>
         var said := explain(s.id);
         s == PlanEntry(s.id, said.verdict, said.reason, said.detail, said.inheritedFrom, ByParent, said.omitted, [])
  }

  lemma BlockEntryIs(explain: Explain, b: Block, without: bool, omitted: map<Id, nat>)
    requires Faithful(explain)
    ensures var entry := BlockEntry(explain, b, without, omitted);
      && entry.id == b.root && entry.omitted == Count(omitted, b.root)
      && EntryIds(entry.subagents) == (if without then [] else b.tree)
      && SaysAsExplained(explain, entry)
  {
  }

  /** The plan of an expanded selection reads back as that selection: one entry
      per request, in request order, each selected session exactly where the
      selection lists it, and under each request exactly what it owns. */
  lemma PlanReadsBack(db: Reader, requested: seq<Id>, without: bool, e: Expansion, explain: Explain)
    requires "" !in requested && Expand(db, requested, without) == Ok(e) && Faithful(explain)
    ensures StartsWithRequest(e.sessions)
    ensures var entries := PlaceAll(explain, e.sessions, e.omitted).entries;
      && EntryIds(entries) == requested
      && EntryIds(Flatten(entries)) == Ids(e.sessions)
      && (forall f :: f in Flatten(entries) ==> f.verdict == explain(f.id).verdict)
      && (forall k, v :: 0 <= k < |requested| ==>
            (v in EntryIds(entries[k].subagents) <==> !without && Owns(db, requested, k, v)))
      && (forall k :: 0 <= k < |requested| ==> entries[k].omitted == Count(e.omitted, requested[k]))
      && (forall k :: 0 <= k < |requested| ==> SaysAsExplained(explain, entries[k]))
  {
    hide Forest, Flatten, SaysAsExplained, SessionsOf, OmittedOf, PlaceAll, BlockEntry, Owns, NearestFirst, Within;
    WalkExact(db, requested);
    var blocks := Forest(db, SetOf(requested), requested, {}).value;
    assert Roots(blocks) == requested;
    BlocksStart(blocks, without);
    PlaceBlocks(explain, blocks, without, e.omitted);
    FlattenBlocks(explain, blocks, without, e.omitted);
    FlattenVerdicts(explain, blocks, without, e.omitted);
    var entries := BlockEntries(explain, blocks, without, e.omitted);
    forall k, v | 0 <= k < |requested|
      ensures v in EntryIds(entries[k].subagents) <==> !without && Owns(db, requested, k, v)
    {
      assert TreeOf(db, requested, k, blocks[k].tree);
      BlockEntryIs(explain, blocks[k], without, e.omitted);
    }
    forall k | 0 <= k < |requested|
      ensures entries[k].id == requested[k] && entries[k].omitted == Count(e.omitted, requested[k])
      ensures SaysAsExplained(explain, entries[k])
    {
      BlockEntryIs(explain, blocks[k], without, e.omitted);
    }
  }

  // ----- the counts -----

  function CountVerdict(entries: seq<PlanEntry>, v: Verdict): nat {
    if entries == [] then 0
    else (if entries[0].verdict == v then 1 else 0)
         + CountVerdict(entries[0].subagents, v) + CountVerdict(entries[1..], v)
  }

  lemma {:induction false} CountVerdictSnoc(entries: seq<PlanEntry>, e: PlanEntry, v: Verdict)
    ensures CountVerdict(entries + [e], v)
         == CountVerdict(entries, v) + (if e.verdict == v then 1 else 0) + CountVerdict(e.subagents, v)
  {
    if entries == [] {
      assert entries + [e] == [e] && [e][1..] == [];
    } else {
      assert (entries + [e])[1..] == entries[1..] + [e];
      CountVerdictSnoc(entries[1..], e, v);
    }
  }

  lemma CountStep(entries: seq<PlanEntry>, i: nat)
    requires i < |entries|
    ensures forall v :: CountVerdict(entries[..i + 1], v) == CountVerdict(entries[..i], v) + CountVerdict([entries[i]], v)
  {
    assert entries[..i + 1] == entries[..i] + [entries[i]] && [] + [entries[i]] == [entries[i]];
    forall v
      ensures CountVerdict(entries[..i + 1], v) == CountVerdict(entries[..i], v) + CountVerdict([entries[i]], v)
    {
      CountVerdictSnoc(entries[..i], entries[i], v);
      CountVerdictSnoc([], entries[i], v);
    }
  }

  /** The running totals of a summary. */
  class PushCounts {
    var new_: nat
    var updated: nat
    var skipped: nat
    var errors: nat
    var held: nat
    var notReady: nat
    var excluded: nat
    var unknownSession: nat

    constructor ()
      ensures forall v :: Of(v) == 0
    {
      new_, updated, skipped, errors, held, notReady, excluded, unknownSession := 0, 0, 0, 0, 0, 0, 0, 0;
    }

    /** The counter of a verdict. */
    function Of(v: Verdict): nat
      reads this
    {
      match v
      case WillPublish => new_
      case WillUpdate => updated
      case Unchanged => skipped
      case Held => held
      case Failed => errors
      case NotReady => notReady
      case Excluded => excluded
      case UnknownSession => unknownSession
    }

    /** Counts an entry and everything under it. */
    method Add(entry: PlanEntry)
      modifies this
      ensures forall v :: Of(v) == old(Of(v)) + CountVerdict([entry], v)
      decreases entry
    {
      match entry.verdict {
        case WillPublish => new_ := new_ + 1;
        case WillUpdate => updated := updated + 1;
        case Unchanged => skipped := skipped + 1;
        case Held => held := held + 1;
        case Failed => errors := errors + 1;
        case NotReady => notReady := notReady + 1;
        case Excluded => excluded := excluded + 1;
        case UnknownSession => unknownSession := unknownSession + 1;
      }
      var subs := entry.subagents;
      for i := 0 to |subs|
        invariant forall v :: Of(v) == old(Of(v)) + (if entry.verdict == v then 1 else 0) + CountVerdict(subs[..i], v)
      {
        Add(subs[i]);
        CountStep(subs, i);
      }
      assert subs[..|subs|] == subs && [entry][1..] == [];
    }
  }

  method CountsOfPlan(entries: seq<PlanEntry>) returns (c: PushCounts)
    ensures fresh(c)
    ensures c.new_ == CountVerdict(entries, WillPublish) && c.updated == CountVerdict(entries, WillUpdate)
    ensures c.skipped == CountVerdict(entries, Unchanged) && c.held == CountVerdict(entries, Held)
    ensures c.errors == CountVerdict(entries, Failed) && c.notReady == CountVerdict(entries, NotReady)
    ensures c.excluded == CountVerdict(entries, Excluded)
    ensures c.unknownSession == CountVerdict(entries, UnknownSession)
  {
    c := new PushCounts();
    for i := 0 to |entries|
      invariant fresh(c)
      invariant forall v :: c.Of(v) == CountVerdict(entries[..i], v)
    {
      c.Add(entries[i]);
      CountStep(entries, i);
    }
    assert entries[..|entries|] == entries;
    assert c.new_ == c.Of(WillPublish) && c.updated == c.Of(WillUpdate) && c.skipped == c.Of(Unchanged)
      && c.held == c.Of(Held) && c.errors == c.Of(Failed) && c.notReady == c.Of(NotReady)
      && c.excluded == c.Of(Excluded) && c.unknownSession == c.Of(UnknownSession);
  }

  /** Conservation: each entry, at whatever depth, is in exactly one count. */
  lemma {:induction false} CountsAddUp(entries: seq<PlanEntry>)
    ensures CountVerdict(entries, WillPublish) + CountVerdict(entries, WillUpdate) + CountVerdict(entries, Unchanged)
          + CountVerdict(entries, Held) + CountVerdict(entries, Failed) + CountVerdict(entries, NotReady)
          + CountVerdict(entries, Excluded) + CountVerdict(entries, UnknownSession)
         == |Flatten(entries)|
  {
    if entries != [] {
      CountsAddUp(entries[0].subagents);
      CountsAddUp(entries[1..]);
    }
  }

  /** The counts of the plan of an expanded selection add up to the sessions it selects. */
  lemma {:induction false} CountsCoverSelection(db: Reader, requested: seq<Id>, without: bool, e: Expansion, explain: Explain)
    requires "" !in requested && Expand(db, requested, without) == Ok(e) && Faithful(explain)
    ensures var entries := PlaceAll(explain, e.sessions, e.omitted).entries;
      CountVerdict(entries, WillPublish) + CountVerdict(entries, WillUpdate) + CountVerdict(entries, Unchanged)
      + CountVerdict(entries, Held) + CountVerdict(entries, Failed) + CountVerdict(entries, NotReady)
      + CountVerdict(entries, Excluded) + CountVerdict(entries, UnknownSession)
      == |e.sessions|
  {
    PlanReadsBack(db, requested, without, e, explain);
    CountsAddUp(PlaceAll(explain, e.sessions, e.omitted).entries);
  }
}
