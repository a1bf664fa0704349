/** The selection a push is pinned to: how it is resolved from the flags, and
    what its expanded form promises (cmd/peasant/cmd_push_selection.go). */
module PushSelection {
  import opened Wrappers
  import opened Strings
  import opened SubagentClosure
  import opened SubagentTheorems

  // ----- resolving --session and --sessions-from -----

  function Trimmed(raws: seq<string>): (t: seq<string>)
    ensures |t| == |raws|
    ensures forall i :: 0 <= i < |raws| ==> t[i] == TrimSpace(raws[i])
  {
    seq(|raws|, i requires 0 <= i < |raws| => TrimSpace(raws[i]))
  }

  lemma FreshNone(ids: seq<Id>, seen: set<Id>)
    ensures Fresh(ids[|ids|..], seen) == []
  {
  }

  /** The named sessions first, then the list, each id once; an empty id refuses. */
  method ResolveExplicitSelection(named: seq<string>, fromList: seq<string>) returns (r: Result<seq<Id>, ()>)
    ensures r.Err? <==> "" in Trimmed(named + fromList)
    ensures r.Ok? ==>
      && r.value == Fresh(Trimmed(named + fromList), {})
      && Distinct(r.value) && "" !in r.value
      && (forall id :: id in r.value <==> id in Trimmed(named + fromList))
      && InOrder(Trimmed(named + fromList), r.value)
  {
    hide TrimSpace, Fresh;
    var raws := named + fromList;
    ghost var all := Trimmed(raws);
    var ids: seq<Id> := [];
    var seen: set<Id> := {};
    assert all[0..] == all && [] + Fresh(all, {}) == Fresh(all, {});
    for i := 0 to |raws|
      invariant seen == SetOf(ids)
      invariant "" !in all[..i]
      invariant Fresh(all, {}) == ids + Fresh(all[i..], seen)
    {
      var id := TrimSpace(raws[i]);
      FreshStep(all, i, seen);
      assert all[i] == id && all[..i + 1] == all[..i] + [id];
      if id == "" {
        return Err(());
      }
      if id in seen {
        continue;
      }
      seen := seen + {id};
      ids := ids + [id];
    }
    assert all[..|raws|] == all;
    FreshNone(all, seen);
    assert ids + [] == ids;
    FreshMembers(all, {});
    FreshInOrder(all, {});
    r := Ok(ids);
  }

  /** Those outside `chosen`, in order. */
  function Outside(warned: seq<Id>, chosen: seq<Id>): (kept: seq<Id>)
    ensures forall w :: w in kept <==> w in warned && w !in chosen
  {
    if warned == [] then []
    else
      var last := warned[|warned| - 1];
      assert warned == warned[..|warned| - 1] + [last];
      Outside(warned[..|warned| - 1], chosen) + if last in chosen then [] else [last]
  }

  lemma {:induction false} OutsidePicks(warned: seq<Id>, chosen: seq<Id>)
    ensures Picks(warned, (w: Id) => w !in chosen, Outside(warned, chosen))
  {
    hide Picks;
    var keep := (w: Id) => w !in chosen;
    if warned == [] {
      PicksNone(keep);
    } else {
      var init, last := warned[..|warned| - 1], warned[|warned| - 1];
      assert warned == init + [last];
      OutsidePicks(init, chosen);
      PicksSnoc(init, last, keep, Outside(init, chosen));
      assert Outside(init, chosen) + [] == Outside(init, chosen);
    }
  }

  /** The review document's warnings, less those about a session chosen anyway. */
  method KeptWarnings(warned: seq<Id>, chosen: seq<Id>) returns (kept: seq<Id>)
    ensures kept == Outside(warned, chosen)
    ensures Picks(warned, (w: Id) => w !in chosen, kept)
  {
    OutsidePicks(warned, chosen);
    kept := [];
    for i := 0 to |warned|
      invariant kept == Outside(warned[..i], chosen)
    {
      assert warned[..i + 1][..i] == warned[..i];
      if warned[i] !in chosen {
        kept := kept + [warned[i]];
      }
    }
    assert warned[..|warned|] == warned;
  }

  // ----- the expanded selection -----

  function Ids(sessions: seq<Session>): (ids: seq<Id>)
    ensures |ids| == |sessions|
    ensures forall i :: 0 <= i < |ids| ==> ids[i] == sessions[i].id
  {
    seq(|sessions|, i requires 0 <= i < |sessions| => sessions[i].id)
  }

  function Roots(blocks: seq<Block>): (ids: seq<Id>)
    ensures |ids| == |blocks|
    ensures forall i :: 0 <= i < |ids| ==> ids[i] == blocks[i].root
  {
    seq(|blocks|, i requires 0 <= i < |blocks| => blocks[i].root)
  }

  /** `s` is the request of block `k`, or listed under it. */
  ghost predicate InBlock(blocks: seq<Block>, k: nat, without: bool, s: Session)
    requires k < |blocks|
  {
    s == Session(blocks[k].root, "") || (!without && s.parent == blocks[k].root && s.id in blocks[k].tree)
  }

  lemma {:induction false} SessionsMembers(blocks: seq<Block>, without: bool, s: Session)
    ensures s in SessionsOf(blocks, without) <==> exists k :: 0 <= k < |blocks| && InBlock(blocks, k, without, s)
  {
    if blocks != [] {
      var b, rest := blocks[0], blocks[1..];
      SessionsMembers(rest, without, s);
      assert s in Under(b.root, b.tree) <==> s.parent == b.root && s.id in b.tree by {
        if s.parent == b.root && s.id in b.tree {
          var i :| 0 <= i < |b.tree| && b.tree[i] == s.id;
          assert Under(b.root, b.tree)[i] == s;
        }
      }
      assert s in SessionsOf(blocks, without) <==> InBlock(blocks, 0, without, s) || s in SessionsOf(rest, without);
      if k :| 0 <= k < |rest| && InBlock(rest, k, without, s) {
        assert InBlock(blocks, k + 1, without, s);
      }
      if k :| 0 <= k < |blocks| && InBlock(blocks, k, without, s) {
        if k > 0 {
          assert InBlock(rest, k - 1, without, s);
        }
      }
    }
  }

  /** Closure and attribution of a plain run: it selects exactly the sessions
      below the requests, and lists each under the first request that reaches it. */
  lemma {:induction false} SelectionIsClosure(db: Reader, requested: seq<Id>, e: Expansion)
    requires Expand(db, requested, false) == Ok(e)
    ensures forall v :: v in Ids(e.sessions) <==> Below(db, requested, v)
    ensures forall s :: s in e.sessions <==>
              (s.parent == "" && s.id in requested)
              || exists k :: 0 <= k < |requested| && s.parent == requested[k] && Owns(db, requested, k, s.id)
  {
    hide Forest, SessionsOf, Owns, Below, OmittedOf, Within;
    WalkExact(db, requested);
    var blocks := Forest(db, SetOf(requested), requested, {}).value;
    forall s
      ensures s in e.sessions <==>
              (s.parent == "" && s.id in requested)
              || exists k :: 0 <= k < |requested| && s.parent == requested[k] && Owns(db, requested, k, s.id)
    {
      SelectedIff(db, requested, blocks, s);
    }
    forall v
      ensures v in Ids(e.sessions) <==> Below(db, requested, v)
    {
      BelowIsOwned(db, requested, v);
      if v in Ids(e.sessions) {
        var i :| 0 <= i < |e.sessions| && Ids(e.sessions)[i] == v;
        assert e.sessions[i] in e.sessions && e.sessions[i].id == v;
      }
      if Below(db, requested, v) {
        var s: Session;
        if v in requested {
          s := Session(v, "");
        } else {
          var k :| 0 <= k < |requested| && Owns(db, requested, k, v);
          s := Session(v, requested[k]);
        }
        assert s in e.sessions;
        var i :| 0 <= i < |e.sessions| && e.sessions[i] == s;
        assert Ids(e.sessions)[i] == v;
      }
    }
  }

  lemma SelectedIff(db: Reader, requested: seq<Id>, blocks: seq<Block>, s: Session)
    requires BlocksExact(db, requested, blocks)
    ensures s in SessionsOf(blocks, false) <==>
              (s.parent == "" && s.id in requested)
              || exists k :: 0 <= k < |requested| && s.parent == requested[k] && Owns(db, requested, k, s.id)
  {
    SessionsMembers(blocks, false, s);
    if k :| 0 <= k < |blocks| && InBlock(blocks, k, false, s) {
      assert TreeOf(db, requested, k, blocks[k].tree);
    }
    if s.parent == "" && s.id in requested {
      var k :| 0 <= k < |requested| && requested[k] == s.id;
      assert InBlock(blocks, k, false, s);
    }
    if k :| 0 <= k < |requested| && s.parent == requested[k] && Owns(db, requested, k, s.id) {
      assert TreeOf(db, requested, k, blocks[k].tree);
      assert InBlock(blocks, k, false, s);
    }
  }

  // ----- no session twice -----

  lemma IdsAppend(a: seq<Session>, b: seq<Session>)
    ensures Ids(a + b) == Ids(a) + Ids(b)
  {
  }

  lemma UnderIds(root: Id, tree: seq<Id>)
    ensures Ids([Session(root, "")] + Under(root, tree)) == [root] + tree
  {
  }

  /** The blocks name no session twice. */
  ghost predicate Disjoint(blocks: seq<Block>) {
    && (forall i :: 0 <= i < |blocks| ==> Distinct([blocks[i].root] + blocks[i].tree))
    && (forall i, j, v :: 0 <= i < j < |blocks| && v in [blocks[i].root] + blocks[i].tree
          ==> v !in [blocks[j].root] + blocks[j].tree)
  }

  lemma ExactIsDisjoint(db: Reader, requested: seq<Id>, blocks: seq<Block>)
    requires Distinct(requested) && BlocksExact(db, requested, blocks)
    ensures Disjoint(blocks)
  {
    forall i | 0 <= i < |blocks|
      ensures Distinct([blocks[i].root] + blocks[i].tree)
    {
      assert TreeOf(db, requested, i, blocks[i].tree) && requested[i] in requested;
      DistinctAppend([blocks[i].root], blocks[i].tree);
    }
    forall i, j, v | 0 <= i < j < |blocks| && v in [blocks[i].root] + blocks[i].tree
      ensures v !in [blocks[j].root] + blocks[j].tree
    {
      assert TreeOf(db, requested, i, blocks[i].tree) && TreeOf(db, requested, j, blocks[j].tree);
      assert requested[i] in requested && requested[j] in requested;
      if Owns(db, requested, i, v) {
        assert EarlierReaches(db, requested, j, v);
      }
    }
  }

  lemma LaterBlock(blocks: seq<Block>, v: Id)
    requires blocks != [] && v in Ids(SessionsOf(blocks[1..], false))
    ensures exists k :: 0 < k < |blocks| && v in [blocks[k].root] + blocks[k].tree
  {
    var rest := blocks[1..];
    var i :| 0 <= i < |SessionsOf(rest, false)| && SessionsOf(rest, false)[i].id == v;
    var s := SessionsOf(rest, false)[i];
    SessionsMembers(rest, false, s);
    var k :| 0 <= k < |rest| && InBlock(rest, k, false, s);
    assert rest[k] == blocks[k + 1];
    assert v in [blocks[k + 1].root] + blocks[k + 1].tree;
  }

  lemma {:induction false} DisjointDistinct(blocks: seq<Block>)
    requires Disjoint(blocks)
    ensures Distinct(Ids(SessionsOf(blocks, false)))
  {
    if blocks != [] {
      var b, rest := blocks[0], blocks[1..];
      var own := [Session(b.root, "")] + Under(b.root, b.tree);
      assert Disjoint(rest) by {
        forall i, j, v | 0 <= i < j < |rest| && v in [rest[i].root] + rest[i].tree
          ensures v !in [rest[j].root] + rest[j].tree
        {
          assert rest[i] == blocks[i + 1] && rest[j] == blocks[j + 1];
        }
      }
      DisjointDistinct(rest);
      IdsAppend(own, SessionsOf(rest, false));
      UnderIds(b.root, b.tree);
      forall v | v in Ids(SessionsOf(rest, false))
        ensures v !in [b.root] + b.tree
      {
        LaterBlock(blocks, v);
      }
      DistinctAppend([b.root] + b.tree, Ids(SessionsOf(rest, false)));
    }
  }

  /** Distinct requests select no session twice, with or without subagents. */
  lemma {:induction false} SelectionIsDistinct(db: Reader, requested: seq<Id>, without: bool, e: Expansion)
    requires Distinct(requested) && Expand(db, requested, without) == Ok(e)
    ensures Distinct(Ids(e.sessions))
  {
    hide Forest, OmittedOf, Owns, Within;
    WalkExact(db, requested);
    var blocks := Forest(db, SetOf(requested), requested, {}).value;
    if without {
      RequestsOnly(blocks);
      assert Roots(blocks) == requested;
    } else {
      ExactIsDisjoint(db, requested, blocks);
      DisjointDistinct(blocks);
    }
  }

  // ----- with and without subagents -----

  function CountUnder(sessions: seq<Session>, root: Id): nat {
    if sessions == [] then 0
    else (if sessions[0].parent == root then 1 else 0) + CountUnder(sessions[1..], root)
  }

  lemma {:induction false} CountUnderAppend(a: seq<Session>, b: seq<Session>, root: Id)
    ensures CountUnder(a + b, root) == CountUnder(a, root) + CountUnder(b, root)
  {
    if a == [] {
      assert a + b == b;
    } else {
      assert (a + b)[1..] == a[1..] + b;
      CountUnderAppend(a[1..], b, root);
    }
  }

  lemma {:induction false} CountUnderTree(root: Id, tree: seq<Id>, other: Id)
    ensures CountUnder(Under(root, tree), other) == if root == other then |tree| else 0
  {
    if tree != [] {
      assert Under(root, tree)[1..] == Under(root, tree[1..]);
      CountUnderTree(root, tree[1..], other);
    }
  }

  lemma OneBlockCounts(b: Block, root: Id)
    requires root != ""
    ensures CountUnder(SessionsOf([b], false), root) == if b.root == root then |b.tree| else 0
  {
    assert [b][1..] == [];
    var own := [Session(b.root, "")] + Under(b.root, b.tree);
    assert SessionsOf([b], false) == own;
    assert own[1..] == Under(b.root, b.tree);
    CountUnderTree(b.root, b.tree, root);
  }

  lemma NoneUnder(root: Id)
    ensures CountUnder(SessionsOf([], false), root) == 0
  {
  }

  lemma {:induction false} OmittedCounts(blocks: seq<Block>, root: Id)
    requires root != ""
    ensures Count(OmittedOf(blocks), root) == CountUnder(SessionsOf(blocks, false), root)
  {
    hide SessionsOf, CountUnder;
    if blocks == [] {
      NoneUnder(root);
    } else {
      var before, b := blocks[..|blocks| - 1], blocks[|blocks| - 1];
      assert blocks == before + [b];
      OmittedCounts(before, root);
      SessionsOfAppend(before, b, false);
      CountUnderAppend(SessionsOf(before, false), SessionsOf([b], false), root);
      OneBlockCounts(b, root);
    }
  }

  lemma {:induction false} OmittedAreRoots(blocks: seq<Block>)
    ensures forall root :: root in OmittedOf(blocks) ==> root in Roots(blocks)
  {
    if blocks != [] {
      var before, b := blocks[..|blocks| - 1], blocks[|blocks| - 1];
      OmittedAreRoots(before);
      assert Roots(blocks) == Roots(before) + [b.root];
    }
  }

  lemma {:induction false} RequestsOnly(blocks: seq<Block>)
    ensures Ids(SessionsOf(blocks, true)) == Roots(blocks)
  {
    if blocks != [] {
      RequestsOnly(blocks[1..]);
      IdsAppend([Session(blocks[0].root, "")] + [], SessionsOf(blocks[1..], true));
      assert [Session(blocks[0].root, "")] + [] == [Session(blocks[0].root, "")];
      assert Roots(blocks) == [blocks[0].root] + Roots(blocks[1..]);
    }
  }

  /** --without-subagents changes what is listed, never whether the run is
      refused: both runs refuse alike, the flag keeps the requests in order, and
      counts for each what the plain run lists under it. */
  lemma {:induction false} TwoRuns(db: Reader, requested: seq<Id>)
    requires "" !in requested
    ensures var plain, only := Expand(db, requested, false), Expand(db, requested, true);
      && (plain.Err? <==> only.Err?)
      && (plain.Err? ==> plain.error == only.error)
      && (plain.Ok? ==>
            && Ids(only.value.sessions) == requested
            && plain.value.omitted == map[]
            && (forall root :: root in requested ==>
                  Count(only.value.omitted, root) == CountUnder(plain.value.sessions, root))
            && (forall root :: root in only.value.omitted ==> root in requested))
  {
    WalkExact(db, requested);
    var forest := Forest(db, SetOf(requested), requested, {});
    if forest.Ok? {
      RequestsOnly(forest.value);
      assert Roots(forest.value) == requested;
      forall root | root != ""
        ensures Count(OmittedOf(forest.value), root) == CountUnder(SessionsOf(forest.value, false), root)
      {
        OmittedCounts(forest.value, root);
      }
      OmittedAreRoots(forest.value);
    }
  }

  // ----- inheritance -----

  /** Each session pulled in, with the request whose decision it follows. */
  method Inheritance(sessions: seq<Session>) returns (inherited: map<Id, Id>)
    requires Distinct(Ids(sessions))
    ensures forall s: Session :: s.parent != "" ==>
              (s in sessions <==> s.id in inherited && inherited[s.id] == s.parent)
    ensures forall id :: id in inherited ==> inherited[id] != ""
  {
    inherited := map[];
    for i := 0 to |sessions|
      invariant forall s: Session :: s.parent != "" ==>
                  (s in sessions[..i] <==> s.id in inherited && inherited[s.id] == s.parent)
      invariant forall id :: id in inherited ==> inherited[id] != ""
    {
      var s := sessions[i];
      assert sessions[..i + 1] == sessions[..i] + [s];
      forall t | t in sessions[..i]
        ensures t.id != s.id
      {
        var j :| 0 <= j < i && sessions[j] == t;
        assert Ids(sessions)[j] != Ids(sessions)[i];
      }
      if s.parent != "" {
        inherited := inherited[s.id := s.parent];
      }
    }
    assert sessions[..|sessions|] == sessions;
  }
}
