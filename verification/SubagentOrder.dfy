/** The order of the subagent walk, and the read that fails it: a session is listed
    by the first session before it that has it as a child, and by its first place
    among that session's children (cmd/peasant/cmd_push_selection.go). */
module SubagentOrder {
  import opened Wrappers
  import opened SubagentClosure
  import opened SubagentTheorems
  import opened PushSelection

  // ----- the place of a session -----

  /** The position of the first session of `list` that has `v` as a child, or the length. */
  ghost function ParentAt(db: Reader, list: seq<Id>, v: Id): (k: nat)
    ensures k <= |list|
    ensures k < |list| ==> v in Kids(db, list[k])
    ensures forall j :: 0 <= j < k ==> v !in Kids(db, list[j])
  {
    if list == [] || v in Kids(db, list[0]) then 0 else 1 + ParentAt(db, list[1..], v)
  }

  /** Its first place among the children of that session. */
  ghost function ChildAt(db: Reader, list: seq<Id>, v: Id): nat {
    var k := ParentAt(db, list, v);
    if k < |list| then IndexOf(Kids(db, list[k]), v) else 0
  }

  ghost predicate Precedes(db: Reader, list: seq<Id>, v: Id, w: Id) {
    || ParentAt(db, list, v) < ParentAt(db, list, w)
    || (ParentAt(db, list, v) == ParentAt(db, list, w) && ChildAt(db, list, v) < ChildAt(db, list, w))
  }

  /** The walk below `root` has read the first `m` sessions of `list` and met the
      others: `list` is the root and every child of those read, outside `avoid`
      and `done`, each once and in its place. */
  ghost predicate Queue(db: Reader, avoid: set<Id>, root: Id, done: set<Id>, list: seq<Id>, m: nat) {
    && m <= |list| && list != [] && list[0] == root && Distinct(list)
    && (forall i :: 0 <= i < m ==> db(list[i]).Rows?)
    && (forall v :: v in list[1..] <==> v !in avoid && v !in done && exists i :: 0 <= i < m && v in Kids(db, list[i]))
    && (forall i, j :: 1 <= i < j < |list| ==> Precedes(db, list, list[i], list[j]))
  }

  ghost predicate SeenIs(avoid: set<Id>, done: set<Id>, list: seq<Id>, seen: set<Id>) {
    forall v :: v !in avoid ==> (v in seen <==> v in done || v in list)
  }

  lemma ParentAtLonger(db: Reader, list: seq<Id>, more: seq<Id>, v: Id)
    ensures ParentAt(db, list, v) < |list| ==>
              ParentAt(db, list + more, v) == ParentAt(db, list, v) && ChildAt(db, list + more, v) == ChildAt(db, list, v)
  {
    assert forall j :: 0 <= j < |list| ==> (list + more)[j] == list[j];
    assert ParentAt(db, list, v) < |list| ==> !(ParentAt(db, list, v) < ParentAt(db, list + more, v));
  }

  // ----- one more session read -----

  /** The first session not read yet that lists a new one. */
  lemma NewParent(db: Reader, avoid: set<Id>, root: Id, done: set<Id>, list: seq<Id>, m: nat, firsts: seq<Id>, v: Id)
    requires Queue(db, avoid, root, done, list, m) && m < |list|
    requires v in Kids(db, list[m]) && v !in avoid && v !in done && v !in list
    ensures ParentAt(db, list + firsts, v) == m
    ensures ChildAt(db, list + firsts, v) == IndexOf(Kids(db, list[m]), v)
  {
    assert forall j :: 0 <= j < |list| ==> (list + firsts)[j] == list[j];
    assert !(m < ParentAt(db, list + firsts, v));
    assert v !in list[1..];
  }

  /** One that is listed already keeps its parent among those read. */
  lemma OldParent(db: Reader, avoid: set<Id>, root: Id, done: set<Id>, list: seq<Id>, m: nat, v: Id)
    requires Queue(db, avoid, root, done, list, m) && v in list[1..]
    ensures ParentAt(db, list, v) < m
  {
    var i :| 0 <= i < m && v in Kids(db, list[i]);
    assert !(i < ParentAt(db, list, v));
  }

  lemma ReadMembers(db: Reader, avoid: set<Id>, root: Id, done: set<Id>, list: seq<Id>, m: nat, firsts: seq<Id>)
    requires Queue(db, avoid, root, done, list, m) && m < |list| && db(list[m]).Rows? && root in avoid
    requires forall v :: v in firsts <==> v in Kids(db, list[m]) && v !in avoid && v !in done && v !in list
    ensures var longer := list + firsts;
      forall v :: v in longer[1..] <==> v !in avoid && v !in done && exists i :: 0 <= i < m + 1 && v in Kids(db, longer[i])
  {
    var longer := list + firsts;
    assert longer[1..] == list[1..] + firsts && forall i :: 0 <= i <= m ==> longer[i] == list[i];
    assert list == [root] + list[1..];
    forall v
      ensures v in longer[1..] <==> v !in avoid && v !in done && exists i :: 0 <= i < m + 1 && v in Kids(db, longer[i])
    {
      if v in list[1..] {
        var i :| 0 <= i < m && v in Kids(db, list[i]);
        assert v in Kids(db, longer[i]);
      } else if v in firsts {
        assert v in Kids(db, longer[m]);
      } else if i :| v !in avoid && v !in done && 0 <= i < m + 1 && v in Kids(db, longer[i]) {
        assert v in Kids(db, list[i]);
      }
    }
  }

  lemma ReadOrder(db: Reader, avoid: set<Id>, root: Id, done: set<Id>, list: seq<Id>, m: nat, firsts: seq<Id>)
    requires Queue(db, avoid, root, done, list, m) && m < |list|
    requires forall v :: v in firsts ==> v in Kids(db, list[m]) && v !in avoid && v !in done && v !in list
    requires InOrder(Kids(db, list[m]), firsts)
    ensures var longer := list + firsts;
      forall i, j :: 1 <= i < j < |longer| ==> Precedes(db, longer, longer[i], longer[j])
  {
    var longer := list + firsts;
    forall i, j | 1 <= i < j < |longer|
      ensures Precedes(db, longer, longer[i], longer[j])
    {
      if i < |list| {
        assert list[1..][i - 1] == longer[i];
        OldParent(db, avoid, root, done, list, m, longer[i]);
        ParentAtLonger(db, list, firsts, longer[i]);
      } else {
        assert longer[i] == firsts[i - |list|];
        NewParent(db, avoid, root, done, list, m, firsts, longer[i]);
      }
      if j < |list| {
        assert list[1..][j - 1] == longer[j];
        OldParent(db, avoid, root, done, list, m, longer[j]);
        ParentAtLonger(db, list, firsts, longer[j]);
        assert Precedes(db, list, list[i], list[j]);
      } else {
        assert longer[j] == firsts[j - |list|];
        NewParent(db, avoid, root, done, list, m, firsts, longer[j]);
      }
    }
  }

  lemma ReadOne(db: Reader, avoid: set<Id>, root: Id, done: set<Id>, list: seq<Id>, m: nat, seen: set<Id>)
    requires Queue(db, avoid, root, done, list, m) && m < |list| && db(list[m]).Rows? && root in avoid
    requires SeenIs(avoid, done, list, seen)
    ensures var firsts := Fresh(Kids(db, list[m]), avoid + seen);
      && Queue(db, avoid, root, done, list + firsts, m + 1)
      && SeenIs(avoid, done, list + firsts, seen + SetOf(firsts))
  {
    hide Fresh, Precedes;
    var firsts := Fresh(Kids(db, list[m]), avoid + seen);
    FreshMembers(Kids(db, list[m]), avoid + seen);
    FreshInOrder(Kids(db, list[m]), avoid + seen);
    ReadMembers(db, avoid, root, done, list, m, firsts);
    ReadOrder(db, avoid, root, done, list, m, firsts);
    DistinctAppend(list, firsts);
  }

  // ----- a level, a tree -----

  /** Reading `list[m]` is what fails the walk: it cannot be read, or it is as deep
      as the walk may go and lists a new session. All before it were read. */
  ghost predicate StopsAt(db: Reader, avoid: set<Id>, root: Id, done: set<Id>, list: seq<Id>, m: nat, e: Refusal) {
    && m < |list| && Queue(db, avoid, root, done, list, m)
    && match e
       case ReadFailed(u) => list[m] == u && db(u).ReadError?
       case TooDeep(r) =>
         && r == root && db(list[m]).Rows? && !Within(db, avoid, root, list[m], MAX_SUBAGENT_DEPTH - 1)
         && exists v :: v in Kids(db, list[m]) && v !in avoid && v !in done && v !in list
  }

  ghost predicate Stops(db: Reader, avoid: set<Id>, root: Id, done: set<Id>, e: Refusal) {
    exists list, m :: StopsAt(db, avoid, root, done, list, m, e)
  }

  ghost predicate LevelRead(db: Reader, avoid: set<Id>, root: Id, done: set<Id>, list: seq<Id>, m: nat,
                            r: Result<seq<Id>, Refusal>, seen: set<Id>) {
    match r
    case Ok(more) =>
      Queue(db, avoid, root, done, list + more, m) && SeenIs(avoid, done, list + more, seen + SetOf(more))
    case Err(e) => Stops(db, avoid, root, done, e)
  }

  /** As deep as the walk may go. */
  ghost predicate AtBound(db: Reader, avoid: set<Id>, root: Id, level: seq<Id>) {
    forall i :: 0 <= i < |level| ==> !Within(db, avoid, root, level[i], MAX_SUBAGENT_DEPTH - 1)
  }

  lemma {:induction false} LevelQueue(db: Reader, avoid: set<Id>, root: Id, done: set<Id>, depth: nat,
                                      list: seq<Id>, m: nat, level: seq<Id>, seen: set<Id>)
    requires root in avoid && m + |level| <= |list| && list[m..m + |level|] == level
    requires Queue(db, avoid, root, done, list, m) && SeenIs(avoid, done, list, seen)
    requires depth > MAX_SUBAGENT_DEPTH ==> AtBound(db, avoid, root, level)
    ensures LevelRead(db, avoid, root, done, list, m + |level|, NextLevel(db, avoid, root, depth, level, seen), seen)
    decreases |level|
  {
    hide Queue, SeenIs, Within;
    if level == [] {
      NothingMore(db, avoid, root, done, list, m, seen);
    } else {
      var u := level[0];
      assert list[m] == u && u in level;
      if db(u).ReadError? {
        assert StopsAt(db, avoid, root, done, list, m, ReadFailed(u));
      } else {
        var firsts := Fresh(Kids(db, u), avoid + seen);
        if firsts != [] && depth > MAX_SUBAGENT_DEPTH {
          TooDeepStops(db, avoid, root, done, list, m, seen);
        } else {
          ReadOne(db, avoid, root, done, list, m, seen);
          assert (list + firsts)[m + 1..m + 1 + |level[1..]|] == level[1..];
          LevelQueue(db, avoid, root, done, depth, list + firsts, m + 1, level[1..], seen + SetOf(firsts));
          LevelJoin(db, avoid, root, done, list, m + |level|, firsts,
                    NextLevel(db, avoid, root, depth, level[1..], seen + SetOf(firsts)), seen);
        }
      }
    }
  }

  lemma NothingMore(db: Reader, avoid: set<Id>, root: Id, done: set<Id>, list: seq<Id>, m: nat, seen: set<Id>)
    requires Queue(db, avoid, root, done, list, m) && SeenIs(avoid, done, list, seen)
    ensures LevelRead(db, avoid, root, done, list, m, Ok([]), seen)
  {
    assert list + [] == list && seen + SetOf([]) == seen;
  }

  lemma LevelJoin(db: Reader, avoid: set<Id>, root: Id, done: set<Id>, list: seq<Id>, m: nat, firsts: seq<Id>,
                  r: Result<seq<Id>, Refusal>, seen: set<Id>)
    requires LevelRead(db, avoid, root, done, list + firsts, m, r, seen + SetOf(firsts))
    ensures LevelRead(db, avoid, root, done, list, m, After(firsts, r), seen)
  {
    hide Queue, SeenIs, Stops;
    if r.Ok? {
      assert (list + firsts) + r.value == list + (firsts + r.value);
      assert seen + SetOf(firsts) + SetOf(r.value) == seen + SetOf(firsts + r.value);
    }
  }

  lemma TooDeepStops(db: Reader, avoid: set<Id>, root: Id, done: set<Id>, list: seq<Id>, m: nat, seen: set<Id>)
    requires m < |list| && Queue(db, avoid, root, done, list, m) && SeenIs(avoid, done, list, seen)
    requires db(list[m]).Rows? && Fresh(Kids(db, list[m]), avoid + seen) != []
    requires !Within(db, avoid, root, list[m], MAX_SUBAGENT_DEPTH - 1)
    ensures Stops(db, avoid, root, done, TooDeep(root))
  {
    hide Queue, Within;
    var firsts := Fresh(Kids(db, list[m]), avoid + seen);
    FreshMembers(Kids(db, list[m]), avoid + seen);
    assert firsts[0] in firsts;
    assert StopsAt(db, avoid, root, done, list, m, TooDeep(root));
  }

  ghost predicate TreeRead(db: Reader, avoid: set<Id>, root: Id, done: set<Id>, list: seq<Id>, r: Result<seq<Id>, Refusal>) {
    match r
    case Ok(tree) => Queue(db, avoid, root, done, list + tree, |list + tree|)
    case Err(e) => Stops(db, avoid, root, done, e)
  }

  lemma {:induction false} TreeQueue(db: Reader, avoid: set<Id>, root: Id, done: set<Id>, depth: nat,
                                     list: seq<Id>, m: nat, level: seq<Id>, seen: set<Id>)
    requires 1 <= depth && (depth <= MAX_SUBAGENT_DEPTH + 1 || level == [])
    requires Frontier(db, avoid, root, done, level, seen, depth - 1)
    requires m + |level| == |list| && list[m..] == level
    requires Queue(db, avoid, root, done, list, m) && SeenIs(avoid, done, list, seen)
    ensures TreeRead(db, avoid, root, done, list, Tree(db, avoid, root, depth, level, seen))
    decreases MAX_SUBAGENT_DEPTH + 2 - depth
  {
    hide Queue, SeenIs, Frontier, Within, Stops, NextLevel;
    if level == [] {
      assert list + [] == list;
    } else {
      AtFrontier(db, avoid, root, done, depth, level, seen);
      LevelQueue(db, avoid, root, done, depth, list, m, level, seen);
      var step := NextLevel(db, avoid, root, depth, level, seen);
      if step.Ok? {
        var next := step.value;
        FrontierNext(db, avoid, root, done, depth, level, seen, next);
        assert (list + next)[|list|..] == next;
        TreeQueue(db, avoid, root, done, depth + 1, list + next, |list|, next, seen + SetOf(next));
        TreeJoin(db, avoid, root, done, list, next, Tree(db, avoid, root, depth + 1, next, seen + SetOf(next)));
      }
    }
  }

  lemma AtFrontier(db: Reader, avoid: set<Id>, root: Id, done: set<Id>, depth: nat, level: seq<Id>, seen: set<Id>)
    requires 1 <= depth <= MAX_SUBAGENT_DEPTH + 1 && Frontier(db, avoid, root, done, level, seen, depth - 1)
    ensures root in avoid
    ensures depth > MAX_SUBAGENT_DEPTH ==> AtBound(db, avoid, root, level)
  {
    hide Within;
    if depth > MAX_SUBAGENT_DEPTH {
      forall i | 0 <= i < |level|
        ensures !Within(db, avoid, root, level[i], MAX_SUBAGENT_DEPTH - 1)
      {
        assert level[i] in level;
      }
    }
  }

  lemma TreeJoin(db: Reader, avoid: set<Id>, root: Id, done: set<Id>, list: seq<Id>, next: seq<Id>, r: Result<seq<Id>, Refusal>)
    requires TreeRead(db, avoid, root, done, list + next, r)
    ensures TreeRead(db, avoid, root, done, list, After(next, r))
  {
    hide Queue, Stops;
    if r.Ok? {
      assert (list + next) + r.value == list + (next + r.value);
    }
  }

  // ----- all requests -----

  /** The same queue for the request at `k`, without the sessions an earlier request reaches. */
  ghost predicate QueueOf(db: Reader, requested: seq<Id>, k: nat, list: seq<Id>, m: nat)
    requires k < |requested|
  {
    && m <= |list| && list != [] && list[0] == requested[k] && Distinct(list)
    && (forall i :: 0 <= i < m ==> db(list[i]).Rows?)
    && (forall v :: v in list[1..] <==>
          v !in requested && !EarlierReaches(db, requested, k, v) && exists i :: 0 <= i < m && v in Kids(db, list[i]))
    && (forall i, j :: 1 <= i < j < |list| ==> Precedes(db, list, list[i], list[j]))
  }

  /** What the walk lists below the request at `k`: all of it read, none deeper than the bound. */
  ghost predicate TreeInOrder(db: Reader, requested: seq<Id>, k: nat, tree: seq<Id>)
    requires k < |requested|
  {
    && QueueOf(db, requested, k, [requested[k]] + tree, 1 + |tree|)
    && forall v :: v in tree ==> Within(db, SetOf(requested), requested[k], v, 64)
  }

  /** The walk below the request at `k` fails with `e` on reading `list[m]`. */
  ghost predicate FailsAt(db: Reader, requested: seq<Id>, k: nat, list: seq<Id>, m: nat, e: Refusal)
    requires k < |requested|
  {
    && m < |list| && QueueOf(db, requested, k, list, m)
    && match e
       case ReadFailed(u) => list[m] == u && db(u).ReadError?
       case TooDeep(r) =>
         && r == requested[k] && db(list[m]).Rows?
         && !Within(db, SetOf(requested), r, list[m], 63)
         && exists v :: v in Kids(db, list[m]) && v !in requested && !EarlierReaches(db, requested, k, v) && v !in list
  }

  lemma QueueIsQueueOf(db: Reader, requested: seq<Id>, k: nat, seen: set<Id>, list: seq<Id>, m: nat)
    requires k < |requested| && SeenIsEarlier(db, requested, k, seen)
    ensures Queue(db, SetOf(requested), requested[k], seen - SetOf(requested), list, m) <==> QueueOf(db, requested, k, list, m)
  {
    hide Precedes, EarlierReaches;
    var avoid, done := SetOf(requested), seen - SetOf(requested);
    forall v
      ensures v !in avoid && v !in done <==> v !in requested && !EarlierReaches(db, requested, k, v)
    {
    }
  }

  lemma RootQueue(db: Reader, requested: seq<Id>, k: nat, seen: set<Id>)
    requires k < |requested| && SeenIsEarlier(db, requested, k, seen)
    ensures var avoid, root := SetOf(requested), requested[k];
      TreeRead(db, avoid, root, seen - avoid, [root], Tree(db, avoid, root, 1, [root], seen + {root}))
  {
    var avoid, root := SetOf(requested), requested[k];
    StartFrontier(db, requested, k, seen);
    assert Queue(db, avoid, root, seen - avoid, [root], 0) && SeenIs(avoid, seen - avoid, [root], seen + {root});
    TreeQueue(db, avoid, root, seen - avoid, 1, [root], 0, [root], seen + {root});
  }

  lemma RootInOrder(db: Reader, requested: seq<Id>, k: nat, seen: set<Id>)
    requires k < |requested| && SeenIsEarlier(db, requested, k, seen)
    ensures var r := Tree(db, SetOf(requested), requested[k], 1, [requested[k]], seen + {requested[k]});
      && (r.Ok? ==> TreeInOrder(db, requested, k, r.value))
      && (r.Err? ==> exists list, m :: FailsAt(db, requested, k, list, m, r.error))
  {
    hide Tree, Queue, QueueOf, EarlierReaches, Within, SeenIsEarlier;
    var avoid, root := SetOf(requested), requested[k];
    var r := Tree(db, avoid, root, 1, [root], seen + {root});
    RootQueue(db, requested, k, seen);
    if r.Ok? {
      QueueIsQueueOf(db, requested, k, seen, [root] + r.value, |[root] + r.value|);
      RootTree(db, requested, k, seen);
    } else {
      var list, m :| StopsAt(db, avoid, root, seen - avoid, list, m, r.error);
      QueueIsQueueOf(db, requested, k, seen, list, m);
      StopsIsFails(db, requested, k, seen, list, m, r.error);
    }
  }

  lemma StopsIsFails(db: Reader, requested: seq<Id>, k: nat, seen: set<Id>, list: seq<Id>, m: nat, e: Refusal)
    requires k < |requested| && SeenIsEarlier(db, requested, k, seen) && QueueOf(db, requested, k, list, m)
    requires StopsAt(db, SetOf(requested), requested[k], seen - SetOf(requested), list, m, e)
    ensures FailsAt(db, requested, k, list, m, e)
  {
    hide Queue, QueueOf, EarlierReaches, Within;
    if e.TooDeep? {
      var v :| v in Kids(db, list[m]) && v !in SetOf(requested) && v !in seen - SetOf(requested) && v !in list;
      assert v !in requested && !EarlierReaches(db, requested, k, v);
    }
  }

  ghost predicate Finished(db: Reader, requested: seq<Id>, k: nat)
    requires k < |requested|
  {
    exists tree :: TreeInOrder(db, requested, k, tree)
  }

  /** The walk fails with `e` at the request at `k`, all requests before it finished. */
  ghost predicate FirstFailure(db: Reader, requested: seq<Id>, from: nat, k: nat, e: Refusal) {
    && from <= k < |requested|
    && (exists list, m :: FailsAt(db, requested, k, list, m, e))
    && forall j :: from <= j < k ==> Finished(db, requested, j)
  }

  ghost predicate FailsFrom(db: Reader, requested: seq<Id>, from: nat, e: Refusal) {
    exists k :: FirstFailure(db, requested, from, k, e)
  }

  ghost predicate BlocksInOrder(db: Reader, requested: seq<Id>, from: nat, blocks: seq<Block>) {
    && from + |blocks| == |requested|
    && forall i :: 0 <= i < |blocks| ==>
         blocks[i].root == requested[from + i] && TreeInOrder(db, requested, from + i, blocks[i].tree)
  }

  lemma {:induction false} ForestInOrder(db: Reader, requested: seq<Id>, k: nat, seen: set<Id>)
    requires k <= |requested| && SeenIsEarlier(db, requested, k, seen)
    ensures var r := Forest(db, SetOf(requested), requested[k..], seen);
      && (r.Ok? ==> BlocksInOrder(db, requested, k, r.value))
      && (r.Err? ==> FailsFrom(db, requested, k, r.error))
    decreases |requested| - k
  {
    hide Tree, TreeInOrder, FailsAt, SeenIsEarlier, Owns;
    if k < |requested| {
      var avoid, root := SetOf(requested), requested[k];
      assert requested[k..][1..] == requested[k + 1..] && requested[k..][0] == root;
      RootInOrder(db, requested, k, seen);
      var walk := Tree(db, avoid, root, 1, [root], seen + {root});
      if walk.Err? {
        assert FirstFailure(db, requested, k, k, walk.error);
      } else {
        RootTree(db, requested, k, seen);
        SeenStep(db, requested, k, seen, walk.value);
        var seen' := seen + {root} + SetOf(walk.value);
        ForestInOrder(db, requested, k + 1, seen');
        OneBlockMore(db, requested, k, walk.value, Forest(db, avoid, requested[k + 1..], seen'));
      }
    }
  }

  lemma OneBlockMore(db: Reader, requested: seq<Id>, k: nat, tree: seq<Id>, rest: Result<seq<Block>, Refusal>)
    requires k < |requested| && TreeInOrder(db, requested, k, tree)
    requires rest.Ok? ==> BlocksInOrder(db, requested, k + 1, rest.value)
    requires rest.Err? ==> FailsFrom(db, requested, k + 1, rest.error)
    ensures var r := After([Block(requested[k], tree)], rest);
      && (r.Ok? ==> BlocksInOrder(db, requested, k, r.value))
      && (r.Err? ==> FailsFrom(db, requested, k, r.error))
  {
    hide TreeInOrder, FailsAt;
    if rest.Ok? {
      var blocks := [Block(requested[k], tree)] + rest.value;
      forall i | 0 <= i < |blocks|
        ensures blocks[i].root == requested[k + i] && TreeInOrder(db, requested, k + i, blocks[i].tree)
      {
        if i > 0 {
          assert blocks[i] == rest.value[i - 1] && k + i == (k + 1) + (i - 1);
        }
      }
    } else {
      var at :| FirstFailure(db, requested, k + 1, at, rest.error);
      assert Finished(db, requested, k);
      assert FirstFailure(db, requested, k, at, rest.error);
    }
  }

  // ----- main results -----

  /** The ids listed under a request, in order. */
  function ListedUnder(sessions: seq<Session>, root: Id): seq<Id> {
    if sessions == [] then []
    else (if sessions[0].parent == root then [sessions[0].id] else []) + ListedUnder(sessions[1..], root)
  }

  lemma {:induction false} ListedAppend(a: seq<Session>, b: seq<Session>, root: Id)
    ensures ListedUnder(a + b, root) == ListedUnder(a, root) + ListedUnder(b, root)
  {
    if a == [] {
      assert a + b == b;
    } else {
      assert (a + b)[1..] == a[1..] + b;
      ListedAppend(a[1..], b, root);
    }
  }

  lemma {:induction false} ListedInTree(root: Id, tree: seq<Id>, other: Id)
    ensures ListedUnder(Under(root, tree), other) == if root == other then tree else []
  {
    if tree != [] {
      assert Under(root, tree)[1..] == Under(root, tree[1..]);
      ListedInTree(root, tree[1..], other);
    }
  }

  lemma NoneListed(root: Id)
    ensures ListedUnder(SessionsOf([], false), root) == []
  {
  }

  lemma {:induction false} ListedInBlocks(blocks: seq<Block>, root: Id)
    requires Distinct(Roots(blocks)) && root != ""
    ensures root !in Roots(blocks) ==> ListedUnder(SessionsOf(blocks, false), root) == []
    ensures forall k :: 0 <= k < |blocks| && blocks[k].root == root ==>
              ListedUnder(SessionsOf(blocks, false), root) == blocks[k].tree
  {
    hide Distinct, ListedUnder, SessionsOf;
    if blocks == [] {
      NoneListed(root);
    } else {
      var b, rest := blocks[0], blocks[1..];
      FirstIsNew(blocks);
      ListedInBlocks(rest, root);
      ListedInFirst(blocks, root);
      assert Roots(blocks) == [b.root] + Roots(rest);
      forall k | 0 <= k < |blocks| && blocks[k].root == root
        ensures ListedUnder(SessionsOf(blocks, false), root) == blocks[k].tree
      {
        if k > 0 {
          assert rest[k - 1] == blocks[k] && Roots(rest)[k - 1] == root;
        }
      }
    }
  }

  lemma FirstIsNew(blocks: seq<Block>)
    requires blocks != [] && Distinct(Roots(blocks))
    ensures Distinct(Roots(blocks[1..])) && blocks[0].root !in Roots(blocks[1..])
  {
    var rest := blocks[1..];
    assert Roots(blocks) == [blocks[0].root] + Roots(rest);
    forall i, j | 0 <= i < j < |rest|
      ensures Roots(rest)[i] != Roots(rest)[j]
    {
      assert Roots(blocks)[i + 1] != Roots(blocks)[j + 1];
    }
    forall i | 0 <= i < |rest|
      ensures Roots(rest)[i] != blocks[0].root
    {
      assert Roots(blocks)[0] != Roots(blocks)[i + 1];
    }
  }

  lemma ListedInFirst(blocks: seq<Block>, root: Id)
    requires blocks != [] && root != ""
    ensures ListedUnder(SessionsOf(blocks, false), root)
         == (if blocks[0].root == root then blocks[0].tree else []) + ListedUnder(SessionsOf(blocks[1..], false), root)
  {
    var b := blocks[0];
    ListedAppend([Session(b.root, "")] + Under(b.root, b.tree), SessionsOf(blocks[1..], false), root);
    ListedAppend([Session(b.root, "")], Under(b.root, b.tree), root);
    ListedInTree(b.root, b.tree, root);
    assert [Session(b.root, "")][1..] == [];
  }

  /** What the selection lists under each request, as blocks. */
  function BlocksOf(requested: seq<Id>, sessions: seq<Session>): (blocks: seq<Block>)
    ensures |blocks| == |requested|
    ensures forall k :: 0 <= k < |blocks| ==> blocks[k] == Block(requested[k], ListedUnder(sessions, requested[k]))
  {
    seq(|requested|, k requires 0 <= k < |requested| => Block(requested[k], ListedUnder(sessions, requested[k])))
  }

  /** The order of a selection: each request followed by what is listed under it,
      and that in the order of the walk, each session in the place its first
      parent in the list and its first position among that parent's children give it. */
  lemma {:induction false} SelectionInOrder(db: Reader, requested: seq<Id>, e: Expansion)
    requires Distinct(requested) && "" !in requested && Expand(db, requested, false) == Ok(e)
    ensures e.sessions == SessionsOf(BlocksOf(requested, e.sessions), false)
    ensures forall k :: 0 <= k < |requested| ==>
              TreeInOrder(db, requested, k, ListedUnder(e.sessions, requested[k]))
              && TreeOf(db, requested, k, ListedUnder(e.sessions, requested[k]))
  {
    hide Forest, TreeInOrder, TreeOf, OmittedOf, ListedUnder, SessionsOf;
    assert requested[0..] == requested;
    ForestInOrder(db, requested, 0, {}) by {
      assert SeenIsEarlier(db, requested, 0, {});
    }
    WalkExact(db, requested);
    var blocks := Forest(db, SetOf(requested), requested, {}).value;
    assert Roots(blocks) == requested;
    forall k | 0 <= k < |requested|
      ensures blocks[k].tree == ListedUnder(e.sessions, requested[k])
      ensures TreeInOrder(db, requested, k, ListedUnder(e.sessions, requested[k]))
      ensures TreeOf(db, requested, k, ListedUnder(e.sessions, requested[k]))
    {
      assert requested[k] in requested && blocks[k].root == requested[0 + k];
      ListedInBlocks(blocks, requested[k]);
    }
    assert blocks == BlocksOf(requested, e.sessions);
  }

  /** The refusal of a selection, for either value of the flag: the first thing
      that stops the walk in reading order, every request before it finished. */
  lemma {:induction false} RefusalIsFirst(db: Reader, requested: seq<Id>, without: bool)
    requires Expand(db, requested, without).Err?
    ensures FailsFrom(db, requested, 0, Expand(db, requested, without).error)
  {
    hide Forest, FailsFrom;
    assert requested[0..] == requested;
    ForestInOrder(db, requested, 0, {}) by {
      assert SeenIsEarlier(db, requested, 0, {});
    }
  }

  /** The parent a session takes its place from is one level up: so among sessions
      equally far down the first parent in the level above decides, and then the
      first position among its children. */
  lemma ParentIsAbove(db: Reader, requested: seq<Id>, k: nat, tree: seq<Id>, v: Id, n: nat)
    requires k < |requested| && TreeOf(db, requested, k, tree) && v in tree
    requires var avoid, root := SetOf(requested), requested[k];
      n > 0 && Within(db, avoid, root, v, n) && !Within(db, avoid, root, v, n - 1)
    ensures var avoid, root, list := SetOf(requested), requested[k], [requested[k]] + tree;
      var p := ParentAt(db, list, v);
      && p < |list| && Within(db, avoid, root, list[p], n - 1)
      && (n > 1 ==> !Within(db, avoid, root, list[p], n - 2))
  {
    hide Within, TreeOf, SetOf, Kids;
    var avoid, root, list := SetOf(requested), requested[k], [requested[k]] + tree;
    var p := ParentAt(db, list, v);
    var w := LastLink(db, avoid, root, v, n);
    LinkIsListed(db, requested, k, tree, v, w, n - 1);
    var j :| 0 <= j < |list| && list[j] == w;
    assert !(j < p);
    EarlierIsNearer(db, requested, k, tree, p, j, n - 1);
    if n > 1 && Within(db, avoid, root, list[p], n - 2) {
      WithinStep(db, avoid, root, list[p], v, n - 1);
    }
  }

  lemma EarlierIsNearer(db: Reader, requested: seq<Id>, k: nat, tree: seq<Id>, p: nat, j: nat, n: nat)
    requires k < |requested| && TreeOf(db, requested, k, tree) && p <= j <= |tree|
    requires Within(db, SetOf(requested), requested[k], ([requested[k]] + tree)[j], n)
    ensures Within(db, SetOf(requested), requested[k], ([requested[k]] + tree)[p], n)
  {
    hide Within, Owns;
    var list := [requested[k]] + tree;
    if p == 0 {
      RootWithin(db, SetOf(requested), requested[k], n);
    } else if p < j {
      assert list[p] == tree[p - 1] && list[j] == tree[j - 1];
    }
  }

  lemma RootWithin(db: Reader, avoid: set<Id>, root: Id, n: nat)
    ensures Within(db, avoid, root, root, n)
  {
    WithinMonotone(db, avoid, root, root, 0, n);
  }

  lemma LinkIsListed(db: Reader, requested: seq<Id>, k: nat, tree: seq<Id>, v: Id, w: Id, n: nat)
    requires k < |requested| && TreeOf(db, requested, k, tree) && v in tree
    requires Within(db, SetOf(requested), requested[k], w, n) && v in Kids(db, w)
    ensures w in [requested[k]] + tree
  {
    hide Within;
    if w in requested {
      AvoidedIsRoot(db, SetOf(requested), requested[k], w, n);
    } else if EarlierReaches(db, requested, k, w) {
      var j :| 0 <= j < k && Reaches(db, SetOf(requested), requested[j], w);
      assert Owns(db, requested, k, v);
      ReachesStep(db, SetOf(requested), requested[j], w, v);
    } else {
      assert Owns(db, requested, k, w);
    }
  }

  /** Of the requested sessions only the root itself is within reach. */
  lemma {:induction false} AvoidedIsRoot(db: Reader, avoid: set<Id>, root: Id, v: Id, n: nat)
    requires v in avoid && Within(db, avoid, root, v, n)
    ensures v == root
    decreases n
  {
    if n > 0 {
      AvoidedIsRoot(db, avoid, root, v, n - 1);
    }
  }
}
