/** What the subagent walk promises about the stored child relation, for every
    relation (cyclic or not) and every request. */
module SubagentTheorems {
  import opened Wrappers
  import opened SubagentClosure

  // ----- the child relation -----

  /** `v` is `root`, or at most `n` child links below it, no link entering `avoid`. */
  ghost predicate Within(db: Reader, avoid: set<Id>, root: Id, v: Id, n: nat)
    decreases n
  {
    if n == 0 then v == root
    else
      || Within(db, avoid, root, v, n - 1)
      || (v !in avoid && exists u :: Within(db, avoid, root, u, n - 1) && v in Kids(db, u))
  }

  ghost predicate Reaches(db: Reader, avoid: set<Id>, root: Id, v: Id) {
    exists n: nat :: Within(db, avoid, root, v, n)
  }

  lemma {:induction false} WithinMonotone(db: Reader, avoid: set<Id>, root: Id, v: Id, m: nat, n: nat)
    requires m <= n && Within(db, avoid, root, v, m)
    ensures Within(db, avoid, root, v, n)
    decreases n
  {
    if m < n {
      WithinMonotone(db, avoid, root, v, m, n - 1);
    }
  }

  lemma WithinStep(db: Reader, avoid: set<Id>, root: Id, u: Id, v: Id, n: nat)
    requires n > 0 && v !in avoid && Within(db, avoid, root, u, n - 1) && v in Kids(db, u)
    ensures Within(db, avoid, root, v, n)
  {
  }

  /** The link before `v`, when `v` is not within reach sooner. */
  lemma LastLink(db: Reader, avoid: set<Id>, root: Id, v: Id, n: nat) returns (u: Id)
    requires n > 0 && Within(db, avoid, root, v, n) && !Within(db, avoid, root, v, n - 1)
    ensures v !in avoid && Within(db, avoid, root, u, n - 1) && v in Kids(db, u)
  {
    u :| Within(db, avoid, root, u, n - 1) && v in Kids(db, u);
  }

  lemma ReachesStep(db: Reader, avoid: set<Id>, root: Id, u: Id, v: Id)
    requires Reaches(db, avoid, root, u) && v in Kids(db, u) && v !in avoid
    ensures Reaches(db, avoid, root, v)
  {
    var n: nat :| Within(db, avoid, root, u, n);
    assert Within(db, avoid, root, v, n + 1);
  }

  // ----- one level -----

  lemma {:induction false} FreshMembers(kids: seq<Id>, blocked: set<Id>)
    ensures forall v :: v in Fresh(kids, blocked) <==> v in kids && v !in blocked
    ensures Distinct(Fresh(kids, blocked))
  {
    if kids == [] {
    } else if kids[0] in blocked {
      FreshMembers(kids[1..], blocked);
    } else {
      FreshMembers(kids[1..], blocked + {kids[0]});
      DistinctAppend([kids[0]], Fresh(kids[1..], blocked + {kids[0]}));
    }
  }

  /** Some of a list's ids, in the order in which they first stand there. */
  ghost predicate InOrder(kids: seq<Id>, some: seq<Id>) {
    forall i, j :: 0 <= i < j < |some| ==> IndexOf(kids, some[i]) < IndexOf(kids, some[j])
  }

  lemma IndexOfCons(x: Id, kids: seq<Id>, v: Id)
    ensures IndexOf([x] + kids, v) == if v == x then 0 else 1 + IndexOf(kids, v)
  {
    assert ([x] + kids)[1..] == kids;
  }

  lemma InOrderCons(x: Id, kids: seq<Id>, some: seq<Id>)
    requires InOrder(kids, some) && x !in some
    ensures InOrder([x] + kids, some) && InOrder([x] + kids, [x] + some)
  {
    hide IndexOf;
    forall i | 0 <= i < |some|
      ensures IndexOf([x] + kids, some[i]) == 1 + IndexOf(kids, some[i])
    {
      assert some[i] in some;
      IndexOfCons(x, kids, some[i]);
    }
    IndexOfCons(x, kids, x);
    var longer := [x] + some;
    assert longer[0] == x && forall i :: 0 < i < |longer| ==> longer[i] == some[i - 1];
  }

  lemma {:induction false} FreshInOrder(kids: seq<Id>, blocked: set<Id>)
    ensures InOrder(kids, Fresh(kids, blocked))
  {
    if kids != [] {
      hide InOrder;
      var blocked' := blocked + {kids[0]};
      FreshInOrder(kids[1..], blocked');
      FreshMembers(kids[1..], blocked');
      InOrderCons(kids[0], kids[1..], Fresh(kids[1..], blocked'));
      assert [kids[0]] + kids[1..] == kids;
      assert kids[0] in blocked ==> blocked' == blocked;
    }
  }

  /** `v` is first met in the level below `level`. */
  ghost predicate Met(db: Reader, direct: set<Id>, level: seq<Id>, seen: set<Id>, v: Id) {
    v !in direct && v !in seen && exists u :: u in level && v in Kids(db, u)
  }

  lemma {:induction false} NextLevelMembers(db: Reader, direct: set<Id>, root: Id, depth: nat, level: seq<Id>, seen: set<Id>)
    ensures match NextLevel(db, direct, root, depth, level, seen)
      case Ok(next) =>
        && Distinct(next)
        && (forall v :: v in next <==> Met(db, direct, level, seen, v))
        && (forall u :: u in level ==> db(u).Rows?)
      case Err(ReadFailed(u)) => u in level && db(u).ReadError?
      case Err(TooDeep(r)) =>
        r == root && depth > MAX_SUBAGENT_DEPTH && exists v :: Met(db, direct, level, seen, v)
  {
    if level != [] && db(level[0]).Rows? {
      var firsts := Fresh(Kids(db, level[0]), direct + seen);
      FreshMembers(Kids(db, level[0]), direct + seen);
      if firsts != [] && depth > MAX_SUBAGENT_DEPTH {
        assert Met(db, direct, level, seen, firsts[0]);
      } else {
        NextLevelMembers(db, direct, root, depth, level[1..], seen + SetOf(firsts));
        match NextLevel(db, direct, root, depth, level[1..], seen + SetOf(firsts))
        case Ok(rest) =>
          DistinctAppend(firsts, rest);
          forall v
            ensures v in firsts + rest <==> Met(db, direct, level, seen, v)
          {
            if Met(db, direct, level, seen, v) && v !in firsts {
              assert Met(db, direct, level[1..], seen + SetOf(firsts), v);
            }
            if v in rest {
              assert Met(db, direct, level[1..], seen + SetOf(firsts), v);
            }
          }
        case Err(TooDeep(r)) =>
          var v :| Met(db, direct, level[1..], seen + SetOf(firsts), v);
          assert Met(db, direct, level, seen, v);
        case Err(ReadFailed(u)) =>
      }
    }
  }

  // ----- the levels of one root are its distance spheres -----

  /** Nothing leads out of `done` except into `avoid`. */
  ghost predicate Closed(db: Reader, avoid: set<Id>, done: set<Id>) {
    forall u, v :: u in done && v in Kids(db, u) && v !in avoid ==> v in done
  }

  /** `level` holds the sessions outside `done` at distance exactly `d`, and
      `seen` those at distance at most `d`. */
  ghost predicate Frontier(db: Reader, avoid: set<Id>, root: Id, done: set<Id>, level: seq<Id>, seen: set<Id>, d: nat) {
    && Closed(db, avoid, done)
    && done !! avoid
    && root in avoid
    && (forall v :: v in level <==> v !in done && Within(db, avoid, root, v, d)
                                    && (d > 0 ==> !Within(db, avoid, root, v, d - 1)))
    && (forall v :: v !in avoid ==> (v in seen <==> v in done || Within(db, avoid, root, v, d)))
  }

  lemma MetIsNextSphere(db: Reader, avoid: set<Id>, root: Id, done: set<Id>, level: seq<Id>, seen: set<Id>, d: nat, v: Id)
    requires Frontier(db, avoid, root, done, level, seen, d)
    ensures Met(db, avoid, level, seen, v)
        <==> v !in done && Within(db, avoid, root, v, d + 1) && !Within(db, avoid, root, v, d)
  {
    if v !in done && Within(db, avoid, root, v, d + 1) && !Within(db, avoid, root, v, d) {
      var u :| Within(db, avoid, root, u, d) && v in Kids(db, u);
      assert !(d > 0 && Within(db, avoid, root, u, d - 1));
      assert u in level;
    }
    if Met(db, avoid, level, seen, v) {
      var u :| u in level && v in Kids(db, u);
      assert Within(db, avoid, root, u, d);
    }
  }

  lemma FrontierStep(db: Reader, avoid: set<Id>, root: Id, done: set<Id>, level: seq<Id>, seen: set<Id>, d: nat, next: seq<Id>)
    requires Frontier(db, avoid, root, done, level, seen, d)
    requires forall v :: v in next <==> Met(db, avoid, level, seen, v)
    ensures Frontier(db, avoid, root, done, next, seen + SetOf(next), d + 1)
  {
    forall v {
      MetIsNextSphere(db, avoid, root, done, level, seen, d, v);
    }
  }

  /** Once a sphere is empty, nothing lies further out. */
  lemma {:induction false} EmptySphereEnds(db: Reader, avoid: set<Id>, root: Id, done: set<Id>, seen: set<Id>, d: nat, v: Id, n: nat)
    requires Frontier(db, avoid, root, done, [], seen, d)
    requires v !in done && Within(db, avoid, root, v, n)
    ensures d > 0 && Within(db, avoid, root, v, d - 1)
    decreases n
  {
    hide *;
    EmptySphere(db, avoid, root, done, seen, d);
    if n < d {
      WithinMonotone(db, avoid, root, v, n, d - 1);
    } else if Within(db, avoid, root, v, n - 1) {
      EmptySphereEnds(db, avoid, root, done, seen, d, v, n - 1);
    } else {
      var u := LastLink(db, avoid, root, v, n);
      assert u !in done;
      EmptySphereEnds(db, avoid, root, done, seen, d, u, n - 1);
      WithinStep(db, avoid, root, u, v, d);
    }
  }

  lemma EmptySphere(db: Reader, avoid: set<Id>, root: Id, done: set<Id>, seen: set<Id>, d: nat)
    requires Frontier(db, avoid, root, done, [], seen, d)
    ensures d > 0
    ensures forall v :: v !in done && Within(db, avoid, root, v, d) ==> (var e: nat := d - 1; Within(db, avoid, root, v, e))
    ensures forall u, v :: u in done && v in Kids(db, u) && v !in avoid ==> v in done
  {
    assert root !in done && Within(db, avoid, root, root, 0);
    var e: nat := d - 1;
    forall v | v !in done && Within(db, avoid, root, v, d)
      ensures Within(db, avoid, root, v, e)
    {
      var none: seq<Id> := [];
      assert v !in none;
    }
  }

  /** `v` is below `root` and not below anything in `done`. */
  ghost predicate Beyond(db: Reader, avoid: set<Id>, root: Id, done: set<Id>, v: Id) {
    v !in done && Reaches(db, avoid, root, v)
  }

  /** `v` is one of those, more than `d` links down. */
  ghost predicate Outer(db: Reader, avoid: set<Id>, root: Id, done: set<Id>, d: nat, v: Id) {
    v !in avoid && Beyond(db, avoid, root, done, v) && !Within(db, avoid, root, v, d)
  }

  lemma NothingOuter(db: Reader, avoid: set<Id>, root: Id, done: set<Id>, seen: set<Id>, d: nat, v: Id)
    requires Frontier(db, avoid, root, done, [], seen, d)
    ensures !Outer(db, avoid, root, done, d, v)
  {
    if Beyond(db, avoid, root, done, v) {
      var n: nat :| Within(db, avoid, root, v, n);
      EmptySphereEnds(db, avoid, root, done, seen, d, v, n);
    }
  }

  lemma FrontierNext(db: Reader, avoid: set<Id>, root: Id, done: set<Id>, depth: nat, level: seq<Id>, seen: set<Id>, next: seq<Id>)
    requires depth > 0 && Frontier(db, avoid, root, done, level, seen, depth - 1)
    requires NextLevel(db, avoid, root, depth, level, seen) == Ok(next)
    ensures Frontier(db, avoid, root, done, next, seen + SetOf(next), depth)
    ensures Distinct(next)
  {
    NextLevelMembers(db, avoid, root, depth, level, seen);
    FrontierStep(db, avoid, root, done, level, seen, depth - 1, next);
  }

  lemma OuterSplit(db: Reader, avoid: set<Id>, root: Id, done: set<Id>, next: seq<Id>, seen: set<Id>, d: nat, v: Id)
    requires Frontier(db, avoid, root, done, next, seen, d + 1)
    ensures Outer(db, avoid, root, done, d, v) <==> v in next || Outer(db, avoid, root, done, d + 1, v)
    ensures !(v in next && Outer(db, avoid, root, done, d + 1, v))
  {
    if v in next {
      assert Reaches(db, avoid, root, v);
    }
  }

  lemma NoTree(db: Reader, avoid: set<Id>, root: Id, depth: nat, seen: set<Id>)
    ensures Tree(db, avoid, root, depth, [], seen) == Ok([])
    ensures Distinct<Id>([])
  {
  }

  /** A walk that succeeds, one level on. */
  lemma TreeStep(db: Reader, avoid: set<Id>, root: Id, depth: nat, level: seq<Id>, seen: set<Id>)
    requires depth <= MAX_SUBAGENT_DEPTH + 1 && level != []
    requires Tree(db, avoid, root, depth, level, seen).Ok?
    ensures var step := NextLevel(db, avoid, root, depth, level, seen);
      && step.Ok?
      && (depth + 1 <= MAX_SUBAGENT_DEPTH + 1 || step.value == [])
      && (var rest := Tree(db, avoid, root, depth + 1, step.value, seen + SetOf(step.value));
          rest.Ok? && Tree(db, avoid, root, depth, level, seen).value == step.value + rest.value)
  {
  }

  /** A walk that fails, at this level or further on. */
  lemma TreeFails(db: Reader, avoid: set<Id>, root: Id, depth: nat, level: seq<Id>, seen: set<Id>)
    requires depth <= MAX_SUBAGENT_DEPTH + 1 || level == []
    requires Tree(db, avoid, root, depth, level, seen).Err?
    ensures depth <= MAX_SUBAGENT_DEPTH + 1
    ensures var step := NextLevel(db, avoid, root, depth, level, seen);
      if step.Err? then Tree(db, avoid, root, depth, level, seen).error == step.error
      else
        && (depth + 1 <= MAX_SUBAGENT_DEPTH + 1 || step.value == [])
        && (var rest := Tree(db, avoid, root, depth + 1, step.value, seen + SetOf(step.value));
            rest.Err? && Tree(db, avoid, root, depth, level, seen).error == rest.error)
  {
  }

  /** The tree holds exactly the sessions further out, once each. */
  lemma {:induction false} TreeMembers(db: Reader, avoid: set<Id>, root: Id, depth: nat, level: seq<Id>, seen: set<Id>, done: set<Id>)
    requires 1 <= depth && (depth <= MAX_SUBAGENT_DEPTH + 1 || level == [])
    requires Frontier(db, avoid, root, done, level, seen, depth - 1)
    ensures var r := Tree(db, avoid, root, depth, level, seen);
      r.Ok? ==> Distinct(r.value) && forall v :: v in r.value <==> Outer(db, avoid, root, done, depth - 1, v)
    decreases MAX_SUBAGENT_DEPTH + 2 - depth
  {
    hide *;
    var d: nat := depth - 1;
    var r := Tree(db, avoid, root, depth, level, seen);
    if r.Ok? && level == [] {
      NoTree(db, avoid, root, depth, seen);
      forall v
        ensures !Outer(db, avoid, root, done, d, v)
      {
        NothingOuter(db, avoid, root, done, seen, d, v);
      }
    } else if r.Ok? {
      TreeStep(db, avoid, root, depth, level, seen);
      var next := NextLevel(db, avoid, root, depth, level, seen).value;
      FrontierNext(db, avoid, root, done, depth, level, seen, next);
      TreeMembers(db, avoid, root, depth + 1, next, seen + SetOf(next), done);
      var rest := Tree(db, avoid, root, depth + 1, next, seen + SetOf(next)).value;
      forall v {
        OuterSplit(db, avoid, root, done, next, seen + SetOf(next), d, v);
      }
      DistinctAppend(next, rest);
    }
  }

  /** A walk that succeeds read every session it reached. */
  lemma {:induction false} TreeReadable(db: Reader, avoid: set<Id>, root: Id, depth: nat, level: seq<Id>, seen: set<Id>, done: set<Id>, v: Id)
    requires 1 <= depth && (depth <= MAX_SUBAGENT_DEPTH + 1 || level == [])
    requires Frontier(db, avoid, root, done, level, seen, depth - 1)
    requires Tree(db, avoid, root, depth, level, seen).Ok?
    requires Beyond(db, avoid, root, done, v) && (depth > 1 ==> !Within(db, avoid, root, v, depth - 2))
    ensures db(v).Rows?
    decreases MAX_SUBAGENT_DEPTH + 2 - depth
  {
    if level == [] {
      var n: nat :| Within(db, avoid, root, v, n);
      EmptySphereEnds(db, avoid, root, done, seen, depth - 1, v, n);
    } else {
      var next := NextLevel(db, avoid, root, depth, level, seen).value;
      NextLevelMembers(db, avoid, root, depth, level, seen);
      FrontierNext(db, avoid, root, done, depth, level, seen, next);
      if Within(db, avoid, root, v, depth - 1) {
        assert v in level;
      } else {
        TreeReadable(db, avoid, root, depth + 1, next, seen + SetOf(next), done, v);
      }
    }
  }

  /** A walk that succeeds reached nothing deeper than the bound. */
  lemma {:induction false} TreeShallow(db: Reader, avoid: set<Id>, root: Id, depth: nat, level: seq<Id>, seen: set<Id>, done: set<Id>, v: Id)
    requires 1 <= depth <= MAX_SUBAGENT_DEPTH + 1
    requires Frontier(db, avoid, root, done, level, seen, depth - 1)
    requires Tree(db, avoid, root, depth, level, seen).Ok?
    requires Beyond(db, avoid, root, done, v)
    ensures Within(db, avoid, root, v, MAX_SUBAGENT_DEPTH)
    decreases MAX_SUBAGENT_DEPTH + 2 - depth
  {
    hide Within, Frontier, NextLevel;
    var n: nat :| Within(db, avoid, root, v, n);
    if level == [] {
      EmptySphereEnds(db, avoid, root, done, seen, depth - 1, v, n);
      WithinMonotone(db, avoid, root, v, depth - 2, MAX_SUBAGENT_DEPTH);
    } else {
      var next := NextLevel(db, avoid, root, depth, level, seen).value;
      FrontierNext(db, avoid, root, done, depth, level, seen, next);
      if depth == MAX_SUBAGENT_DEPTH + 1 {
        EmptySphereEnds(db, avoid, root, done, seen + SetOf(next), depth, v, n);
      } else {
        TreeShallow(db, avoid, root, depth + 1, next, seen + SetOf(next), done, v);
      }
    }
  }

  /** Something below `root` lies deeper than the bound. */
  ghost predicate DeepBelow(db: Reader, avoid: set<Id>, root: Id, done: set<Id>) {
    exists v :: Outer(db, avoid, root, done, MAX_SUBAGENT_DEPTH, v)
  }

  /** A refusal names its reason. */
  ghost predicate Justified(db: Reader, avoid: set<Id>, root: Id, done: set<Id>, e: Refusal) {
    match e
    case ReadFailed(u) => db(u).ReadError? && Beyond(db, avoid, root, done, u)
    case TooDeep(r) => r == root && DeepBelow(db, avoid, root, done)
  }

  lemma LevelRefusal(db: Reader, avoid: set<Id>, root: Id, depth: nat, level: seq<Id>, seen: set<Id>, done: set<Id>)
    requires 1 <= depth <= MAX_SUBAGENT_DEPTH + 1
    requires Frontier(db, avoid, root, done, level, seen, depth - 1)
    requires NextLevel(db, avoid, root, depth, level, seen).Err?
    ensures Justified(db, avoid, root, done, NextLevel(db, avoid, root, depth, level, seen).error)
  {
    hide Within, Frontier, NextLevel, Outer, Beyond, Met;
    NextLevelMembers(db, avoid, root, depth, level, seen);
    var d: nat := depth - 1;
    match NextLevel(db, avoid, root, depth, level, seen).error
    case ReadFailed(u) =>
      InLevel(db, avoid, root, done, level, seen, d, u);
    case TooDeep(r) =>
      assert d == MAX_SUBAGENT_DEPTH;
      var v :| Met(db, avoid, level, seen, v);
      MetIsOuter(db, avoid, root, done, level, seen, d, v);
  }

  lemma InLevel(db: Reader, avoid: set<Id>, root: Id, done: set<Id>, level: seq<Id>, seen: set<Id>, d: nat, u: Id)
    requires Frontier(db, avoid, root, done, level, seen, d) && u in level
    ensures Beyond(db, avoid, root, done, u)
  {
    assert Within(db, avoid, root, u, d);
  }

  lemma MetIsOuter(db: Reader, avoid: set<Id>, root: Id, done: set<Id>, level: seq<Id>, seen: set<Id>, d: nat, v: Id)
    requires Frontier(db, avoid, root, done, level, seen, d) && Met(db, avoid, level, seen, v)
    ensures Outer(db, avoid, root, done, d, v)
  {
    MetIsNextSphere(db, avoid, root, done, level, seen, d, v);
    assert Within(db, avoid, root, v, d + 1);
  }

  lemma {:induction false} TreeRefusal(db: Reader, avoid: set<Id>, root: Id, depth: nat, level: seq<Id>, seen: set<Id>, done: set<Id>)
    requires 1 <= depth && (depth <= MAX_SUBAGENT_DEPTH + 1 || level == [])
    requires Frontier(db, avoid, root, done, level, seen, depth - 1)
    requires Tree(db, avoid, root, depth, level, seen).Err?
    ensures Justified(db, avoid, root, done, Tree(db, avoid, root, depth, level, seen).error)
    decreases MAX_SUBAGENT_DEPTH + 2 - depth
  {
    hide *;
    TreeFails(db, avoid, root, depth, level, seen);
    var step := NextLevel(db, avoid, root, depth, level, seen);
    if step.Err? {
      LevelRefusal(db, avoid, root, depth, level, seen, done);
    } else {
      FrontierNext(db, avoid, root, done, depth, level, seen, step.value);
      TreeRefusal(db, avoid, root, depth + 1, step.value, seen + SetOf(step.value), done);
    }
  }

  /** Farther sessions come later. */
  ghost predicate NearestFirst(db: Reader, avoid: set<Id>, root: Id, tree: seq<Id>) {
    forall i, j, n: nat :: 0 <= i < j < |tree| && Within(db, avoid, root, tree[j], n)
      ==> Within(db, avoid, root, tree[i], n)
  }

  lemma NearestFirstNil(db: Reader, avoid: set<Id>, root: Id)
    ensures NearestFirst(db, avoid, root, [])
  {
  }

  lemma NearestFirstJoin(db: Reader, avoid: set<Id>, root: Id, d: nat, next: seq<Id>, rest: seq<Id>)
    requires forall v :: v in next ==> Within(db, avoid, root, v, d + 1) && !Within(db, avoid, root, v, d)
    requires forall v :: v in rest ==> !Within(db, avoid, root, v, d + 1)
    requires NearestFirst(db, avoid, root, rest)
    ensures NearestFirst(db, avoid, root, next + rest)
  {
    var tree := next + rest;
    forall i, j, n: nat | 0 <= i < j < |tree| && Within(db, avoid, root, tree[j], n)
      ensures Within(db, avoid, root, tree[i], n)
    {
      if i < |next| {
        assert tree[j] in next || tree[j] in rest;
        if n <= d {
          WithinMonotone(db, avoid, root, tree[j], n, d);
          assert false;
        }
        WithinMonotone(db, avoid, root, tree[i], d + 1, n);
      } else {
        assert tree[i] == rest[i - |next|] && tree[j] == rest[j - |next|];
      }
    }
  }

  lemma SphereFirst(db: Reader, avoid: set<Id>, root: Id, done: set<Id>, seen: set<Id>, d: nat, next: seq<Id>, rest: seq<Id>)
    requires Frontier(db, avoid, root, done, next, seen, d + 1)
    requires forall v :: v in rest <==> Outer(db, avoid, root, done, d + 1, v)
    requires NearestFirst(db, avoid, root, rest)
    ensures NearestFirst(db, avoid, root, next + rest)
  {
    NearestFirstJoin(db, avoid, root, d, next, rest);
  }

  lemma {:induction false} TreeNearestFirst(db: Reader, avoid: set<Id>, root: Id, depth: nat, level: seq<Id>, seen: set<Id>, done: set<Id>)
    requires 1 <= depth && (depth <= MAX_SUBAGENT_DEPTH + 1 || level == [])
    requires Frontier(db, avoid, root, done, level, seen, depth - 1)
    requires Tree(db, avoid, root, depth, level, seen).Ok?
    ensures NearestFirst(db, avoid, root, Tree(db, avoid, root, depth, level, seen).value)
    decreases MAX_SUBAGENT_DEPTH + 2 - depth
  {
    hide *;
    if level == [] {
      NoTree(db, avoid, root, depth, seen);
      NearestFirstNil(db, avoid, root);
    } else {
      TreeStep(db, avoid, root, depth, level, seen);
      var next := NextLevel(db, avoid, root, depth, level, seen).value;
      FrontierNext(db, avoid, root, done, depth, level, seen, next);
      TreeMembers(db, avoid, root, depth + 1, next, seen + SetOf(next), done);
      TreeNearestFirst(db, avoid, root, depth + 1, next, seen + SetOf(next), done);
      var rest := Tree(db, avoid, root, depth + 1, next, seen + SetOf(next)).value;
      SphereFirst(db, avoid, root, done, seen + SetOf(next), depth - 1, next, rest);
    }
  }

  // ----- all roots -----

  ghost predicate EarlierReaches(db: Reader, requested: seq<Id>, k: nat, v: Id)
    requires k <= |requested|
  {
    exists j :: 0 <= j < k && Reaches(db, SetOf(requested), requested[j], v)
  }

  /** `requested[k]` is the first requested session, in request order, that
      reaches `v` without passing another requested session. */
  ghost predicate Owns(db: Reader, requested: seq<Id>, k: nat, v: Id)
    requires k < |requested|
  {
    && v !in requested
    && Reaches(db, SetOf(requested), requested[k], v)
    && !EarlierReaches(db, requested, k, v)
  }

  /** The tree under `requested[k]`: what that session owns, once each, nearest
      first, all of it readable and within the depth bound. */
  ghost predicate TreeOf(db: Reader, requested: seq<Id>, k: nat, tree: seq<Id>)
    requires k < |requested|
  {
    && Distinct(tree)
    && (forall v :: v in tree <==> Owns(db, requested, k, v))
    && NearestFirst(db, SetOf(requested), requested[k], tree)
    && (forall v :: v in tree ==> Within(db, SetOf(requested), requested[k], v, MAX_SUBAGENT_DEPTH))
    && db(requested[k]).Rows?
    && (forall v :: v in tree ==> db(v).Rows?)
  }

  ghost predicate SeenIsEarlier(db: Reader, requested: seq<Id>, k: nat, seen: set<Id>)
    requires k <= |requested|
  {
    forall v :: v !in requested ==> (v in seen <==> EarlierReaches(db, requested, k, v))
  }

  lemma StartFrontier(db: Reader, requested: seq<Id>, k: nat, seen: set<Id>)
    requires k < |requested| && SeenIsEarlier(db, requested, k, seen)
    ensures var avoid, root := SetOf(requested), requested[k];
      Frontier(db, avoid, root, seen - avoid, [root], seen + {root}, 0)
  {
    var avoid, root := SetOf(requested), requested[k];
    forall u, v | u in seen - avoid && v in Kids(db, u) && v !in avoid
      ensures v in seen - avoid
    {
      var j :| 0 <= j < k && Reaches(db, avoid, requested[j], u);
      ReachesStep(db, avoid, requested[j], u, v);
    }
  }

  lemma OuterIsOwned(db: Reader, requested: seq<Id>, k: nat, seen: set<Id>, v: Id)
    requires k < |requested| && SeenIsEarlier(db, requested, k, seen)
    ensures var avoid := SetOf(requested);
      Outer(db, avoid, requested[k], seen - avoid, 0, v) <==> Owns(db, requested, k, v)
  {
  }

  lemma RootTree(db: Reader, requested: seq<Id>, k: nat, seen: set<Id>)
    requires k < |requested| && SeenIsEarlier(db, requested, k, seen)
    requires Tree(db, SetOf(requested), requested[k], 1, [requested[k]], seen + {requested[k]}).Ok?
    ensures var tree := Tree(db, SetOf(requested), requested[k], 1, [requested[k]], seen + {requested[k]}).value;
      TreeOf(db, requested, k, tree)
  {
    var avoid, root := SetOf(requested), requested[k];
    var done := seen - avoid;
    StartFrontier(db, requested, k, seen);
    TreeMembers(db, avoid, root, 1, [root], seen + {root}, done);
    TreeNearestFirst(db, avoid, root, 1, [root], seen + {root}, done);
    forall v {
      OuterIsOwned(db, requested, k, seen, v);
    }
    assert Within(db, avoid, root, root, 0);
    TreeReadable(db, avoid, root, 1, [root], seen + {root}, done, root);
    forall v | Owns(db, requested, k, v)
      ensures db(v).Rows? && Within(db, avoid, root, v, MAX_SUBAGENT_DEPTH)
    {
      TreeReadable(db, avoid, root, 1, [root], seen + {root}, done, v);
      TreeShallow(db, avoid, root, 1, [root], seen + {root}, done, v);
    }
  }

  lemma SeenStep(db: Reader, requested: seq<Id>, k: nat, seen: set<Id>, tree: seq<Id>)
    requires k < |requested| && SeenIsEarlier(db, requested, k, seen)
    requires forall v :: v in tree <==> Owns(db, requested, k, v)
    ensures SeenIsEarlier(db, requested, k + 1, seen + {requested[k]} + SetOf(tree))
  {
    forall v | v !in requested
      ensures EarlierReaches(db, requested, k + 1, v) <==>
              EarlierReaches(db, requested, k, v) || Owns(db, requested, k, v)
    {
      if EarlierReaches(db, requested, k + 1, v) && !EarlierReaches(db, requested, k, v) {
        var j :| 0 <= j < k + 1 && Reaches(db, SetOf(requested), requested[j], v);
        assert j == k;
      }
    }
  }

  /** A refusal of the whole run: some session below a request cannot be read,
      or lies deeper than the bound below the request that owns it. */
  ghost predicate Blocked(db: Reader, requested: seq<Id>, e: Refusal) {
    match e
    case ReadFailed(u) =>
      db(u).ReadError? && exists r :: r in requested && Reaches(db, SetOf(requested), r, u)
    case TooDeep(r) =>
      exists k, v :: 0 <= k < |requested| && requested[k] == r && Owns(db, requested, k, v)
        && !Within(db, SetOf(requested), r, v, MAX_SUBAGENT_DEPTH)
  }

  /** `blocks` answers for the requests from position `k` on. */
  ghost predicate BlocksFrom(db: Reader, requested: seq<Id>, k: nat, blocks: seq<Block>) {
    && k + |blocks| == |requested|
    && (forall i :: 0 <= i < |blocks| ==> blocks[i].root == requested[k + i]
                                          && TreeOf(db, requested, k + i, blocks[i].tree))
  }

  lemma BlocksFromCons(db: Reader, requested: seq<Id>, k: nat, tree: seq<Id>, rest: seq<Block>)
    requires k < |requested| && TreeOf(db, requested, k, tree) && BlocksFrom(db, requested, k + 1, rest)
    ensures BlocksFrom(db, requested, k, [Block(requested[k], tree)] + rest)
  {
    var blocks := [Block(requested[k], tree)] + rest;
    forall i | 0 <= i < |blocks|
      ensures blocks[i].root == requested[k + i] && TreeOf(db, requested, k + i, blocks[i].tree)
    {
      if i > 0 {
        assert blocks[i] == rest[i - 1] && k + i == (k + 1) + (i - 1);
      }
    }
  }

  lemma {:induction false} ForestExact(db: Reader, requested: seq<Id>, k: nat, seen: set<Id>)
    requires k <= |requested| && SeenIsEarlier(db, requested, k, seen)
    ensures var r := Forest(db, SetOf(requested), requested[k..], seen);
      && (r.Ok? ==> BlocksFrom(db, requested, k, r.value))
      && (r.Err? ==> Blocked(db, requested, r.error))
    decreases |requested| - k, 1
  {
    if k < |requested| {
      var avoid, root := SetOf(requested), requested[k];
      assert requested[k..][1..] == requested[k + 1..] && requested[k..][0] == root;
      var walk := Tree(db, avoid, root, 1, [root], seen + {root});
      if walk.Err? {
        RootRefusal(db, requested, k, seen);
      } else {
        ForestRest(db, requested, k, seen, walk.value);
      }
    }
  }

  lemma {:induction false} ForestRest(db: Reader, requested: seq<Id>, k: nat, seen: set<Id>, tree: seq<Id>)
    requires k < |requested| && SeenIsEarlier(db, requested, k, seen)
    requires Tree(db, SetOf(requested), requested[k], 1, [requested[k]], seen + {requested[k]}) == Ok(tree)
    ensures var r := After([Block(requested[k], tree)],
                           Forest(db, SetOf(requested), requested[k + 1..], seen + {requested[k]} + SetOf(tree)));
      && (r.Ok? ==> BlocksFrom(db, requested, k, r.value))
      && (r.Err? ==> Blocked(db, requested, r.error))
    decreases |requested| - k, 0
  {
    RootTree(db, requested, k, seen);
    SeenStep(db, requested, k, seen, tree);
    var rest := Forest(db, SetOf(requested), requested[k + 1..], seen + {requested[k]} + SetOf(tree));
    ForestExact(db, requested, k + 1, seen + {requested[k]} + SetOf(tree));
    if rest.Ok? {
      BlocksFromCons(db, requested, k, tree, rest.value);
    }
  }

  lemma RootRefusal(db: Reader, requested: seq<Id>, k: nat, seen: set<Id>)
    requires k < |requested| && SeenIsEarlier(db, requested, k, seen)
    requires Tree(db, SetOf(requested), requested[k], 1, [requested[k]], seen + {requested[k]}).Err?
    ensures Blocked(db, requested,
                    Tree(db, SetOf(requested), requested[k], 1, [requested[k]], seen + {requested[k]}).error)
  {
    var avoid, root := SetOf(requested), requested[k];
    var done := seen - avoid;
    StartFrontier(db, requested, k, seen);
    TreeRefusal(db, avoid, root, 1, [root], seen + {root}, done);
    match Tree(db, avoid, root, 1, [root], seen + {root}).error
    case ReadFailed(u) =>
      assert root in requested;
    case TooDeep(r) =>
      var v :| Outer(db, avoid, root, done, MAX_SUBAGENT_DEPTH, v);
      if Within(db, avoid, root, v, 0) {
        WithinMonotone(db, avoid, root, v, 0, MAX_SUBAGENT_DEPTH);
      }
      OuterIsOwned(db, requested, k, seen, v);
  }

  // ----- main results -----

  ghost predicate Below(db: Reader, requested: seq<Id>, v: Id) {
    exists r :: r in requested && Reaches(db, {}, r, v)
  }

  /** The last requested session on a path from a request owns the rest of it. */
  lemma {:induction false} LastRequestOnPath(db: Reader, requested: seq<Id>, r: Id, v: Id, n: nat)
    requires r in requested && Within(db, {}, r, v, n)
    ensures exists k :: 0 <= k < |requested| && Reaches(db, SetOf(requested), requested[k], v)
    decreases n
  {
    if v in requested {
      var k :| 0 <= k < |requested| && requested[k] == v;
      assert Within(db, SetOf(requested), requested[k], v, 0);
    } else if Within(db, {}, r, v, n - 1) {
      LastRequestOnPath(db, requested, r, v, n - 1);
    } else {
      var u :| Within(db, {}, r, u, n - 1) && v in Kids(db, u);
      LastRequestOnPath(db, requested, r, u, n - 1);
      var k :| 0 <= k < |requested| && Reaches(db, SetOf(requested), requested[k], u);
      ReachesStep(db, SetOf(requested), requested[k], u, v);
    }
  }

  lemma WithinNone(db: Reader, avoid: set<Id>, root: Id, v: Id)
    requires Within(db, avoid, root, v, 0)
    ensures Within(db, {}, root, v, 0)
  {
  }

  lemma {:induction false} WithinAnyway(db: Reader, avoid: set<Id>, root: Id, v: Id, n: nat)
    requires Within(db, avoid, root, v, n)
    ensures Within(db, {}, root, v, n)
    decreases n
  {
    hide Within;
    if n == 0 {
      WithinNone(db, avoid, root, v);
    } else {
      if Within(db, avoid, root, v, n - 1) {
        WithinAnyway(db, avoid, root, v, n - 1);
        WithinMonotone(db, {}, root, v, n - 1, n);
      } else {
        var u := LastLink(db, avoid, root, v, n);
        WithinAnyway(db, avoid, root, u, n - 1);
        WithinStep(db, {}, root, u, v, n);
      }
    }
  }

  lemma {:induction false} FirstOwner(db: Reader, requested: seq<Id>, k: nat, v: Id)
    requires k < |requested| && v !in requested && Reaches(db, SetOf(requested), requested[k], v)
    ensures exists j :: 0 <= j <= k && Owns(db, requested, j, v)
    decreases k
  {
    if EarlierReaches(db, requested, k, v) {
      var j :| 0 <= j < k && Reaches(db, SetOf(requested), requested[j], v);
      FirstOwner(db, requested, j, v);
    } else {
      assert Owns(db, requested, k, v);
    }
  }

  /** Everything below a request is a request or has an owner, and nothing else does. */
  lemma BelowIsOwned(db: Reader, requested: seq<Id>, v: Id)
    ensures Below(db, requested, v) <==>
            v in requested || exists k :: 0 <= k < |requested| && Owns(db, requested, k, v)
  {
    if Below(db, requested, v) && v !in requested {
      var r :| r in requested && Reaches(db, {}, r, v);
      var n: nat :| Within(db, {}, r, v, n);
      LastRequestOnPath(db, requested, r, v, n);
      var k :| 0 <= k < |requested| && Reaches(db, SetOf(requested), requested[k], v);
      FirstOwner(db, requested, k, v);
    }
    if v in requested {
      assert Within(db, {}, v, v, 0);
    }
    if k :| 0 <= k < |requested| && Owns(db, requested, k, v) {
      var n: nat :| Within(db, SetOf(requested), requested[k], v, n);
      WithinAnyway(db, SetOf(requested), requested[k], v, n);
      assert requested[k] in requested && Reaches(db, {}, requested[k], v);
    }
  }

  ghost predicate AllReadable(db: Reader, requested: seq<Id>) {
    forall v :: Below(db, requested, v) ==> db(v).Rows?
  }

  /** Every session is within the depth bound of the request that owns it. */
  ghost predicate AllShallow(db: Reader, requested: seq<Id>) {
    forall k, v :: 0 <= k < |requested| && Owns(db, requested, k, v)
      ==> Within(db, SetOf(requested), requested[k], v, 64)
  }

  ghost predicate BlocksExact(db: Reader, requested: seq<Id>, blocks: seq<Block>) {
    && |blocks| == |requested|
    && (forall i :: 0 <= i < |blocks| ==> blocks[i].root == requested[i] && TreeOf(db, requested, i, blocks[i].tree))
  }

  lemma WalkExact(db: Reader, requested: seq<Id>)
    ensures var r := Forest(db, SetOf(requested), requested, {});
      && (r.Ok? ==> BlocksExact(db, requested, r.value))
      && (r.Err? ==> Blocked(db, requested, r.error))
  {
    assert requested[0..] == requested;
    ForestExact(db, requested, 0, {});
  }

  /** The walk succeeds exactly when everything below the requests can be read
      and lies within the depth bound, whatever --without-subagents says. */
  lemma {:induction false} SucceedsIff(db: Reader, requested: seq<Id>, without: bool)
    ensures Expand(db, requested, without).Ok? <==> AllReadable(db, requested) && AllShallow(db, requested)
  {
    WalkExact(db, requested);
    match Forest(db, SetOf(requested), requested, {})
    case Ok(blocks) =>
      forall v | Below(db, requested, v)
        ensures db(v).Rows?
      {
        BelowIsOwned(db, requested, v);
        if v in requested {
          var k :| 0 <= k < |requested| && requested[k] == v;
          assert TreeOf(db, requested, k, blocks[k].tree);
        } else {
          var k :| 0 <= k < |requested| && Owns(db, requested, k, v);
          assert TreeOf(db, requested, k, blocks[k].tree);
        }
      }
      forall k, v | 0 <= k < |requested| && Owns(db, requested, k, v)
        ensures Within(db, SetOf(requested), requested[k], v, MAX_SUBAGENT_DEPTH)
      {
        assert TreeOf(db, requested, k, blocks[k].tree) && v in blocks[k].tree;
      }
    case Err(ReadFailed(u)) =>
      var r :| r in requested && Reaches(db, SetOf(requested), r, u);
      var n: nat :| Within(db, SetOf(requested), r, u, n);
      WithinAnyway(db, SetOf(requested), r, u, n);
      assert Below(db, requested, u);
    case Err(TooDeep(_)) =>
  }
}
