/** The expansion of a push selection: every requested session, followed by the
    whole tree of subagent sessions it pulls in (cmd/peasant/cmd_push_selection.go).

    The functions give the walk as a value; `ExpandSubagents` is the loop over
    maps and slices, proved to compute it; SubagentTheorems proves what the walk
    promises about the child relation. */
module SubagentClosure {
  import opened Wrappers

  type Id = string

  const MAX_SUBAGENT_DEPTH := 64

  /** One answer of the store: the children of a session, or a failed read. */
  datatype Rows = Rows(ids: seq<Id>) | ReadError

  type Reader = Id -> Rows

  datatype Refusal = ReadFailed(id: Id) | TooDeep(root: Id)

  /** A selected session; `parent` is "" for a session named directly. */
  datatype Session = Session(id: Id, parent: Id)

  datatype Expansion = Expansion(sessions: seq<Session>, omitted: map<Id, nat>)

  /** A requested session and the sessions pulled in under it, in order. */
  datatype Block = Block(root: Id, tree: seq<Id>)

  function Kids(db: Reader, id: Id): seq<Id> {
    if db(id).Rows? then db(id).ids else []
  }

  /** The ids of `kids` outside `blocked`, each at its first occurrence. */
  function Fresh(kids: seq<Id>, blocked: set<Id>): seq<Id> {
    if kids == [] then []
    else if kids[0] in blocked then Fresh(kids[1..], blocked)
    else [kids[0]] + Fresh(kids[1..], blocked + {kids[0]})
  }

  /** What was collected so far, followed by what is still to come. */
  function After<T>(done: seq<T>, rest: Result<seq<T>, Refusal>): Result<seq<T>, Refusal> {
    match rest
    case Err(e) => Err(e)
    case Ok(more) => Ok(done + more)
  }

  /** The sessions first met below `level`. */
  function NextLevel(db: Reader, direct: set<Id>, root: Id, depth: nat, level: seq<Id>, seen: set<Id>)
      : (r: Result<seq<Id>, Refusal>)
    ensures r.Ok? && depth > MAX_SUBAGENT_DEPTH ==> r.value == []
  {
    if level == [] then Ok([])
    else match db(level[0])
      case ReadError => Err(ReadFailed(level[0]))
      case Rows(kids) =>
        var firsts := Fresh(kids, direct + seen);
        if firsts != [] && depth > MAX_SUBAGENT_DEPTH then Err(TooDeep(root))
        else After(firsts, NextLevel(db, direct, root, depth, level[1..], seen + SetOf(firsts)))
  }

  /** The sessions below `level`, level by level; `depth` is the depth of the next level. */
  function Tree(db: Reader, direct: set<Id>, root: Id, depth: nat, level: seq<Id>, seen: set<Id>)
      : Result<seq<Id>, Refusal>
    requires depth <= MAX_SUBAGENT_DEPTH + 1 || level == []
    decreases MAX_SUBAGENT_DEPTH + 2 - depth
  {
    if level == [] then Ok([])
    else match NextLevel(db, direct, root, depth, level, seen)
      case Err(e) => Err(e)
      case Ok(next) => After(next, Tree(db, direct, root, depth + 1, next, seen + SetOf(next)))
  }

  function Forest(db: Reader, direct: set<Id>, requested: seq<Id>, seen: set<Id>): Result<seq<Block>, Refusal> {
    if requested == [] then Ok([])
    else
      var root := requested[0];
      match Tree(db, direct, root, 1, [root], seen + {root})
      case Err(e) => Err(e)
      case Ok(tree) =>
        After([Block(root, tree)], Forest(db, direct, requested[1..], seen + {root} + SetOf(tree)))
  }

  function Under(root: Id, tree: seq<Id>): (s: seq<Session>)
    ensures |s| == |tree|
    ensures forall i :: 0 <= i < |s| ==> s[i] == Session(tree[i], root)
  {
    seq(|tree|, i requires 0 <= i < |tree| => Session(tree[i], root))
  }

  function SessionsOf(blocks: seq<Block>, withoutSubagents: bool): seq<Session> {
    if blocks == [] then []
    else
      [Session(blocks[0].root, "")]
      + (if withoutSubagents then [] else Under(blocks[0].root, blocks[0].tree))
      + SessionsOf(blocks[1..], withoutSubagents)
  }

  function Count(m: map<Id, nat>, id: Id): nat {
    if id in m then m[id] else 0
  }

  function Bump(m: map<Id, nat>, id: Id, more: nat): map<Id, nat> {
    if more == 0 then m else m[id := Count(m, id) + more]
  }

  function OmittedOf(blocks: seq<Block>): map<Id, nat> {
    if blocks == [] then map[]
    else
      var last := blocks[|blocks| - 1];
      Bump(OmittedOf(blocks[..|blocks| - 1]), last.root, |last.tree|)
  }

  function Assemble(blocks: seq<Block>, withoutSubagents: bool): Expansion {
    Expansion(SessionsOf(blocks, withoutSubagents), if withoutSubagents then OmittedOf(blocks) else map[])
  }

  /** What the walk answers, for either value of --without-subagents. */
  function Expand(db: Reader, requested: seq<Id>, withoutSubagents: bool): Result<Expansion, Refusal> {
    match Forest(db, SetOf(requested), requested, {})
    case Err(e) => Err(e)
    case Ok(blocks) => Ok(Assemble(blocks, withoutSubagents))
  }

  // ----- the loop -----

  lemma AfterNil<T>(rest: Result<seq<T>, Refusal>)
    ensures After([], rest) == rest
  {
    if rest.Ok? {
      assert [] + rest.value == rest.value;
    }
  }

  lemma AfterAfter<T>(a: seq<T>, b: seq<T>, rest: Result<seq<T>, Refusal>)
    ensures After(a, After(b, rest)) == After(a + b, rest)
  {
    if rest.Ok? {
      assert a + (b + rest.value) == (a + b) + rest.value;
    }
  }

  lemma SessionsOfAppend(a: seq<Block>, b: Block, without: bool)
    ensures SessionsOf(a + [b], without) == SessionsOf(a, without) + SessionsOf([b], without)
  {
    if a == [] {
      assert a + [b] == [b];
    } else {
      assert (a + [b])[1..] == a[1..] + [b];
      SessionsOfAppend(a[1..], b, without);
    }
  }

  /** The selection once `tree` was met under `root`, from what it was before that root. */
  function Grown(before: Expansion, root: Id, tree: seq<Id>, without: bool): Expansion {
    Expansion(
      before.sessions + [Session(root, "")] + (if without then [] else Under(root, tree)),
      if without then Bump(before.omitted, root, |tree|) else before.omitted)
  }

  lemma GrownSnoc(before: Expansion, root: Id, tree: seq<Id>, child: Id, without: bool)
    ensures Grown(before, root, tree + [child], without)
         == (var e := Grown(before, root, tree, without);
             if without then e.(omitted := e.omitted[root := Count(e.omitted, root) + 1])
             else e.(sessions := e.sessions + [Session(child, root)]))
  {
    assert Under(root, tree + [child]) == Under(root, tree) + [Session(child, root)];
  }

  lemma AssembleSnoc(blocks: seq<Block>, b: Block, without: bool)
    ensures Assemble(blocks + [b], without) == Grown(Assemble(blocks, without), b.root, b.tree, without)
  {
    SessionsOfAppend(blocks, b, without);
    assert [b][1..] == [];
    assert (blocks + [b])[..|blocks|] == blocks;
  }

  /** One more id of a list: skipped, or the first of what is new. */
  lemma FreshStep(children: seq<Id>, j: nat, blocked: set<Id>)
    requires j < |children|
    ensures children[j] in blocked ==> Fresh(children[j..], blocked) == Fresh(children[j + 1..], blocked)
    ensures children[j] !in blocked ==>
              Fresh(children[j..], blocked) == [children[j]] + Fresh(children[j + 1..], blocked + {children[j]})
  {
    assert children[j..][1..] == children[j + 1..];
  }

  /** The innermost loop: the children of one session. `tree` is what the walk
      under `root` met so far. */
  method AddChildren(children: seq<Id>, direct: set<Id>, root: Id, depth: nat, withoutSubagents: bool,
                     seenBefore: set<Id>, nextBefore: seq<Id>, outBefore: Expansion,
                     ghost before: Expansion, ghost tree: seq<Id>)
      returns (refused: bool, seen: set<Id>, next: seq<Id>, out: Expansion)
    requires outBefore == Grown(before, root, tree, withoutSubagents)
    ensures var firsts := Fresh(children, direct + seenBefore);
      && (refused <==> firsts != [] && depth > MAX_SUBAGENT_DEPTH)
      && (!refused ==> seen == seenBefore + SetOf(firsts) && next == nextBefore + firsts
                       && out == Grown(before, root, tree + firsts, withoutSubagents))
  {
    hide Grown, Under;
    refused, seen, next, out := false, seenBefore, nextBefore, outBefore;
    ghost var added: seq<Id> := [];
    assert tree + [] == tree && children[0..] == children;
    for j := 0 to |children|
      invariant !refused
      invariant Fresh(children, direct + seenBefore) == added + Fresh(children[j..], direct + seen)
      invariant next == nextBefore + added
      invariant seen == seenBefore + SetOf(added)
      invariant depth > MAX_SUBAGENT_DEPTH ==> added == []
      invariant out == Grown(before, root, tree + added, withoutSubagents)
    {
      var child := children[j];
      FreshStep(children, j, direct + seen);
      if child in direct || child in seen {
        continue;
      }
      if depth > MAX_SUBAGENT_DEPTH {
        refused := true;
        return;
      }
      assert direct + seen + {child} == direct + (seen + {child});
      GrownSnoc(before, root, tree + added, child, withoutSubagents);
      assert tree + added + [child] == tree + (added + [child]);
      seen := seen + {child};
      next := next + [child];
      added := added + [child];
      if withoutSubagents {
        out := out.(omitted := out.omitted[root := Count(out.omitted, root) + 1]);
        continue;
      }
      out := out.(sessions := out.sessions + [Session(child, root)]);
    }
    assert Fresh(children, direct + seenBefore) == added;
  }

  /** The loop over one level. */
  method ReadLevel(db: Reader, direct: set<Id>, root: Id, depth: nat, withoutSubagents: bool, level: seq<Id>,
                   seenBefore: set<Id>, outBefore: Expansion, ghost before: Expansion, ghost tree: seq<Id>)
      returns (r: Result<seq<Id>, Refusal>, seen: set<Id>, out: Expansion)
    requires outBefore == Grown(before, root, tree, withoutSubagents)
    ensures r == NextLevel(db, direct, root, depth, level, seenBefore)
    ensures r.Ok? ==> seen == seenBefore + SetOf(r.value)
                      && out == Grown(before, root, tree + r.value, withoutSubagents)
  {
    seen, out := seenBefore, outBefore;
    var next: seq<Id> := [];
    assert tree + [] == tree && level[0..] == level;
    AfterNil(NextLevel(db, direct, root, depth, level, seen));
    for k := 0 to |level|
      invariant NextLevel(db, direct, root, depth, level, seenBefore)
             == After(next, NextLevel(db, direct, root, depth, level[k..], seen))
      invariant seen == seenBefore + SetOf(next)
      invariant out == Grown(before, root, tree + next, withoutSubagents)
    {
      assert level[k..][1..] == level[k + 1..];
      var rows := db(level[k]);
      if rows.ReadError? {
        return Err(ReadFailed(level[k])), seen, out;
      }
      ghost var firsts := Fresh(rows.ids, direct + seen);
      var refused;
      ghost var known := next;
      AfterAfter(next, firsts, NextLevel(db, direct, root, depth, level[k + 1..], seen + SetOf(firsts)));
      refused, seen, next, out := AddChildren(rows.ids, direct, root, depth, withoutSubagents,
                                              seen, next, out, before, tree + next);
      if refused {
        return Err(TooDeep(root)), seen, out;
      }
      assert tree + known + firsts == tree + next;
    }
    assert next + [] == next;
    r := Ok(next);
  }

  /** The walk below one requested session, level by level. */
  method WalkTree(db: Reader, direct: set<Id>, root: Id, withoutSubagents: bool,
                  seenBefore: set<Id>, outBefore: Expansion, ghost before: Expansion)
      returns (refused: Option<Refusal>, seen: set<Id>, out: Expansion, ghost tree: seq<Id>)
    requires outBefore == Grown(before, root, [], withoutSubagents)
    ensures refused.Some? ==> Tree(db, direct, root, 1, [root], seenBefore) == Err(refused.value)
    ensures refused.None? ==>
              && Tree(db, direct, root, 1, [root], seenBefore) == Ok(tree)
              && seen == seenBefore + SetOf(tree)
              && out == Grown(before, root, tree, withoutSubagents)
  {
    hide Grown, NextLevel;
    seen, out, tree := seenBefore, outBefore, [];
    var level, depth := [root], 1;
    AfterNil(Tree(db, direct, root, 1, [root], seen));
    while |level| > 0
      invariant 1 <= depth <= MAX_SUBAGENT_DEPTH + 2
      invariant depth <= MAX_SUBAGENT_DEPTH + 1 || level == []
      invariant Tree(db, direct, root, 1, [root], seenBefore)
             == After(tree, Tree(db, direct, root, depth, level, seen))
      invariant seen == seenBefore + SetOf(tree)
      invariant out == Grown(before, root, tree, withoutSubagents)
      decreases MAX_SUBAGENT_DEPTH + 2 - depth
    {
      var next;
      next, seen, out := ReadLevel(db, direct, root, depth, withoutSubagents, level, seen, out, before, tree);
      if next.Err? {
        return Some(next.error), seen, out, tree;
      }
      AfterAfter(tree, next.value, Tree(db, direct, root, depth + 1, next.value, seen));
      tree := tree + next.value;
      level, depth := next.value, depth + 1;
    }
    assert tree + [] == tree;
    refused := None;
  }

  method ExpandSubagents(db: Reader, requested: seq<Id>, withoutSubagents: bool)
      returns (r: Result<Expansion, Refusal>)
    ensures r == Expand(db, requested, withoutSubagents)
  {
    var direct: set<Id> := {};
    for i := 0 to |requested|
      invariant direct == SetOf(requested[..i])
    {
      direct := direct + {requested[i]};
    }
    assert requested[..|requested|] == requested == requested[0..];
    AfterNil(Forest(db, direct, requested, {}));
    var out := Expansion([], map[]);
    var seen: set<Id> := {};
    ghost var blocks: seq<Block> := [];
    for i := 0 to |requested|
      invariant Forest(db, direct, requested, {}) == After(blocks, Forest(db, direct, requested[i..], seen))
      invariant out == Assemble(blocks, withoutSubagents)
    {
      var root := requested[i];
      assert requested[i..][1..] == requested[i + 1..];
      ghost var before := out;
      out := out.(sessions := out.sessions + [Session(root, "")]);
      seen := seen + {root};
      assert out == Grown(before, root, [], withoutSubagents);
      var refused;
      ghost var tree;
      refused, seen, out, tree := WalkTree(db, direct, root, withoutSubagents, seen, out, before);
      if refused.Some? {
        return Err(refused.value);
      }
      AssembleSnoc(blocks, Block(root, tree), withoutSubagents);
      AfterAfter(blocks, [Block(root, tree)], Forest(db, direct, requested[i + 1..], seen));
      blocks := blocks + [Block(root, tree)];
    }
    assert blocks + [] == blocks;
    r := Ok(out);
  }
}
