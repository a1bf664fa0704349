/** What the auto-publish rules decide for one push, and the question asked
    before an update goes out (cmd/peasant/cmd_push_auto_publish.go;
    internal/push/pipeline.go for where it is asked). */
module AutoPublish {
  import opened Wrappers

  type Id = string
  type Collective = string
  type RuleId = string
  type Repository = string

  /** The pair a repository is derived from. */
  datatype RepositoryKey = RepositoryKey(path: string, remote: string)

  datatype Candidate = Candidate(id: Id, at: RepositoryKey)

  datatype Decision =
    | Unbound
    | Paused(rules: seq<RuleId>)
    | Publishes(collectives: seq<Collective>, rules: seq<RuleId>)

  /** How a repository is found, and what the rules say about one. */
  datatype Oracle = Oracle(find: RepositoryKey -> Repository, decide: Repository -> Decision)

  function Decided(o: Oracle, c: Candidate): Decision {
    o.decide(o.find(c.at))
  }

  /** `pinned` is None when there is no rule at all. */
  datatype Plan = Plan(
    pinned: Option<set<Id>>,
    collectives: map<Id, seq<Collective>>,
    rules: seq<RuleId>,
    held: map<Id, seq<RuleId>>,
    unbound: nat)

  predicate Bound(p: Plan) {
    p.collectives != map[] || p.held != map[]
  }

  /** The rules file: unreadable, without a rule, or with some. */
  datatype RulesFile = Unreadable | NoRules | SomeRules

  function AddRules(rules: seq<RuleId>, more: seq<RuleId>): seq<RuleId> {
    if more == [] then rules
    else
      var before := AddRules(rules, more[..|more| - 1]);
      var last := more[|more| - 1];
      if last in before then before else before + [last]
  }

  /** The plan with one more candidate in it. */
  function Place(p: Plan, id: Id, d: Decision, requireRule: bool): Plan
    requires p.pinned.Some?
  {
    match d
    case Unbound =>
      p.(unbound := p.unbound + 1, pinned := if requireRule then p.pinned else Some(p.pinned.value + {id}))
    case Paused(rules) => p.(held := p.held[id := rules])
    case Publishes(collectives, rules) =>
      p.(pinned := Some(p.pinned.value + {id}), collectives := p.collectives[id := collectives],
         rules := AddRules(p.rules, rules))
  }

  /** Every candidate placed, each by a question asked anew. */
  function PlaceAll(o: Oracle, candidates: seq<Candidate>, requireRule: bool): (p: Plan)
    ensures p.pinned.Some?
  {
    if candidates == [] then Plan(Some({}), map[], [], map[], 0)
    else
      var last := candidates[|candidates| - 1];
      Place(PlaceAll(o, candidates[..|candidates| - 1], requireRule), last.id, Decided(o, last), requireRule)
  }

  function PlanOf(file: RulesFile, o: Oracle, candidates: seq<Candidate>, requireRule: bool): Result<Plan, ()> {
    match file
    case Unreadable => Err(())
    case NoRules => Ok(Plan(if requireRule then Some({}) else None, map[], [], map[], 0))
    case SomeRules =>
      var p := PlaceAll(o, candidates, requireRule);
      Ok(if Bound(p) then p else p.(unbound := 0))
  }

  function Keys(candidates: seq<Candidate>): set<RepositoryKey> {
    set c | c in candidates :: c.at
  }

  lemma PlaceNone(o: Oracle, requireRule: bool)
    ensures PlaceAll(o, [], requireRule) == Plan(Some({}), map[], [], map[], 0)
    ensures Remembers(o, map[], Keys([]), 0)
  {
  }

  lemma KeysSnoc(candidates: seq<Candidate>, i: nat)
    requires i < |candidates|
    ensures Keys(candidates[..i + 1]) == Keys(candidates[..i]) + {candidates[i].at}
  {
  }

  lemma PlaceAllSnoc(o: Oracle, candidates: seq<Candidate>, i: nat, requireRule: bool)
    requires i < |candidates|
    ensures PlaceAll(o, candidates[..i + 1], requireRule)
         == Place(PlaceAll(o, candidates[..i], requireRule), candidates[i].id, Decided(o, candidates[i]), requireRule)
  {
    assert candidates[..i + 1][..i] == candidates[..i];
  }

  /** What the memory of repositories holds: every key seen, asked once. */
  ghost predicate Remembers(o: Oracle, repositories: map<RepositoryKey, Repository>, keys: set<RepositoryKey>, lookups: nat) {
    && repositories.Keys == keys
    && lookups == |keys|
    && forall k :: k in repositories ==> repositories[k] == o.find(k)
  }

  /** A repository out of the memory, or found and remembered. */
  method Recall(o: Oracle, known: map<RepositoryKey, Repository>, key: RepositoryKey,
                ghost keys: set<RepositoryKey>, ghost lookupsBefore: nat)
      returns (repository: Repository, repositories: map<RepositoryKey, Repository>, ghost lookups: nat)
    requires Remembers(o, known, keys, lookupsBefore)
    ensures repository == o.find(key)
    ensures Remembers(o, repositories, keys + {key}, lookups)
  {
    if key in known {
      assert keys + {key} == keys;
      return known[key], known, lookupsBefore;
    }
    repository := o.find(key);
    repositories := known[key := repository];
    lookups := lookupsBefore + 1;
  }

  /** The loop with its memory of repositories: the same plan as asking for every
      session, each repository looked up once. */
  method PlanAutoPublish(file: RulesFile, o: Oracle, candidates: seq<Candidate>, requireRule: bool)
      returns (r: Result<Plan, ()>, ghost lookups: nat)
    ensures r == PlanOf(file, o, candidates, requireRule)
    ensures file == SomeRules ==> lookups == |Keys(candidates)|
    ensures file != SomeRules ==> lookups == 0
  {
    lookups := 0;
    if file == Unreadable {
      return Err(()), 0;
    }
    if file == NoRules {
      return Ok(Plan(if requireRule then Some({}) else None, map[], [], map[], 0)), 0;
    }
    PlaceNone(o, requireRule);
    hide PlaceAll, AddRules, Keys, Remembers;
    var repositories: map<RepositoryKey, Repository> := map[];
    var plan := Plan(Some({}), map[], [], map[], 0);
    for i := 0 to |candidates|
      invariant plan == PlaceAll(o, candidates[..i], requireRule)
      invariant Remembers(o, repositories, Keys(candidates[..i]), lookups)
    {
      var row := candidates[i];
      PlaceAllSnoc(o, candidates, i, requireRule);
      KeysSnoc(candidates, i);
      var repository;
      repository, repositories, lookups := Recall(o, repositories, row.at, Keys(candidates[..i]), lookups);
      match o.decide(repository) {
        case Unbound =>
          plan := plan.(unbound := plan.unbound + 1);
          if !requireRule {
            plan := plan.(pinned := Some(plan.pinned.value + {row.id}));
          }
        case Paused(rules) => plan := plan.(held := plan.held[row.id := rules]);
        case Publishes(collectives, rules) =>
          plan := plan.(pinned := Some(plan.pinned.value + {row.id}), collectives := plan.collectives[row.id := collectives]);
          var names := AppendRules(plan.rules, rules);
          plan := plan.(rules := names);
      }
    }
    assert candidates[..|candidates|] == candidates;
    if !Bound(plan) {
      plan := plan.(unbound := 0);
    }
    r := Ok(plan);
  }

  method AppendRules(rules: seq<RuleId>, more: seq<RuleId>) returns (all: seq<RuleId>)
    ensures all == AddRules(rules, more)
  {
    all := rules;
    for j := 0 to |more|
      invariant all == AddRules(rules, more[..j])
    {
      assert more[..j + 1][..j] == more[..j];
      if more[j] !in all {
        all := all + [more[j]];
      }
    }
    assert more[..|more|] == more;
  }

  // ----- the partition -----

  function CandidateIds(candidates: seq<Candidate>): (ids: seq<Id>)
    ensures |ids| == |candidates|
    ensures forall i :: 0 <= i < |ids| ==> ids[i] == candidates[i].id
  {
    seq(|candidates|, i requires 0 <= i < |candidates| => candidates[i].id)
  }

  /** The candidates the rules publish, hold, and leave alone. */
  function Published(o: Oracle, candidates: seq<Candidate>): set<Id> {
    set c | c in candidates && Decided(o, c).Publishes? :: c.id
  }

  function OnHold(o: Oracle, candidates: seq<Candidate>): set<Id> {
    set c | c in candidates && Decided(o, c).Paused? :: c.id
  }

  function LeftAlone(o: Oracle, candidates: seq<Candidate>): set<Id> {
    set c | c in candidates && Decided(o, c).Unbound? :: c.id
  }

  lemma SetsStep(o: Oracle, init: seq<Candidate>, last: Candidate)
    ensures Published(o, init + [last]) == With(Published(o, init), Decided(o, last).Publishes?, last.id)
    ensures OnHold(o, init + [last]) == With(OnHold(o, init), Decided(o, last).Paused?, last.id)
    ensures LeftAlone(o, init + [last]) == With(LeftAlone(o, init), Decided(o, last).Unbound?, last.id)
  {
  }

  ghost predicate PlacedAs(p: Plan, published: set<Id>, onHold: set<Id>, alone: set<Id>, requireRule: bool) {
    && p.collectives.Keys == published
    && p.held.Keys == onHold
    && p.pinned.Some?
    && p.pinned.value == if requireRule then published else published + alone
  }

  function With(ids: set<Id>, add: bool, id: Id): set<Id> {
    if add then ids + {id} else ids
  }

  lemma PlaceUnbound(p: Plan, published: set<Id>, onHold: set<Id>, alone: set<Id>, requireRule: bool, id: Id)
    requires PlacedAs(p, published, onHold, alone, requireRule)
    ensures PlacedAs(Place(p, id, Unbound, requireRule), published, onHold, alone + {id}, requireRule)
  {
    assert published + alone + {id} == published + (alone + {id});
  }

  lemma PlaceHeld(p: Plan, published: set<Id>, onHold: set<Id>, alone: set<Id>, requireRule: bool, id: Id, rules: seq<RuleId>)
    requires PlacedAs(p, published, onHold, alone, requireRule)
    ensures PlacedAs(Place(p, id, Paused(rules), requireRule), published, onHold + {id}, alone, requireRule)
  {
    KeysWith(p.held, id, rules);
  }

  lemma PlacePublished(p: Plan, published: set<Id>, onHold: set<Id>, alone: set<Id>, requireRule: bool, id: Id,
                       collectives: seq<Collective>, rules: seq<RuleId>)
    requires PlacedAs(p, published, onHold, alone, requireRule)
    ensures PlacedAs(Place(p, id, Publishes(collectives, rules), requireRule), published + {id}, onHold, alone, requireRule)
  {
    KeysWith(p.collectives, id, collectives);
    assert published + alone + {id} == published + {id} + alone;
  }

  lemma {:induction false} PlaceStep(p: Plan, published: set<Id>, onHold: set<Id>, alone: set<Id>, requireRule: bool, id: Id, d: Decision)
    requires PlacedAs(p, published, onHold, alone, requireRule)
    ensures PlacedAs(Place(p, id, d, requireRule),
                     With(published, d.Publishes?, id), With(onHold, d.Paused?, id), With(alone, d.Unbound?, id), requireRule)
  {
    match d
    case Unbound => PlaceUnbound(p, published, onHold, alone, requireRule, id);
    case Paused(rules) => PlaceHeld(p, published, onHold, alone, requireRule, id, rules);
    case Publishes(collectives, rules) => PlacePublished(p, published, onHold, alone, requireRule, id, collectives, rules);
  }

  lemma KeysWith<V>(m: map<Id, V>, id: Id, v: V)
    ensures m[id := v].Keys == m.Keys + {id}
  {
  }

  lemma {:induction false} PlacedWhere(o: Oracle, candidates: seq<Candidate>, requireRule: bool)
    ensures PlacedAs(PlaceAll(o, candidates, requireRule),
                     Published(o, candidates), OnHold(o, candidates), LeftAlone(o, candidates), requireRule)
  {
    if candidates != [] {
      var init, last := candidates[..|candidates| - 1], candidates[|candidates| - 1];
      assert candidates == init + [last];
      PlacedWhere(o, init, requireRule);
      SetsStep(o, init, last);
      PlaceStep(PlaceAll(o, init, requireRule), Published(o, init), OnHold(o, init), LeftAlone(o, init),
                requireRule, last.id, Decided(o, last));
    }
  }

  /** A session has one row, which a source configured twice repeats. */
  ghost predicate OneRowEach(candidates: seq<Candidate>) {
    forall c, d :: c in candidates && d in candidates && c.id == d.id ==> c == d
  }

  lemma PairwiseDisjoint(o: Oracle, candidates: seq<Candidate>)
    requires OneRowEach(candidates)
    ensures Published(o, candidates) !! OnHold(o, candidates)
    ensures Published(o, candidates) !! LeftAlone(o, candidates)
    ensures OnHold(o, candidates) !! LeftAlone(o, candidates)
  {
  }

  lemma EveryoneSomewhere(o: Oracle, candidates: seq<Candidate>)
    ensures Published(o, candidates) + OnHold(o, candidates) + LeftAlone(o, candidates) == SetOf(CandidateIds(candidates))
  {
    forall id
      ensures id in SetOf(CandidateIds(candidates)) <==>
              id in Published(o, candidates) + OnHold(o, candidates) + LeftAlone(o, candidates)
    {
      if id in CandidateIds(candidates) {
        var i :| 0 <= i < |candidates| && CandidateIds(candidates)[i] == id;
        assert candidates[i] in candidates;
      }
      if c :| c in candidates && c.id == id {
        var i :| 0 <= i < |candidates| && candidates[i] == c;
        assert CandidateIds(candidates)[i] == id;
      }
    }
  }

  /** The plan: every session the push would send is published by a rule, held,
      or bound by none, and only one of these; only the first may be shared;
      a rule-required push pins exactly the sessions it shares. */
  lemma PlanIsPartition(o: Oracle, candidates: seq<Candidate>, requireRule: bool)
    requires OneRowEach(candidates)
    ensures Published(o, candidates) !! OnHold(o, candidates)
    ensures Published(o, candidates) !! LeftAlone(o, candidates)
    ensures OnHold(o, candidates) !! LeftAlone(o, candidates)
    ensures Published(o, candidates) + OnHold(o, candidates) + LeftAlone(o, candidates) == SetOf(CandidateIds(candidates))
    ensures var plan := PlanOf(SomeRules, o, candidates, requireRule).value;
      && plan.collectives.Keys == Published(o, candidates) && plan.held.Keys == OnHold(o, candidates)
      && plan.pinned == Some(if requireRule then plan.collectives.Keys else plan.collectives.Keys + LeftAlone(o, candidates))
  {
    hide PlaceAll, Published, OnHold, LeftAlone, CandidateIds;
    PlacedWhere(o, candidates, requireRule);
    PairwiseDisjoint(o, candidates);
    EveryoneSomewhere(o, candidates);
  }

  /** So a held session is never pinned. */
  lemma HeldIsNotPinned(o: Oracle, candidates: seq<Candidate>, requireRule: bool)
    requires OneRowEach(candidates)
    ensures var plan := PlanOf(SomeRules, o, candidates, requireRule).value;
      plan.pinned.value !! plan.held.Keys && plan.collectives.Keys <= plan.pinned.value
  {
    PlanIsPartition(o, candidates, requireRule);
  }

  /** What is planned for a session is what the rules decide for it: a shared one
      goes to the decision's own collectives, a held one is held by its own rules. */
  lemma {:induction false} PlacedWith(o: Oracle, candidates: seq<Candidate>, requireRule: bool, c: Candidate)
    requires OneRowEach(candidates) && c in candidates
    ensures var p := PlaceAll(o, candidates, requireRule);
      && (Decided(o, c).Publishes? ==> c.id in p.collectives && p.collectives[c.id] == Decided(o, c).collectives)
      && (Decided(o, c).Paused? ==> c.id in p.held && p.held[c.id] == Decided(o, c).rules)
  {
    var init, last := candidates[..|candidates| - 1], candidates[|candidates| - 1];
    assert candidates == init + [last];
    if c == last {
    } else {
      assert c in init && c.id != last.id;
      PlacedWith(o, init, requireRule, c);
    }
  }

  lemma PlanHolds(o: Oracle, candidates: seq<Candidate>, requireRule: bool, c: Candidate)
    requires OneRowEach(candidates) && c in candidates
    ensures var p, d := PlanOf(SomeRules, o, candidates, requireRule).value, o.decide(o.find(c.at));
      && (c.id in p.collectives <==> d.Publishes?) && (d.Publishes? ==> p.collectives[c.id] == d.collectives)
      && (c.id in p.held <==> d.Paused?) && (d.Paused? ==> p.held[c.id] == d.rules)
      && p.pinned.Some? && (c.id in p.pinned.value <==> d.Publishes? || (d.Unbound? && !requireRule))
  {
    hide PlaceAll;
    PlacedWith(o, candidates, requireRule, c);
    PlanIsPartition(o, candidates, requireRule);
    var d := Decided(o, c);
    assert d.Publishes? ==> c.id in Published(o, candidates);
    assert d.Paused? ==> c.id in OnHold(o, candidates);
    assert d.Unbound? ==> c.id in LeftAlone(o, candidates);
  }

  /** Without a rule nothing is shared or held, and everything may be sent unless a
      rule is required; then nothing may. A rules file that cannot be read refuses. */
  lemma WithoutRules(o: Oracle, candidates: seq<Candidate>, requireRule: bool)
    ensures PlanOf(Unreadable, o, candidates, requireRule).Err? && PlanOf(SomeRules, o, candidates, requireRule).Ok?
    ensures PlanOf(NoRules, o, candidates, requireRule).Ok?
    ensures var p := PlanOf(NoRules, o, candidates, requireRule).value;
      && p.pinned == (if requireRule then Some({}) else None)
      && p.collectives == map[] && p.held == map[] && p.rules == [] && p.unbound == 0
  {
  }

  // ----- how many no rule binds -----

  /** The ids of the rows no rule binds, row by row. */
  function UnboundIds(o: Oracle, candidates: seq<Candidate>): seq<Id> {
    if candidates == [] then []
    else
      var last := candidates[|candidates| - 1];
      UnboundIds(o, candidates[..|candidates| - 1]) + if Decided(o, last).Unbound? then [last.id] else []
  }

  lemma {:induction false} UnboundRows(o: Oracle, candidates: seq<Candidate>, requireRule: bool)
    ensures PlaceAll(o, candidates, requireRule).unbound == |UnboundIds(o, candidates)|
    ensures SetOf(UnboundIds(o, candidates)) == LeftAlone(o, candidates)
  {
    if candidates != [] {
      var init, last := candidates[..|candidates| - 1], candidates[|candidates| - 1];
      assert candidates == init + [last];
      UnboundRows(o, init, requireRule);
      SetsStep(o, init, last);
    }
  }

  /** The plan counts rows: the number it reports is the number of sessions no
      rule binds exactly when none of these has its row repeated. */
  lemma UnboundCountsSessionsIff(o: Oracle, candidates: seq<Candidate>, requireRule: bool)
    requires Bound(PlaceAll(o, candidates, requireRule))
    ensures PlanOf(SomeRules, o, candidates, requireRule).value.unbound == |LeftAlone(o, candidates)|
        <==> Distinct(UnboundIds(o, candidates))
  {
    UnboundRows(o, candidates, requireRule);
    DistinctSizeIff(UnboundIds(o, candidates));
  }

  /** A repeated row that no rule binds, beside a session that one does, counts twice. */
  lemma RepeatedRowCountsTwice(o: Oracle, shared: Candidate, alone: Candidate)
    requires Decided(o, shared).Publishes? && Decided(o, alone).Unbound?
    ensures PlanOf(SomeRules, o, [shared, alone, alone], false).value.unbound == 2
    ensures |LeftAlone(o, [shared, alone, alone])| == 1
  {
    var rows := [shared, alone, alone];
    assert rows[..2] == [shared, alone] && [shared, alone][..1] == [shared] && [shared][..0] == [];
    assert UnboundIds(o, [shared]) == [] && UnboundIds(o, [shared, alone]) == [alone.id];
    assert UnboundIds(o, rows) == [alone.id, alone.id];
    UnboundRows(o, rows, false);
    assert LeftAlone(o, rows) == {alone.id};
    PlacedWhere(o, rows, false);
    assert rows[0] == shared && shared.id in Published(o, rows);
    assert shared.id in PlaceAll(o, rows, false).collectives.Keys;
  }

  lemma UnboundCleared(p: Plan)
    ensures Bound(p.(unbound := 0)) == Bound(p)
  {
  }

  lemma {:induction false} UnboundIdsDistinct(o: Oracle, candidates: seq<Candidate>)
    requires Distinct(CandidateIds(candidates))
    ensures Distinct(UnboundIds(o, candidates))
    ensures forall id :: id in UnboundIds(o, candidates) ==> id in CandidateIds(candidates)
  {
    if candidates != [] {
      var init, last := candidates[..|candidates| - 1], candidates[|candidates| - 1];
      assert CandidateIds(candidates) == CandidateIds(init) + [last.id];
      forall i, j | 0 <= i < j < |init|
        ensures CandidateIds(init)[i] != CandidateIds(init)[j]
      {
        assert CandidateIds(candidates)[i] != CandidateIds(candidates)[j];
      }
      UnboundIdsDistinct(o, init);
      assert last.id !in CandidateIds(init);
    }
  }

  /** With each row once, these are the candidates the plan neither shares nor holds. */
  lemma UnboundIsTheRest(o: Oracle, candidates: seq<Candidate>, requireRule: bool)
    requires Distinct(CandidateIds(candidates))
    ensures var plan := PlanOf(SomeRules, o, candidates, requireRule).value;
      plan.unbound == if Bound(plan) then |candidates| - |plan.collectives| - |plan.held| else 0
  {
    hide PlaceAll, Published, OnHold, LeftAlone, UnboundIds, Bound;
    var p := PlaceAll(o, candidates, requireRule);
    UnboundRows(o, candidates, requireRule);
    UnboundIdsDistinct(o, candidates);
    DistinctSizeIff(UnboundIds(o, candidates));
    DistinctSizeIff(CandidateIds(candidates));
    forall c, d | c in candidates && d in candidates && c.id == d.id
      ensures c == d
    {
      SameIdSame(candidates, c, d);
    }
    PlanIsPartition(o, candidates, requireRule);
    PlacedWhere(o, candidates, requireRule);
    PartitionSize(Published(o, candidates), OnHold(o, candidates), LeftAlone(o, candidates));
    SizesOf(p, Published(o, candidates), OnHold(o, candidates));
    UnboundCleared(p);
  }

  lemma SameIdSame(candidates: seq<Candidate>, c: Candidate, d: Candidate)
    requires Distinct(CandidateIds(candidates)) && c in candidates && d in candidates && c.id == d.id
    ensures c == d
  {
    var i :| 0 <= i < |candidates| && candidates[i] == c;
    var j :| 0 <= j < |candidates| && candidates[j] == d;
    assert CandidateIds(candidates)[i] == CandidateIds(candidates)[j];
  }

  lemma SizesOf(p: Plan, published: set<Id>, onHold: set<Id>)
    requires p.collectives.Keys == published && p.held.Keys == onHold
    ensures |p.collectives| == |published| && |p.held| == |onHold|
  {
  }

  lemma PartitionSize(a: set<Id>, b: set<Id>, c: set<Id>)
    requires a !! b && a !! c && b !! c
    ensures |a + b + c| == |a| + |b| + |c|
  {
    assert |a + b| == |a| + |b|;
    assert (a + b) !! c;
  }

  lemma DistinctCons<T>(x: T, rest: seq<T>)
    ensures Distinct([x] + rest) <==> x !in rest && Distinct(rest)
  {
    var s := [x] + rest;
    if Distinct(s) {
      forall j | 0 <= j < |rest|
        ensures rest[j] != x
      {
        assert s[0] != s[j + 1];
      }
      forall i, j | 0 <= i < j < |rest|
        ensures rest[i] != rest[j]
      {
        assert s[i + 1] != s[j + 1];
      }
    }
    if x !in rest && Distinct(rest) {
      DistinctAppend([x], rest);
    }
  }

  lemma SizeCons<T>(x: T, rest: seq<T>)
    ensures SetOf([x] + rest) == SetOf(rest) + {x}
    ensures |SetOf([x] + rest)| == |SetOf(rest)| + if x in rest then 0 else 1
  {
    if x in rest {
      assert SetOf(rest) + {x} == SetOf(rest);
    }
  }

  lemma {:induction false} DistinctSizeIff<T>(s: seq<T>)
    ensures |SetOf(s)| <= |s|
    ensures |SetOf(s)| == |s| <==> Distinct(s)
  {
    if s != [] {
      hide Distinct, SetOf;
      assert s == [s[0]] + s[1..];
      DistinctSizeIff(s[1..]);
      DistinctCons(s[0], s[1..]);
      SizeCons(s[0], s[1..]);
    }
  }

  // ----- the rules named -----

  lemma {:induction false} AddRulesMembers(rules: seq<RuleId>, more: seq<RuleId>)
    requires Distinct(rules)
    ensures Distinct(AddRules(rules, more))
    ensures forall r :: r in AddRules(rules, more) <==> r in rules || r in more
  {
    if more != [] {
      AddRulesMembers(rules, more[..|more| - 1]);
      assert more == more[..|more| - 1] + [more[|more| - 1]];
    }
  }

  /** Rules named later stand behind those named before, in the order of the decision. */
  lemma {:induction false} AddRulesInOrder(rules: seq<RuleId>, more: seq<RuleId>)
    ensures rules <= AddRules(rules, more)
    ensures var all := AddRules(rules, more);
      && (forall i :: |rules| <= i < |all| ==> all[i] in more)
      && (forall i, j :: |rules| <= i < j < |all| ==> IndexOf(more, all[i]) < IndexOf(more, all[j]))
  {
    if more != [] {
      var init, last := more[..|more| - 1], more[|more| - 1];
      assert more == init + [last];
      AddRulesInOrder(rules, init);
      forall x | x in init
        ensures IndexOf(more, x) == IndexOf(init, x)
      {
        IndexOfLonger(init, last, x);
      }
      var all := AddRules(rules, more);
      var before := AddRules(rules, init);
      if last !in before {
        assert all == before + [last];
        if last in init {
          AddRulesHas(rules, init, last);
        }
        assert IndexOf(more, last) == |init|;
      }
    }
  }

  lemma {:induction false} AddRulesHas(rules: seq<RuleId>, more: seq<RuleId>, r: RuleId)
    requires r in more
    ensures r in AddRules(rules, more)
  {
    var init, last := more[..|more| - 1], more[|more| - 1];
    assert more == init + [last];
    if r != last {
      AddRulesHas(rules, init, r);
    }
  }

  lemma IndexOfLonger(init: seq<RuleId>, last: RuleId, x: RuleId)
    requires x in init
    ensures IndexOf(init + [last], x) == IndexOf(init, x)
  {
    var k, k' := IndexOf(init, x), IndexOf(init + [last], x);
    assert (init + [last])[k] == x;
    assert forall j :: 0 <= j < k ==> (init + [last])[j] == init[j];
  }

  /** So the rules of a push are named in the order in which its sessions meet them. */
  lemma RulesInOrder(o: Oracle, init: seq<Candidate>, c: Candidate, requireRule: bool)
    ensures var before, all := PlaceAll(o, init, requireRule).rules, PlaceAll(o, init + [c], requireRule).rules;
      && before <= all
      && (!Decided(o, c).Publishes? ==> all == before)
      && (Decided(o, c).Publishes? ==>
            forall i, j :: |before| <= i < j < |all| ==> IndexOf(Decided(o, c).rules, all[i]) < IndexOf(Decided(o, c).rules, all[j]))
  {
    assert (init + [c])[..|init|] == init;
    if Decided(o, c).Publishes? {
      AddRulesInOrder(PlaceAll(o, init, requireRule).rules, Decided(o, c).rules);
    }
  }

  /** The plan names each rule that publishes something in this push, once. */
  lemma {:induction false} RulesNamed(o: Oracle, candidates: seq<Candidate>, requireRule: bool)
    ensures var rules := PlaceAll(o, candidates, requireRule).rules;
      && Distinct(rules)
      && (forall r :: r in rules <==>
            exists c :: c in candidates && Decided(o, c).Publishes? && r in Decided(o, c).rules)
  {
    if candidates != [] {
      var init, last := candidates[..|candidates| - 1], candidates[|candidates| - 1];
      assert candidates == init + [last];
      RulesNamed(o, init, requireRule);
      if Decided(o, last).Publishes? {
        AddRulesMembers(PlaceAll(o, init, requireRule).rules, Decided(o, last).rules);
      }
      var rules := PlaceAll(o, candidates, requireRule).rules;
      forall r | r in rules
        ensures exists c :: c in candidates && Decided(o, c).Publishes? && r in Decided(o, c).rules
      {
        if r in PlaceAll(o, init, requireRule).rules {
          var c :| c in init && Decided(o, c).Publishes? && r in Decided(o, c).rules;
          assert c in candidates;
        } else {
          assert last in candidates;
        }
      }
    }
  }

  // ----- the gate before an update -----

  datatype Visibility = Private | Public | OtherVisibility

  datatype HoldReason = ReceiptsUnreadable | NoReceipt | VisibilityUnreadable | IsPublic

  /** The receipts of the local store, None when it cannot be read, and who can
      read a transcript, None when peasant online does not answer. */
  datatype Village = Village(receipts: Option<map<Id, string>>, visibility: string -> Option<Visibility>)

  /** What happens to a session the run considers. */
  datatype Fate = NotSent | Sent | HeldBack(reason: HoldReason)

  /** The receipt was found, and who can read the transcript is known and not everyone. */
  predicate ReadNotPublic(village: Village, id: Id) {
    && village.receipts.Some? && id in village.receipts.value
    && village.visibility(village.receipts.value[id]).Some?
    && village.visibility(village.receipts.value[id]).value != Public
  }

  class Gate {
    const plan: Plan
    var publicHeld: set<Id>

    constructor (plan: Plan)
      ensures this.plan == plan && publicHeld == {}
    {
      this.plan, publicHeld := plan, {};
    }

    /** Shared by a rule, so going out without being asked for. */
    predicate RuleShared(id: Id) {
      id in plan.collectives && plan.collectives[id] != []
    }

    method UpdateHold(village: Village, id: Id) returns (reason: Option<HoldReason>)
      modifies this
      ensures reason.None? <==> (RuleShared(id) ==> ReadNotPublic(village, id))
      ensures reason == Some(ReceiptsUnreadable) <==> RuleShared(id) && village.receipts.None?
      ensures reason == Some(NoReceipt) <==> RuleShared(id) && village.receipts.Some? && id !in village.receipts.value
      ensures reason == Some(IsPublic) <==>
                RuleShared(id) && village.receipts.Some? && id in village.receipts.value
                && village.visibility(village.receipts.value[id]) == Some(Public)
      ensures publicHeld == old(publicHeld) + if reason == Some(IsPublic) then {id} else {}
    {
      if id !in plan.collectives || plan.collectives[id] == [] {
        return None;
      }
      if village.receipts.None? {
        return Some(ReceiptsUnreadable);
      }
      if id !in village.receipts.value {
        return Some(NoReceipt);
      }
      var visibility := village.visibility(village.receipts.value[id]);
      if visibility.None? {
        return Some(VisibilityUnreadable);
      }
      if visibility.value == Public {
        publicHeld := publicHeld + {id};
        return Some(IsPublic);
      }
      return None;
    }

    /** Where the run asks: only for a session it published before and would send again. */
    method Consider(village: Village, id: Id, alreadyHeld: bool, publishedBefore: bool) returns (fate: Fate)
      modifies this
      ensures fate == NotSent <==> (plan.pinned.Some? && id !in plan.pinned.value) || alreadyHeld
      ensures fate == Sent ==> (publishedBefore && RuleShared(id) ==> ReadNotPublic(village, id))
      ensures fate.HeldBack? ==> publishedBefore && RuleShared(id) && !ReadNotPublic(village, id)
      ensures publicHeld == old(publicHeld) + if fate == HeldBack(IsPublic) then {id} else {}
    {
      if plan.pinned.Some? && id !in plan.pinned.value {
        return NotSent;
      }
      if alreadyHeld {
        return NotSent;
      }
      if !publishedBefore {
        return Sent;
      }
      var reason := UpdateHold(village, id);
      if reason.Some? {
        return HeldBack(reason.value);
      }
      return Sent;
    }
  }
}
