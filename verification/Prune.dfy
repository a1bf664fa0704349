/** Removing a frozen plan of sessions from disk while sessions keep arriving,
    and the notice about what was left (cmd/peasant/cmd_prune.go). */
module Prune {
  import opened Wrappers

  type Host = string
  type SessionId = string

  /** A session directory, by the host directory it lies in. */
  datatype Entry = Entry(host: Host, session: SessionId)

  /** The sessions that arrive just before each step of a prune. */
  type Arrivals = nat -> set<Entry>

  /** The entries a plan removes: a session without an output path has none. */
  function Targets(planned: seq<Entry>): set<Entry> {
    set e | e in planned && e.host != ""
  }

  function Hosts(planned: seq<Entry>): set<Host> {
    set e | e in Targets(planned) :: e.host
  }

  /** Everything that arrives before step `n`. */
  function ArrivedBy(arriving: Arrivals, n: nat): set<Entry> {
    if n == 0 then {} else ArrivedBy(arriving, n - 1) + arriving(n - 1)
  }

  function FailedTargets(planned: seq<Entry>, failing: set<Entry>): seq<Entry> {
    if planned == [] then []
    else
      var last := planned[|planned| - 1];
      FailedTargets(planned[..|planned| - 1], failing) + if last.host != "" && last in failing then [last] else []
  }

  /** Where a prune stands: only targets dealt with are missing, and those are. */
  ghost predicate Progress(sessions: set<Entry>, start: set<Entry>, arrived: set<Entry>, targets: set<Entry>, failing: set<Entry>) {
    && (forall e :: e in start + arrived && e !in targets ==> e in sessions)
    && sessions <= start + arrived
    && (forall e :: e in targets && e !in failing && e !in arrived ==> e !in sessions)
  }

  function Failing(failing: set<Entry>): Entry -> bool {
    (e: Entry) => e.host != "" && e in failing
  }

  /** The errors are the planned sessions with an output path whose removal failed,
      in the order of the plan. */
  lemma {:induction false} ErrorsAre(planned: seq<Entry>, failing: set<Entry>)
    ensures Picks(planned, Failing(failing), FailedTargets(planned, failing))
    ensures forall e :: e in FailedTargets(planned, failing) <==> e in planned && e.host != "" && e in failing
  {
    ErrorsPick(planned, failing);
    forall e
      ensures e in FailedTargets(planned, failing) <==> e in planned && e.host != "" && e in failing
    {
      PicksMembers(planned, Failing(failing), FailedTargets(planned, failing), e);
    }
  }

  lemma {:induction false} ErrorsPick(planned: seq<Entry>, failing: set<Entry>)
    ensures Picks(planned, Failing(failing), FailedTargets(planned, failing))
  {
    hide Picks;
    if planned == [] {
      PicksNone(Failing(failing));
    } else {
      var init, last := planned[..|planned| - 1], planned[|planned| - 1];
      assert planned == init + [last];
      ErrorsPick(init, failing);
      PicksSnoc(init, last, Failing(failing), FailedTargets(init, failing));
      assert FailedTargets(init, failing) + [] == FailedTargets(init, failing);
    }
  }

  /** The transcript tree: host directories, the session directories in them, and
      the host directories that also hold something else. */
  class Tree {
    var hosts: set<Host>
    var sessions: set<Entry>
    var cluttered: set<Host>

    ghost predicate Valid()
      reads this
    {
      forall e :: e in sessions ==> e.host in hosts
    }

    constructor (hosts: set<Host>, sessions: set<Entry>, cluttered: set<Host>)
      requires forall e :: e in sessions ==> e.host in hosts
      ensures Valid() && this.hosts == hosts && this.sessions == sessions && this.cluttered == cluttered
    {
      this.hosts, this.sessions, this.cluttered := hosts, sessions, cluttered;
    }

    /** Other processes write sessions. */
    method Arrive(entries: set<Entry>)
      requires Valid()
      modifies this
      ensures Valid() && sessions == old(sessions) + entries && cluttered == old(cluttered)
      ensures hosts == old(hosts) + set e | e in entries :: e.host
    {
      sessions := sessions + entries;
      hosts := hosts + set e | e in entries :: e.host;
    }

    method RemoveAll(e: Entry, fails: bool) returns (ok: bool)
      requires Valid()
      modifies this
      ensures Valid() && hosts == old(hosts) && cluttered == old(cluttered)
      ensures ok == !fails
      ensures sessions == if fails then old(sessions) else old(sessions) - {e}
    {
      if fails {
        return false;
      }
      sessions := sessions - {e};
      return true;
    }

    /** Removes a directory only when it is empty. */
    method RemoveEmpty(h: Host)
      requires Valid()
      modifies this
      ensures Valid() && sessions == old(sessions) && cluttered == old(cluttered)
      ensures hosts == if h !in old(cluttered) && (forall e :: e in old(sessions) ==> e.host != h)
                       then old(hosts) - {h} else old(hosts)
    {
      if h !in cluttered && (forall e | e in sessions :: e.host != h) {
        hosts := hosts - {h};
      }
    }

    /** Removes the planned directories, then the host directories left empty.
        Step k sees the sessions that arrived just before it. */
    method PruneFilesystem(planned: seq<Entry>, failing: set<Entry>, arriving: Arrivals)
        returns (errors: seq<Entry>, steps: nat)
      requires Valid()
      modifies this
      ensures Valid() && cluttered == old(cluttered)
      ensures errors == FailedTargets(planned, failing)
      // Nothing outside the plan goes, whenever it arrived.
      ensures forall e :: e in old(sessions) + ArrivedBy(arriving, steps) && e !in Targets(planned) ==> e in sessions
      // Nothing appears by itself.
      ensures sessions <= old(sessions) + ArrivedBy(arriving, steps)
      // What was planned is gone, unless its removal failed or it arrived again.
      ensures forall e :: e in Targets(planned) && e !in failing && e !in ArrivedBy(arriving, steps) ==> e !in sessions
      // A host directory goes only if the plan names it, and never one that holds something else.
      ensures forall h :: h in old(hosts) && h !in hosts ==> h in Hosts(planned) && h !in cluttered
      // One the plan empties does go, unless a session arrives in it.
      ensures forall h :: h in Hosts(planned) && Emptied(h, ArrivedBy(arriving, steps)) ==> h !in hosts
    {
      errors := [];
      var parents: set<Host> := {};
      steps := 0;
      for i := 0 to |planned|
        invariant Valid() && cluttered == old(cluttered)
        invariant steps == i
        invariant errors == FailedTargets(planned[..i], failing)
        invariant parents == Hosts(planned[..i])
        invariant Progress(sessions, old(sessions), ArrivedBy(arriving, steps), Targets(planned[..i]), failing)
        invariant old(hosts) <= hosts
      {
        var e := planned[i];
        TargetsStep(planned, i);
        hide Targets, Hosts;
        assert planned[..i + 1][..i] == planned[..i];
        Arrive(arriving(steps));
        steps := steps + 1;
        if e.host == "" {
          continue;
        }
        parents := parents + {e.host};
        var ok := RemoveAll(e, e in failing);
        if !ok {
          errors := errors + [e];
        }
      }
      assert planned[..|planned|] == planned;
      steps := RemoveHosts(parents, arriving, steps, Targets(planned), failing, old(hosts), old(sessions));
    }

    /** The loop over the host directories, in no particular order. */
    method RemoveHosts(parents: set<Host>, arriving: Arrivals, before: nat, ghost targets: set<Entry>,
                       ghost failing: set<Entry>, ghost hostsAtStart: set<Host>, ghost sessionsAtStart: set<Entry>)
        returns (steps: nat)
      requires Valid() && hostsAtStart <= hosts
      requires Progress(sessions, sessionsAtStart, ArrivedBy(arriving, before), targets, failing)
      modifies this
      ensures Valid() && cluttered == old(cluttered)
      ensures Progress(sessions, sessionsAtStart, ArrivedBy(arriving, steps), targets, failing)
      ensures forall h :: h in hostsAtStart && h !in hosts ==> h in parents && h !in cluttered
      ensures forall h :: h in parents && Emptied(h, ArrivedBy(arriving, steps)) ==> h !in hosts
    {
      var todo := parents;
      steps := before;
      while todo != {}
        invariant Valid() && cluttered == old(cluttered) && todo <= parents
        invariant Progress(sessions, sessionsAtStart, ArrivedBy(arriving, steps), targets, failing)
        invariant forall h :: h in hostsAtStart && h !in hosts ==> h in parents && h !in cluttered
        invariant forall h :: h in parents - todo && Emptied(h, ArrivedBy(arriving, steps)) ==> h !in hosts
        decreases todo
      {
        var h :| h in todo;
        Arrive(arriving(steps));
        steps := steps + 1;
        RemoveEmpty(h);
        todo := todo - {h};
      }
    }

    /** Nothing is in the host directory, and no session arrived in it. */
    ghost predicate Emptied(h: Host, arrived: set<Entry>)
      reads this
    {
      h !in cluttered && (forall e :: e in sessions ==> e.host != h) && (forall e :: e in arrived ==> e.host != h)
    }

    /** The residue notice: directories there from the start that no plan held. */
    method NoticeResidue(before: set<Entry>, planned: seq<Entry>) returns (orphans: set<Entry>)
      ensures orphans == (sessions * before) - SetOf(planned)
    {
      orphans := {};
      var todo := sessions;
      while todo != {}
        invariant todo <= sessions
        invariant orphans == ((sessions - todo) * before) - SetOf(planned)
        decreases todo
      {
        var path :| path in todo;
        todo := todo - {path};
        if path in planned || path !in before {
          continue;
        }
        orphans := orphans + {path};
      }
    }

    /** `prune --all`: the plan and the snapshot are taken together, the user
        decides while sessions arrive, then the plan is executed. */
    method PruneAll(planned: seq<Entry>, failing: set<Entry>, deciding: set<Entry>, arriving: Arrivals)
        returns (errors: seq<Entry>, orphans: set<Entry>, steps: nat)
      requires Valid()
      modifies this
      ensures Valid()
      ensures orphans == (old(sessions) * sessions) - SetOf(planned)
      // The notice names exactly the sessions that were there and never planned.
      ensures orphans == old(sessions) - SetOf(planned)
      // So nothing outside the plan that arrived since is named, and all of it is kept.
      ensures forall e :: e in deciding + ArrivedBy(arriving, steps) && e !in planned ==>
                e in sessions && (e !in old(sessions) ==> e !in orphans)
      // What was planned goes even where it was written again while the user decided.
      ensures forall e :: e in Targets(planned) && e !in failing && e !in ArrivedBy(arriving, steps) ==> e !in sessions
      ensures errors == FailedTargets(planned, failing)
    {
      var before := sessions;
      Arrive(deciding);
      errors, steps := PruneFilesystem(planned, failing, arriving);
      orphans := NoticeResidue(before, planned);
    }
  }

  lemma TargetsStep(planned: seq<Entry>, i: nat)
    requires i < |planned|
    ensures Targets(planned[..i + 1]) == Targets(planned[..i]) + if planned[i].host != "" then {planned[i]} else {}
    ensures Hosts(planned[..i + 1]) == Hosts(planned[..i]) + if planned[i].host != "" then {planned[i].host} else {}
  {
    assert planned[..i + 1] == planned[..i] + [planned[i]];
  }
}
