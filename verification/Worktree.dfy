/** Which recorded directories belong to a worktree: the memoized climb to a
    repository boundary, its cost, and its agreement with git
    (cmd/peasant/cmd_push.go). */
module Worktree {
  import opened Wrappers

  /** An absolute, cleaned path as its components. */
  type Path = seq<string>

  datatype Lstat = Directory | Symlink | OtherFile | Missing | Unreadable

  datatype Boundary = BoundaryNone | BoundaryFound | BoundaryUnknown

  /** One snapshot of the filesystem, and one answer of git per directory. */
  type Snapshot = Path -> Lstat

  type Git = Path -> Option<Path>

  const DOT_GIT := ".git"

  function Parent(p: Path): Path
    requires p != []
  {
    p[..|p| - 1]
  }

  /** The climb without a memory. */
  function Climb(fs: Snapshot, root: Path, dir: Path): Boundary
    decreases |dir|
  {
    if dir == root then BoundaryNone
    else match fs(dir)
      case Missing => BoundaryFound
      case Unreadable => BoundaryUnknown
      case Symlink => BoundaryUnknown
      case OtherFile => BoundaryUnknown
      case Directory =>
        match fs(dir + [DOT_GIT]) {
          case Missing => if dir == [] then BoundaryUnknown else Climb(fs, root, Parent(dir))
          case Unreadable => BoundaryUnknown
          case _ => BoundaryFound
        }
  }

  function Belonging(fs: Snapshot, git: Git, root: Path, dir: Path): bool {
    match Climb(fs, root, dir)
    case BoundaryNone => true
    case BoundaryFound => false
    case BoundaryUnknown => git(dir) == Some(root)
  }

  function Ancestors(dir: Path): set<Path> {
    set i | 0 <= i <= |dir| :: dir[..i]
  }

  /** The existing directories on the way up from `dir`. */
  function Existing(fs: Snapshot, dir: Path): set<Path> {
    set p | p in Ancestors(dir) && fs(p) == Directory
  }

  lemma ExistingParent(fs: Snapshot, dir: Path)
    requires dir != []
    ensures Existing(fs, Parent(dir)) <= Existing(fs, dir)
  {
    forall p | p in Ancestors(Parent(dir))
      ensures p in Ancestors(dir)
    {
      var i :| 0 <= i <= |Parent(dir)| && Parent(dir)[..i] == p;
      assert dir[..i] == p;
    }
  }

  lemma ExistingSelf(fs: Snapshot, dir: Path)
    requires fs(dir) == Directory
    ensures dir in Existing(fs, dir)
    ensures dir != [] ==> dir !in Existing(fs, Parent(dir))
  {
    assert dir[..|dir|] == dir;
    if dir != [] {
      forall i | 0 <= i <= |Parent(dir)|
        ensures Parent(dir)[..i] != dir
      {
        assert |Parent(dir)[..i]| < |dir|;
      }
    }
  }

  class Membership {
    const root: Path
    const fs: Snapshot
    const git: Git
    var clean: map<Path, bool>
    ghost var lstats: nat
    ghost var gitCalls: nat

    /** Every remembered answer is the answer of the climb. */
    ghost predicate Valid()
      reads this
    {
      forall d :: d in clean ==>
        Climb(fs, root, d) == if clean[d] then BoundaryNone else BoundaryFound
    }

    constructor (root: Path, fs: Snapshot, git: Git)
      ensures Valid() && clean == map[] && lstats == 0 && gitCalls == 0
      ensures this.root == root && this.fs == fs && this.git == git
    {
      this.root, this.fs, this.git := root, fs, git;
      clean, lstats, gitCalls := map[], 0, 0;
    }

    method Walk(dir: Path) returns (b: Boundary)
      requires Valid()
      modifies this
      ensures Valid() && b == Climb(fs, root, dir)
      ensures gitCalls == old(gitCalls)
      ensures forall d :: d in old(clean) ==> d in clean && clean[d] == old(clean)[d]
      ensures clean.Keys <= old(clean).Keys + Existing(fs, dir)
      ensures b == BoundaryUnknown ==> clean == old(clean)
      ensures b != BoundaryUnknown ==>
                2 * |old(clean)| + lstats <= 2 * |clean| + old(lstats) + 1
      ensures lstats <= old(lstats) + 2 * (|dir| + 1)
      decreases |dir|
    {
      if dir == root {
        return BoundaryNone;
      }
      if dir in clean {
        return if clean[dir] then BoundaryNone else BoundaryFound;
      }
      hide Existing, Ancestors;
      lstats := lstats + 1;
      var info := fs(dir);
      if info == Missing {
        return BoundaryFound;
      }
      if info != Directory {
        return BoundaryUnknown;
      }
      ExistingSelf(fs, dir);
      lstats := lstats + 1;
      var inside := fs(dir + [DOT_GIT]);
      if inside != Missing && inside != Unreadable {
        clean := clean[dir := false];
        return BoundaryFound;
      } else if inside == Unreadable {
        return BoundaryUnknown;
      }
      if dir == [] {
        return BoundaryUnknown;
      }
      ExistingParent(fs, dir);
      b := Walk(Parent(dir));
      assert dir !in clean;
      match b {
        case BoundaryNone => clean := clean[dir := true];
        case BoundaryFound => clean := clean[dir := false];
        case BoundaryUnknown =>
      }
    }

    /** Whether `dir` is part of the worktree; git is asked only when the climb cannot tell. */
    method Belongs(dir: Path) returns (r: bool)
      requires Valid()
      modifies this
      ensures Valid() && r == Belonging(fs, git, root, dir)
      ensures clean.Keys <= old(clean).Keys + Existing(fs, dir)
      ensures gitCalls == old(gitCalls) + if Climb(fs, root, dir) == BoundaryUnknown then 1 else 0
      ensures Climb(fs, root, dir) != BoundaryUnknown ==>
                2 * |old(clean)| + lstats <= 2 * |clean| + old(lstats) + 1
    {
      var b := Walk(dir);
      match b {
        case BoundaryNone => r := true;
        case BoundaryFound => r := false;
        case BoundaryUnknown =>
          gitCalls := gitCalls + 1;
          var top := git(dir);
          r := top.Some? && top.value == root;
      }
    }
  }

  // ----- recorded projects -----

  /** A recorded project: its directory, None when it recorded no absolute one, and its identity. */
  datatype Project = Project(cwd: Option<Path>, hash: string)

  type Salt = Path -> Option<string>

  predicate InsideRoot(root: Path, dir: Path) {
    root <= dir
  }

  predicate InWorktree(fs: Snapshot, git: Git, root: Path, p: Project) {
    p.cwd.Some? && InsideRoot(root, p.cwd.value) && Belonging(fs, git, root, p.cwd.value)
  }

  /** Identified by the hash of its own directory. */
  predicate PathDerived(salt: Salt, p: Project) {
    p.cwd.Some? && salt(p.cwd.value) == Some(p.hash)
  }

  function Recorded(fs: Snapshot, git: Git, root: Path, salt: Salt, projects: seq<Project>): seq<Project> {
    if projects == [] then []
    else
      var last := projects[|projects| - 1];
      Recorded(fs, git, root, salt, projects[..|projects| - 1])
      + if InWorktree(fs, git, root, last) && PathDerived(salt, last) then [last] else []
  }

  function Unadmitted(fs: Snapshot, git: Git, root: Path, salt: Salt, identity: string, projects: seq<Project>): seq<Project> {
    if projects == [] then []
    else
      var last := projects[|projects| - 1];
      Unadmitted(fs, git, root, salt, identity, projects[..|projects| - 1])
      + if InWorktree(fs, git, root, last) && !PathDerived(salt, last) && last.hash != "" && last.hash != identity
        then [last] else []
  }

  /** Recorded in a directory of the worktree under that directory's own hash. */
  function OwnHash(fs: Snapshot, git: Git, root: Path, salt: Salt): Project -> bool {
    (p: Project) =>
      && p.cwd.Some? && root <= p.cwd.value && Belonging(fs, git, root, p.cwd.value)
      && salt(p.cwd.value) == Some(p.hash)
  }

  /** Recorded there under a hash that is neither the directory's nor the root's. */
  function OtherHash(fs: Snapshot, git: Git, root: Path, salt: Salt, identity: string): Project -> bool {
    (p: Project) =>
      && p.cwd.Some? && root <= p.cwd.value && Belonging(fs, git, root, p.cwd.value)
      && salt(p.cwd.value) != Some(p.hash) && p.hash != "" && p.hash != identity
  }

  lemma ScopeSnoc(fs: Snapshot, git: Git, root: Path, salt: Salt, identity: string, init: seq<Project>, last: Project)
    ensures Recorded(fs, git, root, salt, init + [last])
         == (var r := Recorded(fs, git, root, salt, init); if OwnHash(fs, git, root, salt)(last) then r + [last] else r)
    ensures Unadmitted(fs, git, root, salt, identity, init + [last])
         == (var u := Unadmitted(fs, git, root, salt, identity, init);
             if OtherHash(fs, git, root, salt, identity)(last) then u + [last] else u)
  {
    hide Belonging;
    assert (init + [last])[..|init|] == init;
  }

  /** The scoped push takes the projects with their own hash, and is told of those
      with another, each as listed and in the order listed. */
  lemma {:induction false} ScopePicks(fs: Snapshot, git: Git, root: Path, salt: Salt, identity: string, projects: seq<Project>)
    ensures Picks(projects, OwnHash(fs, git, root, salt), Recorded(fs, git, root, salt, projects))
    ensures Picks(projects, OtherHash(fs, git, root, salt, identity), Unadmitted(fs, git, root, salt, identity, projects))
  {
    hide Belonging, OwnHash, OtherHash, Picks;
    var own, other := OwnHash(fs, git, root, salt), OtherHash(fs, git, root, salt, identity);
    if projects == [] {
      PicksNone(own);
      PicksNone(other);
    } else {
      hide Recorded, Unadmitted;
      var init, last := projects[..|projects| - 1], projects[|projects| - 1];
      assert projects == init + [last];
      ScopePicks(fs, git, root, salt, identity, init);
      ScopeSnoc(fs, git, root, salt, identity, init, last);
      PicksSnoc(init, last, own, Recorded(fs, git, root, salt, init));
      PicksSnoc(init, last, other, Unadmitted(fs, git, root, salt, identity, init));
    }
  }

  /** So which projects these are, and that none is both. */
  lemma ScopeMembers(fs: Snapshot, git: Git, root: Path, salt: Salt, identity: string, projects: seq<Project>, p: Project)
    ensures p in Recorded(fs, git, root, salt, projects) <==>
      && p in projects && p.cwd.Some? && root <= p.cwd.value && Belonging(fs, git, root, p.cwd.value)
      && salt(p.cwd.value) == Some(p.hash)
    ensures p in Unadmitted(fs, git, root, salt, identity, projects) <==>
      && p in projects && p.cwd.Some? && root <= p.cwd.value && Belonging(fs, git, root, p.cwd.value)
      && salt(p.cwd.value) != Some(p.hash) && p.hash != "" && p.hash != identity
    ensures !(p in Recorded(fs, git, root, salt, projects) && p in Unadmitted(fs, git, root, salt, identity, projects))
  {
    hide Recorded, Unadmitted, Belonging;
    ScopePicks(fs, git, root, salt, identity, projects);
    PicksMembers(projects, OwnHash(fs, git, root, salt), Recorded(fs, git, root, salt, projects), p);
    PicksMembers(projects, OtherHash(fs, git, root, salt, identity), Unadmitted(fs, git, root, salt, identity, projects), p);
  }

  /** The existing directories above any project recorded inside the root. */
  function Visited(fs: Snapshot, root: Path, projects: seq<Project>): set<Path> {
    if projects == [] then {}
    else
      var last := projects[|projects| - 1];
      Visited(fs, root, projects[..|projects| - 1])
      + if last.cwd.Some? && InsideRoot(root, last.cwd.value) then Existing(fs, last.cwd.value) else {}
  }

  predicate Decidable(fs: Snapshot, root: Path, projects: seq<Project>) {
    forall p :: p in projects && p.cwd.Some? && InsideRoot(root, p.cwd.value) ==>
      Climb(fs, root, p.cwd.value) != BoundaryUnknown
  }

  lemma SubsetSize<T>(a: set<T>, b: set<T>)
    requires a <= b
    ensures |a| <= |b|
  {
    assert b == a + (b - a);
  }

  lemma ScopeStep(fs: Snapshot, git: Git, root: Path, salt: Salt, identity: string, init: seq<Project>, last: Project)
    ensures var r, u := Recorded(fs, git, root, salt, init + [last]), Unadmitted(fs, git, root, salt, identity, init + [last]);
      var r0, u0 := Recorded(fs, git, root, salt, init), Unadmitted(fs, git, root, salt, identity, init);
      if !InWorktree(fs, git, root, last) then r == r0 && u == u0
      else if last.cwd.Some? && salt(last.cwd.value) == Some(last.hash) then r == r0 + [last] && u == u0
      else r == r0 && u == if last.hash == "" || last.hash == identity then u0 else u0 + [last]
  {
    hide Belonging;
    assert (init + [last])[..|init|] == init;
  }

  lemma VisitedSnoc(fs: Snapshot, root: Path, init: seq<Project>, last: Project)
    ensures Visited(fs, root, init + [last])
         == Visited(fs, root, init)
            + if last.cwd.Some? && InsideRoot(root, last.cwd.value) then Existing(fs, last.cwd.value) else {}
  {
    assert (init + [last])[..|init|] == init;
  }

  lemma NothingRecorded(fs: Snapshot, git: Git, root: Path, salt: Salt, identity: string)
    ensures Recorded(fs, git, root, salt, []) == [] && Unadmitted(fs, git, root, salt, identity, []) == []
    ensures Visited(fs, root, []) == {}
  {
  }

  /** The first `i` projects were asked about: what that remembered and cost. */
  ghost predicate Asked(m: Membership, projects: seq<Project>, i: nat)
    requires i <= |projects|
    reads m
  {
    && m.Valid() && m.gitCalls <= i
    && m.clean.Keys <= Visited(m.fs, m.root, projects[..i])
    && (Decidable(m.fs, m.root, projects) ==> m.gitCalls == 0 && m.lstats <= 2 * |m.clean| + i)
  }

  /** One project: whether its directory is in the worktree. */
  method AskOne(m: Membership, projects: seq<Project>, i: nat) returns (inside: bool)
    requires i < |projects| && Asked(m, projects, i)
    modifies m
    ensures Asked(m, projects, i + 1)
    ensures inside == InWorktree(m.fs, m.git, m.root, projects[i]) && (inside ==> projects[i].cwd.Some?)
  {
    var project := projects[i];
    assert projects[..i + 1] == projects[..i] + [project];
    VisitedSnoc(m.fs, m.root, projects[..i], project);
    hide Visited, Existing, Climb, Belonging;
    if project.cwd.None? || !InsideRoot(m.root, project.cwd.value) {
      return false;
    }
    BelongingIs(m.fs, m.git, m.root, project.cwd.value);
    inside := m.Belongs(project.cwd.value);
    assert project in projects;
  }

  lemma BelongingIs(fs: Snapshot, git: Git, root: Path, dir: Path)
    ensures Climb(fs, root, dir) != BoundaryUnknown ==> (Belonging(fs, git, root, dir) <==> Climb(fs, root, dir) == BoundaryNone)
  {
  }

  /** Admits what the uncached, always-asking loop would admit. When the
      filesystem settles every directory, git is never asked and the lstat calls
      are at most two per distinct existing directory and one per project. */
  method RecordedUnderRoot(fs: Snapshot, git: Git, root: Path, salt: Salt, identity: string, projects: seq<Project>)
      returns (recorded: seq<Project>, unadmitted: seq<Project>, ghost lstats: nat, ghost gitCalls: nat)
    ensures recorded == Recorded(fs, git, root, salt, projects)
    ensures unadmitted == Unadmitted(fs, git, root, salt, identity, projects)
    ensures gitCalls <= |projects|
    ensures Decidable(fs, root, projects) ==>
              gitCalls == 0 && lstats <= 2 * |Visited(fs, root, projects)| + |projects|
  {
    var membership := new Membership(root, fs, git);
    recorded, unadmitted := [], [];
    NothingRecorded(fs, git, root, salt, identity);
    assert projects[..0] == [] && Asked(membership, projects, 0);
    hide Recorded, Unadmitted, Asked, InWorktree;
    for i := 0 to |projects|
      invariant fresh(membership) && membership.root == root && membership.fs == fs && membership.git == git
      invariant Asked(membership, projects, i)
      invariant recorded == Recorded(fs, git, root, salt, projects[..i])
      invariant unadmitted == Unadmitted(fs, git, root, salt, identity, projects[..i])
    {
      var project := projects[i];
      assert projects[..i + 1] == projects[..i] + [project];
      ScopeStep(fs, git, root, salt, identity, projects[..i], project);
      var belongs := AskOne(membership, projects, i);
      if !belongs {
        continue;
      }
      var pathHash := salt(project.cwd.value);
      if pathHash.Some? && pathHash.value == project.hash {
        recorded := recorded + [project];
        continue;
      }
      if project.hash == "" || project.hash == identity {
        continue;
      }
      unadmitted := unadmitted + [project];
    }
    assert projects[..|projects|] == projects;
    AskedAll(membership, projects);
    lstats, gitCalls := membership.lstats, membership.gitCalls;
  }

  lemma AskedAll(m: Membership, projects: seq<Project>)
    requires Asked(m, projects, |projects|)
    ensures m.gitCalls <= |projects|
    ensures Decidable(m.fs, m.root, projects) ==>
              m.gitCalls == 0 && m.lstats <= 2 * |Visited(m.fs, m.root, projects)| + |projects|
  {
    assert projects[..|projects|] == projects;
    SubsetSize(m.clean.Keys, Visited(m.fs, m.root, projects));
    assert |m.clean| == |m.clean.Keys|;
  }

  // ----- agreement with git -----

  /** A disk: what lstat says, and where a path resolves once symlinks are followed. */
  datatype Disk = Disk(lstat: Snapshot, physical: Path -> Option<Path>)

  predicate HasGit(fs: Snapshot, dir: Path) {
    fs(dir + [DOT_GIT]) != Missing && fs(dir + [DOT_GIT]) != Unreadable
  }

  /** The nearest directory upwards that carries a `.git`. */
  function Nearest(fs: Snapshot, dir: Path): Option<Path>
    decreases |dir|
  {
    if HasGit(fs, dir) then Some(dir)
    else if fs(dir + [DOT_GIT]) == Unreadable || dir == [] then None
    else Nearest(fs, Parent(dir))
  }

  /** Git resolves symlinks, then looks upwards. */
  function Toplevel(disk: Disk, dir: Path): Option<Path> {
    match disk.physical(dir)
    case None => None
    case Some(there) => Nearest(disk.lstat, there)
  }

  /** A real directory's parent resolves, and the directory below it; a missing
      path resolves to nothing; one directory has one `.git`, however it is named. */
  ghost predicate CoherentAt(disk: Disk, p: Path) {
    && (p != [] && disk.lstat(p) == Directory ==>
          disk.physical(Parent(p)).Some?
          && disk.physical(p) == Some(disk.physical(Parent(p)).value + [p[|p| - 1]]))
    && (disk.lstat(p) == Missing ==> disk.physical(p).None?)
    && (disk.physical(p).Some? ==>
          disk.lstat(disk.physical(p).value + [DOT_GIT]) == disk.lstat(p + [DOT_GIT]))
  }

  ghost predicate Consistent(disk: Disk) {
    forall p :: CoherentAt(disk, p)
  }

  /** `root` is the physical top of a repository. */
  ghost predicate Canonical(disk: Disk, root: Path) {
    disk.physical(root) == Some(root) && HasGit(disk.lstat, root)
  }

  /** The directory whose `.git` ends the climb, if one does. */
  function StopsAt(fs: Snapshot, root: Path, dir: Path): Option<Path>
    decreases |dir|
  {
    if dir == root || fs(dir) != Directory then None
    else if HasGit(fs, dir) then Some(dir)
    else if fs(dir + [DOT_GIT]) == Unreadable || dir == [] then None
    else StopsAt(fs, root, Parent(dir))
  }

  lemma {:induction false} ClimbMeetsGit(disk: Disk, root: Path, dir: Path)
    requires Consistent(disk) && Canonical(disk, root) && InsideRoot(root, dir)
    requires Climb(disk.lstat, root, dir) != BoundaryUnknown && disk.physical(dir).Some?
    ensures Climb(disk.lstat, root, dir) == BoundaryNone ==>
              disk.physical(dir) == Some(dir) && Toplevel(disk, dir) == Some(root)
    ensures Climb(disk.lstat, root, dir) == BoundaryFound ==>
              StopsAt(disk.lstat, root, dir).Some?
              && Toplevel(disk, dir) == disk.physical(StopsAt(disk.lstat, root, dir).value)
    decreases |dir|
  {
    var fs := disk.lstat;
    assert CoherentAt(disk, dir);
    if dir != root && !HasGit(fs, dir) {
      var there, up := disk.physical(dir).value, Parent(dir);
      assert fs(there + [DOT_GIT]) == Missing;
      assert dir == up + [dir[|dir| - 1]] && Parent(there) == disk.physical(up).value;
      ClimbMeetsGit(disk, root, up);
    }
  }

  /** Membership agrees with git exactly when the climb does not end at a second
      name of the root itself: a `.git` found through a symlink that leads back
      to the root. */
  lemma BelongsAgreesWithGitIff(disk: Disk, root: Path, dir: Path)
    requires Consistent(disk) && Canonical(disk, root) && InsideRoot(root, dir)
    ensures var stop := StopsAt(disk.lstat, root, dir);
      (Belonging(disk.lstat, d => Toplevel(disk, d), root, dir) <==> Toplevel(disk, dir) == Some(root))
      <==> !(Climb(disk.lstat, root, dir) == BoundaryFound && stop.Some? && disk.physical(stop.value) == Some(root))
  {
    if Climb(disk.lstat, root, dir) != BoundaryUnknown {
      if disk.physical(dir).Some? {
        ClimbMeetsGit(disk, root, dir);
      } else {
        StopResolves(disk, root, dir);
      }
    }
  }

  /** A climb that ends at a `.git` started at a directory that resolves. */
  lemma StopResolves(disk: Disk, root: Path, dir: Path)
    requires Consistent(disk) && Canonical(disk, root) && InsideRoot(root, dir) && disk.physical(dir).None?
    ensures StopsAt(disk.lstat, root, dir).None? && Climb(disk.lstat, root, dir) != BoundaryNone
  {
    assert CoherentAt(disk, dir);
  }

  /** With real directories all the way, membership is git's own rule, and git
      is not asked: the nearest `.git` upwards is the root's. */
  lemma {:induction false} BelongsIsNearest(fs: Snapshot, git: Git, root: Path, dir: Path)
    requires InsideRoot(root, dir) && HasGit(fs, root)
    requires forall i :: |root| < i <= |dir| ==> fs(dir[..i]) == Directory && fs(dir[..i] + [DOT_GIT]) != Unreadable
    ensures Climb(fs, root, dir) != BoundaryUnknown
    ensures Belonging(fs, git, root, dir) <==> Nearest(fs, dir) == Some(root)
    decreases |dir|
  {
    assert dir[..|dir|] == dir && root[..|root|] == root;
    if |dir| == |root| {
      assert dir == root;
    } else {
      var up := Parent(dir);
      forall i | |root| < i <= |up|
        ensures fs(up[..i]) == Directory && fs(up[..i] + [DOT_GIT]) != Unreadable
      {
        assert up[..i] == dir[..i];
      }
      BelongsIsNearest(fs, git, root, up);
    }
  }

  /** Every name of a directory has the same entries, and they lead to the same places. */
  ghost predicate OneListing(disk: Disk) {
    forall p, name :: disk.physical(p).Some? ==>
      && disk.lstat(disk.physical(p).value + [name]) == disk.lstat(p + [name])
      && disk.physical(disk.physical(p).value + [name]) == disk.physical(p + [name])
  }

  /** The places of a small disk: /, /a, the repository /a/r and its .git. */
  datatype Place = Top | Upper | Repo | GitFile | Nowhere

  /** Where a name leads from a place; /a/r/l is a symlink to /a. */
  function Go(from: Place, name: string): Place {
    if from == Top && name == "a" then Upper
    else if from == Upper && name == "r" then Repo
    else if from == Repo && name == "l" then Upper
    else if from == Repo && name == DOT_GIT then GitFile
    else Nowhere
  }

  function PlaceOf(p: Path): Place {
    if p == [] then Top else Go(PlaceOf(Parent(p)), p[|p| - 1])
  }

  /** The name of a place without links. */
  function Name(place: Place): Path
    requires place != Nowhere
  {
    match place
    case Top => []
    case Upper => ["a"]
    case Repo => ["a", "r"]
    case GitFile => ["a", "r", DOT_GIT]
  }

  /** What a directory entry is. */
  function Kind(from: Place, name: string): Lstat {
    if from == GitFile then Unreadable
    else match Go(from, name)
      case Nowhere => Missing
      case GitFile => OtherFile
      case Upper => if from == Top then Directory else Symlink
      case _ => Directory
  }

  /** /a/r/l/r, /a/r/l/r/l/r and so on are further names of the repository. */
  function AliasDisk(): Disk {
    Disk(
      (p: Path) => if p == [] then Directory else Kind(PlaceOf(Parent(p)), p[|p| - 1]),
      (p: Path) => if PlaceOf(p) == Nowhere then None else Some(Name(PlaceOf(p))))
  }

  lemma OneName(p: Path, name: string)
    ensures Parent(p + [name]) == p && PlaceOf(p + [name]) == Go(PlaceOf(p), name)
    ensures AliasDisk().lstat(p + [name]) == Kind(PlaceOf(p), name)
  {
  }

  lemma NameOf(place: Place)
    requires place != Nowhere
    ensures PlaceOf(Name(place)) == place
  {
    OneName([], "a");
    OneName(["a"], "r");
    OneName(["a", "r"], DOT_GIT);
    assert [] + ["a"] == ["a"] && ["a"] + ["r"] == ["a", "r"] && ["a", "r"] + [DOT_GIT] == ["a", "r", DOT_GIT];
  }

  lemma AliasListing()
    ensures OneListing(AliasDisk())
  {
    var disk := AliasDisk();
    forall p, name | disk.physical(p).Some?
      ensures disk.lstat(disk.physical(p).value + [name]) == disk.lstat(p + [name])
      ensures disk.physical(disk.physical(p).value + [name]) == disk.physical(p + [name])
    {
      OneName(p, name);
      OneName(Name(PlaceOf(p)), name);
      NameOf(PlaceOf(p));
    }
  }

  /** A directory is found under its own name, a missing entry nowhere. */
  lemma KindIsPlace(from: Place, name: string)
    ensures Kind(from, name) == Directory ==>
              from != Nowhere && Go(from, name) != Nowhere && Name(Go(from, name)) == Name(from) + [name]
    ensures Kind(from, name) == Missing ==> Go(from, name) == Nowhere
  {
  }

  lemma AliasEntries(p: Path)
    ensures var disk := AliasDisk();
      && (p != [] && disk.lstat(p) == Directory ==>
            disk.physical(Parent(p)).Some?
            && disk.physical(p) == Some(disk.physical(Parent(p)).value + [p[|p| - 1]]))
      && (disk.lstat(p) == Missing ==> disk.physical(p).None?)
  {
    hide Go, Name, Kind;
    if p != [] {
      KindIsPlace(PlaceOf(Parent(p)), p[|p| - 1]);
    }
  }

  lemma AliasCoherent(p: Path)
    ensures CoherentAt(AliasDisk(), p)
  {
    hide AliasDisk;
    AliasEntries(p);
    AliasListing();
    var disk := AliasDisk();
    assert disk.physical(p).Some? ==> disk.lstat(disk.physical(p).value + [DOT_GIT]) == disk.lstat(p + [DOT_GIT]);
  }

  lemma RepoHasGit(p: Path)
    requires PlaceOf(p) == Repo
    ensures HasGit(AliasDisk().lstat, p)
  {
    OneName(p, DOT_GIT);
  }

  lemma TwoNames()
    ensures PlaceOf(["a", "r"]) == Repo && PlaceOf(["a", "r", "l", "r"]) == Repo
    ensures AliasDisk().lstat(["a", "r", "l", "r"]) == Directory
  {
    NameOf(Repo);
    OneName(["a", "r"], "l");
    OneName(["a", "r", "l"], "r");
    assert ["a", "r"] + ["l"] == ["a", "r", "l"] && ["a", "r", "l"] + ["r"] == ["a", "r", "l", "r"];
  }

  /** A second name of the root that is a directory is taken for another repository. */
  lemma SecondName(disk: Disk, root: Path, dir: Path)
    requires dir != root && disk.lstat(dir) == Directory && HasGit(disk.lstat, dir)
    requires disk.physical(dir) == Some(root) && HasGit(disk.lstat, root)
    ensures Toplevel(disk, dir) == Some(root)
    ensures !Belonging(disk.lstat, d => Toplevel(disk, d), root, dir)
  {
  }

  /** The disagreement exists: git resolves /a/r/l/r to the root, the climb stops
      at its `.git` and calls it another repository. */
  lemma AliasIsMissed()
    ensures var disk, root, dir := AliasDisk(), ["a", "r"], ["a", "r", "l", "r"];
      && OneListing(disk) && Consistent(disk) && Canonical(disk, root) && InsideRoot(root, dir)
      && Toplevel(disk, dir) == Some(root)
      && !Belonging(disk.lstat, d => Toplevel(disk, d), root, dir)
  {
    hide OneListing, PlaceOf, CoherentAt, Toplevel, Belonging, HasGit;
    var disk, root, dir := AliasDisk(), ["a", "r"], ["a", "r", "l", "r"];
    AliasListing();
    forall p
      ensures CoherentAt(disk, p)
    {
      AliasCoherent(p);
    }
    TwoNames();
    RepoHasGit(root);
    RepoHasGit(dir);
    SecondName(disk, root, dir);
  }
}
