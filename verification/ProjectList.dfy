/**
 * Which rows are projects at all, who may absorb whom, and the whole fold of the list
 * (packages/core/project-classify.ts, packages/core/projects-list.ts).
 */
module ProjectList {
  import opened Wrappers
  import opened Seqs
  import opened ProjectRollup
  import opened ProjectAccounts
  import opened ProjectFold

  const EPHEMERAL_PATH_ROOTS: seq<string> := ["/tmp", "/var/tmp", "/dev/shm", "/run"]
  const WORKSPACE_PATH_SEGMENTS: seq<string> := ["/fleet/workers/", "/workers/worker_"]
  const CONTAINER_MIN_CHILDREN := 2

  /** A row of the table; `canonical` is the one name its repository goes by. */
  datatype DbRow = DbRow(name: string, canonical: string, path: string, isRepo: bool)

  predicate IsEphemeralPath(p: string) {
    var s := CleanPath(p);
    p != "" && exists i :: 0 <= i < |EPHEMERAL_PATH_ROOTS| && (s == EPHEMERAL_PATH_ROOTS[i] || EPHEMERAL_PATH_ROOTS[i] + "/" <= s)
  }

  predicate IsWorkspacePath(p: string) {
    p != "" && exists i :: 0 <= i < |WORKSPACE_PATH_SEGMENTS| && Occurs(p, WORKSPACE_PATH_SEGMENTS[i])
  }

  predicate IsScratch(r: DbRow) {
    IsEphemeralPath(r.path) || IsWorkspacePath(r.path)
  }

  /** The names of scratch rows. */
  function Scratch(rows: seq<DbRow>): set<string> {
    if rows == [] then {}
    else
      var rest, r := Scratch(rows[..|rows| - 1]), rows[|rows| - 1];
      if IsScratch(r) then rest + {r.name} else rest
  }

  function Paths(rows: seq<DbRow>): seq<string> {
    if rows == [] then []
    else
      var rest, r := Paths(rows[..|rows| - 1]), rows[|rows| - 1];
      if r.path != "" then rest + [CleanPath(r.path)] else rest
  }

  /** A tracked directory with at least two tracked paths below it, neither scratch nor a git root. */
  predicate IsContainer(r: DbRow, all: seq<string>, scratch: set<string>) {
    r.path != "" && r.name !in scratch && !r.isRepo
    && CleanPath(r.path) in all && CleanPath(r.path) != "" && Below(all, CleanPath(r.path)) >= CONTAINER_MIN_CHILDREN
  }

  function Containers(rows: seq<DbRow>, all: seq<string>, scratch: set<string>): set<string> {
    if rows == [] then {}
    else
      var rest, r := Containers(rows[..|rows| - 1], all, scratch), rows[|rows| - 1];
      if IsContainer(r, all, scratch) then rest + {r.name} else rest
  }

  function ContainerPaths(rows: seq<DbRow>, containers: set<string>): set<string> {
    if rows == [] then {}
    else
      var rest, r := ContainerPaths(rows[..|rows| - 1], containers), rows[|rows| - 1];
      if r.path != "" && r.name in containers then rest + {CleanPath(r.path)} else rest
  }

  function Without(names: seq<string>, banned: set<string>): (r: seq<string>)
    ensures forall n :: n in r <==> n in names && n !in banned
  {
    if names == [] then []
    else
      assert names == names[..|names| - 1] + [names[|names| - 1]];
      var rest, n := Without(names[..|names| - 1], banned), names[|names| - 1];
      if n in banned then rest else rest + [n]
  }

  /** Names that get a row of their own, directories that hold many projects, scratch, and who may absorb others. */
  datatype Classification = Classification(repoNames: seq<string>, containers: set<string>, ephemeral: set<string>, foldTargets: seq<string>)

  /** Directories on disk and git roots that are not scratch. */
  function Base(rows: seq<DbRow>, fsNames: seq<string>): seq<string> {
    Without(fsNames + RepoRows(rows), Scratch(rows))
  }

  function RepoRows(rows: seq<DbRow>): seq<string> {
    if rows == [] then []
    else
      var rest, r := RepoRows(rows[..|rows| - 1]), rows[|rows| - 1];
      if r.isRepo then rest + [r.name] else rest
  }

  /** Inside another tracked path that is not a container. */
  predicate IsNested(self: string, paths: seq<string>, containerPaths: set<string>) {
    exists i :: 0 <= i < |paths| && IsUnder(self, paths[i]) && paths[i] !in containerPaths
  }

  /** A row that earns its name a place of its own: a free-standing directory, not scratch, that names no repo. */
  ghost predicate Promotes(r: DbRow, rows: seq<DbRow>, containers: set<string>, base: seq<string>) {
    r.path != "" && r.name !in Scratch(rows)
    && !IsNested(CleanPath(r.path), Paths(rows), ContainerPaths(rows, containers))
    && IsTarget(r.name, Without(base, containers), None)
  }

  ghost predicate Promoted(name: string, rows: seq<DbRow>, containers: set<string>, base: seq<string>, k: nat) {
    exists i :: 0 <= i < k && i < |rows| && rows[i].name == name && Promotes(rows[i], rows, containers, base)
  }

  /** The names with a row of their own are those on disk or at a git root, and those promoted, scratch excepted. */
  ghost predicate Classified(rows: seq<DbRow>, fsNames: seq<string>, c: Classification) {
    && c.ephemeral == Scratch(rows)
    && c.containers == Containers(rows, DistinctPaths(Paths(rows)), Scratch(rows))
    && c.foldTargets == Without(c.repoNames, c.containers)
    && (forall n :: n in c.repoNames <==> n in Base(rows, fsNames) || Promoted(n, rows, c.containers, Base(rows, fsNames), |rows|))
    && (forall n :: n in c.repoNames ==> n !in c.ephemeral)
  }

  method ClassifyProjectRows(rows: seq<DbRow>, fsNames: seq<string>) returns (c: Classification)
    ensures Classified(rows, fsNames, c)
  {
    var ephemeral, paths := Scratch(rows), Paths(rows);
    var counts := CountPathChildren(paths);
    var containers := FindContainers(rows, counts, ephemeral, DistinctPaths(paths));
    var repoNames := PromoteRows(rows, ephemeral, paths, containers, Base(rows, fsNames));
    c := Classification(repoNames, containers, ephemeral, Without(repoNames, containers));
  }

  /** Promotion: rows are judged against the repos already trusted, never against each other. */
  method PromoteRows(rows: seq<DbRow>, ephemeral: set<string>, paths: seq<string>, containers: set<string>, base: seq<string>)
      returns (repoNames: seq<string>)
    requires ephemeral == Scratch(rows) && paths == Paths(rows) && forall n :: n in base ==> n !in ephemeral
    ensures forall n :: n in repoNames <==> n in base || Promoted(n, rows, containers, base, |rows|)
    ensures forall n :: n in repoNames ==> n !in ephemeral
  {
    var baseTargets := Without(base, containers);
    var containerPaths := ContainerPaths(rows, containers);
    repoNames := base;
    for k := 0 to |rows|
      invariant forall n :: n in repoNames <==> n in base || Promoted(n, rows, containers, base, k)
      invariant forall n :: n in repoNames ==> n !in ephemeral
    {
      var r := rows[k];
      PromotedOneMore(rows, containers, base, k);
      if r.path == "" || r.name in repoNames || r.name in ephemeral { continue; }
      if IsNested(CleanPath(r.path), paths, containerPaths) { continue; }
      var target := RollupTarget(r.name, baseTargets);
      if target.Some? {
        if IsTarget(r.name, baseTargets, None) { TargetIsUnique(r.name, baseTargets, target, None); }
        continue;
      }
      repoNames := repoNames + [r.name];
    }
  }

  lemma PromotedOneMore(rows: seq<DbRow>, containers: set<string>, base: seq<string>, k: nat)
    requires k < |rows|
    ensures forall n :: Promoted(n, rows, containers, base, k + 1)
              <==> Promoted(n, rows, containers, base, k) || (n == rows[k].name && Promotes(rows[k], rows, containers, base))
  {
    forall n
      ensures Promoted(n, rows, containers, base, k + 1)
              <==> Promoted(n, rows, containers, base, k) || (n == rows[k].name && Promotes(rows[k], rows, containers, base))
    {
      if Promoted(n, rows, containers, base, k) {
        var i :| 0 <= i < k && rows[i].name == n && Promotes(rows[i], rows, containers, base);
        assert i < k + 1;
      }
    }
  }

  method FindContainers(rows: seq<DbRow>, counts: map<string, nat>, ephemeral: set<string>, ghost all: seq<string>) returns (containers: set<string>)
    requires forall q :: CountIn(counts, q) == if q in all && q != "" then Below(all, q) else 0
    ensures containers == Containers(rows, all, ephemeral)
  {
    containers := {};
    for k := 0 to |rows|
      invariant containers == Containers(rows[..k], all, ephemeral)
    {
      var r := rows[k];
      assert rows[..k + 1][..k] == rows[..k];
      assert CountIn(counts, CleanPath(r.path)) >= CONTAINER_MIN_CHILDREN
             <==> CleanPath(r.path) in all && CleanPath(r.path) != "" && Below(all, CleanPath(r.path)) >= CONTAINER_MIN_CHILDREN;
      if r.path != "" && r.name !in ephemeral && !r.isRepo && CountIn(counts, CleanPath(r.path)) >= CONTAINER_MIN_CHILDREN {
        containers := containers + {r.name};
      }
    }
    TakeAll(rows);
  }

  // ── Where scratch rows go ────────────────────────────────────────

  /** The rows a scratch path may fold into. */
  function FoldablePaths(rows: seq<DbRow>, c: Classification): seq<Candidate> {
    if rows == [] then []
    else
      var rest, r := FoldablePaths(rows[..|rows| - 1], c), rows[|rows| - 1];
      if r.path != "" && r.name !in c.ephemeral && r.canonical in c.repoNames
      then rest + [Candidate(r.canonical, CleanPath(r.path))] else rest
  }

  lemma {:induction false} FoldableAreRepos(rows: seq<DbRow>, c: Classification)
    ensures forall i :: 0 <= i < |FoldablePaths(rows, c)| ==> FoldablePaths(rows, c)[i].name in c.repoNames
  {
    if rows != [] { FoldableAreRepos(rows[..|rows| - 1], c); }
  }

  /** A scratch row points to the nearest foldable path above its own, unless there is none or it goes by the row's own name. */
  function PointsTo(r: DbRow, ephemeral: set<string>, foldable: seq<Candidate>): Option<string> {
    if r.name !in ephemeral || r.path == "" then None
    else
      var parent := AncestorOf(CleanPath(r.path), foldable);
      if parent.Some? && parent.value != "" && parent.value != r.name then parent else None
  }

  /** Where a row points, if anywhere. */
  type Pointing = DbRow -> Option<string>

  function PointingOf(rows: seq<DbRow>, c: Classification): Pointing {
    (r: DbRow) => PointsTo(r, c.ephemeral, FoldablePaths(rows, c))
  }

  function PathFoldOf(rows: seq<DbRow>, points: Pointing): map<string, string> {
    if rows == [] then map[]
    else
      var rest, r := PathFoldOf(rows[..|rows| - 1], points), rows[|rows| - 1];
      if points(r).Some? then rest[r.name := points(r).value] else rest
  }

  /** Row `i` is the last of its name that points anywhere. */
  ghost predicate LastToPoint(rows: seq<DbRow>, points: Pointing, i: nat, name: string) {
    && i < |rows| && rows[i].name == name && points(rows[i]).Some?
    && forall j :: i < j < |rows| && rows[j].name == name ==> points(rows[j]).None?
  }

  /** The map holds exactly the names with a row that points somewhere, each with where the last such row does. */
  lemma {:induction false} PathFoldMeans(rows: seq<DbRow>, points: Pointing, name: string)
    ensures name in PathFoldOf(rows, points) <==> exists i: nat :: LastToPoint(rows, points, i, name)
    ensures forall i: nat :: LastToPoint(rows, points, i, name) ==> points(rows[i]) == Some(PathFoldOf(rows, points)[name])
  {
    if rows != [] {
      var k := |rows| - 1;
      PathFoldMeans(rows[..k], points, name);
      if rows[k].name == name && points(rows[k]).Some? {
        assert LastToPoint(rows, points, k, name);
      } else {
        forall i: nat ensures LastToPoint(rows, points, i, name) <==> LastToPoint(rows[..k], points, i, name) {
          LastToPointOneMore(rows, points, i, name);
        }
      }
    }
  }

  lemma LastToPointOneMore(rows: seq<DbRow>, points: Pointing, i: nat, name: string)
    requires rows != [] && !(rows[|rows| - 1].name == name && points(rows[|rows| - 1]).Some?)
    ensures LastToPoint(rows, points, i, name) <==> LastToPoint(rows[..|rows| - 1], points, i, name)
  {
  }

  /** Scratch goes only into repos. */
  ghost predicate FoldsScratchIntoRepos(pathFold: map<string, string>, c: Classification) {
    forall n :: n in pathFold ==> n in c.ephemeral && pathFold[n] in c.repoNames
  }

  lemma PathFoldIsIntoRepos(rows: seq<DbRow>, c: Classification)
    ensures FoldsScratchIntoRepos(PathFoldOf(rows, PointingOf(rows, c)), c)
  {
    var foldable, points := FoldablePaths(rows, c), PointingOf(rows, c);
    FoldableAreRepos(rows, c);
    forall n | n in PathFoldOf(rows, points) ensures n in c.ephemeral && PathFoldOf(rows, points)[n] in c.repoNames {
      PathFoldMeans(rows, points, n);
      var i: nat :| LastToPoint(rows, points, i, n);
      assert IsAncestor(CleanPath(rows[i].path), foldable, points(rows[i]));
    }
  }

  method FindPathFold(rows: seq<DbRow>, c: Classification) returns (pathFold: map<string, string>)
    ensures pathFold == PathFoldOf(rows, PointingOf(rows, c))
    ensures FoldsScratchIntoRepos(pathFold, c)
  {
    var foldable := FoldablePaths(rows, c);
    pathFold := map[];
    for k := 0 to |rows|
      invariant pathFold == PathFoldOf(rows[..k], PointingOf(rows, c))
    {
      var r := rows[k];
      assert rows[..k + 1][..k] == rows[..k];
      if r.name !in c.ephemeral || r.path == "" { continue; }
      var parent := AncestorByPath(CleanPath(r.path), foldable);
      AncestorIsUnique(CleanPath(r.path), foldable, parent, AncestorOf(CleanPath(r.path), foldable));
      if parent.Some? && parent.value != "" && parent.value != r.name {
        pathFold := pathFold[r.name := parent.value];
      }
    }
    TakeAll(rows);
    PathFoldIsIntoRepos(rows, c);
  }

  function RulesOf(c: Classification): Rules {
    Rules((set n | n in c.repoNames), c.foldTargets, false)
  }

  /**
   * Classify the rows, fold by path, then by name. Whatever the table and the disk hold, every session,
   * message and token is on a row listed or on an orphan left off, each with those of the rows folded into it.
   */
  method BuildProjectList(merged: seq<ProjectRow>, rows: seq<DbRow>, fsNames: seq<string>)
      returns (lists: Lists, ghost c: Classification, ghost pathFold: map<string, string>, ghost fates: seq<Fate>)
    requires DistinctRows(merged)
    modifies merged
    ensures Classified(rows, fsNames, c)
    ensures pathFold == PathFoldOf(rows, PointingOf(rows, c))
    ensures FoldedTwice(merged, old(Accounts(merged)), pathFold, RulesOf(c), lists, Accounts(lists.out), Accounts(lists.orphans), fates)
    ensures forall f :: Total(lists.out, f) + Total(lists.orphans, f) == old(Total(merged, f))
  {
    var classes := ClassifyProjectRows(rows, fsNames);
    var folds := FindPathFold(rows, classes);
    assert FlatMap(folds);
    lists, fates := FoldProjects(merged, folds, RulesOf(classes));
    c, pathFold := classes, folds;
  }
}
