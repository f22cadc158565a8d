/**
 * Where a project row belongs (packages/core/project-rollup.ts): the longest repo whose name begins it, the
 * nearest directory above it, and how many tracked paths lie under each path.
 */
module ProjectRollup {
  import opened Wrappers
  import opened Seqs

  // ── Names ────────────────────────────────────────────────────────

  function IndexOfChar(s: string, c: char, i: nat): (r: Option<nat>)
    ensures r.Some? ==> i <= r.value < |s| && s[r.value] == c
    decreases |s| - i
  {
    if i >= |s| then None else if s[i] == c then Some(i) else IndexOfChar(s, c, i + 1)
  }

  /** Without its harness prefix and without leading dashes. */
  function Slug(name: string): string {
    var i := IndexOfChar(name, ':', 0);
    TrimDashes(if i.Some? then name[i.value + 1..] else name)
  }

  function TrimDashes(s: string): string {
    if s != "" && s[0] == '-' then TrimDashes(s[1..]) else s
  }

  /** A repo's slug begins the target's, and ends where a segment does. */
  predicate Begins(target: string, r: string) {
    r != "" && r <= target && (|r| < |target| ==> target[|r|] == '-')
  }

  predicate OccursAt(s: string, t: string, i: nat) {
    i + |t| <= |s| && s[i..i + |t|] == t
  }

  predicate Occurs(s: string, t: string) {
    exists i :: 0 <= i <= |s| && OccursAt(s, t, i)
  }

  /** A repo's slug stands inside the target's, a segment or several of their own; not where it begins the text. */
  predicate Within(target: string, r: string) {
    r != "" && |r| <= |target| && !(r <= target) && Occurs(target, "-" + r + "-")
  }

  /** Repo `k` matches, none that matches is longer, and none before it is as long. */
  ghost predicate FirstLongest(repos: seq<string>, k: nat, matches: string -> bool) {
    && k < |repos| && matches(Slug(repos[k]))
    && forall j :: 0 <= j < |repos| && matches(Slug(repos[j]))
         ==> if j < k then |Slug(repos[j])| < |Slug(repos[k])| else |Slug(repos[j])| <= |Slug(repos[k])|
  }

  ghost predicate Longest(repos: seq<string>, t: string, matches: string -> bool) {
    exists k: nat :: FirstLongest(repos, k, matches) && repos[k] == t
  }

  function BeginsIn(slug: string): string -> bool {
    r => slug != "" && Begins(slug, r)
  }

  function WithinIn(slug: string): string -> bool {
    r => slug != "" && Within(slug, r)
  }

  ghost predicate NoMatch(repos: seq<string>, matches: string -> bool) {
    forall j :: 0 <= j < |repos| ==> !matches(Slug(repos[j]))
  }

  /** What a name rolls up to among the repos: the longest that begins it, or failing that the longest within it. */
  ghost predicate IsTarget(name: string, repos: seq<string>, t: Option<string>) {
    var begins, within := BeginsIn(Slug(name)), WithinIn(Slug(name));
    if t.None? then NoMatch(repos, begins) && NoMatch(repos, within)
    else Longest(repos, t.value, begins) || (NoMatch(repos, begins) && Longest(repos, t.value, within))
  }

  /** What a name rolls up to is determined. */
  lemma TargetIsUnique(name: string, repos: seq<string>, t: Option<string>, u: Option<string>)
    requires IsTarget(name, repos, t) && IsTarget(name, repos, u)
    ensures t == u
  {
    var begins, within := BeginsIn(Slug(name)), WithinIn(Slug(name));
    if t.Some? && Longest(repos, t.value, begins) && u.Some? && Longest(repos, u.value, begins) {
      LongestIsUnique(repos, t.value, u.value, begins);
    } else if t.Some? && u.Some? && Longest(repos, t.value, within) && Longest(repos, u.value, within) {
      LongestIsUnique(repos, t.value, u.value, within);
    }
  }

  lemma LongestIsUnique(repos: seq<string>, t: string, u: string, matches: string -> bool)
    requires Longest(repos, t, matches) && Longest(repos, u, matches)
    ensures t == u
  {
    var j: nat :| FirstLongest(repos, j, matches) && repos[j] == t;
    var k: nat :| FirstLongest(repos, k, matches) && repos[k] == u;
    assert !(j < k) && !(k < j);
  }

  ghost predicate SoFar(repos: seq<string>, best: Option<string>, bestLen: int, matches: string -> bool) {
    if best.Some? then Longest(repos, best.value, matches) && bestLen == |Slug(best.value)|
    else bestLen == -1 && NoMatch(repos, matches)
  }

  lemma Consider(repos: seq<string>, repo: string, best: Option<string>, bestLen: int, matches: string -> bool)
    requires SoFar(repos, best, bestLen, matches)
    ensures matches(Slug(repo)) && |Slug(repo)| > bestLen ==> SoFar(repos + [repo], Some(repo), |Slug(repo)|, matches)
    ensures !(matches(Slug(repo)) && |Slug(repo)| > bestLen) ==> SoFar(repos + [repo], best, bestLen, matches)
  {
    var more := repos + [repo];
    if matches(Slug(repo)) && |Slug(repo)| > bestLen {
      assert FirstLongest(more, |repos|, matches);
    } else if best.Some? {
      var k: nat :| FirstLongest(repos, k, matches) && repos[k] == best.value;
      assert FirstLongest(more, k, matches);
    }
  }

  method RollupTarget(name: string, repos: seq<string>) returns (t: Option<string>)
    ensures IsTarget(name, repos, t)
  {
    var target := Slug(name);
    if target == "" { return None; }
    var best: Option<string>, bestLen := None, -1;
    var inner: Option<string>, innerLen := None, -1;
    for k := 0 to |repos|
      invariant SoFar(repos[..k], best, bestLen, BeginsIn(target)) && SoFar(repos[..k], inner, innerLen, WithinIn(target))
    {
      TakeOneMore(repos, k);
      Consider(repos[..k], repos[k], best, bestLen, BeginsIn(target));
      Consider(repos[..k], repos[k], inner, innerLen, WithinIn(target));
      best, bestLen, inner, innerLen := TryRepo(target, repos[k], best, bestLen, inner, innerLen);
    }
    TakeAll(repos);
    t := if best.Some? then best else inner;
  }

  /** One repo: a match at the head of the name is tried for `best`, one inside it for `inner`. */
  method TryRepo(target: string, repo: string, best0: Option<string>, bestLen0: int, inner0: Option<string>, innerLen0: int)
      returns (best: Option<string>, bestLen: int, inner: Option<string>, innerLen: int)
    requires target != ""
    ensures (best, bestLen) == if BeginsIn(target)(Slug(repo)) && |Slug(repo)| > bestLen0 then (Some(repo), |Slug(repo)|) else (best0, bestLen0)
    ensures (inner, innerLen) == if WithinIn(target)(Slug(repo)) && |Slug(repo)| > innerLen0 then (Some(repo), |Slug(repo)|) else (inner0, innerLen0)
  {
    best, bestLen, inner, innerLen := best0, bestLen0, inner0, innerLen0;
    var r := Slug(repo);
    if r == "" || |r| > |target| { return; }
    if r <= target {
      if |target| != |r| && target[|r|] != '-' { return; }
      if |r| > bestLen { best, bestLen := Some(repo), |r|; }
      return;
    }
    if Occurs(target, "-" + r + "-") && |r| > innerLen { inner, innerLen := Some(repo), |r|; }
  }

  // ── Paths ────────────────────────────────────────────────────────

  /** One spelling per directory: no slash at its end. */
  function CleanPath(p: string): string {
    if p != "" && p[|p| - 1] == '/' then CleanPath(p[..|p| - 1]) else p
  }

  /** `q` is a directory above `p`. */
  predicate IsUnder(p: string, q: string) {
    |q| < |p| && p[..|q|] == q && p[|q|] == '/'
  }

  datatype Candidate = Candidate(name: string, path: string)

  /** Candidate `k` lies above the path, none that does is nearer, and none before it is as near. */
  ghost predicate Nearest(path: string, candidates: seq<Candidate>, k: nat) {
    && k < |candidates| && IsUnder(CleanPath(path), CleanPath(candidates[k].path))
    && forall j :: 0 <= j < |candidates| && IsUnder(CleanPath(path), CleanPath(candidates[j].path))
         ==> if j < k then |CleanPath(candidates[j].path)| < |CleanPath(candidates[k].path)|
             else |CleanPath(candidates[j].path)| <= |CleanPath(candidates[k].path)|
  }

  ghost predicate IsAncestor(path: string, candidates: seq<Candidate>, best: Option<string>) {
    if best.Some? then exists k: nat :: Nearest(path, candidates, k) && candidates[k].name == best.value
    else forall k :: 0 <= k < |candidates| ==> !IsUnder(CleanPath(path), CleanPath(candidates[k].path))
  }

  /** And so is the nearest directory above a path. */
  lemma AncestorIsUnique(path: string, candidates: seq<Candidate>, a: Option<string>, b: Option<string>)
    requires IsAncestor(path, candidates, a) && IsAncestor(path, candidates, b)
    ensures a == b
  {
    if a.Some? && b.Some? {
      var j: nat :| Nearest(path, candidates, j) && candidates[j].name == a.value;
      var k: nat :| Nearest(path, candidates, k) && candidates[k].name == b.value;
      assert !(j < k) && !(k < j);
    }
  }

  function NearestIndex(path: string, candidates: seq<Candidate>): (r: Option<nat>)
    ensures r.Some? ==> Nearest(path, candidates, r.value)
    ensures r.None? ==> forall k :: 0 <= k < |candidates| ==> !IsUnder(CleanPath(path), CleanPath(candidates[k].path))
  {
    if candidates == [] then None
    else
      var k, q := |candidates| - 1, CleanPath(candidates[|candidates| - 1].path);
      var rest := NearestIndex(path, candidates[..k]);
      if IsUnder(CleanPath(path), q) && (rest.None? || |CleanPath(candidates[rest.value].path)| < |q|) then Some(k) else rest
  }

  function AncestorOf(path: string, candidates: seq<Candidate>): (r: Option<string>)
    ensures IsAncestor(path, candidates, r)
  {
    var k := NearestIndex(path, candidates);
    if k.Some? then Some(candidates[k.value].name) else None
  }

  /** The name of the nearest candidate above a path. */
  method AncestorByPath(path: string, candidates: seq<Candidate>) returns (best: Option<string>)
    ensures IsAncestor(path, candidates, best)
  {
    var self := CleanPath(path);
    ghost var at: nat := 0;
    var bestLen := -1;
    best := None;
    for k := 0 to |candidates|
      invariant best.Some? ==> Nearest(path, candidates[..k], at) && best.value == candidates[at].name && bestLen == |CleanPath(candidates[at].path)|
      invariant best.None? ==> bestLen == -1 && forall j :: 0 <= j < k ==> !IsUnder(self, CleanPath(candidates[j].path))
    {
      var q := CleanPath(candidates[k].path);
      if |q| >= |self| || !(q + "/" <= self) { continue; }
      assert IsUnder(self, q) by { assert self[..|q|] == q && self[|q|] == (q + "/")[|q|]; }
      if |q| > bestLen { bestLen, best, at := |q|, Some(candidates[k].name), k; }
    }
    TakeAll(candidates);
  }

  // ── Children ─────────────────────────────────────────────────────

  function LastSlash(s: string): (r: int)
    ensures -1 <= r < |s| && (r >= 0 ==> s[r] == '/') && forall i :: r < i < |s| ==> s[i] != '/'
  {
    if s == "" then -1 else if s[|s| - 1] == '/' then |s| - 1 else LastSlash(s[..|s| - 1])
  }

  function CountIn(counts: map<string, nat>, q: string): nat {
    if q in counts then counts[q] else 0
  }

  /** How many of the paths lie under `q`: the comparison of every pair. */
  function Below(paths: seq<string>, q: string): nat {
    if paths == [] then 0 else Below(paths[..|paths| - 1], q) + if IsUnder(paths[|paths| - 1], q) then 1 else 0
  }

  function Cleaned(paths: seq<string>): (all: set<string>)
    ensures forall q :: q in all <==> exists i :: 0 <= i < |paths| && CleanPath(paths[i]) == q
  {
    set i | 0 <= i < |paths| :: CleanPath(paths[i])
  }

  ghost predicate IsListing(all: seq<string>, members: set<string>) {
    && (forall p :: p in all <==> p in members)
    && (forall i, j :: 0 <= i < j < |all| ==> all[i] != all[j])
  }

  /** The paths, trailing slashes gone, without repeats. */
  function DistinctPaths(paths: seq<string>): seq<string> {
    if paths == [] then []
    else
      var rest, p := DistinctPaths(paths[..|paths| - 1]), CleanPath(paths[|paths| - 1]);
      if p in rest then rest else rest + [p]
  }

  /** Each of them once, where it first came. */
  lemma {:induction false} DistinctPathsAreListed(paths: seq<string>)
    ensures IsListing(DistinctPaths(paths), Cleaned(paths))
  {
    if paths != [] {
      var k := |paths| - 1;
      DistinctPathsAreListed(paths[..k]);
      TakeAll(paths);
      forall q ensures q in Cleaned(paths) <==> q in Cleaned(paths[..k]) || q == CleanPath(paths[k]) {
        OneMorePath(paths, k, q);
      }
    }
  }

  method Distinct(paths: seq<string>) returns (all: seq<string>)
    ensures all == DistinctPaths(paths)
  {
    all := [];
    for k := 0 to |paths|
      invariant all == DistinctPaths(paths[..k])
    {
      var p := CleanPath(paths[k]);
      assert paths[..k + 1][..k] == paths[..k];
      if p !in all { all := all + [p]; }
    }
    TakeAll(paths);
  }

  lemma OneMorePath(paths: seq<string>, k: nat, q: string)
    requires k < |paths|
    ensures q in Cleaned(paths[..k + 1]) <==> q in Cleaned(paths[..k]) || q == CleanPath(paths[k])
  {
    if q in Cleaned(paths[..k]) {
      var i :| 0 <= i < k && CleanPath(paths[..k][i]) == q;
      assert CleanPath(paths[..k + 1][i]) == q;
    }
    if q == CleanPath(paths[k]) { assert CleanPath(paths[..k + 1][k]) == q; }
    if q in Cleaned(paths[..k + 1]) {
      var i :| 0 <= i < k + 1 && CleanPath(paths[..k + 1][i]) == q;
      if i < k { assert CleanPath(paths[..k][i]) == q; }
    }
  }

  /** What walking up from `p` has counted once it stands at its first `c` characters. */
  ghost predicate Walked(all: seq<string>, base: map<string, nat>, counts: map<string, nat>, p: string, c: nat) {
    forall q :: CountIn(counts, q)
                == CountIn(base, q) + if q in all && q != "" && c <= |q| && IsUnder(p, q) then 1 else 0
  }

  method WalkUp(all: seq<string>, p: string, base: map<string, nat>) returns (counts: map<string, nat>)
    ensures Walked(all, base, counts, p, 1)
  {
    counts := base;
    var cur := p;
    while true
      invariant |cur| <= |p| && p[..|cur|] == cur
      invariant Walked(all, base, counts, p, |cur|)
      decreases |cur|
    {
      var slash := LastSlash(cur);
      WalkStep(all, base, counts, p, |cur|, slash);
      if slash <= 0 { break; }
      cur := cur[..slash];
      if cur in all { counts := counts[cur := CountIn(counts, cur) + 1]; }
    }
  }

  lemma WalkStep(all: seq<string>, base: map<string, nat>, counts: map<string, nat>, p: string, c: nat, slash: int)
    requires c <= |p| && slash == LastSlash(p[..c]) && Walked(all, base, counts, p, c)
    ensures slash <= 0 ==> Walked(all, base, counts, p, 1)
    ensures slash > 0 ==> var q := p[..slash];
                          Walked(all, base, if q in all then counts[q := CountIn(counts, q) + 1] else counts, p, slash)
  {
    forall q | IsUnder(p, q) && |q| < c
      ensures |q| <= slash
    {
      assert p[..c][|q|] == p[|q|];
    }
    if slash > 0 {
      var cur := p[..slash];
      assert p[..c][slash] == p[slash];
      forall q | IsUnder(p, q) && |q| == slash ensures q == cur { }
      assert IsUnder(p, cur);
    }
  }

  /** What the first `k` paths have counted. */
  ghost predicate Counted(list: seq<string>, k: nat, counts: map<string, nat>)
    requires k <= |list|
  {
    forall q :: CountIn(counts, q) == if q in list && q != "" then Below(list[..k], q) else 0
  }

  lemma CountedOneMore(list: seq<string>, k: nat, before: map<string, nat>, counts: map<string, nat>)
    requires k < |list| && Counted(list, k, before) && Walked(list, before, counts, list[k], 1)
    ensures Counted(list, k + 1, counts)
  {
    forall q ensures CountIn(counts, q) == if q in list && q != "" then Below(list[..k + 1], q) else 0 {
      assert CountIn(before, q) == if q in list && q != "" then Below(list[..k], q) else 0;
      assert list[..k + 1][..k] == list[..k];
    }
  }

  /** How many tracked paths sit under each tracked path, each path walking up its own ancestors. */
  method CountPathChildren(paths: seq<string>) returns (counts: map<string, nat>)
    ensures forall q :: CountIn(counts, q) == if q in DistinctPaths(paths) && q != "" then Below(DistinctPaths(paths), q) else 0
  {
    var list := Distinct(paths);
    counts := map[];
    for k := 0 to |list|
      invariant Counted(list, k, counts)
    {
      ghost var before := counts;
      counts := WalkUp(list, list[k], counts);
      CountedOneMore(list, k, before, counts);
    }
    TakeAll(list);
  }
}
