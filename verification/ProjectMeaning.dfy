/**
 * What the roll-up of names and paths means, spelled out on the text itself
 * (packages/core/project-rollup.ts, packages/core/project-classify.ts).
 */
module ProjectMeaning {
  import opened Wrappers
  import opened Seqs
  import opened ProjectAccounts
  import opened ProjectRollup
  import opened ProjectList

  // ── Names ────────────────────────────────────────────────────────

  ghost predicate Only(s: string, c: char) {
    forall i :: 0 <= i < |s| ==> s[i] == c
  }

  /** Where a name's own text starts: after its first colon, or at once when it has none. */
  ghost predicate StartsAt(name: string, cut: nat) {
    && cut <= |name|
    && if ':' in name then cut > 0 && name[cut - 1] == ':' && ':' !in name[..cut - 1] else cut == 0
  }

  /** `bare` is what is left of a name once its harness, up to the first colon, and then its leading dashes are gone. */
  ghost predicate IsBare(name: string, bare: string) {
    && (bare != "" ==> bare[0] != '-')
    && exists cut: nat, k: nat :: StartsAt(name, cut) && cut <= k <= |name| && Only(name[cut..k], '-') && name[k..] == bare
  }

  lemma {:induction false} TrimMeans(s: string) returns (k: nat)
    ensures k <= |s| && Only(s[..k], '-') && s[k..] == TrimDashes(s)
    ensures TrimDashes(s) != "" ==> TrimDashes(s)[0] != '-'
  {
    if s != "" && s[0] == '-' {
      var j := TrimMeans(s[1..]);
      k := j + 1;
      assert s[1..][j..] == s[k..];
      assert s[..k] == [s[0]] + s[1..][..j];
    } else {
      k := 0;
      assert s[0..] == s;
    }
  }

  lemma {:induction false} FirstColon(s: string, i: nat)
    requires i <= |s| && ':' !in s[..i]
    ensures var r := IndexOfChar(s, ':', i);
            if r.Some? then ':' in s && ':' !in s[..r.value] else ':' !in s
    decreases |s| - i
  {
    if i < |s| && s[i] != ':' {
      assert s[..i + 1] == s[..i] + [s[i]];
      FirstColon(s, i + 1);
    } else if i == |s| {
      assert s[..i] == s;
    }
  }

  lemma SlugIsBare(name: string)
    ensures IsBare(name, Slug(name))
  {
    FirstColon(name, 0);
    var i := IndexOfChar(name, ':', 0);
    var cut := if i.Some? then i.value + 1 else 0;
    var k := TrimMeans(name[cut..]);
    assert name[cut..][..k] == name[cut..cut + k];
    assert name[cut..][k..] == name[cut + k..];
    assert StartsAt(name, cut);
  }

  lemma StartIsUnique(name: string, c: nat, d: nat)
    requires StartsAt(name, c) && StartsAt(name, d)
    ensures c == d
  {
    assert forall i :: 0 <= i < c - 1 ==> name[..c - 1][i] == name[i];
    assert forall i :: 0 <= i < d - 1 ==> name[..d - 1][i] == name[i];
  }

  lemma DashesUpTo(name: string, cut: nat, k: nat)
    requires cut <= k <= |name| && Only(name[cut..k], '-') && (name[k..] != "" ==> name[k..][0] != '-')
    ensures forall i :: cut <= i < k ==> name[i] == '-'
    ensures k < |name| ==> name[k] != '-'
  {
    assert forall i :: cut <= i < k ==> name[cut..k][i - cut] == name[i];
  }

  /** There is only one such text. */
  lemma BareIsUnique(name: string, a: string, b: string)
    requires IsBare(name, a) && IsBare(name, b)
    ensures a == b
  {
    var c: nat, j: nat :| StartsAt(name, c) && c <= j <= |name| && Only(name[c..j], '-') && name[j..] == a;
    var d: nat, k: nat :| StartsAt(name, d) && d <= k <= |name| && Only(name[d..k], '-') && name[k..] == b;
    StartIsUnique(name, c, d);
    DashesUpTo(name, c, j);
    DashesUpTo(name, d, k);
    assert j == k;
  }

  /** The name is the repo's, or the repo's, a dash, and more. */
  ghost predicate AtHead(name: string, repo: string) {
    repo != "" && (name == repo || exists rest: string :: name == repo + "-" + rest)
  }

  /** The repo's stands in the name between two dashes, and the name does not start with its letters. */
  ghost predicate Inside(name: string, repo: string) {
    && repo != "" && (exists before: string, rest: string :: name == before + "-" + repo + "-" + rest)
    && forall rest: string :: name != repo + rest
  }

  ghost predicate Bares(names: seq<string>, bares: seq<string>) {
    |bares| == |names| && forall k :: 0 <= k < |names| ==> IsBare(names[k], bares[k])
  }

  /** The longest that fits, and the first of those as long. */
  ghost predicate Picked(bares: seq<string>, k: nat, fits: string -> bool) {
    && k < |bares| && fits(bares[k])
    && forall j :: 0 <= j < |bares| && fits(bares[j]) ==> if j < k then |bares[j]| < |bares[k]| else |bares[j]| <= |bares[k]|
  }

  ghost function HeadOf(name: string): string -> bool {
    (repo: string) => AtHead(name, repo)
  }

  ghost function InsideOf(name: string): string -> bool {
    (repo: string) => Inside(name, repo)
  }

  ghost predicate NoneFits(bares: seq<string>, fits: string -> bool) {
    forall j :: 0 <= j < |bares| ==> !fits(bares[j])
  }

  /** The longest repo at the head of the name; failing any, the longest inside it; failing that too, none. */
  ghost predicate TargetMeans(name: string, repos: seq<string>, bares: seq<string>, t: Option<string>)
    requires |bares| == |repos|
  {
    match t
    case None => NoneFits(bares, HeadOf(name)) && NoneFits(bares, InsideOf(name))
    case Some(repo) =>
      || (exists k: nat :: Picked(bares, k, HeadOf(name)) && repos[k] == repo)
      || (NoneFits(bares, HeadOf(name)) && exists k: nat :: Picked(bares, k, InsideOf(name)) && repos[k] == repo)
  }

  lemma AtHeadIff(name: string, repo: string)
    ensures AtHead(name, repo) <==> BeginsIn(name)(repo)
  {
    if BeginsIn(name)(repo) && |repo| < |name| {
      assert name == repo + "-" + name[|repo| + 1..];
    }
    if AtHead(name, repo) && name != repo {
      var rest: string :| name == repo + "-" + rest;
      assert name[..|repo|] == repo && name[|repo|] == '-';
    }
  }

  lemma OccursIff(s: string, t: string)
    ensures Occurs(s, t) <==> exists before: string, rest: string :: s == before + t + rest
  {
    if Occurs(s, t) {
      var i :| 0 <= i <= |s| && OccursAt(s, t, i);
      assert s == s[..i] + t + s[i + |t|..];
    }
    if exists before: string, rest: string :: s == before + t + rest {
      var before: string, rest: string :| s == before + t + rest;
      assert OccursAt(s, t, |before|);
    }
  }

  lemma BetweenDashes(before: string, repo: string, rest: string)
    ensures before + "-" + repo + "-" + rest == before + ("-" + repo + "-") + rest
  {
  }

  lemma StartsIff(name: string, repo: string)
    ensures repo <= name <==> exists rest: string :: name == repo + rest
  {
    if repo <= name { assert name == repo + name[|repo|..]; }
  }

  lemma InsideIff(name: string, repo: string)
    ensures Inside(name, repo) <==> WithinIn(name)(repo)
  {
    OccursIff(name, "-" + repo + "-");
    StartsIff(name, repo);
    if Inside(name, repo) {
      var before: string, rest: string :| name == before + "-" + repo + "-" + rest;
      BetweenDashes(before, repo, rest);
      assert |name| == |before| + |repo| + |rest| + 2;
    }
    if WithinIn(name)(repo) {
      var before: string, rest: string :| name == before + ("-" + repo + "-") + rest;
      BetweenDashes(before, repo, rest);
    }
  }

  lemma SameFits(repos: seq<string>, bares: seq<string>, matches: string -> bool, fits: string -> bool)
    requires |bares| == |repos| && (forall k :: 0 <= k < |repos| ==> bares[k] == Slug(repos[k]))
    requires forall r :: fits(r) <==> matches(r)
    ensures NoMatch(repos, matches) <==> NoneFits(bares, fits)
    ensures forall k: nat :: FirstLongest(repos, k, matches) <==> Picked(bares, k, fits)
  {
    forall k: nat ensures FirstLongest(repos, k, matches) <==> Picked(bares, k, fits) {
    }
  }

  /** With the names laid bare, what a name rolls up to is exactly this. */
  lemma TargetMeansExactly(name: string, repos: seq<string>, bare: string, bares: seq<string>, t: Option<string>)
    requires IsBare(name, bare) && Bares(repos, bares)
    ensures IsTarget(name, repos, t) <==> TargetMeans(bare, repos, bares, t)
  {
    SlugIsBare(name);
    BareIsUnique(name, bare, Slug(name));
    forall k | 0 <= k < |repos| ensures bares[k] == Slug(repos[k]) {
      SlugIsBare(repos[k]);
      BareIsUnique(repos[k], bares[k], Slug(repos[k]));
    }
    forall r: string ensures (AtHead(bare, r) <==> BeginsIn(bare)(r)) && (Inside(bare, r) <==> WithinIn(bare)(r)) {
      AtHeadIff(bare, r);
      InsideIff(bare, r);
    }
    SameFits(repos, bares, BeginsIn(bare), HeadOf(bare));
    SameFits(repos, bares, WithinIn(bare), InsideOf(bare));
  }

  lemma BareAlready(name: string)
    requires ':' !in name && name != "" && name[0] != '-'
    ensures IsBare(name, name)
  {
    assert StartsAt(name, 0) && name[0..0] == "" && name[0..] == name;
  }

  lemma OnlyStartsWith(name: string, repo: string, rest: string)
    requires repo != "" && rest != "" && rest[0] != '-' && name == repo + rest
    ensures !AtHead(name, repo) && !Inside(name, repo)
  {
    assert name[|repo|] == rest[0];
    AtHeadIff(name, repo);
  }

  lemma NoneIsTaken(name: string, repo: string, t: Option<string>)
    requires TargetMeans(name, [repo], [repo], t) && !AtHead(name, repo) && !Inside(name, repo)
    ensures t == None
  {
    assert NoneFits([repo], HeadOf(name)) && NoneFits([repo], InsideOf(name));
  }

  /** A repo does not swallow a neighbour whose name only starts with its letters. */
  lemma NeighbourIsNotSwallowed(name: string, repo: string, rest: string, t: Option<string>)
    requires IsBare(name, name) && IsBare(repo, repo) && repo != "" && rest != "" && rest[0] != '-' && name == repo + rest
    requires IsTarget(name, [repo], t)
    ensures t == None
  {
    TargetMeansExactly(name, [repo], name, [repo], t);
    OnlyStartsWith(name, repo, rest);
    NoneIsTaken(name, repo, t);
  }

  /** The pair of names the program's own comment gives. */
  lemma UnfirehoseStays(name: string, repo: string, t: Option<string>)
    requires name == "home-fox-git-unfirehose" && repo == "home-fox-git-un" && IsTarget(name, [repo], t)
    ensures t == None
  {
    BareAlready(name);
    BareAlready(repo);
    UnRest(name, repo, "firehose");
    NeighbourIsNotSwallowed(name, repo, "firehose", t);
  }

  lemma UnRest(name: string, repo: string, rest: string)
    requires name == "home-fox-git-unfirehose" && repo == "home-fox-git-un" && rest == "firehose"
    ensures name == repo + rest
  {
  }

  /** The harness and a leading dash are no part of a name. */
  lemma BareBehindHarness(harness: string, bare: string)
    requires ':' !in harness && (bare != "" ==> bare[0] != '-')
    ensures IsBare(harness + ":-" + bare, bare)
  {
    var name, cut := harness + ":-" + bare, |harness| + 1;
    assert name[cut - 1] == ':' && name[..cut - 1] == harness && name[cut..cut + 1] == "-" && name[cut + 1..] == bare;
    assert StartsAt(name, cut);
  }

  /** The longer of two repos at the head wins, first or second. */
  lemma LongestHeadWins(name: string, repos: seq<string>, bare: string, deeper: nat, t: Option<string>)
    requires |repos| == 2 && deeper < 2 && |repos[1 - deeper]| < |repos[deeper]| && AtHead(bare, repos[deeper])
    requires IsBare(name, bare) && Bares(repos, repos) && IsTarget(name, repos, t)
    ensures t == Some(repos[deeper])
  {
    TargetMeansExactly(name, repos, bare, repos, t);
    PickedIsLongest(repos, bare, deeper);
  }

  lemma PickedIsLongest(bares: seq<string>, bare: string, deeper: nat)
    requires |bares| == 2 && deeper < 2 && |bares[1 - deeper]| < |bares[deeper]| && AtHead(bare, bares[deeper])
    ensures HeadOf(bare)(bares[deeper]) && forall k: nat :: Picked(bares, k, HeadOf(bare)) ==> k == deeper
  {
  }

  // ── Paths ────────────────────────────────────────────────────────

  /** A path without the slashes at its end. */
  ghost predicate IsClean(p: string, clean: string) {
    && (clean != "" ==> clean[|clean| - 1] != '/')
    && exists slashes: string :: Only(slashes, '/') && p == clean + slashes
  }

  lemma {:induction false} CleanPathMeans(p: string)
    ensures IsClean(p, CleanPath(p))
  {
    if p != "" && p[|p| - 1] == '/' {
      var init := p[..|p| - 1];
      CleanPathMeans(init);
      var slashes: string :| Only(slashes, '/') && init == CleanPath(init) + slashes;
      assert Only(slashes + "/", '/') && p == CleanPath(p) + (slashes + "/");
    } else {
      assert Only("", '/') && p == p + "";
    }
  }

  lemma CleanIsUnique(p: string, a: string, b: string)
    requires IsClean(p, a) && IsClean(p, b)
    ensures a == b
  {
    var s: string :| Only(s, '/') && p == a + s;
    var t: string :| Only(t, '/') && p == b + t;
    assert a == p[..|a|] && b == p[..|b|];
    assert forall i :: |a| <= i < |p| ==> p[i] == s[i - |a|];
    assert forall i :: |b| <= i < |p| ==> p[i] == t[i - |b|];
    assert (a != "" ==> a[|a| - 1] == p[|a| - 1]) && (b != "" ==> b[|b| - 1] == p[|b| - 1]);
  }

  /** A directory, a slash, and more. */
  ghost predicate LiesUnder(p: string, q: string) {
    exists rest: string :: p == q + "/" + rest
  }

  lemma UnderIff(p: string, q: string)
    ensures IsUnder(p, q) <==> LiesUnder(p, q)
  {
    if IsUnder(p, q) { assert p == q + "/" + p[|q| + 1..]; }
    if LiesUnder(p, q) {
      var rest: string :| p == q + "/" + rest;
      assert p[..|q|] == q && p[|q|] == '/';
    }
  }

  ghost predicate Cleans(candidates: seq<Candidate>, cleans: seq<string>) {
    |cleans| == |candidates| && forall k :: 0 <= k < |candidates| ==> IsClean(candidates[k].path, cleans[k])
  }

  ghost function AboveOf(p: string): string -> bool {
    (q: string) => LiesUnder(p, q)
  }

  /** The longest directory above the path, the first as long; none only if no candidate lies above it. */
  ghost predicate AncestorMeans(p: string, candidates: seq<Candidate>, cleans: seq<string>, best: Option<string>)
    requires |cleans| == |candidates|
  {
    match best
    case None => NoneFits(cleans, AboveOf(p))
    case Some(name) => exists k: nat :: Picked(cleans, k, AboveOf(p)) && candidates[k].name == name
  }

  lemma AncestorMeansExactly(path: string, candidates: seq<Candidate>, p: string, cleans: seq<string>, best: Option<string>)
    requires IsClean(path, p) && Cleans(candidates, cleans)
    ensures IsAncestor(path, candidates, best) <==> AncestorMeans(p, candidates, cleans, best)
  {
    CleanPathMeans(path);
    CleanIsUnique(path, p, CleanPath(path));
    forall k | 0 <= k < |candidates| ensures cleans[k] == CleanPath(candidates[k].path) {
      CleanPathMeans(candidates[k].path);
      CleanIsUnique(candidates[k].path, cleans[k], CleanPath(candidates[k].path));
    }
    forall q: string ensures AboveOf(p)(q) <==> IsUnder(p, q) {
      UnderIff(p, q);
    }
    forall k: nat ensures Nearest(path, candidates, k) <==> Picked(cleans, k, AboveOf(p)) {
    }
  }

  ghost function Children(paths: set<string>, q: string): set<string> {
    set p | p in paths && LiesUnder(p, q)
  }

  /** The count of a path is the number of different tracked paths that lie under it. */
  lemma {:induction false} BelowCounts(paths: seq<string>, q: string)
    requires forall i, j :: 0 <= i < j < |paths| ==> paths[i] != paths[j]
    ensures Below(paths, q) == |Children((set p | p in paths), q)|
  {
    if paths != [] {
      var n := |paths| - 1;
      var init, p := paths[..n], paths[n];
      BelowCounts(init, q);
      UnderIff(p, q);
      var before, now := Children((set x | x in init), q), Children((set x | x in paths), q);
      assert paths == init + [p];
      if LiesUnder(p, q) {
        assert now == before + {p};
      } else {
        assert now == before;
      }
    }
  }

  /** Under one of the four scratch roots. */
  ghost predicate InScratchRoot(clean: string) {
    || clean == "/tmp" || LiesUnder(clean, "/tmp") || clean == "/var/tmp" || LiesUnder(clean, "/var/tmp")
    || clean == "/dev/shm" || LiesUnder(clean, "/dev/shm") || clean == "/run" || LiesUnder(clean, "/run")
  }

  /** In a fleet worker's directory. */
  ghost predicate InWorkspace(path: string) {
    || (exists before: string, rest: string :: path == before + "/fleet/workers/" + rest)
    || (exists before: string, rest: string :: path == before + "/workers/worker_" + rest)
  }

  lemma RootIff(s: string, root: string)
    ensures root + "/" <= s <==> LiesUnder(s, root)
  {
    StartsIff(s, root + "/");
  }

  lemma EphemeralIff(p: string, clean: string)
    requires IsClean(p, clean)
    ensures IsEphemeralPath(p) <==> p != "" && InScratchRoot(clean)
  {
    CleanPathMeans(p);
    CleanIsUnique(p, clean, CleanPath(p));
    RootIff(clean, "/tmp");
    RootIff(clean, "/var/tmp");
    RootIff(clean, "/dev/shm");
    RootIff(clean, "/run");
    var roots := EPHEMERAL_PATH_ROOTS;
    assert roots[0] == "/tmp" && roots[1] == "/var/tmp" && roots[2] == "/dev/shm" && roots[3] == "/run";
  }

  /** A row is scratch when its path lies at or under a scratch root, or in a worker's directory. */
  lemma ScratchIff(r: DbRow, clean: string)
    requires IsClean(r.path, clean)
    ensures IsScratch(r) <==> r.path != "" && (InScratchRoot(clean) || InWorkspace(r.path))
  {
    EphemeralIff(r.path, clean);
    OccursIff(r.path, "/fleet/workers/");
    OccursIff(r.path, "/workers/worker_");
    var segments := WORKSPACE_PATH_SEGMENTS;
    assert segments[0] == "/fleet/workers/" && segments[1] == "/workers/worker_";
  }

  /** A container is no scratch and no git root, and two different tracked paths or more lie under it. */
  lemma ContainerIff(r: DbRow, paths: seq<string>, scratch: set<string>, clean: string)
    requires IsClean(r.path, clean)
    ensures IsContainer(r, DistinctPaths(paths), scratch)
            <==> && r.path != "" && r.name !in scratch && !r.isRepo && clean != "" && clean in Cleaned(paths)
                 && |Children(Cleaned(paths), clean)| >= 2
  {
    CleanPathMeans(r.path);
    CleanIsUnique(r.path, clean, CleanPath(r.path));
    DistinctPathsAreListed(paths);
    BelowCounts(DistinctPaths(paths), clean);
    assert (set p | p in DistinctPaths(paths)) == Cleaned(paths);
  }

  // ── Taking in a row ──────────────────────────────────────────────

  /** Text order: what starts with the other, or has the greater character where the two first differ. */
  ghost predicate Follows(a: string, b: string) {
    b <= a || exists k :: 0 <= k < |a| && k < |b| && a[..k] == b[..k] && a[k] > b[k]
  }

  lemma {:induction false} NotBeforeIff(a: string, b: string)
    ensures NotBefore(a, b) <==> Follows(a, b)
  {
    if a != "" && b != "" && a[0] == b[0] {
      NotBeforeIff(a[1..], b[1..]);
      if k :| 0 <= k < |a| && k < |b| && a[..k] == b[..k] && a[k] > b[k] {
        assert a[1..][..k - 1] == a[..k][1..] == b[..k][1..] == b[1..][..k - 1];
        assert a[1..][k - 1] > b[1..][k - 1];
      }
      if k :| 0 <= k < |a[1..]| && k < |b[1..]| && a[1..][..k] == b[1..][..k] && a[1..][k] > b[1..][k] {
        assert a[..k + 1] == [a[0]] + a[1..][..k] && b[..k + 1] == [b[0]] + b[1..][..k];
        assert a[k + 1] > b[k + 1];
      }
      assert b <= a <==> b[1..] <= a[1..] by {
        assert a == [a[0]] + a[1..] && b == [b[0]] + b[1..];
      }
    } else if a != "" && b != "" {
      assert a[..0] == b[..0];
      if a[0] > b[0] { assert Follows(a, b); }
      assert forall k :: 0 < k < |a| && k < |b| ==> a[..k][0] == a[0] && b[..k][0] == b[0];
    }
  }

  function AmountOf(tokens: Option<Tokens>, amount: Tokens -> int): int {
    match tokens case Some(t) => amount(t) case None => 0
  }

  ghost predicate AddsUp(now: Option<Tokens>, mine: Option<Tokens>, theirs: Option<Tokens>, amount: Tokens -> int) {
    AmountOf(now, amount) == AmountOf(mine, amount) + AmountOf(theirs, amount)
  }

  /** Every count adds up, the child and all it took in are counted, the newer activity stands, and harnesses are united. */
  lemma AbsorbMeans(a: Account, child: Account)
    ensures var now := Absorb(a, child);
            && now.sessions == a.sessions + child.sessions && now.messages == a.messages + child.messages
            && AddsUp(now.tokens, a.tokens, child.tokens, (t: Tokens) => t.input)
            && AddsUp(now.tokens, a.tokens, child.tokens, (t: Tokens) => t.output)
            && AddsUp(now.tokens, a.tokens, child.tokens, (t: Tokens) => t.cacheRead)
            && AddsUp(now.tokens, a.tokens, child.tokens, (t: Tokens) => t.cacheWrite)
            && (now.tokens.None? <==> a.tokens.None? && child.tokens.None?)
            && now.folded == a.folded + child.folded + 1
            && now.latest in {a.latest, child.latest} && Follows(now.latest, a.latest) && Follows(now.latest, child.latest)
            && (forall h :: h in now.harnesses <==> h in a.harnesses || h in child.harnesses)
            && (forall i, j :: 0 <= i < j < |now.harnesses| ==> now.harnesses[i] != now.harnesses[j])
  {
    NewerIsNotBefore(a.latest, child.latest);
    NotBeforeIff(NewerOf(a.latest, child.latest), a.latest);
    NotBeforeIff(NewerOf(a.latest, child.latest), child.latest);
    RepeatsAreGone(a.harnesses + child.harnesses);
  }

  /** A row's recency is its own or that of a row folded into it. */
  lemma {:induction false} RecencyIsSomeRows(was: seq<Account>, fates: seq<Fate>, p: nat)
    requires p < |was| && |fates| <= |was|
    ensures var latest := After(was, fates, p).latest;
            latest == was[p].latest || exists i :: 0 <= i < |fates| && fates[i] == Into(p) && latest == was[i].latest
  {
    if fates != [] {
      var n := |fates| - 1;
      RecencyIsSomeRows(was, fates[..n], p);
      if i :| 0 <= i < n && fates[..n][i] == Into(p) && After(was, fates[..n], p).latest == was[i].latest {
        assert fates[i] == Into(p);
      }
      if fates[n] == Into(p) { AbsorbMeans(After(was, fates[..n], p), was[n]); }
    }
  }
}
