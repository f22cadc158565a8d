/**
 * Folding project rows into the repos they belong to, first by path and then by name, so that no session,
 * message or token is lost (packages/core/projects-list.ts, packages/core/project-rollup.ts).
 */
module ProjectFold {
  import opened Wrappers
  import opened Seqs
  import opened ProjectAccounts
  import opened ProjectRollup

  class ProjectRow {
    const name: string
    var sessions: int
    var messages: int
    var tokens: Option<Tokens>
    var latest: string
    var folded: int
    var harnesses: seq<string>

    constructor (name: string, sessions: int, messages: int, tokens: Option<Tokens>, latest: string, harnesses: seq<string>)
      ensures this.name == name && Carries() == Account(sessions, messages, tokens, latest, 0, harnesses)
    {
      this.name, this.sessions, this.messages, this.tokens := name, sessions, messages, tokens;
      this.latest, this.folded, this.harnesses := latest, 0, harnesses;
    }

    function Carries(): Account
      reads this
    {
      Account(sessions, messages, tokens, latest, folded, harnesses)
    }

    /** Fold `child` into this row: every field a project carries is summed in this one place. */
    method Merge(child: ProjectRow)
      requires child != this
      modifies this
      ensures Carries() == Absorb(old(Carries()), child.Carries())
    {
      latest := NewerOf(latest, child.latest);
      sessions := sessions + child.sessions;
      messages := messages + child.messages;
      if child.tokens.Some? {
        var mine, theirs := if tokens.Some? then tokens.value else ZERO_TOKENS, child.tokens.value;
        tokens := Some(PlusTokens(mine, theirs));
      }
      folded := folded + 1 + child.folded;
      harnesses := WithoutRepeats(harnesses + child.harnesses);
    }
  }

  // ── Rows and their accounts ──────────────────────────────────────

  ghost function Accounts(rows: seq<ProjectRow>): (accounts: seq<Account>)
    reads rows
    ensures |accounts| == |rows| && forall i :: 0 <= i < |rows| ==> accounts[i] == rows[i].Carries()
  {
    if rows == [] then [] else Accounts(rows[..|rows| - 1]) + [rows[|rows| - 1].Carries()]
  }

  ghost function Total(rows: seq<ProjectRow>, f: Field): int
    reads rows
  {
    Sum(Column(Accounts(rows), f))
  }

  ghost predicate DistinctRows(rows: seq<ProjectRow>) {
    forall i, j :: 0 <= i < j < |rows| ==> rows[i] != rows[j]
  }

  function NamesOf(rows: seq<ProjectRow>): (names: seq<string>)
    ensures |names| == |rows| && forall i :: 0 <= i < |rows| ==> names[i] == rows[i].name
  {
    seq(|rows|, i requires 0 <= i < |rows| => rows[i].name)
  }

  lemma {:induction false} PickIsPart(rows: seq<ProjectRow>, fates: seq<Fate>, which: set<Fate>)
    requires |fates| == |rows|
    ensures forall r :: r in Pick(rows, fates, which) ==> r in rows
    ensures DistinctRows(rows) ==> DistinctRows(Pick(rows, fates, which))
  {
    if rows != [] {
      var init, last := rows[..|rows| - 1], rows[|rows| - 1];
      PickIsPart(init, fates[..|fates| - 1], which);
      assert rows == init + [last];
      if DistinctRows(rows) {
        forall i | 0 <= i < |init| ensures init[i] != last { assert rows[i] != rows[|rows| - 1]; }
        assert last !in Pick(init, fates[..|fates| - 1], which);
      }
    }
  }

  lemma {:induction false} AccountsOfPick(rows: seq<ProjectRow>, fates: seq<Fate>, which: set<Fate>)
    requires |fates| == |rows|
    ensures Accounts(Pick(rows, fates, which)) == Pick(Accounts(rows), fates, which)
  {
    if rows != [] {
      AccountsOfPick(rows[..|rows| - 1], fates[..|fates| - 1], which);
      assert Accounts(rows)[..|rows| - 1] == Accounts(rows[..|rows| - 1]);
    }
  }

  /** With every fate settled, the rows kept and the rows left off carry what all rows did. */
  lemma FoldedRowsCarryAll(rows: seq<ProjectRow>, was: seq<Account>, fates: seq<Fate>, f: Field)
    requires |fates| == |rows| == |was| && Flat(fates, |rows|) && Accounts(rows) == AfterAll(was, fates)
    ensures Total(Pick(rows, fates, {Kept}), f) + Total(Pick(rows, fates, {Orphaned}), f) == Sum(Column(was, f))
    ensures Total(Pick(rows, fates, {Kept, Orphaned}), f) == Sum(Column(was, f))
  {
    AccountsOfPick(rows, fates, {Kept});
    AccountsOfPick(rows, fates, {Orphaned});
    AccountsOfPick(rows, fates, {Kept, Orphaned});
    FoldLosesNothing(was, fates, f);
  }

  /** Row `k` is merged into the row it is to fold into. */
  method MergeRow(rows: seq<ProjectRow>, k: nat, parent: ProjectRow, ghost was: seq<Account>, ghost fates: seq<Fate>, ghost p: nat)
    requires DistinctRows(rows) && |fates| == k < |rows| == |was| && p < |rows| && rows[p] == parent
    requires Flat(fates + [Into(p)], |was|) && Accounts(rows) == AfterAll(was, fates)
    modifies parent
    ensures Accounts(rows) == AfterAll(was, fates + [Into(p)])
  {
    ghost var now := Accounts(rows);
    FoldingIsAbsorbing(was, fates, p);
    assert parent != rows[k];
    parent.Merge(rows[k]);
    assert Accounts(rows) == now[p := Absorb(now[p], now[k])];
  }

  // ── Rows by name ─────────────────────────────────────────────────

  /** The last of that name. */
  function LastNamed(names: seq<string>, name: string): (r: Option<nat>)
    ensures r.Some? ==> r.value < |names| && names[r.value] == name && forall j :: r.value < j < |names| ==> names[j] != name
    ensures r.None? ==> name !in names
  {
    if names == [] then None
    else if names[|names| - 1] == name then Some(|names| - 1)
    else
      assert names == names[..|names| - 1] + [names[|names| - 1]];
      LastNamed(names[..|names| - 1], name)
  }

  lemma LastNamedOneMore(names: seq<string>, name: string, n: string)
    ensures LastNamed(names + [name], n) == if n == name then Some(|names|) else LastNamed(names, n)
  {
    assert (names + [name])[..|names|] == names;
  }

  /** The map finds the last row of each name. */
  ghost predicate Finds(byName: map<string, ProjectRow>, rows: seq<ProjectRow>) {
    forall n :: var at := LastNamed(NamesOf(rows), n);
                (n in byName <==> at.Some?) && (at.Some? ==> byName[n] == rows[at.value])
  }

  /** `new Map(rows.map((r) => [r.name, r]))`. */
  method ByName(rows: seq<ProjectRow>) returns (byName: map<string, ProjectRow>)
    ensures Finds(byName, rows)
  {
    byName := map[];
    for k := 0 to |rows|
      invariant Finds(byName, rows[..k])
    {
      ghost var before := byName;
      byName := byName[rows[k].name := rows[k]];
      FindsOneMore(before, byName, rows, k);
    }
    TakeAll(rows);
  }

  lemma FindsOneMore(before: map<string, ProjectRow>, byName: map<string, ProjectRow>, rows: seq<ProjectRow>, k: nat)
    requires k < |rows| && Finds(before, rows[..k]) && byName == before[rows[k].name := rows[k]]
    ensures Finds(byName, rows[..k + 1])
  {
    assert NamesOf(rows[..k + 1]) == NamesOf(rows[..k]) + [rows[k].name];
    forall n
      ensures var at := LastNamed(NamesOf(rows[..k + 1]), n);
              (n in byName <==> at.Some?) && (at.Some? ==> byName[n] == rows[..k + 1][at.value])
    {
      LastNamedOneMore(NamesOf(rows[..k]), rows[k].name, n);
      assert n in before <==> LastNamed(NamesOf(rows[..k]), n).Some?;
    }
  }

  // ── The path fold ────────────────────────────────────────────────

  /** A row folds exactly if it has an entry and the row so named is there and another. */
  function PathFate(names: seq<string>, pathFold: map<string, string>, k: nat): Fate
    requires k < |names|
  {
    var parent := if names[k] in pathFold then LastNamed(names, pathFold[names[k]]) else None;
    if parent.Some? && parent.value != k then Into(parent.value) else Kept
  }

  function PathFates(names: seq<string>, pathFold: map<string, string>): (fates: seq<Fate>)
    ensures |fates| == |names| && forall k :: 0 <= k < |names| ==> fates[k] == PathFate(names, pathFold, k)
  {
    seq(|names|, k requires 0 <= k < |names| => PathFate(names, pathFold, k))
  }

  ghost predicate FlatMap(pathFold: map<string, string>) {
    forall n :: n in pathFold ==> pathFold[n] !in pathFold
  }

  /** When no target has an entry of its own, rows fold exactly if they have an entry for a name that is there. */
  lemma PathFatesAreFlat(names: seq<string>, pathFold: map<string, string>)
    requires FlatMap(pathFold)
    ensures Flat(PathFates(names, pathFold), |names|)
    ensures forall k :: 0 <= k < |names| ==>
              (PathFate(names, pathFold, k).Into? <==> names[k] in pathFold && pathFold[names[k]] in names)
  {
    var fates := PathFates(names, pathFold);
    forall i | 0 <= i < |fates| && fates[i].Into? ensures Receives(fates, |names|, i, fates[i].row) {
      assert fates[i] == PathFate(names, pathFold, i) && names[fates[i].row] == pathFold[names[i]];
      assert fates[fates[i].row] == PathFate(names, pathFold, fates[i].row);
    }
  }

  /** The fold after the first `k` rows. */
  ghost predicate FoldedUpTo(rows: seq<ProjectRow>, now: seq<Account>, was: seq<Account>, fates: seq<Fate>, k: nat, after: seq<ProjectRow>)
  {
    && |fates| == |rows| == |was| && k <= |rows| && Flat(fates, |rows|)
    && now == AfterAll(was, fates[..k]) && after == Pick(rows[..k], fates[..k], {Kept})
  }

  method FoldRowByPath(rows: seq<ProjectRow>, k: nat, pathFold: map<string, string>, byName: map<string, ProjectRow>,
                       after0: seq<ProjectRow>, ghost was: seq<Account>, ghost fates: seq<Fate>)
      returns (after: seq<ProjectRow>)
    requires DistinctRows(rows) && Finds(byName, rows) && k < |rows| && fates == PathFates(NamesOf(rows), pathFold)
    requires FoldedUpTo(rows, Accounts(rows), was, fates, k, after0)
    modifies rows
    ensures FoldedUpTo(rows, Accounts(rows), was, fates, k + 1, after)
  {
    var row := rows[k];
    TakeOneMore(fates, k);
    FlatPrefix(fates, |rows|, k + 1);
    PickOneMore(rows, fates, k, {Kept});
    if row.name in pathFold && pathFold[row.name] in byName && byName[pathFold[row.name]] != row {
      var parent := byName[pathFold[row.name]];
      ghost var p := LastNamed(NamesOf(rows), pathFold[row.name]).value;
      MergeRow(rows, k, parent, was, fates[..k], p);
      after := after0;
      assert after0 + [] == after0;
    } else {
      StayingChangesNothing(was, fates[..k], Kept);
      after := after0 + [row];
    }
  }

  /**
   * The path fold: a row with an entry in `pathFold` goes into the row so named, if there is one, and every
   * other row stays. A row that absorbs others has no entry of its own.
   */
  method FoldByPath(rows: seq<ProjectRow>, pathFold: map<string, string>) returns (after: seq<ProjectRow>)
    requires DistinctRows(rows) && FlatMap(pathFold)
    modifies rows
    ensures after == Pick(rows, PathFates(NamesOf(rows), pathFold), {Kept})
    ensures Accounts(rows) == AfterAll(old(Accounts(rows)), PathFates(NamesOf(rows), pathFold))
    ensures forall f :: Total(after, f) == old(Total(rows, f))
  {
    ghost var was, fates := Accounts(rows), PathFates(NamesOf(rows), pathFold);
    PathFatesAreFlat(NamesOf(rows), pathFold);
    NothingYet(was, rows, fates);
    var byName := ByName(rows);
    after := [];
    for k := 0 to |rows|
      invariant FoldedUpTo(rows, Accounts(rows), was, fates, k, after)
    {
      after := FoldRowByPath(rows, k, pathFold, byName, after, was, fates);
    }
    PathFoldEnds(rows, was, fates, after);
  }

  lemma NothingYet(was: seq<Account>, rows: seq<ProjectRow>, fates: seq<Fate>)
    requires |fates| == |rows| == |was|
    ensures was == AfterAll(was, fates[..0])
  {
    forall p | 0 <= p < |was| ensures After(was, fates[..0], p) == was[p] { UntouchedUnlessInto(was, fates[..0], p); }
  }

  lemma PathFoldEnds(rows: seq<ProjectRow>, was: seq<Account>, fates: seq<Fate>, after: seq<ProjectRow>)
    requires FoldedUpTo(rows, Accounts(rows), was, fates, |rows|, after) && forall i :: 0 <= i < |fates| ==> fates[i] != Orphaned
    ensures after == Pick(rows, fates, {Kept}) && Accounts(rows) == AfterAll(was, fates)
    ensures forall f :: Total(after, f) == Sum(Column(was, f))
  {
    TakeAll(rows);
    TakeAll(fates);
    NoOrphans(rows, fates);
    forall f ensures Total(after, f) == Sum(Column(was, f)) {
      FoldedRowsCarryAll(rows, was, fates, f);
    }
  }

  lemma {:induction false} NoOrphans(rows: seq<ProjectRow>, fates: seq<Fate>)
    requires |fates| == |rows| && forall i :: 0 <= i < |fates| ==> fates[i] != Orphaned
    ensures Pick(rows, fates, {Orphaned}) == []
  {
    if rows != [] { NoOrphans(rows[..|rows| - 1], fates[..|fates| - 1]); }
  }

  // ── The name fold ────────────────────────────────────────────────

  datatype Rules = Rules(repoNames: set<string>, foldTargets: seq<string>, keepUnmatched: bool)

  /** Who may absorb others has a row of its own. */
  ghost predicate TargetsAreRepos(rules: Rules) {
    forall t :: t in rules.foldTargets ==> t in rules.repoNames
  }

  /** The fates of rows that reach the list. */
  function Listed(rules: Rules): set<Fate> {
    if rules.keepUnmatched then {Kept, Orphaned} else {Kept}
  }

  /** A row's fate: kept under a repo's name; else folded into the repo its name rolls up to, if that has a row; else an orphan. */
  ghost predicate FateIsDue(names: seq<string>, name: string, fate: Fate, rules: Rules) {
    match fate
    case Kept => name in rules.repoNames
    case Orphaned => name !in rules.repoNames && exists t :: IsTarget(name, rules.foldTargets, t) && (t.None? || t.value !in names)
    case Into(p) => name !in rules.repoNames && p < |names| && IsTarget(name, rules.foldTargets, Some(names[p]))
                    && LastNamed(names, names[p]) == Some(p)
  }

  ghost predicate FatesAreDue(names: seq<string>, fates: seq<Fate>, rules: Rules) {
    |fates| <= |names| && forall i :: 0 <= i < |fates| ==> FateIsDue(names, names[i], fates[i], rules)
  }

  /** Each row has exactly one fate. */
  lemma FateIsUnique(names: seq<string>, name: string, a: Fate, b: Fate, rules: Rules)
    requires FateIsDue(names, name, a, rules) && FateIsDue(names, name, b, rules)
    ensures a == b
  {
    if !a.Kept? && !b.Kept? {
      var t := TargetOf(names, name, a, rules);
      var u := TargetOf(names, name, b, rules);
      TargetIsUnique(name, rules.foldTargets, t, u);
    }
  }

  lemma TargetOf(names: seq<string>, name: string, fate: Fate, rules: Rules) returns (t: Option<string>)
    requires FateIsDue(names, name, fate, rules) && !fate.Kept?
    ensures IsTarget(name, rules.foldTargets, t)
    ensures fate.Into? ==> t == Some(names[fate.row])
    ensures fate.Orphaned? ==> t.None? || t.value !in names
  {
    match fate
    case Orphaned => t :| IsTarget(name, rules.foldTargets, t) && (t.None? || t.value !in names);
    case Into(p) => t := Some(names[p]);
  }

  lemma TargetIsOffered(name: string, repos: seq<string>, t: string)
    requires IsTarget(name, repos, Some(t))
    ensures t in repos
  {
  }

  lemma DueFatesAreFlat(names: seq<string>, fates: seq<Fate>, rules: Rules)
    requires FatesAreDue(names, fates, rules) && TargetsAreRepos(rules)
    ensures Flat(fates, |names|)
  {
    forall i | 0 <= i < |fates| && fates[i].Into? ensures Receives(fates, |names|, i, fates[i].row) {
      assert FateIsDue(names, names[i], fates[i], rules);
      TargetIsOffered(names[i], rules.foldTargets, names[fates[i].row]);
      if fates[i].row < |fates| { assert FateIsDue(names, names[fates[i].row], fates[fates[i].row], rules); }
    }
  }

  predicate GoesTo(names: seq<string>, fate: Fate, t: string) {
    fate.Into? && fate.row < |names| && names[fate.row] == t
  }

  ghost predicate WasFolded(names: seq<string>, fates: seq<Fate>, n: string, t: string)
    requires |fates| <= |names|
  {
    exists i :: 0 <= i < |fates| && names[i] == n && GoesTo(names, fates[i], t)
  }

  /** Exactly the names that were folded, each with the name it was folded into. */
  ghost predicate Records(foldedInto: map<string, string>, names: seq<string>, fates: seq<Fate>)
    requires |fates| <= |names|
  {
    && (forall n :: n in foldedInto ==> WasFolded(names, fates, n, foldedInto[n]))
    && (forall n, t :: WasFolded(names, fates, n, t) ==> n in foldedInto && foldedInto[n] == t)
  }

  datatype Lists = Lists(out: seq<ProjectRow>, orphans: seq<ProjectRow>, foldedInto: map<string, string>)

  /** The lists after the first rows met their fates. */
  ghost predicate Rolled(rows: seq<ProjectRow>, names: seq<string>, fates: seq<Fate>, rules: Rules, lists: Lists) {
    && |fates| <= |rows| == |names| && FatesAreDue(names, fates, rules) && Records(lists.foldedInto, names, fates)
    && lists.out == Pick(rows[..|fates|], fates, Listed(rules))
    && lists.orphans == Pick(rows[..|fates|], fates, {Orphaned})
  }

  lemma WasFoldedOneMore(names: seq<string>, fates: seq<Fate>, fate: Fate, n: string, t: string)
    requires |fates| < |names|
    ensures WasFolded(names, fates + [fate], n, t)
            <==> WasFolded(names, fates, n, t) || (names[|fates|] == n && GoesTo(names, fate, t))
  {
    var more, k := fates + [fate], |fates|;
    if WasFolded(names, fates, n, t) {
      var i :| 0 <= i < k && names[i] == n && GoesTo(names, fates[i], t);
      assert more[i] == fates[i];
    }
    if names[k] == n && GoesTo(names, fate, t) { assert more[k] == fate; }
  }

  lemma RecordsOneMore(names: seq<string>, fates: seq<Fate>, fate: Fate, before: map<string, string>, now: map<string, string>)
    requires |fates| < |names| && Records(before, names, fates) && (fate.Into? ==> fate.row < |names|)
    requires forall i :: 0 <= i < |fates| && names[i] == names[|fates|] ==> fates[i] == fate
    requires now == if fate.Into? then before[names[|fates|] := names[fate.row]] else before
    ensures Records(now, names, fates + [fate])
  {
    var more := fates + [fate];
    forall n | n in now ensures WasFolded(names, more, n, now[n]) {
      WasFoldedOneMore(names, fates, fate, n, now[n]);
    }
    forall n, t | WasFolded(names, more, n, t) ensures n in now && now[n] == t {
      WasFoldedOneMore(names, fates, fate, n, t);
    }
  }

  /** Rows of one name meet one fate, so recording a fold contradicts no other. */
  lemma SameNameSameFate(names: seq<string>, fates: seq<Fate>, fate: Fate, rules: Rules)
    requires FatesAreDue(names, fates, rules) && |fates| < |names| && FateIsDue(names, names[|fates|], fate, rules)
    ensures forall i :: 0 <= i < |fates| && names[i] == names[|fates|] ==> fates[i] == fate
  {
    forall i | 0 <= i < |fates| && names[i] == names[|fates|] ensures fates[i] == fate {
      FateIsUnique(names, names[i], fates[i], fate, rules);
    }
  }

  lemma DueOneMore(names: seq<string>, fates: seq<Fate>, fate: Fate, rules: Rules)
    requires FatesAreDue(names, fates, rules) && |fates| < |names| && FateIsDue(names, names[|fates|], fate, rules)
    ensures FatesAreDue(names, fates + [fate], rules)
  {
  }

  lemma RolledOneMore(rows: seq<ProjectRow>, names: seq<string>, fates: seq<Fate>, fate: Fate, rules: Rules, lists: Lists, lists': Lists)
    requires Rolled(rows, names, fates, rules, lists) && |fates| < |rows| && FateIsDue(names, names[|fates|], fate, rules)
    requires lists' == Lists(lists.out + (if fate in Listed(rules) then [rows[|fates|]] else []),
                             lists.orphans + (if fate == Orphaned then [rows[|fates|]] else []),
                             if fate.Into? then lists.foldedInto[names[|fates|] := names[fate.row]] else lists.foldedInto)
    ensures Rolled(rows, names, fates + [fate], rules, lists')
  {
    var k := |fates|;
    DueOneMore(names, fates, fate, rules);
    SameNameSameFate(names, fates, fate, rules);
    RecordsOneMore(names, fates, fate, lists.foldedInto, lists'.foldedInto);
    PickAppend(rows[..k], fates, rows[k], fate, Listed(rules));
    PickAppend(rows[..k], fates, rows[k], fate, {Orphaned});
    TakeOneMore(rows, k);
  }

  lemma PickAppend<T>(items: seq<T>, fates: seq<Fate>, item: T, fate: Fate, which: set<Fate>)
    requires |fates| == |items|
    ensures Pick(items + [item], fates + [fate], which) == Pick(items, fates, which) + if fate in which then [item] else []
  {
    assert (items + [item])[..|items|] == items && (fates + [fate])[..|items|] == fates;
  }

  /** The fate of a row that goes to a row of the given name, or to none. */
  function FateFor(names: seq<string>, target: Option<string>): Fate {
    var p := if target.Some? then LastNamed(names, target.value) else None;
    if p.Some? then Into(p.value) else Orphaned
  }

  /** Where the row goes: none when no repo takes it. */
  method ParentOf(rows: seq<ProjectRow>, row: ProjectRow, rules: Rules, byName: map<string, ProjectRow>) returns (target: Option<string>)
    requires Finds(byName, rows) && row.name !in rules.repoNames && TargetsAreRepos(rules)
    ensures FateIsDue(NamesOf(rows), row.name, FateFor(NamesOf(rows), target), rules)
    ensures target.Some? ==> target.value in byName && target.value in NamesOf(rows)
  {
    ghost var names := NamesOf(rows);
    target := RollupTarget(row.name, rules.foldTargets);
    if target.Some? {
      TargetIsOffered(row.name, rules.foldTargets, target.value);
      assert target.value in byName <==> LastNamed(names, target.value).Some?;
    }
    if target.None? || target.value == row.name || target.value !in byName {
      assert target.None? || target.value !in names;
      return None;
    }
  }

  /** The name fold after the first rows. */
  ghost predicate Rolling(rows: seq<ProjectRow>, now: seq<Account>, was: seq<Account>, fates: seq<Fate>, rules: Rules, lists: Lists) {
    |fates| <= |rows| == |was| && Rolled(rows, NamesOf(rows), fates, rules, lists) && now == AfterAll(was, fates)
  }

  lemma StayRolling(rows: seq<ProjectRow>, now: seq<Account>, was: seq<Account>, fates: seq<Fate>, fate: Fate, rules: Rules,
                    lists: Lists, lists': Lists)
    requires Rolling(rows, now, was, fates, rules, lists) && |fates| < |rows| && !fate.Into?
    requires FateIsDue(NamesOf(rows), rows[|fates|].name, fate, rules)
    requires lists' == Lists(lists.out + (if fate in Listed(rules) then [rows[|fates|]] else []),
                             lists.orphans + (if fate == Orphaned then [rows[|fates|]] else []), lists.foldedInto)
    ensures Rolling(rows, now, was, fates + [fate], rules, lists')
  {
    StayingChangesNothing(was, fates, fate);
    RolledOneMore(rows, NamesOf(rows), fates, fate, rules, lists, lists');
  }

  lemma FoldRolling(rows: seq<ProjectRow>, was: seq<Account>, fates: seq<Fate>, fate: Fate, rules: Rules, lists: Lists, lists': Lists)
    requires |fates| < |rows| == |was| && Rolled(rows, NamesOf(rows), fates, rules, lists) && fate.Into? && TargetsAreRepos(rules)
    requires FateIsDue(NamesOf(rows), rows[|fates|].name, fate, rules) && fate.row < |rows|
    requires lists' == lists.(foldedInto := lists.foldedInto[rows[|fates|].name := rows[fate.row].name])
    ensures Rolling(rows, AfterAll(was, fates + [fate]), was, fates + [fate], rules, lists') && Flat(fates + [fate], |was|)
  {
    assert lists.out + [] == lists.out && lists.orphans + [] == lists.orphans;
    RolledOneMore(rows, NamesOf(rows), fates, fate, rules, lists, lists');
    DueFatesAreFlat(NamesOf(rows), fates + [fate], rules);
  }

  method RollupRow(rows: seq<ProjectRow>, k: nat, rules: Rules, byName: map<string, ProjectRow>, lists0: Lists,
                   ghost was: seq<Account>, ghost fates0: seq<Fate>)
      returns (lists: Lists, ghost fates: seq<Fate>)
    requires DistinctRows(rows) && Finds(byName, rows) && |fates0| == k < |rows| && TargetsAreRepos(rules)
    requires Rolling(rows, Accounts(rows), was, fates0, rules, lists0)
    modifies rows
    ensures |fates| == k + 1 && Rolling(rows, Accounts(rows), was, fates, rules, lists)
  {
    var row := rows[k];
    if row.name in rules.repoNames {
      lists := lists0.(out := lists0.out + [row]);
      assert lists0.orphans + [] == lists0.orphans;
      StayRolling(rows, Accounts(rows), was, fates0, Kept, rules, lists0, lists);
      return lists, fates0 + [Kept];
    }
    var target := ParentOf(rows, row, rules, byName);
    ghost var fate := FateFor(NamesOf(rows), target);
    fates := fates0 + [fate];
    if target.None? {
      lists := Lists(lists0.out + (if rules.keepUnmatched then [row] else []), lists0.orphans + [row], lists0.foldedInto);
      StayRolling(rows, Accounts(rows), was, fates0, fate, rules, lists0, lists);
    } else {
      lists := lists0.(foldedInto := lists0.foldedInto[row.name := target.value]);
      FoldRolling(rows, was, fates0, fate, rules, lists0, lists);
      MergeRow(rows, k, byName[target.value], was, fates0, fate.row);
    }
  }

  /** Fold rows into the repos whose names begin or contain theirs. */
  method RollupProjects(rows: seq<ProjectRow>, rules: Rules) returns (lists: Lists, ghost fates: seq<Fate>)
    requires DistinctRows(rows) && TargetsAreRepos(rules)
    modifies rows
    ensures |fates| == |rows| && FatesAreDue(NamesOf(rows), fates, rules) && Records(lists.foldedInto, NamesOf(rows), fates)
    ensures lists.out == Pick(rows, fates, Listed(rules)) && lists.orphans == Pick(rows, fates, {Orphaned})
    ensures Accounts(rows) == AfterAll(old(Accounts(rows)), fates)
    ensures forall f :: Total(lists.out, f) + (if rules.keepUnmatched then 0 else Total(lists.orphans, f)) == old(Total(rows, f))
  {
    ghost var was := Accounts(rows);
    var byName := ByName(rows);
    lists, fates := Lists([], [], map[]), [];
    StartsRolled(rows, rules, was);
    for k := 0 to |rows|
      invariant |fates| == k && Rolling(rows, Accounts(rows), was, fates, rules, lists)
    {
      lists, fates := RollupRow(rows, k, rules, byName, lists, was, fates);
    }
    TakeAll(rows);
    RollupEnds(rows, was, fates, rules, lists);
  }

  lemma StartsRolled(rows: seq<ProjectRow>, rules: Rules, was: seq<Account>)
    ensures Rolled(rows, NamesOf(rows), [], rules, Lists([], [], map[])) && was == AfterAll(was, [])
  {
    forall p | 0 <= p < |was| ensures After(was, [], p) == was[p] { UntouchedUnlessInto(was, [], p); }
  }

  lemma RollupEnds(rows: seq<ProjectRow>, was: seq<Account>, fates: seq<Fate>, rules: Rules, lists: Lists)
    requires |fates| == |rows| == |was| && FatesAreDue(NamesOf(rows), fates, rules) && TargetsAreRepos(rules)
    requires Accounts(rows) == AfterAll(was, fates)
    requires lists.out == Pick(rows, fates, Listed(rules)) && lists.orphans == Pick(rows, fates, {Orphaned})
    ensures forall f :: Total(lists.out, f) + (if rules.keepUnmatched then 0 else Total(lists.orphans, f)) == Sum(Column(was, f))
  {
    DueFatesAreFlat(NamesOf(rows), fates, rules);
    forall f ensures Total(lists.out, f) + (if rules.keepUnmatched then 0 else Total(lists.orphans, f)) == Sum(Column(was, f)) {
      FoldedRowsCarryAll(rows, was, fates, f);
    }
  }

  // ── Both folds ───────────────────────────────────────────────────

  /** Of rows, or of what they carry, those the path fold keeps. */
  function KeptByPath<T>(items: seq<T>, names: seq<string>, pathFold: map<string, string>): seq<T>
    requires |items| == |names|
  {
    Pick(items, PathFates(names, pathFold), {Kept})
  }

  /** What both folds come to: who is listed and who is left off, and what each of them carries. */
  ghost predicate FoldedTwice(rows: seq<ProjectRow>, was: seq<Account>, pathFold: map<string, string>, rules: Rules, lists: Lists,
                              listed: seq<Account>, left: seq<Account>, fates: seq<Fate>)
  {
    var names := NamesOf(rows);
    |was| == |rows|
    && var kept, now := KeptByPath(rows, names, pathFold), KeptByPath(AfterAll(was, PathFates(names, pathFold)), names, pathFold);
       && |fates| == |kept| == |now| && FatesAreDue(NamesOf(kept), fates, rules) && Records(lists.foldedInto, NamesOf(kept), fates)
       && lists.out == Pick(kept, fates, {Kept}) && lists.orphans == Pick(kept, fates, {Orphaned})
       && listed == Pick(AfterAll(now, fates), fates, {Kept}) && left == Pick(AfterAll(now, fates), fates, {Orphaned})
  }

  lemma BothFolds(rows: seq<ProjectRow>, was: seq<Account>, pathFold: map<string, string>, rules: Rules, lists: Lists,
                  after: seq<ProjectRow>, now: seq<Account>, fates: seq<Fate>)
    requires |was| == |rows| && after == KeptByPath(rows, NamesOf(rows), pathFold)
    requires now == KeptByPath(AfterAll(was, PathFates(NamesOf(rows), pathFold)), NamesOf(rows), pathFold)
    requires |fates| == |after| == |now| && Accounts(after) == AfterAll(now, fates)
    requires FatesAreDue(NamesOf(after), fates, rules) && Records(lists.foldedInto, NamesOf(after), fates)
    requires lists.out == Pick(after, fates, {Kept}) && lists.orphans == Pick(after, fates, {Orphaned})
    ensures FoldedTwice(rows, was, pathFold, rules, lists, Accounts(lists.out), Accounts(lists.orphans), fates)
  {
    AccountsOfPick(after, fates, {Kept});
    AccountsOfPick(after, fates, {Orphaned});
  }

  /**
   * The list: the path fold, then the name fold over what it left. Each row listed or left off carries its
   * own numbers and those of the rows folded into it, so none is lost.
   */
  method FoldProjects(rows: seq<ProjectRow>, pathFold: map<string, string>, rules: Rules) returns (lists: Lists, ghost fates: seq<Fate>)
    requires DistinctRows(rows) && FlatMap(pathFold) && TargetsAreRepos(rules) && !rules.keepUnmatched
    modifies rows
    ensures FoldedTwice(rows, old(Accounts(rows)), pathFold, rules, lists, Accounts(lists.out), Accounts(lists.orphans), fates)
    ensures forall f :: Total(lists.out, f) + Total(lists.orphans, f) == old(Total(rows, f))
  {
    ghost var was := Accounts(rows);
    var after := FoldByPath(rows, pathFold);
    ghost var now := Accounts(after);
    KeptRows(rows, was, pathFold, after);
    lists, fates := RollupProjects(after, rules);
    BothFolds(rows, was, pathFold, rules, lists, after, now, fates);
  }

  lemma KeptRows(rows: seq<ProjectRow>, was: seq<Account>, pathFold: map<string, string>, after: seq<ProjectRow>)
    requires DistinctRows(rows) && |was| == |rows| && after == KeptByPath(rows, NamesOf(rows), pathFold)
    requires Accounts(rows) == AfterAll(was, PathFates(NamesOf(rows), pathFold))
    ensures DistinctRows(after) && forall i :: 0 <= i < |after| ==> after[i] in rows
    ensures Accounts(after) == KeptByPath(AfterAll(was, PathFates(NamesOf(rows), pathFold)), NamesOf(rows), pathFold)
  {
    PickIsPart(rows, PathFates(NamesOf(rows), pathFold), {Kept});
    AccountsOfPick(rows, PathFates(NamesOf(rows), pathFold), {Kept});
  }
}
