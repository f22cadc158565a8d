/**
 * The accounts of project rows as values: what absorbing one row into another does to the numbers a project
 * carries, and why folding loses none of them (packages/core/projects-list.ts, `mergeProjectInfo`).
 */
module ProjectAccounts {
  import opened Wrappers
  import opened Seqs

  datatype Tokens = Tokens(input: int, output: int, cacheRead: int, cacheWrite: int)

  const ZERO_TOKENS := Tokens(0, 0, 0, 0)

  function PlusTokens(a: Tokens, b: Tokens): Tokens {
    Tokens(a.input + b.input, a.output + b.output, a.cacheRead + b.cacheRead, a.cacheWrite + b.cacheWrite)
  }

  function OrZero(tokens: Option<Tokens>): Tokens {
    if tokens.Some? then tokens.value else ZERO_TOKENS
  }

  // ── Newest of two timestamps ─────────────────────────────────────

  /** `a >= b` on strings. */
  predicate NotBefore(a: string, b: string) {
    if b == "" then true
    else if a == "" then false
    else if a[0] != b[0] then a[0] > b[0]
    else NotBefore(a[1..], b[1..])
  }

  function NewerOf(a: string, b: string): string {
    if a == "" then b else if b == "" then a else if NotBefore(a, b) then a else b
  }

  lemma {:induction false} EitherIsNotBefore(a: string, b: string)
    ensures NotBefore(a, b) || NotBefore(b, a)
  {
    if a != "" && b != "" && a[0] == b[0] { EitherIsNotBefore(a[1..], b[1..]); }
  }

  lemma {:induction false} NotBeforeChains(a: string, b: string, c: string)
    requires NotBefore(a, b) && NotBefore(b, c)
    ensures NotBefore(a, c)
  {
    if a != "" && b != "" && c != "" && a[0] == b[0] == c[0] { NotBeforeChains(a[1..], b[1..], c[1..]); }
  }

  lemma NewerIsNotBefore(a: string, b: string)
    ensures NotBefore(NewerOf(a, b), a) && NotBefore(NewerOf(a, b), b)
  {
    EitherIsNotBefore(a, b);
    EitherIsNotBefore(a, a);
    EitherIsNotBefore(b, b);
  }

  /** `Array.from(new Set(xs))`. */
  function WithoutRepeats(xs: seq<string>): seq<string> {
    if xs == [] then []
    else
      var init, last := xs[..|xs| - 1], xs[|xs| - 1];
      if last in init then WithoutRepeats(init) else WithoutRepeats(init) + [last]
  }

  /** The same members, each once. */
  lemma {:induction false} RepeatsAreGone(xs: seq<string>)
    ensures forall x :: x in WithoutRepeats(xs) <==> x in xs
    ensures forall i, j :: 0 <= i < j < |WithoutRepeats(xs)| ==> WithoutRepeats(xs)[i] != WithoutRepeats(xs)[j]
  {
    if xs != [] {
      RepeatsAreGone(xs[..|xs| - 1]);
      assert xs == xs[..|xs| - 1] + [xs[|xs| - 1]];
    }
  }

  // ── Accounts ─────────────────────────────────────────────────────

  /** The numbers a row carries. */
  datatype Field = Sessions | Messages | Input | Output | CacheRead | CacheWrite

  datatype Account = Account(
    sessions: int, messages: int, tokens: Option<Tokens>, latest: string, folded: int, harnesses: seq<string>)
  {
    function Of(f: Field): int {
      match f
      case Sessions => sessions
      case Messages => messages
      case Input => OrZero(tokens).input
      case Output => OrZero(tokens).output
      case CacheRead => OrZero(tokens).cacheRead
      case CacheWrite => OrZero(tokens).cacheWrite
    }
  }

  /** A row's account after it took in a child. */
  function Absorb(a: Account, child: Account): Account {
    Account(a.sessions + child.sessions, a.messages + child.messages,
            if child.tokens.Some? then Some(PlusTokens(OrZero(a.tokens), child.tokens.value)) else a.tokens,
            NewerOf(a.latest, child.latest), a.folded + 1 + child.folded, WithoutRepeats(a.harnesses + child.harnesses))
  }

  lemma AbsorbAdds(a: Account, child: Account, f: Field)
    ensures Absorb(a, child).Of(f) == a.Of(f) + child.Of(f)
  {
  }

  // ── Fates ────────────────────────────────────────────────────────

  /** What becomes of a row: kept on the list, left off it, or folded into the row at an index. */
  datatype Fate = Kept | Orphaned | Into(row: nat)

  /** Rows fold into other rows, and into none that folds itself. */
  ghost predicate Flat(fates: seq<Fate>, n: nat) {
    forall i :: 0 <= i < |fates| && fates[i].Into? ==> Receives(fates, n, i, fates[i].row)
  }

  predicate Receives(fates: seq<Fate>, n: nat, i: nat, p: nat) {
    p < n && p != i && (p < |fates| ==> !fates[p].Into?)
  }

  lemma FlatPrefix(fates: seq<Fate>, n: nat, k: nat)
    requires k <= |fates| && Flat(fates, n)
    ensures Flat(fates[..k], n)
  {
    forall i | 0 <= i < k && fates[..k][i].Into? ensures Receives(fates[..k], n, i, fates[..k][i].row) {
      assert Receives(fates, n, i, fates[i].row);
    }
  }

  /** The account of row `p` once the first rows have met their fates. */
  function After(was: seq<Account>, fates: seq<Fate>, p: nat): Account
    requires p < |was| && |fates| <= |was|
  {
    if fates == [] then was[p]
    else
      var before, k := After(was, fates[..|fates| - 1], p), |fates| - 1;
      if fates[k] == Into(p) then Absorb(before, was[k]) else before
  }

  function AfterAll(was: seq<Account>, fates: seq<Fate>): (now: seq<Account>)
    requires |fates| <= |was|
    ensures |now| == |was| && forall p :: 0 <= p < |was| ==> now[p] == After(was, fates, p)
  {
    seq(|was|, p requires 0 <= p < |was| => After(was, fates, p))
  }

  lemma {:induction false} UntouchedUnlessInto(was: seq<Account>, fates: seq<Fate>, p: nat)
    requires p < |was| && |fates| <= |was| && forall i :: 0 <= i < |fates| ==> fates[i] != Into(p)
    ensures After(was, fates, p) == was[p]
  {
    if fates != [] { UntouchedUnlessInto(was, fates[..|fates| - 1], p); }
  }

  lemma AfterOneMore(was: seq<Account>, fates: seq<Fate>, fate: Fate, p: nat)
    requires p < |was| && |fates| < |was|
    ensures After(was, fates + [fate], p)
            == if fate == Into(p) then Absorb(After(was, fates, p), was[|fates|]) else After(was, fates, p)
  {
    assert (fates + [fate])[..|fates|] == fates;
  }

  /** A row that does not fold changes no account. */
  lemma StayingChangesNothing(was: seq<Account>, fates: seq<Fate>, fate: Fate)
    requires |fates| < |was| && !fate.Into?
    ensures AfterAll(was, fates + [fate]) == AfterAll(was, fates)
  {
    forall p | 0 <= p < |was| ensures After(was, fates + [fate], p) == After(was, fates, p) {
      AfterOneMore(was, fates, fate, p);
    }
  }

  /** A row that folds is absorbed, as it stands, by the row it folds into, and by no other. */
  lemma FoldingIsAbsorbing(was: seq<Account>, fates: seq<Fate>, p: nat)
    requires |fates| < |was| && Flat(fates + [Into(p)], |was|)
    ensures p < |was| && p != |fates|
    ensures AfterAll(was, fates)[|fates|] == was[|fates|]
    ensures AfterAll(was, fates + [Into(p)])
            == AfterAll(was, fates)[p := Absorb(AfterAll(was, fates)[p], AfterAll(was, fates)[|fates|])]
  {
    var k, more := |fates|, fates + [Into(p)];
    assert more[k] == Into(p) && Receives(more, |was|, k, p);
    forall i | 0 <= i < k ensures fates[i] != Into(k) {
      assert more[i] == fates[i];
      if fates[i].Into? { assert Receives(more, |was|, i, fates[i].row); }
    }
    UntouchedUnlessInto(was, fates, k);
    forall q | 0 <= q < |was|
      ensures After(was, more, q) == if q == p then Absorb(After(was, fates, p), was[k]) else After(was, fates, q)
    {
      AfterOneMore(was, fates, Into(p), q);
    }
  }

  // ── Nothing is lost ──────────────────────────────────────────────

  function Sum(values: seq<int>): int {
    if values == [] then 0 else Sum(values[..|values| - 1]) + values[|values| - 1]
  }

  function SumWhere(values: seq<int>, live: seq<bool>): int
    requires |values| == |live|
  {
    if values == [] then 0
    else SumWhere(values[..|values| - 1], live[..|live| - 1]) + if live[|live| - 1] then values[|values| - 1] else 0
  }

  lemma {:induction false} SumOfUpdate(values: seq<int>, live: seq<bool>, p: nat, v: int)
    requires |values| == |live| && p < |values| && live[p]
    ensures SumWhere(values[p := v], live) == SumWhere(values, live) - values[p] + v
  {
    var n := |values| - 1;
    if p < n {
      SumOfUpdate(values[..n], live[..n], p, v);
      assert values[p := v][..n] == values[..n][p := v];
    } else {
      assert values[p := v][..n] == values[..n];
    }
  }

  lemma {:induction false} SumWithout(values: seq<int>, live: seq<bool>, k: nat)
    requires |values| == |live| && k < |values| && live[k]
    ensures SumWhere(values, live[k := false]) == SumWhere(values, live) - values[k]
  {
    var n := |values| - 1;
    if k < n {
      SumWithout(values[..n], live[..n], k);
      assert live[k := false][..n] == live[..n][k := false];
    } else {
      assert live[k := false][..n] == live[..n];
    }
  }

  /** Moving row `k`'s value to row `p` and striking row `k` leaves the sum as it was. */
  lemma MovingKeepsTheSum(values: seq<int>, live: seq<bool>, p: nat, k: nat)
    requires |values| == |live| && p < |values| && k < |values| && p != k && live[p] && live[k]
    ensures SumWhere(values[p := values[p] + values[k]], live[k := false]) == SumWhere(values, live)
  {
    SumOfUpdate(values, live, p, values[p] + values[k]);
    SumWithout(values[p := values[p] + values[k]], live, k);
  }

  /** One field of every account. */
  function Column(accounts: seq<Account>, f: Field): (vs: seq<int>)
    ensures |vs| == |accounts| && forall i :: 0 <= i < |accounts| ==> vs[i] == accounts[i].Of(f)
  {
    seq(|accounts|, i requires 0 <= i < |accounts| => accounts[i].Of(f))
  }

  /** What the rows folded into `p` bring. */
  function Brought(values: seq<int>, fates: seq<Fate>, p: nat): int
    requires |fates| <= |values|
  {
    if fates == [] then 0
    else Brought(values, fates[..|fates| - 1], p) + if fates[|fates| - 1] == Into(p) then values[|fates| - 1] else 0
  }

  /** A row ends with its own numbers and those of the rows folded into it. */
  lemma {:induction false} EachRowGetsItsOwn(was: seq<Account>, fates: seq<Fate>, p: nat, f: Field)
    requires p < |was| && |fates| <= |was|
    ensures After(was, fates, p).Of(f) == was[p].Of(f) + Brought(Column(was, f), fates, p)
  {
    if fates != [] {
      var k := |fates| - 1;
      EachRowGetsItsOwn(was, fates[..k], p, f);
      AbsorbAdds(After(was, fates[..k], p), was[k], f);
    }
  }

  /** And with a recency no older than its own or that of any row folded into it. */
  lemma {:induction false} RecencyIsTheNewest(was: seq<Account>, fates: seq<Fate>, p: nat)
    requires p < |was| && |fates| <= |was|
    ensures NotBefore(After(was, fates, p).latest, was[p].latest)
    ensures forall i :: 0 <= i < |fates| && fates[i] == Into(p) ==> NotBefore(After(was, fates, p).latest, was[i].latest)
  {
    if fates == [] {
      EitherIsNotBefore(was[p].latest, was[p].latest);
    } else {
      var k := |fates| - 1;
      var before, now := After(was, fates[..k], p), After(was, fates, p);
      RecencyIsTheNewest(was, fates[..k], p);
      NewerIsNotBefore(before.latest, was[k].latest);
      EitherIsNotBefore(before.latest, before.latest);
      assert NotBefore(now.latest, before.latest);
      NotBeforeChains(now.latest, before.latest, was[p].latest);
      forall i | 0 <= i < k && fates[i] == Into(p) ensures NotBefore(now.latest, was[i].latest) {
        assert fates[..k][i] == Into(p);
        NotBeforeChains(now.latest, before.latest, was[i].latest);
      }
    }
  }

  /** The items with one of the given fates, in order. */
  function Pick<T>(items: seq<T>, fates: seq<Fate>, which: set<Fate>): seq<T>
    requires |fates| == |items|
  {
    if items == [] then []
    else
      var rest := Pick(items[..|items| - 1], fates[..|fates| - 1], which);
      if fates[|fates| - 1] in which then rest + [items[|items| - 1]] else rest
  }

  lemma PickOneMore<T>(items: seq<T>, fates: seq<Fate>, k: nat, which: set<Fate>)
    requires |fates| == |items| && k < |items|
    ensures Pick(items[..k + 1], fates[..k + 1], which)
            == Pick(items[..k], fates[..k], which) + if fates[k] in which then [items[k]] else []
  {
    assert items[..k + 1][..k] == items[..k] && fates[..k + 1][..k] == fates[..k];
  }

  function Flags(fates: seq<Fate>, which: set<Fate>): (flags: seq<bool>)
    ensures |flags| == |fates| && forall i :: 0 <= i < |fates| ==> flags[i] == (fates[i] in which)
  {
    seq(|fates|, i requires 0 <= i < |fates| => fates[i] in which)
  }

  lemma {:induction false} SumOfPick(accounts: seq<Account>, fates: seq<Fate>, which: set<Fate>, f: Field)
    requires |fates| == |accounts|
    ensures Sum(Column(Pick(accounts, fates, which), f)) == SumWhere(Column(accounts, f), Flags(fates, which))
  {
    if accounts != [] {
      var init, initFates, last := accounts[..|accounts| - 1], fates[..|fates| - 1], accounts[|accounts| - 1];
      SumOfPick(init, initFates, which, f);
      assert Flags(fates, which)[..|init|] == Flags(initFates, which);
      assert Column(accounts, f)[..|init|] == Column(init, f);
      var rest := Pick(init, initFates, which);
      assert Column(rest + [last], f)[..|rest|] == Column(rest, f);
    }
  }

  lemma {:induction false} FlagsSplit(values: seq<int>, fates: seq<Fate>, live: seq<bool>)
    requires |values| == |fates| == |live| && forall i :: 0 <= i < |fates| ==> live[i] == !fates[i].Into?
    ensures SumWhere(values, Flags(fates, {Kept})) + SumWhere(values, Flags(fates, {Orphaned})) == SumWhere(values, live)
    ensures SumWhere(values, Flags(fates, {Kept, Orphaned})) == SumWhere(values, live)
  {
    if values != [] {
      var n := |values| - 1;
      FlagsSplit(values[..n], fates[..n], live[..n]);
      assert Flags(fates, {Kept})[..n] == Flags(fates[..n], {Kept});
      assert Flags(fates, {Orphaned})[..n] == Flags(fates[..n], {Orphaned});
      assert Flags(fates, {Kept, Orphaned})[..n] == Flags(fates[..n], {Kept, Orphaned});
    }
  }

  /** Rows not folded yet, given the fates of the first of them. */
  function Live(fates: seq<Fate>, n: nat): (live: seq<bool>)
    requires |fates| <= n
    ensures |live| == n && forall i :: 0 <= i < n ==> live[i] == (i >= |fates| || !fates[i].Into?)
  {
    seq(n, i requires 0 <= i < n => i >= |fates| || !fates[i].Into?)
  }

  lemma {:induction false} AllLive(values: seq<int>, live: seq<bool>)
    requires |values| == |live| && forall i :: 0 <= i < |live| ==> live[i]
    ensures SumWhere(values, live) == Sum(values)
  {
    if values != [] { AllLive(values[..|values| - 1], live[..|live| - 1]); }
  }

  lemma FoldingBalances(was: seq<Account>, fates: seq<Fate>, p: nat, f: Field)
    requires |fates| < |was| && Flat(fates + [Into(p)], |was|)
    ensures SumWhere(Column(AfterAll(was, fates + [Into(p)]), f), Live(fates + [Into(p)], |was|))
            == SumWhere(Column(AfterAll(was, fates), f), Live(fates, |was|))
  {
    var k, now, live := |fates|, AfterAll(was, fates), Live(fates, |was|);
    FoldingIsAbsorbing(was, fates, p);
    AbsorbAdds(now[p], now[k], f);
    var vs := Column(now, f);
    assert (fates + [Into(p)])[k] == Into(p) && Receives(fates + [Into(p)], |was|, k, p);
    assert live[p] && live[k];
    assert Column(now[p := Absorb(now[p], now[k])], f) == vs[p := vs[p] + vs[k]];
    assert Live(fates + [Into(p)], |was|) == live[k := false];
    MovingKeepsTheSum(vs, live, p, k);
  }

  lemma {:induction false} RowsNotFoldedCarryAll(was: seq<Account>, fates: seq<Fate>, f: Field)
    requires |fates| <= |was| && Flat(fates, |was|)
    ensures SumWhere(Column(AfterAll(was, fates), f), Live(fates, |was|)) == Sum(Column(was, f))
  {
    if fates == [] {
      forall p | 0 <= p < |was| ensures AfterAll(was, fates)[p] == was[p] { UntouchedUnlessInto(was, fates, p); }
      assert Column(AfterAll(was, fates), f) == Column(was, f);
      AllLive(Column(was, f), Live(fates, |was|));
    } else {
      var k := |fates| - 1;
      var init := fates[..k];
      assert fates == init + [fates[k]];
      FlatPrefix(fates, |was|, k);
      RowsNotFoldedCarryAll(was, init, f);
      if fates[k].Into? {
        FoldingBalances(was, init, fates[k].row, f);
      } else {
        StayingChangesNothing(was, init, fates[k]);
        assert Live(fates, |was|) == Live(init, |was|);
      }
    }
  }

  /** Whatever folds into whatever, the rows kept and the rows left off carry together what all rows carried. */
  lemma FoldLosesNothing(was: seq<Account>, fates: seq<Fate>, f: Field)
    requires |fates| == |was| && Flat(fates, |was|)
    ensures Sum(Column(Pick(AfterAll(was, fates), fates, {Kept}), f)) + Sum(Column(Pick(AfterAll(was, fates), fates, {Orphaned}), f))
            == Sum(Column(was, f))
    ensures Sum(Column(Pick(AfterAll(was, fates), fates, {Kept, Orphaned}), f)) == Sum(Column(was, f))
  {
    var now := AfterAll(was, fates);
    RowsNotFoldedCarryAll(was, fates, f);
    SumOfPick(now, fates, {Kept}, f);
    SumOfPick(now, fates, {Orphaned}, f);
    SumOfPick(now, fates, {Kept, Orphaned}, f);
    FlagsSplit(Column(now, f), fates, Live(fates, |was|));
  }
}
