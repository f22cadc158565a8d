/**
 * Redaction (packages/core/pii.ts): which of many candidate matches are taken, and replacing them by tokens
 * from the right end of the text to the left.
 */
module Redact {
  import opened Wrappers
  import opened Seqs

  /** One regex match: its span, and whether the pattern's validator accepts it. */
  datatype Match = Match(start: nat, end: nat, valid: bool)

  /** A pattern and its matches in a text, in the order the regex finds them. */
  datatype Pattern = Pattern(kind: string, matches: seq<Match>)

  datatype Span = Span(kind: string, start: nat, end: nat)
  datatype Edit = Edit(start: nat, end: nat, token: string)
  datatype Replacement = Replacement(token: string, kind: string, originalHash: string)

  predicate Overlaps(a: Span, b: Span) {
    a.start < b.end && a.end > b.start
  }

  predicate AnyOverlap(taken: seq<Span>, s: Span) {
    exists i :: 0 <= i < |taken| && Overlaps(s, taken[i])
  }

  // ── Which candidates are taken ───────────────────────────────────

  datatype Candidate = Candidate(span: Span, valid: bool)

  function CandidateOf(kind: string, m: Match): Candidate {
    Candidate(Span(kind, m.start, m.end), m.valid)
  }

  function Tagged(kind: string, matches: seq<Match>): (cs: seq<Candidate>)
    ensures |cs| == |matches|
  {
    seq(|matches|, i requires 0 <= i < |matches| => CandidateOf(kind, matches[i]))
  }

  /** All candidates, patterns in order of specificity. */
  function Candidates(patterns: seq<Pattern>): seq<Candidate> {
    if patterns == [] then []
    else Candidates(patterns[..|patterns| - 1]) + Tagged(patterns[|patterns| - 1].kind, patterns[|patterns| - 1].matches)
  }

  function TakeNext(taken: seq<Span>, c: Candidate): seq<Span> {
    if AnyOverlap(taken, c.span) || !c.valid then taken else taken + [c.span]
  }

  function Taken(cs: seq<Candidate>): seq<Span> {
    if cs == [] then [] else TakeNext(Taken(cs[..|cs| - 1]), cs[|cs| - 1])
  }

  predicate IsSpanOf(s: Span, length: nat) {
    s.start < s.end <= length
  }

  /** Every match is a non-empty stretch of the text. */
  ghost predicate MatchesIn(cs: seq<Candidate>, length: nat) {
    forall i :: 0 <= i < |cs| ==> IsSpanOf(cs[i].span, length)
  }

  predicate Apart(a: Span, b: Span) {
    a.end <= b.start || b.end <= a.start
  }

  ghost predicate Disjoint(spans: seq<Span>) {
    forall i, j :: 0 <= i < j < |spans| ==> Apart(spans[i], spans[j])
  }

  ghost predicate SpansIn(spans: seq<Span>, length: nat) {
    forall i :: 0 <= i < |spans| ==> IsSpanOf(spans[i], length)
  }

  /** The spans taken never overlap. */
  lemma {:induction false} TakenAreDisjoint(cs: seq<Candidate>, length: nat)
    requires MatchesIn(cs, length)
    ensures Disjoint(Taken(cs)) && SpansIn(Taken(cs), length)
  {
    if cs != [] { TakenAreDisjoint(cs[..|cs| - 1], length); }
  }

  lemma {:induction false} TakenGrows(cs: seq<Candidate>, k: nat)
    requires k <= |cs|
    ensures Taken(cs[..k]) <= Taken(cs)
    decreases |cs| - k
  {
    if k < |cs| {
      assert cs[..k + 1][..k] == cs[..k];
      TakenGrows(cs, k + 1);
    } else {
      TakeAll(cs);
    }
  }

  /** A candidate is taken exactly when it is valid and clear of every span taken before it. */
  lemma TakenExactlyWhen(cs: seq<Candidate>, k: nat)
    requires k < |cs|
    ensures var before := Taken(cs[..k]);
            && before <= Taken(cs)
            && (cs[k].valid && !AnyOverlap(before, cs[k].span)
                <==> |Taken(cs[..k + 1])| == |before| + 1)
            && (cs[k].valid && !AnyOverlap(before, cs[k].span)
                ==> |before| < |Taken(cs)| && Taken(cs)[|before|] == cs[k].span)
  {
    assert cs[..k + 1][..k] == cs[..k];
    TakenGrows(cs, k);
    TakenGrows(cs, k + 1);
  }

  /** Nothing valid is left standing whole: every valid candidate overlaps a span that was taken. */
  lemma ValidIsCovered(cs: seq<Candidate>, k: nat, length: nat)
    requires MatchesIn(cs, length) && k < |cs| && cs[k].valid
    ensures AnyOverlap(Taken(cs), cs[k].span)
  {
    TakenExactlyWhen(cs, k);
    var before := Taken(cs[..k]);
    MoreOverlap(before, Taken(cs), cs[k].span);
    if !AnyOverlap(before, cs[k].span) {
      assert Overlaps(cs[k].span, Taken(cs)[|before|]);
    }
  }

  lemma MoreOverlap(some: seq<Span>, all: seq<Span>, s: Span)
    requires some <= all
    ensures AnyOverlap(some, s) ==> AnyOverlap(all, s)
  {
    forall i | 0 <= i < |some| && Overlaps(s, some[i]) ensures AnyOverlap(all, s) {
      assert Overlaps(s, all[i]);
    }
  }

  /** Nothing is taken that is not a valid candidate. */
  lemma {:induction false} TakenAreValid(cs: seq<Candidate>)
    ensures forall s :: s in Taken(cs) ==> Candidate(s, true) in cs
  {
    if cs != [] {
      TakenAreValid(cs[..|cs| - 1]);
      assert cs == cs[..|cs| - 1] + [cs[|cs| - 1]];
    }
  }

  // ── Tokens ───────────────────────────────────────────────────────

  function Digit(n: nat): char
    requires n < 10
  {
    ('0' as int + n) as char
  }

  function Decimal(n: nat): (s: string)
    ensures s != "" && forall i :: 0 <= i < |s| ==> '0' <= s[i] <= '9'
  {
    if n < 10 then [Digit(n)] else Decimal(n / 10) + [Digit(n % 10)]
  }

  function UpperChar(c: char): char {
    if 'a' <= c <= 'z' then (c as int - 32) as char else c
  }

  function Upper(s: string): (r: string)
    ensures |r| == |s| && forall i :: 0 <= i < |s| ==> r[i] == UpperChar(s[i])
  {
    seq(|s|, i requires 0 <= i < |s| => UpperChar(s[i]))
  }

  /** `__TYPE_N__`. */
  function Token(kind: string, n: nat): string {
    "__" + Upper(kind) + "_" + Decimal(n) + "__"
  }

  function CountOf(spans: seq<Span>, kind: string): nat {
    if spans == [] then 0
    else CountOf(spans[..|spans| - 1], kind) + if spans[|spans| - 1].kind == kind then 1 else 0
  }

  /** The taken spans with their tokens, numbered from 1 within each kind. */
  function Edits(spans: seq<Span>): (es: seq<Edit>)
    ensures |es| == |spans|
    ensures forall i :: 0 <= i < |spans| ==> es[i].start == spans[i].start && es[i].end == spans[i].end
  {
    if spans == [] then []
    else
      var init, s := spans[..|spans| - 1], spans[|spans| - 1];
      Edits(init) + [Edit(s.start, s.end, Token(s.kind, CountOf(init, s.kind) + 1))]
  }

  function Replacements(text: string, spans: seq<Span>, hash: string -> string): (rs: seq<Replacement>)
    requires SpansIn(spans, |text|)
    ensures |rs| == |spans|
  {
    if spans == [] then []
    else
      var init, s := spans[..|spans| - 1], spans[|spans| - 1];
      Replacements(text, init, hash)
      + [Replacement(Token(s.kind, CountOf(init, s.kind) + 1), s.kind, hash(text[s.start..s.end]))]
  }

  // ── Splicing ─────────────────────────────────────────────────────

  predicate EditIn(e: Edit, length: nat) {
    e.start < e.end <= length
  }

  predicate EditsApart(a: Edit, b: Edit) {
    a.end <= b.start || b.end <= a.start
  }

  ghost predicate EditsIn(es: seq<Edit>, length: nat) {
    forall e :: e in es ==> EditIn(e, length)
  }

  ghost predicate Separate(es: seq<Edit>, length: nat) {
    && EditsIn(es, length)
    && (forall i, j :: 0 <= i < j < |es| ==> EditsApart(es[i], es[j]))
  }

  /** The edit that starts at a position. */
  function EditAt(es: seq<Edit>, pos: nat): (e: Option<Edit>)
    ensures e.Some? ==> e.value in es && e.value.start == pos
    ensures e.Some? ==> exists i :: 0 <= i < |es| && es[i].start == pos
    ensures e.None? ==> forall i :: 0 <= i < |es| ==> es[i].start != pos
  {
    if es == [] then None
    else if es[0].start == pos then Some(es[0])
    else EditAt(es[1..], pos)
  }

  /** One pass from left to right: where an edit starts, its token; everywhere else, the text. */
  function Emitted(text: string, es: seq<Edit>, pos: nat): string
    requires pos <= |text| && EditsIn(es, |text|)
    decreases |text| - pos
  {
    if pos == |text| then ""
    else
      var e := EditAt(es, pos);
      if e.Some? then e.value.token + Emitted(text, es, e.value.end) else [text[pos]] + Emitted(text, es, pos + 1)
  }

  ghost predicate Descending(es: seq<Edit>) {
    forall i, j :: 0 <= i < j < |es| ==> es[i].start >= es[j].start
  }

  /** `sort((a, b) => b.start - a.start)`. */
  method SortDescending(es: seq<Edit>) returns (sorted: seq<Edit>)
    ensures Descending(sorted) && multiset(sorted) == multiset(es)
  {
    sorted := [];
    for k := 0 to |es|
      invariant Descending(sorted) && multiset(sorted) == multiset(es[..k])
    {
      var i := 0;
      while i < |sorted| && sorted[i].start >= es[k].start
        invariant 0 <= i <= |sorted| && forall j :: 0 <= j < i ==> sorted[j].start >= es[k].start
      {
        i := i + 1;
      }
      TakeOneMore(es, k);
      InsertKeeps(sorted, i, es[k]);
      sorted := sorted[..i] + [es[k]] + sorted[i..];
    }
    TakeAll(es);
  }

  lemma InsertKeeps(es: seq<Edit>, i: nat, e: Edit)
    requires i <= |es| && Descending(es)
    requires (forall j :: 0 <= j < i ==> es[j].start >= e.start) && (i < |es| ==> es[i].start < e.start)
    ensures Descending(es[..i] + [e] + es[i..]) && multiset(es[..i] + [e] + es[i..]) == multiset(es) + multiset{e}
  {
    assert es == es[..i] + es[i..];
  }

  /** Cut each edit out of the text and put its token in, the edits given from the right end to the left. */
  method SpliceInOrder(text: string, sorted: seq<Edit>) returns (out: string)
    requires Separate(sorted, |text|) && Descending(sorted)
    ensures out == Emitted(text, sorted, 0)
  {
    out := text;
    EmitNone(text, 0);
    for k := 0 to |sorted|
      invariant EditsIn(sorted[..k], |text|) && out == Emitted(text, sorted[..k], 0)
    {
      var e := sorted[k];
      TakeOneMore(sorted, k);
      PrefixIsSeparate(sorted, k + 1, |text|);
      SpliceNext(text, sorted[..k], e);
      out := out[..e.start] + e.token + out[e.end..];
    }
    TakeAll(sorted);
  }

  lemma PrefixIsSeparate(es: seq<Edit>, k: nat, length: nat)
    requires Separate(es, length) && k <= |es|
    ensures Separate(es[..k], length)
  {
  }

  lemma {:induction false} EmitNone(text: string, pos: nat)
    requires pos <= |text|
    ensures Emitted(text, [], pos) == text[pos..]
    decreases |text| - pos
  {
    if pos < |text| { EmitNone(text, pos + 1); }
  }

  /** Where no edit starts, a character. */
  lemma EmitOne(text: string, es: seq<Edit>, pos: nat)
    requires pos < |text| && EditsIn(es, |text|) && forall i :: 0 <= i < |es| ==> es[i].start != pos
    ensures Emitted(text, es, pos) == [text[pos]] + Emitted(text, es, pos + 1)
  {
    assert EditAt(es, pos).None?;
  }

  lemma SliceStep(text: string, pos: nat, stop: nat, rest: string)
    requires pos < stop <= |text|
    ensures text[pos..stop] + rest == [text[pos]] + (text[pos + 1..stop] + rest)
  {
  }

  /** Up to the first edit, the text itself. */
  lemma {:induction false} EmitUntil(text: string, es: seq<Edit>, pos: nat, stop: nat)
    requires pos <= stop <= |text| && EditsIn(es, |text|)
    requires forall i :: 0 <= i < |es| ==> es[i].start >= stop || es[i].start < pos
    ensures Emitted(text, es, pos) == text[pos..stop] + Emitted(text, es, stop)
    decreases stop - pos
  {
    if pos < stop {
      EmitUntil(text, es, pos + 1, stop);
      EmitOne(text, es, pos);
      SliceStep(text, pos, stop, Emitted(text, es, stop));
    }
  }

  /** Edits that start before a position do not matter from there on. */
  lemma {:induction false} EmitPast(text: string, es: seq<Edit>, e: Edit, pos: nat)
    requires e.start < pos <= |text| && EditIn(e, |text|) && EditsIn(es, |text|)
    ensures Emitted(text, es + [e], pos) == Emitted(text, es, pos)
    decreases |text| - pos
  {
    if pos < |text| {
      EditAtAppend(es, e, pos);
      var hit := EditAt(es, pos);
      EmitPast(text, es, e, if hit.Some? then hit.value.end else pos + 1);
    }
  }

  lemma {:induction false} EditAtAppend(es: seq<Edit>, e: Edit, pos: nat)
    ensures EditAt(es + [e], pos) == if EditAt(es, pos).Some? then EditAt(es, pos) else if e.start == pos then Some(e) else None
  {
    if es != [] {
      EditAtAppend(es[1..], e, pos);
      assert (es + [e])[1..] == es[1..] + [e];
    }
  }

  lemma RightOf(es: seq<Edit>, e: Edit, length: nat)
    requires Separate(es + [e], length) && forall i :: 0 <= i < |es| ==> es[i].start >= e.start
    ensures EditsIn(es, length) && EditIn(e, length)
    ensures forall i :: 0 <= i < |es| ==> es[i].start >= e.end
  {
    var all := es + [e];
    assert e in all;
    assert forall x :: x in es ==> x in all;
    forall i | 0 <= i < |es| ensures es[i].start >= e.end {
      assert all[i] == es[i] && all[|es|] == e;
      assert EditsApart(all[i], all[|es|]) && EditIn(all[i], length);
    }
  }

  /** The pass over all the edits, seen from the leftmost one. */
  lemma EmitFirst(text: string, es: seq<Edit>, e: Edit)
    requires EditsIn(es, |text|) && EditIn(e, |text|) && EditsIn(es + [e], |text|)
    requires forall i :: 0 <= i < |es| ==> es[i].start >= e.end
    ensures Emitted(text, es + [e], 0) == text[0..e.start] + e.token + Emitted(text, es, e.end)
  {
    EmitUntil(text, es + [e], 0, e.start);
    EditAtAppend(es, e, e.start);
    EmitPast(text, es, e, e.end);
    assert text[0..e.start] + (e.token + Emitted(text, es, e.end)) == text[0..e.start] + e.token + Emitted(text, es, e.end);
  }

  lemma SpliceNext(text: string, es: seq<Edit>, e: Edit)
    requires Separate(es + [e], |text|) && forall i :: 0 <= i < |es| ==> es[i].start >= e.start
    ensures EditsIn(es, |text|) && e.start < e.end
    ensures var out := Emitted(text, es, 0);
            e.end <= |out| && out[..e.start] + e.token + out[e.end..] == Emitted(text, es + [e], 0)
  {
    RightOf(es, e, |text|);
    EmitUntil(text, es, 0, e.end);
    EmitFirst(text, es, e);
    Cuts(text[0..e.end], Emitted(text, es, e.end), e.start);
    assert text[0..e.end][..e.start] == text[0..e.start];
  }

  lemma Cuts(a: string, b: string, k: nat)
    requires k <= |a|
    ensures (a + b)[..k] == a[..k] && (a + b)[|a|..] == b
  {
  }

  lemma InMultiset(es: seq<Edit>, e: Edit)
    ensures e in es <==> multiset(es)[e] > 0
  {
  }

  lemma TwoOfOne(es: seq<Edit>, i: nat, j: nat)
    requires i < j < |es| && es[i] == es[j]
    ensures multiset(es)[es[i]] >= 2
  {
    assert es == es[..j] + [es[j]] + es[j + 1..];
    assert es[i] in es[..j];
  }

  lemma {:induction false} OneOfEach(es: seq<Edit>, e: Edit, length: nat)
    requires Separate(es, length)
    ensures multiset(es)[e] <= 1
  {
    if es != [] {
      var init, last := es[..|es| - 1], es[|es| - 1];
      OneOfEach(init, e, length);
      assert es == init + [last];
      assert last !in init by {
        forall i | 0 <= i < |init| ensures init[i] != last { if init[i] == last { StartsAreDistinct(es, i, |es| - 1, length); } }
      }
    }
  }

  lemma PermutedStaySeparate(es: seq<Edit>, sorted: seq<Edit>, length: nat)
    requires Separate(es, length) && multiset(sorted) == multiset(es)
    ensures Separate(sorted, length)
  {
    forall e | e in sorted ensures EditIn(e, length) {
      InMultiset(sorted, e);
      InMultiset(es, e);
    }
    forall i, j | 0 <= i < j < |sorted| ensures EditsApart(sorted[i], sorted[j]) {
      InMultiset(sorted, sorted[i]);
      InMultiset(sorted, sorted[j]);
      InMultiset(es, sorted[i]);
      InMultiset(es, sorted[j]);
      OneOfEach(es, sorted[i], length);
      if sorted[i] == sorted[j] { TwoOfOne(sorted, i, j); }
      var p :| 0 <= p < |es| && es[p] == sorted[i];
      var q :| 0 <= q < |es| && es[q] == sorted[j];
      assert p < q || q < p;
    }
  }

  /** The pass depends on which edits there are, not on their order. */
  lemma {:induction false} SameEmission(text: string, xs: seq<Edit>, ys: seq<Edit>, pos: nat)
    requires Separate(xs, |text|) && Separate(ys, |text|) && multiset(xs) == multiset(ys) && pos <= |text|
    ensures Emitted(text, xs, pos) == Emitted(text, ys, pos)
    decreases |text| - pos
  {
    if pos < |text| {
      SameEditAt(xs, ys, pos, |text|);
      SameEditAt(ys, xs, pos, |text|);
      var hit := EditAt(xs, pos);
      SameEmission(text, xs, ys, if hit.Some? then hit.value.end else pos + 1);
    }
  }

  lemma SameEditAt(xs: seq<Edit>, ys: seq<Edit>, pos: nat, length: nat)
    requires Separate(xs, length) && Separate(ys, length) && multiset(xs) == multiset(ys)
    ensures EditAt(xs, pos).Some? ==> EditAt(ys, pos) == EditAt(xs, pos)
  {
    var hit := EditAt(xs, pos);
    if hit.Some? {
      InMultiset(xs, hit.value);
      InMultiset(ys, hit.value);
      var p :| 0 <= p < |ys| && ys[p] == hit.value;
      var other := EditAt(ys, pos);
      assert other.Some?;
      var q :| 0 <= q < |ys| && ys[q] == other.value;
      StartsAreDistinct(ys, p, q, length);
    }
  }

  lemma StartsAreDistinct(es: seq<Edit>, p: nat, q: nat, length: nat)
    requires Separate(es, length) && p < |es| && q < |es| && es[p].start == es[q].start
    ensures p == q
  {
    assert EditIn(es[p], length) && EditIn(es[q], length);
  }

  // ── Personal data ────────────────────────────────────────────────

  lemma EditsAreSeparate(spans: seq<Span>, length: nat)
    requires Disjoint(spans) && SpansIn(spans, length)
    ensures Separate(Edits(spans), length)
  {
    var es := Edits(spans);
    forall i, j | 0 <= i < j < |es| ensures EditsApart(es[i], es[j]) {
      assert Apart(spans[i], spans[j]);
    }
  }

  function Counter(counters: map<string, nat>, kind: string): nat {
    if kind in counters then counters[kind] else 0
  }

  /** What the loops have built once they have taken some spans. */
  ghost predicate Built(text: string, taken: seq<Span>, replaced: seq<Edit>, replacements: seq<Replacement>,
                        counters: map<string, nat>, hash: string -> string) {
    && SpansIn(taken, |text|)
    && replaced == Edits(taken) && replacements == Replacements(text, taken, hash)
    && forall kind :: Counter(counters, kind) == CountOf(taken, kind)
  }

  lemma EditsMore(text: string, taken: seq<Span>, s: Span, hash: string -> string)
    requires SpansIn(taken, |text|) && IsSpanOf(s, |text|)
    ensures var n := CountOf(taken, s.kind) + 1;
            && SpansIn(taken + [s], |text|)
            && Edits(taken + [s]) == Edits(taken) + [Edit(s.start, s.end, Token(s.kind, n))]
            && Replacements(text, taken + [s], hash)
               == Replacements(text, taken, hash) + [Replacement(Token(s.kind, n), s.kind, hash(text[s.start..s.end]))]
  {
    assert (taken + [s])[..|taken|] == taken;
  }

  lemma CountMore(taken: seq<Span>, s: Span, kind: string)
    ensures CountOf(taken + [s], kind) == CountOf(taken, kind) + if s.kind == kind then 1 else 0
  {
    assert (taken + [s])[..|taken|] == taken;
  }

  lemma BuildOne(text: string, taken: seq<Span>, s: Span, counters: map<string, nat>, hash: string -> string)
    requires SpansIn(taken, |text|) && IsSpanOf(s, |text|)
    requires forall kind :: Counter(counters, kind) == CountOf(taken, kind)
    ensures var n := Counter(counters, s.kind) + 1;
            Built(text, taken + [s], Edits(taken) + [Edit(s.start, s.end, Token(s.kind, n))],
                  Replacements(text, taken, hash) + [Replacement(Token(s.kind, n), s.kind, hash(text[s.start..s.end]))],
                  counters[s.kind := n], hash)
  {
    EditsMore(text, taken, s, hash);
    forall kind
      ensures Counter(counters[s.kind := Counter(counters, s.kind) + 1], kind) == CountOf(taken + [s], kind)
    {
      CountMore(taken, s, kind);
    }
  }

  lemma SameOverlap(taken: seq<Span>, s: Span)
    ensures AnyOverlap(taken, s) <==> exists i :: 0 <= i < |Edits(taken)| && s.start < Edits(taken)[i].end && s.end > Edits(taken)[i].start
  {
    if AnyOverlap(taken, s) {
      var i :| 0 <= i < |taken| && Overlaps(s, taken[i]);
      assert s.start < Edits(taken)[i].end && s.end > Edits(taken)[i].start;
    }
    forall i | 0 <= i < |Edits(taken)| && s.start < Edits(taken)[i].end && s.end > Edits(taken)[i].start ensures AnyOverlap(taken, s) {
      assert Overlaps(s, taken[i]);
    }
  }

  /** One match: skipped if it overlaps a span already replaced or its validator rejects it. */
  method ConsiderMatch(text: string, kind: string, m: Match, hash: string -> string, ghost taken: seq<Span>,
                       replaced0: seq<Edit>, replacements0: seq<Replacement>, counters0: map<string, nat>)
      returns (replaced: seq<Edit>, replacements: seq<Replacement>, counters: map<string, nat>)
    requires Built(text, taken, replaced0, replacements0, counters0, hash) && IsSpanOf(Span(kind, m.start, m.end), |text|)
    ensures Built(text, TakeNext(taken, CandidateOf(kind, m)), replaced, replacements, counters, hash)
  {
    replaced, replacements, counters := replaced0, replacements0, counters0;
    SameOverlap(taken, Span(kind, m.start, m.end));
    if exists i :: 0 <= i < |replaced| && m.start < replaced[i].end && m.end > replaced[i].start { return; }
    if !m.valid { return; }
    var count := Counter(counters, kind) + 1;
    BuildOne(text, taken, Span(kind, m.start, m.end), counters, hash);
    counters := counters[kind := count];
    replacements := replacements + [Replacement(Token(kind, count), kind, hash(text[m.start..m.end]))];
    replaced := replaced + [Edit(m.start, m.end, Token(kind, count))];
  }

  lemma TakenOneMore(cs: seq<Candidate>, c: Candidate)
    ensures Taken(cs + [c]) == TakeNext(Taken(cs), c)
  {
    assert (cs + [c])[..|cs|] == cs;
  }

  lemma CandidatesOneMore(patterns: seq<Pattern>, k: nat)
    requires k < |patterns|
    ensures Candidates(patterns[..k + 1]) == Candidates(patterns[..k]) + Tagged(patterns[k].kind, patterns[k].matches)
    ensures Candidates(patterns[..k + 1]) <= Candidates(patterns)
  {
    assert patterns[..k + 1][..k] == patterns[..k];
    CandidatesGrow(patterns, k + 1);
  }

  lemma AppendPrefix<T>(a: seq<T>, b: seq<T>, j: nat)
    requires j < |b|
    ensures a + b[..j + 1] == a + b[..j] + [b[j]]
  {
  }

  lemma {:induction false} CandidatesGrow(patterns: seq<Pattern>, k: nat)
    requires k <= |patterns|
    ensures Candidates(patterns[..k]) <= Candidates(patterns)
    decreases |patterns| - k
  {
    if k < |patterns| {
      assert patterns[..k + 1][..k] == patterns[..k];
      CandidatesGrow(patterns, k + 1);
    } else {
      TakeAll(patterns);
    }
  }

  lemma MatchesNeedText(cs: seq<Candidate>, length: nat)
    requires MatchesIn(cs, length)
    ensures cs == [] || length > 0
  {
    if cs != [] { assert IsSpanOf(cs[0].span, length); }
  }

  /** Replace each match taken by a numbered token; the originals leave only as hashes. */
  method SanitizePII(text: string, patterns: seq<Pattern>, hash: string -> string)
      returns (sanitized: string, replacements: seq<Replacement>)
    requires MatchesIn(Candidates(patterns), |text|)
    ensures SpansIn(Taken(Candidates(patterns)), |text|) && Separate(Edits(Taken(Candidates(patterns))), |text|)
    ensures sanitized == Emitted(text, Edits(Taken(Candidates(patterns))), 0)
    ensures replacements == Replacements(text, Taken(Candidates(patterns)), hash)
  {
    ghost var cs := Candidates(patterns);
    TakenAreDisjoint(cs, |text|);
    EditsAreSeparate(Taken(cs), |text|);
    if text == "" {
      MatchesNeedText(cs, |text|);
      return text, [];
    }
    replacements := [];
    var counters: map<string, nat> := map[];
    var replaced: seq<Edit> := [];
    for k := 0 to |patterns|
      invariant Built(text, Taken(Candidates(patterns[..k])), replaced, replacements, counters, hash)
    {
      replaced, replacements, counters := ConsiderPattern(text, patterns, k, hash, replaced, replacements, counters);
    }
    TakeAll(patterns);
    var sorted := SortDescending(replaced);
    PermutedStaySeparate(replaced, sorted, |text|);
    sanitized := SpliceInOrder(text, sorted);
    SameEmission(text, sorted, replaced, 0);
  }

  method ConsiderPattern(text: string, patterns: seq<Pattern>, k: nat, hash: string -> string,
                         replaced0: seq<Edit>, replacements0: seq<Replacement>, counters0: map<string, nat>)
      returns (replaced: seq<Edit>, replacements: seq<Replacement>, counters: map<string, nat>)
    requires k < |patterns| && MatchesIn(Candidates(patterns), |text|)
    requires Built(text, Taken(Candidates(patterns[..k])), replaced0, replacements0, counters0, hash)
    ensures Built(text, Taken(Candidates(patterns[..k + 1])), replaced, replacements, counters, hash)
  {
    replaced, replacements, counters := replaced0, replacements0, counters0;
    ghost var before, tagged := Candidates(patterns[..k]), Tagged(patterns[k].kind, patterns[k].matches);
    CandidatesOneMore(patterns, k);
    assert before + tagged[..0] == before;
    var matches := patterns[k].matches;
    for j := 0 to |matches|
      invariant Built(text, Taken(before + tagged[..j]), replaced, replacements, counters, hash)
    {
      AppendPrefix(before, tagged, j);
      TakenOneMore(before + tagged[..j], tagged[j]);
      assert IsSpanOf(Candidates(patterns)[|before| + j].span, |text|);
      replaced, replacements, counters :=
        ConsiderMatch(text, patterns[k].kind, matches[j], hash, Taken(before + tagged[..j]), replaced, replacements, counters);
    }
    TakeAll(tagged);
  }

  // ── Tokens are unique ────────────────────────────────────────────

  /** Type names as the pattern tables spell them. */
  predicate LowerCase(kind: string) {
    forall i :: 0 <= i < |kind| ==> 'a' <= kind[i] <= 'z' || kind[i] == '_'
  }

  lemma {:induction false} DecimalInjective(m: nat, n: nat)
    requires Decimal(m) == Decimal(n)
    ensures m == n
  {
    if m >= 10 && n >= 10 {
      var a, b := Decimal(m), Decimal(n);
      assert a[|a| - 1] == Digit(m % 10) && b[|b| - 1] == Digit(n % 10);
      assert a[..|a| - 1] == Decimal(m / 10) && b[..|b| - 1] == Decimal(n / 10);
      DecimalInjective(m / 10, n / 10);
    }
  }

  lemma UpperInjective(a: string, b: string)
    requires LowerCase(a) && LowerCase(b) && Upper(a) == Upper(b)
    ensures a == b
  {
    forall i | 0 <= i < |a| ensures a[i] == b[i] {
      assert Upper(a)[i] == Upper(b)[i];
    }
  }

  lemma TokenParts(kind: string, n: nat)
    ensures var t, u, d := Token(kind, n), Upper(kind), Decimal(n);
            && |t| == |u| + |d| + 5 && t[2..2 + |u|] == u && t[2 + |u|] == '_' && t[3 + |u|..3 + |u| + |d|] == d
  {
    var u, d := Upper(kind), Decimal(n);
    assert "__" + u + "_" + d + "__" == "__" + (u + ("_" + (d + "__")));
  }

  /** The digits end at the last underscore before the closing pair, so they cannot be of different lengths. */
  lemma DigitsNoLonger(a: string, m: nat, b: string, n: nat)
    requires Token(a, m) == Token(b, n)
    ensures |Decimal(m)| >= |Decimal(n)|
  {
    var t, e := Token(a, m), Decimal(n);
    TokenParts(a, m);
    TokenParts(b, n);
    var from := 3 + |Upper(b)|;
    forall p | from <= p < from + |e| ensures t[p] != '_' {
      assert t[p] == t[from..from + |e|][p - from];
    }
    assert t[2 + |Upper(a)|] == '_';
  }

  lemma TokenInjective(a: string, m: nat, b: string, n: nat)
    requires LowerCase(a) && LowerCase(b)
    ensures Token(a, m) == Token(b, n) ==> a == b && m == n
  {
    if Token(a, m) == Token(b, n) {
      DigitsNoLonger(a, m, b, n);
      DigitsNoLonger(b, n, a, m);
      TokenParts(a, m);
      TokenParts(b, n);
      UpperInjective(a, b);
      DecimalInjective(m, n);
    }
  }

  /** The number a taken span gets: its place among those of its kind. */
  function Number(spans: seq<Span>, i: nat): nat
    requires i < |spans|
  {
    CountOf(spans[..i], spans[i].kind) + 1
  }

  lemma {:induction false} EditToken(spans: seq<Span>, i: nat)
    requires i < |spans|
    ensures Edits(spans)[i].token == Token(spans[i].kind, Number(spans, i))
  {
    if i < |spans| - 1 {
      EditToken(spans[..|spans| - 1], i);
      assert spans[..|spans| - 1][..i] == spans[..i];
    }
  }

  lemma {:induction false} CountGrows(spans: seq<Span>, i: nat, j: nat, kind: string)
    requires i <= j <= |spans|
    ensures CountOf(spans[..i], kind) <= CountOf(spans[..j], kind)
  {
    if i < j {
      CountGrows(spans, i, j - 1, kind);
      assert spans[..j][..j - 1] == spans[..j - 1];
    }
  }

  lemma NumbersDiffer(spans: seq<Span>, i: nat, j: nat)
    requires i < j < |spans|
    ensures spans[i].kind == spans[j].kind ==> Number(spans, i) < Number(spans, j)
  {
    assert spans[..i + 1][..i] == spans[..i];
    CountGrows(spans, i + 1, j, spans[i].kind);
  }

  lemma NumbersAreUnique(spans: seq<Span>, i: nat, j: nat)
    requires i < |spans| && j < |spans| && spans[i].kind == spans[j].kind && Number(spans, i) == Number(spans, j)
    ensures i == j
  {
    if i < j {
      NumbersDiffer(spans, i, j);
    } else if j < i {
      NumbersDiffer(spans, j, i);
    }
  }

  /** Within one call no two replacements share a token. */
  lemma TokensAreUnique(spans: seq<Span>, i: nat, j: nat)
    requires i < |spans| && j < |spans| && LowerCase(spans[i].kind) && LowerCase(spans[j].kind)
    requires Edits(spans)[i].token == Edits(spans)[j].token
    ensures i == j
  {
    EditToken(spans, i);
    EditToken(spans, j);
    TokenInjective(spans[i].kind, Number(spans, i), spans[j].kind, Number(spans, j));
    NumbersAreUnique(spans, i, j);
  }

  // ── Credentials ──────────────────────────────────────────────────

  /** A capture that came out empty is no match. */
  function Usable(cs: seq<Candidate>): seq<Candidate> {
    if cs == [] then []
    else
      var rest, c := Usable(cs[..|cs| - 1]), cs[|cs| - 1];
      if c.span.start < c.span.end then rest + [c] else rest
  }

  predicate Ascending(spans: seq<Span>) {
    forall i, j :: 0 <= i < j < |spans| ==> spans[i].end <= spans[j].start
  }

  function SecretEdit(s: Span): Edit {
    Edit(s.start, s.end, "__SECRET_" + Upper(s.kind) + "__")
  }

  function SecretEdits(spans: seq<Span>): (es: seq<Edit>)
    ensures |es| == |spans| && forall i :: 0 <= i < |es| ==> es[i] == SecretEdit(spans[i])
  {
    seq(|spans|, i requires 0 <= i < |spans| => SecretEdit(spans[i]))
  }

  ghost predicate CapturesIn(cs: seq<Candidate>, length: nat) {
    forall i :: 0 <= i < |cs| ==> cs[i].span.start <= cs[i].span.end <= length
  }

  lemma {:induction false} UsableAreIn(cs: seq<Candidate>, length: nat)
    requires CapturesIn(cs, length)
    ensures MatchesIn(Usable(cs), length)
  {
    if cs != [] { UsableAreIn(cs[..|cs| - 1], length); }
  }

  lemma FindNext(cs: seq<Candidate>, k: nat)
    requires k < |cs|
    ensures Taken(Usable(cs[..k + 1]))
            == if cs[k].span.start < cs[k].span.end then TakeNext(Taken(Usable(cs[..k])), cs[k]) else Taken(Usable(cs[..k]))
  {
    var rest, c := Usable(cs[..k]), cs[k];
    assert cs[..k + 1][..k] == cs[..k];
    assert (rest + [c])[..|rest|] == rest;
  }

  method FindAmong(cs: seq<Candidate>) returns (found: seq<Span>)
    ensures found == Taken(Usable(cs))
  {
    found := [];
    for k := 0 to |cs|
      invariant found == Taken(Usable(cs[..k]))
    {
      var c := cs[k];
      FindNext(cs, k);
      if c.span.start < c.span.end {
        if !AnyOverlap(found, c.span) && c.valid {
          found := found + [c.span];
        }
      }
    }
    TakeAll(cs);
  }

  /** `found.sort((a, b) => a.start - b.start)`, on spans that do not overlap. */
  method SortSpans(found: seq<Span>, ghost length: nat) returns (sorted: seq<Span>)
    requires Disjoint(found) && SpansIn(found, length)
    ensures Ascending(sorted) && SpansIn(sorted, length) && multiset(sorted) == multiset(found)
  {
    sorted := [];
    for k := 0 to |found|
      invariant Ascending(sorted) && SpansIn(sorted, length) && multiset(sorted) == multiset(found[..k])
    {
      var s := found[k];
      ghost var was := sorted;
      AllApart(found, k, sorted);
      var i := 0;
      while i < |sorted| && sorted[i].start <= s.start
        invariant 0 <= i <= |sorted| && forall j :: 0 <= j < i ==> sorted[j].start <= s.start
      {
        i := i + 1;
      }
      TakeOneMore(found, k);
      InsertSpan(sorted, i, s, length);
      InsertKeepsSpans(sorted, i, s, length);
      sorted := sorted[..i] + [s] + sorted[i..];
    }
    TakeAll(found);
  }

  lemma AllApart(found: seq<Span>, k: nat, sorted: seq<Span>)
    requires Disjoint(found) && k < |found| && multiset(sorted) == multiset(found[..k])
    ensures forall i :: 0 <= i < |sorted| ==> Apart(sorted[i], found[k])
  {
    forall i | 0 <= i < |sorted| ensures Apart(sorted[i], found[k]) {
      assert sorted[i] in multiset(sorted);
      assert sorted[i] in found[..k];
      var j :| 0 <= j < k && found[j] == sorted[i];
      assert Apart(found[j], found[k]);
    }
  }

  lemma InsertSpan(spans: seq<Span>, i: nat, s: Span, length: nat)
    requires i <= |spans| && Ascending(spans) && SpansIn(spans, length) && IsSpanOf(s, length)
    requires forall j :: 0 <= j < |spans| ==> Apart(spans[j], s)
    requires (forall j :: 0 <= j < i ==> spans[j].start <= s.start) && (i < |spans| ==> spans[i].start > s.start)
    ensures Ascending(spans[..i] + [s] + spans[i..])
  {
    forall j | 0 <= j < i ensures spans[j].end <= s.start {
      assert Apart(spans[j], s) && IsSpanOf(spans[j], length);
    }
    forall j | i <= j < |spans| ensures s.end <= spans[j].start {
      if i < j { assert spans[i].end <= spans[j].start && IsSpanOf(spans[i], length); }
      assert Apart(spans[j], s) && IsSpanOf(spans[j], length);
    }
    InsertBetween(spans, i, s);
  }

  lemma InsertKeepsSpans(spans: seq<Span>, i: nat, s: Span, length: nat)
    requires i <= |spans| && SpansIn(spans, length) && IsSpanOf(s, length)
    ensures SpansIn(spans[..i] + [s] + spans[i..], length)
    ensures multiset(spans[..i] + [s] + spans[i..]) == multiset(spans) + multiset{s}
  {
    assert spans == spans[..i] + spans[i..];
  }

  lemma InsertBetween(spans: seq<Span>, i: nat, s: Span)
    requires i <= |spans| && Ascending(spans)
    requires (forall j :: 0 <= j < i ==> spans[j].end <= s.start) && (forall j :: i <= j < |spans| ==> s.end <= spans[j].start)
    ensures Ascending(spans[..i] + [s] + spans[i..])
  {
  }

  /**
   * Every credential by kind and span, left to right; `mayHold` is the cheap pass over the text that every
   * pattern needs to have passed first.
   */
  method FindSecrets(text: string, patterns: seq<Pattern>, mayHold: bool) returns (found: seq<Span>)
    requires CapturesIn(Candidates(patterns), |text|)
    ensures text == "" || !mayHold ==> found == []
    ensures text != "" && mayHold ==> multiset(found) == multiset(Taken(Usable(Candidates(patterns))))
    ensures Ascending(found) && SpansIn(found, |text|)
  {
    if text == "" || !mayHold { return []; }
    var cs := Candidates(patterns);
    UsableAreIn(cs, |text|);
    TakenAreDisjoint(Usable(cs), |text|);
    found := FindAmong(cs);
    found := SortSpans(found, |text|);
  }

  lemma AscendingAreSeparate(spans: seq<Span>, length: nat)
    requires Ascending(spans) && SpansIn(spans, length)
    ensures Separate(SecretEdits(spans), length)
  {
    var es := SecretEdits(spans);
    forall i, j | 0 <= i < j < |es| ensures EditsApart(es[i], es[j]) {
      assert spans[i].end <= spans[j].start;
    }
  }

  function Reversed(es: seq<Edit>): (r: seq<Edit>)
    ensures |r| == |es| && forall i :: 0 <= i < |es| ==> r[i] == es[|es| - 1 - i]
    ensures multiset(r) == multiset(es)
  {
    if es == [] then []
    else
      assert es == es[..|es| - 1] + [es[|es| - 1]];
      [es[|es| - 1]] + Reversed(es[..|es| - 1])
  }

  /** The text with each credential replaced: one pass from left to right says what it holds. */
  method RedactSecrets(text: string, patterns: seq<Pattern>, mayHold: bool) returns (out: string, ghost found: seq<Span>)
    requires CapturesIn(Candidates(patterns), |text|)
    ensures text != "" && mayHold ==> multiset(found) == multiset(Taken(Usable(Candidates(patterns))))
    ensures Ascending(found) && SpansIn(found, |text|) && Separate(SecretEdits(found), |text|)
    ensures (text == "" || !mayHold ==> out == text) && out == Emitted(text, SecretEdits(found), 0)
  {
    var hits := FindSecrets(text, patterns, mayHold);
    found := hits;
    var edits := SecretEdits(hits);
    AscendingAreSeparate(hits, |text|);
    var reversed := Reversed(edits);
    PermutedStaySeparate(edits, reversed, |text|);
    ReversedDescend(hits);
    out := SpliceInOrder(text, reversed);
    SameEmission(text, reversed, edits, 0);
    if hits == [] { EmitNone(text, 0); }
  }

  lemma ReversedDescend(spans: seq<Span>)
    requires Ascending(spans) && forall i :: 0 <= i < |spans| ==> spans[i].start < spans[i].end
    ensures Descending(Reversed(SecretEdits(spans)))
  {
    var r, n := Reversed(SecretEdits(spans)), |spans|;
    forall i, j | 0 <= i < j < n ensures r[i].start >= r[j].start {
      assert spans[n - 1 - j].end <= spans[n - 1 - i].start;
    }
  }
}
