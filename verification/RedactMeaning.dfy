/**
 * What a redaction token says (packages/core/pii.ts): the kind in capitals and how many of its kind came before it.
 */
module RedactMeaning {
  import opened Seqs
  import opened Redact

  // ── Which spans are taken ────────────────────────────────────────

  /** The span holds the position. */
  predicate Holds(s: Span, p: int) {
    s.start <= p < s.end
  }

  /** Two spans overlap exactly when they share a character; touching is not overlapping. */
  lemma OverlapIff(a: Span, b: Span)
    requires a.start < a.end && b.start < b.end
    ensures Overlaps(a, b) <==> exists p :: Holds(a, p) && Holds(b, p)
  {
    if Overlaps(a, b) {
      var p := if a.start < b.start then b.start else a.start;
      assert Holds(a, p) && Holds(b, p);
    }
  }

  ghost predicate Clear(s: Span, taken: seq<Span>) {
    forall t, p :: t in taken && Holds(s, p) ==> !Holds(t, p)
  }

  /** Whether a candidate is taken: when it is valid and no character of it is in a span taken before. */
  lemma TakenIff(cs: seq<Candidate>, k: nat, length: nat)
    requires MatchesIn(cs, length) && k < |cs|
    ensures var before := Taken(cs[..k]);
            Taken(cs[..k + 1]) == if cs[k].valid && Clear(cs[k].span, before) then before + [cs[k].span] else before
  {
    var before := Taken(cs[..k]);
    assert cs[..k + 1][..k] == cs[..k];
    TakenAreDisjoint(cs[..k], length);
    forall i | 0 <= i < |before| ensures Overlaps(cs[k].span, before[i]) <==> exists p :: Holds(cs[k].span, p) && Holds(before[i], p) {
      OverlapIff(cs[k].span, before[i]);
    }
    if !AnyOverlap(before, cs[k].span) {
      forall t, p | t in before && Holds(cs[k].span, p) ensures !Holds(t, p) {
        var i :| 0 <= i < |before| && before[i] == t;
      }
    }
  }

  // ── What stands in their place ───────────────────────────────────

  /** What decimal digits are worth. */
  function Worth(digits: string): int {
    if digits == "" then 0 else 10 * Worth(digits[..|digits| - 1]) + (digits[|digits| - 1] as int - '0' as int)
  }

  /** `n` in digits, without a zero in front. */
  ghost predicate Writes(digits: string, n: int) {
    && digits != "" && (forall i :: 0 <= i < |digits| ==> '0' <= digits[i] <= '9')
    && Worth(digits) == n && (|digits| > 1 ==> digits[0] != '0')
  }

  /** The same text in capitals, as far as the kinds' letters go. */
  ghost predicate Capitals(caps: string, kind: string) {
    |caps| == |kind|
    && forall i :: 0 <= i < |kind| ==>
         if 'a' <= kind[i] <= 'z' then caps[i] as int == kind[i] as int - 32 else caps[i] == kind[i]
  }

  /** Two underscores, the kind, an underscore, the number, two underscores. */
  ghost predicate TokenMeans(token: string, kind: string, n: int) {
    exists caps: string, digits: string :: Capitals(caps, kind) && Writes(digits, n) && token == "__" + caps + "_" + digits + "__"
  }

  /** Spans of a kind, up to the k-th. */
  ghost function OfKind(spans: seq<Span>, kind: string, k: nat): set<int> {
    set i | 0 <= i < k && i < |spans| && spans[i].kind == kind
  }

  lemma {:induction false} DecimalWrites(n: nat)
    ensures Writes(Decimal(n), n) && (n > 0 ==> Decimal(n)[0] != '0')
  {
    if n < 10 {
      assert [Digit(n)][..0] == [];
    } else {
      DecimalWrites(n / 10);
      var d := Decimal(n);
      assert d[..|d| - 1] == Decimal(n / 10);
    }
  }

  lemma TokenIs(kind: string, n: nat)
    ensures TokenMeans(Token(kind, n), kind, n)
  {
    DecimalWrites(n);
    assert Capitals(Upper(kind), kind);
  }

  lemma {:induction false} CountIs(spans: seq<Span>, kind: string)
    ensures CountOf(spans, kind) == |OfKind(spans, kind, |spans|)|
  {
    if spans == [] {
      assert OfKind(spans, kind, 0) == {};
    } else {
      var n := |spans| - 1;
      CountIs(spans[..n], kind);
      assert OfKind(spans[..n], kind, n) == OfKind(spans, kind, n);
      if spans[n].kind == kind {
        assert OfKind(spans, kind, |spans|) == OfKind(spans, kind, n) + {n};
      } else {
        assert OfKind(spans, kind, |spans|) == OfKind(spans, kind, n);
      }
    }
  }

  lemma SameKinds(spans: seq<Span>, kind: string, k: nat)
    requires k <= |spans|
    ensures OfKind(spans[..k], kind, k) == OfKind(spans, kind, k)
  {
  }

  /** Each span taken is replaced by its kind and its number among those of its kind, counting from one. */
  lemma {:induction false} EditsMean(spans: seq<Span>, i: nat)
    requires i < |spans|
    ensures Edits(spans)[i].start == spans[i].start && Edits(spans)[i].end == spans[i].end
    ensures TokenMeans(Edits(spans)[i].token, spans[i].kind, |OfKind(spans, spans[i].kind, i)| + 1)
    decreases |spans|
  {
    var n := |spans| - 1;
    if i < n {
      EditsMean(spans[..n], i);
      SameKinds(spans[..n], spans[i].kind, i);
      SameKinds(spans, spans[i].kind, i);
      assert spans[..n][..i] == spans[..i];
    } else {
      CountIs(spans[..n], spans[n].kind);
      SameKinds(spans, spans[n].kind, n);
      TokenIs(spans[n].kind, CountOf(spans[..n], spans[n].kind) + 1);
    }
  }

  /** And remembered with the hash of exactly the text it stood for. */
  lemma {:induction false} ReplacementsMean(text: string, spans: seq<Span>, hash: string -> string, i: nat)
    requires SpansIn(spans, |text|) && i < |spans|
    ensures spans[i].start < spans[i].end <= |text|
    ensures var r := Replacements(text, spans, hash)[i];
            r.token == Edits(spans)[i].token && r.kind == spans[i].kind && r.originalHash == hash(text[spans[i].start..spans[i].end])
    decreases |spans|
  {
    if i < |spans| - 1 { ReplacementsMean(text, spans[..|spans| - 1], hash, i); }
  }
}
