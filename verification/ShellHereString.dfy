/**
 * What the splitter makes of a here-string (packages/core/shell-pretty.ts, `splitTopLevel`): when it is read as
 * a heredoc, and what becomes of the text then.
 */
module ShellHereString {
  import opened Text
  import opened Wrappers
  import opened ShellSplit

  // ── A here-string may be read as a heredoc ───────────────────────

  predicate QuoteAt(src: string, j: nat) {
    At(src, j, '\'') || At(src, j, '"')
  }

  /** The quote at `j` closes somewhere. */
  predicate Closes(src: string, j: nat)
    requires j < |src|
  {
    exists e :: j < e < |src| && src[e] == src[j]
  }

  /** A tag stands at `j`: a bare word, or a quoted one that closes and is not empty. */
  predicate TagAt(src: string, j: nat) {
    if QuoteAt(src, j) then Closes(src, j) && !At(src, j + 1, src[j]) else j < |src| && IsTagChar(src[j])
  }

  /** What `<<` reads as: a heredoc exactly before a tag, nothing exactly before a quote that never closes. */
  lemma HeredocOpensIff(src: string, i: nat)
    requires HeredocStarts(src, i)
    ensures var j := TagStart(src, i);
            && (HeredocAt(src, i).None? <==> QuoteAt(src, j) && !Closes(src, j))
            && (HeredocAt(src, i).Some? && HeredocAt(src, i).value.Heredoc? <==> TagAt(src, j))
  {
    var j := TagStart(src, i);
    if QuoteAt(src, j) && Closes(src, j) {
      var e :| j < e < |src| && src[e] == src[j];
      var end := IndexOf(src, src[j], j + 1);
      assert end.Some? && (end.value == j + 1 <==> At(src, j + 1, src[j]));
    }
  }

  /**
   * The guard that keeps `<<<` from opening a heredoc looks only ahead, so the second of the three signs opens
   * one exactly when a tag stands behind the third, and stops the scan exactly when an open quote does.
   */
  lemma HereStringOpensHeredocIff(src: string, s: Scan)
    requires At(src, s.i, '<') && At(src, s.i + 1, '<') && At(src, s.i + 2, '<') && !At(src, s.i + 3, '<')
    requires s.here.None? && NoStrayArm(src, s)
    ensures LexemeAt(src, s) == Some(Plain("<"))
    ensures var l, j := LexemeAt(src, After(s, Plain("<"))), TagStart(src, s.i + 1);
            (l.None? <==> QuoteAt(src, j) && !Closes(src, j)) && (l.Some? && l.value.Heredoc? <==> TagAt(src, j))
  {
    HeredocOpensIff(src, s.i + 1);
  }

  /** From `i` on, no line ends the heredoc body. */
  ghost predicate NoLineEnds(src: string, i: nat, here: Here) {
    forall k :: i <= k < |src| && (k == i || src[k - 1] == '\n') ==> !BodyLineAt(src, k, here).ends
  }

  /** Some reading of the text's beginning leaves the scanner here. */
  ghost predicate Reaches(src: string, s: Scan) {
    exists lexemes :: LexedBy(Shell(src), lexemes) && ScanOf(lexemes) == s
  }

  lemma ReachesNext(src: string, s: Scan, l: Lexeme)
    requires Reaches(src, s) && s.i < |src| && LexemeAt(src, s) == Some(l)
    ensures Reaches(src, After(s, l))
  {
    var lexemes :| LexedBy(Shell(src), lexemes) && ScanOf(lexemes) == s;
    Extend(Shell(src), lexemes, l);
  }

  lemma ReachesTheEnd(src: string, s: Scan)
    requires Reaches(src, s)
    ensures Stuck(src, s) ==> LeftAlone(src) && forall pieces :: !SplitsInto(src, pieces)
    ensures Complete(src, s) ==> SplitsInto(src, PiecesOf(s))
  {
    var lexemes :| LexedBy(Shell(src), lexemes) && ScanOf(lexemes) == s;
    if Stuck(src, s) { ReadingDecides(src, lexemes); }
  }

  /** A heredoc body that no line ends takes the rest of the text, and the text is left alone. */
  lemma {:induction false} UnendedBodyIsLeftAlone(src: string, s: Scan)
    requires Reaches(src, s) && s.here.Some? && NoLineEnds(src, s.i, s.here.value)
    ensures LeftAlone(src) && forall pieces :: !SplitsInto(src, pieces)
    decreases |src| - s.i
  {
    if s.i < |src| {
      var l := BodyLineAt(src, s.i, s.here.value);
      BodyLineEnds(src, s.i, s.here.value);
      ReachesNext(src, s, l);
      NextLine(src, s.i, s.here.value);
      UnendedBodyIsLeftAlone(src, After(s, l));
    } else {
      ReachesTheEnd(src, s);
    }
  }

  lemma NextLine(src: string, i: nat, here: Here)
    requires i < |src| && NoLineEnds(src, i, here)
    ensures var l := BodyLineAt(src, i, here); !l.ends && NoLineEnds(src, i + |l.text|, here)
  {
    var e := LineEnd(src, i);
    assert |BodyLineAt(src, i, here).text| == if e < |src| then e - i + 1 else e - i;
  }

  /** The scanner at `i`, nothing cut so far: the text up to there is pending. */
  function Uncut(src: string, i: nat, here: Option<Here>, pending: Option<Here>): Scan
    requires i <= |src|
  {
    Scan(i, "", here, pending, src[..i], [])
  }

  lemma UncutNext(src: string, i: nat, here: Option<Here>, pending: Option<Here>, l: Lexeme)
    requires i < |src| && Reaches(src, Uncut(src, i, here, pending)) && LexemeAt(src, Uncut(src, i, here, pending)) == Some(l)
    requires l.Plain? || l.Heredoc? || l.BodyStart? || l.BodyLine?
    ensures var j := i + |l.text|;
            && j <= |src|
            && (l.Plain? ==> Reaches(src, Uncut(src, j, here, pending)))
            && (l.Heredoc? ==> Reaches(src, Uncut(src, j, here, Some(l.opens))))
            && (l.BodyStart? ==> Reaches(src, Uncut(src, j, pending, None)))
            && (l.BodyLine? ==> Reaches(src, Uncut(src, j, if l.ends then None else here, pending)))
  {
    var s := Uncut(src, i, here, pending);
    LexemesAdvance(src, s, l);
    TextFollows(src, i, l.text, src[..i]);
    ReachesNext(src, s, l);
  }

  const X := Here("x", false)

  /** `cat <<< x`, to the end of the line. */
  predicate HereString(src: string) {
    && |src| >= 9 && src[0] == 'c' && src[1] == 'a' && src[2] == 't' && src[3] == ' '
    && src[4] == '<' && src[5] == '<' && src[6] == '<' && src[7] == ' ' && src[8] == 'x' && (|src| == 9 || src[9] == '\n')
  }

  lemma WordCharIsPlain(src: string, s: Scan)
    requires s.i < |src| && s.here.None? && s.depth == "" && ('a' <= src[s.i] <= 'z' || src[s.i] == ' ')
    ensures LexemeAt(src, s) == Some(Plain([src[s.i]]))
  {
  }

  lemma HeredocIsFound(src: string, s: Scan)
    requires s.here.None? && HeredocStarts(src, s.i)
    ensures LexemeAt(src, s) == HeredocAt(src, s.i)
  {
  }

  lemma LineBreakStartsBody(src: string, s: Scan)
    requires s.i < |src| && s.here.None? && s.depth == "" && s.pending.Some? && src[s.i] == '\n'
    ensures LexemeAt(src, s) == Some(BodyStart("\n"))
  {
  }

  lemma WordCharStep(src: string, i: nat)
    requires i < |src| && ('a' <= src[i] <= 'z' || src[i] == ' ') && Reaches(src, Uncut(src, i, None, None))
    ensures Reaches(src, Uncut(src, i + 1, None, None))
  {
    WordCharIsPlain(src, Uncut(src, i, None, None));
    UncutNext(src, i, None, None, Plain([src[i]]));
  }

  lemma CatIsRead(src: string)
    requires HereString(src)
    ensures Reaches(src, Uncut(src, 4, None, None))
  {
    assert LexedBy(Shell(src), []) && ScanOf([]) == Uncut(src, 0, None, None);
    WordCharStep(src, 0);
    WordCharStep(src, 1);
    WordCharStep(src, 2);
    WordCharStep(src, 3);
  }

  lemma HereStringTag(src: string)
    requires HereString(src)
    ensures HeredocStarts(src, 5) && HeredocAt(src, 5) == Some(Heredoc(src[5..9], X))
  {
    assert SkipSpaces(src, 8) == 8 && TagStart(src, 5) == 8;
    assert TagEnd(src, 9) == 9 && TagEnd(src, 8) == 9;
    assert src[8..9] == "x";
  }

  /** However the text goes on, a line `cat <<< x` is read as opening a heredoc with tag `x`. */
  lemma HereStringIsRead(src: string)
    requires HereString(src)
    ensures Reaches(src, Uncut(src, 9, None, Some(X)))
  {
    CatIsRead(src);
    HereStringOpensHeredocIff(src, Uncut(src, 4, None, None));
    UncutNext(src, 4, None, None, Plain("<"));
    HereStringTag(src);
    HeredocIsFound(src, Uncut(src, 5, None, None));
    UncutNext(src, 5, None, None, Heredoc(src[5..9], X));
  }

  /** Alone, it is one piece. */
  lemma HereStringAlone(src: string)
    requires HereString(src) && |src| == 9
    ensures SplitsInto(src, [Piece(src, "")])
  {
    HereStringIsRead(src);
    ReachesTheEnd(src, Uncut(src, 9, None, Some(X)));
    assert src[..9] == src;
  }

  lemma HereStringBodyStarts(src: string)
    requires HereString(src) && |src| > 9
    ensures Reaches(src, Uncut(src, 10, Some(X), None))
  {
    HereStringIsRead(src);
    LineBreakStartsBody(src, Uncut(src, 9, None, Some(X)));
    UncutNext(src, 9, None, Some(X), BodyStart("\n"));
  }

  /** Followed by lines none of which is `x`, the whole text is left alone. */
  lemma HereStringLeftAlone(src: string)
    requires HereString(src) && |src| > 9 && NoLineEnds(src, 10, X)
    ensures LeftAlone(src) && forall pieces :: !SplitsInto(src, pieces)
  {
    HereStringBodyStarts(src);
    UnendedBodyIsLeftAlone(src, Uncut(src, 10, Some(X), None));
  }

  /** No line that begins in [i, e) is `x`. */
  ghost predicate NoneIsX(src: string, i: nat, e: nat)
    requires 1 <= i && e <= |src|
  {
    forall k :: i <= k < e && src[k - 1] == '\n' ==> !EndsX(src, k)
  }

  predicate EndsX(src: string, k: nat)
    requires k < |src|
  {
    BodyLineAt(src, k, X).ends
  }

  /** Followed by lines only the last of which is `x`, they are all taken for its body: many commands, one piece. */
  lemma HereStringTakesTheNextLines(src: string, e: nat)
    requires HereString(src) && 10 <= e && e + 1 == |src| && src[e] == 'x' && src[e - 1] == '\n' && NoneIsX(src, 10, e)
    ensures SplitsInto(src, [Piece(src, "")])
  {
    HereStringBodyStarts(src);
    BodyRunsTo(src, 10, e);
    BodyLineAtLast(src, e);
    UncutNext(src, e, Some(X), None, BodyLineAt(src, e, X));
    ReachesTheEnd(src, Uncut(src, |src|, None, None));
    assert src[..|src|] == src;
  }

  lemma {:induction false} BodyRunsTo(src: string, i: nat, e: nat)
    requires 10 <= i <= e < |src| && src[e - 1] == '\n' && src[i - 1] == '\n' && NoneIsX(src, i, e)
    requires Reaches(src, Uncut(src, i, Some(X), None))
    ensures Reaches(src, Uncut(src, e, Some(X), None))
    decreases e - i
  {
    if i < e {
      var j := BodyStep(src, i, e);
      BodyRunsTo(src, j, e);
    }
  }

  lemma BodyStep(src: string, i: nat, e: nat) returns (j: nat)
    requires 10 <= i < e < |src| && src[e - 1] == '\n' && src[i - 1] == '\n' && NoneIsX(src, i, e)
    requires Reaches(src, Uncut(src, i, Some(X), None))
    ensures i < j <= e && src[j - 1] == '\n' && NoneIsX(src, j, e) && Reaches(src, Uncut(src, j, Some(X), None))
  {
    var l := BodyLineAt(src, i, X);
    assert !EndsX(src, i);
    BodyLineStops(src, i, e);
    UncutNext(src, i, Some(X), None, l);
    j := i + |l.text|;
  }

  lemma BodyLineStops(src: string, i: nat, e: nat)
    requires i < e < |src| && src[e - 1] == '\n'
    ensures var j := i + |BodyLineAt(src, i, X).text|; i < j <= e && src[j - 1] == '\n'
  {
    assert LineEnd(src, i) < e;
  }

  lemma BodyLineAtLast(src: string, e: nat)
    requires e + 1 == |src| && src[e] == 'x'
    ensures BodyLineAt(src, e, X) == BodyLine(src[e..], true)
  {
    assert LineEnd(src, e) == e + 1 && src[e..e + 1] == "x" && src[e..] == "x";
  }

  /** `cat <<< x`, then `y`, then `x`: three commands, one piece. */
  lemma ThreeCommandsOnePiece()
    ensures SplitsInto("cat <<< x\ny\nx", [Piece("cat <<< x\ny\nx", "")])
  {
    var src := "cat <<< x\ny\nx";
    assert LineEnd(src, 10) == 11 && src[10..11] == "y" && src[10] == 'y';
    HereStringTakesTheNextLines(src, 12);
  }
}
