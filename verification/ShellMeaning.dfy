/**
 * What the shell splitter reads where it stands, spelled out on the text, and what it remembers of what it read
 * (packages/core/shell-pretty.ts, `splitTopLevel`).
 */
module ShellMeaning {
  import opened Wrappers
  import opened Text
  import opened ShellSplit
  import opened ShellHereString

  // ── One lexeme, on the text ──────────────────────────────────────

  /** The text reads `word` from `i` on. */
  predicate Stands(src: string, i: nat, word: string) {
    i + |word| <= |src| && src[i..i + |word|] == word
  }

  /** A line from `i` on, without its end. */
  predicate IsLine(src: string, i: nat, line: string) {
    Stands(src, i, line) && '\n' !in line && (i + |line| == |src| || src[i + |line|] == '\n')
  }

  ghost predicate Only(s: string, c: char) {
    forall k :: 0 <= k < |s| ==> s[k] == c
  }

  /** The line is the tag, after its tabs if those are stripped. */
  ghost predicate EndsBody(line: string, here: Here) {
    if here.stripTabs
    then exists tabs: string, rest: string :: Only(tabs, '\t') && line == tabs + rest && rest == here.tag && (rest != "" ==> rest[0] != '\t')
    else line == here.tag
  }

  ghost predicate IsBodyLine(src: string, i: nat, here: Here, l: Lexeme) {
    l.BodyLine? && exists line: string ::
      IsLine(src, i, line) && l.text == (if i + |line| < |src| then line + "\n" else line) && (l.ends <==> EndsBody(line, here))
  }

  /** Single quotes and back quotes up to the next of their kind, double quotes over backslash pairs. */
  ghost predicate IsQuoted(src: string, i: nat, l: Lexeme) {
    l.Quoted? && Stands(src, i, l.text) && |l.text| >= 2
    && var q, body := l.text[0], l.text[1..|l.text| - 1];
       q in {'\'', '"', '`'} && l.text[|l.text| - 1] == q && if q == '"' then QuotedBody(body) else q !in body
  }

  /** A backslash and the character after it, if there is one. */
  predicate IsEscaped(src: string, i: nat, l: Lexeme) {
    l.Escaped? && Stands(src, i, l.text) && At(l.text, 0, '\\') && |l.text| == if i + 1 < |src| then 2 else 1
  }

  /** A number sign at the start, or after white space or one of four characters, opens a comment up to the line's end. */
  predicate CommentHere(src: string, i: nat) {
    Stands(src, i, "#") && (i == 0 || IsSpace(src[i - 1]) || src[i - 1] in {';', '|', '&', '('})
  }

  predicate IsComment(src: string, i: nat, l: Lexeme) {
    l.Comment? && IsLine(src, i, l.text)
  }

  predicate IsWord(s: string) {
    forall k :: 0 <= k < |s| ==> 'A' <= s[k] <= 'Z' || 'a' <= s[k] <= 'z' || '0' <= s[k] <= '9' || s[k] == '_'
  }

  /** Two signs and no third. */
  predicate HeredocHere(src: string, i: nat) {
    Stands(src, i, "<<") && !Stands(src, i, "<<<")
  }

  /** The signs, a dash if one stands there, all the spaces, and then the tag: quoted, or the longest word, if only the empty one. */
  ghost predicate IsTagged(src: string, i: nat, text: string, tag: string, strip: bool) {
    && (strip <==> Stands(src, i, "<<-")) && Stands(src, i, text)
    && exists spaces: string, shown: string :: Leads(text, strip, spaces, shown) && Shows(src, i + |text|, shown, tag)
  }

  ghost predicate Leads(text: string, strip: bool, spaces: string, shown: string) {
    Only(spaces, ' ') && text == (if strip then "<<-" else "<<") + spaces + shown
  }

  ghost predicate Shows(src: string, next: nat, shown: string, tag: string) {
    || (shown == "'" + tag + "'" && '\'' !in tag)
    || (shown == "\"" + tag + "\"" && '"' !in tag)
    || (shown == tag && IsWord(tag)
        && (next < |src| ==> !IsWord([src[next]]) && (tag == "" ==> src[next] !in {' ', '\'', '"'})))
  }

  /** A heredoc is read for its tag; without one it opens nothing. */
  ghost predicate IsHeredoc(src: string, i: nat, l: Lexeme) {
    match l
    case Heredoc(text, opens) => opens.tag != "" && IsTagged(src, i, text, opens.tag, opens.stripTabs)
    case Plain(text) => IsTagged(src, i, text, "", Stands(src, i, "<<-"))
    case _ => false
  }

  /** The end of the pending text is no word: a brace may open there. */
  predicate AtWordStart(buf: string) {
    buf != "" ==> IsSpace(buf[|buf| - 1])
  }

  /** Where a bracket opens. */
  predicate OpensHere(src: string, s: Scan) {
    || Stands(src, s.i, "$(") || Stands(src, s.i, "${") || Stands(src, s.i, "(") || Stands(src, s.i, "[")
    || (Stands(src, s.i, "{") && (s.depth != "" || AtWordStart(s.buf)))
  }

  /** A bracket, with or without its dollar sign, and the one that closes it. */
  predicate Pairs(text: string, closer: char) {
    || (text in {"(", "$("} && closer == ')') || (text in {"{", "${"} && closer == '}') || (text == "[" && closer == ']')
  }

  predicate ClosesHere(src: string, s: Scan) {
    s.depth != "" && Stands(src, s.i, [s.depth[|s.depth| - 1]])
  }

  predicate AfterRedirect(buf: string) {
    buf != "" && buf[|buf| - 1] in {'<', '>'}
  }

  /** A bare lexeme: a bracket, a line's end, an operator if nothing is open, or a character. */
  ghost predicate IsBare(src: string, s: Scan, l: Lexeme) {
    && Stands(src, s.i, l.text)
    && (l.Opener? <==> OpensHere(src, s))
    && (l.Opener? ==> Pairs(l.text, l.closer) && (At(src, s.i, '$') <==> |l.text| == 2))
    && (l.Closer? <==> ClosesHere(src, s) && !OpensHere(src, s)) && (l.Closer? ==> |l.text| == 1)
    && (l.BodyStart? <==> Stands(src, s.i, "\n") && s.pending.Some?) && (l.BodyStart? ==> |l.text| == 1)
    && (l.ArmEnd? <==> s.depth == "" && Stands(src, s.i, ";;")) && (l.ArmEnd? ==> l.text == ";;")
    && (l.Cut? <==> s.depth == "" && CutsHere(src, s)) && (l.Cut? ==> IsOperator(src, s.i, l.text, l.joiner))
    && (l.Plain? ==> |l.text| == 1)
    && (l.Opener? || l.Closer? || l.BodyStart? || l.ArmEnd? || l.Cut? || l.Plain?)
  }

  /** Where the text is cut at top level: at the end of a line without a heredoc to come, and at every operator. */
  predicate CutsHere(src: string, s: Scan) {
    || (Stands(src, s.i, "\n") && s.pending.None?)
    || Stands(src, s.i, "&&") || Stands(src, s.i, "|") || (Stands(src, s.i, ";") && !Stands(src, s.i, ";;"))
    || (Stands(src, s.i, "&") && !AfterRedirect(s.buf))
  }

  /** The longest operator that stands there; a line's end joins as nothing. */
  predicate IsOperator(src: string, i: nat, text: string, joiner: string) {
    || (text == "\n" && joiner == "")
    || (text == joiner && text in {"&&", "||", "|&", "|", ";", "&"}
        && (|text| == 1 ==> !Stands(src, i, "&&") && !Stands(src, i, "||") && !Stands(src, i, "|&")))
  }

  /** What the scanner reads where it stands. */
  ghost predicate IsLexeme(src: string, s: Scan, l: Lexeme)
    requires s.i < |src|
  {
    if s.here.Some? then IsBodyLine(src, s.i, s.here.value, l)
    else if src[s.i] in {'\'', '"', '`'} then IsQuoted(src, s.i, l)
    else if src[s.i] == '\\' then IsEscaped(src, s.i, l)
    else if CommentHere(src, s.i) then IsComment(src, s.i, l)
    else if HeredocHere(src, s.i) then IsHeredoc(src, s.i, l)
    else IsBare(src, s, l)
  }

  /** A quote that never closes: one the scanner stands at, or one around a heredoc's tag. */
  ghost predicate NeverCloses(src: string, s: Scan)
    requires s.i < |src|
  {
    && s.here.None?
    && if src[s.i] == '"' then forall e :: s.i < e < |src| && src[e] == '"' ==> !QuotedBody(src[s.i + 1..e])
       else if src[s.i] in {'\'', '`'} then src[s.i] !in src[s.i + 1..]
       else HeredocHere(src, s.i) && OpensTagQuote(src, s.i)
  }

  ghost predicate OpensTagQuote(src: string, i: nat) {
    exists lead: string, spaces: string ::
      || (Leads(lead, Stands(src, i, "<<-"), spaces, "'") && Stands(src, i, lead) && '\'' !in src[i + |lead|..])
      || (Leads(lead, Stands(src, i, "<<-"), spaces, "\"") && Stands(src, i, lead) && '"' !in src[i + |lead|..])
  }

  // ── The grammar reads just that ──────────────────────────────────

  lemma {:induction false} StripTabsIs(s: string) returns (tabs: string)
    ensures Only(tabs, '\t') && s == tabs + StripTabs(s) && (StripTabs(s) != "" ==> StripTabs(s)[0] != '\t')
  {
    if s != "" && s[0] == '\t' {
      var more := StripTabsIs(s[1..]);
      tabs := "\t" + more;
      assert s == [s[0]] + s[1..];
    } else {
      tabs := "";
    }
  }

  lemma TabsAreUnique(a: string, b: string, x: string, y: string)
    requires Only(x, '\t') && Only(y, '\t') && x + a == y + b
    requires (a != "" ==> a[0] != '\t') && (b != "" ==> b[0] != '\t')
    ensures a == b
  {
    var s := x + a;
    assert a == s[|x|..] && b == s[|y|..];
    assert forall k :: 0 <= k < |x| ==> s[k] == x[k];
    assert forall k :: 0 <= k < |y| ==> s[k] == y[k];
    assert (a != "" ==> a[0] == s[|x|]) && (b != "" ==> b[0] == s[|y|]);
  }

  lemma EndsBodyIff(line: string, here: Here)
    ensures (if here.stripTabs then StripTabs(line) else line) == here.tag <==> EndsBody(line, here)
  {
    if here.stripTabs {
      var tabs := StripTabsIs(line);
      if EndsBody(line, here) {
        var x: string, rest: string :| Only(x, '\t') && line == x + rest && rest == here.tag && (rest != "" ==> rest[0] != '\t');
        TabsAreUnique(StripTabs(line), rest, tabs, x);
      }
    }
  }

  lemma LineIs(src: string, i: nat)
    requires i <= |src|
    ensures IsLine(src, i, src[i..LineEnd(src, i)])
  {
    var line := src[i..LineEnd(src, i)];
    assert forall k :: 0 <= k < |line| ==> line[k] == src[i + k];
  }

  lemma BodyLineMeans(src: string, i: nat, here: Here)
    requires i < |src|
    ensures IsBodyLine(src, i, here, BodyLineAt(src, i, here))
  {
    LineIs(src, i);
    EndsBodyIff(src[i..LineEnd(src, i)], here);
  }

  lemma InnerOf(src: string, i: nat, e: nat)
    requires i < e < |src|
    ensures var text := src[i..e + 1]; |text| == e + 1 - i >= 2 && text[1..|text| - 1] == src[i + 1..e]
  {
    var text := src[i..e + 1];
    var inner := text[1..|text| - 1];
    assert |inner| == |src[i + 1..e]| && forall k :: 0 <= k < |inner| ==> inner[k] == text[k + 1] == src[i + 1..e][k];
  }

  lemma QuotedMeans(src: string, i: nat)
    requires i < |src| && IsQuote(src[i])
    ensures QuoteEnd(src, i).Some? ==> IsQuoted(src, i, Quoted(src[i..QuoteEnd(src, i).value + 1]))
    ensures QuoteEnd(src, i).None? ==>
              if src[i] == '"' then forall e :: i < e < |src| && src[e] == '"' ==> !QuotedBody(src[i + 1..e])
              else src[i] !in src[i + 1..]
  {
    var end := QuoteEnd(src, i);
    if end.Some? {
      var text := src[i..end.value + 1];
      InnerOf(src, i, end.value);
      if src[i] == '"' { DoubleQuotesAreWhole(src, i + 1, end.value); }
    } else if src[i] == '"' {
      forall e | i < e < |src| && src[e] == '"' ensures !QuotedBody(src[i + 1..e]) {
        DoubleQuotesAreWhole(src, i + 1, e);
      }
    }
  }

  lemma CommentIff(src: string, i: nat)
    ensures CommentStarts(src, i) <==> CommentHere(src, i)
  {
    if i < |src| { assert src[i..i + 1] == [src[i]]; }
  }

  lemma StandsAt(src: string, i: nat, c: char)
    ensures Stands(src, i, [c]) <==> At(src, i, c)
  {
    if i < |src| { assert src[i..i + 1] == [src[i]]; }
  }

  lemma StandsTwo(src: string, i: nat, c: char, d: char)
    ensures Stands(src, i, [c, d]) <==> At(src, i, c) && At(src, i + 1, d)
  {
    if i + 2 <= |src| { assert src[i..i + 2] == [src[i], src[i + 1]]; }
  }

  lemma StandsThree(src: string, i: nat, c: char, d: char, e: char)
    ensures Stands(src, i, [c, d, e]) <==> At(src, i, c) && At(src, i + 1, d) && At(src, i + 2, e)
  {
    if i + 3 <= |src| { assert src[i..i + 3] == [src[i], src[i + 1], src[i + 2]]; }
  }

  lemma HeredocHereIff(src: string, i: nat)
    ensures HeredocStarts(src, i) <==> HeredocHere(src, i)
    ensures HeredocStarts(src, i) ==> (At(src, i + 2, '-') <==> Stands(src, i, "<<-"))
  {
    StandsTwo(src, i, '<', '<');
    StandsThree(src, i, '<', '<', '<');
    StandsThree(src, i, '<', '<', '-');
  }

  lemma {:induction false} SkipsSpaces(src: string, j: nat)
    requires j <= |src|
    ensures var r := SkipSpaces(src, j);
            r <= |src| && Only(src[j..r], ' ') && (r < |src| ==> src[r] != ' ')
    decreases |src| - j
  {
    if j < |src| && src[j] == ' ' {
      SkipsSpaces(src, j + 1);
      assert src[j..SkipSpaces(src, j)] == [' '] + src[j + 1..SkipSpaces(src, j)];
    }
  }

  lemma {:induction false} TagEndIs(src: string, j: nat)
    requires j <= |src|
    ensures var r := TagEnd(src, j);
            r <= |src| && IsWord(src[j..r]) && (r < |src| ==> !IsWord([src[r]]))
    decreases |src| - j
  {
    if j < |src| && IsTagChar(src[j]) {
      TagEndIs(src, j + 1);
      assert src[j..TagEnd(src, j)] == [src[j]] + src[j + 1..TagEnd(src, j)];
    } else if j < |src| {
      assert !IsTagChar(src[j]) && [src[j]][0] == src[j];
    }
  }

  /** Everything before the tag. */
  lemma LeadIs(src: string, i: nat)
    requires HeredocStarts(src, i)
    ensures var k, j := if At(src, i + 2, '-') then i + 3 else i + 2, TagStart(src, i);
            && k <= j <= |src| && Only(src[k..j], ' ') && (j < |src| ==> src[j] != ' ')
            && src[i..k] == (if At(src, i + 2, '-') then "<<-" else "<<") && src[i..j] == src[i..k] + src[k..j]
  {
    var k := if At(src, i + 2, '-') then i + 3 else i + 2;
    SkipsSpaces(src, k);
  }

  lemma TaggedAs(src: string, i: nat, e: nat, shown: string, tag: string)
    requires HeredocStarts(src, i) && TagStart(src, i) <= e <= |src| && src[TagStart(src, i)..e] == shown && Shows(src, e, shown, tag)
    ensures IsTagged(src, i, src[i..e], tag, At(src, i + 2, '-'))
  {
    LeadsTo(src, i, e);
    HeredocHereIff(src, i);
  }

  lemma LeadsTo(src: string, i: nat, e: nat)
    requires HeredocStarts(src, i) && TagStart(src, i) <= e <= |src|
    ensures var k, j := if At(src, i + 2, '-') then i + 3 else i + 2, TagStart(src, i);
            k <= j && Leads(src[i..e], At(src, i + 2, '-'), src[k..j], src[j..e])
  {
    var k, j := if At(src, i + 2, '-') then i + 3 else i + 2, TagStart(src, i);
    LeadIs(src, i);
    assert src[i..e] == src[i..k] + src[k..j] + src[j..e];
  }

  lemma ShowsQuoted(src: string, next: nat, shown: string, q: char, tag: string)
    requires q in {'\'', '"'} && q !in tag && shown == [q] + tag + [q]
    ensures Shows(src, next, shown, tag)
  {
  }

  lemma QuoteShown(src: string, j: nat, e: nat)
    requires j < e < |src| && src[e] == src[j] && forall k :: j < k < e ==> src[k] != src[j]
    ensures src[j..e + 1] == [src[j]] + src[j + 1..e] + [src[j]] && src[j] !in src[j + 1..e]
  {
  }

  lemma QuoteShows(src: string, j: nat, e: nat, tag: string)
    requires j < e < |src| && QuoteAt(src, j) && src[e] == src[j] && (forall k :: j < k < e ==> src[k] != src[j]) && tag == src[j + 1..e]
    ensures Shows(src, e + 1, src[j..e + 1], tag)
  {
    QuoteShown(src, j, e);
    ShowsQuoted(src, e + 1, src[j..e + 1], src[j], tag);
  }

  lemma TaggedIsHeredoc(src: string, i: nat, text: string, tag: string, strip: bool)
    requires IsTagged(src, i, text, tag, strip)
    ensures IsHeredoc(src, i, HeredocOf(text, tag, strip))
  {
  }

  lemma HeredocAs(src: string, i: nat, e: nat, tag: string)
    requires HeredocStarts(src, i) && TagStart(src, i) <= e <= |src| && Shows(src, e, src[TagStart(src, i)..e], tag)
    ensures IsHeredoc(src, i, HeredocOf(src[i..e], tag, At(src, i + 2, '-')))
  {
    TaggedAs(src, i, e, src[TagStart(src, i)..e], tag);
    TaggedIsHeredoc(src, i, src[i..e], tag, At(src, i + 2, '-'));
  }

  lemma QuotedHeredoc(src: string, i: nat, e: nat, tag: string)
    requires HeredocStarts(src, i) && QuoteAt(src, TagStart(src, i)) && IndexOf(src, src[TagStart(src, i)], TagStart(src, i) + 1) == Some(e)
    requires tag == src[TagStart(src, i) + 1..e]
    ensures IsHeredoc(src, i, HeredocOf(src[i..e + 1], tag, At(src, i + 2, '-')))
  {
    QuoteShows(src, TagStart(src, i), e, tag);
    HeredocAs(src, i, e + 1, tag);
  }

  lemma BareHeredoc(src: string, i: nat, e: nat, tag: string)
    requires HeredocStarts(src, i) && !QuoteAt(src, TagStart(src, i)) && e == TagEnd(src, TagStart(src, i)) && tag == src[TagStart(src, i)..e]
    ensures IsHeredoc(src, i, HeredocOf(src[i..e], tag, At(src, i + 2, '-')))
  {
    TagEndIs(src, TagStart(src, i));
    LeadIs(src, i);
    HeredocAs(src, i, e, tag);
  }

  lemma HeredocMeans(src: string, i: nat)
    requires HeredocStarts(src, i)
    ensures HeredocAt(src, i).Some? ==> IsHeredoc(src, i, HeredocAt(src, i).value)
    ensures HeredocAt(src, i).None? ==> OpensTagQuote(src, i)
  {
    var j := TagStart(src, i);
    if !QuoteAt(src, j) {
      BareHeredoc(src, i, TagEnd(src, j), src[j..TagEnd(src, j)]);
    } else if IndexOf(src, src[j], j + 1).Some? {
      var e := IndexOf(src, src[j], j + 1).value;
      QuotedHeredoc(src, i, e, src[j + 1..e]);
    } else {
      OpenTag(src, i);
    }
  }

  lemma OpenTag(src: string, i: nat)
    requires HeredocStarts(src, i) && QuoteAt(src, TagStart(src, i)) && IndexOf(src, src[TagStart(src, i)], TagStart(src, i) + 1).None?
    ensures OpensTagQuote(src, i)
  {
    var k, j := if At(src, i + 2, '-') then i + 3 else i + 2, TagStart(src, i);
    LeadsTo(src, i, j + 1);
    HeredocHereIff(src, i);
    assert src[j..j + 1] == [src[j]];
    assert src[j] !in src[j + 1..];
  }

  lemma OpenerMeans(src: string, s: Scan)
    requires s.i < |src|
    ensures OpenerAt(src, s).Some? <==> OpensHere(src, s)
    ensures OpenerAt(src, s).Some? ==> var l := OpenerAt(src, s).value;
              l.Opener? && Stands(src, s.i, l.text) && Pairs(l.text, l.closer) && (At(src, s.i, '$') <==> |l.text| == 2)
  {
    StandsTwo(src, s.i, '$', '(');
    StandsTwo(src, s.i, '$', '{');
    StandsAt(src, s.i, '(');
    StandsAt(src, s.i, '[');
    StandsAt(src, s.i, '{');
  }

  lemma OperatorsStand(src: string, i: nat)
    ensures Stands(src, i, "&&") <==> At(src, i, '&') && At(src, i + 1, '&')
    ensures Stands(src, i, "||") <==> At(src, i, '|') && At(src, i + 1, '|')
    ensures Stands(src, i, "|&") <==> At(src, i, '|') && At(src, i + 1, '&')
    ensures Stands(src, i, ";;") <==> At(src, i, ';') && At(src, i + 1, ';')
    ensures Stands(src, i, "|") <==> At(src, i, '|')
    ensures Stands(src, i, ";") <==> At(src, i, ';')
    ensures Stands(src, i, "&") <==> At(src, i, '&')
    ensures Stands(src, i, "\n") <==> At(src, i, '\n')
  {
    StandsTwo(src, i, '&', '&');
    StandsTwo(src, i, '|', '|');
    StandsTwo(src, i, '|', '&');
    StandsTwo(src, i, ';', ';');
    StandsAt(src, i, '|');
    StandsAt(src, i, ';');
    StandsAt(src, i, '&');
    StandsAt(src, i, '\n');
  }

  lemma OperatorMeans(src: string, s: Scan)
    requires s.i < |src| && src[s.i] != '\n'
    ensures var l := OperatorAt(src, s);
            && Stands(src, s.i, l.text) && (l.ArmEnd? || l.Cut? || l.Plain?)
            && (l.ArmEnd? <==> Stands(src, s.i, ";;")) && (l.ArmEnd? ==> l.text == ";;")
            && (l.Cut? <==> CutsHere(src, s)) && (l.Cut? ==> IsOperator(src, s.i, l.text, l.joiner))
            && (l.Plain? ==> |l.text| == 1)
  {
    OperatorsStand(src, s.i);
    StandsAt(src, s.i, src[s.i]);
  }

  /** The closers owed are those of brackets, so nothing else can stand in for one. */
  ghost predicate OwesBrackets(s: Scan) {
    forall k :: 0 <= k < |s.depth| ==> s.depth[k] in {')', '}', ']'}
  }

  lemma BareMeans(src: string, s: Scan)
    requires s.i < |src| && OwesBrackets(s)
    ensures IsBare(src, s, BareAt(src, s))
  {
    OpenerMeans(src, s);
    OperatorsStand(src, s.i);
    StandsAt(src, s.i, src[s.i]);
    if s.depth != "" { StandsAt(src, s.i, s.depth[|s.depth| - 1]); }
    if src[s.i] != '\n' { OperatorMeans(src, s); }
  }

  /** Wherever the scanner stands, it reads a lexeme of the shell's, or a quote there never closes. */
  lemma LexemeMeans(src: string, s: Scan)
    requires s.i < |src| && OwesBrackets(s)
    ensures match LexemeAt(src, s)
            case Some(l) => IsLexeme(src, s, l)
            case None => NeverCloses(src, s)
  {
    CommentIff(src, s.i);
    HeredocHereIff(src, s.i);
    if s.here.Some? {
      BodyLineMeans(src, s.i, s.here.value);
    } else if IsQuote(src[s.i]) {
      QuotedMeans(src, s.i);
    } else if src[s.i] == '\\' {
    } else if CommentStarts(src, s.i) {
      LineIs(src, s.i);
    } else if HeredocStarts(src, s.i) {
      HeredocMeans(src, s.i);
    } else {
      BareMeans(src, s);
    }
  }

  // ── What the scanner remembers ───────────────────────────────────

  /** The closers of the brackets opened and not closed yet, innermost last, told from the brackets' own last characters. */
  function Owed(lexemes: seq<Lexeme>): string {
    if lexemes == [] then ""
    else
      var owed, l := Owed(lexemes[..|lexemes| - 1]), lexemes[|lexemes| - 1];
      if l.Opener? && l.text != "" then
        owed + (match l.text[|l.text| - 1] case '(' => ")" case '{' => "}" case _ => "]")
      else if l.Closer? && owed != "" then owed[..|owed| - 1]
      else owed
  }

  lemma BracketsMean(src: string, s: Scan, l: Lexeme)
    requires s.i < |src| && OwesBrackets(s) && LexemeAt(src, s) == Some(l)
    ensures l.Opener? ==> Pairs(l.text, l.closer)
    ensures l.Closer? ==> s.depth != ""
  {
    LexemeMeans(src, s);
  }

  lemma DepthAfter(s: Scan, l: Lexeme)
    requires (l.Opener? ==> Pairs(l.text, l.closer)) && OwesBrackets(s)
    ensures OwesBrackets(After(s, l))
    ensures After(s, l).depth
            == if l.Opener? then s.depth + (match l.text[|l.text| - 1] case '(' => ")" case '{' => "}" case _ => "]")
               else if l.Closer? && s.depth != "" then s.depth[..|s.depth| - 1] else s.depth
  {
  }

  lemma {:induction false} DepthIsOwed(src: string, lexemes: seq<Lexeme>)
    requires LexedBy(Shell(src), lexemes)
    ensures ScanOf(lexemes).depth == Owed(lexemes) && OwesBrackets(ScanOf(lexemes))
  {
    if lexemes != [] {
      var init, l := lexemes[..|lexemes| - 1], lexemes[|lexemes| - 1];
      DepthIsOwed(src, init);
      BracketsMean(src, ScanOf(init), l);
      DepthAfter(ScanOf(init), l);
    }
  }

  /** Lexeme `k` is the last heredoc since the last line that let one's body start. */
  ghost predicate Waits(lexemes: seq<Lexeme>, k: nat, here: Here) {
    && k < |lexemes| && lexemes[k].Heredoc? && lexemes[k].opens == here
    && forall j :: k < j < |lexemes| ==> !lexemes[j].Heredoc? && !lexemes[j].BodyStart?
  }

  lemma WaitsOneMore(lexemes: seq<Lexeme>, k: nat, here: Here)
    requires lexemes != []
    ensures var n := |lexemes| - 1;
            Waits(lexemes, k, here)
            <==> if lexemes[n].Heredoc? then k == n && lexemes[n].opens == here
                 else !lexemes[n].BodyStart? && Waits(lexemes[..n], k, here)
  {
  }

  /** The heredoc still to come is the last one read. */
  lemma {:induction false} PendingIsTheLast(lexemes: seq<Lexeme>, here: Here)
    ensures ScanOf(lexemes).pending == Some(here) <==> exists k: nat :: Waits(lexemes, k, here)
  {
    if lexemes != [] {
      var n := |lexemes| - 1;
      var init := lexemes[..n];
      PendingIsTheLast(init, here);
      forall k: nat | Waits(init, k, here) && !lexemes[n].Heredoc? && !lexemes[n].BodyStart? ensures Waits(lexemes, k, here) {
        WaitsOneMore(lexemes, k, here);
      }
      forall k: nat | Waits(lexemes, k, here)
        ensures if lexemes[n].Heredoc? then lexemes[n].opens == here else !lexemes[n].BodyStart? && Waits(init, k, here)
      {
        WaitsOneMore(lexemes, k, here);
      }
      if lexemes[n].Heredoc? && lexemes[n].opens == here { assert Waits(lexemes, n, here); }
    }
  }

  /** Lexeme `k` started the body of the heredoc that was waiting, and no line has ended it since. */
  ghost predicate IsInside(lexemes: seq<Lexeme>, k: nat, here: Here) {
    && k < |lexemes| && lexemes[k].BodyStart? && (exists j: nat :: Waits(lexemes[..k], j, here))
    && forall j :: k < j < |lexemes| ==> !lexemes[j].BodyStart? && !(lexemes[j].BodyLine? && lexemes[j].ends)
  }

  lemma InsideOneMore(lexemes: seq<Lexeme>, k: nat, here: Here)
    requires lexemes != []
    ensures var n := |lexemes| - 1;
            IsInside(lexemes, k, here)
            <==> if lexemes[n].BodyStart? then k == n && exists j: nat :: Waits(lexemes[..n], j, here)
                 else !(lexemes[n].BodyLine? && lexemes[n].ends) && IsInside(lexemes[..n], k, here)
  {
    var n := |lexemes| - 1;
    if k < n { assert lexemes[..n][..k] == lexemes[..k]; }
  }

  /** The body the scanner is inside is that of the heredoc that waited when its line ended. */
  lemma {:induction false} HereIsTheBodyStarted(lexemes: seq<Lexeme>, here: Here)
    ensures ScanOf(lexemes).here == Some(here) <==> exists k: nat :: IsInside(lexemes, k, here)
  {
    if lexemes != [] {
      var n := |lexemes| - 1;
      var init := lexemes[..n];
      HereIsTheBodyStarted(init, here);
      PendingIsTheLast(init, here);
      forall k: nat | IsInside(init, k, here) && !lexemes[n].BodyStart? && !(lexemes[n].BodyLine? && lexemes[n].ends)
        ensures IsInside(lexemes, k, here)
      {
        InsideOneMore(lexemes, k, here);
      }
      forall k: nat | IsInside(lexemes, k, here)
        ensures if lexemes[n].BodyStart? then exists j: nat :: Waits(init, j, here)
                else !(lexemes[n].BodyLine? && lexemes[n].ends) && IsInside(init, k, here)
      {
        InsideOneMore(lexemes, k, here);
      }
      if lexemes[n].BodyStart? && ScanOf(init).pending == Some(here) {
        InsideOneMore(lexemes, n, here);
        assert IsInside(lexemes, n, here);
      }
    }
  }
}
