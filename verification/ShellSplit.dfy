/**
 * Splitting a shell command at its top-level operators (packages/core/shell-pretty.ts, `splitTopLevel`):
 * the lexical grammar, the scanner, and why no character is ever lost.
 */
module ShellSplit {
  import opened Seqs
  import opened Text
  import opened Wrappers

  /** `joiner` is the operator a piece ended at; "" for a line break or the end. */
  datatype Piece = Piece(text: string, joiner: string)

  datatype Here = Here(tag: string, stripTabs: bool)

  /** The scanner between two lexemes. `depth` holds the closers still owed, `here` the heredoc body it is inside. */
  datatype Scan = Scan(i: nat, depth: string, here: Option<Here>, pending: Option<Here>, buf: string, pieces: seq<Piece>)

  const START := Scan(0, "", None, None, "", [])

  datatype Lexeme =
    | Quoted(text: string)
    | Escaped(text: string)
    | Comment(text: string)
    | Heredoc(text: string, opens: Here)
    | BodyLine(text: string, ends: bool)
    | Opener(text: string, closer: char)
    | Closer(text: string)
    | BodyStart(text: string)
    | Plain(text: string)
    | ArmEnd(text: string)
    | Cut(text: string, joiner: string)

  // ── Searching ────────────────────────────────────────────────────

  /** `src.indexOf(c, j)`. */
  function IndexOf(src: string, c: char, j: nat): (r: Option<nat>)
    ensures r.Some? ==> j <= r.value < |src| && src[r.value] == c && forall k :: j <= k < r.value ==> src[k] != c
    ensures r.None? ==> forall k :: j <= k < |src| ==> src[k] != c
    decreases |src| - j
  {
    if j >= |src| then None else if src[j] == c then Some(j) else IndexOf(src, c, j + 1)
  }

  /** Where the double-quoted text whose body starts at `j` closes; a backslash hides the next character. */
  function DoubleQuoteEnd(src: string, j: nat): (r: Option<nat>)
    ensures r.Some? ==> j <= r.value < |src| && src[r.value] == '"'
    decreases |src| - j
  {
    if j >= |src| then None
    else if src[j] == '\\' then DoubleQuoteEnd(src, j + 2)
    else if src[j] == '"' then Some(j)
    else DoubleQuoteEnd(src, j + 1)
  }

  function SkipSpaces(src: string, j: nat): (r: nat)
    ensures j <= r && (j <= |src| ==> r <= |src|)
    ensures r > j ==> r <= |src| && src[r - 1] == ' '
    decreases |src| - j
  {
    if j < |src| && src[j] == ' ' then SkipSpaces(src, j + 1) else j
  }

  predicate IsTagChar(c: char) {
    'A' <= c <= 'Z' || 'a' <= c <= 'z' || '0' <= c <= '9' || c == '_'
  }

  function TagEnd(src: string, j: nat): (r: nat)
    ensures j <= r && (j <= |src| ==> r <= |src|)
    ensures r > j ==> r <= |src| && IsTagChar(src[r - 1])
    decreases |src| - j
  {
    if j < |src| && IsTagChar(src[j]) then TagEnd(src, j + 1) else j
  }

  function StripTabs(s: string): string {
    if s != "" && s[0] == '\t' then StripTabs(s[1..]) else s
  }

  predicate At(src: string, j: nat, c: char) {
    j < |src| && src[j] == c
  }

  // ── The lexical grammar ──────────────────────────────────────────

  predicate IsQuote(c: char) {
    c == '\'' || c == '"' || c == '`'
  }

  function QuoteEnd(src: string, i: nat): (r: Option<nat>)
    requires i < |src|
    ensures r.Some? ==> i < r.value < |src| && src[r.value] == src[i]
  {
    if src[i] == '"' then DoubleQuoteEnd(src, i + 1) else IndexOf(src, src[i], i + 1)
  }

  function LineEnd(src: string, i: nat): (e: nat)
    requires i <= |src|
    ensures i <= e <= |src| && (e < |src| ==> src[e] == '\n') && forall k :: i <= k < e ==> src[k] != '\n'
  {
    var nl := IndexOf(src, '\n', i);
    if nl.Some? then nl.value else |src|
  }

  predicate CommentStarts(src: string, i: nat) {
    At(src, i, '#') && (i == 0 || IsSpace(src[i - 1]) || src[i - 1] in ";|&(")
  }

  predicate HeredocStarts(src: string, i: nat) {
    At(src, i, '<') && At(src, i + 1, '<') && !At(src, i + 2, '<')
  }

  function TagStart(src: string, i: nat): (j: nat)
    requires HeredocStarts(src, i)
    ensures i + 2 <= j <= |src| && (src[j - 1] == '<' || src[j - 1] == '-' || src[j - 1] == ' ')
  {
    SkipSpaces(src, if At(src, i + 2, '-') then i + 3 else i + 2)
  }

  /** `<<`, an optional dash, the tag bare or quoted; without a tag it opens nothing. */
  function HeredocAt(src: string, i: nat): Option<Lexeme>
    requires HeredocStarts(src, i)
  {
    var strip, j := At(src, i + 2, '-'), TagStart(src, i);
    if At(src, j, '\'') || At(src, j, '"') then
      var end := IndexOf(src, src[j], j + 1);
      if end.None? then None
      else Some(HeredocOf(src[i..end.value + 1], src[j + 1..end.value], strip))
    else Some(HeredocOf(src[i..TagEnd(src, j)], src[j..TagEnd(src, j)], strip))
  }

  function HeredocOf(text: string, tag: string, strip: bool): Lexeme {
    if tag == "" then Plain(text) else Heredoc(text, Here(tag, strip))
  }

  /** A line of a heredoc body, its newline included; the terminator line ends the body. */
  function BodyLineAt(src: string, i: nat, here: Here): Lexeme
    requires i < |src|
  {
    var e := LineEnd(src, i);
    var line := src[i..e];
    BodyLine(if e < |src| then line + "\n" else line, (if here.stripTabs then StripTabs(line) else line) == here.tag)
  }

  predicate EndsBlank(buf: string) {
    buf == "" || IsSpace(buf[|buf| - 1])
  }

  predicate EndsRedirect(buf: string) {
    buf != "" && (buf[|buf| - 1] == '<' || buf[|buf| - 1] == '>')
  }

  /** The bracket a character opens; a brace outside brackets only at the start of a word. */
  function OpenerAt(src: string, s: Scan): Option<Lexeme>
    requires s.i < |src|
  {
    var c := src[s.i];
    if c == '$' && At(src, s.i + 1, '(') then Some(Opener("$(", ')'))
    else if c == '$' && At(src, s.i + 1, '{') then Some(Opener("${", '}'))
    else if c == '(' then Some(Opener("(", ')'))
    else if c == '[' then Some(Opener("[", ']'))
    else if c == '{' && (s.depth != "" || EndsBlank(s.buf)) then Some(Opener("{", '}'))
    else None
  }

  /** A top-level control operator, or an ordinary character. */
  function OperatorAt(src: string, s: Scan): Lexeme
    requires s.i < |src|
  {
    var c := src[s.i];
    if c == '&' && At(src, s.i + 1, '&') then Cut("&&", "&&")
    else if c == '|' && At(src, s.i + 1, '|') then Cut("||", "||")
    else if c == '|' && At(src, s.i + 1, '&') then Cut("|&", "|&")
    else if c == '|' then Cut("|", "|")
    else if c == ';' && At(src, s.i + 1, ';') then ArmEnd(";;")
    else if c == ';' then Cut(";", ";")
    else if c == '&' && !EndsRedirect(s.buf) then Cut("&", "&")
    else Plain([c])
  }

  /** Brackets, line breaks, operators. */
  function BareAt(src: string, s: Scan): Lexeme
    requires s.i < |src|
  {
    var c, opener := src[s.i], OpenerAt(src, s);
    if opener.Some? then opener.value
    else if s.depth != "" && c == s.depth[|s.depth| - 1] then Closer([c])
    else if c == '\n' && s.pending.Some? then BodyStart("\n")
    else if s.depth != "" then Plain([c])
    else if c == '\n' then Cut("\n", "")
    else OperatorAt(src, s)
  }

  /** The lexeme at the scanner's position; none when a quote never closes. */
  function LexemeAt(src: string, s: Scan): Option<Lexeme>
    requires s.i < |src|
  {
    var c := src[s.i];
    if s.here.Some? then Some(BodyLineAt(src, s.i, s.here.value))
    else if IsQuote(c) then
      var end := QuoteEnd(src, s.i);
      if end.None? then None else Some(Quoted(src[s.i..end.value + 1]))
    else if c == '\\' then Some(Escaped(src[s.i..if s.i + 2 <= |src| then s.i + 2 else |src|]))
    else if CommentStarts(src, s.i) then Some(Comment(src[s.i..LineEnd(src, s.i)]))
    else if HeredocStarts(src, s.i) then HeredocAt(src, s.i)
    else Some(BareAt(src, s))
  }

  /** The scanner after a lexeme. */
  function After(s: Scan, l: Lexeme): Scan {
    var i, buf := s.i + |l.text|, s.buf + l.text;
    match l
    case Cut(_, joiner) => Scan(i, s.depth, s.here, s.pending, "", s.pieces + [Piece(s.buf, joiner)])
    case ArmEnd(_) => Scan(i, s.depth, s.here, s.pending, "", s.pieces + [Piece(buf, ";")])
    case Heredoc(_, opens) => Scan(i, s.depth, s.here, Some(opens), buf, s.pieces)
    case BodyStart(_) => Scan(i, s.depth, s.pending, None, buf, s.pieces)
    case BodyLine(_, ends) => Scan(i, s.depth, if ends then None else s.here, s.pending, buf, s.pieces)
    case Opener(_, closer) => Scan(i, s.depth + [closer], s.here, s.pending, buf, s.pieces)
    case Closer(_) => Scan(i, if s.depth == "" then "" else s.depth[..|s.depth| - 1], s.here, s.pending, buf, s.pieces)
    case _ => Scan(i, s.depth, s.here, s.pending, buf, s.pieces)
  }

  // ── Lexing a text ────────────────────────────────────────────────

  function ScanOf(lexemes: seq<Lexeme>): Scan {
    if lexemes == [] then START else After(ScanOf(lexemes[..|lexemes| - 1]), lexemes[|lexemes| - 1])
  }

  /** A grammar with its text: the lexeme the scanner finds where it stands; none at the end, or where it is stuck. */
  type Grammar = Scan -> Option<Lexeme>

  /** The lexemes are, one after the other, what a grammar reads. */
  ghost predicate LexedBy(lex: Grammar, lexemes: seq<Lexeme>) {
    lexemes == []
    || (LexedBy(lex, lexemes[..|lexemes| - 1]) && lex(ScanOf(lexemes[..|lexemes| - 1])) == Some(lexemes[|lexemes| - 1]))
  }

  /** The shell's grammar on a text. */
  function Shell(src: string): Grammar {
    (s: Scan) => if s.i < |src| then LexemeAt(src, s) else None
  }

  /** Nothing left to read, no bracket and no heredoc body open. */
  predicate Complete(src: string, s: Scan) {
    s.i >= |src| && s.depth == "" && s.here.None?
  }

  /** A quote that never closes, or the end of the text inside a bracket or a heredoc body. */
  predicate Stuck(src: string, s: Scan) {
    if s.i < |src| then LexemeAt(src, s).None? else s.depth != "" || s.here.Some?
  }

  lemma Extend(lex: Grammar, lexemes: seq<Lexeme>, l: Lexeme)
    requires LexedBy(lex, lexemes) && lex(ScanOf(lexemes)) == Some(l)
    ensures LexedBy(lex, lexemes + [l]) && ScanOf(lexemes + [l]) == After(ScanOf(lexemes), l)
  {
    assert (lexemes + [l])[..|lexemes|] == lexemes;
  }

  // ── The scanner ──────────────────────────────────────────────────

  method ScanDoubleQuoted(src: string, i: nat) returns (end: Option<nat>)
    ensures end == DoubleQuoteEnd(src, i + 1)
  {
    var j := i + 1;
    while j < |src|
      invariant DoubleQuoteEnd(src, j) == DoubleQuoteEnd(src, i + 1)
    {
      if src[j] == '\\' {
        j := j + 2;
      } else if src[j] == '"' {
        return Some(j);
      } else {
        j := j + 1;
      }
    }
    end := None;
  }

  method ScanTag(src: string, start: nat) returns (tag: string, j: nat)
    requires start <= |src|
    ensures j == TagEnd(src, start) && tag == src[start..j]
  {
    tag, j := "", start;
    while j < |src| && IsTagChar(src[j])
      invariant start <= j <= |src| && tag == src[start..j]
      invariant TagEnd(src, j) == TagEnd(src, start)
    {
      SliceMore(src, start, j);
      tag, j := tag + [src[j]], j + 1;
    }
  }

  lemma SliceMore(src: string, start: nat, j: nat)
    requires start <= j < |src|
    ensures src[start..j] + [src[j]] == src[start..j + 1]
  {
  }

  method ScanTagStart(src: string, i: nat) returns (stripTabs: bool, j: nat)
    requires HeredocStarts(src, i)
    ensures stripTabs == At(src, i + 2, '-') && j == TagStart(src, i)
  {
    j, stripTabs := i + 2, false;
    if At(src, j, '-') {
      stripTabs, j := true, j + 1;
    }
    while j < |src| && src[j] == ' '
      invariant SkipSpaces(src, j) == TagStart(src, i)
    {
      j := j + 1;
    }
  }

  method ScanHeredoc(src: string, i: nat) returns (l: Option<Lexeme>)
    requires HeredocStarts(src, i)
    ensures l == HeredocAt(src, i)
  {
    var stripTabs, j := ScanTagStart(src, i);
    if At(src, j, '\'') || At(src, j, '"') {
      var end := IndexOf(src, src[j], j + 1);
      if end.None? { return None; }
      l := Some(HeredocOf(src[i..end.value + 1], src[j + 1..end.value], stripTabs));
    } else {
      var tag, end := ScanTag(src, j);
      l := Some(HeredocOf(src[i..end], tag, stripTabs));
    }
  }

  method NextLexeme(src: string, s: Scan) returns (l: Option<Lexeme>)
    requires s.i < |src|
    ensures l == LexemeAt(src, s)
  {
    var c := src[s.i];
    if s.here.Some? {
      l := Some(BodyLineAt(src, s.i, s.here.value));
    } else if c == '"' {
      var end := ScanDoubleQuoted(src, s.i);
      if end.None? { return None; }
      l := Some(Quoted(src[s.i..end.value + 1]));
    } else if c == '\'' || c == '`' {
      var end := IndexOf(src, c, s.i + 1);
      if end.None? { return None; }
      l := Some(Quoted(src[s.i..end.value + 1]));
    } else if c == '\\' {
      l := Some(Escaped(src[s.i..if s.i + 2 <= |src| then s.i + 2 else |src|]));
    } else if CommentStarts(src, s.i) {
      l := Some(Comment(src[s.i..LineEnd(src, s.i)]));
    } else if HeredocStarts(src, s.i) {
      l := ScanHeredoc(src, s.i);
    } else {
      l := Some(BareAt(src, s));
    }
  }

  /** The pieces of a scan that ran to the end. */
  function PiecesOf(s: Scan): seq<Piece> {
    s.pieces + [Piece(s.buf, "")]
  }

  /** Some reading of the text runs to its end with nothing open, and these are its pieces. */
  ghost predicate SplitsInto(src: string, pieces: seq<Piece>) {
    exists lexemes :: LexedBy(Shell(src), lexemes) && Complete(src, ScanOf(lexemes)) && pieces == PiecesOf(ScanOf(lexemes))
  }

  /** Some reading gets stuck. */
  ghost predicate LeftAlone(src: string) {
    exists lexemes :: LexedBy(Shell(src), lexemes) && Stuck(src, ScanOf(lexemes))
  }

  /** Split at top-level operators; none when the text is not safely tokenizable. */
  method SplitTopLevel(src: string) returns (r: Option<seq<Piece>>)
    ensures r.None? <==> LeftAlone(src)
    ensures forall pieces :: SplitsInto(src, pieces) <==> r == Some(pieces)
    ensures r.Some? ==> Rejoin(r.value) == src
  {
    var s := START;
    ghost var lexemes: seq<Lexeme> := [];
    while s.i < |src|
      invariant LexedBy(Shell(src), lexemes) && s == ScanOf(lexemes)
      decreases |src| - s.i
    {
      var l := NextLexeme(src, s);
      if l.None? {
        ReadingDecides(src, lexemes);
        return None;
      }
      LexemesAdvance(src, s, l.value);
      Extend(Shell(src), lexemes, l.value);
      s := After(s, l.value);
      lexemes := lexemes + [l.value];
    }
    ReadingDecides(src, lexemes);
    if s.here.Some? || s.depth != "" { return None; }
    r := Some(s.pieces + [Piece(s.buf, "")]);
    NothingIsLost(src, lexemes);
  }

  // ── Every lexeme is the text under the scanner ───────────────────

  ghost predicate IsNext(src: string, i: nat, text: string) {
    text != "" && i + |text| <= |src| && src[i..i + |text|] == text
  }

  lemma SliceIsNext(src: string, i: nat, j: nat)
    requires i < j <= |src|
    ensures IsNext(src, i, src[i..j])
  {
  }

  lemma BodyLineIsNext(src: string, i: nat, here: Here)
    requires i < |src|
    ensures IsNext(src, i, BodyLineAt(src, i, here).text)
  {
    var e := LineEnd(src, i);
    if e < |src| {
      SliceIsNext(src, i, e + 1);
      assert src[i..e + 1] == src[i..e] + "\n";
    }
  }

  lemma HeredocIsNext(src: string, i: nat)
    requires HeredocStarts(src, i) && HeredocAt(src, i).Some?
    ensures IsNext(src, i, HeredocAt(src, i).value.text)
  {
    var j := TagStart(src, i);
    if At(src, j, '\'') || At(src, j, '"') {
      SliceIsNext(src, i, IndexOf(src, src[j], j + 1).value + 1);
    } else {
      SliceIsNext(src, i, TagEnd(src, j));
    }
  }

  lemma BareIsNext(src: string, s: Scan)
    requires s.i < |src|
    ensures IsNext(src, s.i, BareAt(src, s).text)
  {
  }

  lemma LexemesAdvance(src: string, s: Scan, l: Lexeme)
    requires s.i < |src| && LexemeAt(src, s) == Some(l)
    ensures IsNext(src, s.i, l.text)
  {
    if s.here.Some? {
      BodyLineIsNext(src, s.i, s.here.value);
    } else if IsQuote(src[s.i]) {
      SliceIsNext(src, s.i, QuoteEnd(src, s.i).value + 1);
    } else if src[s.i] == '\\' {
      SliceIsNext(src, s.i, if s.i + 2 <= |src| then s.i + 2 else |src|);
    } else if CommentStarts(src, s.i) {
      SliceIsNext(src, s.i, LineEnd(src, s.i));
    } else if HeredocStarts(src, s.i) {
      HeredocIsNext(src, s.i);
    } else {
      BareIsNext(src, s);
    }
  }

  // ── Losslessness ─────────────────────────────────────────────────

  predicate EndsArm(text: string) {
    |text| >= 2 && text[|text| - 2] == ';' && text[|text| - 1] == ';'
  }

  /** What stood between a piece and the next: a piece that ends a case arm already carries its `;;`. */
  function JoinText(p: Piece): string {
    if p.joiner == "" then "\n" else if p.joiner == ";" && EndsArm(p.text) then "" else p.joiner
  }

  function Rejoined(pieces: seq<Piece>): string {
    if pieces == [] then "" else Rejoined(pieces[..|pieces| - 1]) + pieces[|pieces| - 1].text + JoinText(pieces[|pieces| - 1])
  }

  /** Every piece with what stood after it, and the last piece bare. */
  function Rejoin(pieces: seq<Piece>): string {
    if pieces == [] then "" else Rejoined(pieces[..|pieces| - 1]) + pieces[|pieces| - 1].text
  }

  predicate IsBracketCloser(c: char) {
    c == ')' || c == '}' || c == ']'
  }

  /**
   * Outside brackets and heredoc bodies the pending text can end in `;;` only after a comment, and then a
   * line break or the end of the text comes next.
   */
  ghost predicate NoStrayArm(src: string, s: Scan) {
    && (forall k :: 0 <= k < |s.depth| ==> IsBracketCloser(s.depth[k]))
    && (s.depth == "" && s.here.None? && EndsArm(s.buf) && s.i < |src| ==> src[s.i] == '\n')
  }

  lemma EndsArmOf(buf: string, text: string)
    requires text != ""
    ensures text[|text| - 1] != ';' ==> !EndsArm(buf + text)
    ensures |text| >= 2 && text[|text| - 2] != ';' ==> !EndsArm(buf + text)
  {
  }

  lemma HeredocEnds(src: string, i: nat)
    requires HeredocStarts(src, i) && HeredocAt(src, i).Some?
    ensures var t := HeredocAt(src, i).value.text; t != "" && t[|t| - 1] != ';'
    ensures HeredocAt(src, i).value.Plain? || HeredocAt(src, i).value.Heredoc?
  {
  }

  lemma BodyLineEnds(src: string, i: nat, here: Here)
    requires i < |src|
    ensures var t := BodyLineAt(src, i, here).text; t != "" && (i + |t| < |src| ==> t[|t| - 1] == '\n')
  {
  }

  lemma BareKeepsNoStrayArm(src: string, s: Scan)
    requires s.i < |src| && NoStrayArm(src, s)
    ensures NoStrayArm(src, After(s, BareAt(src, s)))
  {
    var l := BareAt(src, s);
    EndsArmOf(s.buf, l.text);
  }

  lemma PlainlyKeepsNoStrayArm(src: string, s: Scan, l: Lexeme)
    requires NoStrayArm(src, s) && s.here.None? && (l.Quoted? || l.Escaped? || l.Comment? || l.Heredoc? || l.Plain?)
    requires !EndsArm(s.buf + l.text) || s.i + |l.text| >= |src| || src[s.i + |l.text|] == '\n'
    ensures NoStrayArm(src, After(s, l))
  {
  }

  lemma BodyKeepsNoStrayArm(src: string, s: Scan)
    requires s.i < |src| && NoStrayArm(src, s) && s.here.Some?
    ensures NoStrayArm(src, After(s, BodyLineAt(src, s.i, s.here.value)))
  {
    BodyLineEnds(src, s.i, s.here.value);
    EndsArmOf(s.buf, BodyLineAt(src, s.i, s.here.value).text);
  }

  lemma StepKeepsNoStrayArm(src: string, s: Scan, l: Lexeme)
    requires s.i < |src| && NoStrayArm(src, s) && LexemeAt(src, s) == Some(l)
    ensures NoStrayArm(src, After(s, l))
  {
    LexemesAdvance(src, s, l);
    EndsArmOf(s.buf, l.text);
    if s.here.Some? {
      BodyKeepsNoStrayArm(src, s);
    } else if IsQuote(src[s.i]) || src[s.i] == '\\' || CommentStarts(src, s.i) {
      PlainlyKeepsNoStrayArm(src, s, l);
    } else if HeredocStarts(src, s.i) {
      HeredocEnds(src, s.i);
      PlainlyKeepsNoStrayArm(src, s, l);
    } else {
      BareKeepsNoStrayArm(src, s);
    }
  }

  ghost predicate Kept(src: string, s: Scan) {
    s.i <= |src| && Rejoined(s.pieces) + s.buf == src[..s.i]
  }

  lemma TextFollows(src: string, i: nat, text: string, before: string)
    requires IsNext(src, i, text) && before == src[..i]
    ensures before + text == src[..i + |text|]
  {
  }

  lemma BareCutText(src: string, s: Scan)
    requires s.i < |src| && NoStrayArm(src, s) && s.here.None?
    ensures var l := BareAt(src, s);
            (l.ArmEnd? ==> l.text == ";;") && (l.Cut? ==> l.text == JoinText(Piece(s.buf, l.joiner)))
  {
  }

  /** What a cut takes out of the text is what its joiner puts back. */
  lemma CutText(src: string, s: Scan, l: Lexeme)
    requires s.i < |src| && NoStrayArm(src, s) && LexemeAt(src, s) == Some(l)
    ensures l.ArmEnd? ==> l.text == ";;"
    ensures l.Cut? ==> l.text == JoinText(Piece(s.buf, l.joiner))
  {
    if s.here.None? && !IsQuote(src[s.i]) && src[s.i] != '\\' && !CommentStarts(src, s.i) {
      if HeredocStarts(src, s.i) {
        HeredocEnds(src, s.i);
      } else {
        BareCutText(src, s);
      }
    }
  }

  lemma AfterKeepsText(s: Scan, l: Lexeme)
    requires l.ArmEnd? ==> l.text == ";;"
    requires l.Cut? ==> l.text == JoinText(Piece(s.buf, l.joiner))
    ensures Rejoined(After(s, l).pieces) + After(s, l).buf == Rejoined(s.pieces) + s.buf + l.text
  {
    var s' := After(s, l);
    if l.Cut? || l.ArmEnd? {
      assert s'.pieces[..|s.pieces|] == s.pieces;
    } else {
      assert Rejoined(s.pieces) + (s.buf + l.text) == Rejoined(s.pieces) + s.buf + l.text;
    }
  }

  lemma StepKeepsText(src: string, s: Scan, l: Lexeme)
    requires s.i < |src| && NoStrayArm(src, s) && LexemeAt(src, s) == Some(l) && Kept(src, s)
    ensures Kept(src, After(s, l))
  {
    LexemesAdvance(src, s, l);
    CutText(src, s, l);
    TextFollows(src, s.i, l.text, Rejoined(s.pieces) + s.buf);
    AfterKeepsText(s, l);
  }

  /** Every character read so far is in exactly one piece or joiner, in order. */
  lemma {:induction false} TextIsKept(src: string, lexemes: seq<Lexeme>)
    requires LexedBy(Shell(src), lexemes)
    ensures Kept(src, ScanOf(lexemes)) && NoStrayArm(src, ScanOf(lexemes))
  {
    if lexemes != [] {
      var init, l := lexemes[..|lexemes| - 1], lexemes[|lexemes| - 1];
      TextIsKept(src, init);
      StepKeepsText(src, ScanOf(init), l);
      StepKeepsNoStrayArm(src, ScanOf(init), l);
    }
  }

  /** Joining each piece's text with its joiner gives back the source exactly. */
  lemma NothingIsLost(src: string, lexemes: seq<Lexeme>)
    requires LexedBy(Shell(src), lexemes) && Complete(src, ScanOf(lexemes))
    ensures Rejoin(PiecesOf(ScanOf(lexemes))) == src
  {
    var s := ScanOf(lexemes);
    TextIsKept(src, lexemes);
    assert (s.pieces + [Piece(s.buf, "")])[..|s.pieces|] == s.pieces;
    assert src[..s.i] == src;
  }

  // ── Cuts are the top-level operators, all of them and no others ──

  lemma {:induction false} LexedUpTo(lex: Grammar, lexemes: seq<Lexeme>, k: nat)
    requires LexedBy(lex, lexemes) && k < |lexemes|
    ensures LexedBy(lex, lexemes[..k]) && lex(ScanOf(lexemes[..k])) == Some(lexemes[k])
    decreases |lexemes|
  {
    if k < |lexemes| - 1 {
      LexedUpTo(lex, lexemes[..|lexemes| - 1], k);
      assert lexemes[..|lexemes| - 1][..k] == lexemes[..k];
    }
  }

  predicate IsCut(l: Lexeme) {
    l.Cut? || l.ArmEnd?
  }

  predicate TopLevel(s: Scan) {
    s.depth == "" && s.here.None?
  }

  /** What the splitter must not pass over at top level; a lone `&` after `<` or `>` is part of a redirection. */
  predicate Separates(src: string, i: nat, buf: string) {
    || At(src, i, ';') || At(src, i, '|') || At(src, i, '\n')
    || (At(src, i, '&') && (At(src, i + 1, '&') || !EndsRedirect(buf)))
  }

  /**
   * The text is cut at `lexemes[k]` only outside brackets and heredoc bodies (quotes and comments are whole
   * lexemes), and at top level no bare character that separates commands is passed over.
   */
  lemma CutsAreExactlyTheOperators(src: string, lexemes: seq<Lexeme>, k: nat)
    requires LexedBy(Shell(src), lexemes) && k < |lexemes|
    ensures var s := ScanOf(lexemes[..k]);
            && s.i < |src|
            && (IsCut(lexemes[k]) ==> TopLevel(s) && Separates(src, s.i, s.buf))
            && (lexemes[k].Plain? && TopLevel(s)
                ==> !Separates(src, s.i, s.buf) && (lexemes[k].text == [src[s.i]] || HeredocStarts(src, s.i)))
  {
    LexedUpTo(Shell(src), lexemes, k);
    var s := ScanOf(lexemes[..k]);
    if s.here.None? && !IsQuote(src[s.i]) && src[s.i] != '\\' && !CommentStarts(src, s.i) {
      if HeredocStarts(src, s.i) {
        HeredocEnds(src, s.i);
      } else {
        BareCutsAtOperators(src, s);
      }
    }
  }

  lemma BareCutsAtOperators(src: string, s: Scan)
    requires s.i < |src|
    ensures var l := BareAt(src, s);
            && (IsCut(l) ==> s.depth == "" && Separates(src, s.i, s.buf))
            && (l.Plain? && s.depth == "" ==> l.text == [src[s.i]] && !Separates(src, s.i, s.buf))
            && (l.Closer? ==> s.depth != "")
  {
  }

  /** What a lexeme adds to the pieces. */
  function CutCount(l: Lexeme): nat {
    if IsCut(l) then 1 else 0
  }

  /** What a lexeme adds to the brackets owed. */
  function Nesting(l: Lexeme): int {
    if l.Opener? then 1 else if l.Closer? then -1 else 0
  }

  function Cuts(lexemes: seq<Lexeme>): nat {
    if lexemes == [] then 0 else Cuts(lexemes[..|lexemes| - 1]) + CutCount(lexemes[|lexemes| - 1])
  }

  function Balance(lexemes: seq<Lexeme>): int {
    if lexemes == [] then 0 else Balance(lexemes[..|lexemes| - 1]) + Nesting(lexemes[|lexemes| - 1])
  }

  /** One piece per cut, and the brackets owed are those opened and not closed. */
  lemma {:induction false} CountsAgree(src: string, lexemes: seq<Lexeme>)
    requires LexedBy(Shell(src), lexemes)
    ensures |ScanOf(lexemes).pieces| == Cuts(lexemes) && |ScanOf(lexemes).depth| == Balance(lexemes)
  {
    if lexemes != [] {
      var init, l := lexemes[..|lexemes| - 1], lexemes[|lexemes| - 1];
      CountsAgree(src, init);
      ClosersAreOwed(src, ScanOf(init), l);
      AfterCounts(ScanOf(init), l);
    }
  }

  lemma AfterCounts(s: Scan, l: Lexeme)
    requires l.Closer? ==> s.depth != ""
    ensures |After(s, l).pieces| == |s.pieces| + CutCount(l) && |After(s, l).depth| == |s.depth| + Nesting(l)
  {
  }

  lemma ClosersAreOwed(src: string, s: Scan, l: Lexeme)
    requires s.i < |src| && LexemeAt(src, s) == Some(l)
    ensures l.Closer? ==> s.depth != ""
  {
    if s.here.None? && !IsQuote(src[s.i]) && src[s.i] != '\\' && !CommentStarts(src, s.i) {
      if HeredocStarts(src, s.i) {
        HeredocEnds(src, s.i);
      } else {
        BareCutsAtOperators(src, s);
      }
    }
  }

  /** The reading is unambiguous: a text has at most one that leaves nothing over, so its pieces are settled. */
  lemma OneReading(lex: Grammar, a: seq<Lexeme>, b: seq<Lexeme>)
    requires LexedBy(lex, a) && LexedBy(lex, b) && lex(ScanOf(a)).None? && lex(ScanOf(b)).None?
    ensures a == b
  {
    if |a| <= |b| {
      PrefixIsAll(lex, a, b);
    } else {
      PrefixIsAll(lex, b, a);
    }
  }

  /** So one reading that ends, well or stuck, settles what becomes of the text. */
  lemma ReadingDecides(src: string, lexemes: seq<Lexeme>)
    requires LexedBy(Shell(src), lexemes) && (Complete(src, ScanOf(lexemes)) || Stuck(src, ScanOf(lexemes)))
    ensures LeftAlone(src) <==> Stuck(src, ScanOf(lexemes))
    ensures forall pieces :: SplitsInto(src, pieces) <==> Complete(src, ScanOf(lexemes)) && pieces == PiecesOf(ScanOf(lexemes))
  {
    forall other | LexedBy(Shell(src), other) && (Complete(src, ScanOf(other)) || Stuck(src, ScanOf(other)))
      ensures other == lexemes
    {
      OneReading(Shell(src), other, lexemes);
    }
  }

  lemma PrefixIsAll(lex: Grammar, a: seq<Lexeme>, b: seq<Lexeme>)
    requires LexedBy(lex, a) && LexedBy(lex, b) && lex(ScanOf(a)).None? && |a| <= |b|
    ensures a == b
  {
    SamePrefix(lex, a, b, |a|);
    assert a[..|a|] == a && b[..|b|] == b;
    if |a| < |b| { LexedUpTo(lex, b, |a|); }
  }

  lemma {:induction false} SamePrefix(lex: Grammar, a: seq<Lexeme>, b: seq<Lexeme>, k: nat)
    requires LexedBy(lex, a) && LexedBy(lex, b) && k <= |a| && k <= |b|
    ensures a[..k] == b[..k]
  {
    if k > 0 {
      SamePrefix(lex, a, b, k - 1);
      LexedUpTo(lex, a, k - 1);
      LexedUpTo(lex, b, k - 1);
      TakeOneMore(a, k - 1);
      TakeOneMore(b, k - 1);
    }
  }

  // ── A double-quoted text is whole ────────────────────────────────

  /** The inside of a double-quoted text: characters and backslash pairs. */
  predicate QuotedBody(s: string) {
    if s == "" then true
    else if s[0] == '\\' then |s| >= 2 && QuotedBody(s[2..])
    else s[0] != '"' && QuotedBody(s[1..])
  }

  /** The scan stops at `e` exactly when the text up to it is a body and a quote stands there. */
  lemma {:induction false} DoubleQuotesAreWhole(src: string, j: nat, e: nat)
    requires j <= e < |src|
    ensures DoubleQuoteEnd(src, j) == Some(e) <==> QuotedBody(src[j..e]) && src[e] == '"'
    decreases e - j
  {
    var body := src[j..e];
    if j < e && src[j] == '\\' {
      if j + 2 <= e {
        DoubleQuotesAreWhole(src, j + 2, e);
        assert body[2..] == src[j + 2..e];
      }
    } else if j < e && src[j] != '"' {
      DoubleQuotesAreWhole(src, j + 1, e);
      assert body[1..] == src[j + 1..e];
    }
  }
}
