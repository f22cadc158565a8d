/**
 * What the items of an Aider log say, over the log's own lines (packages/core/aider-adapter.ts, `splitAiderLines`):
 * what each line is by its text, and which stretch of lines each item stands for.
 */
module AiderMeaning {
  import opened Wrappers
  import opened Seqs
  import opened Text
  import opened Aider

  // ── What a line is ───────────────────────────────────────────────

  /** The twenty-five characters ECMA-262 calls white space or a line terminator. */
  lemma SpacesAre(c: char)
    ensures IsSpace(c)
            <==> c in {'\t', '\n', '\U{B}', '\U{C}', '\r', ' ', '\U{A0}', '\U{1680}', '\U{2000}', '\U{2001}', '\U{2002}', '\U{2003}',
                       '\U{2004}', '\U{2005}', '\U{2006}', '\U{2007}', '\U{2008}', '\U{2009}', '\U{200A}', '\U{2028}', '\U{2029}',
                       '\U{202F}', '\U{205F}', '\U{3000}', '\U{FEFF}'}
  {
  }

  ghost predicate WithoutCr(raw: string, text: string) {
    raw == text + "\r" || (raw == text && (raw != "" ==> raw[|raw| - 1] != '\r'))
  }

  ghost predicate EndsClean(t: string) {
    t != "" ==> !IsSpace(t[|t| - 1])
  }

  /** YYYY-MM-DD HH:MM:SS, digits anywhere a digit belongs. */
  ghost predicate Stamped(s: string) {
    && |s| == 19 && s[4] == '-' && s[7] == '-' && s[10] == ' ' && s[13] == ':' && s[16] == ':'
    && forall i :: 0 <= i < 19 && i != 4 && i != 7 && i != 10 && i != 13 && i != 16 ==> '0' <= s[i] <= '9'
  }

  ghost predicate IsHeaderLine(text: string, time: string) {
    Stamped(time) && exists blanks: string :: IsBlank(blanks) && text == "# aider chat started at " + time + blanks
  }

  ghost predicate IsUserLine(text: string, said: string) {
    || (text == "####" && said == "")
    || (EndsClean(said) && exists blanks: string :: IsBlank(blanks) && text == "#### " + said + blanks)
  }

  ghost predicate IsOutputLine(text: string, said: string) {
    && EndsClean(said)
    && exists blanks: string :: IsBlank(blanks) && (text == "> " + said + blanks || (said == "" && text == ">" + blanks))
  }

  ghost predicate IsHardBroken(text: string) {
    exists x: string :: text == x + "  "
  }

  ghost predicate IsFence(text: string) {
    exists blanks: string, rest: string :: IsBlank(blanks) && (text == blanks + "```" + rest || text == blanks + "~~~" + rest)
  }

  /** Present exactly when the line is of that kind, and then with what it says. */
  ghost predicate Found(found: Option<string>, says: string -> bool) {
    match found
    case None => forall said: string :: !says(said)
    case Some(said) => says(said)
  }

  ghost function HeaderLine(text: string): string -> bool { (t: string) => IsHeaderLine(text, t) }
  ghost function UserLine(text: string): string -> bool { (t: string) => IsUserLine(text, t) }
  ghost function OutputLine(text: string): string -> bool { (t: string) => IsOutputLine(text, t) }

  /** `row` is what the line is, all of it told from the line's own text. */
  ghost predicate Says(line: Line, row: Row) {
    && row.offset == line.offset && WithoutCr(line.text, row.text)
    && Found(row.header, HeaderLine(row.text)) && Found(row.user, UserLine(row.text)) && Found(row.output, OutputLine(row.text))
    && (row.hard <==> IsHardBroken(row.text)) && (row.blank <==> IsBlank(row.text)) && (row.fence <==> IsFence(row.text))
  }

  lemma {:induction false} TrimEndMeans(s: string) returns (blanks: string)
    ensures IsBlank(blanks) && s == TrimEnd(s) + blanks && EndsClean(TrimEnd(s))
  {
    if s != "" && IsSpace(s[|s| - 1]) {
      var more := TrimEndMeans(s[..|s| - 1]);
      blanks := more + [s[|s| - 1]];
    } else {
      blanks := "";
      assert s == s + "";
    }
  }

  lemma CleanEndIsUnique(a: string, b: string, x: string, y: string)
    requires IsBlank(x) && IsBlank(y) && a + x == b + y && EndsClean(a) && EndsClean(b)
    ensures a == b
  {
    var s := a + x;
    assert a == s[..|a|] && b == s[..|b|];
    assert forall i :: |a| <= i < |s| ==> s[i] == x[i - |a|];
    assert forall i :: |b| <= i < |s| ==> s[i] == y[i - |b|];
    assert (a != "" ==> a[|a| - 1] == s[|a| - 1]) && (b != "" ==> b[|b| - 1] == s[|b| - 1]);
  }

  lemma TrimEndIs(s: string, t: string, blanks: string)
    requires s == t + blanks && IsBlank(blanks) && EndsClean(t)
    ensures TrimEnd(s) == t
  {
    var x := TrimEndMeans(s);
    CleanEndIsUnique(TrimEnd(s), t, x, blanks);
  }

  lemma After(text: string, marker: string, rest: string)
    requires text == marker + rest
    ensures marker <= text && text[|marker|..] == rest
  {
  }

  lemma UserLineStarts(text: string, said: string)
    ensures IsUserLine(text, said) ==> text == "####" || "#### " <= text
  {
    if blanks: string :| IsBlank(blanks) && text == "#### " + said + blanks {
      assert text == "#### " + (said + blanks);
    }
  }

  lemma UserMeans(text: string)
    ensures Found(UserText(text), UserLine(text))
  {
    if "#### " <= text {
      var blanks := TrimEndMeans(text[5..]);
      assert text == "#### " + (TrimEnd(text[5..]) + blanks) == "#### " + TrimEnd(text[5..]) + blanks;
    } else if text == "####" {
      assert text[4..] == "";
    } else {
      forall said: string ensures !UserLine(text)(said) {
        UserLineStarts(text, said);
      }
    }
  }

  lemma OutputLineStarts(text: string, said: string)
    ensures IsOutputLine(text, said) ==> "> " <= text || (">" <= text && IsBlank(text[1..]))
  {
    if blanks: string :| IsBlank(blanks) && text == "> " + said + blanks {
      assert text == "> " + (said + blanks);
    } else if blanks: string :| IsBlank(blanks) && said == "" && text == ">" + blanks {
      After(text, ">", blanks);
    }
  }

  lemma OutputSays(text: string)
    requires "> " <= text
    ensures IsOutputLine(text, TrimEnd(text[2..]))
  {
    var blanks := TrimEndMeans(text[2..]);
    assert text == "> " + (TrimEnd(text[2..]) + blanks) == "> " + TrimEnd(text[2..]) + blanks;
  }

  lemma BareOutputSays(text: string)
    requires ">" <= text && IsBlank(text[1..])
    ensures TrimEnd(text[1..]) == "" && IsOutputLine(text, "")
  {
    TrimEndIs(text[1..], "", text[1..]);
    assert text == ">" + text[1..];
  }

  lemma OutputMeans(text: string)
    ensures Found(OutputText(text), OutputLine(text))
  {
    if "> " <= text {
      OutputSays(text);
    } else if ">" <= text && IsBlank(text[1..]) {
      BareOutputSays(text);
    } else {
      forall said: string ensures !OutputLine(text)(said) {
        OutputLineStarts(text, said);
      }
    }
  }

  lemma StampMeans(s: string)
    ensures IsStamp(s) <==> Stamped(s)
  {
    var p := STAMP;
    assert |p| == 19 && p[4] == '-' && p[7] == '-' && p[10] == ' ' && p[13] == ':' && p[16] == ':';
    assert p[0] == p[1] == p[2] == p[3] == p[5] == p[6] == p[8] == p[9] == p[11] == p[12] == p[14] == p[15] == p[17] == p[18] == '0';
  }

  lemma HeaderMeans(text: string)
    ensures Found(HeaderTime(text), HeaderLine(text))
  {
    var start := |HEADER|;
    var end := start + 19;
    if HEADER <= text && |text| >= end {
      StampMeans(text[start..end]);
      assert text == HEADER + text[start..end] + text[end..];
    }
    if HeaderTime(text).None? {
      forall time: string ensures !IsHeaderLine(text, time) {
        if Stamped(time) {
          StampMeans(time);
          if blanks: string :| IsBlank(blanks) && text == "# aider chat started at " + time + blanks {
            HeaderParts(text, time, blanks);
          }
        }
      }
    }
  }

  lemma HeaderParts(text: string, time: string, blanks: string)
    requires |time| == 19 && text == "# aider chat started at " + time + blanks
    ensures HEADER <= text && |text| >= |HEADER| + 19 && text[|HEADER|..|HEADER| + 19] == time && text[|HEADER| + 19..] == blanks
  {
    assert text == HEADER + (time + blanks);
    After(text, HEADER, time + blanks);
    assert text[|HEADER|..][..19] == time && text[|HEADER|..][19..] == blanks;
  }

  lemma {:induction false} TrimStartMeans(s: string) returns (blanks: string)
    ensures IsBlank(blanks) && s == blanks + TrimStart(s) && (TrimStart(s) != "" ==> !IsSpace(TrimStart(s)[0]))
  {
    if s != "" && IsSpace(s[0]) {
      var more := TrimStartMeans(s[1..]);
      blanks := [s[0]] + more;
    } else {
      blanks := "";
    }
  }

  lemma CleanStartIsUnique(a: string, b: string, x: string, y: string)
    requires IsBlank(x) && IsBlank(y) && x + a == y + b
    requires (a != "" ==> !IsSpace(a[0])) && (b != "" ==> !IsSpace(b[0]))
    ensures a == b
  {
    var s := x + a;
    assert a == s[|x|..] && b == s[|y|..];
    assert forall i :: 0 <= i < |x| ==> s[i] == x[i];
    assert forall i :: 0 <= i < |y| ==> s[i] == y[i];
    assert (a != "" ==> a[0] == s[|x|]) && (b != "" ==> b[0] == s[|y|]);
  }

  lemma MarkedAfterBlanks(text: string, mark: string)
    requires mark != "" && !IsSpace(mark[0])
    ensures mark <= TrimStart(text) <==> exists blanks: string, rest: string :: IsBlank(blanks) && text == blanks + mark + rest
  {
    var x := TrimStartMeans(text);
    if mark <= TrimStart(text) {
      var rest := TrimStart(text)[|mark|..];
      assert text == x + mark + rest;
    }
    if blanks: string, rest: string :| IsBlank(blanks) && text == blanks + mark + rest {
      assert text == blanks + (mark + rest);
      assert (mark + rest)[0] == mark[0];
      CleanStartIsUnique(TrimStart(text), mark + rest, x, blanks);
    }
  }

  lemma FenceMeans(text: string)
    ensures IsFence(text) <==> "```" <= TrimStart(text) || "~~~" <= TrimStart(text)
  {
    MarkedAfterBlanks(text, "```");
    MarkedAfterBlanks(text, "~~~");
  }

  lemma HardMeans(text: string)
    ensures IsHardBroken(text) <==> |text| >= 2 && text[|text| - 2..] == "  "
  {
    if |text| >= 2 && text[|text| - 2..] == "  " {
      assert text == text[..|text| - 2] + "  ";
    }
  }

  /** The reader of lines reads each as what it is. */
  lemma ReadSays(line: Line)
    ensures Says(line, Read(line))
  {
    var text := Read(line).text;
    if line.text != "" && line.text[|line.text| - 1] == '\r' {
      assert line.text == text + "\r";
    }
    HeaderMeans(text);
    UserMeans(text);
    OutputMeans(text);
    HardMeans(text);
    FenceMeans(text);
  }
}
