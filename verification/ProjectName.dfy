/**
 * Project names encoded from paths, and the search that finds a directory a name can stand for
 * (packages/core/project-name.ts). Which directories exist is a parameter.
 */
module ProjectName {
  import opened Wrappers

  /** Every `/` and `.` becomes a dash. */
  function EncodeProjectName(path: string): (name: string)
    ensures |name| == |path|
    ensures forall i :: 0 <= i < |path| ==> name[i] == if path[i] == '/' || path[i] == '.' then '-' else path[i]
  {
    seq(|path|, i requires 0 <= i < |path| => if path[i] == '/' || path[i] == '.' then '-' else path[i])
  }

  // ── Names into parts ─────────────────────────────────────────────

  /** `s.split('-')`. */
  function Pieces(s: string): (ps: seq<string>)
    ensures ps != []
  {
    if s == "" then [""]
    else
      var rest := Pieces(s[1..]);
      if s[0] == '-' then [""] + rest else [[s[0]] + rest[0]] + rest[1..]
  }

  /** `.filter(Boolean)`. */
  function NonEmpty(ps: seq<string>): (r: seq<string>)
    ensures |r| <= |ps|
  {
    if ps == [] then [] else if ps[0] == "" then NonEmpty(ps[1..]) else [ps[0]] + NonEmpty(ps[1..])
  }

  function Unled(name: string): string {
    if name != "" && name[0] == '-' then name[1..] else name
  }

  function Parts(name: string): seq<string> {
    NonEmpty(Pieces(Unled(name)))
  }

  function Join(ps: seq<string>): string {
    if ps == [] then "" else if |ps| == 1 then ps[0] else ps[0] + "-" + Join(ps[1..])
  }

  // ── What a name can stand for ────────────────────────────────────

  /** Consecutive parts as one path segment: dashes between them, or a dot before the last. */
  datatype Chunk = Chunk(parts: seq<string>, dotted: bool)

  predicate IsChunk(c: Chunk) {
    c.parts != [] && (c.dotted ==> |c.parts| >= 2)
  }

  function Segment(c: Chunk): string
    requires IsChunk(c)
  {
    if c.dotted then Join(c.parts[..|c.parts| - 1]) + "." + c.parts[|c.parts| - 1] else Join(c.parts)
  }

  function Flatten(cs: seq<Chunk>): seq<string> {
    if cs == [] then [] else cs[0].parts + Flatten(cs[1..])
  }

  ghost predicate AreChunks(cs: seq<Chunk>) {
    forall i :: 0 <= i < |cs| ==> IsChunk(cs[i])
  }

  function Render(cs: seq<Chunk>): string
    requires AreChunks(cs)
  {
    if cs == [] then "" else "/" + Segment(cs[0]) + Render(cs[1..])
  }

  /** The chunks use up the parts, in order. */
  ghost predicate Spells(cs: seq<Chunk>, parts: seq<string>) {
    AreChunks(cs) && Flatten(cs) == parts
  }

  /** Fewer, longer segments come first; a dash before a dot. */
  predicate NotAfter(a: seq<Chunk>, b: seq<Chunk>) {
    if a == [] || b == [] then true
    else if |a[0].parts| != |b[0].parts| then |a[0].parts| > |b[0].parts|
    else if a[0].dotted != b[0].dotted then b[0].dotted
    else NotAfter(a[1..], b[1..])
  }

  type Directories = string -> bool

  ghost predicate Exists(isDir: Directories, prefix: string, parts: seq<string>, cs: seq<Chunk>) {
    Spells(cs, parts) && isDir(prefix + Render(cs))
  }

  /** The path is that of a directory the parts can stand for, and of all of those the first. */
  ghost predicate IsFirst(isDir: Directories, prefix: string, parts: seq<string>, cs: seq<Chunk>, path: string) {
    && Exists(isDir, prefix, parts, cs) && path == prefix + Render(cs)
    && forall other: seq<Chunk> :: Exists(isDir, prefix, parts, other) ==> NotAfter(cs, other)
  }

  ghost predicate NoneExists(isDir: Directories, prefix: string, parts: seq<string>) {
    forall cs: seq<Chunk> :: !Exists(isDir, prefix, parts, cs)
  }

  // ── One step of the search ───────────────────────────────────────

  lemma FirstChunk(cs: seq<Chunk>, parts: seq<string>)
    requires Spells(cs, parts) && parts != []
    ensures cs != [] && IsChunk(cs[0]) && |cs[0].parts| <= |parts| && cs[0].parts == parts[..|cs[0].parts|]
    ensures Spells(cs[1..], parts[|cs[0].parts|..])
    ensures Render(cs) == "/" + Segment(cs[0]) + Render(cs[1..])
  {
    assert IsChunk(cs[0]);
    assert parts == cs[0].parts + Flatten(cs[1..]);
  }

  lemma ChunkFirst(c: Chunk, rest: seq<Chunk>, parts: seq<string>, n: nat, prefix: string)
    requires n <= |parts| && IsChunk(c) && c.parts == parts[..n] && Spells(rest, parts[n..])
    ensures Spells([c] + rest, parts)
    ensures prefix + Render([c] + rest) == prefix + "/" + Segment(c) + Render(rest)
  {
    var cs := [c] + rest;
    assert cs[1..] == rest;
    assert parts == parts[..n] + parts[n..];
    assert prefix + ("/" + Segment(c) + Render(rest)) == prefix + "/" + Segment(c) + Render(rest);
  }

  /** A chunking exists from here exactly when what follows its first chunk exists from there. */
  lemma ExistsFrom(isDir: Directories, prefix: string, parts: seq<string>, cs: seq<Chunk>)
    requires parts != [] && Exists(isDir, prefix, parts, cs)
    ensures cs != [] && IsChunk(cs[0]) && |cs[0].parts| <= |parts| && cs[0].parts == parts[..|cs[0].parts|]
    ensures Exists(isDir, prefix + "/" + Segment(cs[0]), parts[|cs[0].parts|..], cs[1..])
  {
    FirstChunk(cs, parts);
    assert prefix + Render(cs) == prefix + "/" + Segment(cs[0]) + Render(cs[1..]);
  }

  /** Nothing exists whose first segment is longer than `n` parts, or is of `n` parts and among those tried. */
  ghost predicate Exhausted(isDir: Directories, prefix: string, parts: seq<string>, n: nat, dashes: bool, dots: bool) {
    forall cs: seq<Chunk> :: Exists(isDir, prefix, parts, cs) && cs != []
      ==> |cs[0].parts| <= n && (|cs[0].parts| == n ==> !(dashes && !cs[0].dotted) && !(dots && cs[0].dotted))
  }

  lemma TriedInVain(isDir: Directories, prefix: string, parts: seq<string>, n: nat, c: Chunk, dashes: bool)
    requires 0 < n <= |parts| && IsChunk(c) && c.parts == parts[..n] && Exhausted(isDir, prefix, parts, n, dashes, false)
    requires NoneExists(isDir, prefix + "/" + Segment(c), parts[n..])
    requires c.dotted ==> dashes
    ensures Exhausted(isDir, prefix, parts, n, dashes || !c.dotted, c.dotted)
  {
    forall cs: seq<Chunk> | Exists(isDir, prefix, parts, cs) && cs != []
      ensures |cs[0].parts| <= n && (|cs[0].parts| == n ==> cs[0].dotted != c.dotted)
    {
      ExistsFrom(isDir, prefix, parts, cs);
      assert !Exists(isDir, prefix + "/" + Segment(c), parts[n..], cs[1..]);
    }
  }

  lemma FoundFirst(isDir: Directories, prefix: string, parts: seq<string>, n: nat, c: Chunk, rest: seq<Chunk>, path: string)
    requires 0 < n <= |parts| && IsChunk(c) && c.parts == parts[..n] && Exhausted(isDir, prefix, parts, n, c.dotted, false)
    requires IsFirst(isDir, prefix + "/" + Segment(c), parts[n..], rest, path)
    ensures IsFirst(isDir, prefix, parts, [c] + rest, path)
  {
    var cs := [c] + rest;
    ChunkFirst(c, rest, parts, n, prefix);
    forall other: seq<Chunk> | Exists(isDir, prefix, parts, other)
      ensures NotAfter(cs, other)
    {
      ExistsFrom(isDir, prefix, parts, other);
      assert cs[1..] == rest;
    }
  }

  lemma NothingLeft(isDir: Directories, prefix: string, parts: seq<string>)
    requires parts != [] && Exhausted(isDir, prefix, parts, 0, true, true)
    ensures NoneExists(isDir, prefix, parts)
  {
    forall cs: seq<Chunk> ensures !Exists(isDir, prefix, parts, cs) {
      if Exists(isDir, prefix, parts, cs) { ExistsFrom(isDir, prefix, parts, cs); }
    }
  }

  lemma {:induction false} EveryChunkCounts(cs: seq<Chunk>)
    requires AreChunks(cs)
    ensures |cs| <= |Flatten(cs)|
  {
    if cs != [] {
      assert IsChunk(cs[0]);
      EveryChunkCounts(cs[1..]);
    }
  }

  lemma OnlyTheEmptyChunking(isDir: Directories, prefix: string)
    ensures isDir(prefix) ==> IsFirst(isDir, prefix, [], [], prefix)
    ensures !isDir(prefix) ==> NoneExists(isDir, prefix, [])
  {
    assert prefix + Render([]) == prefix;
    forall cs: seq<Chunk> | Spells(cs, []) ensures cs == [] {
      EveryChunkCounts(cs);
    }
  }

  /** Try the longest segment first, joined by dashes and then with a dot before its last part. */
  method Probe(parts: seq<string>, idx: nat, prefix: string, isDir: Directories) returns (r: Option<string>, ghost cs: seq<Chunk>)
    requires idx <= |parts|
    ensures r.Some? ==> IsFirst(isDir, prefix, parts[idx..], cs, r.value)
    ensures r.None? ==> NoneExists(isDir, prefix, parts[idx..])
    decreases |parts| - idx
  {
    cs := [];
    ghost var here := parts[idx..];
    if idx >= |parts| {
      OnlyTheEmptyChunking(isDir, prefix);
      assert here == [];
      return if isDir(prefix) then Some(prefix) else None, [];
    }
    var end := |parts|;
    while end > idx
      invariant idx <= end <= |parts|
      invariant Exhausted(isDir, prefix, here, end - idx, end == idx, end == idx)
    {
      r, cs := TryEnd(parts, idx, end, prefix, isDir);
      if r.Some? { return; }
      end := end - 1;
    }
    NothingLeft(isDir, prefix, here);
    r := None;
  }

  method TryEnd(parts: seq<string>, idx: nat, end: nat, prefix: string, isDir: Directories) returns (r: Option<string>, ghost cs: seq<Chunk>)
    requires idx < end <= |parts| && Exhausted(isDir, prefix, parts[idx..], end - idx, false, false)
    ensures r.Some? ==> IsFirst(isDir, prefix, parts[idx..], cs, r.value)
    ensures r.None? ==> Exhausted(isDir, prefix, parts[idx..], end - idx - 1, end - 1 == idx, end - 1 == idx)
    decreases |parts| - idx, 0
  {
    ghost var here := parts[idx..];
    var subParts, n := parts[idx..end], end - idx;
    assert subParts == here[..n] && parts[end..] == here[n..];
    var dash := Chunk(subParts, false);
    r, cs := Probe(parts, end, prefix + "/" + Segment(dash), isDir);
    if r.Some? {
      FoundFirst(isDir, prefix, here, n, dash, cs, r.value);
      cs := [dash] + cs;
      return;
    }
    TriedInVain(isDir, prefix, here, n, dash, false);
    if |subParts| >= 2 {
      var dot := Chunk(subParts, true);
      r, cs := Probe(parts, end, prefix + "/" + Segment(dot), isDir);
      if r.Some? {
        FoundFirst(isDir, prefix, here, n, dot, cs, r.value);
        cs := [dot] + cs;
        return;
      }
      TriedInVain(isDir, prefix, here, n, dot, true);
    }
    OneShorter(isDir, prefix, here, n, |subParts| >= 2);
  }

  lemma OneShorter(isDir: Directories, prefix: string, parts: seq<string>, n: nat, dots: bool)
    requires n > 0 && Exhausted(isDir, prefix, parts, n, true, dots) && (!dots ==> n == 1)
    ensures Exhausted(isDir, prefix, parts, n - 1, n - 1 == 0, n - 1 == 0)
  {
    forall cs: seq<Chunk> | Exists(isDir, prefix, parts, cs) && cs != []
      ensures |cs[0].parts| <= n - 1 && n > 1
    {
      assert IsChunk(cs[0]);
    }
  }

  /** The directory an encoded name stands for, as far as probing can tell. */
  method ResolveProjectPath(name: string, isDir: Directories) returns (r: Option<string>, ghost cs: seq<Chunk>)
    ensures Parts(name) == [] ==> r.None?
    ensures r.Some? ==> IsFirst(isDir, "", Parts(name), cs, r.value)
    ensures r.None? && Parts(name) != [] ==> NoneExists(isDir, "", Parts(name))
  {
    var parts := Parts(name);
    cs := [];
    if |parts| == 0 { return None, []; }
    assert parts[0..] == parts;
    r, cs := Probe(parts, 0, "", isDir);
  }

  // ── The search inverts the encoder ───────────────────────────────

  predicate IsPlain(s: string) {
    forall i :: 0 <= i < |s| ==> s[i] != '/' && s[i] != '.' && s[i] != '-'
  }

  /** Parts a name splits into: not empty, and free of the three separators. */
  ghost predicate ArePlain(ps: seq<string>) {
    forall i :: 0 <= i < |ps| ==> ps[i] != "" && IsPlain(ps[i])
  }

  lemma EncodeAppend(a: string, b: string)
    ensures EncodeProjectName(a + b) == EncodeProjectName(a) + EncodeProjectName(b)
  {
  }

  lemma EncodePlain(s: string)
    requires forall i :: 0 <= i < |s| ==> s[i] != '/' && s[i] != '.'
    ensures EncodeProjectName(s) == s
  {
  }

  lemma {:induction false} JoinIsPlain(ps: seq<string>)
    requires ArePlain(ps)
    ensures forall i :: 0 <= i < |Join(ps)| ==> Join(ps)[i] != '/' && Join(ps)[i] != '.'
  {
    if |ps| == 1 {
      assert IsPlain(ps[0]);
    } else if |ps| > 1 {
      assert IsPlain(ps[0]);
      JoinIsPlain(ps[1..]);
    }
  }

  lemma {:induction false} JoinAppend(a: seq<string>, b: seq<string>)
    requires a != [] && b != []
    ensures Join(a + b) == Join(a) + "-" + Join(b)
  {
    if |a| == 1 {
      assert (a + b)[1..] == b;
    } else {
      JoinAppend(a[1..], b);
      assert (a + b)[1..] == a[1..] + b;
      assert a[0] + "-" + (Join(a[1..]) + "-" + Join(b)) == a[0] + "-" + Join(a[1..]) + "-" + Join(b);
    }
  }

  /** Dash or dot, a segment encodes to its parts joined by dashes. */
  lemma SegmentEncodes(c: Chunk)
    requires IsChunk(c) && ArePlain(c.parts)
    ensures EncodeProjectName(Segment(c)) == Join(c.parts)
  {
    if c.dotted {
      var n := |c.parts| - 1;
      var init, last := c.parts[..n], c.parts[n];
      JoinIsPlain(init);
      assert IsPlain(last);
      EncodePlain(Join(init));
      EncodePlain(last);
      EncodeAppend(Join(init) + ".", last);
      EncodeAppend(Join(init), ".");
      JoinAppend(init, [last]);
      assert init + [last] == c.parts && Join([last]) == last;
    } else {
      JoinIsPlain(c.parts);
      EncodePlain(Join(c.parts));
    }
  }

  lemma PlainParts(a: seq<string>, b: seq<string>)
    requires ArePlain(a + b)
    ensures ArePlain(a) && ArePlain(b)
  {
    forall i | 0 <= i < |a| ensures a[i] != "" && IsPlain(a[i]) { assert (a + b)[i] == a[i]; }
    forall i | 0 <= i < |b| ensures b[i] != "" && IsPlain(b[i]) { assert (a + b)[|a| + i] == b[i]; }
  }

  lemma HeadEncodes(c: Chunk, tail: string)
    requires IsChunk(c) && ArePlain(c.parts)
    ensures EncodeProjectName("/" + Segment(c) + tail) == "-" + Join(c.parts) + EncodeProjectName(tail)
  {
    SegmentEncodes(c);
    EncodeAppend("/" + Segment(c), tail);
    EncodeAppend("/", Segment(c));
    assert EncodeProjectName("/") == "-";
  }

  lemma JoinHead(a: seq<string>, rest: seq<string>)
    requires a != []
    ensures "-" + Join(a) + (if rest == [] then "" else "-" + Join(rest)) == "-" + Join(a + rest)
  {
    if rest == [] {
      assert a + rest == a;
    } else {
      JoinAppend(a, rest);
      assert "-" + Join(a) + ("-" + Join(rest)) == "-" + (Join(a) + "-" + Join(rest));
    }
  }

  /** Whatever path the parts are spelled as, it encodes to a dash and the parts joined by dashes. */
  lemma {:induction false} RenderEncodes(cs: seq<Chunk>, parts: seq<string>)
    requires Spells(cs, parts) && ArePlain(parts)
    ensures EncodeProjectName(Render(cs)) == if parts == [] then "" else "-" + Join(parts)
  {
    EveryChunkCounts(cs);
    if cs != [] {
      var rest := Flatten(cs[1..]);
      assert IsChunk(cs[0]);
      PlainParts(cs[0].parts, rest);
      RenderEncodes(cs[1..], rest);
      HeadEncodes(cs[0], Render(cs[1..]));
      JoinHead(cs[0].parts, rest);
    }
  }

  // ── When the answer encodes back to the name it was found for ────

  lemma {:induction false} PiecesJoin(s: string)
    ensures Join(Pieces(s)) == s
  {
    if s != "" {
      PiecesJoin(s[1..]);
      var rest, ps := Pieces(s[1..]), Pieces(s);
      if s[0] == '-' {
        assert ps[1..] == rest;
      } else {
        assert ps[1..] == rest[1..];
      }
    }
  }

  lemma {:induction false} PiecesHaveNoDash(s: string)
    ensures forall p :: p in Pieces(s) ==> '-' !in p
  {
    if s != "" { PiecesHaveNoDash(s[1..]); }
  }

  lemma {:induction false} PiecesKeepCharacters(s: string, c: char)
    requires c !in s
    ensures forall p :: p in Pieces(s) ==> c !in p
  {
    if s != "" { PiecesKeepCharacters(s[1..], c); }
  }

  lemma {:induction false} NonEmptyMembers(ps: seq<string>)
    ensures forall p :: p in NonEmpty(ps) <==> p in ps && p != ""
  {
    if ps != [] { NonEmptyMembers(ps[1..]); }
  }

  /** The parts of a name without slashes or dots are free of all three separators. */
  lemma PartsArePlain(name: string)
    requires '/' !in name && '.' !in name
    ensures ArePlain(Parts(name))
  {
    PiecesHaveNoDash(Unled(name));
    PiecesKeepCharacters(Unled(name), '/');
    PiecesKeepCharacters(Unled(name), '.');
    NonEmptyMembers(Pieces(Unled(name)));
    forall i | 0 <= i < |Parts(name)| ensures Parts(name)[i] != "" && IsPlain(Parts(name)[i]) {
      assert Parts(name)[i] in Parts(name);
    }
  }

  lemma {:induction false} NothingEmpty(ps: seq<string>)
    requires "" !in ps
    ensures NonEmpty(ps) == ps
  {
    if ps != [] { NothingEmpty(ps[1..]); }
  }

  lemma {:induction false} JoinLength(ps: seq<string>)
    requires ps != []
    ensures |Join(ps)| == TotalLength(ps) + |ps| - 1
  {
    if |ps| > 1 { JoinLength(ps[1..]); }
  }

  function TotalLength(ps: seq<string>): nat {
    if ps == [] then 0 else |ps[0]| + TotalLength(ps[1..])
  }

  lemma {:induction false} NonEmptyLength(ps: seq<string>)
    ensures TotalLength(NonEmpty(ps)) == TotalLength(ps)
    ensures "" in ps ==> |NonEmpty(ps)| < |ps|
  {
    if ps != [] { NonEmptyLength(ps[1..]); }
  }

  /** A name as the encoder writes an absolute path: a dash, and no empty piece after it. */
  ghost predicate IsCanonical(name: string) {
    name != "" && name[0] == '-' && "" !in Pieces(name[1..])
  }

  /** Joining the parts gives the name back exactly when it starts with a dash and has no empty piece. */
  lemma PartsSpellTheName(name: string)
    requires Parts(name) != []
    ensures "-" + Join(Parts(name)) == name <==> IsCanonical(name)
  {
    var ps := Pieces(Unled(name));
    PiecesJoin(Unled(name));
    NonEmptyLength(ps);
    JoinLength(ps);
    JoinLength(Parts(name));
    if "" !in ps { NothingEmpty(ps); }
  }

  /**
   * A path found for a name is a directory whose encoding is a dash and the name's parts joined by dashes;
   * that is the name itself exactly when the name is canonical.
   */
  lemma FoundPathEncodesBack(name: string, isDir: Directories, cs: seq<Chunk>, path: string)
    requires '/' !in name && '.' !in name && Parts(name) != []
    requires IsFirst(isDir, "", Parts(name), cs, path)
    ensures isDir(path) && EncodeProjectName(path) == "-" + Join(Parts(name))
    ensures EncodeProjectName(path) == name <==> IsCanonical(name)
  {
    PartsArePlain(name);
    RenderEncodes(cs, Parts(name));
    PartsSpellTheName(name);
    assert "" + Render(cs) == Render(cs);
  }

  lemma {:induction false} PiecesOfJoin(ps: seq<string>)
    requires ps != [] && ArePlain(ps)
    ensures Pieces(Join(ps)) == ps
  {
    assert IsPlain(ps[0]);
    if |ps| == 1 {
      PiecesOfPlain(ps[0]);
    } else {
      PiecesOfJoin(ps[1..]);
      PiecesAfterPlain(ps[0], Join(ps[1..]));
      assert ps[0] + "-" + Join(ps[1..]) == ps[0] + ("-" + Join(ps[1..]));
    }
  }

  lemma {:induction false} PiecesOfPlain(s: string)
    requires IsPlain(s)
    ensures Pieces(s) == [s]
  {
    if s != "" {
      PiecesOfPlain(s[1..]);
      assert [s[0]] + s[1..] == s;
    }
  }

  lemma {:induction false} PiecesAfterPlain(s: string, rest: string)
    requires IsPlain(s)
    ensures Pieces(s + ("-" + rest)) == [s] + Pieces(rest)
  {
    var all := s + ("-" + rest);
    if s == "" {
      assert all[1..] == rest;
    } else {
      PiecesAfterPlain(s[1..], rest);
      assert all[1..] == s[1..] + ("-" + rest);
      assert [s[0]] + s[1..] == s;
    }
  }

  /**
   * Round trip: a directory whose path can be spelled from plain parts is never lost. Resolving its encoded
   * name finds a directory, this one or one the encoder cannot tell from it.
   */
  lemma EncodedDirectoryIsFound(cs: seq<Chunk>, parts: seq<string>, isDir: Directories)
    requires Spells(cs, parts) && ArePlain(parts) && parts != [] && isDir(Render(cs))
    ensures var name := EncodeProjectName(Render(cs));
            Parts(name) == parts && IsCanonical(name) && !NoneExists(isDir, "", Parts(name))
  {
    var name := EncodeProjectName(Render(cs));
    RenderEncodes(cs, parts);
    PiecesOfJoin(parts);
    assert Unled(name) == Join(parts) && name[1..] == Join(parts);
    NothingEmpty(parts);
    assert "" + Render(cs) == Render(cs);
    assert Exists(isDir, "", parts, cs);
  }

  /** A hidden directory's name has an empty piece, so what is found for it never encodes back to it. */
  lemma HiddenDirectoriesDoNotRoundTrip(parent: string, hidden: string)
    requires parent != "" && parent[0] == '/'
    ensures !IsCanonical(EncodeProjectName(parent + "/." + hidden))
  {
    var name := EncodeProjectName(parent + "/." + hidden);
    var k := |parent|;
    assert name[k] == '-' && name[k + 1] == '-';
    EmptyPiece(name[1..], k - 1);
  }

  lemma {:induction false} EmptyPiece(s: string, k: nat)
    requires k + 1 < |s| && s[k] == '-' && s[k + 1] == '-'
    ensures "" in Pieces(s)[1..]
  {
    if k > 0 {
      EmptyPiece(s[1..], k - 1);
      var rest, ps := Pieces(s[1..]), Pieces(s);
      if s[0] == '-' {
        assert ps[1..] == rest;
      } else {
        assert ps[1..] == rest[1..];
      }
    } else {
      assert Pieces(s)[1..] == Pieces(s[1..]);
      assert Pieces(s[1..])[0] == "";
    }
  }

  // ── The order of preference, at two parts ────────────────────────

  lemma OneChunk(c: Chunk)
    requires IsChunk(c)
    ensures Flatten([c]) == c.parts && Render([c]) == "/" + Segment(c)
  {
    assert [c][1..] == [];
  }

  lemma TwoChunks(c: Chunk, d: Chunk)
    requires IsChunk(c) && IsChunk(d)
    ensures Flatten([c, d]) == c.parts + d.parts && Render([c, d]) == "/" + Segment(c) + "/" + Segment(d)
  {
    OneChunk(d);
    assert [c, d][1..] == [d];
    assert "/" + Segment(c) + ("/" + Segment(d)) == "/" + Segment(c) + "/" + Segment(d);
  }

  /** The three ways two parts can be spelled. */
  lemma TwoPartsSpelled(x: string, y: string, cs: seq<Chunk>)
    requires Spells(cs, [x, y])
    ensures cs in {[Chunk([x, y], false)], [Chunk([x, y], true)], [Chunk([x], false), Chunk([y], false)]}
  {
    FirstChunk(cs, [x, y]);
    SomePartsLeft(cs[1..]);
    if |cs[0].parts| == 2 {
      assert cs == [cs[0]] && cs[0].parts == [x, y];
    } else {
      assert cs[0].parts == [x] && [x, y][1..] == [y];
      FirstChunk(cs[1..], [y]);
      SomePartsLeft(cs[1..][1..]);
      assert cs == [cs[0], cs[1]] && cs[1].parts == [y];
    }
  }

  lemma SomePartsLeft(cs: seq<Chunk>)
    requires AreChunks(cs)
    ensures cs != [] ==> Flatten(cs) != []
  {
    if cs != [] { assert IsChunk(cs[0]); }
  }

  /** One segment before two, a dash before a dot. */
  lemma TwoPartsFound(isDir: Directories, x: string, y: string, cs: seq<Chunk>, path: string)
    requires IsFirst(isDir, "", [x, y], cs, path)
    ensures path == if isDir("/" + x + "-" + y) then "/" + x + "-" + y
                    else if isDir("/" + x + "." + y) then "/" + x + "." + y
                    else "/" + x + "/" + y
  {
    var dashed, dotted, apart := [Chunk([x, y], false)], [Chunk([x, y], true)], [Chunk([x], false), Chunk([y], false)];
    Spelling(x, y);
    TwoPartsSpelled(x, y, cs);
    assert Exists(isDir, "", [x, y], dashed) <==> isDir("/" + x + "-" + y);
    assert Exists(isDir, "", [x, y], dotted) <==> isDir("/" + x + "." + y);
    assert !NotAfter(dotted, dashed) && !NotAfter(apart, dashed) && !NotAfter(apart, dotted);
  }

  lemma Spelling(x: string, y: string)
    ensures var cs := [Chunk([x, y], false)]; Spells(cs, [x, y]) && "" + Render(cs) == "/" + x + "-" + y
    ensures var cs := [Chunk([x, y], true)]; Spells(cs, [x, y]) && "" + Render(cs) == "/" + x + "." + y
    ensures var cs := [Chunk([x], false), Chunk([y], false)]; Spells(cs, [x, y]) && "" + Render(cs) == "/" + x + "/" + y
  {
    OneChunk(Chunk([x, y], false));
    OneChunk(Chunk([x, y], true));
    TwoChunks(Chunk([x], false), Chunk([y], false));
    assert [x, y][1..] == [y] && [x, y][..1] == [x];
    assert Join([x, y]) == x + "-" + y;
    assert "/" + (x + "-" + y) == "/" + x + "-" + y && "/" + (x + "." + y) == "/" + x + "." + y;
  }
}
