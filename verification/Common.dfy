/** Small shared types: optional values, fallible results. */
module Wrappers {
  datatype Option<+T> = None | Some(value: T)

  datatype Result<+T, +E> = Success(value: T) | Failure(error: E)
}

/** Facts about prefixes, kept apart so that loops can use them without unfolding anything else. */
module Seqs {
  lemma TakeOneMore<T>(s: seq<T>, k: nat)
    requires k < |s|
    ensures s[..k + 1] == s[..k] + [s[k]]
  {
  }

  lemma TakeAll<T>(s: seq<T>)
    ensures s[..|s|] == s
  {
  }
}

/** Byte strings and their lower-case hexadecimal form, as Node's Buffer reads and prints it. */
module Bytes {
  type Byte = b: int | 0 <= b < 256

  /** A SHA-256 digest. */
  type Digest = d: seq<Byte> | |d| == 32 witness seq(32, _ => 0)

  /** The hash function is a parameter of the whole development, never an axiom. */
  type HashFn = seq<Byte> -> Digest

  /** No two distinct members of `preimages` share a digest. */
  ghost predicate CollisionFree(sha: HashFn, preimages: set<seq<Byte>>) {
    forall x, y :: x in preimages && y in preimages && sha(x) == sha(y) ==> x == y
  }

  function HexDigit(n: int): char
    requires 0 <= n < 16
  {
    if n < 10 then ('0' as int + n) as char else ('a' as int + n - 10) as char
  }

  /** The value of a hex digit in either case, or -1. */
  function HexValue(c: char): (v: int)
    ensures -1 <= v < 16
  {
    if '0' <= c <= '9' then c as int - '0' as int
    else if 'a' <= c <= 'f' then c as int - 'a' as int + 10
    else if 'A' <= c <= 'F' then c as int - 'A' as int + 10
    else -1
  }

  function ToHex(bytes: seq<Byte>): (s: string)
    ensures |s| == 2 * |bytes|
  {
    if bytes == [] then "" else [HexDigit(bytes[0] / 16), HexDigit(bytes[0] % 16)] + ToHex(bytes[1..])
  }

  /** `Buffer.from(s, 'hex')`: decoding stops at the first pair that is not two hex digits. */
  function FromHex(s: string): (bytes: seq<Byte>)
    ensures |bytes| <= |s| / 2
  {
    if |s| < 2 || HexValue(s[0]) < 0 || HexValue(s[1]) < 0 then []
    else [16 * HexValue(s[0]) + HexValue(s[1])] + FromHex(s[2..])
  }

  predicate IsLowerHex(c: char) {
    '0' <= c <= '9' || 'a' <= c <= 'f'
  }

  /** The shape of a printed digest: exactly 64 lower-case hex digits. */
  predicate IsHex64(s: string) {
    |s| == 64 && forall i :: 0 <= i < |s| ==> IsLowerHex(s[i])
  }

  /** Printing a buffer as hex and reading it back is the identity. */
  lemma {:induction false} FromHexToHex(bytes: seq<Byte>)
    ensures FromHex(ToHex(bytes)) == bytes
  {
    if bytes != [] {
      FromHexToHex(bytes[1..]);
      var s := ToHex(bytes);
      assert s[2..] == ToHex(bytes[1..]);
      assert HexValue(s[0]) == bytes[0] / 16 && HexValue(s[1]) == bytes[0] % 16;
    }
  }

  lemma {:induction false} ToHexIsLowerHex(bytes: seq<Byte>)
    ensures forall i :: 0 <= i < |ToHex(bytes)| ==> IsLowerHex(ToHex(bytes)[i])
  {
    if bytes != [] {
      ToHexIsLowerHex(bytes[1..]);
    }
  }

  lemma HexDigitOfValue(c: char)
    requires IsLowerHex(c)
    ensures 0 <= HexValue(c) && HexDigit(HexValue(c)) == c
  {
  }

  /** Reading lower-case hex of even length and printing it is the identity too. */
  lemma {:induction false} ToHexFromHex(s: string)
    requires |s| % 2 == 0
    requires forall i :: 0 <= i < |s| ==> IsLowerHex(s[i])
    ensures ToHex(FromHex(s)) == s
    ensures |FromHex(s)| == |s| / 2
  {
    if s != [] {
      var hi, lo := s[0], s[1];
      HexDigitOfValue(hi);
      HexDigitOfValue(lo);
      ToHexFromHex(s[2..]);
      assert FromHex(s) == [16 * HexValue(hi) + HexValue(lo)] + FromHex(s[2..]);
      assert FromHex(s)[1..] == FromHex(s[2..]);
      assert s == [hi, lo] + s[2..];
    }
  }

  lemma DigestHexIsHex64(d: Digest)
    ensures IsHex64(ToHex(d))
  {
    ToHexIsLowerHex(d);
  }

  // ── UTF-8 (RFC 3629) ─────────────────────────────────────────────

  /** The low six bits of a number, as a continuation byte. */
  function Continuation(n: nat): (b: Byte)
    ensures 0x80 <= b < 0xC0 && n == 64 * (n / 64) + (b - 0x80)
  {
    0x80 + n % 64
  }

  function EncodeChar(c: char): (bytes: seq<Byte>)
    ensures 1 <= |bytes| <= 4
  {
    var n := c as int;
    if n < 0x80 then [n]
    else if n < 0x800 then [0xC0 + n / 64, Continuation(n)]
    else if n < 0x10000 then [0xE0 + n / 64 / 64, Continuation(n / 64), Continuation(n)]
    else [0xF0 + n / 64 / 64 / 64, Continuation(n / 64 / 64), Continuation(n / 64), Continuation(n)]
  }

  /** `Buffer.from(s, 'utf8')`. */
  function Utf8(s: string): seq<Byte> {
    if s == "" then [] else EncodeChar(s[0]) + Utf8(s[1..])
  }

  /** The code point a well-formed encoding spells. */
  function DecodeChar(b: seq<int>): int
    requires 1 <= |b| <= 4
  {
    if |b| == 1 then b[0]
    else if |b| == 2 then 64 * (b[0] - 0xC0) + (b[1] - 0x80)
    else if |b| == 3 then 64 * (64 * (b[0] - 0xE0) + (b[1] - 0x80)) + (b[2] - 0x80)
    else 64 * (64 * (64 * (b[0] - 0xF0) + (b[1] - 0x80)) + (b[2] - 0x80)) + (b[3] - 0x80)
  }

  lemma DecodeEncodeChar(c: char)
    ensures DecodeChar(EncodeChar(c)) == c as int
  {
  }

  /** The length the first byte announces. */
  function AnnouncedLength(first: Byte): nat {
    if first < 0x80 then 1 else if first < 0xE0 then 2 else if first < 0xF0 then 3 else 4
  }

  lemma FirstByteAnnounces(c: char)
    ensures |EncodeChar(c)| == AnnouncedLength(EncodeChar(c)[0])
  {
  }

  lemma SameHeads(a: seq<Byte>, x: seq<Byte>, b: seq<Byte>, y: seq<Byte>)
    requires a + x == b + y && |a| == |b|
    ensures a == b && x == y
  {
    assert a == (a + x)[..|a|] && b == (b + y)[..|b|];
    assert x == (a + x)[|a|..] && y == (b + y)[|b|..];
  }

  /** The first byte fixes the length of a character's encoding, so the encoding is prefix-free. */
  lemma EncodeCharPrefixFree(a: char, x: seq<Byte>, b: char, y: seq<Byte>)
    requires EncodeChar(a) + x == EncodeChar(b) + y
    ensures a == b && x == y
  {
    var ea, eb := EncodeChar(a), EncodeChar(b);
    assert (ea + x)[0] == ea[0] && (eb + y)[0] == eb[0];
    FirstByteAnnounces(a);
    FirstByteAnnounces(b);
    SameHeads(ea, x, eb, y);
    DecodeEncodeChar(a);
    DecodeEncodeChar(b);
  }

  /** Distinct texts have distinct UTF-8 bytes. */
  lemma {:induction false} Utf8Injective(a: string, b: string)
    requires Utf8(a) == Utf8(b)
    ensures a == b
  {
    if a != "" && b != "" {
      EncodeCharPrefixFree(a[0], Utf8(a[1..]), b[0], Utf8(b[1..]));
      Utf8Injective(a[1..], b[1..]);
      assert a == [a[0]] + a[1..] && b == [b[0]] + b[1..];
    }
  }
}

/** JavaScript's notion of white space and line ends, on strings of Unicode scalar values. */
module Text {
  /** What `trim` removes and `\s` matches: ECMA-262 WhiteSpace and LineTerminator. */
  predicate IsSpace(c: char) {
    || '\t' <= c <= '\r' || c == ' ' || c == '\U{A0}' || c == '\U{1680}'
    || '\U{2000}' <= c <= '\U{200A}' || c == '\U{2028}' || c == '\U{2029}' || c == '\U{202F}'
    || c == '\U{205F}' || c == '\U{3000}' || c == '\U{FEFF}'
  }

  /** `!s.trim()`. */
  predicate IsBlank(s: string) {
    forall i :: 0 <= i < |s| ==> IsSpace(s[i])
  }

  /** `s.replace(/[\r\n]+$/, '')`. */
  function StripEol(s: string): (r: string)
    ensures r <= s
  {
    if |s| > 0 && (s[|s| - 1] == '\r' || s[|s| - 1] == '\n') then StripEol(s[..|s| - 1]) else s
  }
}
