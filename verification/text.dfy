/** Bytes, and the handful of Python string primitives the add-on relies on:
    `str.strip()`, `str.startswith`, the `in` substring test, `str.lower()` on
    ASCII text, UTF-8 encoding of a `str` and ASCII decoding of bytes. */
module Text {
  import opened Wrappers
  import Seqs

  newtype byte = x: int | 0 <= x < 256

  /** The code points Python's `str.isspace()` accepts: the characters
      `str.strip()` with no argument removes. */
  const SPACES: set<char> := {
    '\t', '\n', '\U{0B}', '\U{0C}', '\r', '\U{1C}', '\U{1D}', '\U{1E}', '\U{1F}', ' ',
    '\U{85}', '\U{A0}', '\U{1680}',
    '\U{2000}', '\U{2001}', '\U{2002}', '\U{2003}', '\U{2004}', '\U{2005}',
    '\U{2006}', '\U{2007}', '\U{2008}', '\U{2009}', '\U{200A}',
    '\U{2028}', '\U{2029}', '\U{202F}', '\U{205F}', '\U{3000}'}

  predicate IsSpace(c: char) {
    c in SPACES
  }

  /** `r` is `s` with some leading whitespace removed. */
  predicate CutAtStart(s: string, r: string) {
    && |r| <= |s| && r == s[|s| - |r|..]
    && forall i | 0 <= i < |s| - |r| :: IsSpace(s[i])
  }

  /** `r` is `s` with some trailing whitespace removed. */
  predicate CutAtEnd(s: string, r: string) {
    && |r| <= |s| && r == s[..|r|]
    && forall i | |r| <= i < |s| :: IsSpace(s[i])
  }

  /** `s.lstrip()`: the longest suffix of `s` that does not start with whitespace. */
  function StripStart(s: string): (r: string)
    ensures CutAtStart(s, r)
    ensures r == [] || !IsSpace(r[0])
  {
    if |s| > 0 && IsSpace(s[0]) then StripStart(s[1..]) else s
  }

  /** `s.rstrip()`: the longest prefix of `s` that does not end with whitespace. */
  function StripEnd(s: string): (r: string)
    ensures CutAtEnd(s, r)
    ensures r == [] || !IsSpace(r[|r| - 1])
  {
    if |s| > 0 && IsSpace(s[|s| - 1]) then StripEnd(s[..|s| - 1]) else s
  }

  /** No whitespace at either end. */
  predicate IsStripped(s: string) {
    s == [] || (!IsSpace(s[0]) && !IsSpace(s[|s| - 1]))
  }

  /** `r` is the slice of `s` starting at `i`, and everything of `s` around it is whitespace. */
  predicate SpaceAround(s: string, r: string, i: int) {
    && 0 <= i <= |s| - |r|
    && r == s[i..i + |r|]
    && (forall k | 0 <= k < i :: IsSpace(s[k]))
    && (forall k | i + |r| <= k < |s| :: IsSpace(s[k]))
  }

  /** Right-stripping the left-stripped text leaves no whitespace at either end. */
  lemma StripBothEndsStripped(s: string)
    ensures IsStripped(StripEnd(StripStart(s)))
  {
    var t := StripStart(s);
    var r := StripEnd(t);
    if r != [] {
      assert r[0] == t[0];
    }
  }

  /** Whitespace from position `m` of the suffix at `i` is whitespace from
      position `i + m` of the whole. */
  lemma SpaceInSuffix(s: string, t: string, i: nat, m: nat)
    requires i <= |s| && t == s[i..]
    requires forall k | m <= k < |t| :: IsSpace(t[k])
    ensures forall k | i + m <= k < |s| :: IsSpace(s[k])
  {
    forall k | i + m <= k < |s|
      ensures IsSpace(s[k])
    {
      assert t[k - i] == s[k];
    }
  }

  /** Cutting leading whitespace off `s` to get `t`, then trailing
      whitespace off `t` to get `r`, leaves `r` with only whitespace around it. */
  lemma SpaceAroundOfParts(s: string, t: string, r: string)
    requires CutAtStart(s, t) && CutAtEnd(t, r)
    ensures SpaceAround(s, r, |s| - |t|)
  {
    Seqs.PrefixOfSuffix(s, t, r, |s| - |t|);
    SpaceInSuffix(s, t, |s| - |t|, |r|);
  }

  /** Right-stripping the left-stripped text leaves a stripped slice of `s`
      with only whitespace around it. */
  lemma StripBothEnds(s: string)
    ensures var t := StripStart(s);
      IsStripped(StripEnd(t)) && SpaceAround(s, StripEnd(t), |s| - |t|)
  {
    StripBothEndsStripped(s);
    SpaceAroundOfParts(s, StripStart(s), StripEnd(StripStart(s)));
  }

  /** `s.strip()`: `s` with the whitespace at both ends removed. */
  function Strip(s: string): (r: string)
    ensures IsStripped(r)
    ensures exists i :: SpaceAround(s, r, i)
  {
    StripBothEnds(s);
    StripEnd(StripStart(s))
  }

  /** Stripping leaves text without surrounding whitespace as it is. */
  lemma StripKeepsStripped(s: string)
    requires IsStripped(s)
    ensures Strip(s) == s
  {
    assert StripStart(s) == s;
  }

  /** Stripping twice is stripping once. */
  lemma StripIdempotent(s: string)
    ensures Strip(Strip(s)) == Strip(s)
  {
    StripKeepsStripped(Strip(s));
  }

  /** Python's `s.startswith(prefix)`. */
  predicate StartsWith(s: string, prefix: string) {
    |prefix| <= |s| && s[..|prefix|] == prefix
  }

  /** Python's `sub in s`. */
  predicate Contains(s: string, sub: string)
    decreases |s|
  {
    StartsWith(s, sub) || (|s| > 0 && Contains(s[1..], sub))
  }

  /** `sub` occurs in `s` starting at position `i`. */
  predicate OccursAt(s: string, sub: string, i: int) {
    0 <= i <= |s| - |sub| && s[i..i + |sub|] == sub
  }

  /** `Contains` holds exactly when `sub` occurs at some position of `s`. */
  lemma {:induction false} ContainsAt(s: string, sub: string)
    ensures Contains(s, sub) <==> exists i :: OccursAt(s, sub, i)
    decreases |s|
  {
    if StartsWith(s, sub) {
      assert OccursAt(s, sub, 0);
    } else if |s| > 0 {
      ContainsAt(s[1..], sub);
      if Contains(s[1..], sub) {
        var i :| OccursAt(s[1..], sub, i);
        assert s[i + 1..i + 1 + |sub|] == s[1..][i..i + |sub|];
        assert OccursAt(s, sub, i + 1);
      }
      if exists i :: OccursAt(s, sub, i) {
        var i :| OccursAt(s, sub, i);
        assert i != 0;
        assert s[1..][i - 1..i - 1 + |sub|] == s[i..i + |sub|];
        assert OccursAt(s[1..], sub, i - 1);
      }
    }
  }

  /** `str.lower()` restricted to ASCII letters. */
  function AsciiLower(s: string): (r: string)
    ensures |r| == |s|
    ensures forall i | 0 <= i < |s| :: !('A' <= r[i] <= 'Z')
    ensures forall i | 0 <= i < |s| :: r[i] == s[i] || ('A' <= s[i] <= 'Z' && r[i] as int == s[i] as int + 32)
  {
    seq(|s|, i requires 0 <= i < |s| => if 'A' <= s[i] <= 'Z' then (s[i] as int + 32) as char else s[i])
  }

  /** Number of bytes of a UTF-8 sequence, read from its first byte. */
  function SequenceLength(lead: byte): nat {
    if lead < 0x80 then 1 else if lead < 0xE0 then 2 else if lead < 0xF0 then 3 else 4
  }

  predicate IsContinuation(b: byte) {
    0x80 <= b < 0xC0
  }

  /** The UTF-8 encoding of one code point, as `str.encode("utf-8")` produces it. */
  function EncodeChar(c: char): (r: seq<byte>)
    ensures 1 <= |r| <= 4
    ensures |r| == 1 <==> c as int < 0x80
    ensures |r| == (if c as int < 0x80 then 1 else if c as int < 0x800 then 2
                    else if c as int < 0x10000 then 3 else 4)
    ensures |r| == 1 ==> r[0] as int == c as int
    ensures !IsContinuation(r[0]) && SequenceLength(r[0]) == |r|
    ensures forall i | 1 <= i < |r| :: IsContinuation(r[i])
  {
    var n := c as int;
    var q1 := n / 64;
    var q2 := q1 / 64;
    if n < 0x80 then [n as byte]
    else if n < 0x800 then [(0xC0 + q1) as byte, (0x80 + n % 64) as byte]
    else if n < 0x10000 then
      [(0xE0 + q2) as byte, (0x80 + q1 % 64) as byte, (0x80 + n % 64) as byte]
    else
      [(0xF0 + q2 / 64) as byte, (0x80 + q2 % 64) as byte,
       (0x80 + q1 % 64) as byte, (0x80 + n % 64) as byte]
  }

  /** The code point a well-formed UTF-8 sequence stands for. */
  function DecodeSequence(bs: seq<byte>): int
    requires 1 <= |bs| <= 4
  {
    if |bs| == 1 then bs[0] as int
    else if |bs| == 2 then (bs[0] as int - 0xC0) * 64 + (bs[1] as int - 0x80)
    else if |bs| == 3 then
      ((bs[0] as int - 0xE0) * 64 + (bs[1] as int - 0x80)) * 64 + (bs[2] as int - 0x80)
    else
      (((bs[0] as int - 0xF0) * 64 + (bs[1] as int - 0x80)) * 64
       + (bs[2] as int - 0x80)) * 64 + (bs[3] as int - 0x80)
  }

  /** Decoding the encoding of a code point gives the code point back. */
  lemma EncodeCharRoundTrip(c: char)
    ensures DecodeSequence(EncodeChar(c)) == c as int
  {
  }

  /** A base-64 digit split is unique. */
  lemma DigitsUnique(n: int, hi: int, lo: int)
    requires 0 <= lo < 64 && n == hi * 64 + lo
    ensures hi == n / 64 && lo == n % 64
  {
  }

  /** `EncodeChar` is the only well-formed sequence of the shortest length
      that decodes to `c`: the encoding has no overlong alternative. */
  lemma EncodeCharUnique(c: char, bs: seq<byte>)
    requires |bs| == |EncodeChar(c)|
    requires !IsContinuation(bs[0]) && SequenceLength(bs[0]) == |bs|
    requires forall i | 1 <= i < |bs| :: IsContinuation(bs[i])
    requires DecodeSequence(bs) == c as int
    ensures bs == EncodeChar(c)
  {
    var n := c as int;
    var r := EncodeChar(c);
    if |bs| == 1 {
      assert bs[0] == r[0];
    } else if |bs| == 2 {
      DigitsUnique(n, bs[0] as int - 0xC0, bs[1] as int - 0x80);
      assert bs[0] == r[0] && bs[1] == r[1];
    } else if |bs| == 3 {
      var q1 := (bs[0] as int - 0xE0) * 64 + (bs[1] as int - 0x80);
      DigitsUnique(n, q1, bs[2] as int - 0x80);
      DigitsUnique(q1, bs[0] as int - 0xE0, bs[1] as int - 0x80);
      assert bs[0] == r[0] && bs[1] == r[1] && bs[2] == r[2];
    } else {
      var q2 := (bs[0] as int - 0xF0) * 64 + (bs[1] as int - 0x80);
      var q1 := q2 * 64 + (bs[2] as int - 0x80);
      DigitsUnique(n, q1, bs[3] as int - 0x80);
      DigitsUnique(q1, q2, bs[2] as int - 0x80);
      DigitsUnique(q2, bs[0] as int - 0xF0, bs[1] as int - 0x80);
      assert bs[0] == r[0] && bs[1] == r[1] && bs[2] == r[2] && bs[3] == r[3];
    }
  }

  /** `s.encode("utf-8")`. */
  function Encode(s: string): (r: seq<byte>)
    ensures |r| >= |s|
  {
    if s == [] then [] else EncodeChar(s[0]) + Encode(s[1..])
  }

  predicate IsAscii(s: string) {
    forall i | 0 <= i < |s| :: s[i] as int < 0x80
  }

  /** An ASCII string encodes to one byte per character, each equal to its code. */
  lemma {:induction false} EncodeAscii(s: string)
    requires IsAscii(s)
    ensures |Encode(s)| == |s|
    ensures forall i | 0 <= i < |s| :: Encode(s)[i] as int == s[i] as int
  {
    if s != [] {
      EncodeAscii(s[1..]);
    }
  }

  /** `bs.decode("ascii")`: `None` when some byte is not ASCII (the decoder
      raises). */
  function DecodeAscii(bs: seq<byte>): Option<string> {
    if bs == [] then Some([])
    else if bs[0] >= 0x80 then None
    else
      match DecodeAscii(bs[1..])
      case None => None
      case Some(t) => Some([(bs[0] as int) as char] + t)
  }

  /** Decoding succeeds exactly on ASCII bytes, and encoding the text it
      gives returns those bytes. */
  lemma {:induction false} DecodeAsciiRoundTrip(bs: seq<byte>)
    ensures DecodeAscii(bs).Some? <==> forall i | 0 <= i < |bs| :: bs[i] < 0x80
    ensures DecodeAscii(bs).Some? ==> IsAscii(DecodeAscii(bs).value) && Encode(DecodeAscii(bs).value) == bs
  {
    if bs != [] {
      DecodeAsciiRoundTrip(bs[1..]);
      if bs[0] < 0x80 && DecodeAscii(bs[1..]).Some? {
        var t := DecodeAscii(bs[1..]).value;
        var s := [(bs[0] as int) as char] + t;
        assert s[1..] == t;
        assert EncodeChar(s[0]) == [bs[0]];
        assert bs == [bs[0]] + bs[1..];
      } else if bs[0] < 0x80 {
        var j :| 0 <= j < |bs[1..]| && bs[1..][j] >= 0x80;
        assert bs[j + 1] >= 0x80;
      }
    }
  }
}
