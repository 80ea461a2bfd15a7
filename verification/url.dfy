/** `urllib.parse.urlencode` with its default `quote_via=quote_plus`: each key
    and value is UTF-8 encoded, the unreserved characters of RFC 3986 (section
    2.3) are kept, a space becomes `+` and every other byte is percent-encoded
    with upper-case hex digits (section 2.1). */
module UrlEncoding {
  import opened Wrappers
  import opened Text

  /** ALPHA / DIGIT / "-" / "." / "_" / "~". */
  predicate IsUnreservedChar(c: char) {
    ('A' <= c <= 'Z') || ('a' <= c <= 'z') || ('0' <= c <= '9') || c == '-' || c == '.' || c == '_' || c == '~'
  }

  /** The characters an encoded key or value can contain. */
  predicate IsEncodedChar(c: char) {
    IsUnreservedChar(c) || c == '%' || c == '+'
  }

  function HexDigit(n: nat): (c: char)
    requires n < 16
    ensures IsUnreservedChar(c)
  {
    if n < 10 then ('0' as int + n) as char else ('A' as int + n - 10) as char
  }

  function HexValue(c: char): Option<nat> {
    if '0' <= c <= '9' then Some(c as int - '0' as int)
    else if 'A' <= c <= 'F' then Some(c as int - 'A' as int + 10)
    else if 'a' <= c <= 'f' then Some(c as int - 'a' as int + 10)
    else None
  }

  /** A hex digit as `quote_plus` writes it: upper case only. */
  predicate IsUpperHex(c: char) {
    ('0' <= c <= '9') || ('A' <= c <= 'F')
  }

  /** How `quote_plus` writes one byte of the UTF-8 text: an unreserved
      character as itself, a space as `+`, and anything else as `%` followed
      by two upper-case hex digits giving the byte's value. */
  function QuoteByte(b: byte): (r: string)
    ensures forall i | 0 <= i < |r| :: IsEncodedChar(r[i])
    ensures IsUnreservedChar((b as int) as char) ==> r == [(b as int) as char]
    ensures !IsUnreservedChar((b as int) as char) && b == 0x20 ==> r == "+"
    ensures !IsUnreservedChar((b as int) as char) && b != 0x20 ==>
      && |r| == 3 && r[0] == '%' && IsUpperHex(r[1]) && IsUpperHex(r[2])
      && HexValue(r[1]).Some? && HexValue(r[2]).Some?
      && HexValue(r[1]).value * 16 + HexValue(r[2]).value == b as nat
  {
    if IsUnreservedChar((b as int) as char) then [(b as int) as char]
    else if b == 0x20 then "+"
    else ['%', HexDigit(b as nat / 16), HexDigit(b as nat % 16)]
  }

  function QuoteBytes(bs: seq<byte>): (r: string)
    ensures forall i | 0 <= i < |r| :: IsEncodedChar(r[i])
  {
    if bs == [] then "" else QuoteByte(bs[0]) + QuoteBytes(bs[1..])
  }

  /** Quoting works byte by byte: the quoting of a concatenation is the
      concatenation of the quotings. */
  lemma {:induction false} QuoteBytesAppend(a: seq<byte>, b: seq<byte>)
    ensures QuoteBytes(a + b) == QuoteBytes(a) + QuoteBytes(b)
  {
    if a != [] {
      assert (a + b)[0] == a[0];
      assert (a + b)[1..] == a[1..] + b;
      QuoteBytesAppend(a[1..], b);
    } else {
      assert a + b == b;
    }
  }

  /** The three-character escape is the only one for a byte: two upper-case
      hex digits with the byte's value are exactly the ones `QuoteByte` writes. */
  lemma QuoteByteCanonical(b: byte, r: string)
    requires !IsUnreservedChar((b as int) as char) && b != 0x20
    requires |r| == 3 && r[0] == '%' && IsUpperHex(r[1]) && IsUpperHex(r[2])
    requires HexValue(r[1]).value * 16 + HexValue(r[2]).value == b as nat
    ensures r == QuoteByte(b)
  {
    var q := QuoteByte(b);
    var h1, h2 := HexValue(r[1]).value, HexValue(r[2]).value;
    assert h1 < 16 && h2 < 16;
    assert h1 == b as nat / 16 && h2 == b as nat % 16;
    assert r[1] == HexDigit(h1) && r[2] == HexDigit(h2);
    assert r[0] == q[0] && r[1] == q[1] && r[2] == q[2];
  }

  /** `quote_plus(s)`. */
  function QuotePlus(s: string): (r: string)
    ensures forall i | 0 <= i < |r| :: IsEncodedChar(r[i])
  {
    QuoteBytes(Encode(s))
  }

  /** A space is sent as `+`, and a slash, which `quote` would keep, is
      escaped as `%2F`. */
  lemma QuotePlusExamples()
    ensures QuotePlus("a b") == "a+b"
    ensures QuotePlus("a/b") == "a%2Fb"
  {
    assert Encode("a b") == [0x61 as byte, 0x20, 0x62];
    assert Encode("a/b") == [0x61 as byte, 0x2F, 0x62];
    assert QuoteBytes([0x62 as byte]) == "b";
    assert QuoteBytes([0x20 as byte, 0x62]) == "+b";
    assert QuoteBytes([0x2F as byte, 0x62]) == "%2Fb";
  }

  /** `urlencode(pairs)`: `key=value` items joined by `&`. */
  function Urlencode(pairs: seq<(string, string)>): string {
    if pairs == [] then ""
    else
      var item := QuotePlus(pairs[0].0) + "=" + QuotePlus(pairs[0].1);
      if |pairs| == 1 then item else item + "&" + Urlencode(pairs[1..])
  }

  /** `unquote_plus` to bytes, strict about what an encoder may produce. */
  function UnquotePlus(s: string): Option<seq<byte>>
    decreases |s|
  {
    if s == [] then Some([])
    else if s[0] == '+' then
      match UnquotePlus(s[1..]) case None => None case Some(rest) => Some([0x20 as byte] + rest)
    else if s[0] == '%' then
      if |s| < 3 || HexValue(s[1]).None? || HexValue(s[2]).None? then None
      else
        var b := (HexValue(s[1]).value * 16 + HexValue(s[2]).value) as byte;
        match UnquotePlus(s[3..]) case None => None case Some(rest) => Some([b] + rest)
    else if IsUnreservedChar(s[0]) then
      match UnquotePlus(s[1..]) case None => None case Some(rest) => Some([(s[0] as int) as byte] + rest)
    else None
  }

  lemma UnquoteByte(b: byte, rest: string)
    ensures UnquotePlus(QuoteByte(b) + rest) ==
      match UnquotePlus(rest) case None => None case Some(r) => Some([b] + r)
  {
    var q := QuoteByte(b);
    if IsUnreservedChar((b as int) as char) {
      assert (q + rest)[1..] == rest;
    } else if b == 0x20 {
      assert (q + rest)[1..] == rest;
    } else {
      assert (q + rest)[3..] == rest;
      assert HexValue(q[1]) == Some(b as nat / 16);
      assert HexValue(q[2]) == Some(b as nat % 16);
    }
  }

  /** Decoding an encoded byte string gives it back. */
  lemma {:induction false} UnquoteQuote(bs: seq<byte>)
    ensures UnquotePlus(QuoteBytes(bs)) == Some(bs)
  {
    if bs != [] {
      UnquoteQuote(bs[1..]);
      UnquoteByte(bs[0], QuoteBytes(bs[1..]));
      assert [bs[0]] + bs[1..] == bs;
    }
  }

  /** Text made only of unreserved characters is passed through unchanged. */
  lemma {:induction false} QuoteUnreserved(s: string)
    requires forall i | 0 <= i < |s| :: IsUnreservedChar(s[i])
    ensures QuotePlus(s) == s
  {
    if s != [] {
      QuoteUnreserved(s[1..]);
      var head := EncodeChar(s[0]);
      assert head == [(s[0] as int) as byte];
      assert Encode(s) == [head[0]] + Encode(s[1..]);
      assert ([head[0]] + Encode(s[1..]))[1..] == Encode(s[1..]);
      assert [s[0]] + s[1..] == s;
    }
  }

  /** A one-item query under a key that needs no quoting. */
  lemma PlainKeyQuery(key: string, value: string)
    requires forall i | 0 <= i < |key| :: IsUnreservedChar(key[i])
    ensures Urlencode([(key, value)]) == key + "=" + QuotePlus(value)
  {
    QuoteUnreserved(key);
  }

  /** No `=` and no `&`: text that cannot be mistaken for query syntax. */
  predicate NoSeparator(s: string) {
    forall j | 0 <= j < |s| :: s[j] != '=' && s[j] != '&'
  }

  lemma QuotedHasNoSeparator(s: string)
    ensures NoSeparator(QuotePlus(s))
  {
  }

  /** A one-item query reads back unambiguously: its only `=` separates the
      encoded key from the encoded value, it has no `&`, and each side decodes
      to the UTF-8 bytes it came from. */
  lemma SinglePairQuery(key: string, value: string)
    ensures var q := Urlencode([(key, value)]);
      var i := |QuotePlus(key)|;
      && q == q[..i] + "=" + q[i + 1..]
      && NoSeparator(q[..i]) && NoSeparator(q[i + 1..])
      && UnquotePlus(q[..i]) == Some(Encode(key))
      && UnquotePlus(q[i + 1..]) == Some(Encode(value))
  {
    var k := QuotePlus(key);
    var v := QuotePlus(value);
    var q := Urlencode([(key, value)]);
    assert q == k + "=" + v;
    assert q[..|k|] == k;
    assert q[|k| + 1..] == v;
    QuotedHasNoSeparator(key);
    QuotedHasNoSeparator(value);
    UnquoteQuote(Encode(key));
    UnquoteQuote(Encode(value));
  }
}
