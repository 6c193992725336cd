/**
 * `urllib.parse.quote` with its default arguments (`safe='/'`, UTF-8,
 * strict errors): the percent-encoding of section 2.1 of RFC 3986 applied to
 * the UTF-8 bytes of a string, leaving the unreserved characters of section
 * 2.3 and `/` as they are.  `~` is kept, as `quote` does from Python 3.7
 * on (earlier versions wrote `%7E`).  `PercentDecode` is the decoding a receiving
 * server applies, and is the partner every property here is stated against.
 */
module Quote {
  import opened Outcomes
  import opened PyText

  /** The unreserved characters: letters, digits and `_.-~`. */
  predicate IsUnreserved(c: char)
  {
    ('A' <= c <= 'Z') || ('a' <= c <= 'z') || ('0' <= c <= '9') || c == '_' || c == '.' || c == '-' || c == '~'
  }

  /** What `quote` leaves unescaped: the unreserved characters plus its default `safe='/'`. */
  predicate IsSafe(c: char)
  {
    IsUnreserved(c) || c == '/'
  }

  /** The UTF-8 encoding of one Unicode scalar value. */
  function Utf8(c: char): (r: seq<byte>)
    ensures 1 <= |r| <= 4
    ensures |r| == 1 <==> c as int < 0x80
    ensures |r| == 2 <==> 0x80 <= c as int < 0x800
    ensures |r| == 3 <==> 0x800 <= c as int < 0x10000
    ensures |r| == 4 <==> 0x10000 <= c as int
    ensures |r| == 1 ==> r[0] as int == c as int
    ensures |r| > 1 ==> forall i :: 0 <= i < |r| ==> r[i] >= 0x80
    ensures |r| == 2 ==> 0xC0 <= r[0] < 0xE0
    ensures |r| == 3 ==> 0xE0 <= r[0] < 0xF0
    ensures |r| == 4 ==> 0xF0 <= r[0] < 0xF8
    ensures forall i :: 1 <= i < |r| ==> 0x80 <= r[i] < 0xC0
  {
    var n := c as int;
    if n < 0x80 then [n as byte]
    else if n < 0x800 then [(0xC0 + n / 64) as byte, (0x80 + n % 64) as byte]
    else if n < 0x10000 then
      [(0xE0 + n / 4096) as byte, (0x80 + n / 64 % 64) as byte, (0x80 + n % 64) as byte]
    else
      [(0xF0 + n / 0x40000) as byte, (0x80 + n / 4096 % 64) as byte,
       (0x80 + n / 64 % 64) as byte, (0x80 + n % 64) as byte]
  }

  /**
   * The scalar value a well-formed one- to four-byte UTF-8 sequence
   * encodes: the payload bits of the lead byte, then six bits per
   * continuation byte.
   */
  function Utf8Value(r: seq<byte>): int
    requires 1 <= |r| <= 4
  {
    if |r| == 1 then r[0] as int
    else if |r| == 2 then (r[0] as int - 0xC0) * 64 + (r[1] as int - 0x80)
    else if |r| == 3 then (r[0] as int - 0xE0) * 4096 + (r[1] as int - 0x80) * 64 + (r[2] as int - 0x80)
    else (r[0] as int - 0xF0) * 0x40000 + (r[1] as int - 0x80) * 4096 + (r[2] as int - 0x80) * 64 + (r[3] as int - 0x80)
  }

  /** Decoding the bytes of one character gives back that character. */
  lemma Utf8RoundTrip(c: char)
    ensures Utf8Value(Utf8(c)) == c as int
  {
    var n := c as int;
    var a := n / 64;
    var b := a / 64;
    assert n == a * 64 + n % 64;
    assert a == b * 64 + a % 64;
    if n >= 0x10000 {
      assert n / 4096 == b;
      assert n / 0x40000 == b / 64;
      assert b == b / 64 * 64 + b % 64;
    } else if n >= 0x800 {
      assert n / 4096 == b;
    }
  }

  /** Distinct characters have distinct encodings. */
  lemma Utf8Injective(c: char, d: char)
    requires Utf8(c) == Utf8(d)
    ensures c == d
  {
    Utf8RoundTrip(c);
    Utf8RoundTrip(d);
  }

  function Utf8Encode(s: string): (r: seq<byte>)
    ensures |r| >= |s|
  {
    if s == [] then [] else Utf8(s[0]) + Utf8Encode(s[1..])
  }

  /** Upper-case hexadecimal digit, as `quote` writes escapes. */
  function HexDigit(d: nat): (c: char)
    requires d < 16
    ensures IsUnreserved(c) && IsUpperHex(c) && IsHex(c) && HexValue(c) == d
  {
    if d < 10 then ('0' as int + d) as char else ('A' as int + d - 10) as char
  }

  /** The hex digits `quote` writes: digits and upper-case letters. */
  predicate IsUpperHex(c: char)
  {
    ('0' <= c <= '9') || ('A' <= c <= 'F')
  }

  predicate IsHex(c: char)
  {
    ('0' <= c <= '9') || ('A' <= c <= 'F') || ('a' <= c <= 'f')
  }

  function HexValue(c: char): (d: nat)
    requires IsHex(c)
    ensures d < 16
  {
    if c <= '9' then c as int - '0' as int
    else if c <= 'F' then c as int - 'A' as int + 10
    else c as int - 'a' as int + 10
  }

  /** One byte as `quote` writes it: itself when safe, `%XY` otherwise. */
  function QuoteByte(b: byte): (r: string)
    ensures |r| == 1 <==> b < 0x80 && IsSafe(b as int as char)
    ensures |r| == 1 || |r| == 3
    ensures |r| == 1 ==> r == [b as int as char]
    ensures |r| == 3 ==>
      && r[0] == '%' && IsUpperHex(r[1]) && IsUpperHex(r[2])
      && 16 * HexValue(r[1]) + HexValue(r[2]) == b as int
    ensures forall i :: 0 <= i < |r| ==> IsSafe(r[i]) || r[i] == '%'
  {
    if b < 0x80 && IsSafe(b as int as char) then [b as int as char]
    else ['%', HexDigit(b as int / 16), HexDigit(b as int % 16)]
  }

  function QuoteBytes(bs: seq<byte>): (r: string)
    ensures |r| >= |bs|
    ensures forall i :: 0 <= i < |r| ==> IsSafe(r[i]) || r[i] == '%'
  {
    if bs == [] then [] else QuoteByte(bs[0]) + QuoteBytes(bs[1..])
  }

  /** `urllib.parse.quote(s)`. */
  function Quote(s: string): (r: string)
    ensures |r| >= |s|
    ensures forall i :: 0 <= i < |r| ==> IsSafe(r[i]) || r[i] == '%'
  {
    QuoteBytes(Utf8Encode(s))
  }

  /**
   * Percent-decoding to bytes: `%XY` is the byte with hexadecimal value XY,
   * any other ASCII character stands for itself; `None` for a truncated or
   * malformed escape or a non-ASCII character.
   */
  function PercentDecode(s: string): (r: Option<seq<byte>>)
    decreases |s|
  {
    if s == [] then Some([])
    else if s[0] == '%' then
      if |s| >= 3 && IsHex(s[1]) && IsHex(s[2]) then
        match PercentDecode(s[3..])
        case None => None
        case Some(rest) => Some([(16 * HexValue(s[1]) + HexValue(s[2])) as byte] + rest)
      else None
    else if s[0] as int < 0x80 then
      match PercentDecode(s[1..])
      case None => None
      case Some(rest) => Some([s[0] as int as byte] + rest)
    else None
  }

  lemma DecodeQuotedByte(b: byte, rest: string)
    ensures PercentDecode(QuoteByte(b) + rest) ==
      match PercentDecode(rest)
      case None => None
      case Some(t) => Some([b] + t)
  {
    var s := QuoteByte(b) + rest;
    if b < 0x80 && IsSafe(b as int as char) {
      assert s[1..] == rest;
    } else {
      assert s[3..] == rest;
      assert HexValue(s[1]) == b as int / 16;
      assert HexValue(s[2]) == b as int % 16;
    }
  }

  /** The decoder undoes the encoder, byte for byte. */
  lemma {:induction false} DecodeQuoteBytes(bs: seq<byte>)
    ensures PercentDecode(QuoteBytes(bs)) == Some(bs)
  {
    if bs != [] {
      DecodeQuoteBytes(bs[1..]);
      DecodeQuotedByte(bs[0], QuoteBytes(bs[1..]));
      assert [bs[0]] + bs[1..] == bs;
    }
  }

  /** A server decoding a quoted string receives exactly its UTF-8 bytes. */
  lemma DecodeQuote(s: string)
    ensures PercentDecode(Quote(s)) == Some(Utf8Encode(s))
  {
    DecodeQuoteBytes(Utf8Encode(s));
  }

  lemma {:induction false} QuoteBytesAppend(a: seq<byte>, b: seq<byte>)
    ensures QuoteBytes(a + b) == QuoteBytes(a) + QuoteBytes(b)
  {
    if a == [] {
      assert a + b == b;
    } else {
      assert (a + b)[0] == a[0] && (a + b)[1..] == a[1..] + b;
      QuoteBytesAppend(a[1..], b);
    }
  }

  /** Each character costs one output character when safe, at least three otherwise. */
  lemma QuoteChar(c: char)
    ensures IsSafe(c) ==> QuoteBytes(Utf8(c)) == [c]
    ensures !IsSafe(c) ==> |QuoteBytes(Utf8(c))| >= 3 && QuoteBytes(Utf8(c))[0] == '%'
  {
    var u := Utf8(c);
    assert QuoteBytes(u) == QuoteByte(u[0]) + QuoteBytes(u[1..]);
    if c as int >= 0x80 {
      assert u[0] >= 0x80;
    }
  }

  lemma QuoteCons(s: string)
    requires s != []
    ensures Quote(s) == QuoteBytes(Utf8(s[0])) + Quote(s[1..])
  {
    QuoteBytesAppend(Utf8(s[0]), Utf8Encode(s[1..]));
  }

  /** `quote` of a non-empty string: the quoted first character, then the quoted rest. */
  lemma QuoteSplit(s: string) returns (head: string)
    requires s != []
    ensures Quote(s) == head + Quote(s[1..])
    ensures IsSafe(s[0]) ==> head == [s[0]]
    ensures !IsSafe(s[0]) ==> |head| >= 3 && head[0] == '%'
  {
    QuoteCons(s);
    QuoteChar(s[0]);
    head := QuoteBytes(Utf8(s[0]));
  }

  /**
   * `quote` changes a string exactly when the string holds a character
   * outside the safe set; in particular an already percent-encoded query
   * (which contains `%`) is encoded a second time.
   */
  lemma {:induction false} QuoteFixpoint(s: string)
    ensures Quote(s) == s <==> forall i :: 0 <= i < |s| ==> IsSafe(s[i])
  {
    if s != [] {
      var head := QuoteSplit(s);
      QuoteFixpoint(s[1..]);
      FixpointStep(s[0], head, s[1..], Quote(s[1..]));
      assert s == [s[0]] + s[1..];
    }
  }

  /** The inductive step of `QuoteFixpoint`, on the pieces `QuoteSplit` yields. */
  lemma FixpointStep(c: char, head: string, rest: string, quotedRest: string)
    requires IsSafe(c) ==> head == [c]
    requires !IsSafe(c) ==> |head| >= 3
    requires |quotedRest| >= |rest|
    requires quotedRest == rest <==> forall i :: 0 <= i < |rest| ==> IsSafe(rest[i])
    ensures head + quotedRest == [c] + rest <==> forall i :: 0 <= i < |[c] + rest| ==> IsSafe(([c] + rest)[i])
  {
    var s := [c] + rest;
    assert s[1..] == rest;
    if IsSafe(c) {
      if head + quotedRest == s {
        assert quotedRest == rest;
      }
      assert (forall i :: 0 <= i < |s| ==> IsSafe(s[i])) <==>
             (forall i :: 0 <= i < |rest| ==> IsSafe(rest[i]));
    } else {
      assert !IsSafe(s[0]);
    }
  }

  /** Whenever `quote` has something to escape, its output holds a `%`. */
  lemma {:induction false} QuoteEscapes(s: string)
    requires exists i :: 0 <= i < |s| && !IsSafe(s[i])
    ensures '%' in Quote(s)
  {
    var head := QuoteSplit(s);
    if IsSafe(s[0]) {
      var i :| 0 <= i < |s| && !IsSafe(s[i]);
      assert !IsSafe(s[1..][i - 1]);
      QuoteEscapes(s[1..]);
    }
  }
}
