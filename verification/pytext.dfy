/**
 * The Python built-ins on text and bytes that the download engine leans on:
 * byte strings, `bytes.find`, `bytes.rfind`, slicing with Python's index
 * rules, `str` of an integer, `int` of a digit string and `str.replace`
 * of the thousands separator.
 */
module PyText {
  import opened Outcomes

  /** One element of a Python `bytes` value. */
  newtype byte = x: int | 0 <= x < 256

  /** `pat` occurs in `v` starting at index `i`. */
  predicate OccursAt<T(==)>(v: seq<T>, pat: seq<T>, i: int)
  {
    0 <= i && i + |pat| <= |v| && v[i..i + |pat|] == pat
  }

  /** The lowest index at or after `i` where `pat` occurs in `v`, or -1. */
  function FindFrom(v: seq<byte>, pat: seq<byte>, i: nat): (r: int)
    ensures r == -1 || (i <= r && OccursAt(v, pat, r))
    ensures forall j :: i <= j && (r == -1 || j < r) ==> !OccursAt(v, pat, j)
    decreases |v| - i
  {
    if i + |pat| > |v| then -1
    else if v[i..i + |pat|] == pat then i
    else FindFrom(v, pat, i + 1)
  }

  /** Python's `v.find(pat)`: the lowest index where `pat` occurs, or -1. */
  function Find(v: seq<byte>, pat: seq<byte>): (r: int)
    ensures r == -1 || OccursAt(v, pat, r)
    ensures forall j :: 0 <= j && (r == -1 || j < r) ==> !OccursAt(v, pat, j)
  {
    FindFrom(v, pat, 0)
  }

  /** The highest index at or below `i` where `pat` occurs in `v`, or -1. */
  function RFindBelow(v: seq<byte>, pat: seq<byte>, i: int): (r: int)
    ensures r == -1 || (r <= i && OccursAt(v, pat, r))
    ensures forall j :: r < j <= i ==> !OccursAt(v, pat, j)
    decreases i + 1
  {
    if i < 0 then -1
    else if OccursAt(v, pat, i) then i
    else RFindBelow(v, pat, i - 1)
  }

  /** Python's `v.rfind(pat)`: the highest index where `pat` occurs, or -1. */
  function RFind(v: seq<byte>, pat: seq<byte>): (r: int)
    ensures r == -1 || OccursAt(v, pat, r)
    ensures forall j :: r < j ==> !OccursAt(v, pat, j)
  {
    RFindBelow(v, pat, |v| - |pat|)
  }

  /**
   * How Python turns a slice bound into a position of a sequence of length
   * `n`: a negative bound counts from the end, and the result is clamped.
   */
  function SliceBound(i: int, n: nat): (k: nat)
    ensures 0 <= i <= n ==> k == i
    ensures i > n ==> k == n
    ensures i < 0 && 0 <= i + n ==> k == i + n
    ensures i + n < 0 ==> k == 0
  {
    if i < 0 then (if i + n < 0 then 0 else i + n)
    else if i > n then n
    else i
  }

  /** Python's `v[i:j]`; empty when the normalised bounds cross. */
  function Slice<T>(v: seq<T>, i: int, j: int): (r: seq<T>)
    ensures |r| <= |v|
    ensures var lo, hi := SliceBound(i, |v|), SliceBound(j, |v|);
      (lo < hi ==> r == v[lo..hi]) && (hi <= lo ==> r == [])
  {
    var lo, hi := SliceBound(i, |v|), SliceBound(j, |v|);
    if lo < hi then v[lo..hi] else []
  }

  predicate IsDigit(c: char)
  {
    '0' <= c <= '9'
  }

  predicate AllDigits(s: string)
  {
    forall i :: 0 <= i < |s| ==> IsDigit(s[i])
  }

  function DigitChar(d: nat): (c: char)
    requires d < 10
    ensures IsDigit(c) && c as int - '0' as int == d
  {
    ('0' as int + d) as char
  }

  /** Decimal digits of `n`, most significant first, without leading zeros. */
  function NatToString(n: nat): (s: string)
    ensures s != [] && AllDigits(s)
    ensures s[0] == '0' ==> s == "0"
  {
    if n < 10 then [DigitChar(n)] else NatToString(n / 10) + [DigitChar(n % 10)]
  }

  /**
   * Python's `str(n)` for an integer: a minus sign exactly when `n` is
   * negative, then the decimal digits of its magnitude, which read back as
   * that magnitude, with no leading zero.
   */
  function IntToString(n: int): (s: string)
    ensures s != [] && (s[0] == '-' <==> n < 0)
    ensures forall i :: 0 <= i < |s| ==> IsDigit(s[i]) || s[i] == '-'
    ensures n >= 0 ==> AllDigits(s) && DecimalValue(s) == n
    ensures n < 0 ==> AllDigits(s[1..]) && DecimalValue(s[1..]) == -n
    ensures n >= 0 && s[0] == '0' ==> s == "0"
    ensures n < 0 ==> s[1] != '0'
  {
    if n < 0 then
      DecimalRoundTrip(-n);
      var digits := NatToString(-n);
      assert ("-" + digits)[1..] == digits;
      "-" + digits
    else
      DecimalRoundTrip(n);
      NatToString(n)
  }

  /** The number a string of decimal digits denotes. */
  function DecimalValue(s: string): nat
    requires AllDigits(s)
  {
    if s == [] then 0
    else 10 * DecimalValue(s[..|s| - 1]) + (s[|s| - 1] as int - '0' as int)
  }

  /** Python's `int(s)` on a string of decimal digits: `None` is the `ValueError` of `int('')`. */
  function ParseInt(s: string): (r: Option<nat>)
    requires AllDigits(s)
    ensures r.None? <==> s == []
  {
    if s == [] then None else Some(DecimalValue(s))
  }

  lemma {:induction false} DecimalRoundTrip(n: nat)
    ensures DecimalValue(NatToString(n)) == n
  {
    if n >= 10 {
      var s := NatToString(n);
      assert s[..|s| - 1] == NatToString(n / 10);
      DecimalRoundTrip(n / 10);
    }
  }

  /** Python's `s.replace(',', '')`. */
  function RemoveCommas(s: string): (r: string)
    ensures ',' !in r
    ensures |r| <= |s|
  {
    if s == [] then []
    else (if s[0] == ',' then [] else [s[0]]) + RemoveCommas(s[1..])
  }

  /** Every character left is one of the input's. */
  lemma {:induction false} RemoveCommasKeeps(s: string)
    ensures forall i :: 0 <= i < |RemoveCommas(s)| ==> RemoveCommas(s)[i] in s
  {
    if s != [] {
      RemoveCommasKeeps(s[1..]);
      var rest := RemoveCommas(s[1..]);
      var head := if s[0] == ',' then [] else [s[0]];
      forall i | 0 <= i < |head + rest|
        ensures (head + rest)[i] in s
      {
        if i < |head| {
          assert (head + rest)[i] == s[0];
        } else {
          assert (head + rest)[i] == rest[i - |head|];
          assert rest[i - |head|] in s[1..];
        }
      }
    }
  }

  lemma {:induction false} RemoveCommasAppend(a: string, b: string)
    ensures RemoveCommas(a + b) == RemoveCommas(a) + RemoveCommas(b)
  {
    if a != [] {
      assert (a + b)[0] == a[0] && (a + b)[1..] == a[1..] + b;
      RemoveCommasAppend(a[1..], b);
    } else {
      assert a + b == b;
    }
  }

  /**
   * A digit string with a comma between every group of three digits
   * counted from the right, the way the catalogue prints result counts
   * ("1,234").
   */
  function GroupThousands(s: string): (r: string)
    decreases |s|
  {
    if |s| <= 3 then s else GroupThousands(s[..|s| - 3]) + "," + s[|s| - 3..]
  }

  /** Dropping the separators recovers the digits the grouping started from. */
  lemma {:induction false} UngroupThousands(s: string)
    requires ',' !in s
    ensures RemoveCommas(GroupThousands(s)) == s
    decreases |s|
  {
    if |s| > 3 {
      var head, tail := s[..|s| - 3], s[|s| - 3..];
      NoCommaSplit(s, |s| - 3);
      UngroupThousands(head);
      UngroupStep(GroupThousands(head), head, tail);
      assert head + tail == s;
    } else {
      RemoveCommasNone(s);
    }
  }

  /** One separator and a comma-free group of digits after it. */
  lemma UngroupStep(g: string, head: string, tail: string)
    requires RemoveCommas(g) == head && ',' !in tail
    ensures RemoveCommas(g + "," + tail) == head + tail
  {
    var comma := ",";
    calc {
      RemoveCommas(g + comma + tail);
      == { RemoveCommasAppend(g + comma, tail); }
      RemoveCommas(g + comma) + RemoveCommas(tail);
      == { RemoveCommasAppend(g, comma); RemoveCommasNone(tail); }
      RemoveCommas(g) + RemoveCommas(comma) + tail;
      == { assert RemoveCommas(comma) == []; }
      head + [] + tail;
      == { assert head + [] == head; }
      head + tail;
    }
  }

  lemma NoCommaSplit(s: string, k: nat)
    requires ',' !in s && k <= |s|
    ensures ',' !in s[..k] && ',' !in s[k..]
  {
    assert s == s[..k] + s[k..];
  }

  lemma {:induction false} RemoveCommasNone(s: string)
    requires ',' !in s
    ensures RemoveCommas(s) == s
  {
    if s != [] {
      assert ',' !in s[1..] by {
        assert forall i :: 0 <= i < |s[1..]| ==> s[1..][i] == s[i + 1];
      }
      RemoveCommasNone(s[1..]);
    }
  }
}
