/**
 * The preliminary search that tells `Tind.download` how many records to
 * expect.  The HTTP request and the HTML parsing are outside the model: the
 * response arrives as its status code, its transport error (if any), and the
 * text of each element of class `searchresultsboxheader` on the page.
 */
module Probe {
  import opened Outcomes
  import opened PyText

  datatype ProbeResponse = ProbeResponse(status: int, error: Option<string>, markers: seq<string>)

  /** The text around the count in `<span><strong>([0-9,]+)</strong> records found`. */
  const CountOpen := "<span><strong>"
  const CountClose := "</strong> records found"

  /** `details` of the `InternalError` raised when the page has other than three markers. */
  const UnexpectedFormat := "TIND results page was not in the expected format"

  predicate IsCountChar(c: char)
  {
    IsDigit(c) || c == ','
  }

  predicate AllCountChars(s: string)
  {
    forall i :: 0 <= i < |s| ==> IsCountChar(s[i])
  }

  /** The longest prefix of digits and commas: what the greedy `[0-9,]+` takes. */
  function CountRun(s: string): (r: string)
    ensures r <= s && AllCountChars(r)
    ensures |r| == |s| || !IsCountChar(s[|r|])
  {
    if s == [] || !IsCountChar(s[0]) then [] else [s[0]] + CountRun(s[1..])
  }

  /**
   * The count pattern matches at index `i` of `s`.  The group is always the
   * whole run of digits and commas, since the closing text starts with `<`.
   */
  predicate CountAt(s: string, i: int)
  {
    && 0 <= i <= |s|
    && CountOpen <= s[i..]
    && var g := CountRun(s[i + |CountOpen|..]);
       g != [] && CountClose <= s[i + |CountOpen| + |g|..]
  }

  function FirstCountFrom(s: string, i: nat): (r: int)
    ensures r == -1 || (i <= r && CountAt(s, r))
    ensures forall j :: i <= j && (r == -1 || j < r) ==> !CountAt(s, j)
    decreases |s| - i
  {
    if i > |s| then -1
    else if CountAt(s, i) then i
    else FirstCountFrom(s, i + 1)
  }

  /** `group(1)` of the leftmost match of the count pattern in `s`, if any. */
  function CountGroup(s: string): (r: Option<string>)
    ensures r.None? <==> forall j :: 0 <= j ==> !CountAt(s, j)
    ensures r.Some? ==> r.value != [] && AllCountChars(r.value)
  {
    var i := FirstCountFrom(s, 0);
    if i < 0 then None else Some(CountRun(s[i + |CountOpen|..]))
  }

  lemma DigitsOfCount(g: string)
    requires AllCountChars(g)
    ensures AllDigits(RemoveCommas(g))
  {
    var d := RemoveCommas(g);
    RemoveCommasKeeps(g);
    forall i | 0 <= i < |d|
      ensures IsDigit(d[i])
    {
      assert d[i] in g && d[i] != ',';
    }
  }

  /** How Python prints the error object in the `ServiceFailure` details. */
  function ErrorText(error: Option<string>): string
  {
    match error
    case None => "None"
    case Some(e) => e
  }

  /**
   * The number of records the search will produce, or the exception raised
   * while finding it out.  `Ok(0)` is the "0 records" early return.
   */
  function ProbeCount(resp: ProbeResponse): (r: Result<nat>)
    ensures resp.status > 300 <==> r.Err? && r.error.ServiceFailure?
    ensures resp.status <= 300 && resp.error.Some? <==> r.Err? && r.error.RequestError?
    ensures resp.status <= 300 && resp.error.None? && resp.markers == [] ==> r == Ok(0)
    ensures r == Err(IndexError) <==> resp.status <= 300 && resp.error.None? && |resp.markers| == 1
    ensures r.Ok? && resp.markers != [] ==>
      |resp.markers| >= 2 && CountGroup(resp.markers[1]).Some?
    ensures r.Err? && (r.error.InternalError? || r.error.UnboundLocalError?) <==>
      && resp.status <= 300 && resp.error.None? && |resp.markers| >= 2
      && CountGroup(resp.markers[1]).None?
    ensures r == Err(UnboundLocalError) ==> |resp.markers| == 3
    ensures r.Err? && r.error.InternalError? ==> |resp.markers| != 3
    ensures r == Err(ValueError) <==>
      && resp.status <= 300 && resp.error.None? && |resp.markers| >= 2
      && CountGroup(resp.markers[1]).Some? && RemoveCommas(CountGroup(resp.markers[1]).value) == []
    ensures
      && resp.status <= 300 && resp.error.None? && |resp.markers| >= 2
      && CountGroup(resp.markers[1]).Some? && RemoveCommas(CountGroup(resp.markers[1]).value) != []
      ==> r.Ok?
    ensures r.Ok? && resp.markers != [] ==>
      var digits := RemoveCommas(CountGroup(resp.markers[1]).value);
      AllDigits(digits) && r.value == DecimalValue(digits)
  {
    if resp.status > 300 then
      Err(ServiceFailure("exception connecting to tind.io: " + ErrorText(resp.error)))
    else if resp.error.Some? then
      Err(RequestError("exception: " + resp.error.value))
    else if resp.markers == [] then
      Ok(0)
    else if |resp.markers| < 2 then
      Err(IndexError)
    else
      match CountGroup(resp.markers[1])
      case None =>
        if |resp.markers| != 3 then Err(InternalError(UnexpectedFormat)) else Err(UnboundLocalError)
      case Some(g) =>
        DigitsOfCount(g);
        match ParseInt(RemoveCommas(g))
        case None => Err(ValueError)
        case Some(n) => Ok(n)
  }

  lemma GroupedDigits(s: string)
    requires AllDigits(s)
    ensures AllCountChars(GroupThousands(s))
    decreases |s|
  {
    if |s| > 3 {
      assert AllDigits(s[..|s| - 3]);
      GroupedDigits(s[..|s| - 3]);
    }
  }

  lemma {:induction false} CountRunStops(g: string, rest: string)
    requires AllCountChars(g) && rest != [] && !IsCountChar(rest[0])
    ensures CountRun(g + rest) == g
  {
    if g == [] {
      assert g + rest == rest;
    } else {
      assert (g + rest)[0] == g[0] && (g + rest)[1..] == g[1..] + rest;
      CountRunStops(g[1..], rest);
    }
  }

  /** The pattern's group, found in a marker text after a prefix holding no earlier match. */
  lemma CountGroupFinds(m: string, pre: string, g: string, post: string)
    requires g != [] && AllCountChars(g)
    requires m == pre + CountOpen + g + CountClose + post
    requires forall i :: 0 <= i < |pre| ==> !CountAt(m, i)
    ensures CountGroup(m) == Some(g)
  {
    Suffixes(pre, CountOpen, g, CountClose, post);
    assert CountClose[0] == '<';
    CountRunStops(g, CountClose + post);
    assert CountAt(m, |pre|);
    assert FirstCountFrom(m, 0) == |pre|;
  }

  lemma Suffixes<T>(pre: seq<T>, a: seq<T>, g: seq<T>, b: seq<T>, post: seq<T>)
    ensures var m := pre + a + g + b + post;
      && m[|pre|..] == a + g + b + post
      && m[|pre| + |a|..] == g + (b + post)
      && m[|pre| + |a| + |g|..] == b + post
  {
  }

  /** Reading back a count printed with thousands separators. */
  lemma ReadGroupedCount(n: nat)
    ensures var g := GroupThousands(NatToString(n));
      && g != [] && AllCountChars(g)
      && AllDigits(RemoveCommas(g))
      && ParseInt(RemoveCommas(g)) == Some(n)
  {
    var digits := NatToString(n);
    var g := GroupThousands(digits);
    GroupedDigits(digits);
    assert g != [] by {
      if |digits| > 3 { assert g == GroupThousands(digits[..|digits| - 3]) + "," + digits[|digits| - 3..]; }
    }
    assert ',' !in digits by { assert forall i :: 0 <= i < |digits| ==> IsDigit(digits[i]); }
    UngroupThousands(digits);
    DecimalRoundTrip(n);
  }

  /**
   * A count printed with thousands separators in the second marker
   * ("1,234 records found") is read back as the number itself, when no
   * earlier match of the pattern precedes it in that marker.
   */
  lemma ProbeReadsCount(resp: ProbeResponse, pre: string, n: nat, post: string)
    requires resp.status <= 300 && resp.error.None? && |resp.markers| >= 2
    requires resp.markers[1] == pre + CountOpen + GroupThousands(NatToString(n)) + CountClose + post
    requires forall i :: 0 <= i < |pre| ==> !CountAt(resp.markers[1], i)
    ensures ProbeCount(resp) == Ok(n)
  {
    ReadGroupedCount(n);
    CountGroupFinds(resp.markers[1], pre, GroupThousands(NatToString(n)), post);
  }
}
