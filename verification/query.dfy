/**
 * How `Tind.download` turns the user's search into the query it sends: an
 * empty search means nothing to do, a string starting with `http` is a
 * browser URL from which the raw value of the first usable `p=` parameter
 * is taken (without percent-decoding it), and anything else is the query
 * itself.
 */
module Query {
  import opened PyText

  /** The pattern `p=[^&]` matches at index `i` of `s`. */
  predicate ParamAt(s: string, i: int)
  {
    0 <= i && i + 3 <= |s| && s[i] == 'p' && s[i + 1] == '=' && s[i + 2] != '&'
  }

  /** `i` is where `re.search('p=([^&]+)', s)` finds its leftmost match. */
  predicate LeftmostParam(s: string, i: int)
  {
    ParamAt(s, i) && forall j :: 0 <= j < i ==> !ParamAt(s, j)
  }

  function FirstParamFrom(s: string, i: nat): (r: int)
    ensures r == -1 || (i <= r && ParamAt(s, r))
    ensures forall j :: i <= j && (r == -1 || j < r) ==> !ParamAt(s, j)
    decreases |s| - i
  {
    if i + 3 > |s| then -1
    else if ParamAt(s, i) then i
    else FirstParamFrom(s, i + 1)
  }

  /** The longest prefix of `s` free of `&`: what the greedy `[^&]+` consumes. */
  function UpToAmp(s: string): (r: string)
    ensures r <= s && '&' !in r
    ensures |r| == |s| || s[|r|] == '&'
  {
    if s == [] || s[0] == '&' then [] else [s[0]] + UpToAmp(s[1..])
  }

  predicate IsUrl(search: string)
  {
    |search| >= 4 && search[..4] == "http"
  }

  datatype Extraction =
    | EmptySearch              // `not search`: download returns 0
    | Query(text: string)      // the query to send
    | NoQueryParameter         // `match` is None: `match.group(1)` raises AttributeError

  function ExtractQuery(search: string): (r: Extraction)
    ensures r.EmptySearch? <==> search == []
    ensures search != [] && !IsUrl(search) ==> r == Query(search)
    ensures IsUrl(search) ==> (r.NoQueryParameter? <==> forall j :: 0 <= j ==> !ParamAt(search, j))
    ensures IsUrl(search) && r.Query? ==>
      && r.text != [] && '&' !in r.text
      && exists i :: LeftmostParam(search, i)
                     && i + 2 + |r.text| <= |search|
                     && search[i + 2..i + 2 + |r.text|] == r.text
                     && (i + 2 + |r.text| == |search| || search[i + 2 + |r.text|] == '&')
  {
    if search == [] then EmptySearch
    else if IsUrl(search) then
      var i := FirstParamFrom(search, 0);
      if i < 0 then NoQueryParameter
      else
        var text := UpToAmp(search[i + 2..]);
        assert LeftmostParam(search, i);
        assert text != [] by { assert search[i + 2..][0] == search[i + 2]; }
        Query(text)
    else Query(search)
  }
}
