/**
 * `url_for_get`: the request URL for one search page, and what a reader of
 * that URL (the service, or the query extraction applied to it) gets back.
 */
module Url {
  import opened Outcomes
  import opened PyText
  import opened Quote
  import opened Query

  /** `_BASE_GET_URL`. */
  const BaseGetUrl := "https://caltech.tind.io/search?ln=en"

  /** `url_for_get(search_string, num_get, start_at, marc)`. */
  function UrlForGet(searchString: string, numGet: int, startAt: int, marc: bool): (url: string)
    ensures BaseGetUrl <= url
  {
    BaseGetUrl + "&p=" + Quote.Quote(searchString)
    + "&jrec=" + IntToString(startAt) + "&rg=" + IntToString(numGet)
    + (if marc then "&of=xm" else "")
  }

  /**
   * The `&`-separated fields of a query string, as a server splits them:
   * the text before the first `&`, then the fields of the rest.
   */
  function SplitAmp(s: string): (r: seq<string>)
    ensures r != [] && forall i :: 0 <= i < |r| ==> '&' !in r[i]
    decreases |s|
  {
    if '&' !in s then [s]
    else
      var h := UpToAmp(s);
      [h] + SplitAmp(s[|h| + 1..])
  }

  lemma SplitAmpJoin(a: string, b: string)
    requires '&' !in a
    ensures SplitAmp(a + "&" + b) == [a] + SplitAmp(b)
  {
    var s := a + "&" + b;
    assert s == a + ("&" + b);
    assert s[|a|] == '&';
    UpToAmpStopsAtAmp(a, "&" + b);
    assert s[|a| + 1..] == b;
  }

  /** Regrouping the URL's concatenation around its `&` separators. */
  lemma Nest<T>(b: seq<T>, amp: seq<T>, y1: seq<T>, e: seq<T>, y2: seq<T>, s: seq<T>, y3: seq<T>, n: seq<T>, m: seq<T>)
    ensures b + (amp + y1) + e + (amp + y2) + s + (amp + y3) + n + m
         == b + amp + ((y1 + e) + amp + ((y2 + s) + amp + (y3 + n + m)))
  {
    var t3 := y3 + n + m;
    var t2 := (y2 + s) + amp + t3;
    var t1 := (y1 + e) + amp + t2;
    calc {
      b + (amp + y1) + e + (amp + y2) + s + (amp + y3) + n + m;
      b + (amp + y1) + e + (amp + y2) + s + amp + t3;
      b + (amp + y1) + e + amp + t2;
      b + amp + t1;
    }
  }

  /**
   * Split at `&`, a request URL reads back as the base URL, `p=` with the
   * quoted query, `jrec=` with the start offset, `rg=` with the page size,
   * and `of=xm` exactly when MARC output is asked for; the decimal numbers
   * read back as the values given.
   */
  lemma UrlFields(q: string, numGet: int, startAt: int, marc: bool)
    ensures SplitAmp(UrlForGet(q, numGet, startAt, marc))
         == [BaseGetUrl, "p=" + Quote.Quote(q), "jrec=" + IntToString(startAt), "rg=" + IntToString(numGet)]
            + (if marc then ["of=xm"] else [])
  {
    BaseHasNoAmp();
    QuotedHasNoAmp(q);
    NumberField("jrec=", startAt);
    NumberField("rg=", numGet);
    var t3 := UrlNested(q, numGet, startAt, marc);
    JoinFields(BaseGetUrl, "p=" + Quote.Quote(q), "jrec=" + IntToString(startAt), "rg=" + IntToString(numGet), marc, t3);
  }

  /** Splitting fields joined by `&` gives the fields back. */
  lemma JoinFields(base: string, f1: string, f2: string, f3: string, marc: bool, t3: string)
    requires '&' !in base && '&' !in f1 && '&' !in f2 && '&' !in f3
    requires t3 == if marc then f3 + "&" + "of=xm" else f3
    ensures SplitAmp(base + "&" + (f1 + "&" + (f2 + "&" + t3))) == [base, f1, f2, f3] + (if marc then ["of=xm"] else [])
  {
    var last := if marc then ["of=xm"] else [];
    if marc {
      SplitAmpJoin(f3, "of=xm");
      assert SplitAmp("of=xm") == ["of=xm"];
    }
    assert SplitAmp(t3) == [f3] + last;
    SplitAmpJoin(f2, t3);
    SplitAmpJoin(f1, f2 + "&" + t3);
    SplitAmpJoin(base, f1 + "&" + (f2 + "&" + t3));
    Cons4(base, f1, f2, f3, last);
  }

  lemma BaseHasNoAmp()
    ensures '&' !in BaseGetUrl
  {
  }

  /** The quoted query holds no `&`. */
  lemma QuotedHasNoAmp(q: string)
    ensures '&' !in Quote.Quote(q) && '&' !in "p=" + Quote.Quote(q)
  {
    var enc := Quote.Quote(q);
    var f := "p=" + enc;
    assert forall i :: 0 <= i < |enc| ==> IsSafe(enc[i]) || enc[i] == '%';
    assert forall i :: 2 <= i < |f| ==> f[i] == enc[i - 2];
  }

  /** A field holding a key and a decimal number holds no `&`, and no `p` unless its key does. */
  lemma NumberField(key: string, n: int)
    requires '&' !in key && 'p' !in key
    ensures '&' !in key + IntToString(n) && 'p' !in key + IntToString(n)
  {
    var s := IntToString(n);
    var f := key + s;
    forall i | 0 <= i < |f|
      ensures f[i] != '&' && f[i] != 'p'
    {
      if i >= |key| {
        assert f[i] == s[i - |key|];
      } else {
        assert f[i] == key[i];
      }
    }
  }

  /** The URL as its fields joined by `&`; `t3` is the page-size field and what follows it. */
  lemma UrlNested(q: string, numGet: int, startAt: int, marc: bool) returns (t3: string)
    ensures t3 == if marc then "rg=" + IntToString(numGet) + "&" + "of=xm" else "rg=" + IntToString(numGet)
    ensures UrlForGet(q, numGet, startAt, marc)
         == BaseGetUrl + "&" + ("p=" + Quote.Quote(q) + "&" + ("jrec=" + IntToString(startAt) + "&" + t3))
  {
    var enc, s, n := Quote.Quote(q), IntToString(startAt), IntToString(numGet);
    var m: string := if marc then "&of=xm" else "";
    var amp := "&";
    assert "&p=" == amp + "p=" && "&jrec=" == amp + "jrec=" && "&rg=" == amp + "rg=";
    Nest(BaseGetUrl, amp, "p=", enc, "jrec=", s, "rg=", n, m);
    t3 := "rg=" + n + m;
    if marc {
      assert m == amp + "of=xm";
      Regroup3("rg=" + n, amp, "of=xm");
    }
  }

  lemma Regroup3<T>(a: seq<T>, b: seq<T>, c: seq<T>)
    ensures a + (b + c) == a + b + c
  {
  }

  lemma Cons4<T>(a: T, b: T, c: T, d: T, last: seq<T>)
    ensures [a] + ([b] + ([c] + ([d] + last))) == [a, b, c, d] + last
  {
  }

  lemma {:induction false} UpToAmpStopsAtAmp(a: string, b: string)
    requires '&' !in a && b != [] && b[0] == '&'
    ensures UpToAmp(a + b) == a
  {
    if a == [] {
      assert a + b == b;
    } else {
      assert a[0] in a;
      assert (a + b)[0] == a[0] && (a + b)[1..] == a[1..] + b;
      UpToAmpStopsAtAmp(a[1..], b);
    }
  }

  /** No `p=` match starts inside the base URL, whatever follows it. */
  lemma NoParamInBase(rest: string)
    ensures forall j :: 0 <= j < |BaseGetUrl| ==> !ParamAt(BaseGetUrl + rest, j)
  {
    var url := BaseGetUrl + rest;
    forall j | 0 <= j < |BaseGetUrl|
      ensures !ParamAt(url, j)
    {
      if j + 1 < |BaseGetUrl| {
        assert url[j] == BaseGetUrl[j] && url[j + 1] == BaseGetUrl[j + 1];
      } else {
        assert url[j] == 'n';
      }
    }
  }

  /** No `p=` match starts inside a suffix that has no `p`. */
  lemma NoParamInSuffix(a: string, b: string)
    requires 'p' !in b
    ensures forall j :: |a| <= j ==> !ParamAt(a + b, j)
  {
    forall j | |a| <= j < |a + b|
      ensures (a + b)[j] != 'p'
    {
      assert (a + b)[j] == b[j - |a|];
    }
  }

  /** Where the first `p=` match of a request URL starts, if anywhere. */
  lemma ParamOfRequest(enc: string, tail: string)
    requires '&' !in enc && tail != [] && tail[0] == '&' && 'p' !in tail
    ensures var url := BaseGetUrl + "&p=" + enc + tail;
      FirstParamFrom(url, 0) == if enc == [] then -1 else |BaseGetUrl| + 1
  {
    var rest := "&p=" + enc + tail;
    var url := BaseGetUrl + rest;
    assert url == BaseGetUrl + "&p=" + enc + tail;
    var k := |BaseGetUrl| + 1;
    NoParamInBase(rest);
    assert !ParamAt(url, k - 1) by { assert url[k - 1] == rest[0]; }
    assert url[k] == 'p' && url[k + 1] == '=' by { assert url[k] == rest[1] && url[k + 1] == rest[2]; }
    if enc == [] {
      assert url == (BaseGetUrl + "&p=") + tail;
      assert !ParamAt(url, k) by { assert url[k + 2] == tail[0]; }
      assert !ParamAt(url, k + 1);
      NoParamInSuffix(BaseGetUrl + "&p=", tail);
    } else {
      assert url[k + 2] == enc[0];
      assert enc[0] in enc;
      assert ParamAt(url, k);
    }
  }

  /**
   * The extraction applied to the base URL followed by `&p=`, a value
   * without `&`, and further parameters that hold no `p`.
   */
  lemma ExtractFromRequest(enc: string, tail: string)
    requires '&' !in enc && tail != [] && tail[0] == '&' && 'p' !in tail
    ensures ExtractQuery(BaseGetUrl + "&p=" + enc + tail) ==
            if enc == [] then NoQueryParameter else Query(enc)
  {
    var url := BaseGetUrl + "&p=" + enc + tail;
    assert url[..4] == "http" by {
      assert url[..4] == BaseGetUrl[..4];
      assert BaseGetUrl[..4] == "http";
    }
    ParamOfRequest(enc, tail);
    if enc != [] {
      assert url[|BaseGetUrl| + 3..] == enc + tail;
      UpToAmpStopsAtAmp(enc, tail);
    }
  }

  /**
   * Read back by the query extraction, a request URL yields its query
   * exactly as `quote` encoded it, or no query at all for an empty one.
   */
  lemma UrlCarriesQuery(q: string, numGet: int, startAt: int, marc: bool)
    ensures ExtractQuery(UrlForGet(q, numGet, startAt, marc)) ==
            if q == [] then NoQueryParameter else Query(Quote.Quote(q))
  {
    var enc := Quote.Quote(q);
    var t3 := UrlNested(q, numGet, startAt, marc);
    var rest := "jrec=" + IntToString(startAt) + "&" + t3;
    var tail := "&" + rest;
    Regroup4(BaseGetUrl, "&", "p=", enc, rest);
    assert "&p=" == "&" + "p=";
    assert UrlForGet(q, numGet, startAt, marc) == BaseGetUrl + "&p=" + enc + tail;
    QuotedHasNoAmp(q);
    assert 'p' !in tail by {
      NumberField("jrec=", startAt);
      NumberField("rg=", numGet);
      NoPInJoin("&", "jrec=" + IntToString(startAt), t3, marc, "rg=" + IntToString(numGet));
    }
    assert q == [] <==> enc == [] by {
      if q == [] { assert |Utf8Encode(q)| == 0; }
    }
    ExtractFromRequest(enc, tail);
  }

  lemma Regroup4<T>(b: seq<T>, amp: seq<T>, key: seq<T>, enc: seq<T>, rest: seq<T>)
    ensures b + amp + (key + enc + amp + rest) == b + (amp + key) + enc + (amp + rest)
  {
  }

  /** `&j&t3`, where `t3` is the page-size field and possibly `&of=xm`, holds no `p`. */
  lemma NoPInJoin(amp: string, j: string, t3: string, marc: bool, f3: string)
    requires amp == "&" && 'p' !in j && 'p' !in f3
    requires t3 == if marc then f3 + "&" + "of=xm" else f3
    ensures 'p' !in amp + (j + "&" + t3)
  {
    var x := amp + (j + "&" + t3);
    forall i | 0 <= i < |x|
      ensures x[i] != 'p'
    {
      if i == 0 || i == |j| + 1 {
      } else if i <= |j| {
        assert x[i] == j[i - 1];
      } else if i - |j| - 2 < |f3| {
        assert x[i] == f3[i - |j| - 2];
      }
    }
  }

  /** `&of=xm` (MARC XML output) ends the URL exactly when `marc` is set. */
  lemma UrlRequestsMarc(q: string, numGet: int, startAt: int, marc: bool)
    ensures var url := UrlForGet(q, numGet, startAt, marc);
      |url| >= 6 && (url[|url| - 6..] == "&of=xm" <==> marc)
  {
    var url := UrlForGet(q, numGet, startAt, marc);
    if !marc {
      var digits := IntToString(numGet);
      assert url[|url| - 1] == digits[|digits| - 1];
      assert IsDigit(url[|url| - 1]) by {
        if |digits| == 1 { assert digits[0] != '-' || numGet < 0; }
        if numGet < 0 { assert digits[|digits| - 1] == NatToString(-numGet)[|NatToString(-numGet)| - 1]; }
      }
    }
  }

  /**
   * A request URL pasted back in as the search is encoded a second time:
   * the service then receives the once-encoded text instead of the query,
   * and the two differ whenever the query needed any escaping.
   */
  lemma PastedUrlEncodedTwice(q: string, numGet: int, startAt: int, marc: bool)
    requires q != []
    ensures var e := ExtractQuery(UrlForGet(q, numGet, startAt, marc));
      && e == Query(Quote.Quote(q))
      && PercentDecode(Quote.Quote(e.text)) == Some(Utf8Encode(Quote.Quote(q)))
      && (Quote.Quote(e.text) == e.text <==> Quote.Quote(q) == q)
  {
    UrlCarriesQuery(q, numGet, startAt, marc);
    DecodeQuote(Quote.Quote(q));
    RequoteIsStable(q);
  }

  /** Encoding an encoded query again changes it exactly when the first encoding did. */
  lemma RequoteIsStable(q: string)
    ensures Quote.Quote(Quote.Quote(q)) == Quote.Quote(q) <==> Quote.Quote(q) == q
  {
    var enc := Quote.Quote(q);
    QuoteFixpoint(enc);
    QuoteFixpoint(q);
    if Quote.Quote(enc) == enc && enc != q {
      QuoteEscapes(q);
    }
  }
}
