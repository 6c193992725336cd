/**
 * The MARC XML framing of the output file and of each page the service
 * returns, and the byte-offset splice that takes one page's records out of
 * its `<collection>` envelope: `v[v.find(open) + 52 : v.rfind(close)]`.
 */
module Envelope {
  import opened PyText

  /** `<collection xmlns="http://www.loc.gov/MARC21/slim">`, searched for in each page; 51 bytes. */
  const OpenTag: seq<byte> :=
    [0x3C, 0x63, 0x6F, 0x6C, 0x6C, 0x65, 0x63, 0x74] + [0x69, 0x6F, 0x6E, 0x20, 0x78, 0x6D, 0x6C, 0x6E]  // `<collect` `ion xmln`
    + [0x73, 0x3D, 0x22, 0x68, 0x74, 0x74, 0x70, 0x3A] + [0x2F, 0x2F, 0x77, 0x77, 0x77, 0x2E, 0x6C, 0x6F]  // `s="http:` `//www.lo`
    + [0x63, 0x2E, 0x67, 0x6F, 0x76, 0x2F, 0x4D, 0x41] + [0x52, 0x43, 0x32, 0x31, 0x2F, 0x73, 0x6C, 0x69]  // `c.gov/MA` `RC21/sli`
    + [0x6D, 0x22, 0x3E]  // `m">`

  /** `</collection>`, 13 bytes. */
  const CloseTag: seq<byte> :=
    [0x3C, 0x2F, 0x63, 0x6F, 0x6C, 0x6C, 0x65, 0x63] + [0x74, 0x69, 0x6F, 0x6E, 0x3E]  // `</collec` `tion>`

  /** What the splice adds to the position of the opening tag: its length plus one more byte. */
  const SkipAfterOpen := 52

  /** `<?xml version="1.0" encoding="UTF-8"?>` and a newline: the first line of the output file. */
  const XmlDeclaration: seq<byte> :=
    [0x3C, 0x3F, 0x78, 0x6D, 0x6C, 0x20, 0x76, 0x65] + [0x72, 0x73, 0x69, 0x6F, 0x6E, 0x3D, 0x22, 0x31]  // `<?xml ve` `rsion="1`
    + [0x2E, 0x30, 0x22, 0x20, 0x65, 0x6E, 0x63, 0x6F] + [0x64, 0x69, 0x6E, 0x67, 0x3D, 0x22, 0x55, 0x54]  // `.0" enco` `ding="UT`
    + [0x46, 0x2D, 0x38, 0x22, 0x3F, 0x3E, 0x0A]  // `F-8"?>\n`

  /** The opening tag and a newline: the second line of the output file. */
  const CollectionStart: seq<byte> := OpenTag + [0x0A]

  /** `</collection>` and a newline: the last line, written when the loop ends without an exception. */
  const CollectionEnd: seq<byte> := CloseTag + [0x0A]

  lemma TagLengths()
    ensures |OpenTag| == 51 && |CloseTag| == 13 && |XmlDeclaration| == 39
  {
  }

  /** One page's records without their envelope, as lines 185-188 cut them out. */
  function Splice(v: seq<byte>): (r: seq<byte>)
  {
    Slice(v, Find(v, OpenTag) + SkipAfterOpen, RFind(v, CloseTag))
  }

  /** A page as the service frames a fragment of records in MARC XML. */
  function ServicePage(fragment: seq<byte>): seq<byte>
  {
    XmlDeclaration + CollectionStart + fragment + CollectionEnd
  }

  lemma FindAt(v: seq<byte>, pat: seq<byte>, k: nat)
    requires OccursAt(v, pat, k)
    requires forall i :: 0 <= i < k ==> !OccursAt(v, pat, i)
    ensures Find(v, pat) == k
  {
  }

  lemma RFindAt(v: seq<byte>, pat: seq<byte>, k: nat)
    requires OccursAt(v, pat, k)
    requires forall i :: k < i ==> !OccursAt(v, pat, i)
    ensures RFind(v, pat) == k
  {
  }

  /**
   * The splice returns exactly the bytes between the byte that follows the
   * opening tag and the closing tag, provided the opening tag does not
   * occur earlier (even overlapping) and the closing tag does not occur
   * later.
   */
  lemma SpliceBetweenTags(pre: seq<byte>, sep: byte, fragment: seq<byte>, post: seq<byte>)
    requires forall i :: 0 <= i < |pre| ==> !OccursAt(pre + OpenTag, OpenTag, i)
    requires forall i :: 0 < i ==> !OccursAt(CloseTag + post, CloseTag, i)
    ensures Splice(pre + OpenTag + [sep] + fragment + CloseTag + post) == fragment
  {
    TagLengths();
    FindsBetween(pre, OpenTag, sep, fragment, CloseTag, post);
  }

  /**
   * The first match of `open` and the last match of `close` in a sequence
   * framed by them, when `open` does not start earlier and `close` does not
   * start later.
   */
  lemma FindsBetween(pre: seq<byte>, open: seq<byte>, sep: byte, fragment: seq<byte>,
                     close: seq<byte>, post: seq<byte>)
    requires forall i :: 0 <= i < |pre| ==> !OccursAt(pre + open, open, i)
    requires forall i :: 0 < i ==> !OccursAt(close + post, close, i)
    ensures var v := pre + open + [sep] + fragment + close + post;
      var s := |pre| + |open| + 1;
      && Find(v, open) == |pre|
      && RFind(v, close) == s + |fragment|
      && v[s..s + |fragment|] == fragment
  {
    var v := pre + open + [sep] + fragment + close + post;
    var s := |pre|;
    var e := |pre| + |open| + 1 + |fragment|;
    assert v[s..s + |open|] == open;
    assert v[..s + |open|] == pre + open;
    forall i | 0 <= i < s
      ensures !OccursAt(v, open, i)
    {
      assert !OccursAt(pre + open, open, i);
      assert v[i..i + |open|] == (pre + open)[i..i + |open|];
    }
    FindAt(v, open, s);
    assert v[e..e + |close|] == close;
    forall i | e < i
      ensures !OccursAt(v, close, i)
    {
      if i + |close| <= |v| {
        assert v[i..i + |close|] == (close + post)[i - e..i - e + |close|];
        assert !OccursAt(close + post, close, i - e);
      }
    }
    RFindAt(v, close, e);
    assert v[s + |open| + 1..e] == fragment;
  }

  /** The output file's header holds no match of the opening tag before its own. */
  lemma HeaderHasOneOpenTag()
    ensures forall i :: 0 <= i < |XmlDeclaration| ==> !OccursAt(XmlDeclaration + OpenTag, OpenTag, i)
  {
    TagLengths();
    var h := XmlDeclaration + OpenTag;
    assert OpenTag[0] == 0x3C && OpenTag[1] == 0x63;
    forall i | 0 <= i < |XmlDeclaration|
      ensures !OccursAt(h, OpenTag, i)
    {
      assert h[i] == XmlDeclaration[i];
      assert h[i + 1] == if i + 1 < |XmlDeclaration| then XmlDeclaration[i + 1] else OpenTag[0];
    }
  }

  /** A page framed the way the service frames it gives back its fragment whole. */
  lemma SpliceServicePage(fragment: seq<byte>)
    ensures Splice(ServicePage(fragment)) == fragment
  {
    TagLengths();
    HeaderHasOneOpenTag();
    var nl: seq<byte> := [0x0A];
    forall i | 0 < i
      ensures !OccursAt(CloseTag + nl, CloseTag, i)
    {
      assert (CloseTag + nl)[1] == CloseTag[1];
    }
    assert ServicePage(fragment) == XmlDeclaration + OpenTag + [0x0A] + fragment + CloseTag + nl;
    SpliceBetweenTags(XmlDeclaration, 0x0A, fragment, nl);
  }

  /**
   * Without the newline the service puts after the opening tag, the extra
   * byte the splice skips is the fragment's first.
   */
  lemma SpliceDropsByteAfterTag(fragment: seq<byte>)
    ensures Splice(OpenTag + fragment + CloseTag) == if fragment == [] then [] else fragment[1..]
  {
    TagLengths();
    var v := OpenTag + fragment + CloseTag;
    var e := |OpenTag| + |fragment|;
    assert v[..|OpenTag|] == OpenTag;
    FindAt(v, OpenTag, 0);
    assert v[e..] == CloseTag;
    RFindAt(v, CloseTag, e);
    if |fragment| > 1 {
      assert v[SkipAfterOpen..e] == fragment[1..];
    }
  }

  /**
   * A body with neither tag (an error page, say) loses its first 51 bytes
   * and its last byte: the start index is -1 + 52 and the end index -1.
   */
  lemma SpliceWithoutTags(v: seq<byte>)
    requires forall i :: !OccursAt(v, OpenTag, i)
    requires forall i :: !OccursAt(v, CloseTag, i)
    ensures Splice(v) == if |v| > 52 then v[51..|v| - 1] else []
  {
  }
}
