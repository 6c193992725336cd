/**
 * The `Tind` search-and-download engine: the result-count probe, the loop
 * that fetches pages of `_RECORDS_PER_GET` MARC XML records and splices them
 * into the output file, and the stop flag that `interrupt` sets.
 *
 * The network is a `Service` value mapping each request URL to its
 * response.  The downloader thread runs to completion inside `Download`;
 * a call of `interrupt` from the controlling thread is modelled by the
 * number of pages after which it lands (`interruptAfter`).
 */
module Tind {
  import opened Outcomes
  import opened PyText
  import opened Query
  import opened Url
  import opened Probe
  import opened Envelope

  /** `_RECORDS_PER_GET`: the most records the service returns per request. */
  const RecordsPerGet := 200

  /** What one page request brings back: its body, or the exception pycurl raised. */
  datatype PageResponse = Page(body: seq<byte>) | FetchError(reason: string)

  /** The service as the two kinds of request the engine makes of it. */
  datatype Service = Service(search: string -> ProbeResponse, fetch: string -> PageResponse)

  /** How `_download_loop` ended: offsets used up, stop flag seen, or a fetch raised. */
  datatype LoopExit = Exhausted | Stopped | Aborted(reason: string)

  /** The request for the page of records starting at `startAt`. */
  function PageUrl(query: string, startAt: int): string
  {
    UrlForGet(query, RecordsPerGet, startAt, true)
  }

  /** The preliminary HTML search for one record. */
  function ProbeUrl(query: string): string
  {
    UrlForGet(query, 1, 1, false)
  }

  /**
   * What the page at offset `o` adds to the output file: the records spliced
   * out of the response, or the exception its request raised.
   */
  function Piece(query: string, fetch: string -> PageResponse, o: int): PageResponse
  {
    SplicePage(fetch(PageUrl(query, o)))
  }

  /** A response with the page's records cut out of their envelope. */
  function SplicePage(response: PageResponse): PageResponse
  {
    match response
    case Page(v) => Page(Splice(v))
    case FetchError(reason) => FetchError(reason)
  }

  /** The pieces of the pages at `offsets`, in order. */
  function Pieces(query: string, fetch: string -> PageResponse, offsets: seq<int>): (r: seq<PageResponse>)
    ensures |r| == |offsets|
  {
    if offsets == [] then [] else [Piece(query, fetch, offsets[0])] + Pieces(query, fetch, offsets[1..])
  }

  lemma {:induction false} PiecesAt(query: string, fetch: string -> PageResponse, offsets: seq<int>, i: nat)
    requires i < |offsets|
    ensures Pieces(query, fetch, offsets)[i] == Piece(query, fetch, offsets[i])
    decreases i
  {
    if i > 0 {
      PiecesAt(query, fetch, offsets[1..], i - 1);
    }
  }

  /** The last record of the page starting at `startAt`, as stored in `_num_written`. */
  function EndAt(startAt: int, numRecords: int): (e: int)
    ensures e <= numRecords && e <= startAt + RecordsPerGet - 1
    ensures e == numRecords || e == startAt + RecordsPerGet - 1
  {
    if startAt + RecordsPerGet > numRecords then numRecords else RecordsPerGet + startAt - 1
  }

  /** The offsets the loop walks: from `startAt` in steps of 200 while below `total`. */
  function Offsets(startAt: int, total: int): (r: seq<int>)
    ensures forall i :: 0 <= i < |r| ==> r[i] == startAt + RecordsPerGet * i && r[i] < total
    ensures startAt + RecordsPerGet * |r| >= total
    decreases total - startAt
  {
    if startAt < total then [startAt] + Offsets(startAt + RecordsPerGet, total) else []
  }

  /** How many pages the loop may fetch before it sees the stop flag set. */
  function Budget(stopped: bool, interruptAfter: Option<nat>, pages: nat): nat
  {
    if stopped then 0
    else match interruptAfter
      case None => pages
      case Some(k) => k
  }

  /** A run of the loop: the offsets requested, the bytes appended, `_num_written`, the exit. */
  datatype Run = Run(fetched: seq<int>, body: seq<byte>, written: int, exit: LoopExit)

  /** The requested offsets whose pages arrived: all of them but the one whose fetch raised. */
  function Completed(run: Run): seq<int>
  {
    if run.exit.Aborted? && run.fetched != [] then run.fetched[..|run.fetched| - 1] else run.fetched
  }

  /** The records the pieces carry, one page after another. */
  function Appended(pieces: seq<PageResponse>): seq<byte>
  {
    if pieces == [] then []
    else
      (match pieces[0]
       case Page(piece) => piece
       case FetchError(_) => [])
      + Appended(pieces[1..])
  }

  /**
   * The loop over the remaining `offsets`, whose pages add `pieces`, with
   * `budget` pages to go before the stop flag is seen and `written` the
   * current `_num_written`.
   */
  function RunPages(offsets: seq<int>, pieces: seq<PageResponse>, numRecords: int,
                    budget: nat, written: int): Run
    requires |pieces| == |offsets|
  {
    if offsets == [] then Run([], [], written, Exhausted)
    else if budget == 0 then Run([], [], written, Stopped)
    else
      match pieces[0]
      case FetchError(reason) => Run([offsets[0]], [], written, Aborted(reason))
      case Page(piece) =>
        var rest := RunPages(offsets[1..], pieces[1..], numRecords, budget - 1, EndAt(offsets[0], numRecords));
        Run([offsets[0]] + rest.fetched, piece + rest.body, rest.written, rest.exit)
  }

  /** The offset the loop runs to: `total`, or the record count when `total` is negative. */
  function Target(total: int, numRecords: int): int
  {
    if total < 0 then numRecords else total
  }

  /** The whole `_download_loop(query, output, start_at, total, num_records)`. */
  function LoopRun(query: string, startAt: int, total: int, numRecords: int,
                   fetch: string -> PageResponse, stopped: bool, interruptAfter: Option<nat>,
                   written: int): Run
  {
    var offsets := Offsets(startAt, Target(total, numRecords));
    RunPages(offsets, Pieces(query, fetch, offsets), numRecords,
             Budget(stopped, interruptAfter, |offsets|), written)
  }

  /** The output file a run leaves: the closing line is missing when a fetch raised. */
  function Document(run: Run): seq<byte>
  {
    XmlDeclaration + CollectionStart + run.body + (if run.exit.Aborted? then [] else CollectionEnd)
  }

  /** What `download` does before starting the loop. */
  datatype Plan = NothingToDo | Raise(failure: Failure) | Fetch(query: string, numRecords: nat)

  function PlanDownload(search: string, probe: string -> ProbeResponse): (p: Plan)
    ensures search == [] ==> p == NothingToDo
    ensures p.Fetch? ==> p.query != [] && p.numRecords > 0
    ensures p == Raise(AttributeError) <==> ExtractQuery(search).NoQueryParameter?
    ensures ExtractQuery(search).Query? ==>
      var probed := ProbeCount(probe(ProbeUrl(ExtractQuery(search).text)));
      && (p.Raise? <==> probed.Err?)
      && (probed.Err? ==> p == Raise(probed.error))
      && (probed == Ok(0) ==> p == NothingToDo)
      && (probed.Ok? && probed.value > 0 ==> p == Fetch(ExtractQuery(search).text, probed.value))
    ensures p.Fetch? ==>
      && ExtractQuery(search) == Query(p.query)
      && ProbeCount(probe(ProbeUrl(p.query))) == Ok(p.numRecords)
  {
    match ExtractQuery(search)
    case EmptySearch => NothingToDo
    case NoQueryParameter => Raise(AttributeError)
    case Query(q) =>
      match ProbeCount(probe(ProbeUrl(q)))
      case Err(f) => Raise(f)
      case Ok(n) => if n == 0 then NothingToDo else Fetch(q, n)
  }

  /**
   * Which offsets a run of the loop requested: a prefix of the offsets, no
   * more pages than its budget; it stops early only on the stop flag or on
   * a fetch that raised, and every page before the last one requested
   * arrived.
   */
  lemma {:induction false} RunPagesRequests(offsets: seq<int>, pieces: seq<PageResponse>, numRecords: int,
                                            budget: nat, written: int)
    requires |pieces| == |offsets|
    ensures var run := RunPages(offsets, pieces, numRecords, budget, written);
      && run.fetched <= offsets && |run.fetched| <= budget
      && (run.exit == Exhausted ==> run.fetched == offsets)
      && (run.exit == Stopped ==> |run.fetched| == budget < |offsets|)
      && (run.exit.Aborted? ==>
            run.fetched != [] && pieces[|run.fetched| - 1] == FetchError(run.exit.reason))
      && (forall i :: 0 <= i < |Completed(run)| ==> pieces[i].Page?)
    decreases |offsets|
  {
    if offsets != [] && budget != 0 && pieces[0].Page? {
      var o := offsets[0];
      var rest := RunPages(offsets[1..], pieces[1..], numRecords, budget - 1, EndAt(o, numRecords));
      RunPagesRequests(offsets[1..], pieces[1..], numRecords, budget - 1, EndAt(o, numRecords));
      var run := RunPages(offsets, pieces, numRecords, budget, written);
      assert run.fetched == [o] + rest.fetched;
      assert offsets == [o] + offsets[1..];
      assert |Completed(run)| == 1 + |Completed(rest)|;
      forall i | 0 <= i < |Completed(run)|
        ensures pieces[i].Page?
      {
        if i > 0 {
          assert pieces[i] == pieces[1..][i - 1];
        }
      }
    }
  }

  /**
   * What a run of the loop wrote: the records of the pages that arrived, in
   * order; and `_num_written` is the end offset of the last page that
   * arrived, or unchanged when none did.
   */
  lemma {:induction false} RunPagesWrites(offsets: seq<int>, pieces: seq<PageResponse>, numRecords: int,
                                          budget: nat, written: int)
    requires |pieces| == |offsets|
    ensures var run := RunPages(offsets, pieces, numRecords, budget, written);
      var done := Completed(run);
      && |done| <= |offsets|
      && run.body == Appended(pieces[..|done|])
      && run.written == if done == [] then written else EndAt(done[|done| - 1], numRecords)
    decreases |offsets|
  {
    if offsets != [] && budget != 0 {
      var o := offsets[0];
      match pieces[0]
      case Page(piece) =>
        var rest := RunPages(offsets[1..], pieces[1..], numRecords, budget - 1, EndAt(o, numRecords));
        RunPagesWrites(offsets[1..], pieces[1..], numRecords, budget - 1, EndAt(o, numRecords));
        var run := RunPages(offsets, pieces, numRecords, budget, written);
        assert run == Run([o] + rest.fetched, piece + rest.body, rest.written, rest.exit);
        var c := Completed(rest);
        assert Completed(run) == [o] + c by {
          if rest.exit.Aborted? && rest.fetched != [] {
            assert ([o] + rest.fetched)[..|rest.fetched|] == [o] + rest.fetched[..|rest.fetched| - 1];
          }
        }
        var n := |c|;
        assert pieces[..n + 1][0] == pieces[0];
        assert pieces[..n + 1][1..] == pieces[1..][..n];
        assert Appended(pieces[..n + 1]) == piece + Appended(pieces[1..][..n]);
        if c != [] {
          assert ([o] + c)[|[o] + c| - 1] == c[|c| - 1];
        }
      case FetchError(_) =>
        assert pieces[..0] == [];
    } else {
      assert pieces[..0] == [];
    }
  }

  /**
   * A page starting at offset `o` asks for records `o` to `o + 199`.  Every
   * record from `startAt` up to `total` is asked for except, because the
   * loop test is the strict `start_at < total`, record `total` itself when
   * `total - startAt` is a multiple of 200.  With the defaults (start at 1,
   * total the record count) the last record is never fetched when the count
   * is 1, 201, 401, ...
   */
  predicate Requested(offsets: seq<int>, x: int)
  {
    exists k :: 0 <= k < |offsets| && offsets[k] <= x < offsets[k] + RecordsPerGet
  }

  lemma RecordRequested(startAt: int, total: int, x: int)
    requires startAt <= x <= total
    ensures Requested(Offsets(startAt, total), x) <==>
            x < total || (total - startAt) % RecordsPerGet != 0
  {
    var r := Offsets(startAt, total);
    var k := (x - startAt) / RecordsPerGet;
    assert startAt + RecordsPerGet * k <= x < startAt + RecordsPerGet * k + RecordsPerGet;
    if x < total || (total - startAt) % RecordsPerGet != 0 {
      assert startAt + RecordsPerGet * k < total;
      assert k < |r|;
      assert r[k] <= x < r[k] + RecordsPerGet;
    } else {
      var m := (total - startAt) / RecordsPerGet;
      assert total == startAt + RecordsPerGet * m;
      forall j | 0 <= j < |r|
        ensures !(r[j] <= x < r[j] + RecordsPerGet)
      {
        assert r[j] == startAt + RecordsPerGet * j < total;
        assert j < m;
      }
    }
  }

  /** 450 records from record 1: pages at 1, 201 and 401, ending at 200, 400 and 450. */
  lemma OffsetsFor450()
    ensures Offsets(1, 450) == [1, 201, 401]
    ensures EndAt(1, 450) == 200 && EndAt(201, 450) == 400 && EndAt(401, 450) == 450
    ensures Offsets(1, 1) == [] && Offsets(1, 401) == [1, 201]
  {
    assert Offsets(601, 450) == [];
    assert Offsets(401, 401) == [];
  }

  /** The fragments at `offsets`, in order. */
  function Fragments(fragment: int -> seq<byte>, offsets: seq<int>): seq<byte>
  {
    if offsets == [] then [] else fragment(offsets[0]) + Fragments(fragment, offsets[1..])
  }

  lemma ServicePieces(query: string, fetch: string -> PageResponse, offsets: seq<int>,
                      fragment: int -> seq<byte>)
    requires forall o :: o in offsets ==> fetch(PageUrl(query, o)) == Page(ServicePage(fragment(o)))
    ensures forall i :: 0 <= i < |offsets| ==>
      Pieces(query, fetch, offsets)[i] == Page(fragment(offsets[i]))
  {
    forall i | 0 <= i < |offsets|
      ensures Pieces(query, fetch, offsets)[i] == Page(fragment(offsets[i]))
    {
      var o := offsets[i];
      assert o in offsets;
      PiecesAt(query, fetch, offsets, i);
      SpliceServicePage(fragment(o));
    }
  }

  lemma {:induction false} AppendedFragments(offsets: seq<int>, pieces: seq<PageResponse>,
                                             fragment: int -> seq<byte>)
    requires |pieces| == |offsets|
    requires forall i :: 0 <= i < |offsets| ==> pieces[i] == Page(fragment(offsets[i]))
    ensures Appended(pieces) == Fragments(fragment, offsets)
  {
    if offsets != [] {
      AppendedFragments(offsets[1..], pieces[1..], fragment);
    }
  }

  /** A run over pages that all arrive appends their fragments until the budget runs out. */
  lemma RunOfFragments(offsets: seq<int>, pieces: seq<PageResponse>, numRecords: int,
                       budget: nat, written: int, fragment: int -> seq<byte>)
    requires |pieces| == |offsets|
    requires forall i :: 0 <= i < |offsets| ==> pieces[i] == Page(fragment(offsets[i]))
    ensures var run := RunPages(offsets, pieces, numRecords, budget, written);
      && !run.exit.Aborted?
      && run.fetched == offsets[..if budget < |offsets| then budget else |offsets|]
      && run.body == Fragments(fragment, run.fetched)
  {
    var run := RunPages(offsets, pieces, numRecords, budget, written);
    RunPagesRequests(offsets, pieces, numRecords, budget, written);
    RunPagesWrites(offsets, pieces, numRecords, budget, written);
    var n := |run.fetched|;
    assert run.fetched == offsets[..n];
    if n > 0 {
      assert pieces[n - 1].Page?;
    }
    AppendedFragments(run.fetched, pieces[..n], fragment);
  }

  /**
   * When every page the service returns frames its records as the service
   * does, the output file is the declaration, the opening tag, the pages'
   * records in order and the closing tag: all pages when nothing stops the
   * loop, the first `k` when the stop flag is seen after `k` pages.
   */
  lemma DocumentOfServicePages(query: string, startAt: int, total: int, numRecords: int,
                               fetch: string -> PageResponse, stopped: bool,
                               interruptAfter: Option<nat>, written: int,
                               fragment: int -> seq<byte>)
    requires forall o :: o in Offsets(startAt, Target(total, numRecords)) ==>
      fetch(PageUrl(query, o)) == Page(ServicePage(fragment(o)))
    ensures var run := LoopRun(query, startAt, total, numRecords, fetch, stopped, interruptAfter, written);
      var offsets := Offsets(startAt, Target(total, numRecords));
      var budget := Budget(stopped, interruptAfter, |offsets|);
      && !run.exit.Aborted?
      && run.fetched == offsets[..if budget < |offsets| then budget else |offsets|]
      && Document(run) == XmlDeclaration + CollectionStart + Fragments(fragment, run.fetched) + CollectionEnd
  {
    var offsets := Offsets(startAt, Target(total, numRecords));
    ServicePieces(query, fetch, offsets, fragment);
    RunOfFragments(offsets, Pieces(query, fetch, offsets), numRecords,
                   Budget(stopped, interruptAfter, |offsets|), written, fragment);
  }

  /** A run that had already requested `done` and appended `body` before running on as `rest`. */
  function Resume(done: seq<int>, body: seq<byte>, rest: Run): Run
  {
    Run(done + rest.fetched, body + rest.body, rest.written, rest.exit)
  }

  /** The chunks, one after another. */
  function Concat(chunks: seq<seq<byte>>): seq<byte>
  {
    if chunks == [] then [] else chunks[0] + Concat(chunks[1..])
  }

  /** `_num_written` after the first `n` pages arrived, starting from `written`. */
  function WrittenAfter(offsets: seq<int>, n: nat, numRecords: int, written: int): int
    requires n <= |offsets|
  {
    if n == 0 then written else EndAt(offsets[n - 1], numRecords)
  }

  /**
   * When the first pages all arrive, with pieces `got`, the run is those
   * pages followed by the run over the remaining offsets.
   */
  lemma {:induction false} RunPagesPrefix(offsets: seq<int>, pieces: seq<PageResponse>, numRecords: int,
                                          budget: nat, written: int, got: seq<seq<byte>>)
    requires |pieces| == |offsets|
    requires |got| <= |offsets| && |got| <= budget
    requires forall i :: 0 <= i < |got| ==> pieces[i] == Page(got[i])
    ensures RunPages(offsets, pieces, numRecords, budget, written)
         == Resume(offsets[..|got|], Concat(got),
                   RunPages(offsets[|got|..], pieces[|got|..], numRecords, budget - |got|,
                            WrittenAfter(offsets, |got|, numRecords, written)))
    decreases |got|
  {
    var n := |got|;
    if n == 0 {
      RunPagesNoPrefix(offsets, pieces, numRecords, budget, written, got);
    } else if n == 1 {
      RunPagesStep(offsets, pieces, numRecords, budget, written, got[0]);
      ResumeOne(offsets, got, RunPages(offsets[1..], pieces[1..], numRecords, budget - 1, EndAt(offsets[0], numRecords)));
    } else {
      var w := EndAt(offsets[0], numRecords);
      var tail := RunPages(offsets[n..], pieces[n..], numRecords, budget - n,
                           WrittenAfter(offsets, n, numRecords, written));
      RunPagesStep(offsets, pieces, numRecords, budget, written, got[0]);
      RunPagesPrefix(offsets[1..], pieces[1..], numRecords, budget - 1, w, got[1..]);
      SlicesAfterFirst(offsets, pieces, n);
      WrittenAfterFirst(offsets, n, numRecords, written);
      ResumeTwice([offsets[0]], got[0], offsets[1..][..n - 1], Concat(got[1..]), tail);
    }
  }

  /** One page arrives: the run is that page followed by the run over the rest. */
  lemma RunPagesStep(offsets: seq<int>, pieces: seq<PageResponse>, numRecords: int,
                     budget: nat, written: int, piece: seq<byte>)
    requires |pieces| == |offsets| && offsets != [] && budget > 0 && pieces[0] == Page(piece)
    ensures RunPages(offsets, pieces, numRecords, budget, written)
         == Resume([offsets[0]], piece,
                   RunPages(offsets[1..], pieces[1..], numRecords, budget - 1, EndAt(offsets[0], numRecords)))
  {
  }

  lemma SlicesAfterFirst(offsets: seq<int>, pieces: seq<PageResponse>, n: nat)
    requires 0 < n <= |offsets| && n <= |pieces|
    ensures offsets[1..][n - 1..] == offsets[n..] && pieces[1..][n - 1..] == pieces[n..]
    ensures [offsets[0]] + offsets[1..][..n - 1] == offsets[..n]
  {
  }

  lemma WrittenAfterFirst(offsets: seq<int>, n: nat, numRecords: int, written: int)
    requires 0 < n <= |offsets|
    ensures WrittenAfter(offsets[1..], n - 1, numRecords, EndAt(offsets[0], numRecords))
         == WrittenAfter(offsets, n, numRecords, written)
  {
  }

  lemma RunPagesNoPrefix(offsets: seq<int>, pieces: seq<PageResponse>, numRecords: int,
                         budget: nat, written: int, got: seq<seq<byte>>)
    requires |pieces| == |offsets| && got == []
    ensures RunPages(offsets, pieces, numRecords, budget, written)
         == Resume(offsets[..|got|], Concat(got),
                   RunPages(offsets[|got|..], pieces[|got|..], numRecords, budget - |got|,
                            WrittenAfter(offsets, |got|, numRecords, written)))
  {
    var run := RunPages(offsets, pieces, numRecords, budget, written);
    assert offsets[..0] + run.fetched == run.fetched;
    assert [] + run.body == run.body;
    assert offsets[0..] == offsets && pieces[0..] == pieces;
  }

  lemma ResumeOne(offsets: seq<int>, got: seq<seq<byte>>, rest: Run)
    requires 1 == |got| <= |offsets|
    ensures Resume([offsets[0]], got[0], rest) == Resume(offsets[..1], Concat(got), rest)
  {
    assert Concat(got) == got[0] + Concat([]);
    assert got[0] + [] == got[0];
  }

  lemma ResumeTwice(done: seq<int>, body: seq<byte>, more: seq<int>, moreBody: seq<byte>, rest: Run)
    ensures Resume(done, body, Resume(more, moreBody, rest)) == Resume(done + more, body + moreBody, rest)
  {
    assert done + (more + rest.fetched) == done + more + rest.fetched;
    assert body + (moreBody + rest.body) == body + moreBody + rest.body;
  }

  /** The request for the next page raises: the run ends there. */
  lemma ResumeAfterError(offsets: seq<int>, pieces: seq<PageResponse>, numRecords: int, budget: nat,
                         pages: nat, written: int, body: seq<byte>, reason: string)
    requires |pieces| == |offsets|
    requires pages < |offsets| && pages < budget
    requires pieces[pages] == FetchError(reason)
    ensures Resume(offsets[..pages], body,
                   RunPages(offsets[pages..], pieces[pages..], numRecords, budget - pages, written))
         == Run(offsets[..pages + 1], body, written, Aborted(reason))
  {
    assert offsets[..pages] + [offsets[pages]] == offsets[..pages + 1];
    assert body + [] == body;
  }

  /** No offsets left, or the budget used up: the run ends there. */
  lemma ResumeAtEnd(offsets: seq<int>, pieces: seq<PageResponse>, numRecords: int, budget: nat,
                    pages: nat, written: int, body: seq<byte>)
    requires |pieces| == |offsets|
    requires pages <= budget && (pages == |offsets| || pages == budget < |offsets|)
    ensures Resume(offsets[..pages], body,
                   RunPages(offsets[pages..], pieces[pages..], numRecords, budget - pages, written))
         == Run(offsets[..pages], body, written, if pages == |offsets| then Exhausted else Stopped)
  {
    assert offsets[..pages] + [] == offsets[..pages];
    assert body + [] == body;
  }

  /** The loop leaves after `|got|` pages arrived, with no offsets or no budget left. */
  lemma RunAfterPages(offsets: seq<int>, pieces: seq<PageResponse>, numRecords: int, budget: nat,
                      written: int, got: seq<seq<byte>>)
    requires |pieces| == |offsets|
    requires |got| <= |offsets| && |got| <= budget && (|got| == |offsets| || |got| == budget)
    requires forall i :: 0 <= i < |got| ==> pieces[i] == Page(got[i])
    ensures RunPages(offsets, pieces, numRecords, budget, written)
         == Run(offsets[..|got|], Concat(got), WrittenAfter(offsets, |got|, numRecords, written),
                if |got| == |offsets| then Exhausted else Stopped)
  {
    RunPagesPrefix(offsets, pieces, numRecords, budget, written, got);
    ResumeAtEnd(offsets, pieces, numRecords, budget, |got|, WrittenAfter(offsets, |got|, numRecords, written), Concat(got));
  }

  /** The request after `|got|` arrived pages raises. */
  lemma RunAfterError(offsets: seq<int>, pieces: seq<PageResponse>, numRecords: int, budget: nat,
                      written: int, got: seq<seq<byte>>, reason: string)
    requires |pieces| == |offsets|
    requires |got| < |offsets| && |got| < budget
    requires forall i :: 0 <= i < |got| ==> pieces[i] == Page(got[i])
    requires pieces[|got|] == FetchError(reason)
    ensures RunPages(offsets, pieces, numRecords, budget, written)
         == Run(offsets[..|got| + 1], Concat(got), WrittenAfter(offsets, |got|, numRecords, written), Aborted(reason))
  {
    RunPagesPrefix(offsets, pieces, numRecords, budget, written, got);
    ResumeAfterError(offsets, pieces, numRecords, budget, |got|, WrittenAfter(offsets, |got|, numRecords, written),
                     Concat(got), reason);
  }

  lemma {:induction false} ConcatSnoc(chunks: seq<seq<byte>>, chunk: seq<byte>)
    ensures Concat(chunks + [chunk]) == Concat(chunks) + chunk
    decreases |chunks|
  {
    if chunks == [] {
      assert [] + [chunk] == [chunk];
      assert Concat([chunk]) == chunk + Concat([]);
    } else {
      assert (chunks + [chunk])[1..] == chunks[1..] + [chunk];
      ConcatSnoc(chunks[1..], chunk);
    }
  }

  lemma AppendAssoc(a: seq<byte>, b: seq<byte>, c: seq<byte>)
    ensures a + b + c == a + (b + c)
  {
  }

  lemma EmptyAppend(a: seq<byte>)
    ensures [] + a == a
  {
  }

  lemma DocumentUnclosed(run: Run)
    requires run.exit.Aborted?
    ensures Document(run) == XmlDeclaration + CollectionStart + run.body
  {
    var d := XmlDeclaration + CollectionStart + run.body;
    assert d + [] == d;
  }

  /** The output file `_download_loop` opens with `open(output, 'wb')`. */
  class OutputFile {
    var wasOpened: bool
    var closed: bool
    var data: seq<byte>

    constructor ()
      ensures !wasOpened && !closed && data == []
    {
      wasOpened, closed, data := false, false, [];
    }

    /** Mode `'wb'` truncates. */
    method Open()
      modifies this
      ensures wasOpened && !closed && data == []
    {
      wasOpened, closed, data := true, false, [];
    }

    method Write(bytes: seq<byte>)
      requires wasOpened && !closed
      modifies this
      ensures wasOpened && !closed && data == old(data) + bytes
    {
      data := data + bytes;
    }

    method Close()
      requires wasOpened
      modifies this
      ensures wasOpened && closed && data == old(data)
    {
      closed := true;
    }
  }

  class Tind {
    /** `_stop`: set by `interrupt`, never cleared. */
    var stop: bool
    /** `_num_written`: the end offset of the last page written, kept across downloads. */
    var numWritten: int
    /** `_downloader` is not `None`: a downloader thread has been started. */
    var downloaderStarted: bool

    constructor ()
      ensures !stop && numWritten == 0 && !downloaderStarted
    {
      stop, numWritten, downloaderStarted := false, 0, false;
    }

    /**
     * `interrupt`: sets the stop flag and nothing else.  Joining the
     * downloader thread is a no-op here, since the loop runs to completion
     * inside `Download`; in particular no output file is touched.
     */
    method Interrupt()
      modifies this`stop
      ensures stop
    {
      stop := true;
    }

    /**
     * One pass of the loop body.  `pieceAt(at)` is the page at offset `at`
     * as requested and spliced; when it arrives it is appended to the file
     * and its last record goes to `_num_written`.  A fetch that raises
     * changes nothing.
     */
    method CopyPage(out: OutputFile, at: int, numRecords: int, pieceAt: int -> PageResponse)
      returns (piece: PageResponse)
      requires out.wasOpened && !out.closed
      modifies this`numWritten, out
      ensures piece == pieceAt(at)
      ensures piece.FetchError? ==> numWritten == old(numWritten) && out.data == old(out.data)
      ensures piece.Page? ==> numWritten == EndAt(at, numRecords) && out.data == old(out.data) + piece.body
      ensures out.wasOpened && !out.closed
    {
      var endAt := if at + RecordsPerGet > numRecords then numRecords else RecordsPerGet + at - 1;
      piece := pieceAt(at);
      if piece.Page? {
        out.Write(piece.body);
        numWritten := endAt;
      }
    }

    /**
     * The `while` loop of `_download_loop`, from the stop check before the
     * first request: one spliced page per offset until the offsets run out,
     * the stop flag is seen, or a fetch raises (the `Aborted` exit).  The
     * offsets the loop steps through are `offsets`, and `pieces` are what
     * their requests yield.  An `interrupt` landing after `k` completed
     * pages is modelled by `interruptAfter == Some(k)`.
     */
    method CopyPages(out: OutputFile, startAt: int, target: int, numRecords: int,
                     pieceAt: int -> PageResponse, interruptAfter: Option<nat>,
                     ghost offsets: seq<int>, ghost pieces: seq<PageResponse>)
      returns (exit: LoopExit)
      requires forall i :: 0 <= i < |offsets| ==> offsets[i] == startAt + RecordsPerGet * i && offsets[i] < target
      requires startAt + RecordsPerGet * |offsets| >= target
      requires |pieces| == |offsets|
      requires forall i :: 0 <= i < |offsets| ==> pieces[i] == pieceAt(offsets[i])
      requires out.wasOpened && !out.closed
      modifies this`stop, this`numWritten, out
      ensures var run := RunPages(offsets, pieces, numRecords, Budget(old(stop), interruptAfter, |offsets|), old(numWritten));
        && exit == run.exit
        && numWritten == run.written
        && out.wasOpened && !out.closed && out.data == old(out.data) + run.body
        && stop == (old(stop) || (interruptAfter.Some? && interruptAfter.value <= |Completed(run)|))
    {
      ghost var budget := Budget(stop, interruptAfter, |offsets|);
      var at := startAt;
      var pages := 0;
      ghost var got: seq<seq<byte>> := [];
      if interruptAfter == Some(0) {
        stop := true;
      }
      assert |offsets| > 0 ==> offsets[0] == at;
      while at < target && !stop
        invariant pages == |got| <= |offsets| && pages <= budget
        invariant at == startAt + RecordsPerGet * pages
        invariant pages < |offsets| <==> at < target
        invariant stop == (old(stop) || (interruptAfter.Some? && interruptAfter.value <= pages))
        invariant pages < |offsets| ==> (stop <==> pages >= budget)
        invariant forall i :: 0 <= i < pages ==> pieces[i] == Page(got[i])
        invariant numWritten == WrittenAfter(offsets, pages, numRecords, old(numWritten))
        invariant out.wasOpened && !out.closed && out.data == old(out.data) + Concat(got)
        decreases target - at
      {
        assert offsets[pages] == at;
        var piece := CopyPage(out, at, numRecords, pieceAt);
        match piece
        case FetchError(reason) =>
          RunAfterError(offsets, pieces, numRecords, budget, old(numWritten), got, reason);
          assert |Completed(Run(offsets[..pages + 1], Concat(got), numWritten, Aborted(reason)))| == pages;
          exit := Aborted(reason);
          return;
        case Page(bytes) =>
          ConcatSnoc(got, bytes);
          AppendAssoc(old(out.data), Concat(got), bytes);
          got := got + [bytes];
          at := at + RecordsPerGet;
          pages := pages + 1;
          // an `interrupt` from the controlling thread lands between iterations
          if interruptAfter == Some(pages) {
            stop := true;
          }
          assert pages < |offsets| ==> offsets[pages] == at;
      }
      RunAfterPages(offsets, pieces, numRecords, budget, old(numWritten), got);
      exit := if at < target then Stopped else Exhausted;
    }

    /**
     * `_download_loop`: writes the declaration and the opening tag, runs the
     * loop, then writes the closing tag and closes the file.  When a fetch
     * raises, the exception ends the thread before the closing tag.
     */
    method DownloadLoop(query: string, out: OutputFile, startAt: int, total: int, numRecords: int,
                        fetch: string -> PageResponse, interruptAfter: Option<nat>)
      returns (exit: LoopExit)
      modifies this`stop, this`numWritten, out
      ensures var run := LoopRun(query, startAt, total, numRecords, fetch, old(stop), interruptAfter, old(numWritten));
        && exit == run.exit
        && numWritten == run.written
        && out.wasOpened && out.data == Document(run) && out.closed == !run.exit.Aborted?
        && stop == (old(stop) || (interruptAfter.Some? && interruptAfter.value <= |Completed(run)|))
    {
      var target := total;
      if target < 0 {
        target := numRecords;
      }
      ghost var offsets := Offsets(startAt, target);
      ghost var pieces := Pieces(query, fetch, offsets);
      ghost var run := LoopRun(query, startAt, total, numRecords, fetch, stop, interruptAfter, numWritten);
      assert run == RunPages(offsets, pieces, numRecords, Budget(stop, interruptAfter, |offsets|), numWritten);
      forall i | 0 <= i < |offsets|
        ensures pieces[i] == Piece(query, fetch, offsets[i])
      {
        PiecesAt(query, fetch, offsets, i);
      }
      out.Open();
      out.Write(XmlDeclaration);
      EmptyAppend(XmlDeclaration);
      out.Write(CollectionStart);
      exit := CopyPages(out, startAt, target, numRecords, o => SplicePage(fetch(PageUrl(query, o))), interruptAfter,
                        offsets, pieces);
      if !exit.Aborted? {
        out.Write(CollectionEnd);
        out.Close();
      } else {
        DocumentUnclosed(run);
      }
    }

    /**
     * `download(search, output, start_at, total)`: returns the record count
     * to report, or the exception raised in the caller's thread.  An
     * exception inside the downloader thread does not reach the caller: the
     * thread ends, `join` returns, and `_num_written` is returned as usual.
     */
    method Download(search: string, out: OutputFile, startAt: int, total: int,
                    service: Service, interruptAfter: Option<nat>)
      returns (r: Result<int>)
      modifies this, out
      ensures PlanDownload(search, service.search) == NothingToDo ==>
        r == Ok(0) && unchanged(this) && unchanged(out)
      ensures PlanDownload(search, service.search).Raise? ==>
        r == Err(PlanDownload(search, service.search).failure) && unchanged(this) && unchanged(out)
      ensures PlanDownload(search, service.search).Fetch? ==>
        var plan := PlanDownload(search, service.search);
        var run := LoopRun(plan.query, startAt, total, plan.numRecords, service.fetch,
                           old(stop), interruptAfter, old(numWritten));
        && downloaderStarted
        && r == Ok(run.written) && numWritten == run.written
        && out.wasOpened && out.data == Document(run) && out.closed == !run.exit.Aborted?
        && stop == (old(stop) || (interruptAfter.Some? && interruptAfter.value <= |Completed(run)|))
    {
      var extraction := ExtractQuery(search);
      if extraction.EmptySearch? {
        return Ok(0);
      }
      if extraction.NoQueryParameter? {
        return Err(AttributeError);
      }
      var query := extraction.text;
      var probed := ProbeCount(service.search(ProbeUrl(query)));
      if probed.Err? {
        return Err(probed.error);
      }
      var numRecords := probed.value;
      if numRecords == 0 {
        return Ok(0);
      }
      downloaderStarted := true;
      var exit := DownloadLoop(query, out, startAt, total, numRecords, service.fetch, interruptAfter);
      r := Ok(numWritten);
    }
  }

  /**
   * Once `interrupt` has set the stop flag, which nothing clears, a later
   * download fetches no page: its output file holds the framing alone and
   * `_num_written` keeps its old value, which is what it returns.
   */
  lemma InterruptedRunFetchesNothing(query: string, startAt: int, total: int, numRecords: int,
                                     fetch: string -> PageResponse, interruptAfter: Option<nat>,
                                     written: int)
    ensures var run := LoopRun(query, startAt, total, numRecords, fetch, true, interruptAfter, written);
      && run.fetched == [] && run.written == written
      && Document(run) == XmlDeclaration + CollectionStart + CollectionEnd
  {
  }
}
