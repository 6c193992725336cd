# TIND search-and-download engine, modelled in Dafny

This project models the engine in `martian/tind.py` that downloads MARC XML
records from the `caltech.tind.io` catalogue, and proves properties of that
model. The engine has three parts:

- **Query extraction** (`Tind.download`, lines 79-88). An empty search means
  there is nothing to do. A search that starts with `http` is a browser URL:
  its query is the raw text of the first `p=` parameter, up to the next `&`,
  and is not percent-decoded. Any other search is itself the query.
- **Request URLs** (`url_for_get`, lines 203-208). The URL is the base URL,
  `&p=` with the query encoded by `urllib.parse.quote`, `&jrec=`, `&rg=`, and
  `&of=xm` when MARC output is asked for.
- **The probe and the download loop** (`download`, `interrupt` and
  `_download_loop`, lines 70-197).
  - One HTML search finds the number of records.
  - A `while` loop then requests pages of `_RECORDS_PER_GET = 200` records.
  - Each page's records are cut out of their `<collection>` envelope and
    appended to the output file.
  - The loop stops when the offsets run out, when the stop flag that
    `interrupt` sets is seen, or when a request raises.

The modules follow the program's layers:

| module | file | what it holds |
|---|---|---|
| `Outcomes` | `outcomes.dfy` | `Option`, `Result`, and the exceptions `download` can raise |
| `PyText` | `pytext.dfy` | the Python built-ins the engine relies on: `bytes.find`, `bytes.rfind`, slicing, `str(int)`, `int(str)` and removing commas |
| `Quote` | `quote.dfy` | `urllib.parse.quote` (UTF-8, then the percent-encoding of section 2.1 of RFC 3986; `~` is left unescaped, as from Python 3.7 on) and the percent-decoding a server applies |
| `Query` | `query.dfy` | the query extraction, including the leftmost match of `re.search('p=([^&]+)', ...)` |
| `Url` | `url.dfy` | `url_for_get`, and what a reader of its URL gets back |
| `Probe` | `probe.dfy` | the preliminary search's status, error and count handling |
| `Envelope` | `envelope.dfy` | the XML framing and the byte splice `v[v.find(open) + 52 : v.rfind(close)]` |
| `Tind` | `tind.dfy` | the `Tind` class, the output file, and the loop |

**The loop.** It is specified by the function `RunPages`.
- Its input is the offsets the loop walks, what each of their requests
  yields, and how many pages the loop may fetch before it sees the stop flag.
- Its result is a `Run`: the offsets requested, the bytes appended, the new
  `_num_written`, and how the loop ended.
- The `while` loop itself is the method `Tind.Tind.CopyPages`. It is proved
  to produce exactly that `Run` on the object's fields and on the output file.
- Lemmas about `RunPages` state what the source promises:
  - which offsets are requested;
  - what is written, in what order;
  - what `_num_written` ends up as;
  - when the closing tag is written.

**Inputs in place of collaborators.**
- The network is a `Service` value with two functions:
  - `search` maps the probe URL to a `ProbeResponse`: the status code, the
    transport error if any, and the text of each `.searchresultsboxheader`
    element of the page;
  - `fetch` maps a page URL to the page body or the exception pycurl raised.
- The downloader thread runs to completion inside `Download`.
- A call of `interrupt` from the controlling thread lands between loop
  iterations. It is modelled by `interruptAfter`, the number of pages after
  which the flag is set.

**Behaviour kept as the code has it.**
- The request carries the extracted query without decoding it first, and
  there are no `c=` collection parameters.
- A status of exactly 300 is accepted; only a status above 300 is a
  `ServiceFailure`.
- The count comes from the second marker element only.
- The loop test is the strict `start_at < total`.
- The splice skips 52 bytes after the start of a 51-byte tag.
- A fetch that raises ends the downloader thread without writing
  `</collection>` and without calling `out.close()`. The exception does not reach
  the caller: `join` returns and `download` returns `_num_written`.
- Four more ways `download` fails on unexpected input are modelled:
  - `AttributeError`: a URL with no `p=` match;
  - `IndexError`: exactly one marker element;
  - `UnboundLocalError`: no count on a page with three markers (line 121
    reads `details` before assigning it);
  - `ValueError`: a count made only of commas.

## Model

| member | source | states |
|---|---|---|
| PyText.Find | martian/tind.py:186 | `v.find(pat)`: an index where the pattern occurs with no occurrence before it, or -1 when it occurs nowhere |
| PyText.RFind | martian/tind.py:187 | `v.rfind(pat)`: an index where the pattern occurs with no occurrence after it, or -1 when it occurs nowhere |
| PyText.SliceBound | martian/tind.py:188 | a slice bound in range is kept, one past the end becomes the length, a negative one counts from the end, and one before the start becomes 0 |
| PyText.Slice | martian/tind.py:188 | `v[i:j]` is the run of `v` between the normalised bounds, or empty when they cross; never longer than `v` |
| PyText.IntToString | martian/tind.py:206-207 | `str(n)`: a leading `-` exactly when `n` is negative, then decimal digits that read back as the magnitude of `n`, with no leading zero except for `0` itself |
| PyText.ParseInt | martian/tind.py:118 | `int(s)` on digits fails (the `ValueError`) exactly when `s` is empty |
| PyText.DecimalRoundTrip | martian/tind.py:118 | reading back the decimal digits of `n` gives `n` |
| PyText.RemoveCommas | martian/tind.py:118 | `s.replace(',', '')` has no comma and is no longer than `s` |
| PyText.RemoveCommasKeeps | martian/tind.py:118 | every character kept by `s.replace(',', '')` comes from `s` |
| PyText.RemoveCommasAppend | martian/tind.py:118 | removing commas distributes over concatenation |
| PyText.UngroupThousands | martian/tind.py:118 | removing commas from a count printed with thousands separators gives back its digits |
| Quote.QuoteByte | martian/tind.py:205 | one byte is kept as itself exactly when it is a safe ASCII character; otherwise it becomes `%` followed by two upper-case hex digits whose value is the byte |
| Quote.Quote | martian/tind.py:205 | `quote(s)` is at least as long as `s` and holds only safe characters and `%` |
| Quote.Utf8 | martian/tind.py:205 | the shortest form: one byte exactly below 0x80, equal to the character, two below 0x800, three below 0x10000, four from there on; a lead byte in the range of its length and continuation bytes in 0x80-0xBF |
| Quote.Utf8Value | martian/tind.py:205 | the scalar value a one- to four-byte UTF-8 sequence encodes (the decoder `Utf8RoundTrip` is stated against) |
| Quote.Utf8RoundTrip | martian/tind.py:205 | decoding the UTF-8 bytes of any character gives back that character |
| Quote.Utf8Injective | martian/tind.py:205 | distinct characters have distinct UTF-8 encodings |
| Quote.DecodeQuoteBytes | martian/tind.py:205 | percent-decoding the escaped bytes gives back those bytes |
| Quote.DecodeQuote | martian/tind.py:205 | a server decoding `quote(s)` receives exactly the UTF-8 bytes of `s` |
| Quote.QuoteFixpoint | martian/tind.py:205 | `quote(s) == s` if and only if every character of `s` is safe |
| Quote.QuoteEscapes | martian/tind.py:205 | when `s` holds a character that is not safe, `quote(s)` holds a `%` |
| Query.FirstParamFrom | martian/tind.py:84 | the leftmost position at or after `i` where `p=[^&]` matches, or -1 when there is none |
| Query.UpToAmp | martian/tind.py:84 | what greedy `[^&]+` takes: the longest prefix free of `&`, which stops at an `&` or at the end |
| Query.IsUrl | martian/tind.py:82 | `search.startswith('http')` (a definition; no contract) |
| Query.ExtractQuery | martian/tind.py:79-88 | an empty search, and only that, means nothing to do; a non-URL search is the query itself; a URL has no query exactly when `p=[^&]` matches nowhere, and otherwise its query is the undecoded non-empty text after the leftmost match, ending at the next `&` or the end |
| Url.UrlForGet | martian/tind.py:203-208 | every request URL starts with `_BASE_GET_URL` |
| Url.SplitAmp | martian/tind.py:203-208 | the `&`-separated fields a server reads from a URL; none holds a `&` |
| Url.SplitAmpJoin | martian/tind.py:203-208 | a field without `&` followed by `&` and more text splits as that field and then the fields of the rest |
| Url.UrlFields | martian/tind.py:203-208 | split at `&`, a request URL reads back as the base URL, `p=` and the quoted query, `jrec=` and `str(start_at)`, `rg=` and `str(num_get)`, and `of=xm` exactly when `marc` is set; with `IntToString`'s contract the two numbers read back as the values given |
| Url.UrlRequestsMarc | martian/tind.py:208 | the URL ends in `&of=xm` if and only if MARC output is asked for |
| Url.UrlCarriesQuery | martian/tind.py:203-208 | the query extraction applied to a request URL yields the query exactly as `quote` encoded it, or no query for an empty one |
| Url.PastedUrlEncodedTwice | martian/tind.py:84-85 | a request URL pasted back as the search is encoded twice: the server decodes the once-encoded text, not the query, and that differs from the query exactly when the query needed escaping |
| Url.RequoteIsStable | martian/tind.py:205 | quoting an already quoted query changes it if and only if the first quoting changed the query |
| Probe.CountRun | martian/tind.py:116 | what greedy `[0-9,]+` takes: the longest prefix of digits and commas |
| Probe.FirstCountFrom | martian/tind.py:116 | the leftmost position at or after `i` where the count pattern matches, or -1 |
| Probe.CountGroup | martian/tind.py:116 | there is no match exactly when the pattern matches nowhere; the group is non-empty and made of digits and commas |
| Probe.DigitsOfCount | martian/tind.py:116-118 | removing the commas from the group leaves only digits, so `int` can only fail on an empty string |
| Probe.ProbeCount | martian/tind.py:97-124 | status above 300, and only that, gives `ServiceFailure`; otherwise an error, and only that, gives `RequestError`; no marker gives 0; a single marker, and only that, gives `IndexError`; no count match in the second marker, and only that, gives `InternalError` (fewer or more than three markers) or the unbound `details` error (three markers); a group made only of commas, and only that, gives `ValueError`; any other group gives `Ok`, and the count returned is the decimal value of the second marker's group with its commas removed |
| Probe.CountRunStops | martian/tind.py:116 | the greedy run over a count followed by `<` is the count |
| Probe.CountGroupFinds | martian/tind.py:116 | in a marker with no earlier match, the group is exactly the printed count |
| Probe.ReadGroupedCount | martian/tind.py:116-118 | a count printed with thousands separators matches the group pattern and is read back as the count |
| Probe.ProbeReadsCount | martian/tind.py:116-124 | a successful probe whose second marker reads "1,234 records found" yields 1234, for every count |
| Envelope.Splice | martian/tind.py:185-188 | `v[v.find(open) + 52 : v.rfind(close)]` (a definition; SpliceBetweenTags, SpliceServicePage, SpliceDropsByteAfterTag and SpliceWithoutTags state what it yields) |
| Envelope.TagLengths | martian/tind.py:186-188 | the opening tag is 51 bytes, so the constant 52 skips one byte past it; the closing tag is 13 bytes |
| Envelope.SpliceBetweenTags | martian/tind.py:185-188 | the splice returns exactly the bytes between the byte after the first opening tag and the last closing tag |
| Envelope.HeaderHasOneOpenTag | martian/tind.py:156-157 | the file's header holds no match of the opening tag before its own |
| Envelope.SpliceServicePage | martian/tind.py:185-188 | a page framed as the service frames it (declaration, tag, newline, records, closing tag) gives back its records whole |
| Envelope.SpliceDropsByteAfterTag | martian/tind.py:188 | without a newline after the opening tag, the splice loses the records' first byte |
| Envelope.SpliceWithoutTags | martian/tind.py:185-188 | a body with neither tag loses its first 51 bytes and its last byte, or becomes empty |
| Tind.PageUrl | martian/tind.py:168 | the request for the page at an offset: `url_for_get(query, 200, start_at, marc=True)` (a definition; UrlFields states its fields) |
| Tind.ProbeUrl | martian/tind.py:96 | the preliminary request: `url_for_get(query, num_get=1, start_at=1, marc=False)` (a definition) |
| Tind.Target | martian/tind.py:152-153 | a negative `total` is replaced by `num_records` (a definition) |
| Tind.RunPages | martian/tind.py:159-192 | the loop over the remaining offsets as a function: stop when no offset or no budget is left, end on a request that raised, otherwise append the page, store its end offset and go on (a definition; RunPagesRequests and RunPagesWrites state what it yields, CopyPages is proved against it) |
| Tind.LoopRun | martian/tind.py:151-192 | the whole loop of `_download_loop` on the offsets from `start_at` to the target and the pages the service returns for them (a definition) |
| Tind.Document | martian/tind.py:155-197 | the file a run leaves: the declaration, the opening tag, the run's records, and `</collection>` unless a request raised (a definition; DownloadLoop is proved to write it) |
| Tind.EndAt | martian/tind.py:161-164 | the page's end offset is `num_records` or `start_at + 199`, whichever is smaller, and never exceeds either |
| Tind.Offsets | martian/tind.py:159-191 | the loop's offsets are `start_at + 200 i`, each below the target, and they stop at the first one that reaches it |
| Tind.OffsetsFor450 | martian/tind.py:159-191 | 450 records from 1: pages at 1, 201, 401 ending at 200, 400, 450; 1 record gives no page; 401 records give two pages |
| Tind.RecordRequested | martian/tind.py:159 | a record between `start_at` and `total` is requested if and only if it is below `total` or `total - start_at` is not a multiple of 200 |
| Tind.PiecesAt | martian/tind.py:168-188 | the response for the `i`-th offset is that offset's page, spliced |
| Tind.RunPagesRequests | martian/tind.py:159-192 | the loop requests a prefix of the offsets, no more pages than its budget; it stops early only on the stop flag or on a request that raised, which is the last one; every earlier page arrived |
| Tind.RunPagesWrites | martian/tind.py:183-192 | the loop appends the records of the pages that arrived, in order; `_num_written` is the end offset of the last page that arrived, or unchanged when none did |
| Tind.RunOfFragments | martian/tind.py:159-192 | when every page arrives, the loop appends each page's fragment for the offsets its budget allows |
| Tind.DocumentOfServicePages | martian/tind.py:151-197 | when the service frames every page as it does, the file is the declaration, the opening tag, the pages' fragments in order and the closing tag; all pages when nothing stops the loop, the first `k` when the flag is seen after `k` |
| Tind.InterruptedRunFetchesNothing | martian/tind.py:142-159 | with the stop flag already set, the loop fetches nothing, `_num_written` keeps its value, and the file holds the framing alone |
| Tind.RunPagesPrefix | martian/tind.py:159-192 | after pages that all arrived, the loop's run is those pages followed by the run over the remaining offsets |
| Tind.RunAfterPages | martian/tind.py:159-192 | a loop that leaves after its pages arrived, with no offsets or no budget left, ends `Exhausted` or `Stopped` with those pages written |
| Tind.RunAfterError | martian/tind.py:177-181 | a request that raises after some pages arrived ends the loop `Aborted`, with those pages written and the failed offset the last requested |
| Tind.DocumentUnclosed | martian/tind.py:177-181 | after a request raised, the file lacks the closing tag |
| Tind.PlanDownload | martian/tind.py:79-128 | an empty search means nothing to do; `AttributeError`, and only it, comes from a URL without a query; for a query, the probe's failure, and only that, is raised as it is, a count of 0 means nothing to do, and a positive count starts the download with the extracted query and that count; a download only ever starts that way |
| Tind.OutputFile.Open | martian/tind.py:155 | opening with `'wb'` leaves an empty, open file |
| Tind.OutputFile.Write | martian/tind.py:156 | a write appends its bytes |
| Tind.OutputFile.Close | martian/tind.py:197 | closing keeps the contents |
| Tind.Tind.constructor | martian/tind.py:61-67 | a new engine has the stop flag clear, `_num_written` 0 and no downloader |
| Tind.Tind.Interrupt | martian/tind.py:142-148 | sets the stop flag and changes nothing else |
| Tind.Tind.CopyPage | martian/tind.py:160-192 | one loop iteration: a page that arrives is appended and its end offset stored in `_num_written`; a request that raises changes nothing |
| Tind.Tind.CopyPages | martian/tind.py:159-193 | the `while` loop ends as `RunPages` says: its exit, `_num_written` and the bytes appended are those of the run, and the stop flag is set exactly when it was set before or the interrupt landed within the pages that arrived |
| Tind.Tind.DownloadLoop | martian/tind.py:151-197 | the file holds the declaration, the opening tag, the run's records and, unless a request raised, the closing tag, and is closed exactly when no request raised; `_num_written` is the run's |
| Tind.Tind.Download | martian/tind.py:70-139 | no work or an exception leaves the engine and the file untouched; otherwise the loop runs on the extracted query and the probed count, and the result is the final `_num_written` |

## Left out

- Threads: `Thread` start and `join` in `download` and `interrupt` are not modelled. The loop runs to completion inside `Download`, and an interrupt is a page count (`interruptAfter`) after which the flag is set. Because of this, `interrupt` cannot block on the thread. The flag is read only at the loop test, so `interruptAfter` covers every interleaving the loop can observe: `Some(0)` is an interrupt before the first test, and `Some(k)` is one that lands while the `k`-th page is being fetched or after it.
- The transport: the `net` call, pycurl and certifi are replaced by the `Service` functions. Timeouts, retries and a `None` response are not modelled. `martian/network.py` is not part of this model.
- HTML parsing: BeautifulSoup and lxml are replaced by the list of marker texts that `soup.select` would return.
- Notifier and tracer messages and `humanize.intcomma` are user-facing text only. `notifier.fatal` is taken to return, as the code after line 113 assumes.
- The file system: the output file is an object holding bytes, an open flag and a closed flag. Failures to open or write are not modelled.
- The Python `int` limit on digit strings longer than 4300 characters is not modelled.
- Quote.PercentDecode is the strict decoding of RFC 3986. It rejects malformed escapes rather than passing them through as a lenient server would.
- Tind.Tind.CopyPages: `pieceAt` is passed in as a function value: the request of `url_for_get(query, 200, at, marc=True)` followed by the splice, which `DownloadLoop` supplies. The loop is proved against that function rather than against the individual `url_for_get`, `find` and `rfind` calls.
- Url.UrlForGet: its own contract states only the base-URL prefix. UrlFields, UrlRequestsMarc and UrlCarriesQuery state what a reader of the URL gets back.
- Characters outside Unicode scalar values: Dafny's `char` cannot hold the lone surrogates a Python `str` may carry (from `surrogateescape` decoding, for example). On those, `quote` raises `UnicodeEncodeError` at line 205, reached from the probe request at line 96; the model has no such input.
- The debug `log` calls under `__debug__` are not modelled.
