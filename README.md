# rustyproxy-egui core, modelled in Dafny

rustyproxy-egui is the desktop front end of an intercepting HTTP proxy. It
shows the proxy's request history, which it fetches incrementally from a
history store. It lets the user inspect one request, edit and re-send it
(the Repeater), or replay it many times with a list of payloads substituted
for a placeholder (the Intruder, sent in batches). The Intruder's results
are shown in paged tables.

This project models that core:

- `BatchReq` (batch_req.rs) models the parsing of a raw request transcript
  into a `Request`: method, URI, URL, header map and body. The `unwrap`s of
  the method, header name and header value parses are modelled as panics.
  It also models
  the batch size rule, the split of the requests into batches, the
  per-batch worker and `run`, which turns each batch into a `Promise`.
- `Tables` (tables.rs) models the `paginate!` range and the `>` / `<`
  page buttons.
- `DbUtils` (dbutils.rs) models the `history` row to `HistLine` mapping,
  the host extraction, the database path and `get_new_from_last_id`. The
  table is a sequence of rows in ascending id order.
- `History` (history.rs) models the history view as a class with the
  fields of `History`. The merge of a fetched batch into the view is
  modelled, including the cursor update and the single in-flight fetch
  slot, as is the paging of the view.
- `Inspector` (inspector.rs) models the inspector window as a class with
  the fields of `Inspector`, plus the pure steps it uses:
  - the `\r` escaping of the editor;
  - payload substitution;
  - payload-file splitting;
  - the draining of finished batch promises into the results table;
  - the paging of the results;
  - the Repeater's single-slot request promise;
  - `copy_as_curl`.
- `Proxy` (proxy.rs) models the connection form: which inputs are
  accepted, the `usize` parse of the port with its fallback to 8443, and
  when the view switches to remote mode.
- `Components` (components.rs) models the set of open windows.
- `FilterCat` (filter_cat.rs) models the filter categories and their copy
  helpers.

Modules `Wrappers`, `Seqs` and `Text` are helpers. `Text` gives the
standard-library string operations the source relies on their Rust
meaning:

- `split`: the text up to the first occurrence of the separator, then the
  pieces of the text after it, so matches never overlap;
- `collect::<String>()`: concatenation;
- `skip(i).take(1)`: `Nth`;
- `replace`: the same cut, with the replacement written where each
  occurrence was;
- `trim_end`: over the Unicode White_Space set.

Threads and promises are values. A `Promise` records the batch it runs.
Whether a promise is ready at a given frame is an input (`ready`). The
HTTP transport is a function from `Request` to `Delivery`. A method of a
class names in its `modifies` clause the fields it may change
(``modifies this`f``); every other field keeps its value.

Behaviour of the code worth noting:

- The cursor after a merge is the larger of the old cursor and the id of
  the LAST merged row. It is not the maximum of all ids. The two agree for
  the store's ascending order (`History.MergedIsMaxWhenAscending`) and
  differ otherwise (`History.MergeOutOfOrder`).
- A header line without `": "` is not skipped. Its whole text is taken as
  the header name, with an empty value. Such a line parses only when that
  text is a token (no `:` or space); otherwise `from_strings` panics.
- Header names are stored lower-cased, so `Host: a` followed by `host: b`
  keeps only `host` with `b` (`BatchReq.HeaderMapLastWins`).
- The body is the text between the first and the second blank line. A
  body that itself holds a blank line is cut there
  (`BatchReq.BodyTruncated`), and a transcript without a blank line has an
  empty body (`BatchReq.BodyWithoutSeparator`).
- `from_strings` accepts a header value with non-ASCII characters, but the
  copy in `split` (`Request::from`) panics on it.
- A header value is every piece after the first `": "`, concatenated
  without the separator, not the text after the first `": "`
  (`BatchReq.HeaderValueDropsSeparators`).
- The history table slices first and filters after (`History.FilterAfterSlice`).
- `paginate!` is declared with three arguments but called with four. The
  extra filter argument plays no part in the range.
- `filter!` is not part of this model. It is a `keep` predicate on the
  host.

## Model

| member | source | states |
|---|---|---|
| BatchReq.HeaderLinesOf | src/app/backend/batch_req.rs:47-53 | the header lines are the longest prefix of non-empty lines after the start line: all non-empty, followed by an empty line or the end |
| BatchReq.HeaderMapKeys | src/app/backend/batch_req.rs:47-67 | a key is in the header map exactly when it is the lower-cased name of some header line |
| BatchReq.HeaderMapLastWins | src/app/backend/batch_req.rs:54-66 | a key maps to the value of the last line whose name equals it up to ASCII case |
| BatchReq.HeaderKeyIgnoresCase | src/app/backend/batch_req.rs:54-57 | two names are stored under the same key exactly when they agree letter by letter up to ASCII case |
| BatchReq.HeaderLineRoundTrip | src/app/backend/batch_req.rs:54-65 | splitting `name: value` on the first `": "` gives back the name and the value when neither contains `": "` |
| BatchReq.HeaderValueDropsSeparators | src/app/backend/batch_req.rs:58-66 | for a name and first value without `:`, the line `name: v1: v2` has name `name` and value `v1v2`: a value that itself contains `": "` is sent with those separators removed (`a: b: c` gives value `bc`) |
| BatchReq.ParseMethodAndUri | src/app/backend/batch_req.rs:37-39 | the first two space-separated words of a well-formed transcript are its method and URI |
| BatchReq.ParseHeaderLines | src/app/backend/batch_req.rs:47-53 | the lines between the start line and the blank line of a well-formed transcript are exactly its header lines |
| BatchReq.ParseBody | src/app/backend/batch_req.rs:40-46 | the text after the first blank-line separator of a well-formed transcript is its body |
| BatchReq.BodyWithoutSeparator | src/app/backend/batch_req.rs:40-46 | a transcript without a blank line has an empty body |
| BatchReq.BodyTruncated | src/app/backend/batch_req.rs:40-46 | a body holding a blank line is cut at it: only the text before it is sent |
| BatchReq.TranscriptRoundTrip | src/app/backend/batch_req.rs:34-67 | parsing a formatted well-formed transcript gives back its method, URI, header lines and body |
| BatchReq.CheckHeaders | src/app/backend/batch_req.rs:48-67 | the header loop panics exactly when some header line has a name that is not 1 to 65535 token characters or a value with a control character other than tab |
| BatchReq.BuildRequest | src/app/backend/batch_req.rs:34-77 | a request is built exactly when the method and every header line parse (otherwise `from_strings` panics), and it carries the index `idx` |
| BatchReq.BuildRequestOfFormatted | src/app/backend/batch_req.rs:34-77 | a formatted transcript builds exactly when its method and header lines parse, and then gives its method, the URL `scheme://target+uri` for the ssl flag, its body and the header map of its lines keyed on lower-cased names |
| BatchReq.CopyRequest | src/app/backend/batch_req.rs:19-32 | `Request::from` panics exactly when a header value is not visible ASCII, and otherwise copies every field |
| BatchReq.Collect | src/app/backend/batch_req.rs:34-78 | the built list exists exactly when every element built, and then holds their values in order |
| BatchReq.CollectStaysErr | src/app/backend/batch_req.rs:34-78 | once a prefix has panicked, the whole list panics with the same error |
| BatchReq.BuildRequests | src/app/backend/batch_req.rs:34-77 | the list is built exactly when every transcript parses, with one request per transcript, the i-th with index i |
| BatchReq.FromStrings | src/app/backend/batch_req.rs:34-78 | the loop pushes exactly the requests `BuildRequests` describes, and panics with the first failed parse |
| BatchReq.BatchSize | src/app/backend/batch_req.rs:88-92 | batches of 250 below 1000 requests; otherwise the least size giving at most 1000 batches, with `(b-1)*1000 < n <= b*1000` |
| BatchReq.Chunks | src/app/backend/batch_req.rs:101-121 | every batch is non-empty and at most `k` long; all but the last are exactly `k` long |
| BatchReq.ChunksFlatten | src/app/backend/batch_req.rs:101-121 | the batches, concatenated in order, are the request list: nothing lost, duplicated or reordered |
| BatchReq.ChunksCount | src/app/backend/batch_req.rs:101-121 | the number of batches `c` of size `k` satisfies `(c-1)*k < n <= c*k` |
| BatchReq.BatchCountBounded | src/app/backend/batch_req.rs:86-98 | `run` never starts more than 1000 batches |
| BatchReq.BatchSizeExample | src/app/backend/batch_req.rs:88-92 | 2500 requests go in batches of 3, which makes 834 batches |
| BatchReq.SplitIntoBatches | src/app/backend/batch_req.rs:101-121 | panics exactly on an empty list, a zero step (`StepByZero`) or a header value that is not visible ASCII, and otherwise returns `Chunks` |
| BatchReq.CopyChunk | src/app/backend/batch_req.rs:108-118 | the inner loop copies `payloads[n..end]`, in order, into the batch, and panics exactly when one of them has a header value that is not visible ASCII |
| BatchReq.Execute | src/app/backend/batch_req.rs:133-152 | a result carries its request's index and is a failure exactly when the transport fails |
| BatchReq.BatchResults | src/app/backend/batch_req.rs:123-156 | one result per request of the batch |
| BatchReq.ByBatch | src/app/backend/batch_req.rs:123-157 | the worker's loop returns one result per request, in order, each with its request's index |
| BatchReq.BatchResultsAppend | src/app/backend/batch_req.rs:123-157 | running two batches one after the other gives the results of their concatenation |
| BatchReq.Run | src/app/backend/batch_req.rs:86-99 | panics exactly on an empty request list or a header value that is not visible ASCII; otherwise keeps the existing promises and appends one promise per batch, in order |
| Tables.Paginate | src/app/mods/tables.rs:47-60 | the range starts at `page*k`, its end is at most `n` and at most `start+k`, and it is inverted exactly when `page*k > n` |
| Tables.PageLength | src/app/mods/tables.rs:49-58 | a range that is not inverted holds at most `k` rows |
| Tables.PagesAdjacent | src/app/mods/tables.rs:49-58 | a full page ends where the next page starts |
| Tables.PageOfRow | src/app/mods/tables.rs:49-58 | every row position below `n` lies within page `i / k` |
| Tables.NextPage | src/app/mods/tables.rs:26-32 | `>` underflows exactly when `page*k > n`, and otherwise advances exactly when more than `k` items remain |
| Tables.PrevPage | src/app/mods/tables.rs:33-37 | `<` stays on page 0 and otherwise goes back one page |
| Tables.NextPageStartsInside | src/app/mods/tables.rs:26-32 | a page that `>` moves to starts before the last item |
| Tables.NextThenPrev | src/app/mods/tables.rs:26-37 | `<` undoes a `>` that moved |
| Tables.ButtonsKeepStartInside | src/app/mods/tables.rs:26-37 | both buttons keep `page*k <= n`, so `>` never underflows after a button press |
| Tables.ResizeBreaksPage | src/app/mods/tables.rs:17-37 | raising items-per-page with the slider leaves the page where it was, which can invert the range and make `>` underflow |
| DbUtils.DbPath | src/app/backend/dbutils.rs:4-7 | the database path is the project directory followed by `/hist.db` |
| DbUtils.DbPathInjective | src/app/backend/dbutils.rs:4-7 | distinct project directories use distinct database files |
| DbUtils.HostHasNoCrlf | src/app/backend/dbutils.rs:53-62 | the extracted host never contains a CRLF |
| DbUtils.HostOfHostless | src/app/backend/dbutils.rs:53-62 | a request without `ost: ` has an empty host |
| DbUtils.HostOfHostLine | src/app/backend/dbutils.rs:53-62 | the host written after the first `ost: ` is the host extracted |
| DbUtils.RowToHistLine | src/app/backend/dbutils.rs:42-63 | id and raw are copied, `params` holds exactly when the column is 1, and the host is extracted from the raw request |
| DbUtils.Query | src/app/backend/dbutils.rs:37-41 | the query returns at most the table's rows, all with ids above the cursor |
| DbUtils.QueryContents | src/app/backend/dbutils.rs:37-41 | the query returns the line of every row whose id is above the cursor, and only lines of such rows |
| DbUtils.QueryAbove | src/app/backend/dbutils.rs:37-41 | the query returns only ids taken from the table: any bound that every table id exceeds, every answer id exceeds too |
| DbUtils.QueryAscending | src/app/backend/dbutils.rs:37-41 | on a table in id order, the answer is in strictly ascending id order |
| DbUtils.QueryAppend | src/app/backend/dbutils.rs:37-41 | querying a table grown at the end is querying each part |
| DbUtils.GetNewFromLastId | src/app/backend/dbutils.rs:33-75 | `None` exactly when the database cannot be opened, otherwise the rows above the cursor, as the query returns them |
| History.MergedLastId | src/app/mods/history.rs:111-122 | the cursor never decreases, is unchanged by an empty fetch, and is the old cursor or the last row's id, whichever is larger |
| History.MaxId | src/app/mods/history.rs:111-122 | the largest of the old cursor and the ids merged |
| History.MergedIsMaxWhenAscending | src/app/mods/history.rs:111-122 | for rows in ascending id order, the merged cursor is the maximum id seen |
| History.MergeOutOfOrder | src/app/mods/history.rs:114-122 | for rows out of order, the merged cursor is below the maximum id |
| History.MergeThenFetchOnlyNew | src/app/mods/history.rs:97-134 | after a merge, the next fetch returns exactly the rows added to the store since the previous fetch |
| History.HistoryPageAsWritten | src/app/mods/history.rs:136-149 | the history page, sized by the cursor rather than by the history length, exists exactly when its range is not inverted and fits the history |
| History.HistoryPageGapPanics | src/app/mods/history.rs:136-148 | one row with id 2 and cursor 2 gives a range past the history's end, so the slice panics |
| History.HistoryPage | src/app/mods/history.rs:141-149 | the page sized by the history length exists exactly when `page*k` is within it; it holds at most `k` rows, each a history row kept by the filter |
| History.EveryRowHasAPage | src/app/mods/history.rs:141-149 | every row the filter keeps is shown on page `i / k` |
| History.FilterAfterSlice | src/app/mods/history.rs:141-149 | filtering after slicing can show fewer than `k` rows even when more kept rows exist |
| History.History.constructor | src/app/mods/history.rs:46-60 | the default view: cursor 0, empty history, page 0, 10 items per page, no filter, no selection, no fetch |
| History.History.Clone | src/app/mods/history.rs:30-44 | a fresh copy of every field except the selection and the in-flight fetch, which are cleared |
| History.History.SetLastId | src/app/mods/history.rs:71-73 | sets the cursor and changes nothing else |
| History.History.ResetPromise | src/app/mods/history.rs:79-81 | clears the fetch slot and changes nothing else |
| History.History.MergeRows | src/app/mods/history.rs:114-122 | the loop collects the rows newest-first and leaves the cursor at `MergedLastId` |
| History.History.PrependAll | src/app/mods/history.rs:132-134 | inserting each collected row at the front puts the fetched rows, in store order, before the old history |
| History.History.RemoteFrame | src/app/mods/history.rs:97-134 | a fetch from the current cursor starts only when the slot is empty. A success prepends the rows and merges the cursor, a failure changes only the slot, and either one clears the slot |
| History.History.ClickNext | src/app/mods/history.rs:136-185 | `>` over the cursor-sized table: underflows exactly when `page*k` exceeds the cursor, otherwise moves as `NextPage` says |
| History.History.ClickPrevious | src/app/mods/tables.rs:33-37 | `<` on the history view moves as `PrevPage` says and changes nothing else |
| Inspector.UnescapeEscape | src/app/mods/inspector.rs:148-174 | the editor's `\r` to `\r\n` escaping is undone before sending, for any text without a backslash |
| Inspector.EscapeLosesTypedEscapes | src/app/mods/inspector.rs:148-174 | a CR-free text that starts with the typed four characters `\r\n` comes back with a carriage return in their place |
| Inspector.EscapeWithoutCr | src/app/mods/inspector.rs:148-174 | the reset escape leaves a text without carriage returns unchanged |
| Inspector.PrepareRequests | src/app/mods/inspector.rs:306-315 | one prepared request per payload |
| Inspector.PreparedFillsGaps | src/app/mods/inspector.rs:306-315 | the i-th prepared request is the unescaped template with every placeholder replaced by the i-th payload |
| Inspector.PreparedWithoutMarker | src/app/mods/inspector.rs:306-315 | without a placeholder, every prepared request is the unescaped template |
| Inspector.PayloadList | src/app/mods/inspector.rs:327-334 | a payload file gives at least one payload, and no payload ends in white space |
| Inspector.PayloadListOfLines | src/app/mods/inspector.rs:327-334 | a file of lines joined by newlines, none ending in white space and the last non-empty, loads as exactly those lines |
| Inspector.ToRow | src/app/mods/inspector.rs:364-381 | a success is stored as its row; a failure as a row with its index, `SRVBUG` and the error text |
| Inspector.Rows | src/app/mods/inspector.rs:363-382 | one row per result, each with the index of its request |
| Inspector.StillPending | src/app/mods/inspector.rs:361-386 | the promises kept are some of the old ones |
| Inspector.DrainConserves | src/app/mods/inspector.rs:361-386 | every request of every batch is either drained into a row or still pending |
| Inspector.DrainAllReady | src/app/mods/inspector.rs:361-386 | when every batch is ready, the drained rows are the results of all requests in order and no promise is kept |
| Inspector.RetainAsWritten | src/app/mods/inspector.rs:361-386 | the retain as written: rows come from the first readiness check and the kept promises from the second |
| Inspector.RetainAsWrittenAccounts | src/app/mods/inspector.rs:361-386 | with readiness that never reverts, rows pushed plus requests still owed never exceed the requests sent, and equal them exactly when no non-empty batch becomes ready between the two checks |
| Inspector.DrainAsWrittenLosesResults | src/app/mods/inspector.rs:361-386 | a batch that finishes between the two checks is dropped without its rows |
| Inspector.RunThenDrainAll | src/app/mods/inspector.rs:316-386 | building, running and fully draining n transcripts gives n rows, the i-th with index i |
| Inspector.ResultsPage | src/app/mods/inspector.rs:387-395 | the results page exists exactly when its range is not inverted and every row's index names a payload; it holds at most `k` rows, each shown with its payload |
| Inspector.ResultsPageShown | src/app/mods/inspector.rs:387-395 | when every result index names a payload, every page whose range is not inverted can be shown |
| Inspector.ShorterPayloadsBreakDisplay | src/app/mods/inspector.rs:327-395 | loading a shorter payload file after a run leaves results whose index has no payload, so the display panics |
| Inspector.RepeaterRequest | src/app/mods/inspector.rs:172-206 | the Repeater's parse panics exactly when a header line does not parse; when the method parses too, it gives what `BatchReq.BuildRequest` gives |
| Inspector.SlotAfterSend | src/app/mods/inspector.rs:208-241 | a send fills an empty slot and leaves a busy slot untouched |
| Inspector.SlotAfterPoll | src/app/mods/inspector.rs:244-250 | the slot is cleared exactly when it was busy and its promise is ready with a success |
| Inspector.RepeaterStuckAfterError | src/app/mods/inspector.rs:208-250 | once a request fails, the slot stays busy with it whatever is sent afterwards |
| Inspector.CopyAsCurl | src/app/mods/inspector.rs:456-476 | the loop builds the `curl` command `Curl` describes |
| Inspector.CurlOfFormatted | src/app/mods/inspector.rs:456-474 | for a formatted transcript, the command carries its URL, method and body, then one `-H` per header line |
| Inspector.Inspector.FromHistline | src/app/mods/inspector.rs:67-82 | a new window copies id, remote address, raw request, response, ssl flag and host, and starts active, not minimised, with everything else at its default |
| Inspector.Inspector.SelectMenu | src/app/mods/inspector.rs:101-111 | a menu button selects its view and changes nothing else |
| Inspector.Inspector.Close | src/app/mods/inspector.rs:115-118 | `x` deactivates the window and changes nothing else |
| Inspector.Inspector.ToggleMinimized | src/app/mods/inspector.rs:120-124 | `+`/`-` flips minimisation and changes nothing else |
| Inspector.Inspector.RepeaterReset | src/app/mods/inspector.rs:148-152 | the Repeater's text becomes the escaped original and its response the original response; nothing else changes |
| Inspector.Inspector.RepeaterSend | src/app/mods/inspector.rs:172-243 | a header line that does not parse panics and changes nothing; otherwise the parsed request goes into the slot only when it is empty; only the slot can change |
| Inspector.Inspector.RepeaterPoll | src/app/mods/inspector.rs:244-250 | a successful ready promise sets the new response and clears the slot; otherwise nothing changes |
| Inspector.Inspector.IntruderReset | src/app/mods/inspector.rs:290-293 | the Intruder template becomes the escaped original; nothing else changes |
| Inspector.Inspector.LoadPayloads | src/app/mods/inspector.rs:327-336 | a readable file replaces the payloads with its lines, trimmed; an unreadable one changes nothing |
| Inspector.Inspector.IntruderSend | src/app/mods/inspector.rs:304-325 | a transcript that does not parse panics before anything is stored; otherwise the prepared requests are stored, and the run panics exactly when there are no payloads or a header value is not visible ASCII; without a panic one promise per batch is appended; only the prepared list and the promises can change |
| Inspector.Inspector.DrainResults | src/app/mods/inspector.rs:361-386 | the retain loop appends the ready batches' rows to the results and keeps exactly the promises not ready |
| Inspector.Inspector.PushRows | src/app/mods/inspector.rs:363-382 | the inner loop appends one row per result of a ready batch, in order, and changes nothing else |
| Inspector.Inspector.ClickNext | src/app/mods/inspector.rs:420-422 | `>` on the results: underflows exactly when `page*k` exceeds the result count, otherwise moves as `NextPage` says |
| Inspector.Inspector.ClickPrevious | src/app/mods/inspector.rs:420-422 | `<` on the results moves as `PrevPage` says |
| Proxy.ParseUsize | src/app/mods/proxy.rs:32-37 | a parsed port is at most `usize::MAX`; the empty text and a lone `+` do not parse |
| Proxy.ShowNat | src/app/mods/proxy.rs:32-37 | the decimal text of a number is all digits, without a sign or a leading zero |
| Proxy.ParseShowNat | src/app/mods/proxy.rs:32-37 | every `usize` parses back from its decimal text, with or without a leading `+` |
| Proxy.ParseOverflow | src/app/mods/proxy.rs:32-37 | `usize::MAX + 1` does not parse |
| Proxy.NonEmpty | src/app/mods/proxy.rs:26-30 | an address or secret is accepted exactly when it is not empty, and is kept as typed |
| Proxy.PortOf | src/app/mods/proxy.rs:32-37 | an empty port is rejected, a parsable one is used, and anything else falls back to 8443 |
| Proxy.PortOfShown | src/app/mods/proxy.rs:32-37 | any `usize` typed in decimal is the port used |
| Proxy.Window.Connect | src/app/mods/proxy.rs:24-48 | submitting sets address, port and secret from the inputs, and the view turns remote exactly when all three are filled |
| Components.SetOpen | src/app/mods/components.rs:49-57 | the key is open exactly when asked, and no other key changes |
| Components.SetOpenIdempotent | src/app/mods/components.rs:49-57 | setting the same state twice is setting it once |
| Components.Components.FromComponents | src/app/mods/components.rs:23-27 | the window list is the given names, and none is open |
| Components.Components.Open | src/app/mods/components.rs:38-46 | opening or closing one window changes only that window |
| Components.Components.Windows | src/app/mods/components.rs:29-36 | after a frame, each window is open exactly as its last checkbox says, and names not listed are unchanged |
| FilterCat.FromFilterCat | src/app/mods/filter_cat.rs:11-18 | the copy of a category is that category |
| FilterCat.FromFilterCatOpt | src/app/mods/filter_cat.rs:20-25 | the copy of an optional category is that optional category |
| FilterCat.CopyIdempotent | src/app/mods/filter_cat.rs:11-25 | copying twice is copying once |

## Left out

- The rendering is left out. That covers egui layout, column sizes, labels, the code editor and viewer widgets, and row truncation for display (history.rs:150-159).
- File dialogs, file reading and saving are left out, and so is "Save Modified Request": they are I/O. `load_content_from_file` is modelled only as its optional result and its `trim_end` (inspector.rs:441), and `Inspector.PayloadList` applies that trim.
- The clipboard is left out: `Inspector.CopyAsCurl` returns the command instead of writing it.
- The selection clicks on table rows are left out, including `selected` and `clicked`. They are UI events.
- Threads and the `poll_promise` crate are left out. A promise is its batch, and its readiness is an input.
- The HTTP client is left out. The transport is a parameter. The parse `unwrap`s before sending are modelled: the method, header name and header value parses of `from_strings` (batch_req.rs:57, 65, 68), the header name and value parses of the Repeater (inspector.rs:200, 204), and the `to_str().unwrap()` of `Request::from` (batch_req.rs:22). The rules are those of the `http` crate: token characters for names and methods, names of at most 65535 characters, no control character but tab in values.
- The response formatting inside the worker is left out. A successful result is an opaque `ResultRow`. Its `unwrap`s (batch_req.rs:142-150, inspector.rs:228-237) panic the worker thread on a status without a canonical reason, a response header value that is not visible ASCII, or a body that cannot be decoded. That batch's results then never arrive, and this is not modelled.
- Inspector.RepeaterRequest: the Repeater parses the method inside the worker (inspector.rs:218), so an invalid method panics the worker, not the send. That panic is not modelled: the slot holds the request whatever its method.
- History.MergeThenFetchOnlyNew: the remote store is assumed to answer a cursor as `DbUtils.Query` does. `history_ui!` fetches through `apiutils::get_new_from_last_id` (history.rs:108), which is not part of this model, and the local branch is `todo!()`.
- SQLite is left out. The `history` table is a sequence of rows in ascending id order, and failing to open the database is `None`.
- The remote API's HTTP call and `parse_result` JSON decoding (apiutils.rs) are not part of this model. `History.History.RemoteFrame` takes the fetch's outcome as a parameter.
- The local branch of `history_ui!` is left out because it is `todo!()`. "Open Local Project" is left out as a file dialog.
- The items-per-page slider is left out as a widget. Its effect on the page is stated in `Tables.ResizeBreaksPage`.
- `filter!` and the filter-category combo box are left out because their definitions are not part of this model. A filter is a `keep` predicate on the host.
- History.History.ClickNext: models the button over the cursor-sized table as written (history.rs:136), not over the history length.
- Tables.NextPage: the `usize` underflow of `n - page * k` is `None`, as in a debug build (a panic). A release build would wrap instead, and that is not modelled.
- Proxy.ParseUsize: models a 64-bit `usize`.
- Inspector.Inspector.FromHistline: `HistLine` as declared has no remote address, so the address is a parameter.
- `Inspector.Inspector.bfItemsPerPage` starts at 0 because that is the derived default. The slider's lower bound of 10 is not modelled.
- The Repeater's request index is always 0 and is never read. It is not modelled beyond `Inspector.RepeaterRequest`.

## Findings

| source | as written | input that shows it | evidently intended | confidence | as-written member | corrected member |
|---|---|---|---|---|---|---|
| src/app/mods/inspector.rs:361-386 | the retain closure calls `ready()` once to drain a promise's rows (362) and again to decide whether to keep it (385) | one batch that is not ready at the first call and ready at the second: its rows are never pushed and its promise is dropped | drain and keep on the same readiness, so every request ends up either in the results or still pending | not executed | Inspector.RetainAsWritten, shown by Inspector.DrainAsWrittenLosesResults | Inspector.Inspector.DrainResults, proved by Inspector.DrainConserves |
| src/app/mods/history.rs:136-148 | the page range is computed over `len = last_id` and then used to slice `history` | a history holding one row with id 2 (ids start at 2 after a deleted row), cursor 2, page 0, 10 per page: the range ends at 2, past the history's end, and the slice panics | page over `history.len()` | not executed | History.HistoryPageAsWritten, shown by History.HistoryPageGapPanics | History.HistoryPage, proved by History.EveryRowHasAPage |
