/**
  The inspector window (src/app/mods/inspector.rs): the `Inspector` state
  built from a history line, the Repeater (edit, escape, send through a
  single promise slot), the Intruder (payload substitution, payload loading,
  batch run, the drain of finished batches into the result table) and the
  curl command line. Worker readiness is an input of each frame; a ready
  batch holds `BatchResults(batch, transport)`.
*/
module Inspector {
  import opened Wrappers
  import opened Seqs
  import opened Text
  import opened BatchReq
  import opened Tables
  import opened DbUtils
  import opened FilterCat

  /** `ActiveInspectorMenu`. */
  datatype Menu = Default | Repeater | Intruder

  // ---------------------------------------------------------------------------
  // The `\r` escape of the editors

  /** Reset: every CR becomes the four characters `\r\n`, so the editor shows line ends. */
  function Escape(s: string): string
  {
    Replace(s, "\r", "\\r\\n")
  }

  /** Send, save and copy: every `\r\n` (four characters) becomes a CR again. */
  function Unescape(s: string): string
  {
    Replace(s, "\\r\\n", "\r")
  }

  /** A request without backslashes survives the editor: unescaping its escape gives it back. */
  lemma {:induction false} UnescapeEscape(s: string)
    requires NoChar(s, '\\')
    ensures Unescape(Escape(s)) == s
    decreases |s|
  {
    if s != [] {
      var t := s[1..];
      assert NoChar(t, '\\');
      UnescapeEscape(t);
      assert s == [s[0]] + t;
      if s[0] == '\r' {
        ReplacePrefix(t, "\r", "\\r\\n");
        ReplacePrefix(Escape(t), "\\r\\n", "\r");
      } else {
        ReplaceSkip(s[0], t, "\r", "\\r\\n");
        ReplaceSkip(s[0], Escape(t), "\\r\\n", "\r");
      }
    }
  }

  /** A text without CR is not changed by the escape. */
  lemma {:induction false} EscapeWithoutCr(s: string)
    requires NoChar(s, '\r')
    ensures Escape(s) == s
  {
    NoCharNoMatch(s, "", "\r");
    assert s + "" == s;
    assert !MatchAt(s, "\r", |s|);
    ReplaceAbsent(s, "\r", "\\r\\n");
  }

  /** With a backslash the round trip can fail: text typed as the four characters `\r\n` comes back as a CR. */
  lemma {:induction false} EscapeLosesTypedEscapes(a: string)
    requires NoChar(a, '\r')
    ensures Unescape(Escape("\\r\\n" + a)) == "\r" + Unescape(a)
  {
    var s := "\\r\\n" + a;
    assert NoChar(s, '\r') by {
      forall i | 0 <= i < |s|
        ensures s[i] != '\r'
      {
        if i >= 4 {
          assert s[i] == a[i - 4];
        }
      }
    }
    EscapeWithoutCr(s);
    ReplacePrefix(a, "\\r\\n", "\r");
  }

  // ---------------------------------------------------------------------------
  // Intruder: payload substitution and payload lists

  /** The marker a payload replaces. */
  const Placeholder := "$[PAYLOAD]$"

  /** The Send step: one transcript per payload, the unescaped template with every marker replaced by it. */
  function PrepareRequests(template: string, payloads: seq<string>): (rs: seq<string>)
    ensures |rs| == |payloads|
  {
    seq(|payloads|, i requires 0 <= i < |payloads| => Replace(Unescape(template), Placeholder, payloads[i]))
  }

  /** The i-th transcript is the template's text between the markers, glued with payload i. */
  lemma {:induction false} PreparedFillsGaps(template: string, payloads: seq<string>, i: nat)
    requires i < |payloads|
    ensures PrepareRequests(template, payloads)[i] == Join(Split(Unescape(template), Placeholder), payloads[i])
  {
    ReplaceIsSplitJoin(Unescape(template), Placeholder, payloads[i]);
  }

  /** A template without the marker yields the same transcript for every payload. */
  lemma {:induction false} PreparedWithoutMarker(template: string, payloads: seq<string>)
    requires Absent(Placeholder, Unescape(template))
    ensures forall i :: 0 <= i < |payloads| ==> PrepareRequests(template, payloads)[i] == Unescape(template)
  {
    forall i | 0 <= i < |payloads|
      ensures PrepareRequests(template, payloads)[i] == Unescape(template)
    {
      ReplaceAbsent(Unescape(template), Placeholder, payloads[i]);
    }
  }

  /** Load Payloads: the file text, trimmed at the end, cut at LF, each entry trimmed at the end. */
  function PayloadList(text: string): (ps: seq<string>)
    ensures |ps| >= 1
    ensures forall i :: 0 <= i < |ps| ==> ps[i] == [] || !IsWhitespace(ps[i][|ps[i]| - 1])
  {
    var lines := Split(TrimEnd(text), "\n");
    seq(|lines|, i requires 0 <= i < |lines| => TrimEnd(lines[i]))
  }

  /** A file of lines without LF and without trailing blanks, the last non-empty, loads as those lines. */
  lemma {:induction false} PayloadListOfLines(lines: seq<string>)
    requires |lines| >= 1 && lines[|lines| - 1] != []
    requires forall i :: 0 <= i < |lines| ==> NoChar(lines[i], '\n')
    requires forall i :: 0 <= i < |lines| ==> lines[i] == [] || !IsWhitespace(lines[i][|lines[i]| - 1])
    ensures PayloadList(Join(lines, "\n")) == lines
  {
    var text := Join(lines, "\n");
    JoinEndsWithLast(lines, "\n");
    assert TrimEnd(text) == text;
    JoinSplitChar(lines, '\n');
    forall i | 0 <= i < |lines|
      ensures TrimEnd(lines[i]) == lines[i]
    {
    }
  }

  /** A joined text ends with its last piece. */
  lemma {:induction false} JoinEndsWithLast(parts: seq<string>, sep: string)
    requires |parts| >= 1
    ensures |Join(parts, sep)| >= |parts[|parts| - 1]|
    ensures Join(parts, sep)[|Join(parts, sep)| - |parts[|parts| - 1]|..] == parts[|parts| - 1]
  {
    if |parts| > 1 {
      JoinEndsWithLast(parts[1..], sep);
      assert parts[1..][|parts[1..]| - 1] == parts[|parts| - 1];
    }
  }

  // ---------------------------------------------------------------------------
  // The drain of finished batches

  /** `bf_results` push: a success as its tuple, a failure as (idx, "SRVBUG", error, "SRVBUG", "SRVBUG"). */
  function ToRow(r: RunResult): (row: ResultRow)
    ensures row.idx == r.Idx()
    ensures r.Success? ==> row == r.row
    ensures r.Failure? ==> row.version == "SRVBUG" && row.status == r.error
                           && row.headers == "SRVBUG" && row.text == "SRVBUG"
  {
    match r
    case Success(row) => row
    case Failure(idx, e) => ResultRow(idx, "SRVBUG", e, "SRVBUG", "SRVBUG")
  }

  /** The rows of a batch's results, in order. */
  function Rows(rs: seq<RunResult>): (rows: seq<ResultRow>)
    ensures |rows| == |rs|
    ensures forall i :: 0 <= i < |rs| ==> rows[i].idx == rs[i].Idx()
  {
    seq(|rs|, i requires 0 <= i < |rs| => ToRow(rs[i]))
  }

  /** The number of requests the promises still owe. */
  function Total(ps: seq<Promise>): nat
  {
    if ps == [] then 0 else Total(ps[..|ps| - 1]) + |ps[|ps| - 1].batch|
  }

  /** The rows appended by a drain: the results of every promise observed ready, in promise order. */
  function DrainedRows(ps: seq<Promise>, ready: seq<bool>, transport: Transport): (rows: seq<ResultRow>)
    requires |ready| == |ps|
  {
    if ps == [] then []
    else
      var n := |ps| - 1;
      DrainedRows(ps[..n], ready[..n], transport)
        + (if ready[n] then Rows(BatchResults(ps[n].batch, transport)) else [])
  }

  /** The promises a drain keeps: those observed not ready, in order. */
  function StillPending(ps: seq<Promise>, ready: seq<bool>): (kept: seq<Promise>)
    requires |ready| == |ps|
    ensures |kept| <= |ps|
    ensures forall p :: p in kept ==> p in ps
  {
    if ps == [] then []
    else
      var n := |ps| - 1;
      var init := StillPending(ps[..n], ready[..n]);
      assert forall p :: p in ps[..n] ==> p in ps;
      init + (if ready[n] then [] else [ps[n]])
  }

  /** A drain loses and duplicates nothing: every request is either a new row or still owed. */
  lemma {:induction false} DrainConserves(ps: seq<Promise>, ready: seq<bool>, transport: Transport)
    requires |ready| == |ps|
    ensures |DrainedRows(ps, ready, transport)| + Total(StillPending(ps, ready)) == Total(ps)
  {
    if ps != [] {
      var n := |ps| - 1;
      DrainConserves(ps[..n], ready[..n], transport);
      var kept := StillPending(ps[..n], ready[..n]);
      TotalSnoc(kept, ps[n]);
      assert Total(ps) == Total(ps[..n]) + |ps[n].batch|;
      if ready[n] {
        assert StillPending(ps, ready) == kept + [];
        assert kept + [] == kept;
        assert |DrainedRows(ps, ready, transport)|
               == |DrainedRows(ps[..n], ready[..n], transport)| + |ps[n].batch|;
      } else {
        assert StillPending(ps, ready) == kept + [ps[n]];
        assert DrainedRows(ps, ready, transport) == DrainedRows(ps[..n], ready[..n], transport) + [];
      }
    }
  }

  lemma {:induction false} TotalSnoc(ps: seq<Promise>, p: Promise)
    ensures Total(ps + [p]) == Total(ps) + |p.batch|
  {
    assert (ps + [p])[..|ps|] == ps;
  }

  /** One promise per batch. */
  function PromisesOf(batches: seq<seq<Request>>): (ps: seq<Promise>)
    ensures |ps| == |batches|
    ensures forall i :: 0 <= i < |batches| ==> ps[i] == Promise(batches[i])
  {
    seq(|batches|, i requires 0 <= i < |batches| => Promise(batches[i]))
  }

  /** Every promise observed ready. */
  function AllReady(n: nat): (ready: seq<bool>)
    ensures |ready| == n
    ensures forall i :: 0 <= i < n ==> ready[i]
  {
    seq(n, i => true)
  }

  lemma {:induction false} RowsAppend(a: seq<RunResult>, b: seq<RunResult>)
    ensures Rows(a + b) == Rows(a) + Rows(b)
  {
  }

  /** When every promise is ready, the drain yields the results of all their requests in order and keeps none. */
  lemma {:induction false} DrainAllReady(batches: seq<seq<Request>>, transport: Transport)
    ensures DrainedRows(PromisesOf(batches), AllReady(|batches|), transport)
            == Rows(BatchResults(Flatten(batches), transport))
    ensures StillPending(PromisesOf(batches), AllReady(|batches|)) == []
  {
    if batches != [] {
      var ps, ready := PromisesOf(batches), AllReady(|batches|);
      var n := |batches| - 1;
      var init := batches[..n];
      DrainAllReady(init, transport);
      assert ps[..n] == PromisesOf(init);
      assert ready[..n] == AllReady(n);
      assert batches == init + [batches[n]];
      FlattenAppend(init, [batches[n]]);
      assert Flatten([batches[n]]) == batches[n];
      BatchResultsAppend(Flatten(init), batches[n], transport);
      RowsAppend(BatchResults(Flatten(init), transport), BatchResults(batches[n], transport));
      calc {
        DrainedRows(ps, ready, transport);
        DrainedRows(PromisesOf(init), AllReady(n), transport) + Rows(BatchResults(batches[n], transport));
        Rows(BatchResults(Flatten(init), transport)) + Rows(BatchResults(batches[n], transport));
        Rows(BatchResults(Flatten(batches), transport));
      }
      assert StillPending(ps, ready) == StillPending(PromisesOf(init), AllReady(n)) + [];
    }
  }

  /**
    The drain as written: `ready()` is called once to decide whether the
    results are pushed and once more to decide whether the promise is kept.
    `first` and `second` are what the two calls observe.
  */
  function RetainAsWritten(ps: seq<Promise>, first: seq<bool>, second: seq<bool>, transport: Transport)
    : (r: (seq<ResultRow>, seq<Promise>))
    requires |first| == |ps| && |second| == |ps|
    ensures r.1 == StillPending(ps, second)
    ensures first == second ==> r.0 == DrainedRows(ps, first, transport)
  {
    (DrainedRows(ps, first, transport), StillPending(ps, second))
  }

  /** A placeholder request. */
  function SomeRequest(): Request
  {
    Request(0, "", "", "", map[])
  }

  /** A batch that finishes between the two `ready()` calls is dropped without its results. */
  lemma {:induction false} DrainAsWrittenLosesResults(transport: Transport)
    ensures var ps := [Promise([SomeRequest()])];
      var r := RetainAsWritten(ps, [false], [true], transport);
      |r.0| + Total(r.1) < Total(ps)
  {
    var ps := [Promise([SomeRequest()])];
    assert ps[..0] == [];
    assert Total(ps) == 1;
  }

  /** The request count the drain as written accounts for: rows pushed plus requests still owed. */
  function Accounted(ps: seq<Promise>, first: seq<bool>, second: seq<bool>, transport: Transport): nat
    requires |first| == |ps| && |second| == |ps|
  {
    var r := RetainAsWritten(ps, first, second, transport);
    |r.0| + Total(r.1)
  }

  /**
    A promise that, once ready, stays ready: the drain as written never
    counts a request twice, and it accounts for every request exactly when
    no non-empty batch finishes between the two `ready()` calls.
  */
  lemma {:induction false} RetainAsWrittenAccounts(ps: seq<Promise>, first: seq<bool>, second: seq<bool>, transport: Transport)
    requires |first| == |ps| && |second| == |ps|
    requires forall i :: 0 <= i < |ps| && first[i] ==> second[i]
    ensures Accounted(ps, first, second, transport) <= Total(ps)
    ensures Accounted(ps, first, second, transport) == Total(ps)
            <==> forall i :: 0 <= i < |ps| && !first[i] && second[i] ==> |ps[i].batch| == 0
  {
    if ps != [] {
      var n := |ps| - 1;
      assert forall i :: 0 <= i < n ==> ps[..n][i] == ps[i] && first[..n][i] == first[i] && second[..n][i] == second[i];
      RetainAsWrittenAccounts(ps[..n], first[..n], second[..n], transport);
      AccountedSnoc(ps, first, second, transport);
    }
  }

  /** The last promise adds its batch once for each of the two checks that counts it. */
  lemma {:induction false} AccountedSnoc(ps: seq<Promise>, first: seq<bool>, second: seq<bool>, transport: Transport)
    requires |first| == |ps| && |second| == |ps| && ps != []
    ensures var n := |ps| - 1;
      var b := |ps[n].batch|;
      Total(ps) == Total(ps[..n]) + b &&
      Accounted(ps, first, second, transport)
      == Accounted(ps[..n], first[..n], second[..n], transport)
         + (if first[n] then b else 0) + (if second[n] then 0 else b)
  {
    var n := |ps| - 1;
    var kept := StillPending(ps[..n], second[..n]);
    TotalSnoc(kept, ps[n]);
    if second[n] {
      assert StillPending(ps, second) == kept + [];
      assert kept + [] == kept;
    } else {
      assert StillPending(ps, second) == kept + [ps[n]];
    }
  }

  /**
    Run then drain: with every batch ready, the result rows are one per
    payload, the i-th carrying index i, so each indexes the payload list.
  */
  lemma {:induction false} RunThenDrainAll(transcripts: seq<string>, ssl: bool, target: string, transport: Transport)
    requires |transcripts| > 0 && BuildRequests(transcripts, ssl, target).Ok?
    ensures var reqs := BuildRequests(transcripts, ssl, target).value;
      var chunks := Chunks(reqs, BatchSize(|reqs|));
      var rows := DrainedRows(PromisesOf(chunks), AllReady(|chunks|), transport);
      |rows| == |transcripts| && forall i :: 0 <= i < |rows| ==> rows[i].idx == i
  {
    var reqs := BuildRequests(transcripts, ssl, target).value;
    var chunks := Chunks(reqs, BatchSize(|reqs|));
    var rows := DrainedRows(PromisesOf(chunks), AllReady(|chunks|), transport);
    DrainAllReady(chunks, transport);
    ChunksFlatten(reqs, BatchSize(|reqs|));
    var rs := BatchResults(reqs, transport);
    assert rows == Rows(rs);
    forall i | 0 <= i < |rows|
      ensures rows[i].idx == i
    {
      assert rows[i].idx == rs[i].Idx() == reqs[i].idx;
    }
  }

  /** Every stored row indexes the payload list (the table reads `bf_payload[idx]`). */
  ghost predicate RowsIndexPayloads(results: seq<ResultRow>, payloads: seq<string>)
  {
    forall i :: 0 <= i < |results| ==> results[i].idx < |payloads|
  }

  /** A displayed result: the row and the payload it was sent with. */
  datatype Shown = Shown(row: ResultRow, payload: string)

  /**
    The Intruder result page: the slice `paginate!` gives over the results
    (a panic, `None`, when the range is inverted), each row paired with
    `bf_payload[idx]` (a panic when the index is out of range).
  */
  function ResultsPage(results: seq<ResultRow>, payloads: seq<string>, page: nat, k: nat): (r: Option<seq<Shown>>)
    ensures r.Some? <==> (page * k <= |results|
      && forall i :: page * k <= i < Paginate(page, k, |results|).end ==> results[i].idx < |payloads|)
    ensures r.Some? ==> |r.value| == Paginate(page, k, |results|).end - page * k <= k
    ensures r.Some? ==> forall j :: 0 <= j < |r.value| ==>
      r.value[j].row == results[page * k + j] && r.value[j].payload == payloads[r.value[j].row.idx]
  {
    var range := Paginate(page, k, |results|);
    if range.start > range.end then None
    else if forall i :: range.start <= i < range.end ==> results[i].idx < |payloads| then
      Some(seq(range.end - range.start, j requires 0 <= j < range.end - range.start =>
        Shown(results[range.start + j], payloads[results[range.start + j].idx])))
    else
      None
  }

  /** With every index in range, every page that starts inside the results can be shown. */
  lemma {:induction false} ResultsPageShown(results: seq<ResultRow>, payloads: seq<string>, page: nat, k: nat)
    requires RowsIndexPayloads(results, payloads) && page * k <= |results|
    ensures ResultsPage(results, payloads, page, k).Some?
  {
  }

  /** Loading a shorter payload list after a run breaks the display: the next page panics. */
  lemma {:induction false} ShorterPayloadsBreakDisplay()
    ensures |PayloadList("")| == 1
    ensures ResultsPage([ResultRow(1, "", "", "", "")], PayloadList(""), 0, 10).None?
  {
    assert TrimEnd("") == "";
    assert Split("", "\n") == [""];
    var results := [ResultRow(1, "", "", "", "")];
    assert Paginate(0, 10, 1).end == 1;
    assert !(results[0].idx < |PayloadList("")|);
  }

  // ---------------------------------------------------------------------------
  // The Repeater's promise slot

  /** What the Repeater sends: the URL, the method, the body and the header map of the unescaped request. */
  datatype Sent = Sent(url: string, httpMethod: string, body: string, headers: map<string, string>)

  /**
    The Repeater's parse of the edited request, with the rules of
    `from_strings`: a header line whose name or value does not parse panics
    here; the method is only parsed later, by the worker.
  */
  function RepeaterRequest(raw: string, ssl: bool, target: string): (s: Result<Sent, Panic>)
    ensures s.Ok? <==> forall i :: 0 <= i < |ParseTranscript(raw).headerLines| ==>
      ValidHeaderLine(ParseTranscript(raw).headerLines[i])
    ensures Buildable(ParseTranscript(raw)) ==>
      var r := BuildRequest(0, raw, ssl, target);
      r.Ok? && s == Ok(Sent(r.value.url, r.value.httpMethod, r.value.body, r.value.headers))
  {
    var t := ParseTranscript(raw);
    var bad := CheckHeaders(t.headerLines);
    if bad.Some? then Err(bad.value)
    else Ok(Sent(Url(ssl, target, t.uri), t.httpMethod, t.body, HeaderMapOf(t.headerLines)))
  }

  /** `get_or_insert_with`: a request is spawned only into an empty slot. */
  function SlotAfterSend(slot: Option<Sent>, req: Sent): (r: Option<Sent>)
    ensures r.Some?
    ensures slot.Some? ==> r == slot
    ensures slot.None? ==> r == Some(req)
  {
    if slot.Some? then slot else Some(req)
  }

  /** The poll: only a successful response empties the slot. */
  function SlotAfterPoll(slot: Option<Sent>, ready: Option<Result<string, string>>): (r: Option<Sent>)
    ensures r.None? <==> slot.None? || (ready.Some? && ready.value.Ok?)
    ensures r.Some? ==> r == slot
  {
    if slot.Some? && ready.Some? && ready.value.Ok? then None else slot
  }

  /**
    After a failed response the slot is stuck: the failed promise keeps
    answering the error, so any number of later sends spawn nothing.
  */
  lemma {:induction false} RepeaterStuckAfterError(p: Sent, error: string, sends: seq<Sent>)
    ensures StuckRun(Some(p), error, sends) == Some(p)
  {
    if sends != [] {
      var n := |sends| - 1;
      RepeaterStuckAfterError(p, error, sends[..n]);
    }
  }

  /** Frames of Send followed by a poll that sees the error. */
  function StuckRun(slot: Option<Sent>, error: string, sends: seq<Sent>): Option<Sent>
  {
    if sends == [] then slot
    else
      var n := |sends| - 1;
      SlotAfterPoll(SlotAfterSend(StuckRun(slot, error, sends[..n]), sends[n]), Some(Err(error)))
  }

  // ---------------------------------------------------------------------------
  // Copy as curl

  /** `curl '<url>' -X '<method>' --data '<body>'`. */
  function CurlHead(url: string, httpMethod: string, body: string): string
  {
    "curl '" + url + "' -X '" + httpMethod + "' --data '" + body + "'"
  }

  /** ` -H '<line>'` for each header line, in order. */
  function HeaderFlags(lines: seq<string>): string
  {
    if lines == [] then ""
    else HeaderFlags(lines[..|lines| - 1]) + " -H '" + lines[|lines| - 1] + "'"
  }

  /** The command line `copy_as_curl` builds for a transcript. */
  function Curl(content: string, ssl: bool, target: string): string
  {
    var t := ParseTranscript(content);
    CurlHead(Url(ssl, target, t.uri), t.httpMethod, t.body) + HeaderFlags(t.headerLines)
  }

  /** `copy_as_curl`: the head, then one `write!` per header line (the clipboard is not modelled). */
  method CopyAsCurl(content: string, ssl: bool, target: string) returns (scurl: string)
    ensures scurl == Curl(content, ssl, target)
  {
    var t := ParseTranscript(content);
    scurl := CurlHead(Url(ssl, target, t.uri), t.httpMethod, t.body);
    var lines := t.headerLines;
    for i := 0 to |lines|
      invariant scurl == CurlHead(Url(ssl, target, t.uri), t.httpMethod, t.body) + HeaderFlags(lines[..i])
    {
      assert lines[..i + 1][..i] == lines[..i];
      scurl := scurl + " -H '" + lines[i] + "'";
    }
    assert lines[..|lines|] == lines;
  }

  /** The curl line of a well-formed request carries its URL, method, body and header lines. */
  lemma {:induction false} CurlOfFormatted(t: Transcript, version: string, ssl: bool, target: string)
    requires WellFormed(t, version)
    ensures Curl(FormatTranscript(t, version), ssl, target)
            == CurlHead(Url(ssl, target, t.uri), t.httpMethod, t.body) + HeaderFlags(t.headerLines)
  {
    TranscriptRoundTrip(t, version);
  }

  // ---------------------------------------------------------------------------
  // The inspector state

  class Inspector {
    var id: nat
    var source: string
    var request: string
    var response: string
    var modifiedRequest: string
    var newResponse: string
    var responsePromise: Option<Sent>
    var ssl: bool
    var target: string
    var activeWindow: Menu
    var isActive: bool
    var isMinimized: bool
    var bfPayload: seq<string>
    var bfRequest: string
    var bfResults: seq<ResultRow>
    var bfPromises: seq<Promise>
    var bfPayloadPrepared: seq<Request>
    var bfCurrentPage: nat
    var bfItemsPerPage: nat
    var bfFilterInput: string
    var bfFilter: Option<string>
    var bfFilterCat: Option<FilterCat>

    /**
      `Inspector::from_histline`: the request, response, ssl flag and host
      of the line, shown and active, everything else at its default. The
      remote address is passed in: the line type of the store has none.
    */
    constructor FromHistline(h: HistLine, remoteAddr: string)
      ensures id == h.id && source == remoteAddr && ssl == h.ssl && target == h.host
      ensures request == h.raw && modifiedRequest == h.raw && bfRequest == h.raw
      ensures response == h.response && newResponse == h.response
      ensures isActive && !isMinimized && activeWindow == Default && responsePromise == None
      ensures bfPayload == [] && bfResults == [] && bfPromises == [] && bfPayloadPrepared == []
      ensures bfCurrentPage == 0 && bfItemsPerPage == 0 && bfFilterInput == ""
      ensures bfFilter == None && bfFilterCat == None
    {
      id := h.id;
      source := remoteAddr;
      request := h.raw;
      response := h.response;
      modifiedRequest := h.raw;
      newResponse := h.response;
      responsePromise := None;
      ssl := h.ssl;
      target := h.host;
      activeWindow := Default;
      isActive := true;
      isMinimized := false;
      bfPayload := [];
      bfRequest := h.raw;
      bfResults := [];
      bfPromises := [];
      bfPayloadPrepared := [];
      bfCurrentPage := 0;
      bfItemsPerPage := 0;
      bfFilterInput := "";
      bfFilter := None;
      bfFilterCat := None;
    }

    /** The menu bar buttons `Default`, `Modify` and `Bruteforce`. */
    method SelectMenu(m: Menu)
      modifies this`activeWindow
      ensures activeWindow == m
    {
      activeWindow := m;
    }

    /** The `x` button. */
    method Close()
      modifies this`isActive
      ensures !isActive
    {
      isActive := false;
    }

    /** The `+`/`-` button. */
    method ToggleMinimized()
      modifies this`isMinimized
      ensures isMinimized == !old(isMinimized)
    {
      isMinimized := !isMinimized;
    }

    /** Repeater Reset: the editor shows the escaped original request and its response. */
    method RepeaterReset()
      modifies this`modifiedRequest, this`newResponse
      ensures modifiedRequest == Escape(request) && newResponse == response
    {
      modifiedRequest := Escape(request);
      newResponse := response;
    }

    /**
      Repeater Send: the edited request, unescaped, is parsed (a header line
      that does not parse panics) and spawned unless a send is in flight.
    */
    method RepeaterSend() returns (panic: Option<Panic>)
      modifies this`responsePromise
      ensures var req := RepeaterRequest(Unescape(modifiedRequest), ssl, target);
        && (req.Err? ==> panic == Some(req.error) && responsePromise == old(responsePromise))
        && (req.Ok? ==> panic == None && responsePromise == SlotAfterSend(old(responsePromise), req.value))
    {
      var req := RepeaterRequest(Unescape(modifiedRequest), ssl, target);
      if req.Err? {
        return Some(req.error);
      }
      if responsePromise.None? {
        responsePromise := Some(req.value);
      }
      return None;
    }

    /** The Repeater poll: a successful response is shown and frees the slot; an error is ignored. */
    method RepeaterPoll(ready: Option<Result<string, string>>)
      modifies this`newResponse, this`responsePromise
      ensures responsePromise == SlotAfterPoll(old(responsePromise), ready)
      ensures old(responsePromise).Some? && ready.Some? && ready.value.Ok? ==> newResponse == ready.value.value
      ensures !(old(responsePromise).Some? && ready.Some? && ready.value.Ok?) ==> newResponse == old(newResponse)
    {
      if responsePromise.Some? {
        if ready.Some? && ready.value.Ok? {
          newResponse := ready.value.value;
          responsePromise := None;
        }
      }
    }

    /** Intruder Reset: the template becomes the escaped original request. */
    method IntruderReset()
      modifies this`bfRequest
      ensures bfRequest == Escape(request)
    {
      bfRequest := Escape(request);
    }

    /** Load Payloads: `content` is what the file read gives (`None`: it failed, nothing changes). */
    method LoadPayloads(content: Option<string>)
      modifies this`bfPayload
      ensures content.Some? ==> bfPayload == PayloadList(content.value)
      ensures content.None? ==> bfPayload == old(bfPayload)
    {
      if content.Some? {
        bfPayload := PayloadList(content.value);
      }
    }

    /**
      Intruder Send: one transcript per payload is prepared and built, and the
      batches are spawned behind the existing promises. A transcript that does
      not parse panics before anything is stored; no payload at all, or a
      header value that is not visible ASCII, panics in `split` after the
      prepared list has been stored.
    */
    method IntruderSend() returns (panic: Option<Panic>)
      modifies this`bfPayloadPrepared, this`bfPromises
      ensures var built := BuildRequests(PrepareRequests(bfRequest, bfPayload), ssl, target);
        && (built.Err? ==> panic == Some(built.error) && bfPayloadPrepared == old(bfPayloadPrepared))
        && (built.Ok? ==> bfPayloadPrepared == built.value)
      ensures panic.None? <==>
        && BuildRequests(PrepareRequests(bfRequest, bfPayload), ssl, target).Ok?
        && |bfPayload| > 0
        && forall i :: 0 <= i < |bfPayloadPrepared| ==> AsciiHeaders(bfPayloadPrepared[i])
      ensures panic.None? ==>
        var chunks := Chunks(bfPayloadPrepared, BatchSize(|bfPayloadPrepared|));
        && |bfPromises| == |old(bfPromises)| + |chunks|
        && bfPromises[..|old(bfPromises)|] == old(bfPromises)
        && forall i :: 0 <= i < |chunks| ==> bfPromises[|old(bfPromises)| + i] == Promise(chunks[i])
      ensures panic.Some? ==> bfPromises == old(bfPromises)
    {
      var requests := PrepareRequests(bfRequest, bfPayload);
      var built := FromStrings(requests, ssl, target);
      if built.Err? {
        return Some(built.error);
      }
      bfPayloadPrepared := built.value;
      var r := Run(bfPayloadPrepared, bfPromises);
      if r.Err? {
        return Some(r.error);
      }
      bfPromises := r.value;
      return None;
    }

    /**
      The `retain` of `tbl_ui_bf!`, with readiness observed once per promise:
      a ready batch's results are appended to the table and the batch is
      dropped; a pending batch stays and adds nothing.
    */
    method DrainResults(ready: seq<bool>, transport: Transport)
      requires |ready| == |bfPromises|
      modifies this`bfResults, this`bfPromises
      ensures bfResults == old(bfResults) + DrainedRows(old(bfPromises), ready, transport)
      ensures bfPromises == StillPending(old(bfPromises), ready)
    {
      var ps := bfPromises;
      var kept: seq<Promise> := [];
      for i := 0 to |ps|
        invariant bfResults == old(bfResults) + DrainedRows(ps[..i], ready[..i], transport)
        invariant kept == StillPending(ps[..i], ready[..i])
      {
        assert ps[..i + 1][..i] == ps[..i] && ready[..i + 1][..i] == ready[..i];
        if ready[i] {
          PushRows(BatchResults(ps[i].batch, transport));
        } else {
          kept := kept + [ps[i]];
        }
      }
      assert ps[..|ps|] == ps && ready[..|ready|] == ready;
      bfPromises := kept;
    }

    /** The `for r in vr` of the retain closure: each result of a ready batch pushed as its row. */
    method PushRows(vr: seq<RunResult>)
      modifies this`bfResults
      ensures bfResults == old(bfResults) + Rows(vr)
    {
      for j := 0 to |vr|
        invariant bfResults == old(bfResults) + Rows(vr[..j])
      {
        assert Rows(vr[..j + 1]) == Rows(vr[..j]) + [ToRow(vr[j])];
        bfResults := bfResults + [ToRow(vr[j])];
      }
      assert vr[..|vr|] == vr;
    }

    /** The `>` button of the result table. */
    method ClickNext() returns (ok: bool)
      modifies this`bfCurrentPage
      ensures ok <==> old(bfCurrentPage) * bfItemsPerPage <= |bfResults|
      ensures ok ==> Some(bfCurrentPage) == NextPage(old(bfCurrentPage), bfItemsPerPage, |bfResults|)
      ensures !ok ==> bfCurrentPage == old(bfCurrentPage)
    {
      var next := NextPage(bfCurrentPage, bfItemsPerPage, |bfResults|);
      ok := next.Some?;
      if ok {
        bfCurrentPage := next.value;
      }
    }

    /** The `<` button of the result table. */
    method ClickPrevious()
      modifies this`bfCurrentPage
      ensures bfCurrentPage == PrevPage(old(bfCurrentPage))
    {
      if bfCurrentPage != 0 {
        bfCurrentPage := bfCurrentPage - 1;
      }
    }
  }
}
