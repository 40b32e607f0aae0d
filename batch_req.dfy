/**
  Request templating, partitioning and the batch worker of the intruder
  (src/app/backend/batch_req.rs). The network call of a worker is the
  abstract `Transport` function; a spawned batch is a `Promise` holding the
  chunk it runs.
*/
module BatchReq {
  import opened Wrappers
  import opened Seqs
  import opened Text

  // ---------------------------------------------------------------------------
  // Transcript parsing, shared by from_strings, the Repeater send and copy_as_curl

  /** What the core reads from a raw HTTP transcript. */
  datatype Transcript = Transcript(httpMethod: string, uri: string, body: string, headerLines: seq<string>)

  /** The lines up to the first empty one (`map_while(|x| non-empty)`). */
  function HeaderLinesOf(lines: seq<string>): (r: seq<string>)
    ensures |r| <= |lines| && r == lines[..|r|]
    ensures forall i :: 0 <= i < |r| ==> r[i] != ""
    ensures |r| < |lines| ==> lines[|r|] == ""
  {
    if lines == [] || lines[0] == "" then [] else [lines[0]] + HeaderLinesOf(lines[1..])
  }

  /**
    The method is the text before the first space, the URI the text between
    the first and the second space, the body the text between the first and
    the second blank-line separator, and the header lines are the lines after
    the first one up to the first empty line.
  */
  function ParseTranscript(raw: string): Transcript
  {
    var words := Split(raw, " ");
    Transcript(words[0], Nth(words, 1), Nth(Split(raw, "\r\n\r\n"), 1),
               HeaderLinesOf(Split(raw, "\r\n")[1..]))
  }

  /** The header name: the text before the first ": ". */
  function HeaderName(line: string): string
  {
    Split(line, ": ")[0]
  }

  /** The header value: the other ": "-separated pieces, concatenated without separator. */
  function HeaderValue(line: string): string
  {
    Join(Split(line, ": ")[1..], "")
  }

  /** An ASCII capital as its lower-case letter; every other character unchanged. */
  function ToLowerAscii(c: char): char
  {
    if 'A' <= c <= 'Z' then (c as int + 32) as char else c
  }

  /** `s` with every ASCII capital lower-cased, as `HeaderName::from_bytes` stores a name. */
  function LowerAscii(s: string): (r: string)
    ensures |r| == |s|
  {
    seq(|s|, i requires 0 <= i < |s| => ToLowerAscii(s[i]))
  }

  /** The key a header line is stored under: its name, lower-cased. */
  function HeaderKey(line: string): string
  {
    LowerAscii(HeaderName(line))
  }

  /** Two names give the same key exactly when they are equal up to ASCII case. */
  lemma {:induction false} HeaderKeyIgnoresCase(a: string, b: string)
    ensures LowerAscii(a) == LowerAscii(b) <==>
      |a| == |b| && forall i :: 0 <= i < |a| ==> ToLowerAscii(a[i]) == ToLowerAscii(b[i])
  {
    if LowerAscii(a) == LowerAscii(b) {
      forall i | 0 <= i < |a|
        ensures ToLowerAscii(a[i]) == ToLowerAscii(b[i])
      {
        assert LowerAscii(a)[i] == LowerAscii(b)[i];
      }
    }
  }

  /** `HeaderMap::insert` of every header line in turn: a repeated key keeps its last value. */
  function HeaderMapOf(lines: seq<string>): map<string, string>
  {
    if lines == [] then map[]
    else
      var last := lines[|lines| - 1];
      HeaderMapOf(lines[..|lines| - 1])[HeaderKey(last) := HeaderValue(last)]
  }

  /** The keys in the header map are exactly the lower-cased names of the header lines. */
  lemma {:induction false} HeaderMapKeys(lines: seq<string>)
    ensures forall k :: k in HeaderMapOf(lines) <==> exists i :: 0 <= i < |lines| && HeaderKey(lines[i]) == k
  {
    if lines != [] {
      var init := lines[..|lines| - 1];
      HeaderMapKeys(init);
      forall k | k in HeaderMapOf(lines)
        ensures exists i :: 0 <= i < |lines| && HeaderKey(lines[i]) == k
      {
        if k != HeaderKey(lines[|lines| - 1]) {
          assert k in HeaderMapOf(init);
          var i :| 0 <= i < |init| && HeaderKey(init[i]) == k;
          assert lines[i] == init[i];
        }
      }
      forall k | exists i :: 0 <= i < |lines| && HeaderKey(lines[i]) == k
        ensures k in HeaderMapOf(lines)
      {
        var i :| 0 <= i < |lines| && HeaderKey(lines[i]) == k;
        if i < |init| {
          assert init[i] == lines[i];
        }
      }
    }
  }

  /**
    A key maps to the value of the last line whose name gives that key, so of
    `Host: a` followed by `host: b` only `host` with `b` is kept.
  */
  lemma {:induction false} HeaderMapLastWins(lines: seq<string>, i: nat)
    requires i < |lines|
    requires forall j :: i < j < |lines| ==> HeaderKey(lines[j]) != HeaderKey(lines[i])
    ensures HeaderKey(lines[i]) in HeaderMapOf(lines)
    ensures HeaderMapOf(lines)[HeaderKey(lines[i])] == HeaderValue(lines[i])
  {
    if i < |lines| - 1 {
      var init := lines[..|lines| - 1];
      assert init[i] == lines[i];
      forall j | i < j < |init|
        ensures HeaderKey(init[j]) != HeaderKey(init[i])
      {
        assert init[j] == lines[j];
      }
      HeaderMapLastWins(init, i);
    }
  }

  /** A line `name: value` with no ": " inside name or value parses back to the pair. */
  lemma {:induction false} HeaderLineRoundTrip(name: string, value: string)
    requires Absent(": ", name) && Absent(": ", value)
    ensures HeaderName(name + ": " + value) == name
    ensures HeaderValue(name + ": " + value) == value
  {
    var line := name + ": " + value;
    forall i: nat | i < |name|
      ensures !MatchAt(line, ": ", i)
    {
      if i + 2 <= |name| {
        assert !MatchAt(name, ": ", i);
        var j :| 0 <= j < 2 && name[i + j] != ": "[j];
        assert line[i + j] == name[i + j];
      } else {
        assert line[i + 1] == ':' != ": "[1];
      }
    }
    assert MatchAt(line, ": ", |name|);
    SplitAt(line, ": ", |name|);
    assert line[..|name|] == name;
    assert line[|name| + 2..] == value;
    SplitAbsent(value, ": ");
  }

  /** A value that itself holds ": " loses it: the later pieces are glued together ("a: b: c" has value "bc"). */
  lemma {:induction false} HeaderValueDropsSeparators(name: string, v1: string, v2: string)
    requires NoChar(name, ':') && NoChar(v1, ':') && Absent(": ", v2)
    ensures HeaderName(name + ": " + v1 + ": " + v2) == name
    ensures HeaderValue(name + ": " + v1 + ": " + v2) == v1 + v2
  {
    var rest := v1 + ": " + v2;
    assert name + ": " + v1 + ": " + v2 == name + ": " + rest;
    SplitAfterWord(name, rest, ": ");
    SplitAfterWord(v1, v2, ": ");
    SplitAbsent(v2, ": ");
    assert Split(name + ": " + rest, ": ")[1..] == [v1, v2];
    assert Join([v1, v2], "") == v1 + "" + v2 by {
      assert [v1, v2][1..] == [v2];
    }
    assert v1 + "" + v2 == v1 + v2;
  }

  // ---------------------------------------------------------------------------
  // The transcript format and its round trip

  /** `lines[0] CRLF lines[1] CRLF ... CRLF CRLF body`. */
  function HeaderTail(lines: seq<string>, body: string): string
  {
    if lines == [] then "\r\n" + body else lines[0] + "\r\n" + HeaderTail(lines[1..], body)
  }

  /** The request line `method uri version`. */
  function StartLine(t: Transcript, version: string): string
  {
    t.httpMethod + " " + t.uri + " " + version
  }

  /** A transcript written out as a client sends it. */
  function FormatTranscript(t: Transcript, version: string): string
  {
    StartLine(t, version) + "\r\n" + HeaderTail(t.headerLines, t.body)
  }

  /** The transcripts the parser reads back: tokens without spaces, lines without CR, a body without a blank-line separator. */
  ghost predicate WellFormed(t: Transcript, version: string)
  {
    && NoChar(t.httpMethod, ' ') && NoChar(t.uri, ' ')
    && NoChar(t.httpMethod, '\r') && NoChar(t.uri, '\r') && NoChar(version, '\r')
    && (forall l :: l in t.headerLines ==> l != "" && NoChar(l, '\r'))
    && Absent("\r\n\r\n", t.body)
  }

  lemma {:induction false} SplitHeaderTail(lines: seq<string>, body: string)
    requires forall l :: l in lines ==> NoChar(l, '\r')
    ensures Split(HeaderTail(lines, body), "\r\n") == lines + [""] + Split(body, "\r\n")
  {
    if lines == [] {
      SplitAfterWord("", body, "\r\n");
    } else {
      var l := lines[0];
      assert l in lines;
      assert HeaderTail(lines, body) == l + "\r\n" + HeaderTail(lines[1..], body);
      SplitAfterWord(l, HeaderTail(lines[1..], body), "\r\n");
      SplitHeaderTail(lines[1..], body);
      assert lines == [l] + lines[1..];
    }
  }

  /** Every CR of `h` is followed, inside `h`, by LF and then by something other than CR. */
  ghost predicate CrlfSeparated(h: string)
  {
    forall j :: 0 <= j < |h| && h[j] == '\r' ==> j + 2 < |h| && h[j + 1] == '\n' && h[j + 2] != '\r'
  }

  lemma {:induction false} CrlfSeparatedAppend(a: string, b: string)
    requires CrlfSeparated(a) && CrlfSeparated(b)
    ensures CrlfSeparated(a + b)
  {
    var h := a + b;
    forall j | 0 <= j < |h| && h[j] == '\r'
      ensures j + 2 < |h| && h[j + 1] == '\n' && h[j + 2] != '\r'
    {
      if j >= |a| {
        assert b[j - |a|] == '\r';
      }
    }
  }

  /** The header block `CRLF l0 CRLF l1 ...` between the request line and the blank line. */
  function HeaderBlock(lines: seq<string>): string
  {
    if lines == [] then "" else "\r\n" + lines[0] + HeaderBlock(lines[1..])
  }

  lemma {:induction false} HeaderBlockSeparated(lines: seq<string>)
    requires forall l :: l in lines ==> l != "" && NoChar(l, '\r')
    ensures CrlfSeparated(HeaderBlock(lines))
  {
    if lines != [] {
      var l := lines[0];
      assert l in lines;
      var first := "\r\n" + l;
      assert CrlfSeparated(first) by {
        assert forall j :: 2 <= j < |first| ==> first[j] == l[j - 2];
        assert first[2] == l[0];
      }
      assert forall x :: x in lines[1..] ==> x in lines;
      HeaderBlockSeparated(lines[1..]);
      CrlfSeparatedAppend(first, HeaderBlock(lines[1..]));
    }
  }

  lemma {:induction false} HeaderTailIsBlock(lines: seq<string>, body: string)
    ensures "\r\n" + HeaderTail(lines, body) == HeaderBlock(lines) + "\r\n\r\n" + body
  {
    if lines != [] {
      var l := lines[0];
      HeaderTailIsBlock(lines[1..], body);
      calc {
        "\r\n" + HeaderTail(lines, body);
        "\r\n" + (l + "\r\n" + HeaderTail(lines[1..], body));
        ("\r\n" + l) + ("\r\n" + HeaderTail(lines[1..], body));
        ("\r\n" + l) + (HeaderBlock(lines[1..]) + "\r\n\r\n" + body);
        HeaderBlock(lines) + "\r\n\r\n" + body;
      }
    }
  }

  lemma {:induction false} HeaderLinesOfPrefix(ls: seq<string>, tail: seq<string>)
    requires forall l :: l in ls ==> l != ""
    ensures HeaderLinesOf(ls + [""] + tail) == ls
  {
    var lines := ls + [""] + tail;
    assert lines[|ls|] == "";
    assert forall i :: 0 <= i < |ls| ==> lines[i] == ls[i] && ls[i] in ls;
    assert lines[..|ls|] == ls;
  }

  /** The method and the URI are the first two space-separated words of the request line. */
  lemma {:induction false} ParseMethodAndUri(t: Transcript, version: string)
    requires WellFormed(t, version)
    ensures var words := Split(FormatTranscript(t, version), " ");
      words[0] == t.httpMethod && Nth(words, 1) == t.uri
  {
    var tail := HeaderTail(t.headerLines, t.body);
    var afterUri := version + "\r\n" + tail;
    var afterMethod := t.uri + " " + afterUri;
    StartLineWords(t, version, tail);
    SplitAfterWord(t.httpMethod, afterMethod, " ");
    SplitAfterWord(t.uri, afterUri, " ");
  }

  lemma {:induction false} StartLineWords(t: Transcript, version: string, tail: string)
    ensures StartLine(t, version) + "\r\n" + tail == t.httpMethod + " " + (t.uri + " " + (version + "\r\n" + tail))
  {
  }

  /** The header lines are the lines between the request line and the blank line. */
  lemma {:induction false} ParseHeaderLines(t: Transcript, version: string)
    requires WellFormed(t, version)
    ensures HeaderLinesOf(Split(FormatTranscript(t, version), "\r\n")[1..]) == t.headerLines
  {
    var start := StartLine(t, version);
    var tail := HeaderTail(t.headerLines, t.body);
    assert NoChar(start, '\r');
    SplitAfterWord(start, tail, "\r\n");
    assert forall l :: l in t.headerLines ==> NoChar(l, '\r');
    SplitHeaderTail(t.headerLines, t.body);
    HeaderLinesOfPrefix(t.headerLines, Split(t.body, "\r\n"));
  }

  /** A CRLF-separated head holds no blank-line separator, even with one appended. */
  lemma {:induction false} NoBlankLineIn(head: string, body: string)
    requires CrlfSeparated(head)
    ensures NoMatchBefore(head + "\r\n\r\n" + body, "\r\n\r\n", |head|)
  {
    var raw := head + "\r\n\r\n" + body;
    forall i: nat | i < |head|
      ensures !MatchAt(raw, "\r\n\r\n", i)
    {
      assert raw[i] == head[i];
      if head[i] == '\r' {
        assert raw[i + 2] == head[i + 2] != "\r\n\r\n"[2];
      } else {
        assert raw[i] != "\r\n\r\n"[0];
      }
    }
  }

  /** The first blank line of `head + "\r\n\r\n" + rest` is the one after `head`, when `head` is CRLF-separated. */
  lemma {:induction false} SplitAfterHead(head: string, rest: string)
    requires CrlfSeparated(head)
    ensures Split(head + "\r\n\r\n" + rest, "\r\n\r\n") == [head] + Split(rest, "\r\n\r\n")
  {
    var raw := head + "\r\n\r\n" + rest;
    NoBlankLineIn(head, rest);
    assert MatchAt(raw, "\r\n\r\n", |head|);
    SplitAt(raw, "\r\n\r\n", |head|);
    assert raw[..|head|] == head;
    assert raw[|head| + 4..] == rest;
  }

  /** The body of a well-formed transcript is the text after its first blank line. */
  lemma {:induction false} ParseBody(t: Transcript, version: string)
    requires WellFormed(t, version)
    ensures Nth(Split(FormatTranscript(t, version), "\r\n\r\n"), 1) == t.body
  {
    var raw := FormatTranscript(t, version);
    var start := StartLine(t, version);
    var head := start + HeaderBlock(t.headerLines);
    HeaderTailIsBlock(t.headerLines, t.body);
    assert raw == start + ("\r\n" + HeaderTail(t.headerLines, t.body));
    assert raw == head + "\r\n\r\n" + t.body;
    HeaderBlockSeparated(t.headerLines);
    assert CrlfSeparated(start) by {
      assert NoChar(start, '\r');
    }
    CrlfSeparatedAppend(start, HeaderBlock(t.headerLines));
    SplitAfterHead(head, t.body);
    SplitAbsent(t.body, "\r\n\r\n");
  }

  /** A transcript without any blank line has an empty body. */
  lemma {:induction false} BodyWithoutSeparator(raw: string)
    requires Absent("\r\n\r\n", raw)
    ensures ParseTranscript(raw).body == ""
  {
    SplitAbsent(raw, "\r\n\r\n");
  }

  /**
    A body that itself holds a blank line is cut there: only the text up to
    it is sent (a multipart body loses its later parts).
  */
  lemma {:induction false} BodyTruncated(head: string, b1: string, b2: string)
    requires CrlfSeparated(head) && CrlfSeparated(b1)
    ensures ParseTranscript(head + "\r\n\r\n" + b1 + "\r\n\r\n" + b2).body == b1
  {
    var rest := b1 + "\r\n\r\n" + b2;
    assert head + "\r\n\r\n" + b1 + "\r\n\r\n" + b2 == head + "\r\n\r\n" + rest;
    SplitAfterHead(head, rest);
    SplitAfterHead(b1, b2);
  }

  /** Writing a well-formed transcript out and parsing it again gives it back. */
  lemma {:induction false} TranscriptRoundTrip(t: Transcript, version: string)
    requires WellFormed(t, version)
    ensures ParseTranscript(FormatTranscript(t, version)) == t
  {
    ParseMethodAndUri(t, version);
    ParseHeaderLines(t, version);
    ParseBody(t, version);
  }

  // ---------------------------------------------------------------------------
  // Request descriptors

  /** A prepared request (`Request`): its index in the run, the URL, the method, the body and the header map. */
  datatype Request = Request(idx: nat, url: string, httpMethod: string, body: string, headers: map<string, string>)

  /** `{scheme}://{target}{uri}` with the scheme chosen by the ssl flag. */
  function Url(ssl: bool, target: string, uri: string): string
  {
    (if ssl then "https" else "http") + "://" + target + uri
  }

  /** The token characters of section 3.2.6 of RFC 7230, the only ones a method or a header name may hold. */
  predicate TokenChar(c: char)
  {
    || 'a' <= c <= 'z' || 'A' <= c <= 'Z' || '0' <= c <= '9'
    || c in {'!', '#', '$', '%', '&', '\'', '*', '+', '-', '.', '^', '_', '`', '|', '~'}
  }

  /** What `HeaderName::from_bytes` accepts: 1 to 65535 token characters. */
  predicate ValidHeaderName(name: string)
  {
    0 < |name| <= 65535 && forall i :: 0 <= i < |name| ==> TokenChar(name[i])
  }

  /** What `HeaderValue::from_str` accepts: tab and every character from space on except DEL. */
  predicate ValidHeaderValue(value: string)
  {
    forall i :: 0 <= i < |value| ==> value[i] == '\t' || (32 <= value[i] as int && value[i] as int != 127)
  }

  /** What `HeaderValue::to_str` accepts: tab and the visible ASCII characters with space. */
  predicate VisibleAscii(value: string)
  {
    forall i :: 0 <= i < |value| ==> value[i] == '\t' || 32 <= value[i] as int < 127
  }

  /** What `Method::from_bytes` accepts: one or more token characters. */
  predicate ValidMethod(m: string)
  {
    0 < |m| && forall i :: 0 <= i < |m| ==> TokenChar(m[i])
  }

  /** Both unwraps of a header line succeed. */
  predicate ValidHeaderLine(line: string)
  {
    ValidHeaderName(HeaderName(line)) && ValidHeaderValue(HeaderValue(line))
  }

  /** The panics of the request path: a failed `unwrap` of a parse, or `step_by(0)`. */
  datatype Panic = InvalidHeaderName | InvalidHeaderValue | InvalidMethod | HeaderValueNotAscii | StepByZero

  /** The header loop of `from_strings`: the first line whose name or value fails to parse panics. */
  function CheckHeaders(lines: seq<string>): (r: Option<Panic>)
    ensures r.None? <==> forall i :: 0 <= i < |lines| ==> ValidHeaderLine(lines[i])
  {
    if lines == [] then None
    else if !ValidHeaderName(HeaderName(lines[0])) then Some(InvalidHeaderName)
    else if !ValidHeaderValue(HeaderValue(lines[0])) then Some(InvalidHeaderValue)
    else
      var r := CheckHeaders(lines[1..]);
      assert forall i :: 1 <= i < |lines| ==> lines[i] == lines[1..][i - 1];
      r
  }

  /** A transcript every unwrap of `from_strings` accepts. */
  predicate Buildable(t: Transcript)
  {
    ValidMethod(t.httpMethod) && forall i :: 0 <= i < |t.headerLines| ==> ValidHeaderLine(t.headerLines[i])
  }

  /**
    The request `from_strings` builds from the transcript at position `idx`:
    the header lines are parsed first, then the method; a failed parse panics.
  */
  function BuildRequest(idx: nat, raw: string, ssl: bool, target: string): (r: Result<Request, Panic>)
    ensures r.Ok? <==> Buildable(ParseTranscript(raw))
    ensures r.Ok? ==> r.value.idx == idx
  {
    var t := ParseTranscript(raw);
    var bad := CheckHeaders(t.headerLines);
    if bad.Some? then Err(bad.value)
    else if !ValidMethod(t.httpMethod) then Err(InvalidMethod)
    else Ok(Request(idx, Url(ssl, target, t.uri), t.httpMethod, t.body, HeaderMapOf(t.headerLines)))
  }

  /**
    A request built from a well-formed transcript exists exactly when its
    method and header lines parse, and then carries its method, URI, body and
    headers.
  */
  lemma {:induction false} BuildRequestOfFormatted(idx: nat, t: Transcript, version: string, ssl: bool, target: string)
    requires WellFormed(t, version)
    ensures BuildRequest(idx, FormatTranscript(t, version), ssl, target).Ok? <==> Buildable(t)
    ensures Buildable(t) ==>
      BuildRequest(idx, FormatTranscript(t, version), ssl, target)
        == Ok(Request(idx, Url(ssl, target, t.uri), t.httpMethod, t.body, HeaderMapOf(t.headerLines)))
  {
    TranscriptRoundTrip(t, version);
  }

  /** Every header value of `r` is visible ASCII. */
  predicate AsciiHeaders(r: Request)
  {
    forall k :: k in r.headers ==> VisibleAscii(r.headers[k])
  }

  /**
    `Request::from`: a field-wise copy; `to_str().unwrap()` panics on a header
    value that is not visible ASCII (which `from_strings` accepts).
  */
  function CopyRequest(r: Request): (c: Result<Request, Panic>)
    ensures c.Ok? <==> AsciiHeaders(r)
    ensures c.Ok? ==> c.value == r
  {
    if AsciiHeaders(r) then Ok(Request(r.idx, r.url, r.httpMethod, r.body, r.headers))
    else Err(HeaderValueNotAscii)
  }

  /** The values of `rs` in order, or the error of the first failed one. */
  function Collect<T, E>(rs: seq<Result<T, E>>): (r: Result<seq<T>, E>)
    ensures r.Ok? <==> forall i :: 0 <= i < |rs| ==> rs[i].Ok?
    ensures r.Ok? ==> |r.value| == |rs| && forall i :: 0 <= i < |rs| ==> rs[i] == Ok(r.value[i])
  {
    if rs == [] then Ok([])
    else
      var n := |rs| - 1;
      var init := Collect(rs[..n]);
      if init.Err? then init
      else if rs[n].Err? then Err(rs[n].error)
      else Ok(init.value + [rs[n].value])
  }

  /** Once a prefix has failed, the whole sequence fails with the same error. */
  lemma {:induction false} CollectStaysErr<T, E>(rs: seq<Result<T, E>>, n: nat)
    requires n <= |rs| && Collect(rs[..n]).Err?
    ensures Collect(rs) == Collect(rs[..n])
    decreases |rs|
  {
    if n < |rs| {
      var m := |rs| - 1;
      assert rs[..m][..n] == rs[..n];
      CollectStaysErr(rs[..m], n);
    } else {
      assert rs[..n] == rs;
    }
  }

  /** One more element: its value is appended, or its error is the result. */
  lemma {:induction false} CollectSnoc<T, E>(rs: seq<Result<T, E>>, n: nat, out: seq<T>)
    requires n < |rs| && Collect(rs[..n]) == Ok(out)
    ensures rs[n].Ok? ==> Collect(rs[..n + 1]) == Ok(out + [rs[n].value])
    ensures rs[n].Err? ==> Collect(rs[..n + 1]) == Err(rs[n].error)
  {
    assert rs[..n + 1][..n] == rs[..n];
  }

  /** The requests of a list of transcripts, the i-th built with index i; the first failure panics. */
  function BuildRequests(v: seq<string>, ssl: bool, target: string): (r: Result<seq<Request>, Panic>)
    ensures r.Ok? <==> forall i :: 0 <= i < |v| ==> Buildable(ParseTranscript(v[i]))
    ensures r.Ok? ==> |r.value| == |v| && forall i :: 0 <= i < |v| ==> r.value[i].idx == i
  {
    var rs := seq(|v|, i requires 0 <= i < |v| => BuildRequest(i, v[i], ssl, target));
    assert forall i :: 0 <= i < |v| ==> rs[i] == BuildRequest(i, v[i], ssl, target);
    Collect(rs)
  }

  /** `Request::from_strings`: one request per transcript, pushed in order, until a parse panics. */
  method FromStrings(v: seq<string>, ssl: bool, target: string) returns (r: Result<seq<Request>, Panic>)
    ensures r == BuildRequests(v, ssl, target)
  {
    ghost var rs := seq(|v|, i requires 0 <= i < |v| => BuildRequest(i, v[i], ssl, target));
    var out := [];
    for idx := 0 to |v|
      invariant Collect(rs[..idx]) == Ok(out)
    {
      var q := BuildRequest(idx, v[idx], ssl, target);
      assert rs[idx] == q;
      CollectSnoc(rs, idx, out);
      if q.Err? {
        CollectStaysErr(rs, idx + 1);
        return Err(q.error);
      }
      out := out + [q.value];
    }
    assert rs[..|v|] == rs;
    return Ok(out);
  }

  // ---------------------------------------------------------------------------
  // Partitioning

  /** The batch size of `run`: 250 below 1000 requests, otherwise ceil(n / 1000). */
  function BatchSize(n: nat): (b: nat)
    ensures b >= 1
    ensures n < 1000 ==> b == 250
    ensures n >= 1000 ==> (b - 1) * 1000 < n <= b * 1000
  {
    if n < 1000 then 250 else n / 1000 + (if n % 1000 != 0 then 1 else 0)
  }

  /** `s` cut into contiguous chunks of `k` elements, the last one possibly shorter. */
  function Chunks<T>(s: seq<T>, k: nat): (cs: seq<seq<T>>)
    requires k > 0
    ensures forall i :: 0 <= i < |cs| ==> 0 < |cs[i]| <= k
    ensures forall i :: 0 <= i < |cs| - 1 ==> |cs[i]| == k
    decreases |s|
  {
    if s == [] then []
    else if |s| <= k then [s]
    else [s[..k]] + Chunks(s[k..], k)
  }

  /** The chunks, concatenated in order, give back the input. */
  lemma {:induction false} ChunksFlatten<T>(s: seq<T>, k: nat)
    requires k > 0
    ensures Flatten(Chunks(s, k)) == s
    decreases |s|
  {
    if |s| > k {
      ChunksFlatten(s[k..], k);
      assert ([s[..k]] + Chunks(s[k..], k))[1..] == Chunks(s[k..], k);
    }
  }

  /** There are ceil(|s| / k) chunks: the fewest chunks of at most `k` that hold `s`. */
  lemma {:induction false} ChunksCount<T>(s: seq<T>, k: nat)
    requires k > 0
    ensures var c := |Chunks(s, k)|; (c - 1) * k < |s| <= c * k
    decreases |s|
  {
    if |s| > k {
      ChunksCount(s[k..], k);
      var c := |Chunks(s[k..], k)|;
      assert (c + 1 - 1) * k == (c - 1) * k + k;
      assert (c + 1) * k == c * k + k;
    }
  }

  /** Text of at most `m * k` elements makes at most `m` chunks. */
  lemma {:induction false} ChunksAtMost<T>(s: seq<T>, k: nat, m: nat)
    requires k > 0 && |s| <= m * k
    ensures |Chunks(s, k)| <= m
    decreases |s|
  {
    if |s| > k {
      assert m * k > k;
      assert |s[k..]| <= (m - 1) * k;
      ChunksAtMost(s[k..], k, m - 1);
    }
  }

  /** With the chosen batch size, `run` spawns at most 1000 workers. */
  lemma {:induction false} BatchCountBounded<T>(s: seq<T>)
    ensures |Chunks(s, BatchSize(|s|))| <= 1000
  {
    var b := BatchSize(|s|);
    assert |s| <= 1000 * b;
    ChunksAtMost(s, b, 1000);
  }

  /** 2500 requests run in 834 chunks of 3. */
  lemma {:induction false} BatchSizeExample<T>(s: seq<T>)
    requires |s| == 2500
    ensures BatchSize(|s|) == 3 && |Chunks(s, BatchSize(|s|))| == 834
  {
    ChunksCount(s, 3);
  }

  /** The chunks from position `n` on: the chunk starting at `n`, then the chunks after it. */
  lemma {:induction false} ChunksAt<T>(s: seq<T>, n: nat, k: nat)
    requires k > 0 && n < |s|
    ensures var end := if |s| - n > k then n + k else |s|;
      Chunks(s[n..], k) == [s[n..end]] + Chunks(s[end..], k)
  {
    if |s| - n > k {
      assert s[n..][..k] == s[n..n + k];
      assert s[n..][k..] == s[n + k..];
    } else {
      assert s[n..] == s[n..|s|];
      assert s[|s|..] == [];
    }
  }

  /**
    `BatchRequest::split`: the start positions step by `min(|payloads|, howMany)`
    and each chunk copies up to `howMany` requests from its start. A step of 0
    (no payloads, or a batch size of 0) panics before anything is copied; a
    header value that is not visible ASCII panics in the copy.
  */
  method SplitIntoBatches(payloads: seq<Request>, howMany: nat) returns (r: Result<seq<seq<Request>>, Panic>)
    ensures r.Err? <==> (|payloads| == 0 || howMany == 0
                         || exists i :: 0 <= i < |payloads| && !AsciiHeaders(payloads[i]))
    ensures (|payloads| == 0 || howMany == 0) ==> r == Err(StepByZero)
    ensures r.Ok? ==> r.value == Chunks(payloads, howMany)
  {
    var step := if |payloads| > howMany then howMany else |payloads|;
    if step == 0 {
      return Err(StepByZero);
    }
    var batches: seq<seq<Request>> := [];
    var n := 0;
    while n < |payloads|
      invariant n == 0 || n >= |payloads| || step == howMany
      invariant SplitSoFar(payloads, howMany, batches, n)
      invariant forall i :: 0 <= i < Clamp(n, |payloads|) ==> AsciiHeaders(payloads[i])
      decreases |payloads| - n
    {
      var end := if |payloads| - n > howMany then n + howMany else |payloads|;
      var v := CopyChunk(payloads, n, end);
      if v.Err? {
        return Err(v.error);
      }
      SplitStep(payloads, batches, v.value, n, end, howMany, step);
      batches := batches + [v.value];
      n := n + step;
    }
    SplitDone(payloads, howMany, batches, n);
    return Ok(batches);
  }

  /** The batches made so far, followed by the chunks from position `n` on, are all the chunks. */
  ghost predicate SplitSoFar<T>(s: seq<T>, k: nat, done: seq<seq<T>>, n: nat)
    requires k > 0
  {
    done + Chunks(s[Clamp(n, |s|)..], k) == Chunks(s, k)
  }

  /** One round of `split`: the chunk `v` at `n` joins the batches, and the chunks from the next start remain. */
  lemma {:induction false} SplitStep<T>(s: seq<T>, done: seq<seq<T>>, v: seq<T>, n: nat, end: nat, k: nat, step: nat)
    requires k > 0 && n < |s|
    requires step == k || (n == 0 && step == |s| && |s| <= k)
    requires end == (if |s| - n > k then n + k else |s|) && v == s[n..end]
    requires SplitSoFar(s, k, done, n)
    ensures SplitSoFar(s, k, done + [v], n + step)
    ensures Clamp(n + step, |s|) == end
  {
    ChunksAt(s, n, k);
    assert Clamp(n, |s|) == n;
    assert Clamp(n + step, |s|) == end;
    assert (done + [v]) + Chunks(s[end..], k) == done + ([v] + Chunks(s[end..], k));
  }

  /** Once the start position has passed the end, the batches made are all the chunks. */
  lemma {:induction false} SplitDone<T>(s: seq<T>, k: nat, done: seq<seq<T>>, n: nat)
    requires k > 0 && n >= |s| && SplitSoFar(s, k, done, n)
    ensures done == Chunks(s, k)
  {
    assert s[Clamp(n, |s|)..] == [];
    assert done + [] == done;
  }

  /** The smaller of a position and a length. */
  function Clamp(n: nat, len: nat): (m: nat)
    ensures m <= len && m <= n && (m == n || m == len)
  {
    if n < len then n else len
  }

  /** The body of a `split` chunk: `Request::from` of each request of `payloads[n..end]`, in order. */
  method CopyChunk(payloads: seq<Request>, n: nat, end: nat) returns (v: Result<seq<Request>, Panic>)
    requires n <= end <= |payloads|
    ensures v.Ok? <==> forall j :: n <= j < end ==> AsciiHeaders(payloads[j])
    ensures v.Ok? ==> v.value == payloads[n..end]
  {
    var out := [];
    for j := n to end
      invariant out == payloads[n..j]
      invariant forall i :: n <= i < j ==> AsciiHeaders(payloads[i])
    {
      var c := CopyRequest(payloads[j]);
      if c.Err? {
        return Err(c.error);
      }
      out := out + [c.value];
    }
    return Ok(out);
  }

  // ---------------------------------------------------------------------------
  // The batch worker

  /** What the transport returns for a request it could send. */
  datatype Response = Response(version: string, status: string, headers: string, text: string)

  /** The outcome of one network call. */
  datatype Delivery = Delivered(response: Response) | Failed(error: string)

  /** The client that sends one request (not modelled: any function). */
  type Transport = Request -> Delivery

  /** `SuccessTuple`: (idx, version, status, headers, text). */
  datatype ResultRow = ResultRow(idx: nat, version: string, status: string, headers: string, text: string)

  /** `RunResultUnitary`: `Ok(SuccessTuple)` or `Err((idx, error))`. */
  datatype RunResult = Success(row: ResultRow) | Failure(idx: nat, error: string)
  {
    function Idx(): nat
    {
      if Success? then row.idx else idx
    }
  }

  /** One request of a batch: a failure is recorded, not raised. */
  function Execute(req: Request, transport: Transport): (r: RunResult)
    ensures r.Idx() == req.idx
    ensures r.Failure? <==> transport(req).Failed?
  {
    match transport(req)
    case Failed(e) => Failure(req.idx, e)
    case Delivered(resp) => Success(ResultRow(req.idx, resp.version, resp.status, resp.headers, resp.text))
  }

  /** The value a batch's promise holds once it is ready. */
  function BatchResults(reqs: seq<Request>, transport: Transport): (rs: seq<RunResult>)
    ensures |rs| == |reqs|
    ensures forall i :: 0 <= i < |reqs| ==> rs[i].Idx() == reqs[i].idx
  {
    seq(|reqs|, i requires 0 <= i < |reqs| => Execute(reqs[i], transport))
  }

  /** `BatchRequest::by_batch`: one result per request, in order, each with that request's index. */
  method ByBatch(reqs: seq<Request>, transport: Transport) returns (out: seq<RunResult>)
    ensures |out| == |reqs|
    ensures forall i :: 0 <= i < |reqs| ==> out[i].Idx() == reqs[i].idx
    ensures out == BatchResults(reqs, transport)
  {
    out := [];
    for i := 0 to |reqs|
      invariant out == BatchResults(reqs[..i], transport)
    {
      out := out + [Execute(reqs[i], transport)];
      assert reqs[..i + 1][..i] == reqs[..i];
    }
    assert reqs[..|reqs|] == reqs;
  }

  lemma {:induction false} BatchResultsAppend(a: seq<Request>, b: seq<Request>, transport: Transport)
    ensures BatchResults(a + b, transport) == BatchResults(a, transport) + BatchResults(b, transport)
  {
  }

  // ---------------------------------------------------------------------------
  // run

  /** A spawned worker: it runs `batch` and, once ready, holds `BatchResults(batch, transport)`. */
  datatype Promise = Promise(batch: seq<Request>)

  /**
    `BatchRequest::run`: choose the batch size, split, and append one promise
    per chunk to the caller's vector, leaving its existing entries in place.
    An empty request list, or a header value that is not visible ASCII,
    panics in `split` before any worker is spawned.
  */
  method Run(payloads: seq<Request>, promises: seq<Promise>) returns (r: Result<seq<Promise>, Panic>)
    ensures r.Err? <==> |payloads| == 0 || exists i :: 0 <= i < |payloads| && !AsciiHeaders(payloads[i])
    ensures r.Ok? ==>
      var chunks := Chunks(payloads, BatchSize(|payloads|));
      && |r.value| == |promises| + |chunks|
      && r.value[..|promises|] == promises
      && forall i :: 0 <= i < |chunks| ==> r.value[|promises| + i] == Promise(chunks[i])
  {
    var batchSize := BatchSize(|payloads|);
    var split := SplitIntoBatches(payloads, batchSize);
    if split.Err? {
      return Err(split.error);
    }
    var batches := split.value;
    var out := promises;
    for w := 0 to |batches|
      invariant |out| == |promises| + w
      invariant out[..|promises|] == promises
      invariant forall i :: 0 <= i < w ==> out[|promises| + i] == Promise(batches[i])
    {
      out := out + [Promise(batches[w])];
    }
    return Ok(out);
  }
}
