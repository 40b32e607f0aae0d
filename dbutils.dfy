/**
  The history rows (src/app/backend/dbutils.rs): the mapping of a `history`
  table row to a `HistLine`, the host extraction from the raw request, the
  database path, and `get_new_from_last_id`, the query of the rows newer than
  a cursor. The SQLite store is a sequence of rows kept in ascending id
  order, so the query's `ORDER BY id` is the order of the sequence.
*/
module DbUtils {
  import opened Wrappers
  import opened Text

  /** The ten columns of a `history` row, in column order. */
  datatype DbRow = DbRow(id: nat, uri: string, httpMethod: string, params: int, status: nat,
                         size: nat, raw: string, ssl: bool, response: string, responseTime: string)

  /** `HistLine`: a row as the history table shows it. */
  datatype HistLine = HistLine(id: nat, uri: string, httpMethod: string, params: bool, status: nat,
                               size: nat, raw: string, ssl: bool, response: string,
                               responseTime: string, host: string)

  /** `try_open_conn`: the database file of a project directory. */
  function DbPath(projectPath: string): (p: string)
    ensures |p| == |projectPath| + 8 && p[..|projectPath|] == projectPath
    ensures p[|projectPath|..] == "/hist.db"
  {
    projectPath + "/hist.db"
  }

  /** Distinct projects use distinct database files. */
  lemma {:induction false} DbPathInjective(a: string, b: string)
    requires DbPath(a) == DbPath(b)
    ensures a == b
  {
    assert a == DbPath(a)[..|a|];
  }

  /**
    The host: the text after the first "ost: " (up to a second one), cut at
    the first CRLF. Empty when the request holds no "ost: ".
  */
  function ExtractHost(raw: string): string
  {
    Split(Nth(Split(raw, "ost: "), 1), "\r\n")[0]
  }

  /** The host never spans a line break. */
  lemma {:induction false} HostHasNoCrlf(raw: string)
    ensures Absent("\r\n", ExtractHost(raw))
  {
    SplitPiecesLackSep(Nth(Split(raw, "ost: "), 1), "\r\n");
  }

  /** A request without "ost: " has an empty host. */
  lemma {:induction false} HostOfHostless(raw: string)
    requires Absent("ost: ", raw)
    ensures ExtractHost(raw) == ""
  {
    SplitAbsent(raw, "ost: ");
    SplitAbsent("", "\r\n");
  }

  /** No "ost: " starts before the CRLF that follows a line `h` without CR and without "ost: ". */
  lemma {:induction false} NoHostMarkerIn(h: string, rest: string)
    requires NoChar(h, '\r') && Absent("ost: ", h)
    ensures NoMatchBefore(h + "\r\n" + rest, "ost: ", |h| + 2)
  {
    var s := h + "\r\n" + rest;
    forall i: nat | i < |h| + 2
      ensures !MatchAt(s, "ost: ", i)
    {
      if i + 5 <= |h| {
        assert !MatchAt(h, "ost: ", i);
        var j :| 0 <= j < 5 && h[i + j] != "ost: "[j];
        assert s[i + j] == h[i + j];
      } else if i <= |h| && i + 5 <= |s| {
        assert s[i + (|h| - i)] == '\r' != "ost: "[|h| - i];
      } else if i + 5 <= |s| {
        assert s[i] == '\n' != "ost: "[0];
      }
    }
  }

  /** The host written in a `Host: h` line is the one extracted, when it is the first "ost: ". */
  lemma {:induction false} HostOfHostLine(before: string, h: string, rest: string)
    requires NoMatchBefore(before + "ost: " + h + "\r\n" + rest, "ost: ", |before|)
    requires NoChar(h, '\r') && Absent("ost: ", h)
    ensures ExtractHost(before + "ost: " + h + "\r\n" + rest) == h
  {
    var after := h + "\r\n" + rest;
    assert before + "ost: " + h + "\r\n" + rest == before + "ost: " + after;
    HostAfterMarker(before, after);
    HostLineFirstPiece(h, rest);
  }

  /** When the first "ost: " ends `before`, the second piece is the first piece of the text after it. */
  lemma {:induction false} HostAfterMarker(before: string, after: string)
    requires NoMatchBefore(before + "ost: " + after, "ost: ", |before|)
    ensures Nth(Split(before + "ost: " + after, "ost: "), 1) == Split(after, "ost: ")[0]
  {
    var raw := before + "ost: " + after;
    assert MatchAt(raw, "ost: ", |before|);
    SplitAt(raw, "ost: ", |before|);
    assert raw[|before| + 5..] == after;
  }

  /** The text of a `Host` line up to its CRLF is cut out of the piece that starts with it. */
  lemma {:induction false} HostLineFirstPiece(h: string, rest: string)
    requires NoChar(h, '\r') && Absent("ost: ", h)
    ensures Split(Split(h + "\r\n" + rest, "ost: ")[0], "\r\n")[0] == h
  {
    var after := h + "\r\n" + rest;
    var piece := Split(after, "ost: ")[0];
    SplitHead(after, "ost: ");
    NoHostMarkerIn(h, rest);
    assert |piece| >= |h| + 2;
    assert piece == h + "\r\n" + piece[|h| + 2..] by {
      assert piece == after[..|piece|];
    }
    SplitAfterWord(h, piece[|h| + 2..], "\r\n");
  }

  /** The `query_map` closure: columns copied, `params` set when column 3 is 1, the host extracted. */
  function RowToHistLine(row: DbRow): (h: HistLine)
    ensures h.id == row.id && h.raw == row.raw
    ensures h.params <==> row.params == 1
    ensures h.host == ExtractHost(row.raw)
  {
    HistLine(row.id, row.uri, row.httpMethod, row.params == 1, row.status, row.size, row.raw,
             row.ssl, row.response, row.responseTime, ExtractHost(row.raw))
  }

  /** Ids strictly increase along the rows. */
  ghost predicate AscendingIds(rows: seq<DbRow>)
  {
    forall i, j :: 0 <= i < j < |rows| ==> rows[i].id < rows[j].id
  }

  /** Ids strictly increase along the history lines. */
  ghost predicate AscendingLines(lines: seq<HistLine>)
  {
    forall i, j :: 0 <= i < j < |lines| ==> lines[i].id < lines[j].id
  }

  /** `SELECT * FROM history WHERE id > lastId ORDER BY id Asc`, each row mapped to a `HistLine`. */
  function Query(table: seq<DbRow>, lastId: nat): (out: seq<HistLine>)
    ensures |out| <= |table|
    ensures forall i :: 0 <= i < |out| ==> out[i].id > lastId
  {
    if table == [] then []
    else (if table[0].id > lastId then [RowToHistLine(table[0])] else []) + Query(table[1..], lastId)
  }

  /** A query returns exactly the lines of the rows above the cursor: each such row, and nothing else. */
  lemma {:induction false} QueryContents(table: seq<DbRow>, lastId: nat)
    ensures forall r :: r in table && r.id > lastId ==> RowToHistLine(r) in Query(table, lastId)
    ensures forall h :: h in Query(table, lastId) ==> exists r :: r in table && r.id > lastId && h == RowToHistLine(r)
  {
    if table != [] {
      QueryContents(table[1..], lastId);
      var rest := Query(table[1..], lastId);
      assert forall r :: r in table[1..] ==> r in table;
      assert forall r :: r in table ==> r == table[0] || r in table[1..];
      if table[0].id > lastId {
        assert Query(table, lastId) == [RowToHistLine(table[0])] + rest;
      } else {
        assert Query(table, lastId) == [] + rest;
      }
    }
  }

  /** Every id a query returns is above any bound that all ids of the table exceed. */
  lemma {:induction false} QueryAbove(table: seq<DbRow>, lastId: nat, bound: nat)
    requires forall r :: r in table ==> r.id > bound
    ensures forall i :: 0 <= i < |Query(table, lastId)| ==> Query(table, lastId)[i].id > bound
  {
    if table != [] {
      assert table[0] in table;
      assert forall r :: r in table[1..] ==> r in table;
      QueryAbove(table[1..], lastId, bound);
      if table[0].id > lastId {
        assert Query(table, lastId) == [RowToHistLine(table[0])] + Query(table[1..], lastId);
      }
    }
  }

  /** A query returns the newer rows in ascending id order. */
  lemma {:induction false} QueryAscending(table: seq<DbRow>, lastId: nat)
    requires AscendingIds(table)
    ensures AscendingLines(Query(table, lastId))
  {
    if table != [] {
      QueryAscending(table[1..], lastId);
      var rest := Query(table[1..], lastId);
      forall r | r in table[1..]
        ensures r.id > table[0].id
      {
        var k :| 0 <= k < |table[1..]| && table[1..][k] == r;
        assert table[k + 1] == r;
      }
      QueryAbove(table[1..], lastId, table[0].id);
      if table[0].id > lastId {
        var out := Query(table, lastId);
        assert out == [RowToHistLine(table[0])] + rest;
        forall i, j | 0 <= i < j < |out|
          ensures out[i].id < out[j].id
        {
          assert out[j] == rest[j - 1];
          if i > 0 {
            assert out[i] == rest[i - 1];
          }
        }
      }
    }
  }

  /** Both parts of an ascending table are ascending, and the first part's last id separates them. */
  lemma {:induction false} AscendingParts(table: seq<DbRow>, added: seq<DbRow>)
    requires AscendingIds(table + added)
    ensures AscendingIds(table) && AscendingIds(added)
    ensures table != [] ==> forall r :: r in table ==> r.id <= table[|table| - 1].id
    ensures table != [] ==> forall r :: r in added ==> r.id > table[|table| - 1].id
  {
    var all := table + added;
    forall i, j | 0 <= i < j < |table|
      ensures table[i].id < table[j].id
    {
      assert all[i] == table[i] && all[j] == table[j];
    }
    forall i, j | 0 <= i < j < |added|
      ensures added[i].id < added[j].id
    {
      assert all[|table| + i] == added[i] && all[|table| + j] == added[j];
    }
    if table != [] {
      var n := |table| - 1;
      assert all[n] == table[n];
      forall r | r in table
        ensures r.id <= table[n].id
      {
        var i :| 0 <= i < |table| && table[i] == r;
        assert all[i] == table[i];
      }
      forall r | r in added
        ensures r.id > table[n].id
      {
        var i :| 0 <= i < |added| && added[i] == r;
        assert all[|table| + i] == added[i];
      }
    }
  }

  /** Querying a table grown at the end is querying both parts. */
  lemma {:induction false} QueryAppend(a: seq<DbRow>, b: seq<DbRow>, lastId: nat)
    ensures Query(a + b, lastId) == Query(a, lastId) + Query(b, lastId)
  {
    if a != [] {
      QueryAppend(a[1..], b, lastId);
      assert (a + b)[0] == a[0] && (a + b)[1..] == a[1..] + b;
      var head := if a[0].id > lastId then [RowToHistLine(a[0])] else [];
      assert Query(a + b, lastId) == head + Query(a[1..] + b, lastId);
      assert Query(a, lastId) == head + Query(a[1..], lastId);
    } else {
      assert a + b == b;
    }
  }

  /** A cursor at or above every id finds nothing. */
  lemma {:induction false} QueryAboveAll(table: seq<DbRow>, lastId: nat)
    requires forall r :: r in table ==> r.id <= lastId
    ensures Query(table, lastId) == []
  {
    if table != [] {
      assert table[0] in table;
      assert forall r :: r in table[1..] ==> r in table;
      QueryAboveAll(table[1..], lastId);
    }
  }

  /** Two cursors below every id find the same rows. */
  lemma {:induction false} QueryBelowAll(table: seq<DbRow>, c1: nat, c2: nat)
    requires forall r :: r in table ==> r.id > c1 && r.id > c2
    ensures Query(table, c1) == Query(table, c2)
  {
    if table != [] {
      assert table[0] in table;
      assert forall r :: r in table[1..] ==> r in table;
      QueryBelowAll(table[1..], c1, c2);
    }
  }

  /** On an ascending table, a non-empty answer ends with the table's last (largest) id. */
  lemma {:induction false} QueryEndsWithLast(table: seq<DbRow>, lastId: nat)
    requires AscendingIds(table) && Query(table, lastId) != []
    ensures var out := Query(table, lastId); out[|out| - 1].id == table[|table| - 1].id
  {
    var out := Query(table, lastId);
    var rest := Query(table[1..], lastId);
    if rest == [] {
      assert table[0].id > lastId;
      if |table| > 1 {
        assert table[|table| - 1].id > lastId;
        QueryHasLast(table[1..], lastId);
      }
    } else {
      QueryEndsWithLast(table[1..], lastId);
    }
  }

  /** If the last row of a non-empty table is newer than the cursor, the answer is not empty. */
  lemma {:induction false} QueryHasLast(table: seq<DbRow>, lastId: nat)
    requires table != [] && table[|table| - 1].id > lastId
    ensures Query(table, lastId) != []
    decreases |table|
  {
    if table[0].id <= lastId {
      QueryHasLast(table[1..], lastId);
    }
  }

  /**
    `get_new_from_last_id`: `None` when the database cannot be opened (`db`
    is `None`), otherwise the newer rows, pushed one by one.
  */
  method GetNewFromLastId(lastId: nat, db: Option<seq<DbRow>>) returns (out: Option<seq<HistLine>>)
    ensures out.None? <==> db.None?
    ensures db.Some? ==> out == Some(Query(db.value, lastId))
  {
    if db.None? {
      return None;
    }
    var rows := Query(db.value, lastId);
    var acc: seq<HistLine> := [];
    for i := 0 to |rows|
      invariant acc == rows[..i]
    {
      acc := acc + [rows[i]];
    }
    assert rows[..|rows|] == rows;
    return Some(acc);
  }
}
