/**
  The history window (src/app/mods/history.rs): the `History` state and one
  frame of `history_ui!` on a remote project, which keeps a single fetch of
  the rows newer than `last_id` in flight, prepends the fetched rows to the
  history and advances `last_id`, and then shows one page of the history.
*/
module History {
  import opened Wrappers
  import opened Seqs
  import opened Tables
  import opened DbUtils

  /** The fetch in flight: `get_new_from_last_id(since, url, secret)` on a worker thread. */
  datatype Fetch = Fetch(since: nat)

  /**
    The cursor after a merge of `rows`: every row sets `last_id` to the larger
    of its id and the cursor read before the loop, so the last row decides.
  */
  function MergedLastId(before: nat, rows: seq<HistLine>): (r: nat)
    ensures r >= before
    ensures rows == [] ==> r == before
    ensures rows != [] ==> r >= rows[|rows| - 1].id && (r == before || r == rows[|rows| - 1].id)
  {
    if rows == [] then before
    else if rows[|rows| - 1].id > before then rows[|rows| - 1].id
    else before
  }

  /** The largest of `before` and all ids of `rows`. */
  function MaxId(before: nat, rows: seq<HistLine>): (r: nat)
    ensures r >= before
    ensures forall i :: 0 <= i < |rows| ==> rows[i].id <= r
    ensures r == before || exists i :: 0 <= i < |rows| && rows[i].id == r
  {
    if rows == [] then before
    else
      var m := MaxId(before, rows[..|rows| - 1]);
      assert forall i :: 0 <= i < |rows| - 1 ==> rows[..|rows| - 1][i] == rows[i];
      if rows[|rows| - 1].id > m then rows[|rows| - 1].id else m
  }

  /** Rows that come in ascending id order (as the query returns them) advance the cursor to the largest id. */
  lemma {:induction false} MergedIsMaxWhenAscending(before: nat, rows: seq<HistLine>)
    requires AscendingLines(rows)
    ensures MergedLastId(before, rows) == MaxId(before, rows)
  {
    if |rows| > 1 {
      var init := rows[..|rows| - 1];
      assert AscendingLines(init) by {
        assert forall i :: 0 <= i < |init| ==> init[i] == rows[i];
      }
      MergedIsMaxWhenAscending(before, init);
      assert init[|init| - 1] == rows[|rows| - 2];
    }
  }

  /** A history line with only its id set. */
  function LineWithId(id: nat): HistLine
  {
    HistLine(id, "", "", false, 0, 0, "", false, "", "", "")
  }

  /** Out of order, the last row decides: ids 5 then 3 leave the cursor at 3, and row 5 would be fetched again. */
  lemma {:induction false} MergeOutOfOrder()
    ensures MergedLastId(0, [LineWithId(5), LineWithId(3)]) == 3
    ensures MaxId(0, [LineWithId(5), LineWithId(3)]) == 5
  {
    assert [LineWithId(5), LineWithId(3)][..1] == [LineWithId(5)];
  }

  /**
    With the rows the database returns, a merge followed by the next fetch
    from the grown table yields exactly the rows added since: nothing is
    fetched twice and nothing is skipped.
  */
  lemma {:induction false} MergeThenFetchOnlyNew(table: seq<DbRow>, added: seq<DbRow>, before: nat)
    requires AscendingIds(table + added)
    ensures Query(table + added, MergedLastId(before, Query(table, before))) == Query(added, before)
  {
    var rows := Query(table, before);
    var m := MergedLastId(before, rows);
    QueryAppend(table, added, m);
    AscendingParts(table, added);
    if rows != [] {
      QueryEndsWithLast(table, before);
      assert m == table[|table| - 1].id;
      QueryAboveAll(table, m);
      QueryBelowAll(added, m, before);
    }
  }

  /**
    The page `history_ui!` slices: the range is computed over `last_id`, and
    `&history[range]` panics (`None`) unless it lies inside the history. The
    host filter is applied to the slice.
  */
  function HistoryPageAsWritten(history: seq<HistLine>, lastId: nat, page: nat, k: nat,
                                keep: string -> bool): (r: Option<seq<HistLine>>)
    ensures r.Some? <==> page * k <= lastId && Paginate(page, k, lastId).end <= |history|
    ensures r.Some? ==> |r.value| <= k
  {
    var range := Paginate(page, k, lastId);
    if range.start <= range.end <= |history| then
      Some(Filter(history[range.start..range.end], (h: HistLine) => keep(h.host)))
    else None
  }

  /** Ids with a gap: one row with id 2 makes the first page panic. */
  lemma {:induction false} HistoryPageGapPanics(keep: string -> bool)
    ensures HistoryPageAsWritten([LineWithId(2)], 2, 0, 10, keep).None?
  {
  }

  /** The page over the history's own length, as evidently intended. */
  function HistoryPage(history: seq<HistLine>, page: nat, k: nat, keep: string -> bool): (r: Option<seq<HistLine>>)
    ensures r.Some? <==> page * k <= |history|
    ensures r.Some? ==> |r.value| <= k
    ensures r.Some? ==> forall h :: h in r.value ==> h in history && keep(h.host)
  {
    var range := Paginate(page, k, |history|);
    if range.start <= range.end then
      var slice := history[range.start..range.end];
      assert forall h :: h in slice ==> h in history;
      Some(Filter(slice, (h: HistLine) => keep(h.host)))
    else None
  }

  /** Every history row is shown on page `i / k` unless the filter rejects it. */
  lemma {:induction false} EveryRowHasAPage(history: seq<HistLine>, i: nat, k: nat, keep: string -> bool)
    requires k > 0 && i < |history| && keep(history[i].host)
    ensures var r := HistoryPage(history, i / k, k, keep); r.Some? && history[i] in r.value
  {
    PageOfRow(i, k, |history|);
    var range := Paginate(i / k, k, |history|);
    assert history[i] == history[range.start..range.end][i - range.start];
  }

  /** The filter runs after the slice: a full page can show fewer than `k` rows although more match. */
  lemma {:induction false} FilterAfterSlice()
    ensures var h := [LineWithId(1), LineWithId(2)];
      HistoryPage(h, 0, 1, (host: string) => false) == Some([])
  {
  }

  class History {
    var lastId: nat
    var history: seq<HistLine>
    var currentTopId: nat
    var currentPage: nat
    var itemsPerPage: nat
    var filter: Option<string>
    var filterInput: string
    var selected: Option<HistLine>
    var responsePromise: Option<Fetch>

    /** `History::default`. */
    constructor ()
      ensures lastId == 0 && history == [] && currentTopId == 0 && currentPage == 0
      ensures itemsPerPage == 10 && filter == None && filterInput == ""
      ensures selected == None && responsePromise == None
    {
      lastId := 0;
      history := [];
      currentTopId := 0;
      currentPage := 0;
      itemsPerPage := 10;
      filter := None;
      filterInput := "";
      selected := None;
      responsePromise := None;
    }

    /** `History::clone`: the persistent fields are copied, the selection and the fetch are not. */
    method Clone() returns (c: History)
      ensures fresh(c)
      ensures c.lastId == lastId && c.history == history && c.currentTopId == currentTopId
      ensures c.currentPage == currentPage && c.itemsPerPage == itemsPerPage
      ensures c.filter == filter && c.filterInput == filterInput
      ensures c.selected == None && c.responsePromise == None
    {
      c := new History();
      c.lastId := lastId;
      c.history := history;
      c.currentTopId := currentTopId;
      c.currentPage := currentPage;
      c.itemsPerPage := itemsPerPage;
      c.filter := filter;
      c.filterInput := filterInput;
    }

    method SetLastId(id: nat)
      modifies this`lastId
      ensures lastId == id
    {
      lastId := id;
    }

    method ResetPromise()
      modifies this`responsePromise
      ensures responsePromise == None
    {
      responsePromise := None;
    }

    /** The merge loop: the cursor advances row by row; the rows are gathered front-first, so reversed. */
    method MergeRows(rows: seq<HistLine>) returns (dataToAppend: seq<HistLine>)
      modifies this`lastId
      ensures dataToAppend == Reverse(rows)
      ensures lastId == MergedLastId(old(lastId), rows)
    {
      var before := lastId;
      dataToAppend := [];
      for i := 0 to |rows|
        invariant dataToAppend == Reverse(rows[..i])
        invariant lastId == MergedLastId(before, rows[..i])
      {
        var newId := if rows[i].id > before then rows[i].id else before;
        SetLastId(newId);
        assert rows[..i + 1][..i] == rows[..i];
        dataToAppend := [rows[i]] + dataToAppend;
      }
      assert rows[..|rows|] == rows;
    }

    /** `insert(0, h)` of each gathered row in turn. */
    method PrependAll(data: seq<HistLine>)
      modifies this`history
      ensures history == Reverse(data) + old(history)
    {
      for j := 0 to |data|
        invariant history == Reverse(data[..j]) + old(history)
      {
        assert data[..j + 1][..j] == data[..j];
        history := [data[j]] + history;
      }
      assert data[..|data|] == data;
    }

    /**
      The fetch part of one `history_ui!` frame on a remote project. A fetch
      from the current `last_id` is spawned only when none is in flight;
      `outcome` is what the promise's `ready()` gives this frame (`None`: not
      ready). Fetched rows go to the front of the history in the order they
      came, and the cursor advances; a failed fetch only clears the slot.
    */
    method RemoteFrame(outcome: Option<Result<seq<HistLine>, string>>)
      modifies this`responsePromise, this`lastId, this`history
      ensures outcome.None? && old(responsePromise).None? ==> responsePromise == Some(Fetch(old(lastId)))
      ensures outcome.None? && old(responsePromise).Some? ==> responsePromise == old(responsePromise)
      ensures outcome.Some? ==> responsePromise == None
      ensures outcome.Some? && outcome.value.Ok? ==>
        history == outcome.value.value + old(history) && lastId == MergedLastId(old(lastId), outcome.value.value)
      ensures !(outcome.Some? && outcome.value.Ok?) ==> history == old(history) && lastId == old(lastId)
    {
      var dataToAppend: seq<HistLine> := [];
      if responsePromise.None? {
        responsePromise := Some(Fetch(lastId));
      }
      if outcome.Some? {
        if outcome.value.Ok? {
          dataToAppend := MergeRows(outcome.value.value);
          ReverseReverse(outcome.value.value);
        }
        ResetPromise();
      }
      PrependAll(dataToAppend);
    }

    /** The `>` button over `last_id` items; `false` when its subtraction underflows. */
    method ClickNext() returns (ok: bool)
      modifies this`currentPage
      ensures ok <==> old(currentPage) * itemsPerPage <= lastId
      ensures ok ==> Some(currentPage) == NextPage(old(currentPage), itemsPerPage, lastId)
      ensures !ok ==> currentPage == old(currentPage)
    {
      var next := NextPage(currentPage, itemsPerPage, lastId);
      ok := next.Some?;
      if ok {
        currentPage := next.value;
      }
    }

    /** The `<` button. */
    method ClickPrevious()
      modifies this`currentPage
      ensures currentPage == PrevPage(old(currentPage))
    {
      if currentPage != 0 {
        currentPage := currentPage - 1;
      }
    }
  }
}
