/**
  The paging arithmetic of the result tables (src/app/mods/tables.rs): the
  `paginate!` range over `n` items shown `k` to a page, and the rules of the
  `>` and `<` page buttons of `tbl_dyn_col!`. All quantities are `usize`.
*/
module Tables {
  import opened Wrappers

  /** A `Range { start, end }` of row positions. */
  datatype PageRange = PageRange(start: nat, end: nat)

  /**
    `paginate!(page, k, n)`: the range starts at `page * k` and ends at
    `(page + 1) * k`, with the end (and only the end) clamped to `n`.
  */
  function Paginate(page: nat, k: nat, n: nat): (r: PageRange)
    ensures r.start == page * k
    ensures r.end <= n
    ensures r.end <= r.start + k
    ensures r.end == n || r.end == r.start + k
    ensures r.start <= r.end <==> page * k <= n
  {
    var end := (page + 1) * k;
    PageRange(page * k, if end > n then n else end)
  }

  /** The range holds at most `k` rows whenever it is not inverted. */
  lemma {:induction false} PageLength(page: nat, k: nat, n: nat)
    requires page * k <= n
    ensures var r := Paginate(page, k, n); r.end - r.start <= k
  {
  }

  /** Consecutive full pages touch: the next page starts where this one ends. */
  lemma {:induction false} PagesAdjacent(page: nat, k: nat, n: nat)
    requires (page + 1) * k <= n
    ensures Paginate(page + 1, k, n).start == Paginate(page, k, n).end
  {
  }

  /** Every row position below `n` lies on page `i / k`. */
  lemma {:induction false} PageOfRow(i: nat, k: nat, n: nat)
    requires k > 0 && i < n
    ensures var r := Paginate(i / k, k, n); r.start <= i < r.end
  {
    var q := i / k;
    assert q * k <= i < q * k + k;
    assert (q + 1) * k == q * k + k;
  }

  /**
    The `>` button: the page advances only when more than `k` items lie at or
    after the current page start. `n - page * k` is a `usize` subtraction,
    which panics (debug build) when `page * k > n`; that case is `None`.
  */
  function NextPage(page: nat, k: nat, n: nat): (r: Option<nat>)
    ensures r.None? <==> page * k > n
    ensures r.Some? ==> r.value == page || r.value == page + 1
    ensures r.Some? ==> (r.value == page + 1 <==> n - page * k > k)
  {
    if page * k > n then None
    else if n - page * k > k then Some(page + 1)
    else Some(page)
  }

  /** The `<` button: a no-op on page 0, otherwise one page back. */
  function PrevPage(page: nat): (r: nat)
    ensures page == 0 ==> r == 0
    ensures page > 0 ==> r + 1 == page
  {
    if page != 0 then page - 1 else page
  }

  /** A page that `>` moves to starts before `n`: it is never empty. */
  lemma {:induction false} NextPageStartsInside(page: nat, k: nat, n: nat)
    requires NextPage(page, k, n) == Some(page + 1)
    ensures (page + 1) * k < n
  {
    assert (page + 1) * k == page * k + k;
  }

  /** `>` that moved, followed by `<`, returns to the page it started from. */
  lemma {:induction false} NextThenPrev(page: nat, k: nat, n: nat)
    requires NextPage(page, k, n) == Some(page + 1)
    ensures PrevPage(page + 1) == page
  {
  }

  /** The buttons keep the page start within the items: `page * k <= n` is preserved by both. */
  lemma {:induction false} ButtonsKeepStartInside(page: nat, k: nat, n: nat)
    requires page * k <= n
    ensures NextPage(page, k, n).Some? && NextPage(page, k, n).value * k <= n
    ensures PrevPage(page) * k <= n
  {
    if NextPage(page, k, n) == Some(page + 1) {
      NextPageStartsInside(page, k, n);
    }
    if page > 0 {
      assert PrevPage(page) * k + k == page * k;
    }
  }

  /**
    The items-per-page slider is not tied to the page: page 5 of 100 items at
    10 per page is fine, but at 100 per page the next `>` underflows and the
    range is inverted.
  */
  lemma {:induction false} ResizeBreaksPage()
    ensures NextPage(5, 10, 100) == Some(6)
    ensures NextPage(5, 100, 100).None?
    ensures Paginate(5, 100, 100).start > Paginate(5, 100, 100).end
  {
  }
}
