/** The filter categories of the result tables (src/app/mods/filter_cat.rs). */
module FilterCat {
  import opened Wrappers

  /** `FilterCat`: the field a table filter applies to. */
  datatype FilterCat = Host | Code | Source | Path

  /** `FilterCat::from_filtercat`: a copy of the category. */
  function FromFilterCat(f: FilterCat): (r: FilterCat)
    ensures r == f
  {
    match f
    case Host => Host
    case Code => Code
    case Source => Source
    case Path => Path
  }

  /** `FilterCat::from_filtercat_opt`: a copy of the optional category. */
  function FromFilterCatOpt(o: Option<FilterCat>): (r: Option<FilterCat>)
    ensures r == o
    ensures o.Some? ==> r == Some(FromFilterCat(o.value))
  {
    match o
    case None => None
    case Some(f) => Some(FromFilterCat(f))
  }

  /** Copying is idempotent. */
  lemma {:induction false} CopyIdempotent(f: FilterCat, o: Option<FilterCat>)
    ensures FromFilterCat(FromFilterCat(f)) == FromFilterCat(f)
    ensures FromFilterCatOpt(FromFilterCatOpt(o)) == FromFilterCatOpt(o)
  {
  }
}
