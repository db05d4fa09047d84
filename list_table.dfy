/**
 * The dashboard list of media-library images (`IMG_A11Y_List_Table`):
 * how `prepare_items` turns the `filter` tab into a `meta_query`, what each
 * of the three queries selects, and the pagination it reports.
 */
module ListTable {
  import opened Wrappers
  import opened PhpString
  import opened WpQuery
  import ImgA11y

  const PerPage := 36
  const DecorativeKey := "_is_decorative"
  const AltKey := "_wp_attachment_image_alt"

  /** The three tabs of the dashboard. */
  datatype Tab = DecorativeTab | NoAltTab | WithAltTab

  /** The `filter` values `prepare_items` recognises (after
      `sanitize_text_field`). */
  function TabOf(filter: string): (t: Option<Tab>)
    ensures t == Some(DecorativeTab) <==> filter == "decorative"
    ensures t == Some(NoAltTab) <==> filter == "non_decorative_no_alt"
    ensures t == Some(WithAltTab) <==> filter == "non_decorative_with_alt"
  {
    if filter == "decorative" then Some(DecorativeTab)
    else if filter == "non_decorative_no_alt" then Some(NoAltTab)
    else if filter == "non_decorative_with_alt" then Some(WithAltTab)
    else None
  }

  // ---------------------------------------------------------------------
  // The three `meta_query` arrays, as the data `prepare_items` builds.

  const DecorativeQuery: MetaQuery :=
    Group(And, [Clause(DecorativeKey, Equals("1"))])

  /** `_is_decorative` NOT EXISTS, or `= '0'`. */
  const NotDecorativeQuery: MetaQuery :=
    Group(Or, [Clause(DecorativeKey, NotExists), Clause(DecorativeKey, Equals("0"))])

  const NoAltQuery: MetaQuery :=
    Group(And, [NotDecorativeQuery,
                Group(Or, [Clause(AltKey, NotExists), Clause(AltKey, Equals(""))])])

  const WithAltQuery: MetaQuery :=
    Group(And, [NotDecorativeQuery, Clause(AltKey, NotEquals(""))])

  function QueryFor(t: Tab): MetaQuery {
    match t
    case DecorativeTab => DecorativeQuery
    case NoAltTab => NoAltQuery
    case WithAltTab => WithAltQuery
  }

  // ---------------------------------------------------------------------
  // What each tab lists, stated directly over the two meta values.

  /** `_is_decorative` is absent or `'0'`. */
  predicate NotMarkedDecorative(meta: map<string, string>) {
    DecorativeKey !in meta || meta[DecorativeKey] == "0"
  }

  /** The stored alt text is present and not the empty string. The test is
      untrimmed: an alt of blanks counts as present. */
  predicate HasStoredAlt(meta: map<string, string>) {
    AltKey in meta && meta[AltKey] != ""
  }

  predicate InTab(t: Tab, meta: map<string, string>) {
    match t
    case DecorativeTab => DecorativeKey in meta && meta[DecorativeKey] == "1"
    case NoAltTab => NotMarkedDecorative(meta) && !HasStoredAlt(meta)
    case WithAltTab => NotMarkedDecorative(meta) && HasStoredAlt(meta)
  }

  /** Each `meta_query` array selects exactly the images its tab describes. */
  lemma QueryMeaning(t: Tab, meta: map<string, string>)
    ensures Holds(QueryFor(t), meta) <==> InTab(t, meta)
  {
    HoldsOr2(Clause(DecorativeKey, NotExists), Clause(DecorativeKey, Equals("0")), meta);
    match t
    case DecorativeTab =>
      assert DecorativeQuery.parts[0] == Clause(DecorativeKey, Equals("1"));
    case NoAltTab =>
      var noAlt := Group(Or, [Clause(AltKey, NotExists), Clause(AltKey, Equals(""))]);
      HoldsOr2(Clause(AltKey, NotExists), Clause(AltKey, Equals("")), meta);
      HoldsAnd2(NotDecorativeQuery, noAlt, meta);
    case WithAltTab =>
      HoldsAnd2(NotDecorativeQuery, Clause(AltKey, NotEquals("")), meta);
  }

  /** The bucket an image's meta puts it in, if any. */
  function TabFor(meta: map<string, string>): (t: Option<Tab>)
    ensures forall tab :: t == Some(tab) <==> InTab(tab, meta)
    ensures t.None? <==> DecorativeKey in meta && meta[DecorativeKey] != "0" && meta[DecorativeKey] != "1"
  {
    if DecorativeKey in meta && meta[DecorativeKey] == "1" then Some(DecorativeTab)
    else if !NotMarkedDecorative(meta) then None
    else if HasStoredAlt(meta) then Some(WithAltTab)
    else Some(NoAltTab)
  }

  /** The three queries are pairwise disjoint, every image whose
      `_is_decorative` is absent, `'0'` or `'1'` is selected by exactly one of
      them, and an image with any other value by none. */
  lemma TabsPartition(meta: map<string, string>)
    ensures forall t, u :: Holds(QueryFor(t), meta) && Holds(QueryFor(u), meta) ==> t == u
    ensures (DecorativeKey !in meta || meta[DecorativeKey] in {"0", "1"})
            <==> exists t :: Holds(QueryFor(t), meta)
  {
    QueryMeaning(DecorativeTab, meta);
    QueryMeaning(NoAltTab, meta);
    QueryMeaning(WithAltTab, meta);
    var b := TabFor(meta);
    forall t, u | Holds(QueryFor(t), meta) && Holds(QueryFor(u), meta) ensures t == u {
      QueryMeaning(t, meta);
      QueryMeaning(u, meta);
    }
    if b.Some? {
      assert Holds(QueryFor(b.value), meta);
    }
  }

  /** The list's "with alt" test and the save-time check disagree on an alt
      made of blanks: such an image is listed under "with alt", while the
      same text in a post's `<img alt>` is refused on save. The blank text
      holds a tab, line break or vertical tab, so even a database collation
      that ignores trailing spaces does not equate it with `''`. */
  lemma BlankAltDisagreement(meta: map<string, string>, blank: string, j: nat)
    requires AllTrimChars(blank) && j < |blank| && blank[j] != ' ' && blank[j] != '\0'
    requires NotMarkedDecorative(meta) && AltKey in meta && meta[AltKey] == blank
    ensures Holds(WithAltQuery, meta)
    ensures ImgA11y.LacksAlt(ImgA11y.Image(map["alt" := blank]))
  {
    QueryMeaning(WithAltTab, meta);
    TrimEmptyIff(blank);
  }

  // ---------------------------------------------------------------------
  // Pagination.

  /** `ceil(found / 36)`, in integers: the least number of 36-row pages
      that hold `found` rows. */
  function TotalPages(found: nat): (pages: nat)
    ensures pages * PerPage >= found
    ensures found > 0 ==> (pages - 1) * PerPage < found
    ensures found == 0 ==> pages == 0
  {
    (found + PerPage - 1) / PerPage
  }

  /** A page of the listing holds rows exactly up to the last page, every
      page before the last is full, and the last one holds the rest. */
  lemma PagesCoverListing<T>(rows: seq<T>, page: PageNumber)
    ensures |Page(rows, page, PerPage)| > 0 <==> page <= TotalPages(|rows|)
    ensures page < TotalPages(|rows|) ==> |Page(rows, page, PerPage)| == PerPage
    ensures page == TotalPages(|rows|) ==> |Page(rows, page, PerPage)| == |rows| - (page - 1) * PerPage
  {
    var tp := TotalPages(|rows|);
    if page <= tp {
      assert (page - 1) * PerPage <= (tp - 1) * PerPage;
    } else {
      assert (page - 1) * PerPage >= tp * PerPage;
    }
    if page < tp {
      assert page * PerPage <= (tp - 1) * PerPage;
    }
  }

  /** Row `j` of the listing is shown on page `j / 36 + 1`, at position
      `j % 36`, and that page is within `total_pages`. */
  lemma RowOnPage<T>(rows: seq<T>, j: nat)
    requires j < |rows|
    ensures j / PerPage + 1 <= TotalPages(|rows|)
    ensures j % PerPage < |Page(rows, j / PerPage + 1, PerPage)|
    ensures Page(rows, j / PerPage + 1, PerPage)[j % PerPage] == rows[j]
  {
    var p: PageNumber := j / PerPage + 1;
    assert (p - 1) * PerPage + j % PerPage == j;
    PagesCoverListing(rows, p);
  }

  // ---------------------------------------------------------------------
  // The list table object.

  /** An attachment is an image of the media library (the query's fixed
      arguments: attachments, status `inherit`, MIME group `image`). */
  predicate IsLibraryImage(a: Attachment) {
    a.postType == "attachment" && a.postStatus == "inherit" && InMimeGroup("image", a.mimeType)
  }

  /** Whether the list shows `a` for the given `filter` request parameter
      (None when it is not set): with no recognised tab, every library image. */
  predicate Listed(filter: Option<string>, a: Attachment) {
    IsLibraryImage(a)
    && (filter.None? || TabOf(filter.value).None? || InTab(TabOf(filter.value).value, a.meta))
  }

  /** The images the list shows for `filter`, in library order. */
  function Listing(filter: Option<string>, library: seq<Attachment>): (r: seq<Attachment>)
    ensures forall a :: a in r <==> a in library && Listed(filter, a)
  {
    if library == [] then []
    else if Listed(filter, library[0]) then [library[0]] + Listing(filter, library[1..])
    else Listing(filter, library[1..])
  }

  /** `Listing` keeps the library's order: its rows are the library's rows
      at strictly increasing positions `idx`, and every listed position is
      among them. */
  lemma {:induction false} ListingInOrder(filter: Option<string>, library: seq<Attachment>) returns (idx: seq<nat>)
    ensures PicksInOrder(library, Listing(filter, library), idx)
    ensures forall i :: 0 <= i < |library| && Listed(filter, library[i]) ==> i in idx
  {
    if library == [] {
      idx := [];
    } else {
      var tail := library[1..];
      var rest := ListingInOrder(filter, tail);
      assert library == [library[0]] + tail;
      assert Listing(filter, library)
          == (if Listed(filter, library[0]) then [library[0]] else []) + Listing(filter, tail);
      idx := PickStep(a => Listed(filter, a), library[0], tail, Listing(filter, tail), rest);
    }
  }

  /** A query whose arguments match exactly the listed images selects the
      listing. */
  lemma {:induction false} SelectIsListing(args: QueryArgs, filter: Option<string>, library: seq<Attachment>)
    requires forall a :: Matches(args, a) <==> Listed(filter, a)
    ensures Select(args, library) == Listing(filter, library)
  {
    if library != [] {
      SelectIsListing(args, filter, library[1..]);
    }
  }

  class ImgA11yListTable {
    var items: seq<Attachment>
    var totalItems: nat
    var perPage: nat
    var totalPages: nat

    constructor ()
      ensures items == [] && totalItems == 0 && perPage == 0 && totalPages == 0
    {
      items := [];
      totalItems := 0;
      perPage := 0;
      totalPages := 0;
    }

    /**
     * `prepare_items`: builds the query arguments, runs the query over
     * `library` and records the page of items and the pagination arguments.
     * On a page past the last one the query reports no posts and
     * `found_posts` 0, so the totals are 0 too.
     */
    method PrepareItems(filter: Option<string>, currentPage: PageNumber, library: seq<Attachment>)
      modifies this
      ensures items == Page(Listing(filter, library), currentPage, PerPage)
      ensures totalItems == if items == [] then 0 else |Listing(filter, library)|
      ensures perPage == PerPage && totalPages == TotalPages(totalItems)
    {
      var args := BuildQueryArgs(filter, currentPage);
      SelectIsListing(args, filter, library);

      var query := RunQuery(args, library);
      items := query.posts;
      totalItems := query.foundPosts;
      perPage := PerPage;
      totalPages := TotalPages(query.foundPosts);
    }
  }

  /**
   * The `$args` array of `prepare_items`: the fixed arguments first, then
   * the tab's `meta_query` when `filter` is set and names a tab. The
   * `'non_decorative_no_alt'` fallback stands under the same `isset` test
   * and is never taken: without `filter`, no `meta_query` is added and
   * every library image matches.
   */
  method BuildQueryArgs(filter: Option<string>, currentPage: PageNumber) returns (args: QueryArgs)
    ensures args.postsPerPage == PerPage && args.paged == currentPage
    ensures args.metaQuery == if filter.Some? && TabOf(filter.value).Some?
                              then Some(QueryFor(TabOf(filter.value).value)) else None
    ensures forall a :: Matches(args, a) <==> Listed(filter, a)
  {
    args := QueryArgs("attachment", "inherit", "image", PerPage, currentPage, None);

    if filter.Some? {
      var name := if filter.Some? then filter.value else "non_decorative_no_alt";
      if name == "decorative" {
        args := args.(metaQuery := Some(DecorativeQuery));
      } else if name == "non_decorative_no_alt" {
        args := args.(metaQuery := Some(NoAltQuery));
      } else if name == "non_decorative_with_alt" {
        args := args.(metaQuery := Some(WithAltQuery));
      }
    }

    forall a ensures Matches(args, a) <==> Listed(filter, a) {
      if filter.Some? && TabOf(filter.value).Some? {
        QueryMeaning(TabOf(filter.value).value, a.meta);
      }
    }
  }
}
