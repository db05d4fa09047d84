/**
 * The meaning of the `WP_Query` arguments the dashboard list uses, read as
 * predicates over attachment records. The query engine itself (SQL, joins,
 * ordering, caching) belongs to WordPress and is not modelled: the media
 * library is given as the sequence of attachments in the query's order, a
 * query selects the matching ones and cuts out the requested page.
 *
 * Post meta is single-valued here (one value per key, as `get_post_meta`
 * with `$single = true` reads it), and `=` / `!=` compare strings exactly.
 */
module WpQuery {
  import opened Wrappers

  /** A `compare` of one `meta_query` clause, with its `value`. */
  datatype Compare = Equals(value: string) | NotEquals(value: string) | NotExists

  datatype Relation = And | Or

  /** A `meta_query` array: a clause on one key, or a group of nested
      queries joined by its `relation` (a group without one is `AND`). */
  datatype MetaQuery =
    | Clause(key: string, cmp: Compare)
    | Group(relation: Relation, parts: seq<MetaQuery>)

  /** Whether an attachment's meta satisfies a `meta_query`. An `=` or `!=`
      clause only holds of a post that has the key (the query joins on it);
      `NOT EXISTS` holds exactly when the key is absent. */
  predicate Holds(q: MetaQuery, meta: map<string, string>)
    decreases q
  {
    match q
    case Clause(key, cmp) =>
      (match cmp
       case Equals(v) => key in meta && meta[key] == v
       case NotEquals(v) => key in meta && meta[key] != v
       case NotExists => key !in meta)
    case Group(relation, parts) =>
      if relation == And then forall i :: 0 <= i < |parts| ==> Holds(parts[i], meta)
      else exists i :: 0 <= i < |parts| && Holds(parts[i], meta)
  }

  /** A two-part `OR` group holds when one of its parts does. */
  lemma HoldsOr2(a: MetaQuery, b: MetaQuery, meta: map<string, string>)
    ensures Holds(Group(Or, [a, b]), meta) <==> Holds(a, meta) || Holds(b, meta)
  {
    var parts := [a, b];
    assert parts[0] == a && parts[1] == b;
    if Holds(a, meta) || Holds(b, meta) {
      var i := if Holds(a, meta) then 0 else 1;
      assert Holds(parts[i], meta);
    }
  }

  /** A two-part `AND` group holds when both of its parts do. */
  lemma HoldsAnd2(a: MetaQuery, b: MetaQuery, meta: map<string, string>)
    ensures Holds(Group(And, [a, b]), meta) <==> Holds(a, meta) && Holds(b, meta)
  {
    var parts := [a, b];
    assert parts[0] == a && parts[1] == b;
  }

  /** An attachment post as the list sees it. */
  datatype Attachment = Attachment(
    id: int, postType: string, postStatus: string, mimeType: string, meta: map<string, string>)

  /** A page number as `get_pagenum` returns it: never below 1. */
  type PageNumber = n: int | n >= 1 witness 1

  /** The `$args` array handed to `WP_Query`. */
  datatype QueryArgs = QueryArgs(
    postType: string, postStatus: string, postMimeType: string,
    postsPerPage: nat, paged: PageNumber, metaQuery: Option<MetaQuery>)

  /** `post_mime_type => 'image'` names a MIME group: it matches every type
      `image/...`. */
  predicate InMimeGroup(group: string, mimeType: string) {
    group + "/" <= mimeType
  }

  predicate Matches(args: QueryArgs, a: Attachment) {
    a.postType == args.postType && a.postStatus == args.postStatus
    && InMimeGroup(args.postMimeType, a.mimeType)
    && (args.metaQuery.None? || Holds(args.metaQuery.value, a.meta))
  }

  /** The attachments of `library` that match `args`, in library order. */
  function Select(args: QueryArgs, library: seq<Attachment>): (r: seq<Attachment>)
    ensures |r| <= |library|
    ensures forall a :: a in r <==> a in library && Matches(args, a)
  {
    if library == [] then []
    else if Matches(args, library[0]) then [library[0]] + Select(args, library[1..])
    else Select(args, library[1..])
  }

  /** Every position of `s`, one further on. */
  function Shifted(s: seq<nat>): (r: seq<nat>)
    ensures |r| == |s| && forall m :: 0 <= m < |s| ==> r[m] == s[m] + 1
  {
    seq(|s|, m requires 0 <= m < |s| => s[m] + 1)
  }

  /** `r` is made of the rows of `s` at the strictly increasing positions
      `idx`: a subsequence of `s` in the same order. */
  predicate PicksInOrder(s: seq<Attachment>, r: seq<Attachment>, idx: seq<nat>) {
    |idx| == |r|
    && (forall k :: 0 <= k < |idx| ==> idx[k] < |s| && r[k] == s[idx[k]])
    && (forall k, l :: 0 <= k < l < |idx| ==> idx[k] < idx[l])
  }

  /** Keeping a new first row keeps the order. */
  lemma PickHead(x: Attachment, s: seq<Attachment>, r: seq<Attachment>, idx: seq<nat>)
    requires PicksInOrder(s, r, idx)
    ensures PicksInOrder([x] + s, [x] + r, [0] + Shifted(idx))
  {
    var sh := Shifted(idx);
    var j := [0] + sh;
    forall k | 1 <= k < |j| ensures j[k] < |[x] + s| && ([x] + r)[k] == ([x] + s)[j[k]] {
      assert j[k] == idx[k - 1] + 1;
    }
  }

  /** Dropping a new first row keeps the order. */
  lemma PickSkip(x: Attachment, s: seq<Attachment>, r: seq<Attachment>, idx: seq<nat>)
    requires PicksInOrder(s, r, idx)
    ensures PicksInOrder([x] + s, r, Shifted(idx))
  {
    var sh := Shifted(idx);
    forall k | 0 <= k < |sh| ensures sh[k] < |[x] + s| && r[k] == ([x] + s)[sh[k]] {
      assert ([x] + s)[idx[k] + 1] == s[idx[k]];
    }
  }

  lemma ShiftedHas(idx: seq<nat>, i: nat)
    requires i in idx
    ensures i + 1 in Shifted(idx)
  {
    var m :| 0 <= m < |idx| && idx[m] == i;
    assert Shifted(idx)[m] == i + 1;
  }

  /** One step of filtering by `keep`: given the positions `rest` that the
      filtered `tail` picks, the positions that `[x] + tail` picks. */
  lemma PickStep(keep: Attachment -> bool, x: Attachment, tail: seq<Attachment>, r: seq<Attachment>, rest: seq<nat>)
      returns (idx: seq<nat>)
    requires PicksInOrder(tail, r, rest)
    requires forall i :: 0 <= i < |tail| && keep(tail[i]) ==> i in rest
    ensures PicksInOrder([x] + tail, (if keep(x) then [x] else []) + r, idx)
    ensures forall i :: 0 <= i < |[x] + tail| && keep(([x] + tail)[i]) ==> i in idx
  {
    if keep(x) {
      idx := [0] + Shifted(rest);
      PickHead(x, tail, r, rest);
      assert idx[0] == 0;
    } else {
      idx := Shifted(rest);
      PickSkip(x, tail, r, rest);
      assert ([] + r) == r;
    }
    forall i | 1 <= i < |[x] + tail| && keep(([x] + tail)[i]) ensures i in idx {
      assert ([x] + tail)[i] == tail[i - 1];
      ShiftedHas(rest, i - 1);
    }
  }

  /** `Select` keeps the library's order: its rows are the library's rows at
      strictly increasing positions `idx`, and every matching position is
      among them. */
  lemma {:induction false} SelectInOrder(args: QueryArgs, library: seq<Attachment>) returns (idx: seq<nat>)
    ensures PicksInOrder(library, Select(args, library), idx)
    ensures forall i :: 0 <= i < |library| && Matches(args, library[i]) ==> i in idx
  {
    if library == [] {
      idx := [];
    } else {
      var tail := library[1..];
      var rest := SelectInOrder(args, tail);
      assert library == [library[0]] + tail;
      assert Select(args, library)
          == (if Matches(args, library[0]) then [library[0]] else []) + Select(args, tail);
      idx := PickStep(a => Matches(args, a), library[0], tail, Select(args, tail), rest);
    }
  }

  /** The `OFFSET` of page `page`: the rows on the pages before it. */
  function Offset(page: PageNumber, perPage: nat): nat {
    (page - 1) * perPage
  }

  /** How many of `n` rows page `page` holds, `perPage` to a page: none
      past the end, the rest on the last page, `perPage` before it. */
  function PageLength(n: nat, page: PageNumber, perPage: nat): nat {
    if Offset(page, perPage) >= n then 0
    else if Offset(page, perPage) + perPage >= n then n - Offset(page, perPage)
    else perPage
  }

  /** Page `page` of `rows`, `perPage` to a page (the query's `LIMIT` and
      `OFFSET`): the rows from `(page - 1) * perPage` on, `perPage` of them
      or as many as are left. */
  function Page<T>(rows: seq<T>, page: PageNumber, perPage: nat): (r: seq<T>)
    ensures |r| == PageLength(|rows|, page, perPage)
    ensures forall k :: 0 <= k < |r| ==> Offset(page, perPage) + k < |rows|
                                         && r[k] == rows[Offset(page, perPage) + k]
  {
    var from := Offset(page, perPage);
    if from >= |rows| then []
    else if from + perPage >= |rows| then rows[from..]
    else rows[from..from + perPage]
  }

  /** A page holds no row that `rows` does not. */
  lemma PageRowsAreRows(rows: seq<Attachment>, page: PageNumber, perPage: nat)
    ensures forall a :: a in Page(rows, page, perPage) ==> a in rows
  {
    var r := Page(rows, page, perPage);
    forall a | a in r ensures a in rows {
      var k :| 0 <= k < |r| && r[k] == a;
      assert a == rows[Offset(page, perPage) + k];
    }
  }

  /** What `WP_Query` reports: the posts of the requested page and
      `found_posts`. */
  datatype QueryResult = QueryResult(posts: seq<Attachment>, foundPosts: nat)

  /** Running the query. `found_posts` counts the matches over all pages,
      except that WordPress leaves it at 0 when the requested page comes back
      empty (`WP_Query::set_found_posts` returns early on an empty result). */
  function RunQuery(args: QueryArgs, library: seq<Attachment>): (q: QueryResult)
    ensures forall a :: a in q.posts ==> a in library && Matches(args, a)
    ensures |q.posts| <= args.postsPerPage
    ensures q.foundPosts == 0 <==> q.posts == []
    ensures q.posts != [] ==> q.foundPosts == |Select(args, library)|
    ensures |q.posts| == PageLength(|Select(args, library)|, args.paged, args.postsPerPage)
    ensures forall k :: 0 <= k < |q.posts| ==>
              Offset(args.paged, args.postsPerPage) + k < |Select(args, library)|
              && q.posts[k] == Select(args, library)[Offset(args.paged, args.postsPerPage) + k]
  {
    var matching := Select(args, library);
    var posts := Page(matching, args.paged, args.postsPerPage);
    PageRowsAreRows(matching, args.paged, args.postsPerPage);
    QueryResult(posts, if posts == [] then 0 else |matching|)
  }
}
