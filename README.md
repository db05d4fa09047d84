# IMG A11Y: a verified model of the save-time alt-text check and the image dashboard

IMG A11Y is a WordPress plugin. It refuses to save or publish a post whose body holds an `<img>`
without usable alternative text. It also has an admin dashboard that lists the images of the
media library in three tabs: decorative, non-decorative without alt, and non-decorative with alt.
This project models the two pieces of decision logic in the plugin and proves their properties.

- `php_string.dfy` (module `PhpString`): PHP's `trim` with its default character list
  `" \t\n\r\0\x0B"`, and the facts about it the check relies on.
- `img_a11y.dfy` (module `ImgA11y`): `img_a11y_has_images_without_alt` and the two save gates
  that call it.
  - The check is a loop method with an early return. Its specification is the function
    `AnyLacksAlt`.
  - The block-editor gate (`rest_pre_insert_post`) is a function. It returns either the
    `missing_alt_tags` error (HTTP status 400) or the prepared post unchanged.
  - The classic-editor gate (`save_post`) is a method on a `Post` object. On a violation it
    changes only the post's status, to `draft`.
  - A post body appears as the sequence of `<img>` elements the HTML parser yields, in document
    order, each with its attribute map. The gates take the parser as a function parameter.
- `wp_query.dfy` (module `WpQuery`): what the `WP_Query` arguments used by the list mean.
  - `meta_query` arrays are a small syntax tree (`Clause`, `Group` with `AND`/`OR`) with an
    evaluator `Holds` over an attachment's meta.
  - The query selects the matching attachments from the library and cuts out one page.
- `list_table.dfy` (module `ListTable`): `IMG_A11Y_List_Table::prepare_items`.
  - The `filter` tab becomes one of three `meta_query` arrays, written as data.
  - Lemmas prove that each array means the predicate its tab describes, and that the three
    predicates partition the images.
  - Pagination is `ceil(found / 36)`.
  - `PrepareItems` is a method on the list object. It sets the page of items and the
    pagination fields.
- `wrappers.dfy` (module `Wrappers`): the `Option` type.

Where the plugin's own messages and its code disagree, the model follows the code:

- The classic editor's error notice (img-a11y.php:109) asks that all images "have alt tags or
  are marked as decorative". The media modal marks a decorative image by writing
  `data-is-decorative="1"` on the inserted `<img>` (assets/js/img-a11y-media-modal.js:33-36).
  The save check never reads that marker. An image without `alt` is flagged even when it
  carries it (`OnlyAltIsRead`, `DecorativeMarkerDoesNotExempt`).

Other behaviour of the code worth knowing:

- The check has no special case for empty or blank content. The content always goes to the
  parser, and a body the parser turns into zero images gives `false`. On PHP 8 this does not
  hold for the empty string: `DOMDocument::loadHTML('')` throws. An empty `post_content` set
  on a block-editor save therefore makes that save fail with an error before the post is
  written. In the classic editor the post is already stored when `save_post` runs, so the
  request ends in an error after the save, and the post keeps the status it was saved with.
  That parser behaviour is not part of this model.
- The dashboard reads the stored `_wp_attachment_image_alt` without trimming. The save check
  trims the `alt` attribute. So an alt made of blanks that include a tab, line break or
  vertical tab comes out as "with alt" in the list but as missing at save time (`BlankAltDisagreement`).
- With no `filter` parameter, or an unrecognised value, no `meta_query` is added and every
  library image is listed. The `'non_decorative_no_alt'` fallback on line 39 sits under the
  same `isset` guard, so it can never be taken (`BuildQueryArgs`). The model keeps that dead
  branch as written.
- On a page past the last one, `WP_Query` returns no posts and leaves `found_posts` at 0. The
  list then records 0 items and 0 pages (`PrepareItems`).

## Model

| member | source | states |
|---|---|---|
| `PhpString.TrimLeft` | img-a11y.php:98 | the result is a suffix of the input, everything dropped is a trim character, and the result does not start with one |
| `PhpString.TrimRight` | img-a11y.php:98 | the result is a prefix of the input, everything dropped is a trim character, and the result does not end with one |
| `PhpString.Trim` | img-a11y.php:98 | the result of `trim` is no longer than its input and neither starts nor ends with a trim character |
| `PhpString.TrimIsMiddle` | img-a11y.php:98 | `trim` keeps a middle slice of its input; the cut-off prefix and suffix consist of trim characters only |
| `PhpString.TrimEmptyIff` | img-a11y.php:98 | `trim(s) === ''` exactly when every character of `s` is a space, tab, newline, carriage return, NUL or vertical tab |
| `PhpString.TrimIdempotent` | img-a11y.php:98 | trimming an already trimmed string changes nothing |
| `PhpString.TrimKeepsSignificantChar` | img-a11y.php:98 | a string holding one character outside the trim list never trims to `''` |
| `ImgA11y.LacksAlt` | img-a11y.php:98 | an image is flagged iff it has no `alt`, or its `alt` consists of trim characters only (the empty string included) |
| `ImgA11y.AnyLacksAlt` | img-a11y.php:91-103 | the check's answer is true exactly when some image has no `alt` or an `alt` that trims to `''`; it is false for a body with no images |
| `ImgA11y.HasImagesWithoutAlt` | img-a11y.php:91-103 | the loop returns true iff some image offends; on true, the last image it inspected is the first offender in document order and all earlier ones pass; on false it inspected every image |
| `ImgA11y.AnyLacksAltAppend` | img-a11y.php:97-99 | the check over `a + b` is the check over `a` or the check over `b` |
| `ImgA11y.OnlyAltIsRead` | img-a11y.php:98 | setting any attribute other than `alt` never changes whether an image is flagged |
| `ImgA11y.DecorativeMarkerDoesNotExempt` | img-a11y.php:97-99 | a body holding an image without `alt` is flagged even when that image carries `data-is-decorative="1"` |
| `ImgA11y.SignificantAltAccepted` | img-a11y.php:98 | an `alt` with at least one character outside the trim list is accepted, whatever blanks surround it |
| `ImgA11y.BlockSaveGutenberg` | img-a11y.php:71-82 | the filter refuses the save iff `post_content` is set and some image in it offends; the refusal has code `missing_alt_tags` and status 400; otherwise it returns the prepared post unchanged |
| `ImgA11y.GutenbergPassesWithoutImages` | img-a11y.php:72-81 | a post without `post_content`, or whose content the parser turns into no image, is passed through unchanged (on PHP 8 an empty `post_content` makes the parser throw first, which this model does not capture) |
| `ImgA11y.ClassicDecision` | img-a11y.php:38-48 | the hook exits during an autosave, then for a revision or autosave post, then when the user may not edit the post, in that order; otherwise it demotes exactly when some image offends |
| `ImgA11y.Post.BlockSaveClassic` | img-a11y.php:38-61 | only the post's status may change; it becomes `draft` and the error notice is requested exactly when the decision is to demote; otherwise the status is unchanged |
| `ImgA11y.ClassicOnlyDemotes` | img-a11y.php:48-59 | the classic hook can only move a post to `draft`; it changes the status exactly when a non-draft ordinary post that the user may edit has an offending image outside an autosave |
| `WpQuery.Holds` | classes/Img_A11y_List_Table.php:41-97 | the meaning of a `meta_query` array: `=` and `!=` hold only of a post that has the key and compare its value; `NOT EXISTS` holds iff the key is absent; a group holds iff all (`AND`) or some (`OR`) of its parts hold |
| `WpQuery.Matches` | classes/Img_A11y_List_Table.php:29-35 | an attachment matches the query arguments iff its post type, its status and its MIME group are the requested ones and it satisfies the `meta_query`, if there is one |
| `WpQuery.HoldsOr2` | classes/Img_A11y_List_Table.php:52-63 | a two-clause `relation => OR` group holds iff one of its clauses does |
| `WpQuery.HoldsAnd2` | classes/Img_A11y_List_Table.php:50-76 | a two-part `relation => AND` group holds iff both parts do |
| `WpQuery.Select` | classes/Img_A11y_List_Table.php:101-104 | the query keeps exactly the library's attachments that match the arguments and never more rows than the library has |
| `WpQuery.SelectInOrder` | classes/Img_A11y_List_Table.php:101-104 | the matches are the library's rows at strictly increasing positions, and every position whose attachment matches is among them: the query keeps the library's order |
| `WpQuery.Page` | classes/Img_A11y_List_Table.php:33-34 | page `paged` holds the rows from offset `(paged - 1) * posts_per_page` on, in order: `posts_per_page` of them, or all that are left when fewer remain, or none past the end |
| `WpQuery.RunQuery` | classes/Img_A11y_List_Table.php:101-107 | the query returns page `paged` of the matching library attachments: the matches from offset `(paged - 1) * posts_per_page` on, in order, `posts_per_page` of them or all that are left, none past the end; `found_posts` is 0 iff the page is empty, and otherwise the number of matches over all pages |
| `ListTable.TabOf` | classes/Img_A11y_List_Table.php:41-98 | each of `decorative`, `non_decorative_no_alt` and `non_decorative_with_alt`, and only that string, selects its tab; any other value selects none |
| `ListTable.QueryMeaning` | classes/Img_A11y_List_Table.php:41-97 | `decorative` selects `_is_decorative = '1'`; `non_decorative_no_alt` selects `_is_decorative` absent or `'0'` and the alt absent or `''`; `non_decorative_with_alt` selects `_is_decorative` absent or `'0'` and the alt present and not `''` |
| `ListTable.TabFor` | classes/Img_A11y_List_Table.php:41-98 | an image's meta puts it in a tab iff that tab's predicate holds; it is in no tab iff `_is_decorative` is present with a value other than `'0'` and `'1'` |
| `ListTable.TabsPartition` | classes/Img_A11y_List_Table.php:41-98 | no image is selected by two of the three queries; an image is selected by one iff its `_is_decorative` is absent, `'0'` or `'1'` |
| `ListTable.BlankAltDisagreement` | classes/Img_A11y_List_Table.php:92-96 | a non-decorative image whose stored alt is blanks including a tab, line break or vertical tab is selected by the "with alt" query, while the same text as an `<img alt>` is refused by the save check |
| `ListTable.TotalPages` | classes/Img_A11y_List_Table.php:106-110 | `total_pages` is the least number of 36-row pages holding `found` rows: for `found > 0`, `(total_pages - 1) * 36 < found <= total_pages * 36`; for 0 rows it is 0 |
| `ListTable.PagesCoverListing` | classes/Img_A11y_List_Table.php:106-110 | a page of the listing has rows iff its number is at most `total_pages`; every page before the last holds exactly 36 rows and the last holds the rest |
| `ListTable.RowOnPage` | classes/Img_A11y_List_Table.php:106-110 | row `j` of the listing is shown at position `j % 36` of page `j / 36 + 1`, and that page is at most `total_pages` |
| `ListTable.Listing` | classes/Img_A11y_List_Table.php:29-98 | the listing holds exactly the library images in the requested tab; with no tab, or an unknown one, it holds every library image |
| `ListTable.ListingInOrder` | classes/Img_A11y_List_Table.php:29-104 | the listing is the library's rows at strictly increasing positions, and every position holding a listed image is among them: the list keeps the library's order |
| `ListTable.SelectIsListing` | classes/Img_A11y_List_Table.php:101-104 | a query whose arguments match exactly the listed images returns the listing |
| `ListTable.ImgA11yListTable.PrepareItems` | classes/Img_A11y_List_Table.php:24-111 | the items are the requested 36-row page of the listing for the filter; `total_items` is the size of the whole listing, or 0 when the page is empty; `per_page` is 36; `total_pages` is `ceil(total_items / 36)` |
| `ListTable.BuildQueryArgs` | classes/Img_A11y_List_Table.php:25-99 | the arguments ask for 36 posts of the current page; a `meta_query` is added iff `filter` is set and names a tab, and it is that tab's array; without `filter`, or with an unknown value, none is added; an attachment matches iff the list shows it for that `filter` |

## Left out

- HTML parsing by `DOMDocument::loadHTML` and its `@` error suppression (img-a11y.php:92-95) is not modelled. It belongs to PHP. The parser is a parameter that yields the `<img>` elements in document order. How the parser handles malformed markup, attribute-name case and entities is not captured. Neither is its reaction to an empty string: on PHP 8, `loadHTML('')` throws instead of returning.
- Hook wiring is not modelled: `add_action`, `add_filter` and `remove_action`. The `remove_action` at img-a11y.php:55 keeps `wp_update_post` from re-entering the hook. It also unhooks the check for every later `save_post` in the same request, so in a bulk edit only the first offending post is demoted. The model treats each save on its own. The `redirect_post_location` filter and the `admin_notices` output are not modelled either. The request for the notice is the `noticeRequested` result of `BlockSaveClassic`.
- ImgA11y.Post.BlockSaveClassic: `wp_update_post` also refreshes fields such as the modification date. The model changes only the status.
- The `DOING_AUTOSAVE` constant, `wp_is_post_revision`, `wp_is_post_autosave` and `current_user_can` are WordPress lookups. They are inputs: a `SaveContext` and the post's `PostKind`.
- The plugin update checker (img-a11y.php:19-28) is network plumbing and is left out.
- `WP_Query` execution is left out: SQL, joins, date ordering and caching. The library is given in the query's order.
- Post meta is single-valued in `WpQuery.Holds`, and `=` / `!=` compare strings exactly. Database collations can compare case-insensitively or ignore trailing spaces. Under such a collation the blank-alt disagreement could come out differently. `BlankAltDisagreement` asks for a tab, line break or vertical tab in the blank alt, not just spaces or NULs, because a collation may give NUL no weight at all.
- `sanitize_text_field` is not modelled. The `filter` parameter is taken as already sanitised.
- `get_pagenum` is not modelled. The current page is an input of at least 1, which is what `get_pagenum` returns.
- `set_pagination_args` is not modelled. Its three arguments become fields of the list object.
- PHP's `ceil` returns a float. The model uses the equal integer.
- The translation calls (`__`, `_e`) are left out. The error message is the untranslated string.
- Rendering of the list's cells and rows (classes/Img_A11y_List_Table.php:113-159), `get_columns` and the constructor's labels are HTML output and are left out.
- All JavaScript files are left out. They hold the media-modal checkbox, inline alt editing, AJAX and timers: browser-side UI.
