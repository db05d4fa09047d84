/**
 * The save-time alt-text check of the plugin and the two save gates that
 * call it: the block-editor REST filter and the classic-editor `save_post`
 * hook.
 *
 * HTML parsing belongs to PHP's DOMDocument and is not modelled: a post body
 * is present here as the sequence of `<img>` elements the parser yields in
 * document order, each with its attribute map. The gates take the parser as
 * a parameter `parse`, so they see the content only through it.
 */
module ImgA11y {
  import opened Wrappers
  import opened PhpString

  /** One `<img>` element as the parser yields it: its attributes by name
      (an attribute written without a value, `<img alt>`, maps to ""). */
  datatype Image = Image(attrs: map<string, string>)

  /** The per-image test of the check: no `alt` attribute, or an `alt`
      whose PHP-trimmed value is the empty string. No other attribute is
      read. An image is flagged exactly when it has no `alt`, or its `alt` is
      made of spaces, tabs, newlines, carriage returns, NULs and vertical tabs
      only (the empty `alt` included). */
  predicate LacksAlt(img: Image): (r: bool)
    ensures r <==> "alt" !in img.attrs || AllTrimChars(img.attrs["alt"])
  {
    "alt" !in img.attrs || (TrimEmptyIff(img.attrs["alt"]); Trim(img.attrs["alt"]) == "")
  }

  /** The answer the check computes: some image of the body lacks alt text. */
  function AnyLacksAlt(images: seq<Image>): (r: bool)
    ensures r <==> exists i :: 0 <= i < |images| && LacksAlt(images[i])
    ensures images == [] ==> !r
  {
    if images == [] then false
    else LacksAlt(images[0]) || AnyLacksAlt(images[1..])
  }

  /**
   * `img_a11y_has_images_without_alt`: a `foreach` over the image elements
   * in document order that returns true at the first offending one.
   * The ghost result `inspected` counts the elements the loop looked at: on
   * a true answer the last of them is the first offender, on a false answer
   * it is all of them.
   */
  method HasImagesWithoutAlt(images: seq<Image>) returns (r: bool, ghost inspected: nat)
    ensures r <==> exists i :: 0 <= i < |images| && LacksAlt(images[i])
    ensures r ==> 1 <= inspected <= |images| && LacksAlt(images[inspected - 1])
    ensures forall j :: 0 <= j < inspected - 1 && j < |images| ==> !LacksAlt(images[j])
    ensures !r ==> inspected == |images|
  {
    var i := 0;
    while i < |images|
      invariant 0 <= i <= |images|
      invariant forall j :: 0 <= j < i ==> !LacksAlt(images[j])
    {
      var img := images[i];
      if !("alt" in img.attrs) || Trim(img.attrs["alt"]) == "" {
        return true, i + 1;
      }
      i := i + 1;
    }
    return false, |images|;
  }

  /** The answer for a concatenated body is the disjunction of the answers
      for its parts: only the existence of an offender matters. */
  lemma {:induction false} AnyLacksAltAppend(a: seq<Image>, b: seq<Image>)
    ensures AnyLacksAlt(a + b) == (AnyLacksAlt(a) || AnyLacksAlt(b))
  {
    if a == [] {
      assert a + b == b;
    } else {
      assert (a + b)[0] == a[0];
      assert (a + b)[1..] == a[1..] + b;
      AnyLacksAltAppend(a[1..], b);
    }
  }

  /** Only `alt` is read: changing or adding any other attribute, for instance
      a `data-is-decorative="1"` marker, never changes the verdict. */
  lemma OnlyAltIsRead(img: Image, name: string, value: string)
    requires name != "alt"
    ensures LacksAlt(Image(img.attrs[name := value])) == LacksAlt(img)
  {
    assert ("alt" in img.attrs[name := value]) == ("alt" in img.attrs);
  }

  /** In particular an image without `alt` that is marked decorative in its
      markup is still flagged, and so is a body containing it. */
  lemma DecorativeMarkerDoesNotExempt(before: seq<Image>, img: Image, after: seq<Image>)
    requires "alt" !in img.attrs
    ensures AnyLacksAlt(before + [Image(img.attrs["data-is-decorative" := "1"])] + after)
  {
    var marked := Image(img.attrs["data-is-decorative" := "1"]);
    assert LacksAlt(marked);
    AnyLacksAltAppend(before + [marked], after);
    AnyLacksAltAppend(before, [marked]);
  }

  /** An `alt` with one character outside PHP's trim list is accepted,
      wherever spaces or line breaks stand around it. */
  lemma SignificantAltAccepted(img: Image, i: nat)
    requires "alt" in img.attrs && i < |img.attrs["alt"]|
    requires !IsTrimChar(img.attrs["alt"][i])
    ensures !LacksAlt(img)
  {
    TrimKeepsSignificantChar(img.attrs["alt"], i);
  }

  // ---------------------------------------------------------------------
  // Block-editor gate: the `rest_pre_insert_post` filter.

  /** The prepared post of a block-editor save; `content` is None when
      `post_content` is not set on it. */
  datatype PreparedPost = PreparedPost(id: int, title: string, status: string, content: Option<string>)

  /** The WordPress error value the filter returns to refuse the save. */
  datatype WpError = WpError(code: string, message: string, httpStatus: int)

  /** What the filter hands back to the REST controller. */
  datatype InsertDecision = Refuse(error: WpError) | Proceed(post: PreparedPost)

  const MissingAltTagsError := WpError(
    "missing_alt_tags",
    "Save failed: Please ensure all images in the content have alt tags for accessibility.",
    400)

  /** `img_a11y_block_save_if_missing_alt_gutenberg`. */
  function BlockSaveGutenberg(post: PreparedPost, parse: string -> seq<Image>): (d: InsertDecision)
    ensures d.Refuse? <==> (post.content.Some?
                            && exists i :: 0 <= i < |parse(post.content.value)|
                                           && LacksAlt(parse(post.content.value)[i]))
    ensures d.Refuse? ==> d.error.code == "missing_alt_tags" && d.error.httpStatus == 400
    ensures d.Proceed? ==> d.post == post
  {
    if post.content.Some? && AnyLacksAlt(parse(post.content.value)) then Refuse(MissingAltTagsError)
    else Proceed(post)
  }

  /** A post whose content is not set is never refused, and neither is one
      whose content holds no image. */
  lemma GutenbergPassesWithoutImages(post: PreparedPost, parse: string -> seq<Image>)
    requires post.content.None? || parse(post.content.value) == []
    ensures BlockSaveGutenberg(post, parse) == Proceed(post)
  {
  }

  // ---------------------------------------------------------------------
  // Classic-editor gate: the `save_post` hook.

  /** What `wp_is_post_revision` / `wp_is_post_autosave` report about the
      saved post. */
  datatype PostKind = Ordinary | Revision | Autosave

  /** The request-wide facts the hook consults: the `DOING_AUTOSAVE`
      constant and `current_user_can('edit_post', $post_id)`. */
  datatype SaveContext = SaveContext(doingAutosave: bool, canEditPost: bool)

  /** Why the hook returned before looking at the content, in the order of
      its early exits. */
  datatype SkipReason = DuringAutosave | RevisionOrAutosavePost | NotAllowed

  /** Outcome of one run of the hook's decision logic. */
  datatype ClassicOutcome = Skipped(reason: SkipReason) | Accepted | Demoted

  /** The decision part of `img_a11y_block_save_if_missing_alt_classic`:
      the three early exits, then the content check. */
  function ClassicDecision(ctx: SaveContext, kind: PostKind, images: seq<Image>): (o: ClassicOutcome)
    ensures o == Skipped(DuringAutosave) <==> ctx.doingAutosave
    ensures o == Skipped(RevisionOrAutosavePost) <==> !ctx.doingAutosave && kind != Ordinary
    ensures o == Skipped(NotAllowed) <==> !ctx.doingAutosave && kind == Ordinary && !ctx.canEditPost
    ensures o == Demoted <==> (!ctx.doingAutosave && kind == Ordinary && ctx.canEditPost
                               && exists i :: 0 <= i < |images| && LacksAlt(images[i]))
  {
    if ctx.doingAutosave then Skipped(DuringAutosave)
    else if kind != Ordinary then Skipped(RevisionOrAutosavePost)
    else if !ctx.canEditPost then Skipped(NotAllowed)
    else if AnyLacksAlt(images) then Demoted
    else Accepted
  }

  /** A stored post as the classic-editor hook sees it. */
  class Post {
    const id: int
    const kind: PostKind
    var title: string
    var content: string
    var status: string

    constructor (id: int, kind: PostKind, title: string, content: string, status: string)
      ensures this.id == id && this.kind == kind && this.title == title
      ensures this.content == content && this.status == status
    {
      this.id := id;
      this.kind := kind;
      this.title := title;
      this.content := content;
      this.status := status;
    }

    /**
     * `img_a11y_block_save_if_missing_alt_classic` run on this post. On a
     * violation the post is demoted to `draft` through `wp_update_post` and
     * the hook asks for the error notice (`noticeRequested`: the
     * `img_a11y_error=missing_alt` redirect argument); nothing else about
     * the post changes.
     */
    method BlockSaveClassic(ctx: SaveContext, parse: string -> seq<Image>) returns (noticeRequested: bool)
      modifies this`status
      ensures noticeRequested <==> ClassicDecision(ctx, kind, parse(content)) == Demoted
      ensures status == if noticeRequested then "draft" else old(status)
    {
      if ctx.doingAutosave { return false; }
      if kind == Revision || kind == Autosave { return false; }
      if !ctx.canEditPost { return false; }

      var images := parse(content);
      var missing, _ := HasImagesWithoutAlt(images);
      if missing {
        status := "draft";
        return true;
      }
      return false;
    }
  }

  /** The classic hook never publishes: its only possible effect on the
      status is `draft`, and it has that effect exactly on a violation by an
      ordinary post that the user may edit outside an autosave. */
  lemma ClassicOnlyDemotes(ctx: SaveContext, kind: PostKind, images: seq<Image>, before: string)
    ensures var after := if ClassicDecision(ctx, kind, images) == Demoted then "draft" else before;
            (after == before || after == "draft")
            && (after != before <==> (before != "draft" && !ctx.doingAutosave && kind == Ordinary
                                      && ctx.canEditPost && AnyLacksAlt(images)))
  {
  }
}
