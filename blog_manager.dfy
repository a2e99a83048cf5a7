/** The blog admin page (`src/pages/admin/BlogManager.tsx`): slug generation,
    tag selection, the delete-then-insert re-linking of a post's tags, the
    required-field checks, and the handlers that move the page's state. */
module BlogManager {
  import opened Common
  import Blog

  // ---------------------------------------------------------------------------
  // Slugs: lower-case, drop what is not `[\w\s-]`, turn each run of white
  // space into `-`, squash runs of `-`, then trim.

  /** What a slug is made of: lower-case ASCII letters, digits, `_` and `-`. */
  predicate SlugChar(c: char) {
    IsLowerAscii(c) || IsDigit(c) || c == '_' || c == '-'
  }

  predicate SlugOrSpace(c: char) {
    SlugChar(c) || IsWhitespace(c)
  }

  /** The characters `[\w\s-]` keeps. */
  predicate Kept(c: char) {
    IsWordChar(c) || IsWhitespace(c) || c == '-'
  }

  predicate NoUpper(s: string) {
    forall i :: 0 <= i < |s| ==> !IsUpperAscii(s[i])
  }

  predicate NoWhitespace(s: string) {
    forall i :: 0 <= i < |s| ==> !IsWhitespace(s[i])
  }

  predicate AllSlugChars(s: string) {
    forall i :: 0 <= i < |s| ==> SlugChar(s[i])
  }

  /** `.replace(/[^\w\s-]/g, '')`: drops every character outside `[\w\s-]`;
      on a lower-cased text what is left are slug characters and white space. */
  function StripDisallowed(s: string): (r: string)
    ensures |r| <= |s|
    ensures forall i :: 0 <= i < |r| ==> Kept(r[i])
    ensures NoUpper(s) ==> forall i :: 0 <= i < |r| ==> SlugOrSpace(r[i])
    ensures (forall i :: 0 <= i < |s| ==> Kept(s[i])) ==> r == s
  {
    if s == [] then []
    else (if Kept(s[0]) then [s[0]] else []) + StripDisallowed(s[1..])
  }

  /** `.replace(/\s+/g, '-')`: each maximal run of white space becomes one
      hyphen; `inRun` says the previous character was white space. */
  function DashSpaces(s: string, inRun: bool): (r: string)
    ensures NoWhitespace(r)
    ensures (forall i :: 0 <= i < |s| ==> SlugOrSpace(s[i])) ==> AllSlugChars(r)
    ensures NoWhitespace(s) ==> r == s
    ensures s != [] && IsWhitespace(s[0]) && !inRun ==> r != [] && r[0] == '-'
  {
    if s == [] then []
    else if IsWhitespace(s[0]) then (if inRun then [] else ['-']) + DashSpaces(s[1..], true)
    else [s[0]] + DashSpaces(s[1..], false)
  }

  /** No two hyphens are adjacent. */
  predicate NoDoubleHyphen(s: string) {
    forall i :: 0 <= i < |s| - 1 ==> !(s[i] == '-' && s[i + 1] == '-')
  }

  /** `.replace(/-+/g, '-')`: each maximal run of hyphens becomes one;
      `inRun` says the previous character was a hyphen. */
  function SquashHyphens(s: string, inRun: bool): (r: string)
    ensures NoDoubleHyphen(r)
    ensures NoWhitespace(s) ==> NoWhitespace(r)
    ensures AllSlugChars(s) ==> AllSlugChars(r)
    ensures inRun && r != [] ==> r[0] != '-'
    ensures !inRun && s != [] && s[0] == '-' ==> r != [] && r[0] == '-'
  {
    if s == [] then []
    else if s[0] == '-' && inRun then SquashHyphens(s[1..], true)
    else
      var t := SquashHyphens(s[1..], s[0] == '-');
      assert forall i :: 1 <= i < |[s[0]] + t| ==> ([s[0]] + t)[i] == t[i - 1];
      [s[0]] + t
  }

  /** The text before `.trim()`. */
  function Untrimmed(title: string): string {
    SquashHyphens(DashSpaces(StripDisallowed(ToLower(title)), false), false)
  }

  /** `generateSlug(title)` */
  function GenerateSlug(title: string): string {
    Trim(Untrimmed(title))
  }

  predicate IsSlug(s: string) {
    AllSlugChars(s) && NoDoubleHyphen(s)
  }

  /** White space has become `-` before `trim` runs, so the trim never
      removes anything: a title with leading or trailing blanks gives a slug
      with a leading or trailing hyphen. */
  lemma TrimIsNoOp(title: string)
    ensures GenerateSlug(title) == Untrimmed(title)
    ensures NoWhitespace(GenerateSlug(title))
  {
    TrimNoWhitespace(Untrimmed(title));
  }

  lemma {:induction false} SquashIdentity(s: string, inRun: bool)
    requires NoDoubleHyphen(s)
    requires inRun ==> s == [] || s[0] != '-'
    ensures SquashHyphens(s, inRun) == s
  {
    if s != [] {
      SquashIdentity(s[1..], s[0] == '-');
    }
  }

  /** Whatever the title, the slug is made of slug characters and has no
      doubled hyphen. */
  lemma GenerateSlugIsSlug(title: string)
    ensures IsSlug(GenerateSlug(title))
  {
    var lowered := ToLower(title);
    assert NoUpper(lowered);
    var stripped := StripDisallowed(lowered);
    var dashed := DashSpaces(stripped, false);
    assert AllSlugChars(dashed);
    TrimIsNoOp(title);
  }

  /** A slug is its own slug. */
  lemma SlugFixedPoint(s: string)
    requires IsSlug(s)
    ensures GenerateSlug(s) == s
  {
    assert ToLower(s) == s;
    assert NoWhitespace(s);
    SquashIdentity(s, false);
    TrimNoWhitespace(s);
  }

  /** Generating a slug twice gives the slug generated once. */
  lemma GenerateSlugIdempotent(title: string)
    ensures GenerateSlug(GenerateSlug(title)) == GenerateSlug(title)
  {
    GenerateSlugIsSlug(title);
    SlugFixedPoint(GenerateSlug(title));
  }

  /** A title starting with white space gives a slug starting with `-`. */
  lemma {:induction false} LeadingSpaceBecomesHyphen(title: string)
    requires title != [] && IsWhitespace(title[0])
    ensures GenerateSlug(title) != [] && GenerateSlug(title)[0] == '-'
  {
    var lowered := ToLower(title);
    assert lowered[0] == title[0];
    var stripped := StripDisallowed(lowered);
    assert stripped[0] == lowered[0];
    TrimIsNoOp(title);
  }

  /** The white-space step on `" a "`: each blank becomes its own hyphen. */
  lemma {:induction false} SpacedTitleDashes()
    ensures DashSpaces(" a ", false) == "-a-"
  {
    var t := " a ";
    assert IsWhitespace(t[0]) && !IsWhitespace(t[1]) && IsWhitespace(t[2]);
    assert t[1..] == "a " && t[1..][1..] == " " && " "[1..] == [];
    var last := DashSpaces(" ", false);
    assert last == ['-'] + DashSpaces([], true);
    var middle := DashSpaces("a ", true);
    assert middle == ['a'] + last;
    assert DashSpaces(t, false) == ['-'] + middle;
  }

  /** `" a "` becomes `"-a-"`, not `"a"`. */
  lemma {:induction false} SpacedTitleExample()
    ensures GenerateSlug(" a ") == "-a-"
  {
    var t := " a ";
    assert ToLower(t) == t by {
      assert forall i :: 0 <= i < |t| ==> !IsUpperAscii(t[i]);
    }
    assert StripDisallowed(t) == t by {
      assert forall i :: 0 <= i < |t| ==> Kept(t[i]);
    }
    SpacedTitleDashes();
    assert NoDoubleHyphen("-a-");
    SquashIdentity("-a-", false);
    assert Untrimmed(t) == "-a-";
    TrimIsNoOp(t);
  }

  // ---------------------------------------------------------------------------
  // Tag selection

  /** `toggleTag`: drop every occurrence of a selected id, append an absent one. */
  function ToggleTag(selected: seq<string>, tagId: string): (r: seq<string>)
    ensures tagId in r <==> tagId !in selected
    ensures forall i :: 0 <= i < |selected| && selected[i] != tagId ==> selected[i] in r
    ensures forall i :: 0 <= i < |r| && r[i] != tagId ==> r[i] in selected
    ensures tagId !in selected ==> |r| == |selected| + 1 && r[..|selected|] == selected
  {
    if tagId in selected then RemoveAll(selected, tagId) else selected + [tagId]
  }

  /** Toggling an unselected tag twice restores the selection. */
  lemma ToggleTwiceRestores(selected: seq<string>, tagId: string)
    requires tagId !in selected
    ensures ToggleTag(ToggleTag(selected, tagId), tagId) == selected
  {
    RemoveAllAppend(selected, [tagId], tagId);
    assert RemoveAll([tagId], tagId) == [];
  }

  /** Toggling a selected tag keeps the other ids in their order. */
  lemma ToggleKeepsOrder(a: seq<string>, b: seq<string>, tagId: string)
    requires tagId in a + b
    ensures ToggleTag(a + b, tagId) == RemoveAll(a, tagId) + RemoveAll(b, tagId)
  {
    RemoveAllAppend(a, b, tagId);
  }

  // ---------------------------------------------------------------------------
  // Re-linking a post's tags

  /** The link table after `updatePostTags`: the delete (when it succeeds)
      removes every link of the post, then the insert (made only for a
      non-empty selection, and applied when it succeeds) appends one link
      per selected tag. */
  function Relinked(links: seq<Blog.Link>, postId: string, selected: seq<string>,
                    deleteOk: bool, insertOk: bool): seq<Blog.Link>
  {
    (if deleteOk then Blog.WithoutPost(links, postId) else links)
    + (if insertOk && |selected| > 0 then Blog.LinkRows(postId, selected) else [])
  }

  /** When both calls succeed the post's tags are exactly the selection, in
      order (none for an empty selection); when only the delete succeeds the
      post has no tags left; when only the insert succeeds the selection is
      added to the old tags. Other posts' links never change. */
  lemma RelinkedTagIds(links: seq<Blog.Link>, postId: string, selected: seq<string>,
                       deleteOk: bool, insertOk: bool, other: string)
    ensures var after := Relinked(links, postId, selected, deleteOk, insertOk);
      && (deleteOk && insertOk ==> Blog.TagIdsOf(after, postId) == selected)
      && (deleteOk && !insertOk ==> Blog.TagIdsOf(after, postId) == [])
      && (!deleteOk && insertOk ==> Blog.TagIdsOf(after, postId) == Blog.TagIdsOf(links, postId) + selected)
      && (other != postId ==> Blog.TagIdsOf(after, other) == Blog.TagIdsOf(links, other))
  {
    var kept := if deleteOk then Blog.WithoutPost(links, postId) else links;
    var added := if insertOk && |selected| > 0 then Blog.LinkRows(postId, selected) else [];
    Blog.TagIdsOfAppend(kept, added, postId);
    Blog.TagIdsOfAppend(kept, added, other);
    Blog.WithoutPostTagIds(links, postId, other);
    Blog.LinkRowsRoundTrip(postId, selected);
    if other != postId {
      Blog.LinkRowsOtherPost(postId, selected, other);
    }
  }

  // ---------------------------------------------------------------------------
  // The form

  datatype PostForm = PostForm(
    titleEn: string,
    titleVi: string,
    slug: string,
    excerptEn: string,
    excerptVi: string,
    contentEn: string,
    contentVi: string,
    categoryEn: string,
    categoryVi: string,
    featuredImageUrl: string,
    authorName: string,
    readingTime: int,
    published: bool,
    featured: bool)

  function DefaultPostForm(): PostForm {
    PostForm("", "", "", "", "", "", "", "", "", "", "", 5, false, false)
  }

  /** The form filled from a stored post: nullable columns default to `""`,
      `false`, and `reading_time || 5`. */
  function HydratePostForm(p: Blog.Post): (f: PostForm)
    ensures f.titleEn == p.titleEn && f.titleVi == p.titleVi && f.slug == p.slug
    ensures f.contentEn == p.contentEn && f.contentVi == p.contentVi
    ensures f.excerptEn == p.excerptEn.GetOr("") && f.excerptVi == p.excerptVi.GetOr("")
    ensures f.categoryEn == p.categoryEn.GetOr("") && f.categoryVi == p.categoryVi.GetOr("")
    ensures f.featuredImageUrl == p.featuredImageUrl.GetOr("") && f.authorName == p.authorName.GetOr("")
    ensures f.readingTime != 0
    ensures p.readingTime.Some? && p.readingTime.value != 0 ==> f.readingTime == p.readingTime.value
    ensures p.readingTime.None? || p.readingTime == Some(0) ==> f.readingTime == 5
    ensures f.published == (p.published == Some(true)) && f.featured == (p.featured == Some(true))
  {
    PostForm(p.titleEn, p.titleVi, p.slug,
             p.excerptEn.GetOr(""), p.excerptVi.GetOr(""),
             p.contentEn, p.contentVi,
             p.categoryEn.GetOr(""), p.categoryVi.GetOr(""),
             p.featuredImageUrl.GetOr(""), p.authorName.GetOr(""),
             NumberOr(p.readingTime, 5),
             p.published.GetOr(false), p.featured.GetOr(false))
  }

  /** The fields a post cannot be saved without. */
  predicate PostFormComplete(f: PostForm) {
    f.titleEn != "" && f.titleVi != "" && f.slug != "" && f.contentEn != "" && f.contentVi != ""
  }

  datatype TagForm = TagForm(nameEn: string, nameVi: string, slug: string)

  predicate TagFormComplete(t: TagForm) {
    t.nameEn != "" && t.nameVi != "" && t.slug != ""
  }

  /** The backend call a save makes. */
  datatype SaveRequest = UpdatePost(id: string, updates: PostForm) | CreatePost(post: PostForm)

  datatype SubmitOutcome =
    | Rejected                                   // a required field is empty: no call
    | SaveFailed(request: SaveRequest)           // the create or update threw
    | Saved(request: SaveRequest, postId: string)

  class BlogEditor {
    var isDialogOpen: bool
    var isTagDialogOpen: bool
    var editingPost: Option<Blog.Post>
    var selectedTags: seq<string>
    var form: PostForm
    var newTag: TagForm

    constructor ()
      ensures !isDialogOpen && !isTagDialogOpen && editingPost.None? && selectedTags == []
      ensures form == DefaultPostForm() && newTag == TagForm("", "", "")
    {
      isDialogOpen, isTagDialogOpen := false, false;
      editingPost := None;
      selectedTags := [];
      form := DefaultPostForm();
      newTag := TagForm("", "", "");
    }

    /** `handleOpenDialog(post?)`. Editing keeps the current selection until
        the post's links are fetched; creating clears it. */
    method HandleOpenDialog(post: Option<Blog.Post>)
      modifies this
      ensures isDialogOpen && editingPost == post
      ensures post.Some? ==> form == HydratePostForm(post.value) && selectedTags == old(selectedTags)
      ensures post.None? ==> form == DefaultPostForm() && selectedTags == []
      ensures isTagDialogOpen == old(isTagDialogOpen) && newTag == old(newTag)
    {
      if post.Some? {
        editingPost := post;
        form := HydratePostForm(post.value);
      } else {
        editingPost := None;
        selectedTags := [];
        form := DefaultPostForm();
      }
      isDialogOpen := true;
    }

    /** `fetchPostTags`, run when a post is being edited; `ok` is false when
        the query fails, which leaves the selection alone. */
    method FetchPostTags(table: Blog.PostTagTable, ok: bool)
      modifies this
      ensures editingPost.Some? && ok ==> selectedTags == Blog.TagIdsOf(table.links, editingPost.value.id)
      ensures !(editingPost.Some? && ok) ==> selectedTags == old(selectedTags)
      ensures isDialogOpen == old(isDialogOpen) && editingPost == old(editingPost) && form == old(form)
      ensures isTagDialogOpen == old(isTagDialogOpen) && newTag == old(newTag)
    {
      if editingPost.Some? && ok {
        selectedTags := Blog.TagIdsOf(table.links, editingPost.value.id);
      }
    }

    /** `handleCloseDialog`: the form itself is left as it is. */
    method HandleCloseDialog()
      modifies this
      ensures !isDialogOpen && editingPost.None? && selectedTags == []
      ensures form == old(form) && isTagDialogOpen == old(isTagDialogOpen) && newTag == old(newTag)
    {
      isDialogOpen := false;
      editingPost := None;
      selectedTags := [];
    }

    /** Typing in the English title regenerates the slug only for a new post. */
    method OnTitleEnChange(value: string)
      modifies this
      ensures editingPost.None? ==> form == old(form).(titleEn := value, slug := GenerateSlug(value))
      ensures editingPost.Some? ==> form == old(form).(titleEn := value)
      ensures isDialogOpen == old(isDialogOpen) && editingPost == old(editingPost)
      ensures selectedTags == old(selectedTags)
      ensures isTagDialogOpen == old(isTagDialogOpen) && newTag == old(newTag)
    {
      if editingPost.None? {
        form := form.(titleEn := value, slug := GenerateSlug(value));
      } else {
        form := form.(titleEn := value);
      }
    }

    /** The reading-time input: `parseInt(value) || 5`. */
    method OnReadingTimeChange(parsed: Option<int>)
      modifies this
      ensures form == old(form).(readingTime := NumberOr(parsed, 5))
      ensures isDialogOpen == old(isDialogOpen) && editingPost == old(editingPost)
      ensures selectedTags == old(selectedTags)
      ensures isTagDialogOpen == old(isTagDialogOpen) && newTag == old(newTag)
    {
      form := form.(readingTime := NumberOr(parsed, 5));
    }

    /** `toggleTag` on the selection. */
    method OnToggleTag(tagId: string)
      modifies this
      ensures selectedTags == ToggleTag(old(selectedTags), tagId)
      ensures isDialogOpen == old(isDialogOpen) && editingPost == old(editingPost) && form == old(form)
      ensures isTagDialogOpen == old(isTagDialogOpen) && newTag == old(newTag)
    {
      selectedTags := ToggleTag(selectedTags, tagId);
    }

    /** `updatePostTags(postId)`: the outcomes of the two calls are not
        inspected, so each is an input. */
    method UpdatePostTags(table: Blog.PostTagTable, postId: string, deleteOk: bool, insertOk: bool)
      modifies table
      ensures table.links == Relinked(old(table.links), postId, selectedTags, deleteOk, insertOk)
    {
      table.DeleteByPost(postId, deleteOk);
      if |selectedTags| > 0 {
        table.Insert(Blog.LinkRows(postId, selectedTags), insertOk);
      }
    }

    /** `handleSubmit`. `saveOk` is false when the create or update throws;
        `createdId` is the id the backend gives a created post. An update
        returns the edited row itself, so its id is the edited post's. */
    method HandleSubmit(table: Blog.PostTagTable, saveOk: bool, createdId: string, deleteOk: bool, insertOk: bool)
      returns (outcome: SubmitOutcome)
      modifies this, table
      ensures !PostFormComplete(old(form)) ==>
        outcome == Rejected && table.links == old(table.links) &&
        isDialogOpen == old(isDialogOpen) && editingPost == old(editingPost) &&
        selectedTags == old(selectedTags)
      ensures PostFormComplete(old(form)) ==>
        (outcome != Rejected &&
         outcome.request == (if old(editingPost).Some? then UpdatePost(old(editingPost).value.id, old(form))
                             else CreatePost(old(form))))
      ensures PostFormComplete(old(form)) && !saveOk ==>
        outcome.SaveFailed? && table.links == old(table.links) &&
        isDialogOpen == old(isDialogOpen) && editingPost == old(editingPost) &&
        selectedTags == old(selectedTags)
      ensures PostFormComplete(old(form)) && saveOk ==>
        outcome.Saved? &&
        outcome.postId == (if old(editingPost).Some? then old(editingPost).value.id else createdId) &&
        table.links == Relinked(old(table.links), outcome.postId, old(selectedTags), deleteOk, insertOk) &&
        !isDialogOpen && editingPost.None? && selectedTags == []
      ensures form == old(form) && isTagDialogOpen == old(isTagDialogOpen) && newTag == old(newTag)
    {
      if !PostFormComplete(form) {
        return Rejected;
      }
      var request := if editingPost.Some? then UpdatePost(editingPost.value.id, form) else CreatePost(form);
      if !saveOk {
        return SaveFailed(request);
      }
      var postId := if editingPost.Some? then editingPost.value.id else createdId;
      UpdatePostTags(table, postId, deleteOk, insertOk);
      HandleCloseDialog();
      outcome := Saved(request, postId);
    }

    /** The publish button of a row: `togglePublished(id, !(published || false))`.
        The row takes the negated flag and the timestamp that goes with it;
        no other column changes. `ok` is false when the update reports an
        error, which the handler catches: the table then stays as it was. */
    method HandleTogglePublished(posts: Blog.PostsTable, post: Blog.Post, now: string, ok: bool) returns (r: Option<Blog.Post>)
      requires posts.Valid()
      modifies posts
      ensures posts.Valid()
      ensures !ok ==> r.None? && posts.rows == old(posts.rows)
      ensures ok && post.id in old(posts.rows) ==>
        var b := !post.published.GetOr(false);
        && r == Some(old(posts.rows)[post.id].(published := Some(b), publishedAt := if b then Some(now) else None))
        && posts.rows == old(posts.rows)[post.id := r.value]
      ensures post.id !in old(posts.rows) ==> r.None? && posts.rows == old(posts.rows)
    {
      r := posts.TogglePublished(post.id, !post.published.GetOr(false), now, ok);
    }

    /** `handleCreateTag`; `created` is false when the insert throws. */
    method HandleCreateTag(created: bool) returns (called: bool)
      modifies this
      ensures called == TagFormComplete(old(newTag))
      ensures called && created ==> newTag == TagForm("", "", "") && !isTagDialogOpen
      ensures !(called && created) ==> newTag == old(newTag) && isTagDialogOpen == old(isTagDialogOpen)
      ensures isDialogOpen == old(isDialogOpen) && editingPost == old(editingPost)
      ensures selectedTags == old(selectedTags) && form == old(form)
    {
      if !TagFormComplete(newTag) {
        return false;
      }
      called := true;
      if created {
        newTag := TagForm("", "", "");
        isTagDialogOpen := false;
      }
    }
  }
}
