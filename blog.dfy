/** The blog access module (`src/lib/supabase/blog.ts`): the page arithmetic
    of the published listing, the view counter bumped by the detail fetch,
    the payload of the publish toggle, and the post/tag link rows. The
    `blog_posts` and `blog_post_tags` tables are in-memory objects here; the
    server-side filtering and ordering of the listing is an input. */
module Blog {
  import opened Common

  /** A `blog_posts` row (timestamps kept by the server are left out). */
  datatype Post = Post(
    id: string,
    slug: string,
    titleEn: string,
    titleVi: string,
    contentEn: string,
    contentVi: string,
    excerptEn: Option<string>,
    excerptVi: Option<string>,
    categoryEn: Option<string>,
    categoryVi: Option<string>,
    featuredImageUrl: Option<string>,
    authorName: Option<string>,
    readingTime: Option<int>,
    published: Option<bool>,
    publishedAt: Option<string>,
    featured: Option<bool>,
    views: Option<int>)

  /** A row of `blog_post_tags`. */
  datatype Link = Link(postId: string, tagId: string)

  // ---------------------------------------------------------------------------
  // Pagination

  /** The inclusive row range `[from, to]` requested for a page. */
  datatype Range = Range(from: int, to: int)

  /** `from = (page - 1) * limit; to = from + limit - 1` */
  function PageRange(page: int, limit: int): (r: Range)
    ensures r.to - r.from + 1 == limit
    ensures r.to + 1 == page * limit
  {
    var from := (page - 1) * limit;
    Range(from, from + limit - 1)
  }

  /** Consecutive pages meet without a gap or an overlap. */
  lemma PagesAreContiguous(page: int, limit: int)
    ensures PageRange(page, limit).to + 1 == PageRange(page + 1, limit).from
  {
    assert (page + 1 - 1) * limit == page * limit;
  }

  /** The rows the server returns for `.range(from, to)` over the filtered,
      ordered result `rows`: those whose index lies in the range. */
  function Slice<T>(rows: seq<T>, range: Range): (r: seq<T>)
    requires 0 <= range.from <= range.to + 1
    ensures |r| <= range.to + 1 - range.from
    ensures forall i :: 0 <= i < |r| ==> range.from + i < |rows| && r[i] == rows[range.from + i]
    ensures r == [] <==> |rows| <= range.from || range.to + 1 == range.from
  {
    var lo := if range.from <= |rows| then range.from else |rows|;
    var hi := if range.to + 1 <= |rows| then range.to + 1 else |rows|;
    rows[lo..hi]
  }

  lemma PageRangeNonNegative(page: int, limit: int)
    requires page >= 1 && limit >= 1
    ensures 0 <= PageRange(page, limit).from < PageRange(page, limit).to + 1
  {
    assert (page - 1) * limit >= 0;
  }

  /** The rows of page `page`. */
  function PageSlice<T>(rows: seq<T>, page: int, limit: int): (r: seq<T>)
    requires page >= 1 && limit >= 1
    ensures |r| <= limit
  {
    PageRangeNonNegative(page, limit);
    Slice(rows, PageRange(page, limit))
  }

  /** `count ? to < count : false`, the flag as the listing computes it. */
  function HasMoreAsWritten(page: int, limit: int, count: Option<int>): bool {
    match count
    case Some(c) => c != 0 && PageRange(page, limit).to < c
    case None => false
  }

  /** The flag as written holds exactly when `page * limit <= count`, the
      equality included. */
  lemma HasMoreAsWrittenIff(page: int, limit: int, count: Option<int>)
    ensures HasMoreAsWritten(page, limit, count) <==>
            count.Some? && count.value != 0 && page * limit <= count.value
  {
  }

  /** A full last page: with exactly `page * limit` rows the flag as written
      says there is more, yet the next page is empty. */
  lemma HasMoreAsWrittenAtExactFill<T>(rows: seq<T>, page: int, limit: int)
    requires page >= 1 && limit >= 1 && |rows| == page * limit
    ensures HasMoreAsWritten(page, limit, Some(|rows|))
    ensures PageSlice(rows, page + 1, limit) == []
  {
    PagesAreContiguous(page, limit);
    PageRangeNonNegative(page + 1, limit);
    PageRangeNonNegative(page, limit);
  }

  /** The flag corrected: another page exists when rows remain past `to`. */
  function HasMore(page: int, limit: int, count: Option<int>): bool {
    match count
    case Some(c) => PageRange(page, limit).to + 1 < c
    case None => false
  }

  /** The corrected flag says exactly whether the next page has rows. */
  lemma HasMoreIffNextPageNonEmpty<T>(rows: seq<T>, page: int, limit: int)
    requires page >= 1 && limit >= 1
    ensures HasMore(page, limit, Some(|rows|)) <==> PageSlice(rows, page + 1, limit) != []
  {
    PagesAreContiguous(page, limit);
    PageRangeNonNegative(page + 1, limit);
  }

  /** What `getPublishedPosts` returns. */
  datatype PublishedPage<T> = PublishedPage(posts: seq<T>, count: int, hasMore: bool)

  /** `getPublishedPosts(page, limit)`: `rows` are the published posts newest
      first, `count` the exact count the server reports with them, and
      `queryOk` is false when the query reports an error, which is thrown.
      The flag is the one line 27 computes: it agrees with "the next page has
      rows" except when the rows exactly fill this page. */
  function GetPublishedPosts<T>(queryOk: bool, rows: seq<T>, count: Option<int>, page: int, limit: int): (r: Option<PublishedPage<T>>)
    requires page >= 1 && limit >= 1
    ensures r.Some? <==> queryOk
    ensures r.Some? ==> |r.value.posts| <= limit
    ensures r.Some? && (count.None? || count == Some(0)) ==> r.value.count == 0 && !r.value.hasMore
    ensures r.Some? && count.Some? && count.value != 0 ==> r.value.count == count.value
    ensures r.Some? ==> (r.value.hasMore <==> count.Some? && count.value != 0 && page * limit <= count.value)
    ensures r.Some? && count == Some(|rows|) && |rows| != page * limit ==>
      (r.value.hasMore <==> PageSlice(rows, page + 1, limit) != [])
  {
    if !queryOk then None
    else
      HasMoreAsWrittenIff(page, limit, count);
      HasMoreIffNextPageNonEmpty(rows, page, limit);
      Some(PublishedPage(PageSlice(rows, page, limit), NumberOr(count, 0), HasMoreAsWritten(page, limit, count)))
  }

  // ---------------------------------------------------------------------------
  // The view counter

  /** `(views || 0) + 1` */
  function NextViews(views: Option<int>): (r: int)
    ensures views.Some? ==> r == views.value + 1
    ensures views.None? ==> r == 1
  {
    NumberOr(views, 0) + 1
  }

  // ---------------------------------------------------------------------------
  // Partial updates

  /** An update payload: `None` leaves a column as it is, `Some(v)` writes `v`. */
  datatype PostUpdate = PostUpdate(
    published: Option<Option<bool>>,
    publishedAt: Option<Option<string>>,
    featured: Option<Option<bool>>,
    views: Option<Option<int>>)

  /** `update(updates)` on one row: each column the payload names takes the
      payload's value; every other column is left as it was. */
  function Apply(p: Post, u: PostUpdate): (q: Post)
    ensures q.(published := p.published, publishedAt := p.publishedAt,
               featured := p.featured, views := p.views) == p
    ensures q.published == (if u.published.Some? then u.published.value else p.published)
    ensures q.publishedAt == (if u.publishedAt.Some? then u.publishedAt.value else p.publishedAt)
    ensures q.featured == (if u.featured.Some? then u.featured.value else p.featured)
    ensures q.views == (if u.views.Some? then u.views.value else p.views)
  {
    p.(published := u.published.GetOr(p.published),
       publishedAt := u.publishedAt.GetOr(p.publishedAt),
       featured := u.featured.GetOr(p.featured),
       views := u.views.GetOr(p.views))
  }

  /** `{ published, published_at: published ? now : null }` */
  function TogglePublishedPayload(published: bool, now: string): (u: PostUpdate)
    ensures u.featured.None? && u.views.None?
    ensures u.published == Some(Some(published))
    ensures u.publishedAt == Some(if published then Some(now) else None)
  {
    PostUpdate(Some(Some(published)), Some(if published then Some(now) else None), None, None)
  }

  /** The toggle writes the flag and the timestamp and nothing else. */
  lemma {:induction false} ToggleTouchesOnlyPublication(p: Post, published: bool, now: string)
    ensures var q := Apply(p, TogglePublishedPayload(published, now));
      && q.published == Some(published)
      && q.publishedAt == (if published then Some(now) else None)
      && q.(published := p.published, publishedAt := p.publishedAt) == p
  {
  }

  /** Publishing an already published post stamps it again: the timestamp is
      the latest publish, not the first. */
  lemma {:induction false} RepublishRestamps(p: Post, now: string)
    requires p.published == Some(true) && p.publishedAt.Some? && p.publishedAt.value != now
    ensures Apply(p, TogglePublishedPayload(true, now)).publishedAt != p.publishedAt
  {
  }

  /** The admin table toggles to `!(published || false)`; doing that twice
      restores the flag, changes no other column, and leaves the timestamp
      of the second toggle. */
  lemma {:induction false} ToggleTwice(p: Post, now1: string, now2: string)
    ensures var cur := p.published.GetOr(false);
      var q := Apply(p, TogglePublishedPayload(!cur, now1));
      var q2 := Apply(q, TogglePublishedPayload(!q.published.GetOr(false), now2));
      q2 == p.(published := Some(cur), publishedAt := if cur then Some(now2) else None)
  {
  }

  // ---------------------------------------------------------------------------
  // Tag links

  /** `tagIds.map(tagId => ({ post_id: postId, tag_id: tagId }))` */
  function LinkRows(postId: string, tagIds: seq<string>): (r: seq<Link>)
    ensures |r| == |tagIds|
    ensures forall i :: 0 <= i < |r| ==> r[i].postId == postId && r[i].tagId == tagIds[i]
  {
    if tagIds == [] then [] else [Link(postId, tagIds[0])] + LinkRows(postId, tagIds[1..])
  }

  /** The tag ids linked to `postId`, in row order: what the editor reads
      back with `select('tag_id').eq('post_id', postId)`. */
  function TagIdsOf(links: seq<Link>, postId: string): seq<string> {
    if links == [] then []
    else (if links[0].postId == postId then [links[0].tagId] else []) + TagIdsOf(links[1..], postId)
  }

  lemma {:induction false} TagIdsOfAppend(a: seq<Link>, b: seq<Link>, postId: string)
    ensures TagIdsOf(a + b, postId) == TagIdsOf(a, postId) + TagIdsOf(b, postId)
  {
    if a == [] {
      assert a + b == b;
    } else {
      var head := if a[0].postId == postId then [a[0].tagId] else [];
      var ab := a + b;
      assert ab[0] == a[0] && ab[1..] == a[1..] + b;
      assert TagIdsOf(ab, postId) == head + TagIdsOf(a[1..] + b, postId);
      TagIdsOfAppend(a[1..], b, postId);
      ConcatAssoc(head, TagIdsOf(a[1..], postId), TagIdsOf(b, postId));
    }
  }

  /** Reading back the links written for a post gives its tag ids, in order. */
  lemma {:induction false} LinkRowsRoundTrip(postId: string, tagIds: seq<string>)
    ensures TagIdsOf(LinkRows(postId, tagIds), postId) == tagIds
  {
    if tagIds != [] {
      var r := LinkRows(postId, tagIds);
      assert r[1..] == LinkRows(postId, tagIds[1..]);
      LinkRowsRoundTrip(postId, tagIds[1..]);
    }
  }

  /** Links of one post carry nothing for another post. */
  lemma {:induction false} LinkRowsOtherPost(postId: string, tagIds: seq<string>, other: string)
    requires other != postId
    ensures TagIdsOf(LinkRows(postId, tagIds), other) == []
  {
    if tagIds != [] {
      var r := LinkRows(postId, tagIds);
      assert r[1..] == LinkRows(postId, tagIds[1..]);
      LinkRowsOtherPost(postId, tagIds[1..], other);
    }
  }

  /** `getPostsByTag`: the links with `tagId`, each replaced by its embedded
      post, and `filter(Boolean)` drops the ones whose post the server did
      not return. `posts` are the posts visible to the caller, by id. */
  function PostsByTag(links: seq<Link>, posts: map<string, Post>, tagId: string): (r: seq<Post>)
    ensures |r| <= |links|
  {
    if links == [] then []
    else
      (if links[0].tagId == tagId && links[0].postId in posts then [posts[links[0].postId]] else [])
      + PostsByTag(links[1..], posts, tagId)
  }

  /** `p` is the post of the link at index `i`, and that link carries `tagId`. */
  predicate LinkedBy(links: seq<Link>, posts: map<string, Post>, tagId: string, p: Post, i: int) {
    0 <= i < |links| && links[i].tagId == tagId && links[i].postId in posts && posts[links[i].postId] == p
  }

  /** A post is in the result exactly when some link with the tag points at it. */
  lemma {:induction false} PostsByTagMembership(links: seq<Link>, posts: map<string, Post>, tagId: string, p: Post)
    ensures p in PostsByTag(links, posts, tagId) <==> exists i :: LinkedBy(links, posts, tagId, p, i)
  {
    if links != [] {
      PostsByTagMembership(links[1..], posts, tagId, p);
      if exists i :: LinkedBy(links[1..], posts, tagId, p, i) {
        var i :| LinkedBy(links[1..], posts, tagId, p, i);
        assert LinkedBy(links, posts, tagId, p, i + 1);
      }
      if p in PostsByTag(links, posts, tagId) && p !in PostsByTag(links[1..], posts, tagId) {
        assert LinkedBy(links, posts, tagId, p, 0);
      }
      if exists i :: LinkedBy(links, posts, tagId, p, i) {
        var i :| LinkedBy(links, posts, tagId, p, i);
        var tail := PostsByTag(links[1..], posts, tagId);
        if i == 0 {
          assert PostsByTag(links, posts, tagId) == [p] + tail;
        } else {
          assert LinkedBy(links[1..], posts, tagId, p, i - 1);
        }
      }
    }
  }

  /** `getPostsByTag(tagId)` with its error path: `ok` is false when the
      query reports an error, which is thrown. */
  function GetPostsByTag(ok: bool, links: seq<Link>, posts: map<string, Post>, tagId: string): (r: Option<seq<Post>>)
    ensures r.Some? <==> ok
    ensures r.Some? ==> |r.value| <= |links|
    ensures r.Some? ==> forall p :: p in r.value <==> exists i :: LinkedBy(links, posts, tagId, p, i)
  {
    if ok then
      var found := PostsByTag(links, posts, tagId);
      assert forall p :: p in found <==> exists i :: LinkedBy(links, posts, tagId, p, i) by {
        forall p ensures p in found <==> exists i :: LinkedBy(links, posts, tagId, p, i) {
          PostsByTagMembership(links, posts, tagId, p);
        }
      }
      Some(found)
    else None
  }

  // ---------------------------------------------------------------------------
  // The tables

  /** The `blog_posts` table, keyed by id. */
  class PostsTable {
    var rows: map<string, Post>

    ghost predicate Valid()
      reads this
    {
      forall id | id in rows :: rows[id].id == id
    }

    constructor (rows: map<string, Post>)
      ensures this.rows == rows
    {
      this.rows := rows;
    }

    /** The ids of the published posts with this slug. */
    function Matches(slug: string): set<string>
      reads this
    {
      set id | id in rows && rows[id].slug == slug && rows[id].published == Some(true)
    }

    /** `getPostBySlug`: `.single()` fails unless exactly one published post
        has the slug; on success the row's `views` is written as
        `(views || 0) + 1` and the row as it was read is returned. The
        update's result is never inspected: `updateOk` false leaves the
        table as it was, and the post is returned all the same. `readOk` is
        false when the read reports an error other than the match count. */
    method GetPostBySlug(slug: string, readOk: bool, updateOk: bool) returns (r: Option<Post>)
      requires Valid()
      modifies this
      ensures Valid()
      ensures r.Some? <==> readOk && |old(Matches(slug))| == 1
      ensures r.None? || !updateOk ==> rows == old(rows)
      ensures r.Some? ==>
        && r.value.id in old(Matches(slug))
        && r.value == old(rows)[r.value.id]
      ensures r.Some? && updateOk ==>
        rows == old(rows)[r.value.id := r.value.(views := Some(NextViews(r.value.views)))]
    {
      var matches := set id | id in rows && rows[id].slug == slug && rows[id].published == Some(true);
      if !readOk || |matches| != 1 {
        return None;
      }
      var id :| id in matches;
      var post := rows[id];
      if updateOk {
        rows := rows[id := post.(views := Some(NextViews(post.views)))];
      }
      r := Some(post);
    }

    /** `updatePost(id, updates)`: `.single()` fails when no row has the id,
        and `ok` is false when the backend reports any other error (a
        denied or failed write); both are thrown and change nothing. */
    method UpdatePost(id: string, u: PostUpdate, ok: bool) returns (r: Option<Post>)
      requires Valid()
      modifies this
      ensures Valid()
      ensures ok && id in old(rows) ==> r == Some(Apply(old(rows)[id], u)) && rows == old(rows)[id := r.value]
      ensures !ok || id !in old(rows) ==> r.None? && rows == old(rows)
    {
      if !ok || id !in rows {
        return None;
      }
      var q := Apply(rows[id], u);
      rows := rows[id := q];
      r := Some(q);
    }

    /** `togglePublished(id, published)`; `ok` as for `updatePost`. */
    method TogglePublished(id: string, published: bool, now: string, ok: bool) returns (r: Option<Post>)
      requires Valid()
      modifies this
      ensures Valid()
      ensures ok && id in old(rows) ==>
        && r.Some?
        && r.value == old(rows)[id].(published := Some(published),
                                     publishedAt := if published then Some(now) else None)
        && rows == old(rows)[id := r.value]
      ensures !ok || id !in old(rows) ==> r.None? && rows == old(rows)
    {
      r := UpdatePost(id, TogglePublishedPayload(published, now), ok);
    }
  }

  /** Two fetches of the same published post add two views when both view
      updates go through, one when only one does, and none otherwise; the
      post is returned each time. */
  method FetchTwice(table: PostsTable, slug: string, id: string, firstOk: bool, secondOk: bool)
    returns (first: Option<Post>, second: Option<Post>)
    requires table.Valid() && table.Matches(slug) == {id}
    modifies table
    ensures first.Some? && second.Some?
    ensures id in table.rows
    ensures table.rows[id].views ==
      if !firstOk && !secondOk then old(table.rows[id].views)
      else Some(old(table.rows[id].views.GetOr(0)) + (if firstOk then 1 else 0) + (if secondOk then 1 else 0))
  {
    first := table.GetPostBySlug(slug, true, firstOk);
    assert table.Matches(slug) == {id};
    second := table.GetPostBySlug(slug, true, secondOk);
  }

  /** The `blog_post_tags` table. */
  class PostTagTable {
    var links: seq<Link>

    constructor (links: seq<Link>)
      ensures this.links == links
    {
      this.links := links;
    }

    /** `delete().eq('post_id', postId)`; `ok` is false when the call fails. */
    method DeleteByPost(postId: string, ok: bool)
      modifies this
      ensures links == if ok then WithoutPost(old(links), postId) else old(links)
    {
      if ok {
        links := WithoutPost(links, postId);
      }
    }

    /** `insert(rows)`; `ok` is false when the call fails. */
    method Insert(rows: seq<Link>, ok: bool)
      modifies this
      ensures links == if ok then old(links) + rows else old(links)
    {
      if ok {
        links := links + rows;
      }
    }

    /** `linkPostToTags(postId, tagIds)` */
    method LinkPostToTags(postId: string, tagIds: seq<string>, ok: bool) returns (success: bool)
      modifies this
      ensures success == ok
      ensures links == if ok then old(links) + LinkRows(postId, tagIds) else old(links)
    {
      Insert(LinkRows(postId, tagIds), ok);
      success := ok;
    }
  }

  /** The links of every post but `postId`, in order. */
  function WithoutPost(links: seq<Link>, postId: string): (r: seq<Link>)
    ensures |r| <= |links|
  {
    if links == [] then []
    else if links[0].postId == postId then WithoutPost(links[1..], postId)
    else [links[0]] + WithoutPost(links[1..], postId)
  }

  /** Deleting a post's links leaves it none and every other post its own,
      in the same order. */
  lemma {:induction false} WithoutPostTagIds(links: seq<Link>, postId: string, other: string)
    ensures TagIdsOf(WithoutPost(links, postId), postId) == []
    ensures other != postId ==> TagIdsOf(WithoutPost(links, postId), other) == TagIdsOf(links, other)
  {
    if links != [] {
      WithoutPostTagIds(links[1..], postId, other);
      var rest := WithoutPost(links[1..], postId);
      if links[0].postId != postId {
        assert ([links[0]] + rest)[1..] == rest;
      }
    }
  }
}
