/** The pure part of the post service (internal/service/post_service.go):
    the records, the reference checks run inside each transaction, the
    post-tag join table and its `Replace`, and the paging arithmetic. */
module Posts {
  import opened Outcomes
  import opened Seqs

  type Id = nat

  const Draft := 0
  const Published := 1

  const MsgPostNotFound := "文章不存在"
  const MsgInvalidCategory := "无效的分类 ID"
  const MsgInvalidTag := "包含无效的标签 ID"

  /** A row of `posts` (model.Post without its preloaded associations). */
  datatype PostRow = PostRow(
    title: string,
    content: string,
    summary: string,
    status: int,
    userId: Id,
    categoryId: Id)

  /** A post as the service returns it after the reload: the row, its id and
      the set of its tag ids. */
  datatype Post = Post(id: Id, row: PostRow, tagIds: set<Id>)

  /** CreatePostDTO: `userId` comes from the token claims of the caller. */
  datatype CreateInput = CreateInput(
    title: string,
    content: string,
    summary: string,
    status: int,
    userId: Id,
    categoryId: Id,
    tagIds: seq<Id>)

  /** UpdatePostDTO: there is no user id in it. */
  datatype UpdateInput = UpdateInput(
    id: Id,
    title: string,
    content: string,
    summary: string,
    status: int,
    categoryId: Id,
    tagIds: seq<Id>)

  /** The binding rules of the create and update request bodies:
      title 2..255 characters, content at least 10, status 0 or 1, and a
      non-zero category id. */
  predicate Bindable(title: string, content: string, status: int, categoryId: Id) {
    && 2 <= |title| <= 255
    && |content| >= 10
    && (status == Draft || status == Published)
    && categoryId != 0
  }

  /** `SELECT count(*) FROM tags WHERE id IN ?`: the tags whose id is in the
      list, each counted once however often the list repeats it. */
  function MatchCount(ids: seq<Id>, tags: set<Id>): (n: nat)
    ensures n <= |ids|
    ensures n <= |tags|
  {
    ElemsCard(ids);
    SubsetCard(Elems(ids) * tags, Elems(ids));
    SubsetCard(Elems(ids) * tags, tags);
    |Elems(ids) * tags|
  }

  /** The count equals the length of the list exactly when every id names a
      tag and no id is repeated. */
  lemma {:induction false} MatchCountIff(ids: seq<Id>, tags: set<Id>)
    ensures MatchCount(ids, tags) == |ids| <==> Distinct(ids) && Elems(ids) <= tags
  {
    ElemsCard(ids);
    var a := Elems(ids);
    SubsetCard(a * tags, a);
    if !(a <= tags) {
      ProperSubsetCard(a * tags, a);
    }
    assert a <= tags ==> a * tags == a;
  }

  /** The tag check: with a non-empty list, the count must equal the length;
      the tags linked to the post are then those the list names. */
  function CheckTags(ids: seq<Id>, tags: set<Id>): (r: Result<set<Id>>)
    ensures r.Ok? <==> Distinct(ids) && Elems(ids) <= tags
    ensures r.Ok? ==> r.value == Elems(ids)
    ensures r.Err? ==> r.msg == MsgInvalidTag
  {
    MatchCountIff(ids, tags);
    if |ids| > 0 then
      if MatchCount(ids, tags) != |ids| then Err(MsgInvalidTag) else Ok(Elems(ids))
    else
      Ok({})
  }

  /** The checks shared by Create and Update: the category first, then the
      tags. The result is the tag set to link. */
  function CheckReferences(categoryId: Id, tagIds: seq<Id>, categories: set<Id>, tags: set<Id>): (r: Result<set<Id>>)
    ensures r.Ok? <==> categoryId in categories && Distinct(tagIds) && Elems(tagIds) <= tags
    ensures r.Ok? ==> r.value == Elems(tagIds)
    ensures r.Err? ==> r.msg == (if categoryId !in categories then MsgInvalidCategory else MsgInvalidTag)
  {
    if categoryId !in categories then Err(MsgInvalidCategory)
    else CheckTags(tagIds, tags)
  }

  /** The checks of Update: the post must exist, then as in Create. */
  function CheckUpdate(input: UpdateInput, posts: set<Id>, categories: set<Id>, tags: set<Id>): (r: Result<set<Id>>)
    ensures r.Ok? <==> input.id in posts && CheckReferences(input.categoryId, input.tagIds, categories, tags).Ok?
    ensures r.Err? ==> r.msg == (if input.id !in posts then MsgPostNotFound
                                 else CheckReferences(input.categoryId, input.tagIds, categories, tags).msg)
  {
    if input.id !in posts then Err(MsgPostNotFound)
    else CheckReferences(input.categoryId, input.tagIds, categories, tags)
  }

  /** The row as `tx.Create` writes it. `status` has the column default 1
      (model/post.go), and GORM leaves a zero-valued field that has a default
      out of the INSERT, so a draft is stored as published. */
  function NewRowAsWritten(input: CreateInput): (r: PostRow)
    ensures r.status == (if input.status == 0 then Published else input.status)
    ensures r.title == input.title && r.content == input.content && r.summary == input.summary
    ensures r.userId == input.userId && r.categoryId == input.categoryId
  {
    PostRow(input.title, input.content, input.summary,
            if input.status == 0 then Published else input.status, input.userId, input.categoryId)
  }

  /** The row as intended: every field from the DTO, the status included. */
  function NewRow(input: CreateInput): (r: PostRow)
    ensures r.status == input.status
    ensures r.title == input.title && r.content == input.content && r.summary == input.summary
    ensures r.userId == input.userId && r.categoryId == input.categoryId
  {
    PostRow(input.title, input.content, input.summary, input.status, input.userId, input.categoryId)
  }

  /** As written, a post sent as a draft comes back published; the intended
      row keeps it a draft. Every other field agrees. */
  lemma DraftStoredAsPublishedAsWritten(input: CreateInput)
    requires Bindable(input.title, input.content, input.status, input.categoryId)
    ensures input.status == Draft ==> NewRowAsWritten(input).status == Published && NewRow(input).status == Draft
    ensures input.status == Published ==> NewRowAsWritten(input) == NewRow(input)
    ensures NewRowAsWritten(input) == NewRow(input).(status := NewRowAsWritten(input).status)
  {
  }

  /** The loaded row after Update assigns its fields: title, content,
      summary, status and category come from the DTO. */
  function UpdatedRow(old_: PostRow, input: UpdateInput): (r: PostRow)
    ensures r.userId == old_.userId
    ensures r.title == input.title && r.content == input.content && r.summary == input.summary
    ensures r.status == input.status && r.categoryId == input.categoryId
  {
    old_.(title := input.title, content := input.content, summary := input.summary,
          status := input.status, categoryId := input.categoryId)
  }

  // The `post_tags` join table: a set of (post id, tag id) pairs.

  /** The tags linked to one post. */
  function TagsOf(links: set<(Id, Id)>, post: Id): set<Id> {
    set l | l in links && l.0 == post :: l.1
  }

  /** `Association("Tags").Replace(tags)`: the post's links become exactly
      `tags`; the links of every other post stay as they were. */
  function ReplaceTags(links: set<(Id, Id)>, post: Id, tags: set<Id>): (r: set<(Id, Id)>)
    ensures TagsOf(r, post) == tags
    ensures forall l: (Id, Id) :: l.0 != post ==> (l in r <==> l in links)
    ensures forall l :: l in r ==> l in links || l.0 == post
  {
    (set l | l in links && l.0 != post) + (set t | t in tags :: (post, t))
  }

  /** `Association("Tags").Clear()`: the post keeps no link. */
  function ClearTags(links: set<(Id, Id)>, post: Id): (r: set<(Id, Id)>)
    ensures forall l :: l in r ==> l.0 != post
    ensures forall l: (Id, Id) :: l.0 != post ==> (l in r <==> l in links)
  {
    ReplaceTags(links, post, {})
  }

  /** Replacing twice with the same set is replacing once: an update
      repeated with the same tag list leaves the join table as it is. */
  lemma ReplaceTagsIdempotent(links: set<(Id, Id)>, post: Id, tags: set<Id>)
    ensures ReplaceTags(ReplaceTags(links, post, tags), post, tags) == ReplaceTags(links, post, tags)
  {
  }

  /** Links that the replacement keeps (present before and after) are
      exactly the old links of the post that are in the new set, plus the
      links of other posts: nothing is removed and re-added. */
  lemma ReplaceTagsKeepsCommon(links: set<(Id, Id)>, post: Id, tags: set<Id>)
    ensures forall t :: t in TagsOf(links, post) && t in tags ==> (post, t) in links * ReplaceTags(links, post, tags)
  {
  }

  /** For a post with no links yet, as a newly inserted one, replacing its
      tags is adding one link per tag. */
  lemma InsertLinks(links: set<(Id, Id)>, post: Id, tags: set<Id>)
    requires forall l :: l in links ==> l.0 != post
    ensures ReplaceTags(links, post, tags) == links + (set t | t in tags :: (post, t))
  {
  }

  // Paging. Page and page size are Go `int`s (64 bits on the platforms the
  // server targets), so the offset product wraps around as Go's does.

  const Int64Max := 0x7FFF_FFFF_FFFF_FFFF
  const TwoTo64 := 0x1_0000_0000_0000_0000

  predicate IsInt64(x: int) {
    -Int64Max - 1 <= x <= Int64Max
  }

  /** The paging arguments the handler can pass on: positive Go `int`s. */
  predicate PageArgs(page: int, pageSize: int) {
    1 <= page <= Int64Max && 1 <= pageSize <= Int64Max
  }

  /** Go's signed 64-bit wrap-around: the int64 that equals `x` modulo 2^64. */
  function Wrap64(x: int): (r: int)
    ensures IsInt64(r)
    ensures IsInt64(x) ==> r == x
    ensures (x - r) % TwoTo64 == 0
  {
    var q := (x + Int64Max + 1) / TwoTo64;
    assert x + Int64Max + 1 == q * TwoTo64 + (x + Int64Max + 1) % TwoTo64;
    assert x - ((x + Int64Max + 1) % TwoTo64 - Int64Max - 1) == q * TwoTo64;
    (x + Int64Max + 1) % TwoTo64 - Int64Max - 1
  }

  /** `offset := (Page - 1) * PageSize`, computed in 64 bits. */
  function Offset(page: int, pageSize: int): (r: int)
    ensures IsInt64(r)
    ensures IsInt64((page - 1) * pageSize) ==> r == (page - 1) * pageSize
  {
    Wrap64((page - 1) * pageSize)
  }

  /** The rows skipped: GORM writes `OFFSET` only for a positive offset. */
  function Skipped(page: int, pageSize: int): nat {
    if Offset(page, pageSize) > 0 then Offset(page, pageSize) else 0
  }

  /** `LIMIT pageSize OFFSET offset` over rows in listing order. */
  function PageOf<T>(xs: seq<T>, page: int, pageSize: int): (r: seq<T>)
    requires PageArgs(page, pageSize)
    ensures |r| <= pageSize
    ensures var o := Skipped(page, pageSize);
      && (o >= |xs| ==> r == [])
      && (o < |xs| ==> |r| == (if |xs| - o < pageSize then |xs| - o else pageSize))
      && forall k :: 0 <= k < |r| ==> o + k < |xs| && r[k] == xs[o + k]
  {
    Window(xs, Skipped(page, pageSize), pageSize)
  }

  /** While the product fits in 64 bits, the page starts at row
      `(page - 1) * pageSize`. */
  lemma NoWrap(page: int, pageSize: int)
    requires page >= 1 && pageSize >= 1 && (page - 1) * pageSize <= Int64Max
    ensures Skipped(page, pageSize) == (page - 1) * pageSize
  {
    assert (page - 1) * pageSize >= 0;
  }

  /** Past that, the offset wraps: page 2^62 + 1 wraps to offset 0 with
      four rows a page, and to a negative offset with three, and both
      times the first page comes back. */
  lemma HugePageIsFirstPage<T>(xs: seq<T>)
    ensures PageOf(xs, 0x4000_0000_0000_0001, 4) == PageOf(xs, 1, 4)
    ensures PageOf(xs, 0x4000_0000_0000_0001, 3) == PageOf(xs, 1, 3)
  {
    assert Wrap64(0x4000_0000_0000_0000 * 4) == 0;
    assert Wrap64(0x4000_0000_0000_0000 * 3) == -0x4000_0000_0000_0000;
  }

  /** At most `n` items of `xs` from position `o` on. */
  function Window<T>(xs: seq<T>, o: nat, n: nat): (r: seq<T>)
    ensures |r| <= n
    ensures o >= |xs| ==> r == []
    ensures o < |xs| ==> |r| == (if |xs| - o < n then |xs| - o else n)
    ensures forall k :: 0 <= k < |r| ==> o + k < |xs| && r[k] == xs[o + k]
  {
    if o >= |xs| then []
    else if |xs| - o < n then xs[o..]
    else xs[o..o + n]
  }

  /** Every row is on exactly the page its position says: row `k` is item
      `k % pageSize` of page `k / pageSize + 1`. */
  lemma PageLocates<T>(xs: seq<T>, pageSize: int, k: nat)
    requires 1 <= pageSize <= Int64Max && k < |xs| && k < Int64Max
    ensures var p := PageOf(xs, k / pageSize + 1, pageSize);
      k % pageSize < |p| && p[k % pageSize] == xs[k]
  {
    var page := k / pageSize + 1;
    assert k == (k / pageSize) * pageSize + k % pageSize;
    assert (page - 1) * pageSize <= k;
    NoWrap(page, pageSize);
  }

  /** Pages 1 to n, one after the other. */
  function Pages<T>(xs: seq<T>, pageSize: int, n: nat): seq<T>
    requires 1 <= pageSize <= Int64Max && n <= Int64Max
  {
    if n == 0 then [] else Pages(xs, pageSize, n - 1) + PageOf(xs, n, pageSize)
  }

  /** Reading pages 1 to n in turn gives the first n * pageSize rows, with no
      row skipped or repeated, as long as the offsets fit in 64 bits. */
  lemma {:induction false} PagesArePrefix<T>(xs: seq<T>, pageSize: int, n: nat)
    requires 1 <= pageSize <= Int64Max && n <= Int64Max && n * pageSize <= Int64Max
    ensures Pages(xs, pageSize, n) == xs[..if n * pageSize <= |xs| then n * pageSize else |xs|]
  {
    if n > 0 {
      NextOffset(n, pageSize);
      PagesArePrefix(xs, pageSize, n - 1);
      NoWrap(n, pageSize);
      PrefixThenWindow(xs, (n - 1) * pageSize, pageSize);
    }
  }

  lemma NextOffset(n: nat, pageSize: int)
    requires n >= 1 && pageSize >= 1
    ensures n * pageSize == (n - 1) * pageSize + pageSize
    ensures (n - 1) * pageSize >= 0
  {
  }

  /** The rows before `o`, then the window from `o`, are the rows before
      `o + n`. */
  lemma PrefixThenWindow<T>(xs: seq<T>, o: nat, n: nat)
    ensures xs[..if o <= |xs| then o else |xs|] + Window(xs, o, n)
         == xs[..if o + n <= |xs| then o + n else |xs|]
  {
    var lo := if o <= |xs| then o else |xs|;
    var hi := if o + n <= |xs| then o + n else |xs|;
    assert Window(xs, o, n) == xs[lo..hi];
    assert xs[..hi] == xs[..lo] + xs[lo..hi];
  }
}
