/** The content store: the `categories`, `tags`, `posts` and `post_tags`
    tables behind the category, tag and post services
    (internal/service/category_service.go, tag_service.go, post_service.go).
    Each service call is one method and one atomic step: it either returns
    an error and leaves every table as it was, or it commits all its writes.
    The store's clock stands for `created_at`. */
module Content {
  import opened Outcomes
  import opened Seqs
  import opened Tables
  import Names
  import opened Posts

  /** A category or a tag as the services return it (model.Category and
      model.Tag have the same shape: an id and a name). */
  datatype Named = Named(id: Id, name: string)

  /** ListResponseDTO: one page of posts and the number of all posts. */
  datatype ListResponse = ListResponse(posts: seq<Post>, totalCount: nat)

  /** The rows `ids` names, in that order. */
  function NamedRows(rows: map<Id, string>, ids: seq<Id>): (r: seq<Named>)
    requires forall k :: 0 <= k < |ids| ==> ids[k] in rows
    ensures |r| == |ids|
    ensures forall k :: 0 <= k < |r| ==> r[k] == Named(ids[k], rows[ids[k]])
  {
    if ids == [] then [] else [Named(ids[0], rows[ids[0]])] + NamedRows(rows, ids[1..])
  }

  /** `ORDER BY created_at DESC` over a table of names. */
  function NamedListing(t: Table<string>): (r: seq<Named>)
    requires Tables.Valid(t)
    ensures forall k :: 0 <= k < |r| ==> r[k].id in t.rows && t.rows[r[k].id] == r[k].name && r[k].id in t.created
    ensures forall id :: id in t.rows ==> exists k :: 0 <= k < |r| && r[k].id == id
    ensures forall i, j :: 0 <= i < j < |r| ==> t.created[r[i].id] > t.created[r[j].id]
    ensures |r| == |t.rows|
  {
    NamedRows(t.rows, NewestFirst(t))
  }

  /** The row with the newest stamp is the first one listed. */
  lemma NewestListedFirst(t: Table<string>, id: Id)
    requires Tables.Valid(t) && id in t.rows
    requires forall other :: other in t.created && other != id ==> t.created[other] < t.created[id]
    ensures |NamedListing(t)| > 0 && NamedListing(t)[0] == Named(id, t.rows[id])
  {
    var l := NamedListing(t);
    var k :| 0 <= k < |l| && l[k].id == id;
    if k != 0 {
      assert t.created[l[0].id] > t.created[l[k].id];
    }
  }

  // ---- The foreign keys ----

  /** The foreign keys AutoMigrate creates with GORM's default settings:
      every `post_tags` row names an existing post and an existing tag (the
      many2many join table), and every post names an existing category (the
      belongs-to `Category` of model.Post). None of them cascades. */
  ghost predicate Referenced(categories: map<Id, string>, tags: map<Id, string>, posts: map<Id, PostRow>, links: set<(Id, Id)>) {
    && (forall l :: l in links ==> l.0 in posts && l.1 in tags)
    && CategoriesOf(posts) <= categories.Keys
  }

  /** The categories the posts are filed under. */
  function CategoriesOf(posts: map<Id, PostRow>): set<Id> {
    set p | p in posts :: posts[p].categoryId
  }

  /** Stands for MySQL's error 1451, which a DELETE of a row that a foreign
      key still refers to returns (this is its prefix; MySQL appends the
      constraint). */
  const MsgRowInUse := "Error 1451 (23000): Cannot delete or update a parent row: a foreign key constraint fails"

  /** Some post is filed under the category. */
  predicate CategoryInUse(posts: map<Id, PostRow>, id: Id) {
    exists p :: p in posts && posts[p].categoryId == id
  }

  /** Some post is linked to the tag. */
  predicate TagInUse(links: set<(Id, Id)>, id: Id) {
    exists l :: l in links && l.1 == id
  }

  /** Only a row that exists can be in use. */
  lemma InUseExists(categories: map<Id, string>, tags: map<Id, string>, posts: map<Id, PostRow>, links: set<(Id, Id)>, id: Id)
    requires Referenced(categories, tags, posts, links)
    ensures CategoryInUse(posts, id) ==> id in categories
    ensures TagInUse(links, id) ==> id in tags
  {
  }

  /** Adding or renaming categories and tags keeps every reference. */
  lemma WiderKeepsReferenced(categories: map<Id, string>, tags: map<Id, string>, posts: map<Id, PostRow>, links: set<(Id, Id)>,
                             categories': map<Id, string>, tags': map<Id, string>)
    requires Referenced(categories, tags, posts, links)
    requires categories.Keys <= categories'.Keys && tags.Keys <= tags'.Keys
    ensures Referenced(categories', tags', posts, links)
  {
  }

  /** A category no post uses, or a tag no post is linked to, can go. */
  lemma UnusedRemovable(categories: map<Id, string>, tags: map<Id, string>, posts: map<Id, PostRow>, links: set<(Id, Id)>, id: Id)
    requires Referenced(categories, tags, posts, links)
    ensures !CategoryInUse(posts, id) ==> Referenced(categories - {id}, tags, posts, links)
    ensures !TagInUse(links, id) ==> Referenced(categories, tags - {id}, posts, links)
  {
  }

  /** Writing a post whose category and tags exist keeps every reference. */
  lemma WriteKeepsReferenced(categories: map<Id, string>, tags: map<Id, string>, posts: map<Id, PostRow>, links: set<(Id, Id)>,
                             id: Id, row: PostRow, linked: set<Id>)
    requires Referenced(categories, tags, posts, links)
    requires row.categoryId in categories && linked <= tags.Keys
    ensures Referenced(categories, tags, posts[id := row], ReplaceTags(links, id, linked))
  {
  }

  /** Removing a post together with its links keeps every reference. */
  lemma RemovalKeepsReferenced(categories: map<Id, string>, tags: map<Id, string>, posts: map<Id, PostRow>, links: set<(Id, Id)>, id: Id)
    requires Referenced(categories, tags, posts, links)
    ensures Referenced(categories, tags, posts - {id}, ClearTags(links, id))
  {
  }

  /** A stored post lists only tags that exist, and its category exists. */
  lemma LiveReferences(categories: map<Id, string>, tags: map<Id, string>, posts: map<Id, PostRow>, links: set<(Id, Id)>, id: Id)
    requires Referenced(categories, tags, posts, links) && id in posts
    ensures TagsOf(links, id) <= tags.Keys && posts[id].categoryId in categories
  {
  }

  // ---- The store invariant ----

  /** Consistent tables whose stamps are all older than the clock, unique
      names in each of the two name tables, and the foreign keys. */
  ghost predicate Consistent(categories: Table<string>, tags: Table<string>, posts: Table<PostRow>,
                             links: set<(Id, Id)>, clock: nat) {
    && Tables.Valid(categories) && StampsBelow(categories, clock)
    && Tables.Valid(tags) && StampsBelow(tags, clock)
    && Tables.Valid(posts) && StampsBelow(posts, clock)
    && Names.UniqueNames(categories.rows)
    && Names.UniqueNames(tags.rows)
    && Referenced(categories.rows, tags.rows, posts.rows, links)
  }

  /** The empty database is consistent. */
  lemma EmptyConsistent()
    ensures Consistent(Empty(), Empty(), Empty(), {}, 0)
  {
    EmptyValid<string>(0);
    EmptyValid<PostRow>(0);
  }

  /** Inserting a category whose name leaves the names unique keeps the
      store consistent once the clock has moved on. */
  lemma NewCategoryKeeps(categories: Table<string>, tags: Table<string>, posts: Table<PostRow>,
                         links: set<(Id, Id)>, clock: nat, name: string)
    requires Consistent(categories, tags, posts, links, clock)
    requires Names.UniqueNames(categories.rows[categories.nextId := name])
    ensures Consistent(Insert(categories, name, clock), tags, posts, links, clock + 1)
  {
    StampsBelowLater(tags, clock, clock + 1);
    StampsBelowLater(posts, clock, clock + 1);
    WiderKeepsReferenced(categories.rows, tags.rows, posts.rows, links, Insert(categories, name, clock).rows, tags.rows);
  }

  /** Likewise for a tag. */
  lemma NewTagKeeps(categories: Table<string>, tags: Table<string>, posts: Table<PostRow>,
                    links: set<(Id, Id)>, clock: nat, name: string)
    requires Consistent(categories, tags, posts, links, clock)
    requires Names.UniqueNames(tags.rows[tags.nextId := name])
    ensures Consistent(categories, Insert(tags, name, clock), posts, links, clock + 1)
  {
    StampsBelowLater(categories, clock, clock + 1);
    StampsBelowLater(posts, clock, clock + 1);
    WiderKeepsReferenced(categories.rows, tags.rows, posts.rows, links, categories.rows, Insert(tags, name, clock).rows);
  }

  /** Renaming an existing category, or tag, so that names stay unique keeps
      the store consistent. */
  lemma RenameKeeps(categories: Table<string>, tags: Table<string>, posts: Table<PostRow>,
                    links: set<(Id, Id)>, clock: nat, id: Id, name: string)
    requires Consistent(categories, tags, posts, links, clock)
    ensures id in categories.rows && Names.UniqueNames(categories.rows[id := name]) ==>
      Consistent(Put(categories, id, name), tags, posts, links, clock)
    ensures id in tags.rows && Names.UniqueNames(tags.rows[id := name]) ==>
      Consistent(categories, Put(tags, id, name), posts, links, clock)
  {
    if id in categories.rows {
      WiderKeepsReferenced(categories.rows, tags.rows, posts.rows, links, Put(categories, id, name).rows, tags.rows);
    }
    if id in tags.rows {
      WiderKeepsReferenced(categories.rows, tags.rows, posts.rows, links, categories.rows, Put(tags, id, name).rows);
    }
  }

  /** Deleting a category no post uses, or a tag no post is linked to, keeps
      the store consistent. */
  lemma DropNameKeeps(categories: Table<string>, tags: Table<string>, posts: Table<PostRow>,
                      links: set<(Id, Id)>, clock: nat, id: Id)
    requires Consistent(categories, tags, posts, links, clock)
    ensures !CategoryInUse(posts.rows, id) ==> Consistent(Delete(categories, id).0, tags, posts, links, clock)
    ensures !TagInUse(links, id) ==> Consistent(categories, Delete(tags, id).0, posts, links, clock)
  {
    UnusedRemovable(categories.rows, tags.rows, posts.rows, links, id);
    DeleteKeepsStampsBelow(categories, id, clock);
    DeleteKeepsStampsBelow(tags, id, clock);
  }

  /** Inserting a post whose category and tags exist, with its links, keeps
      the store consistent once the clock has moved on. */
  lemma NewPostKeeps(categories: Table<string>, tags: Table<string>, posts: Table<PostRow>,
                     links: set<(Id, Id)>, clock: nat, row: PostRow, linked: set<Id>)
    requires Consistent(categories, tags, posts, links, clock)
    requires row.categoryId in categories.rows && linked <= tags.rows.Keys
    ensures Consistent(categories, tags, Insert(posts, row, clock), ReplaceTags(links, posts.nextId, linked), clock + 1)
  {
    StampsBelowLater(categories, clock, clock + 1);
    StampsBelowLater(tags, clock, clock + 1);
    WriteKeepsReferenced(categories.rows, tags.rows, posts.rows, links, posts.nextId, row, linked);
  }

  /** Saving an existing post whose category and tags exist, and replacing
      its links, keeps the store consistent. */
  lemma SavePostKeeps(categories: Table<string>, tags: Table<string>, posts: Table<PostRow>,
                      links: set<(Id, Id)>, clock: nat, id: Id, row: PostRow, linked: set<Id>)
    requires Consistent(categories, tags, posts, links, clock) && id in posts.rows
    requires row.categoryId in categories.rows && linked <= tags.rows.Keys
    ensures Consistent(categories, tags, Put(posts, id, row), ReplaceTags(links, id, linked), clock)
  {
    WriteKeepsReferenced(categories.rows, tags.rows, posts.rows, links, id, row, linked);
  }

  /** Deleting a post together with its links keeps the store consistent. */
  lemma DropPostKeeps(categories: Table<string>, tags: Table<string>, posts: Table<PostRow>,
                      links: set<(Id, Id)>, clock: nat, id: Id)
    requires Consistent(categories, tags, posts, links, clock)
    ensures Consistent(categories, tags, Delete(posts, id).0, ClearTags(links, id), clock)
  {
    RemovalKeepsReferenced(categories.rows, tags.rows, posts.rows, links, id);
    DeleteKeepsStampsBelow(posts, id, clock);
  }

  /** A post with its tags, as the reload after a write returns it. */
  function View(posts: Table<PostRow>, links: set<(Id, Id)>, id: Id): (p: Post)
    requires id in posts.rows
  {
    Post(id, posts.rows[id], TagsOf(links, id))
  }

  /** The posts `ids` names, in that order, each with its tags. */
  function Views(posts: Table<PostRow>, links: set<(Id, Id)>, ids: seq<Id>): (r: seq<Post>)
    requires forall k :: 0 <= k < |ids| ==> ids[k] in posts.rows
    ensures IdsOf(r) == ids
    ensures forall k :: 0 <= k < |r| ==> r[k].id in posts.rows && r[k] == View(posts, links, r[k].id)
  {
    if ids == [] then [] else [View(posts, links, ids[0])] + Views(posts, links, ids[1..])
  }

  function IdsOf(ps: seq<Post>): (r: seq<Id>)
    ensures |r| == |ps| && forall k :: 0 <= k < |ps| ==> r[k] == ps[k].id
  {
    if ps == [] then [] else [ps[0].id] + IdsOf(ps[1..])
  }

  /** List: `LIMIT pageSize OFFSET (page - 1) * pageSize` over the posts
      newest first, each post with its tags; the total counts every post
      whatever the page. */
  function PostListing(posts: Table<PostRow>, links: set<(Id, Id)>, page: int, pageSize: int): (r: ListResponse)
    requires Tables.Valid(posts) && PageArgs(page, pageSize)
    ensures r.totalCount == |posts.rows|
    ensures IdsOf(r.posts) == PageOf(NewestFirst(posts), page, pageSize)
    ensures forall k :: 0 <= k < |r.posts| ==> r.posts[k].id in posts.rows && r.posts[k] == View(posts, links, r.posts[k].id)
  {
    ListResponse(PageViews(posts, links, NewestFirst(posts), page, pageSize), |posts.rows|)
  }

  function PageViews(posts: Table<PostRow>, links: set<(Id, Id)>, ids: seq<Id>, page: int, pageSize: int): (r: seq<Post>)
    requires PageArgs(page, pageSize)
    requires forall k :: 0 <= k < |ids| ==> ids[k] in posts.rows
    ensures IdsOf(r) == PageOf(ids, page, pageSize)
    ensures forall k :: 0 <= k < |r| ==> r[k].id in posts.rows && r[k] == View(posts, links, r[k].id)
  {
    Views(posts, links, PageOf(ids, page, pageSize))
  }

  /** GetByID. */
  function FindPost(posts: Table<PostRow>, links: set<(Id, Id)>, id: Id): (r: Result<Post>)
    ensures r.Ok? <==> id in posts.rows
    ensures r.Err? ==> r.msg == MsgPostNotFound
    ensures r.Ok? ==> r.value.id == id && r.value.row == posts.rows[id] && r.value.tagIds == TagsOf(links, id)
  {
    if id in posts.rows then Ok(View(posts, links, id)) else Err(MsgPostNotFound)
  }

  class Store {
    var categories: Table<string>
    var tags: Table<string>
    var posts: Table<PostRow>
    var postTags: set<(Id, Id)>
    var clock: nat

    /** The store invariant. */
    ghost predicate Valid()
      reads this
    {
      Consistent(categories, tags, posts, postTags, clock)
    }

    /** A freshly migrated, empty database. */
    constructor ()
      ensures Valid()
      ensures categories.rows == map[] && tags.rows == map[] && posts.rows == map[] && postTags == {}
    {
      EmptyConsistent();
      categories, tags, posts := Empty(), Empty(), Empty();
      postTags := {};
      clock := 0;
    }

    // ---- CategoryService ----

    method CreateCategory(name: string) returns (r: Result<Named>)
      requires Valid() && Names.BindableName(name)
      modifies this
      ensures Valid()
      ensures tags == old(tags) && posts == old(posts) && postTags == old(postTags)
      ensures match Names.CheckCreate(old(categories.rows), name, Names.CategoryMessages)
        case Err(m) => r == Err(m) && categories == old(categories) && clock == old(clock)
        case Ok(n) =>
          && r == Ok(Named(old(categories.nextId), n))
          && categories.rows == old(categories.rows)[old(categories.nextId) := n]
          && old(categories.nextId) !in old(categories.rows) && categories.nextId == old(categories.nextId) + 1
          && categories.created == old(categories.created)[old(categories.nextId) := old(clock)] && clock == old(clock) + 1
    {
      match Names.CheckCreate(categories.rows, name, Names.CategoryMessages)
      case Err(m) =>
        r := Err(m);
      case Ok(n) =>
        var id := categories.nextId;
        Names.CreateKeepsUnique(categories.rows, id, name, Names.CategoryMessages);
        NewCategoryKeeps(categories, tags, posts, postTags, clock, n);
        var table := Insert(categories, n, clock);
        categories, clock := table, clock + 1;
        r := Ok(Named(id, n));
    }

    method ListCategories() returns (r: seq<Named>)
      requires Valid()
      ensures r == NamedListing(categories)
    {
      r := NamedListing(categories);
    }

    method UpdateCategory(id: Id, name: string) returns (r: Result<Named>)
      requires Valid() && Names.BindableName(name)
      modifies this
      ensures Valid()
      ensures tags == old(tags) && posts == old(posts) && postTags == old(postTags) && clock == old(clock)
      ensures categories.nextId == old(categories.nextId) && categories.created == old(categories.created)
      ensures match Names.CheckUpdate(old(categories.rows), id, name, Names.CategoryMessages)
        case Err(m) => r == Err(m) && categories == old(categories)
        case Ok(n) => r == Ok(Named(id, n)) && categories.rows == old(categories.rows)[id := n]
    {
      match Names.CheckUpdate(categories.rows, id, name, Names.CategoryMessages)
      case Err(m) =>
        r := Err(m);
      case Ok(n) =>
        Names.UpdateKeepsUnique(categories.rows, id, name, Names.CategoryMessages);
        RenameKeeps(categories, tags, posts, postTags, clock, id, n);
        var table := Put(categories, id, n);
        categories := table;
        r := Ok(Named(id, n));
    }

    method DeleteCategory(id: Id) returns (r: Outcome)
      requires Valid()
      modifies this
      ensures Valid()
      ensures tags == old(tags) && posts == old(posts) && postTags == old(postTags) && clock == old(clock)
      ensures r == if id !in old(categories.rows) then Fail(Names.CategoryMessages.notFound)
                   else if CategoryInUse(old(posts.rows), id) then Fail(MsgRowInUse)
                   else Pass
      ensures r.Pass? ==> categories.rows == old(categories.rows) - {id}
      ensures r.Pass? ==> categories.created == old(categories.created) - {id} && categories.nextId == old(categories.nextId)
      ensures r.Fail? ==> categories == old(categories)
    {
      InUseExists(categories.rows, tags.rows, posts.rows, postTags, id);
      if CategoryInUse(posts.rows, id) {
        // the foreign key of `posts.category_id` refuses the DELETE
        r := Fail(MsgRowInUse);
      } else {
        var (t, affected) := Delete(categories, id);
        DropNameKeeps(categories, tags, posts, postTags, clock, id);
        categories := t;
        if affected == 0 {
          r := Fail(Names.CategoryMessages.notFound);
        } else {
          r := Pass;
        }
      }
    }

    // ---- TagService ----

    method CreateTag(name: string) returns (r: Result<Named>)
      requires Valid() && Names.BindableName(name)
      modifies this
      ensures Valid()
      ensures categories == old(categories) && posts == old(posts) && postTags == old(postTags)
      ensures match Names.CheckCreate(old(tags.rows), name, Names.TagMessages)
        case Err(m) => r == Err(m) && tags == old(tags) && clock == old(clock)
        case Ok(n) =>
          && r == Ok(Named(old(tags.nextId), n))
          && tags.rows == old(tags.rows)[old(tags.nextId) := n]
          && old(tags.nextId) !in old(tags.rows) && tags.nextId == old(tags.nextId) + 1
          && tags.created == old(tags.created)[old(tags.nextId) := old(clock)] && clock == old(clock) + 1
    {
      match Names.CheckCreate(tags.rows, name, Names.TagMessages)
      case Err(m) =>
        r := Err(m);
      case Ok(n) =>
        var id := tags.nextId;
        Names.CreateKeepsUnique(tags.rows, id, name, Names.TagMessages);
        NewTagKeeps(categories, tags, posts, postTags, clock, n);
        var table := Insert(tags, n, clock);
        tags, clock := table, clock + 1;
        r := Ok(Named(id, n));
    }

    method ListTags() returns (r: seq<Named>)
      requires Valid()
      ensures r == NamedListing(tags)
    {
      r := NamedListing(tags);
    }

    method UpdateTag(id: Id, name: string) returns (r: Result<Named>)
      requires Valid() && Names.BindableName(name)
      modifies this
      ensures Valid()
      ensures categories == old(categories) && posts == old(posts) && postTags == old(postTags) && clock == old(clock)
      ensures tags.nextId == old(tags.nextId) && tags.created == old(tags.created)
      ensures match Names.CheckUpdate(old(tags.rows), id, name, Names.TagMessages)
        case Err(m) => r == Err(m) && tags == old(tags)
        case Ok(n) => r == Ok(Named(id, n)) && tags.rows == old(tags.rows)[id := n]
    {
      match Names.CheckUpdate(tags.rows, id, name, Names.TagMessages)
      case Err(m) =>
        r := Err(m);
      case Ok(n) =>
        Names.UpdateKeepsUnique(tags.rows, id, name, Names.TagMessages);
        RenameKeeps(categories, tags, posts, postTags, clock, id, n);
        var table := Put(tags, id, n);
        tags := table;
        r := Ok(Named(id, n));
    }

    method DeleteTag(id: Id) returns (r: Outcome)
      requires Valid()
      modifies this
      ensures Valid()
      ensures categories == old(categories) && posts == old(posts) && postTags == old(postTags) && clock == old(clock)
      ensures r == if id !in old(tags.rows) then Fail(Names.TagMessages.notFound)
                   else if TagInUse(old(postTags), id) then Fail(MsgRowInUse)
                   else Pass
      ensures r.Pass? ==> tags.rows == old(tags.rows) - {id}
      ensures r.Pass? ==> tags.created == old(tags.created) - {id} && tags.nextId == old(tags.nextId)
      ensures r.Fail? ==> tags == old(tags)
    {
      InUseExists(categories.rows, tags.rows, posts.rows, postTags, id);
      if TagInUse(postTags, id) {
        // the foreign key of `post_tags.tag_id` refuses the DELETE
        r := Fail(MsgRowInUse);
      } else {
        var (t, affected) := Delete(tags, id);
        DropNameKeeps(categories, tags, posts, postTags, clock, id);
        tags := t;
        if affected == 0 {
          r := Fail(Names.TagMessages.notFound);
        } else {
          r := Pass;
        }
      }
    }

    // ---- PostService ----

    method CreatePost(input: CreateInput) returns (r: Result<Post>)
      requires Valid() && Bindable(input.title, input.content, input.status, input.categoryId)
      modifies this
      ensures Valid()
      ensures categories == old(categories) && tags == old(tags)
      ensures match CheckReferences(input.categoryId, input.tagIds, old(categories.rows.Keys), old(tags.rows.Keys))
        case Err(m) => r == Err(m) && posts == old(posts) && postTags == old(postTags) && clock == old(clock)
        case Ok(linked) =>
          && r == Ok(Post(old(posts.nextId), NewRow(input), Elems(input.tagIds)))
          && old(posts.nextId) !in old(posts.rows)
          && posts.rows == old(posts.rows)[old(posts.nextId) := NewRow(input)]
          && posts.nextId == old(posts.nextId) + 1
          && posts.created == old(posts.created)[old(posts.nextId) := old(clock)] && clock == old(clock) + 1
          && postTags == old(postTags) + (set t | t in linked :: (old(posts.nextId), t))
          && TagsOf(postTags, old(posts.nextId)) == Elems(input.tagIds)
    {
      match CheckReferences(input.categoryId, input.tagIds, categories.rows.Keys, tags.rows.Keys)
      case Err(m) =>
        r := Err(m);
      case Ok(linked) =>
        var id := posts.nextId;
        forall l | l in postTags ensures l.0 != id {
          assert l.0 in posts.rows;
        }
        InsertLinks(postTags, id, linked);
        var table := Insert(posts, NewRow(input), clock);
        var links := ReplaceTags(postTags, id, linked);
        NewPostKeeps(categories, tags, posts, postTags, clock, NewRow(input), linked);
        posts, postTags, clock := table, links, clock + 1;
        r := Ok(View(posts, postTags, id));
    }

    method ListPosts(page: int, pageSize: int) returns (r: ListResponse)
      requires Valid() && PageArgs(page, pageSize)
      ensures r == PostListing(posts, postTags, page, pageSize)
      ensures forall k :: 0 <= k < |r.posts| ==> r.posts[k].tagIds <= tags.rows.Keys
    {
      r := PostListing(posts, postTags, page, pageSize);
      forall k | 0 <= k < |r.posts| ensures r.posts[k].tagIds <= tags.rows.Keys {
        LiveReferences(categories.rows, tags.rows, posts.rows, postTags, r.posts[k].id);
      }
    }

    /** The post comes back with live tags only: the foreign keys keep a
        tag in use from being deleted. */
    method GetPost(id: Id) returns (r: Result<Post>)
      requires Valid()
      ensures r == FindPost(posts, postTags, id)
      ensures r.Ok? ==> r.value.tagIds <= tags.rows.Keys && r.value.row.categoryId in categories.rows
    {
      r := FindPost(posts, postTags, id);
      if r.Ok? {
        LiveReferences(categories.rows, tags.rows, posts.rows, postTags, id);
      }
    }

    method UpdatePost(input: UpdateInput) returns (r: Result<Post>)
      requires Valid() && Bindable(input.title, input.content, input.status, input.categoryId)
      modifies this
      ensures Valid()
      ensures categories == old(categories) && tags == old(tags) && clock == old(clock)
      ensures posts.nextId == old(posts.nextId) && posts.created == old(posts.created)
      ensures match Posts.CheckUpdate(input, old(posts.rows.Keys), old(categories.rows.Keys), old(tags.rows.Keys))
        case Err(m) => r == Err(m) && posts == old(posts) && postTags == old(postTags)
        case Ok(linked) =>
          && input.id in old(posts.rows)
          && var row := UpdatedRow(old(posts.rows)[input.id], input);
          && r == Ok(Post(input.id, row, Elems(input.tagIds)))
          && posts.rows == old(posts.rows)[input.id := row]
          && postTags == ReplaceTags(old(postTags), input.id, linked)
    {
      match Posts.CheckUpdate(input, posts.rows.Keys, categories.rows.Keys, tags.rows.Keys)
      case Err(m) =>
        r := Err(m);
      case Ok(linked) =>
        var row := UpdatedRow(posts.rows[input.id], input);
        var table := Put(posts, input.id, row);
        var links := ReplaceTags(postTags, input.id, linked);
        SavePostKeeps(categories, tags, posts, postTags, clock, input.id, row, linked);
        r := Ok(View(table, links, input.id));
        posts, postTags := table, links;
    }

    method DeletePost(id: Id) returns (r: Outcome)
      requires Valid()
      modifies this
      ensures Valid()
      ensures categories == old(categories) && tags == old(tags) && clock == old(clock)
      ensures r == if id in old(posts.rows) then Pass else Fail(MsgPostNotFound)
      ensures r.Fail? ==> posts == old(posts) && postTags == old(postTags)
      ensures r.Pass? ==> posts.rows == old(posts.rows) - {id} && postTags == ClearTags(old(postTags), id)
      ensures r.Pass? ==> posts.created == old(posts.created) - {id} && posts.nextId == old(posts.nextId)
    {
      if id !in posts.rows {
        r := Fail(MsgPostNotFound);
      } else {
        var links := ClearTags(postTags, id);
        var (t, _) := Delete(posts, id);
        DropPostKeeps(categories, tags, posts, postTags, clock, id);
        posts, postTags := t, links;
        r := Pass;
      }
    }
  }
}
