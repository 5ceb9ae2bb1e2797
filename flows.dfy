/** Properties that cross components: a token from Login opening the gate,
    the user id reaching a new post from the claims, and the blog scenario
    of a category, two tags and one post whose tags are then narrowed. */
module Flows {
  import opened Outcomes
  import opened Seqs
  import Text
  import Tokens
  import Identity
  import AuthGate
  import Names
  import Posts
  import Content

  /** The token a successful Login returns opens the (corrected) gate for
      seven days, with the claims of the stored user, and is refused as an
      invalid token from then on. */
  lemma LoginTokenOpensGate(users: seq<Identity.User>, username: string, password: string,
                            h: Identity.Hasher, s: Tokens.Signer, issued: int, now: int)
    requires Tokens.Sound(s) && Identity.LoginResult(users, username, password, h, s, issued).Ok?
    ensures Identity.FindUser(users, username).Some?
    ensures var d := AuthGate.GateFixed("Bearer " + Identity.LoginResult(users, username, password, h, s, issued).value, s, now);
      && (d.Accept? <==> now < issued + Tokens.Lifetime)
      && (d.Accept? ==> d.claims == Tokens.ClaimsFor(Identity.FindUser(users, username).value.id, username, issued))
      && (d.Reject? ==> d == AuthGate.Reject(AuthGate.MsgInvalidToken, true))
  {
    var u := Identity.FindUser(users, username).value;
    var token := Identity.LoginResult(users, username, password, h, s, issued).value;
    Tokens.TokenRoundTrip(s, u.id, u.username, issued, now);
    var header := "Bearer " + token;
    assert header[..7] == "Bearer " && header[7..] == token;
    AuthGate.GateAcceptsIff(header, s, now);
    AuthGate.GateRejections(header, s, now);
  }

  /** A second sign-up with a name that already signed up is refused and
      changes nothing; only the first of the two succeeds. */
  lemma SecondSignUpConflicts(users: seq<Identity.User>, username: string, p1: string, p2: string,
                              h: Identity.Hasher, salt1: nat, salt2: nat)
    requires Identity.ValidTable(users) && Identity.SignUpResult(users, username, p1, h, salt1).Ok?
    requires Text.ByteLen(p2) >= 6
    ensures Identity.SignUpResult(Identity.SignUpResult(users, username, p1, h, salt1).value, username, p2, h, salt2)
         == Err(Identity.MsgUsernameTaken)
  {
    var after := Identity.SignUpResult(users, username, p1, h, salt1).value;
    Identity.FindUserUnique(after, |users|);
  }

  /** A name with no white space at either end is stored as given. */
  lemma TrimKeeps(m: string)
    requires Text.Trimmed(m)
    ensures Text.TrimSpace(m) == m
  {
    Text.TrimSpaceOf("", m, "");
    assert "" + m + "" == m;
  }

  /** A category just created is the first one List returns: its stamp is
      newer than every other row's. */
  method CreateThenList(store: Content.Store, name: string) returns (r: Result<Content.Named>, listing: seq<Content.Named>)
    requires store.Valid() && Names.BindableName(name)
    modifies store
    ensures store.Valid()
    ensures listing == Content.NamedListing(store.categories)
    ensures r.Ok? ==> |listing| > 0 && listing[0] == r.value
  {
    ghost var before := store.categories.created;
    ghost var clock := store.clock;
    ghost var id := store.categories.nextId;
    r := store.CreateCategory(name);
    if r.Ok? {
      var t := store.categories;
      assert t.created == before[id := clock] && r.value == Content.Named(id, t.rows[id]);
      forall other | other in t.created && other != id ensures t.created[other] < t.created[id] {
        assert other in before;
      }
      Content.NewestListedFirst(t, id);
    }
    listing := store.ListCategories();
  }

  /** CreatePostHandler behind the corrected gate: the post's author is the
      user id of the claims the token carries, and a refused token writes no
      post. (Behind the gate as written, an empty header lets the handler
      run with no claims at all, and its type assertion on them panics.) */
  method CreatePostAsCaller(store: Content.Store, header: string, s: Tokens.Signer, now: int,
                            title: string, content: string, summary: string, status: int,
                            categoryId: Posts.Id, tagIds: seq<Posts.Id>)
    returns (d: AuthGate.Decision, r: Result<Posts.Post>)
    requires store.Valid() && Posts.Bindable(title, content, status, categoryId)
    modifies store
    ensures store.Valid()
    ensures d == AuthGate.GateFixed(header, s, now)
    ensures d.Reject? ==> r == Err(d.message) && store.posts == old(store.posts) && store.postTags == old(store.postTags)
    ensures r.Ok? ==> d.Accept? && r.value.row.userId == d.claims.userId
    ensures r.Ok? ==> r.value.id in store.posts.rows && store.posts.rows[r.value.id].userId == d.claims.userId
  {
    d := AuthGate.GateFixed(header, s, now);
    if d.Reject? {
      r := Err(d.message);
    } else {
      var input := Posts.CreateInput(title, content, summary, status, d.claims.userId, categoryId, tagIds);
      r := store.CreatePost(input);
    }
  }

  /** A new store holding the one category "Tech". */
  method NewTechStore() returns (store: Content.Store, tech: Posts.Id)
    ensures fresh(store) && store.Valid()
    ensures store.categories.rows == map[tech := "Tech"] && store.tags.rows == map[]
  {
    store := new Content.Store();
    TrimKeeps("Tech");
    var c := store.CreateCategory("Tech");
    tech := c.value.id;
  }

  /** Tags "go" and "rust" added to a store with no tags. */
  method AddGoAndRust(store: Content.Store) returns (go: Posts.Id, rust: Posts.Id)
    requires store.Valid() && store.tags.rows == map[]
    modifies store
    ensures store.Valid() && store.categories == old(store.categories)
    ensures store.tags.rows == map[go := "go", rust := "rust"] && go != rust
  {
    TrimKeeps("go");
    TrimKeeps("rust");
    assert Names.CheckCreate(store.tags.rows, "go", Names.TagMessages) == Ok("go");
    var g := store.CreateTag("go");
    go := g.value.id;
    assert store.tags.rows == map[go := "go"];
    assert Names.CheckCreate(store.tags.rows, "rust", Names.TagMessages) == Ok("rust");
    var r := store.CreateTag("rust");
    rust := r.value.id;
  }

  lemma PairCard(a: Posts.Id, b: Posts.Id)
    requires a != b
    ensures |{a, b}| == 2
  {
  }

  /** A post by user 1 tagged "go" and "rust". */
  method PostWithBoth(store: Content.Store, tech: Posts.Id, go: Posts.Id, rust: Posts.Id)
    returns (created: Result<Posts.Post>)
    requires store.Valid() && tech in store.categories.rows
    requires go in store.tags.rows && rust in store.tags.rows && go != rust
    modifies store
    ensures store.Valid() && store.categories == old(store.categories) && store.tags == old(store.tags)
    ensures created.Ok? && created.value.row.userId == 1 && created.value.tagIds == {go, rust}
    ensures |created.value.tagIds| == 2
    ensures created.value.id in store.posts.rows && store.posts.rows[created.value.id].userId == 1
  {
    var both := [go, rust];
    assert Distinct(both) && Elems(both) == {go, rust};
    PairCard(go, rust);
    var input := Posts.CreateInput("Hi", "0123456789", "", 1, 1, tech, both);
    assert Posts.CheckReferences(tech, both, store.categories.rows.Keys, store.tags.rows.Keys) == Ok({go, rust});
    created := store.CreatePost(input);
  }

  /** The same post updated with the tag list ["go"]: its tags become
      exactly {go} and its author stays. */
  method NarrowToGo(store: Content.Store, id: Posts.Id, tech: Posts.Id, go: Posts.Id)
    returns (updated: Result<Posts.Post>)
    requires store.Valid() && tech in store.categories.rows && go in store.tags.rows
    requires id in store.posts.rows && store.posts.rows[id].userId == 1
    modifies store
    ensures store.tags == old(store.tags)
    ensures updated.Ok? && updated.value.id == id && updated.value.row.userId == 1
    ensures updated.value.tagIds == {go} && |updated.value.tagIds| == 1
  {
    var one := [go];
    assert Distinct(one) && Elems(one) == {go};
    var input := Posts.UpdateInput(id, "Hi", "0123456789", "", 1, tech, one);
    assert Posts.CheckUpdate(input, store.posts.rows.Keys, store.categories.rows.Keys, store.tags.rows.Keys) == Ok({go});
    assert Posts.UpdatedRow(store.posts.rows[id], input).userId == 1;
    updated := store.UpdatePost(input);
  }

  /** The blog scenario: category "Tech", tags "go" and "rust", a post by
      user 1 with both tags, then the same post updated to "go" only. */
  method TechScenario() returns (store: Content.Store, go: Posts.Id, rust: Posts.Id,
                                 created: Result<Posts.Post>, updated: Result<Posts.Post>)
    ensures store.tags.rows == map[go := "go", rust := "rust"] && go != rust
    ensures created.Ok? && created.value.row.userId == 1
    ensures created.value.tagIds == {go, rust} && |created.value.tagIds| == 2
    ensures updated.Ok? && updated.value.id == created.value.id && updated.value.row.userId == 1
    ensures updated.value.tagIds == {go} && |updated.value.tagIds| == 1
  {
    var tech;
    store, tech := NewTechStore();
    go, rust := AddGoAndRust(store);
    created := PostWithBoth(store, tech, go, rust);
    updated := NarrowToGo(store, created.value.id, tech, go);
  }
}
