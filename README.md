# gopress core, modelled in Dafny

gopress is a blog backend written with Gin and GORM over MySQL. This project
models its service layer and its access gate, and proves properties about
them:

- **The content store** (`internal/service/post_service.go`,
  `category_service.go`, `tag_service.go`). It is the class `Content.Store`,
  which holds:
  - the `categories`, `tags` and `posts` tables (`Tables.Table`: rows keyed by
    an auto-increment id, each with its `created_at` stamp, plus the ids
    newest first);
  - the `post_tags` join table, as a set of (post id, tag id) pairs;
  - a clock for `created_at`.

  The store keeps the foreign keys that AutoMigrate creates by default
  (internal/dao/db.go:88-105, internal/model/post.go:16-31): a post names an
  existing category, and a `post_tags` row names an existing post and tag.

  Each service call is one method. A call either returns the service's error
  message and changes nothing, or it commits all its writes; the GORM
  transactions give the same all-or-nothing behaviour. Categories and tags
  share one set of name rules: trim, refuse empty, refuse a name already
  taken. These rules are stated once in `Names` and take each service's own
  messages. The pure checks of the post service live in `Posts`: the
  category check, the tag-count check, the tag replacement and the paging
  arithmetic.
- **The identity service** (`internal/service/user_service.go`). The model
  covers:
  - SignUp: the byte-length checks, the name lookup, the bcrypt hash, then the
    insert under the table's unique indexes.
  - Login: the lookup, the password comparison and token issuing.

  bcrypt is the parameter `Identity.Hasher`, and its salt is a call
  parameter. The JWT library bound to the server secret is the parameter
  `Tokens.Signer`. What the services rely on from each is stated as a ghost
  predicate `Sound`, which the lemmas take as a precondition.
- **The access gate** (`internal/api/middleware/auth.go`). `AuthGate.Gate` is
  a pure function from the `Authorization` header to a decision: reject (with
  the message, and whether the chain was aborted), or accept (with the
  token's claims). `AuthGate.Apply` gives that decision's effect on the Gin
  context.

The record shapes come from `internal/model/*.go`. The handler binding tags
are the preconditions the services receive:
- post title 2..255 characters, content at least 10, status 0 or 1, and a
  non-zero category;
- names 2..100 characters;
- the author id of a new post is taken from the token claims.

## Model

| member | source | states |
|---|---|---|
| Text.TrimSpace | internal/service/category_service.go:24 | `strings.TrimSpace`: the result is no longer than the name and has no white space at either end |
| Text.TrimSpaceSplits | internal/service/category_service.go:24 | `strings.TrimSpace` cuts a string into leading white space, a middle with no white space at either end, and trailing white space |
| Text.TrimSpaceOf | internal/service/category_service.go:24 | whatever white space surrounds a trimmed middle, TrimSpace returns exactly that middle |
| Text.TrimSpaceIdempotent | internal/service/category_service.go:24 | trimming twice gives the same result as trimming once, so a stored name is its own trim |
| Text.TrimSpaceEmptyIff | internal/service/category_service.go:24-27 | a name trims to "" exactly when every character is white space |
| Text.ByteLen | internal/service/user_service.go:26 | Go's `len` counts UTF-8 bytes: between 1 and 4 per character |
| Text.ByteLenAscii | internal/service/user_service.go:26 | for ASCII text the byte length equals the number of characters |
| Tables.Insert | internal/service/category_service.go:39-42 | an INSERT gives the row the next auto-increment id, which names no row yet, and stamps it with the current clock; the table stays consistent |
| Tables.InsertComesFirst | internal/service/category_service.go:56 | the row just inserted is the first one `ORDER BY created_at DESC` lists |
| Tables.Put | internal/service/category_service.go:90-91 | a `Save` of an existing row changes that row only; the ids, the stamps and the counter stay |
| Tables.Delete | internal/service/category_service.go:104-111 | a DELETE by id removes that row only, and reports 1 row affected if it existed and 0 otherwise |
| Tables.NewestFirst | internal/service/category_service.go:56 | `ORDER BY created_at DESC` lists every row once, with strictly decreasing creation stamps |
| Names.CheckCreate | internal/service/category_service.go:24-36 | Create succeeds exactly when the trimmed name is non-empty and no row has it. The stored name is the trimmed one. An empty name gives the empty-name message, checked before any lookup; a taken name gives the taken message |
| Names.CheckUpdate | internal/service/category_service.go:65-87 | the checks of Update, in order: an empty trimmed name, then a missing id, then a collision with a row other than the one renamed. Success happens exactly when all three pass |
| Names.CreateKeepsUnique | internal/service/category_service.go:33-46 | after a successful Create, no two rows share a name, and the new name is trimmed |
| Names.UpdateKeepsUnique | internal/service/category_service.go:85-95 | after a successful Update, no two rows share a name |
| Names.SelfRenameAccepted | internal/service/category_service.go:85-87 | renaming a row to its own current name (white space aside) succeeds |
| Names.SecondCreateConflicts | internal/service/category_service.go:33-36 | of two Creates with the same trimmed name, the second gets the taken message |
| Names.BlankNameRefused | internal/service/category_service.go:24-27 | every name made only of white space, whatever its length, is refused by Create and by Update with the empty-name message, whatever the table holds |
| Names.BlankNameBindable | internal/api/handler/category.go:27 | such names pass the handler binding: "  " is 2..100 characters and all white space |
| Posts.MatchCount | internal/service/post_service.go:57 | the `id IN ?` count never exceeds the length of the list, nor the number of tags |
| Posts.MatchCountIff | internal/service/post_service.go:57-60 | the `id IN ?` count equals the list length exactly when every id names a tag and no id repeats |
| Posts.CheckTags | internal/service/post_service.go:55-69 | the tag check passes exactly when the ids are distinct existing tags (always, for an empty list); the linked tags are then the set of listed ids; otherwise the invalid-tag message |
| Posts.CheckReferences | internal/service/post_service.go:49-62 | the category check comes first (invalid-category message), then the tag check |
| Posts.CheckUpdate | internal/service/post_service.go:166-188 | Update's checks: a missing post gives the not-found message before the category and tag checks |
| Posts.NewRowAsWritten | internal/service/post_service.go:38-45 | the row `tx.Create` writes: every field from the input, except that status 0 is left out of the INSERT and takes the column default 1 (internal/model/post.go:12) |
| Posts.NewRow | internal/service/post_service.go:38-45 | the intended row: every field from the input, the status included |
| Posts.DraftStoredAsPublishedAsWritten | internal/service/post_service.go:38-45 | as written, a draft is stored as published, while the intended row keeps it a draft; the two rows agree on every other field |
| Posts.UpdatedRow | internal/service/post_service.go:191-195 | Update overwrites title, content, summary, status and category, and never the author |
| Posts.ReplaceTags | internal/service/post_service.go:203 | `Association("Tags").Replace`: the post's tags become exactly the new set, and every other post's links are unchanged |
| Posts.ClearTags | internal/service/post_service.go:239 | `Association("Tags").Clear`: the post keeps no link, and the links of other posts are unchanged |
| Posts.ReplaceTagsIdempotent | internal/service/post_service.go:203 | repeating an update with the same tags leaves the join table as the first update left it |
| Posts.ReplaceTagsKeepsCommon | internal/service/post_service.go:203 | links both in the old set and in the new set are kept |
| Posts.InsertLinks | internal/service/post_service.go:68-75 | a new post's links are exactly one link per listed tag, added to the table |
| Posts.Wrap64 | internal/service/post_service.go:116 | Go's 64-bit wrap-around: the result is an int64, equal to the input modulo 2^64, and equal to the input when that already fits |
| Posts.Offset | internal/service/post_service.go:116 | `(Page - 1) * PageSize` in Go's 64-bit `int`: always an int64, and the exact product whenever the product fits |
| Posts.PageOf | internal/service/post_service.go:116-124 | `LIMIT pageSize OFFSET offset`, where GORM leaves out a zero or negative offset: at most pageSize rows, the rows from the offset on, and none when the offset is past the end |
| Posts.NoWrap | internal/service/post_service.go:116 | while `(page-1)*pageSize` fits in 64 bits, the page starts at exactly that row |
| Posts.HugePageIsFirstPage | internal/service/post_service.go:116-124 | page 2^62+1 wraps the offset to 0 (four rows a page) or to a negative value (three rows a page), and both times the first page is returned |
| Posts.PageLocates | internal/service/post_service.go:116-124 | row k (below 2^63) is item `k % pageSize` of page `k / pageSize + 1` |
| Posts.PagesArePrefix | internal/service/post_service.go:116-124 | pages 1 to n, read in turn, are the first n*pageSize rows, with none skipped or repeated, while n*pageSize fits in 64 bits |
| Content.NamedListing | internal/service/category_service.go:51-60 | List returns every row once, with its id and name, newest first |
| Content.NewestListedFirst | internal/service/category_service.go:56 | the row with the newest stamp is the first one listed |
| Content.InUseExists | internal/model/post.go:24-32 | under the foreign keys, only a category or tag that exists can be in use |
| Content.WiderKeepsReferenced | internal/model/post.go:24-32 | adding or renaming categories and tags breaks no foreign key |
| Content.UnusedRemovable | internal/service/tag_service.go:80-90 | deleting a category no post uses, or a tag no post is linked to, breaks no foreign key |
| Content.WriteKeepsReferenced | internal/service/post_service.go:49-73 | writing a post (on Create or on Update) whose category and tags exist, with exactly those links, breaks no foreign key |
| Content.RemovalKeepsReferenced | internal/service/post_service.go:237-245 | clearing a post's links and then deleting it breaks no foreign key |
| Content.LiveReferences | internal/service/post_service.go:135-145 | a stored post lists only tags that exist, and its category exists, so the reload with `Preload("Tags")` returns every linked id |
| Content.EmptyConsistent | internal/dao/db.go:88-105 | the freshly migrated, empty database satisfies the store invariant |
| Content.NewCategoryKeeps | internal/service/category_service.go:39-42 | inserting a category under a name that keeps the names unique keeps the store invariant, with the clock moved on |
| Content.NewTagKeeps | internal/service/tag_service.go:34-37 | likewise for a tag |
| Content.RenameKeeps | internal/service/tag_service.go:72-75 | renaming an existing category or tag so that names stay unique keeps the store invariant |
| Content.DropNameKeeps | internal/service/category_service.go:99-114 | deleting a category or tag that is not in use keeps the store invariant |
| Content.NewPostKeeps | internal/service/post_service.go:47-75 | inserting a post whose category and tags exist, with its links, keeps the store invariant |
| Content.SavePostKeeps | internal/service/post_service.go:190-205 | saving an existing post and replacing its links keeps the store invariant |
| Content.DropPostKeeps | internal/service/post_service.go:237-245 | deleting a post with its links keeps the store invariant |
| Content.PostListing | internal/service/post_service.go:110-131 | the post list is `PageOf` the posts newest first, each post with its own row and tags; the total counts every post on every page |
| Content.FindPost | internal/service/post_service.go:135-145 | GetByID returns the post with its tags exactly when the id exists, and the not-found message otherwise |
| Content.Store.CreateCategory | internal/service/category_service.go:22-47 | the outcome of `Names.CheckCreate`: an error changes nothing. On success one category is added, with the trimmed name, the next id and the current clock as its stamp, and the clock advances. The store invariant (unique names included) holds |
| Content.Store.ListCategories | internal/service/category_service.go:51-60 | returns `NamedListing` of the categories and changes nothing |
| Content.Store.UpdateCategory | internal/service/category_service.go:64-96 | the outcome of `Names.CheckUpdate`: on success only that category's name changes; its id, its stamp and all other tables stay |
| Content.Store.DeleteCategory | internal/service/category_service.go:99-114 | the not-found message for a missing id. A category that some post is filed under is refused with MySQL's foreign-key error. Either error changes nothing. Otherwise the category and its stamp are removed; the other stamps, the id counter, the posts and the tags stay |
| Content.Store.CreateTag | internal/service/tag_service.go:22-39 | as CreateCategory, on the tag table with the tag messages: the next id, the current stamp, the clock advanced; categories are not touched |
| Content.Store.ListTags | internal/service/tag_service.go:42-49 | returns `NamedListing` of the tags |
| Content.Store.UpdateTag | internal/service/tag_service.go:52-77 | as UpdateCategory, on the tag table with the tag messages |
| Content.Store.DeleteTag | internal/service/tag_service.go:80-90 | as DeleteCategory, on the tag table with the tag message: a tag that some post is linked to is refused with the foreign-key error; otherwise its row and stamp go and the counter stays |
| Content.Store.CreatePost | internal/service/post_service.go:32-95 | the outcome of `CheckReferences`: an error leaves posts and links unchanged. On success one post is added: the intended `NewRow` (see Findings), the next id and the current clock as its stamp. It is linked to exactly the listed tags, and the clock advances |
| Content.Store.ListPosts | internal/service/post_service.go:110-132 | returns `PostListing` of the posts and changes nothing; every listed post names only tags that exist |
| Content.Store.GetPost | internal/service/post_service.go:135-145 | returns `FindPost` and changes nothing; a post found names only tags that exist, and its category exists |
| Content.Store.UpdatePost | internal/service/post_service.go:159-221 | the outcome of `Posts.CheckUpdate`: an error leaves posts and links unchanged; on success the post's row becomes `UpdatedRow` and its links are replaced; its id, author, stamp and the other posts stay |
| Content.Store.DeletePost | internal/service/post_service.go:224-250 | for a missing id, the not-found message and no change. Otherwise the post, its stamp and all of its links are removed; the other posts keep their rows and stamps, the counter stays, and categories and tags stay |
| Tokens.GenerateToken | internal/util/jwt.go:21-46 | a token the library signed parses back, at the moment it was issued, to exactly the claims `ClaimsFor` builds |
| Tokens.ParseToken | internal/util/jwt.go:50-67 | a string the server signed from claims c is accepted with exactly c before c's expiry, and refused as expired from then on |
| Tokens.ClaimsFor | internal/util/jwt.go:23-34 | the claims carry the user id and name, the issuer "gopress", `iat` now, and `exp` seven days later |
| Tokens.TokenRoundTrip | internal/util/jwt.go:21-67 | a token the server signed parses back to its own claims exactly until `exp`, and is refused as expired from then on |
| Identity.InsertUser | internal/model/user.go:20-23 | MySQL refuses the insert with a duplicate-entry error exactly when the new user name, or a non-NULL email, is already in the table; otherwise the row is appended and the unique columns stay unique |
| Identity.FindUser | internal/service/user_service.go:36 | `WHERE username = ? First` finds nothing exactly when no row has the name; otherwise it finds a row with that name |
| Identity.FindUserUnique | internal/service/user_service.go:77 | with unique names, the row found is the row with that name |
| Identity.NewUserAsWritten | internal/service/user_service.go:56-60 | the record SignUp builds leaves the email at the Go zero value "", and role takes the column default 1 |
| Identity.SignUpAsWritten | internal/service/user_service.go:24-69 | SignUp as written: the same checks as `SignUpResult`, then the insert of `NewUserAsWritten`. It succeeds only while no row holds the empty email, and otherwise fails with the duplicate-entry error |
| Identity.SecondSignUpRefusedAsWritten | internal/service/user_service.go:24-69 | as written, on an empty table the first sign-up succeeds and a second under any other name is refused with the duplicate-entry error |
| Identity.NewUser | internal/service/user_service.go:56-60 | the intended record: only the name and the hash are set; email NULL, role 1 |
| Identity.NewUserInserts | internal/service/user_service.go:56-65 | the intended record is always accepted once the name is free, and keeps the table valid |
| Identity.SignUpResult | internal/service/user_service.go:24-69 | SignUp with the corrected record `NewUser` (see Findings): the length check first (byte lengths 4 and 6), then the taken name, then the hash. Success happens exactly when all pass, and then exactly one user with the name and the hash (never the password) is appended |
| Identity.LoginResult | internal/service/user_service.go:73-107 | an unknown name and a wrong password both give the same message; otherwise the result is the token issued for the stored user's id and name |
| Identity.SignUpThenLogin | internal/service/user_service.go:24-107 | a user who has just signed up can log in with the same password and gets the token for the new row |
| Identity.LoginOtherErrorIsSigning | internal/service/user_service.go:77-103 | Login's only other error is a token-signing error after both checks passed |
| Identity.Accounts.SignUp | internal/service/user_service.go:24-69 | the corrected SignUp: the table becomes `SignUpResult`'s table on success and is unchanged on every error |
| Identity.Accounts.Login | internal/service/user_service.go:73-107 | returns `LoginResult` and, having no `modifies` clause, never changes the users table |
| AuthGate.SplitN2 | internal/api/middleware/auth.go:28 | `strings.SplitN(h, " ", 2)`: one part when there is no space; otherwise what precedes the first space, and everything after it |
| AuthGate.SplitN2Join | internal/api/middleware/auth.go:28 | splitting undoes joining a space-free word, one space and the rest |
| AuthGate.Gate | internal/api/middleware/auth.go:20-50 | the middleware as written: it refuses without aborting exactly for the empty header; every refusal carries one of the three messages; an acceptance carries the claims the parser returned for the part after the first space |
| AuthGate.GateAcceptsIff | internal/api/middleware/auth.go:28-47 | the gate accepts exactly "Bearer " followed by a token the parser accepts, and hands on that token's claims |
| AuthGate.GateRejections | internal/api/middleware/auth.go:21-43 | the empty header gives the no-token message without abort; any other header not starting "Bearer " gives the format message with abort; a refused token gives the invalid-token message with abort, whatever the cause |
| AuthGate.SchemeIsCaseSensitive | internal/api/middleware/auth.go:28-33 | "bearer ..." and a bare "Bearer" are format errors |
| AuthGate.TokenIsRest | internal/api/middleware/auth.go:28-43 | the parser gets everything after the first space, further spaces included; "Bearer " passes the format check with the empty token |
| AuthGate.Apply | internal/api/middleware/auth.go:22-50 | a refusal appends a reply with business code 401 and aborts if the decision says so; an acceptance stores the claims under `userClaims` |
| AuthGate.EmptyHeaderReachesHandler | internal/api/middleware/auth.go:21-24 | as written, a request with no header continues to the handler with no claims in the context, after the 401 reply |
| AuthGate.GateFixed | internal/api/middleware/auth.go:20-50 | the corrected gate: every refusal aborts, and it agrees with `Gate` on every non-empty header |
| AuthGate.GateFixedGuardsHandler | internal/api/middleware/auth.go:20-50 | with the corrected gate, the handler continues exactly when claims are in the context, exactly for "Bearer " and an accepted token, and the claims are that token's |
| Flows.LoginTokenOpensGate | internal/service/user_service.go:99-103 | the token from a successful Login opens the gate for seven days with the stored user's claims, and is refused as invalid afterwards |
| Flows.SecondSignUpConflicts | internal/service/user_service.go:36-39 | a second sign-up under a name that just signed up gets the taken-name message |
| Flows.CreateThenList | internal/service/category_service.go:22-60 | a category just created is the first one List returns |
| Flows.CreatePostAsCaller | internal/api/handler/post.go:36-63 | CreatePostHandler behind the corrected gate: a refused token writes no post; a post written has the user id of the token's claims as its author |
| Flows.TechScenario | internal/service/post_service.go:32-221 | the tag table holds "go" and "rust" under two ids; a post by user 1 created with both has exactly those two tags; updating it with ["go"] keeps its id and author and leaves it exactly the "go" tag |

## Left out

- I/O, the database driver and database errors are not modelled, apart from
  "record not found", the duplicate-entry refusal and the foreign-key refusal
  of a delete. The errors left out include those returned at
  user_service.go:40-42 and 83-84, post_service.go:57-59, 64-66, 73-75,
  197-205 and 239-246, and every other `result.Error` of the two name
  Delete methods.
- The reload after a commit (post_service.go:89-92, 215-218) cannot fail in
  the model: it returns the stored row with its tag ids. The preloaded user
  and category records are not modelled.
- MySQL collation is not modelled. Names and user names are compared exactly;
  MySQL's default collation would also treat "Go" and "go" as equal.
- The foreign key from `posts.user_id` to `users` is not modelled, since the
  users live in a separate class, `Identity.Accounts`. A post's author need
  not exist, and deleting a user is not an operation of the core.
- MySQL's foreign-key error is represented by its fixed prefix
  (`Content.MsgRowInUse`), and its duplicate-entry error likewise
  (`Identity.MsgDuplicateEntry`).
- Column widths are not modelled (for example, a user name over 50 characters
  is not refused by the database).
- Concurrency and the check-then-insert races: each call is one atomic step.
- The wall clock: `created_at` is the store's counter, and token times are a
  parameter in whole seconds.
- bcrypt and the JWT library are parameters, and only what the services rely
  on from them is stated. A bcrypt failure (including an over-long password)
  is its error result. The signature check and the library's malformed or
  bad-signature refusals are not modelled beyond the parser's result.
- `List` with a page or page size below 1 relies on GORM's handling of
  negative limits and offsets. The model requires both to be at least 1 and
  at most the largest Go `int` (64 bits assumed). Within that range, the
  64-bit wrap-around of `(page - 1) * pageSize` is modelled.
- PagesArePrefix and PageLocates: stated only while the offsets fit in
  64 bits. Past that, the offset wraps (see Posts.HugePageIsFirstPage).
- SignUpResult: models the corrected record with a NULL email. The code as
  written is Identity.SignUpAsWritten (see Findings).
- Accounts.SignUp: uses the corrected SignUpResult, for the same reason.
- CreatePost: stores the status as given, which is the corrected behaviour.
  As written, a draft is stored as published (Posts.NewRowAsWritten; see
  Findings).
- Ties in `created_at` are not modelled: every write gets its own stamp.
- The Gin handlers, the router, the JSON envelope, startup, configuration,
  logging and the Vue frontend are not part of this model. Their binding tags
  appear only as preconditions. The one exception is the step of
  CreatePostHandler that takes the author from the claims
  (Flows.CreatePostAsCaller). The 401 reply is modelled by its business
  code and message.

## Findings

| source | as written | input that shows it | evidently intended | confidence | as-written member | corrected member |
|---|---|---|---|---|---|---|
| internal/api/middleware/auth.go:21-24 | an empty `Authorization` header gets the 401 reply, but the middleware returns without `c.Abort()`, so Gin continues to the protected handler, which type-asserts claims that are not there (internal/api/handler/post.go:44-45) | a create-post request with no `Authorization` header | abort as the other two refusals do | not executed | AuthGate.Gate, AuthGate.EmptyHeaderReachesHandler | AuthGate.GateFixed, AuthGate.GateFixedGuardsHandler |
| internal/service/user_service.go:56-60 | the new user's `Email` is left at "", which GORM writes as "" into the column declared `unique` (internal/model/user.go:23) | SignUp "alice"/"secret1", then SignUp "bobby"/"secret2", on an empty table: the second gets MySQL's duplicate-entry error | an account with no email stores NULL, so any number of such accounts can sign up | not executed; rests on GORM writing zero-valued fields that have no default | Identity.NewUserAsWritten, Identity.SignUpAsWritten, Identity.SecondSignUpRefusedAsWritten | Identity.NewUser, Identity.NewUserInserts, Identity.SignUpResult |
| internal/service/post_service.go:42, 73 | `Status` is copied into the new post, but the field is declared `default:1` (internal/model/post.go:12). GORM leaves a zero-valued field that has a default out of the INSERT, so status 0 takes the column default and the reloaded post is published | create a post with status 0 (the handler lets 0 through on purpose, internal/api/handler/post.go:30) | the post is stored as a draft | not executed; rests on GORM's rule for zero values of fields that have a default | Posts.NewRowAsWritten, Posts.DraftStoredAsPublishedAsWritten | Posts.NewRow, Content.Store.CreatePost |
