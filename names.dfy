/** The name rules shared by the category service and the tag service
    (internal/service/category_service.go, internal/service/tag_service.go):
    trim the name, refuse an empty result, refuse a name another row already
    has, then write. The two services differ only in their messages and in
    using separate tables, so the rules are stated once over a table of
    names and instantiated with each service's messages. */
module Names {
  import opened Outcomes
  import opened Text

  type Id = nat

  /** The messages one service returns for each failure. */
  datatype Messages = Messages(
    emptyOnCreate: string,
    emptyOnUpdate: string,
    takenOnCreate: string,
    takenOnUpdate: string,
    notFound: string)

  const CategoryMessages := Messages(
    emptyOnCreate := "分类名称不能为空",
    emptyOnUpdate := "分类名称不能为空",
    takenOnCreate := "分类名称已存在",
    takenOnUpdate := "该分类名称已存在",
    notFound := "该分类不存在")

  const TagMessages := Messages(
    emptyOnCreate := "抱歉名称不能为空",
    emptyOnUpdate := "标签名称不能为空",
    takenOnCreate := "该标签名称已存在",
    takenOnUpdate := "该标签名称已存在",
    notFound := "该标签不存在")

  /** The request binding of both handlers: `min=2,max=100` characters,
      checked on the name as sent, before any trimming. */
  predicate BindableName(name: string) {
    2 <= |name| <= 100
  }

  /** No two rows share a name. */
  ghost predicate UniqueNames(rows: map<Id, string>) {
    forall a, b :: a in rows && b in rows && a != b ==> rows[a] != rows[b]
  }

  /** The checks of Create: the trimmed name to store, or why not. */
  function CheckCreate(rows: map<Id, string>, name: string, msgs: Messages): (r: Result<string>)
    ensures r.Ok? <==> TrimSpace(name) != "" && forall id :: id in rows ==> rows[id] != TrimSpace(name)
    ensures r.Ok? ==> r.value == TrimSpace(name)
    ensures r.Err? ==> r.msg == (if TrimSpace(name) == "" then msgs.emptyOnCreate else msgs.takenOnCreate)
  {
    var trimmed := TrimSpace(name);
    if trimmed == "" then Err(msgs.emptyOnCreate)
    else if exists other :: other in rows && rows[other] == trimmed then Err(msgs.takenOnCreate)
    else Ok(trimmed)
  }

  /** The checks of Update, in the source's order: empty name, missing row,
      then a collision with a row other than the one being renamed. */
  function CheckUpdate(rows: map<Id, string>, id: Id, name: string, msgs: Messages): (r: Result<string>)
    ensures r.Ok? <==>
      && TrimSpace(name) != ""
      && id in rows
      && forall other :: other in rows && other != id ==> rows[other] != TrimSpace(name)
    ensures r.Ok? ==> r.value == TrimSpace(name)
    ensures r.Err? ==>
              r.msg == (if TrimSpace(name) == "" then msgs.emptyOnUpdate
                        else if id !in rows then msgs.notFound
                        else msgs.takenOnUpdate)
  {
    var trimmed := TrimSpace(name);
    if trimmed == "" then Err(msgs.emptyOnUpdate)
    else if id !in rows then Err(msgs.notFound)
    else if exists other :: other in rows && other != id && rows[other] == trimmed then Err(msgs.takenOnUpdate)
    else Ok(trimmed)
  }

  /** A successful Create keeps names unique, and the stored name is trimmed. */
  lemma CreateKeepsUnique(rows: map<Id, string>, newId: Id, name: string, msgs: Messages)
    requires UniqueNames(rows) && newId !in rows
    requires CheckCreate(rows, name, msgs).Ok?
    ensures UniqueNames(rows[newId := CheckCreate(rows, name, msgs).value])
    ensures TrimSpace(CheckCreate(rows, name, msgs).value) == CheckCreate(rows, name, msgs).value
  {
    TrimSpaceIdempotent(name);
  }

  /** A successful Update keeps names unique. */
  lemma UpdateKeepsUnique(rows: map<Id, string>, id: Id, name: string, msgs: Messages)
    requires UniqueNames(rows)
    requires CheckUpdate(rows, id, name, msgs).Ok?
    ensures UniqueNames(rows[id := CheckUpdate(rows, id, name, msgs).value])
  {
  }

  /** Renaming a row to its own current name (give or take surrounding white
      space) is accepted: the collision check leaves the row itself out. */
  lemma SelfRenameAccepted(rows: map<Id, string>, id: Id, name: string, msgs: Messages)
    requires UniqueNames(rows) && id in rows
    requires rows[id] != "" && TrimSpace(name) == rows[id]
    ensures CheckUpdate(rows, id, name, msgs) == Ok(rows[id])
  {
  }

  /** Of two creations with the same trimmed name, the second conflicts:
      once the first has been stored, the same name is refused. */
  lemma SecondCreateConflicts(rows: map<Id, string>, newId: Id, first: string, second: string, msgs: Messages)
    requires CheckCreate(rows, first, msgs).Ok?
    requires TrimSpace(second) == TrimSpace(first)
    ensures CheckCreate(rows[newId := TrimSpace(first)], second, msgs) == Err(msgs.takenOnCreate)
  {
    assert rows[newId := TrimSpace(first)][newId] == TrimSpace(second);
  }

  /** A name made only of white space, however long, is refused by Create
      and by Update with the empty-name message, whatever the table holds. */
  lemma BlankNameRefused(rows: map<Id, string>, id: Id, name: string, msgs: Messages)
    requires AllSpace(name)
    ensures CheckCreate(rows, name, msgs) == Err(msgs.emptyOnCreate)
    ensures CheckUpdate(rows, id, name, msgs) == Err(msgs.emptyOnUpdate)
  {
    TrimSpaceEmptyIff(name);
  }

  /** Such names get past the handler's length binding: two spaces are a
      bindable name, and a blank one. */
  lemma BlankNameBindable()
    ensures BindableName("  ") && AllSpace("  ")
  {
  }
}
