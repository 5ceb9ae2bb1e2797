/** The identity service (internal/service/user_service.go): sign-up and
    log-in over the `users` table. bcrypt is a parameter, a `Hasher`; its
    random salt is a parameter of the call. The table is kept in primary-key
    order, so GORM's `First` is the first match. */
module Identity {
  import opened Outcomes
  import opened Text
  import Tokens

  const MsgBadLength := "用户名长度不能少于4位，密码长度不能少于6位"
  const MsgUsernameTaken := "用户名已存在"
  const MsgBadCredentials := "用户名或密码错误"

  /** Stands for MySQL's error 1062, which an insert that collides with a
      unique index returns (this is its prefix; MySQL appends the duplicated
      value and the key name). */
  const MsgDuplicateEntry := "Error 1062 (23000): Duplicate entry"

  /** `role` has the column default 1 (an ordinary user). */
  const DefaultRole := 1

  /** A row of `users`. `email` is `None` for a NULL column. */
  datatype User = User(
    id: nat,
    username: string,
    passwordHash: string,
    nickname: string,
    email: Option<string>,
    role: int)

  /** bcrypt: `hash(password, salt)` may fail; `matches(hash, password)` is
      CompareHashAndPassword succeeding. */
  datatype Hasher = Hasher(hash: (string, nat) -> Result<string>, matches: (string, string) -> bool)

  /** A hash bcrypt made from a password matches that password. */
  ghost predicate Sound(h: Hasher) {
    forall p: string, salt: nat {:trigger h.hash(p, salt)} ::
      h.hash(p, salt).Ok? ==> h.matches(h.hash(p, salt).value, p)
  }

  /** The unique indexes of `users`: on `username`, and on `email` where it
      is not NULL (MySQL lets any number of NULLs through). */
  ghost predicate UniqueColumns(users: seq<User>) {
    forall i, j :: 0 <= i < j < |users| ==>
      && users[i].username != users[j].username
      && (users[i].email.Some? ==> users[i].email != users[j].email)
  }

  /** The table in primary-key order: row `k` has id `k + 1`. */
  ghost predicate ValidTable(users: seq<User>) {
    && (forall k :: 0 <= k < |users| ==> users[k].id == k + 1)
    && UniqueColumns(users)
  }

  /** `INSERT INTO users`: refused by MySQL when a unique index would see a
      value twice. */
  function InsertUser(users: seq<User>, u: User): (r: Result<seq<User>>)
    ensures r.Ok? <==> forall k :: 0 <= k < |users| ==>
                          users[k].username != u.username && (u.email.Some? ==> users[k].email != u.email)
    ensures r.Ok? ==> r.value == users + [u]
    ensures r.Err? ==> r.msg == MsgDuplicateEntry
    ensures r.Ok? && UniqueColumns(users) ==> UniqueColumns(r.value)
  {
    if forall k :: 0 <= k < |users| ==>
         users[k].username != u.username && (u.email.Some? ==> users[k].email != u.email)
    then Ok(users + [u])
    else Err(MsgDuplicateEntry)
  }

  /** `WHERE username = ? ... First`: the first row with that name. */
  function FindUser(users: seq<User>, username: string): (r: Option<User>)
    ensures r.None? <==> forall k :: 0 <= k < |users| ==> users[k].username != username
    ensures r.Some? ==> exists k :: 0 <= k < |users| && users[k] == r.value && r.value.username == username
  {
    if users == [] then None
    else if users[0].username == username then Some(users[0])
    else
      var r := FindUser(users[1..], username);
      assert r.Some? ==> exists k :: 0 <= k < |users[1..]| && users[1..][k] == r.value;
      assert forall k :: 0 < k < |users| ==> users[k] == users[1..][k - 1];
      r
  }

  /** With unique user names, the row found is the one with that name. */
  lemma {:induction false} FindUserUnique(users: seq<User>, k: nat)
    requires UniqueColumns(users) && k < |users|
    ensures FindUser(users, users[k].username) == Some(users[k])
  {
    if k > 0 {
      assert users[0].username != users[k].username;
      var tail := users[1..];
      assert UniqueColumns(tail) by {
        forall i, j | 0 <= i < j < |tail| ensures tail[i].username != tail[j].username {
          assert tail[i] == users[i + 1] && tail[j] == users[j + 1];
        }
      }
      assert tail[k - 1] == users[k];
      FindUserUnique(tail, k - 1);
    }
  }

  /** The record SignUp creates: name and hash set, every other field left
      at its Go zero value, so `email` is the empty string, not NULL; `role`
      takes the column default since GORM leaves a zero field with a default
      out of the INSERT. */
  function NewUserAsWritten(id: nat, username: string, hash: string): (u: User)
    ensures u.email == Some("") && u.role == DefaultRole
    ensures u.id == id && u.username == username && u.passwordHash == hash
  {
    User(id, username, hash, "", Some(""), DefaultRole)
  }

  /** The record as intended: no email given, so the column is NULL. */
  function NewUser(id: nat, username: string, hash: string): (u: User)
    ensures u.email.None? && u.role == DefaultRole
    ensures u.id == id && u.username == username && u.passwordHash == hash
  {
    User(id, username, hash, "", None, DefaultRole)
  }

  /** With NULL emails, the insert fails only on a taken user name, which
      SignUp has already ruled out. */
  lemma NewUserInserts(users: seq<User>, username: string, hash: string)
    requires ValidTable(users) && FindUser(users, username).None?
    ensures InsertUser(users, NewUser(|users| + 1, username, hash)) == Ok(users + [NewUser(|users| + 1, username, hash)])
    ensures ValidTable(users + [NewUser(|users| + 1, username, hash)])
  {
  }

  /** SignUp's checks and write, over the table before the call. */
  function SignUpResult(users: seq<User>, username: string, password: string, h: Hasher, salt: nat): (r: Result<seq<User>>)
    requires ValidTable(users)
    ensures r.Ok? ==> ValidTable(r.value)
    ensures (ByteLen(username) < 4 || ByteLen(password) < 6) ==> r == Err(MsgBadLength)
    ensures r.Ok? <==> && ByteLen(username) >= 4 && ByteLen(password) >= 6
                       && FindUser(users, username).None?
                       && h.hash(password, salt).Ok?
    ensures r.Ok? ==> r.value == users + [NewUser(|users| + 1, username, h.hash(password, salt).value)]
    ensures ByteLen(username) >= 4 && ByteLen(password) >= 6 && FindUser(users, username).Some? ==>
              r == Err(MsgUsernameTaken)
  {
    if ByteLen(username) < 4 || ByteLen(password) < 6 then Err(MsgBadLength)
    else if FindUser(users, username).Some? then Err(MsgUsernameTaken)
    else match h.hash(password, salt)
      case Err(m) => Err(m)
      case Ok(hash) =>
        NewUserInserts(users, username, hash);
        InsertUser(users, NewUser(|users| + 1, username, hash))
  }

  /** SignUp as written: the same checks, then the insert of the record
      with the empty-string email, which MySQL refuses once any row holds
      that email. */
  function SignUpAsWritten(users: seq<User>, username: string, password: string, h: Hasher, salt: nat): (r: Result<seq<User>>)
    requires ValidTable(users)
    ensures r.Ok? ==> ValidTable(r.value)
    ensures (ByteLen(username) < 4 || ByteLen(password) < 6) ==> r == Err(MsgBadLength)
    ensures r.Ok? <==> && ByteLen(username) >= 4 && ByteLen(password) >= 6
                       && FindUser(users, username).None?
                       && h.hash(password, salt).Ok?
                       && forall k :: 0 <= k < |users| ==> users[k].email != Some("")
    ensures r.Ok? ==> r.value == users + [NewUserAsWritten(|users| + 1, username, h.hash(password, salt).value)]
    ensures ByteLen(username) >= 4 && ByteLen(password) >= 6 && FindUser(users, username).Some? ==>
              r == Err(MsgUsernameTaken)
    ensures && ByteLen(username) >= 4 && ByteLen(password) >= 6
            && FindUser(users, username).None? && h.hash(password, salt).Ok?
            && (exists k :: 0 <= k < |users| && users[k].email == Some("")) ==>
              r == Err(MsgDuplicateEntry)
  {
    if ByteLen(username) < 4 || ByteLen(password) < 6 then Err(MsgBadLength)
    else if FindUser(users, username).Some? then Err(MsgUsernameTaken)
    else match h.hash(password, salt)
      case Err(m) => Err(m)
      case Ok(hash) =>
        var r := InsertUser(users, NewUserAsWritten(|users| + 1, username, hash));
        assert r.Ok? ==> forall k :: 0 <= k < |r.value| ==> r.value[k].id == k + 1;
        r
  }

  /** As written, the first account gets in and the second is refused with
      the duplicate-entry error whatever its name, because both records
      carry the empty email. */
  lemma SecondSignUpRefusedAsWritten(first: string, second: string, p1: string, p2: string,
                                     h: Hasher, salt1: nat, salt2: nat)
    requires first != second
    requires ByteLen(first) >= 4 && ByteLen(second) >= 4 && ByteLen(p1) >= 6 && ByteLen(p2) >= 6
    requires h.hash(p1, salt1).Ok? && h.hash(p2, salt2).Ok?
    ensures SignUpAsWritten([], first, p1, h, salt1).Ok?
    ensures SignUpAsWritten(SignUpAsWritten([], first, p1, h, salt1).value, second, p2, h, salt2)
         == Err(MsgDuplicateEntry)
  {
    var after := SignUpAsWritten([], first, p1, h, salt1).value;
    assert after[0].username == first && after[0].email == Some("");
    assert FindUser(after, second).None?;
  }

  /** Login: the user by name, then the password, then a token. An unknown
      name and a wrong password give the same message. */
  function LoginResult(users: seq<User>, username: string, password: string, h: Hasher, s: Tokens.Signer, now: int): (r: Result<string>)
    ensures FindUser(users, username).None? ==> r == Err(MsgBadCredentials)
    ensures FindUser(users, username).Some? ==>
              var u := FindUser(users, username).value;
              r == if !h.matches(u.passwordHash, password) then Err(MsgBadCredentials)
                   else Tokens.GenerateToken(s, u.id, u.username, now)
  {
    match FindUser(users, username)
    case None => Err(MsgBadCredentials)
    case Some(u) =>
      if !h.matches(u.passwordHash, password) then Err(MsgBadCredentials)
      else Tokens.GenerateToken(s, u.id, u.username, now)
  }

  /** A user who has just signed up can log in with the same password, and
      the token names the new row. */
  lemma SignUpThenLogin(users: seq<User>, username: string, password: string, h: Hasher, salt: nat,
                        s: Tokens.Signer, now: int)
    requires ValidTable(users) && Sound(h) && SignUpResult(users, username, password, h, salt).Ok?
    ensures LoginResult(SignUpResult(users, username, password, h, salt).value, username, password, h, s, now)
         == Tokens.GenerateToken(s, |users| + 1, username, now)
  {
    var after := SignUpResult(users, username, password, h, salt).value;
    FindUserUnique(after, |users|);
    assert h.matches(h.hash(password, salt).value, password);
  }

  /** The only error besides the credentials message is a signing error
      after both checks passed: an unknown name and a wrong password cannot
      be told apart. */
  lemma LoginOtherErrorIsSigning(users: seq<User>, username: string, password: string, h: Hasher, s: Tokens.Signer, now: int)
    requires LoginResult(users, username, password, h, s, now).Err?
    requires LoginResult(users, username, password, h, s, now).msg != MsgBadCredentials
    ensures FindUser(users, username).Some?
    ensures h.matches(FindUser(users, username).value.passwordHash, password)
    ensures Tokens.GenerateToken(s, FindUser(users, username).value.id, username, now).Err?
  {
  }

  /** The `users` table of the running service. */
  class Accounts {
    var users: seq<User>

    ghost predicate Valid()
      reads this
    {
      ValidTable(users)
    }

    constructor ()
      ensures Valid() && users == []
    {
      users := [];
    }

    method SignUp(username: string, password: string, h: Hasher, salt: nat) returns (r: Outcome)
      requires Valid()
      modifies this
      ensures Valid()
      ensures match SignUpResult(old(users), username, password, h, salt)
        case Ok(after) => r == Pass && users == after
        case Err(m) => r == Fail(m) && users == old(users)
    {
      match SignUpResult(users, username, password, h, salt)
      case Ok(after) =>
        users := after;
        r := Pass;
      case Err(m) =>
        r := Fail(m);
    }

    method Login(username: string, password: string, h: Hasher, s: Tokens.Signer, now: int) returns (r: Result<string>)
      ensures r == LoginResult(users, username, password, h, s, now)
    {
      r := LoginResult(users, username, password, h, s, now);
    }
  }
}
