/** Accounts: the users table as a plain map from user name, whatever the case of its letters, to password, over every
    run of registrations, logins, password changes, resets and changes of status. */
module Accounts {
  import opened Search
  import opened Messages
  import opened Passwords

  type Id = string

  datatype Status = Pending | Active | Blocked | Disabled | Deleted

  datatype User = User(id: Id, username: string, email: string, passwordHash: string, answerHash: string,
      status: Status)

  /** COLLATE NOCASE folds the ASCII letters only. */
  function FoldChar(c: char): char {
    if 'A' <= c <= 'Z' then (c as int + 32) as char else c
  }

  function Fold(s: string): (t: string)
    ensures |t| == |s| && forall i :: 0 <= i < |s| ==> t[i] == FoldChar(s[i])
  {
    if s == "" then "" else [FoldChar(s[0])] + Fold(s[1..])
  }

  /** The upper and the lower case of one ASCII letter, or the same character. */
  predicate SameLetter(x: char, y: char) {
    || x == y
    || ('A' <= x <= 'Z' && 'a' <= y <= 'z' && x as int - 'A' as int == y as int - 'a' as int)
    || ('A' <= y <= 'Z' && 'a' <= x <= 'z' && y as int - 'A' as int == x as int - 'a' as int)
  }

  /** Equal but for the case of ASCII letters. */
  predicate SameName(s: string, t: string) {
    |s| == |t| && forall i :: 0 <= i < |s| ==> SameLetter(s[i], t[i])
  }

  lemma FoldIgnoresCase(s: string, t: string)
    ensures Fold(s) == Fold(t) <==> SameName(s, t)
  {
    assert forall x: char, y: char :: FoldChar(x) == FoldChar(y) <==> SameLetter(x, y);
    if Fold(s) == Fold(t) {
      forall i | 0 <= i < |s| ensures SameLetter(s[i], t[i]) {
        assert FoldChar(s[i]) == Fold(s)[i] == Fold(t)[i] == FoldChar(t[i]);
      }
    }
    if SameName(s, t) {
      forall i | 0 <= i < |s| ensures Fold(s)[i] == Fold(t)[i] {
        assert SameLetter(s[i], t[i]);
      }
    }
  }

  function ByKey(users: seq<User>, key: string): (i: nat)
    ensures i <= |users|
    ensures i < |users| ==> Fold(users[i].username) == key
    ensures forall j :: 0 <= j < i ==> Fold(users[j].username) != key
  {
    FirstIndex(users, (user: User) => Fold(user.username) == key)
  }

  function ByName(users: seq<User>, name: string): nat {
    ByKey(users, Fold(name))
  }

  function ById(users: seq<User>, id: Id): (i: nat)
    ensures i <= |users|
    ensures i < |users| ==> users[i].id == id
    ensures forall j :: 0 <= j < i ==> users[j].id != id
  {
    FirstIndex(users, (user: User) => user.id == id)
  }

  function ByEmail(users: seq<User>, email: string): (i: nat)
    ensures i <= |users|
    ensures i < |users| ==> users[i].email == email
    ensures forall j :: 0 <= j < i ==> users[j].email != email
  {
    FirstIndex(users, (user: User) => user.email == email)
  }

  // ---------- The service on the table ----------

  datatype Op =
    | Register(id: Id, newId: Id, username: string, email: string, password: string, answer: string,
               passwordSalt: string, answerSalt: string)
    | Login(username: string, password: string)
    | ChangePassword(id: Id, oldPassword: string, newPassword: string, salt: string)
    | ResetPassword(username: string, answer: string, newPassword: string, salt: string)
    | SetStatus(id: Id, status: Status)

  function NewUser(c: Crypto, op: Op): User
    requires op.Register?
  {
    User(if op.id == "" then op.newId else op.id, op.username, op.email, Hash(c, op.passwordSalt, op.password),
         Hash(c, op.answerSalt, c.normal(op.answer)), Active)
  }

  /** The table after an operation, or None if it reports failure. */
  function Try(c: Crypto, users: seq<User>, op: Op): Option<seq<User>> {
    match op
    case Register(_, _, username, email, password, answer, _, _) =>
      var user := NewUser(c, op);
      if password == "" || answer == "" || ByName(users, username) < |users| then None
      else if ById(users, user.id) < |users| || ByEmail(users, email) < |users| then None
      else Some(users + [user])
    case Login(username, password) =>
      var i := ByName(users, username);
      if username == "" || password == "" || i == |users| then None
      else if users[i].status.Blocked? || users[i].status.Disabled? || users[i].status.Deleted? then None
      else if Verify(c, password, users[i].passwordHash) then Some(users) else None
    case ChangePassword(id, oldPassword, newPassword, salt) =>
      var i := ById(users, id);
      if id == "" || oldPassword == "" || newPassword == "" || i == |users| then None
      else if Verify(c, oldPassword, users[i].passwordHash)
      then Some(users[i := users[i].(passwordHash := Hash(c, salt, newPassword))]) else None
    case ResetPassword(username, answer, newPassword, salt) =>
      var i := ByName(users, username);
      if username == "" || answer == "" || newPassword == "" || i == |users| then None
      else if Verify(c, c.normal(answer), users[i].answerHash) then
        var k := ById(users, users[i].id);
        Some(users[k := users[k].(passwordHash := Hash(c, salt, newPassword))])
      else None
    case SetStatus(id, status) =>
      var i := ById(users, id);
      if i == |users| then Some(users) else Some(users[i := users[i].(status := status)])
  }

  function After(c: Crypto, users: seq<User>, op: Op): seq<User> {
    if Try(c, users, op).Some? then Try(c, users, op).value else users
  }

  function Run(c: Crypto, ops: seq<Op>): seq<User> {
    if ops == [] then [] else After(c, Run(c, ops[..|ops| - 1]), ops[|ops| - 1])
  }

  /** Salts come from the alphabet, which has no separator. */
  predicate Salted(op: Op) {
    match op
    case Register(_, _, _, _, _, _, passwordSalt, answerSalt) => '$' !in passwordSalt && '$' !in answerSalt
    case ChangePassword(_, _, _, salt) => '$' !in salt
    case ResetPassword(_, _, _, salt) => '$' !in salt
    case Login(_, _) => true
    case SetStatus(_, _) => true
  }

  // ---------- The same as a map from folded name to password ----------

  datatype Account = Account(id: Id, email: string, password: string, answer: string, status: Status)

  type Book = map<string, Account>

  ghost predicate Succeeds(c: Crypto, book: Book, op: Op) {
    match op
    case Register(id, newId, username, email, password, answer, _, _) =>
      && password != "" && answer != "" && Fold(username) !in book
      && forall key :: key in book ==> book[key].id != (if id == "" then newId else id) && book[key].email != email
    case Login(username, password) =>
      && username != "" && password != "" && Fold(username) in book
      && book[Fold(username)].password == password
      && (book[Fold(username)].status == Pending || book[Fold(username)].status == Active)
    case ChangePassword(id, oldPassword, newPassword, _) =>
      && id != "" && oldPassword != "" && newPassword != ""
      && exists key :: key in book && book[key].id == id && book[key].password == oldPassword
    case ResetPassword(username, answer, newPassword, _) =>
      && username != "" && answer != "" && newPassword != "" && Fold(username) in book
      && book[Fold(username)].answer == c.normal(answer)
    case SetStatus(_, _) => true
  }

  ghost function Next(c: Crypto, book: Book, op: Op): Book {
    if !Succeeds(c, book, op) then book else
      match op
      case Register(id, newId, username, email, password, answer, _, _) =>
        book[Fold(username) := Account(if id == "" then newId else id, email, password, c.normal(answer), Active)]
      case Login(_, _) => book
      case ChangePassword(id, _, newPassword, _) =>
        map key | key in book :: if book[key].id == id then book[key].(password := newPassword) else book[key]
      case ResetPassword(username, _, newPassword, _) =>
        book[Fold(username) := book[Fold(username)].(password := newPassword)]
      case SetStatus(id, status) =>
        map key | key in book :: if book[key].id == id then book[key].(status := status) else book[key]
  }

  ghost function Play(c: Crypto, ops: seq<Op>): Book {
    if ops == [] then map[] else Next(c, Play(c, ops[..|ops| - 1]), ops[|ops| - 1])
  }

  // ---------- The table refines the map ----------

  ghost predicate Made(c: Crypto, stored: string, plain: string) {
    exists salt :: '$' !in salt && stored == Hash(c, salt, plain)
  }

  ghost predicate Stands(c: Crypto, user: User, account: Account) {
    && user.id == account.id && user.email == account.email && user.status == account.status
    && Made(c, user.passwordHash, account.password) && Made(c, user.answerHash, account.answer)
  }

  ghost predicate UniqueUsers(users: seq<User>) {
    forall i, j :: 0 <= i < j < |users| ==>
      users[i].id != users[j].id && users[i].email != users[j].email
          && Fold(users[i].username) != Fold(users[j].username)
  }

  ghost predicate Refines(c: Crypto, users: seq<User>, book: Book) {
    && UniqueUsers(users)
    && (forall i :: 0 <= i < |users| ==>
          Fold(users[i].username) in book && Stands(c, users[i], book[Fold(users[i].username)]))
    && (forall key :: key in book ==> ByKey(users, key) < |users|)
  }

  lemma MadeVerifies(c: Crypto, stored: string, plain: string, attempt: string)
    requires c.Lawful() && Made(c, stored, plain)
    ensures Verify(c, attempt, stored) <==> attempt == plain
  {
    var salt :| '$' !in salt && stored == Hash(c, salt, plain);
    OnlyThatPassword(c, salt, plain, attempt);
  }

  lemma KeyOf(users: seq<User>, i: nat)
    requires UniqueUsers(users) && i < |users|
    ensures ByKey(users, Fold(users[i].username)) == i && ById(users, users[i].id) == i
        && ByEmail(users, users[i].email) == i
  {
  }

  lemma FoundByName(c: Crypto, users: seq<User>, book: Book, name: string)
    requires Refines(c, users, book)
    ensures Fold(name) in book <==> ByName(users, name) < |users|
    ensures ByName(users, name) < |users| ==> Stands(c, users[ByName(users, name)], book[Fold(name)])
  {
    hide Stands, UniqueUsers;
  }

  /** The one entry with a given id, if there is one. */
  lemma FoundById(c: Crypto, users: seq<User>, book: Book, id: Id)
    requires Refines(c, users, book)
    ensures ById(users, id) < |users| ==>
              var key := Fold(users[ById(users, id)].username);
              key in book && book[key].id == id && Stands(c, users[ById(users, id)], book[key])
    ensures forall key :: key in book ==>
              (book[key].id == id <==> ById(users, id) < |users| && key == Fold(users[ById(users, id)].username))
  {
    hide Made, Fold;
    forall key | key in book ensures
      book[key].id == id <==> ById(users, id) < |users| && key == Fold(users[ById(users, id)].username) {
      var i := ByKey(users, key);
      assert Stands(c, users[i], book[key]);
      KeyOf(users, i);
    }
  }

  lemma FoundByEmail(c: Crypto, users: seq<User>, book: Book, email: string)
    requires Refines(c, users, book)
    ensures ByEmail(users, email) < |users| <==> exists key :: key in book && book[key].email == email
  {
    hide Made, Fold;
    var k := ByEmail(users, email);
    if k < |users| {
      assert book[Fold(users[k].username)].email == email;
    }
    forall key | key in book && book[key].email == email ensures k < |users| {
      var i := ByKey(users, key);
      assert Stands(c, users[i], book[key]);
      KeyOf(users, i);
    }
  }

  /** Table and map agree on which operations succeed. */
  lemma SameOutcome(c: Crypto, users: seq<User>, book: Book, op: Op)
    requires c.Lawful() && Refines(c, users, book)
    ensures Try(c, users, op).Some? <==> Succeeds(c, book, op)
  {
    hide Refines, Made, Hash, Verify, Fold, ByKey, ById, ByEmail;
    match op
    case Register(id, newId, username, email, password, answer, _, _) =>
      FoundByName(c, users, book, username);
      FoundById(c, users, book, if id == "" then newId else id);
      FoundByEmail(c, users, book, email);
    case Login(username, password) =>
      FoundByName(c, users, book, username);
      var i := ByName(users, username);
      if i < |users| { MadeVerifies(c, users[i].passwordHash, book[Fold(username)].password, password); }
    case ChangePassword(id, oldPassword, newPassword, _) =>
      FoundById(c, users, book, id);
      var i := ById(users, id);
      if i < |users| { MadeVerifies(c, users[i].passwordHash, book[Fold(users[i].username)].password, oldPassword); }
    case ResetPassword(username, answer, newPassword, _) =>
      FoundByName(c, users, book, username);
      var i := ByName(users, username);
      if i < |users| { MadeVerifies(c, users[i].answerHash, book[Fold(username)].answer, c.normal(answer)); }
    case SetStatus(_, _) =>
  }

  lemma UniqueSet(users: seq<User>, i: nat, user: User)
    requires UniqueUsers(users) && i < |users|
    requires user.id == users[i].id && user.email == users[i].email && user.username == users[i].username
    ensures UniqueUsers(users[i := user])
    ensures forall key :: ByKey(users, key) < |users| ==> ByKey(users[i := user], key) < |users|
  {
    hide Fold;
    var t := users[i := user];
    assert forall j :: 0 <= j < |users| ==>
      t[j].id == users[j].id && t[j].email == users[j].email && t[j].username == users[j].username;
  }

  /** Changing one row's hash or status and the matching entry keeps table and map in step. */
  lemma RefinesSet(c: Crypto, users: seq<User>, book: Book, i: nat, user: User, next: Book)
    requires Refines(c, users, book) && i < |users|
    requires user.id == users[i].id && user.email == users[i].email && user.username == users[i].username
    requires next.Keys == book.Keys && Fold(user.username) in book && Stands(c, user, next[Fold(user.username)])
    requires forall key :: key in book && key != Fold(user.username) ==> next[key] == book[key]
    ensures Refines(c, users[i := user], next)
  {
    hide Stands, Fold, ByKey;
    UniqueSet(users, i, user);
  }

  lemma UniqueAdd(users: seq<User>, user: User)
    requires UniqueUsers(users) && ById(users, user.id) == ByEmail(users, user.email) == |users|
    requires ByKey(users, Fold(user.username)) == |users|
    ensures UniqueUsers(users + [user])
    ensures forall key :: ByKey(users, key) < |users| || key == Fold(user.username) ==>
              ByKey(users + [user], key) < |users| + 1
  {
    hide Fold, ById, ByEmail, ByKey;
    var t := users + [user];
    forall i, j | 0 <= i < j < |t|
      ensures t[i].id != t[j].id && t[i].email != t[j].email && Fold(t[i].username) != Fold(t[j].username) {
      assert t[i] == users[i];
      if j < |users| { assert t[j] == users[j]; } else { assert t[j] == user; }
    }
    forall key | ByKey(users, key) < |users| || key == Fold(user.username) ensures ByKey(t, key) < |users| + 1 {
      KeyInLonger(users, user, key);
    }
  }

  lemma KeyInLonger(users: seq<User>, user: User, key: string)
    requires ByKey(users, key) < |users| || key == Fold(user.username)
    ensures ByKey(users + [user], key) < |users| + 1
  {
    hide Fold;
    var t := users + [user];
    assert t[|users|] == user;
    assert ByKey(users, key) < |users| ==> t[ByKey(users, key)] == users[ByKey(users, key)];
  }

  lemma RefinesAdd(c: Crypto, users: seq<User>, book: Book, user: User, account: Account)
    requires Refines(c, users, book) && Stands(c, user, account) && Fold(user.username) !in book
    requires ById(users, user.id) == ByEmail(users, user.email) == ByKey(users, Fold(user.username)) == |users|
    ensures Refines(c, users + [user], book[Fold(user.username) := account])
  {
    hide Stands, Fold, ByKey, UniqueUsers;
    UniqueAdd(users, user);
  }

  lemma RefinesRegister(c: Crypto, users: seq<User>, book: Book, op: Op)
    requires Refines(c, users, book) && Salted(op) && op.Register? && Try(c, users, op).Some? && Succeeds(c, book, op)
    ensures Refines(c, After(c, users, op), Next(c, book, op))
  {
    hide Refines, Hash, Fold, ByKey, ById, ByEmail;
    FoundByName(c, users, book, op.username);
    var user := NewUser(c, op);
    assert user.passwordHash == Hash(c, op.passwordSalt, op.password);
    assert user.answerHash == Hash(c, op.answerSalt, c.normal(op.answer));
    RefinesAdd(c, users, book, user, Account(user.id, op.email, op.password, c.normal(op.answer), Active));
  }

  lemma NewHash(c: Crypto, users: seq<User>, book: Book, i: nat, plain: string, salt: string, next: Book)
    requires Refines(c, users, book) && i < |users| && '$' !in salt && next.Keys == book.Keys
    requires var key := Fold(users[i].username);
      && key in book && next[key] == book[key].(password := plain)
      && (forall other :: other in book && other != key ==> next[other] == book[other])
    ensures Refines(c, users[i := users[i].(passwordHash := Hash(c, salt, plain))], next)
  {
    hide Hash, Fold;
    var user := users[i].(passwordHash := Hash(c, salt, plain));
    assert Made(c, user.passwordHash, plain);
    RefinesSet(c, users, book, i, user, next);
  }

  lemma RefinesPassword(c: Crypto, users: seq<User>, book: Book, op: Op)
    requires Refines(c, users, book) && Salted(op) && (op.ChangePassword? || op.ResetPassword?)
    requires Try(c, users, op).Some? && Succeeds(c, book, op)
    ensures Refines(c, After(c, users, op), Next(c, book, op))
  {
    hide Refines, Hash, Verify, Fold, ByKey, ById, Stands;
    if op.ChangePassword? {
      FoundById(c, users, book, op.id);
      NewHash(c, users, book, ById(users, op.id), op.newPassword, op.salt, Next(c, book, op));
    } else {
      FoundByName(c, users, book, op.username);
      var i := ByName(users, op.username);
      SameRow(c, users, book, i);
      NewHash(c, users, book, i, op.newPassword, op.salt, Next(c, book, op));
    }
  }

  lemma SameRow(c: Crypto, users: seq<User>, book: Book, i: nat)
    requires Refines(c, users, book) && i < |users|
    ensures ById(users, users[i].id) == i && ByKey(users, Fold(users[i].username)) == i
  {
    KeyOf(users, i);
  }

  lemma RefinesStatus(c: Crypto, users: seq<User>, book: Book, op: Op)
    requires Refines(c, users, book) && op.SetStatus?
    ensures Refines(c, After(c, users, op), Next(c, book, op))
  {
    hide Refines, Fold, ByKey, ById, Made;
    FoundById(c, users, book, op.id);
    var i := ById(users, op.id);
    if i < |users| {
      RefinesSet(c, users, book, i, users[i].(status := op.status), Next(c, book, op));
    } else {
      assert Next(c, book, op) == book;
    }
  }

  lemma RefinesStep(c: Crypto, users: seq<User>, book: Book, op: Op)
    requires c.Lawful() && Refines(c, users, book) && Salted(op)
    ensures Refines(c, After(c, users, op), Next(c, book, op))
  {
    SameOutcome(c, users, book, op);
    hide Refines;
    if Try(c, users, op).Some? && !op.Login? {
      hide *;
      if op.Register? {
        RefinesRegister(c, users, book, op);
      } else if op.SetStatus? {
        RefinesStatus(c, users, book, op);
      } else {
        RefinesPassword(c, users, book, op);
      }
    }
  }

  /** Over every run of registrations, logins, password changes, resets and status changes, the table behaves as
      a map from folded user name to current password. */
  lemma {:induction false} TableIsAMap(c: Crypto, ops: seq<Op>)
    requires c.Lawful() && forall op :: op in ops ==> Salted(op)
    ensures Refines(c, Run(c, ops), Play(c, ops))
  {
    if ops != [] {
      var n := |ops| - 1;
      TableIsAMap(c, ops[..n]);
      assert ops[n] in ops;
      RefinesStep(c, Run(c, ops[..n]), Play(c, ops[..n]), ops[n]);
    }
  }

  /** After any run, login succeeds exactly for the current password of an active or pending account, whatever
      the case of the name; and no two accounts' names differ only in case. */
  lemma LoginTakesTheLatestPassword(c: Crypto, ops: seq<Op>, username: string, password: string)
    requires c.Lawful() && forall op :: op in ops ==> Salted(op)
    ensures var users := Run(c, ops);
      Try(c, users, Login(username, password)).Some? <==>
        && username != "" && password != ""
        && exists i ::
             && 0 <= i < |users| && SameName(users[i].username, username) && users[i].status in {Pending, Active}
             && Fold(users[i].username) in Play(c, ops)
             && Play(c, ops)[Fold(users[i].username)].password == password
    ensures var users := Run(c, ops);
      forall i, j :: 0 <= i < j < |users| ==> !SameName(users[i].username, users[j].username)
  {
    hide Made, Hash, Verify, Fold, ById, ByEmail, Salted, SameName, Try, Run, Play;
    var users, book := Run(c, ops), Play(c, ops);
    TableIsAMap(c, ops);
    SameOutcome(c, users, book, Login(username, password));
    FoundByName(c, users, book, username);
    forall i | 0 <= i < |users|
      ensures SameName(users[i].username, username) <==> Fold(users[i].username) == Fold(username)
      ensures Stands(c, users[i], book[Fold(users[i].username)]) {
      FoldIgnoresCase(users[i].username, username);
    }
    var k := ByName(users, username);
    if k < |users| {
      assert SameName(users[k].username, username);
    }
    forall i, j | 0 <= i < j < |users| ensures !SameName(users[i].username, users[j].username) {
      FoldIgnoresCase(users[i].username, users[j].username);
    }
  }

  /** A new account lets in exactly its own password under any spelling of its name, and changes no other login;
      its security answer, put in normal form, is what a reset then asks for. */
  lemma RegisteredCanLogIn(c: Crypto, ops: seq<Op>, op: Op, username: string, password: string)
    requires c.Lawful() && (forall o :: o in ops ==> Salted(o)) && Salted(op)
    requires op.Register? && Try(c, Run(c, ops), op).Some?
    ensures Try(c, Run(c, ops + [op]), Login(username, password)).Some? <==>
            if SameName(username, op.username) then username != "" && password == op.password
            else Try(c, Run(c, ops), Login(username, password)).Some?
    ensures forall answer, salt ::
              Try(c, Run(c, ops + [op]), ResetPassword(op.username, answer, password, salt)).Some? <==>
              op.username != "" && answer != "" && password != "" && c.normal(answer) == c.normal(op.answer)
  {
    hide Refines, Made, Hash, Verify, Fold, ByKey, ById, Salted, SameName;
    var before, book := Run(c, ops), Play(c, ops);
    TableIsAMap(c, ops);
    SameOutcome(c, before, book, op);
    RefinesStep(c, before, book, op);
    assert (ops + [op])[..|ops|] == ops;
    FoldIgnoresCase(username, op.username);
    SameOutcome(c, before, book, Login(username, password));
    SameOutcome(c, After(c, before, op), Next(c, book, op), Login(username, password));
    forall answer, salt ensures
      Try(c, Run(c, ops + [op]), ResetPassword(op.username, answer, password, salt)).Some? <==>
      op.username != "" && answer != "" && password != "" && c.normal(answer) == c.normal(op.answer) {
      SameOutcome(c, After(c, before, op), Next(c, book, op), ResetPassword(op.username, answer, password, salt));
    }
  }

  lemma FreeName(users: seq<User>, username: string)
    ensures ByName(users, username) == |users| <==>
            forall i :: 0 <= i < |users| ==> !SameName(users[i].username, username)
  {
    hide Fold, SameName;
    forall i | 0 <= i < |users|
      ensures SameName(users[i].username, username) <==> Fold(users[i].username) == Fold(username) {
      FoldIgnoresCase(users[i].username, username);
    }
  }

  /** A name is free exactly if no account has it under any spelling; besides it, the id and the e-mail must be new. */
  lemma WhoMayRegister(c: Crypto, ops: seq<Op>, op: Op)
    requires op.Register?
    ensures var users, id := Run(c, ops), if op.id == "" then op.newId else op.id;
      Try(c, users, op).Some? <==>
        && op.password != "" && op.answer != ""
        && forall i :: 0 <= i < |users| ==>
             users[i].id != id && users[i].email != op.email && !SameName(users[i].username, op.username)
  {
    hide Run, Fold, SameName, Hash, ByKey;
    FreeName(Run(c, ops), op.username);
  }

  /** Blocking, disabling or deleting an account shuts its owner out whatever the password; making it active or
      pending lets in the password it had; every other login stays as it was. */
  lemma StatusDecides(c: Crypto, ops: seq<Op>, id: Id, status: Status, username: string, password: string)
    requires c.Lawful() && forall op :: op in ops ==> Salted(op)
    ensures var before, users := Run(c, ops), Run(c, ops + [SetStatus(id, status)]);
      var i := ByName(before, username);
      Try(c, users, Login(username, password)).Some? <==>
        if i < |before| && before[i].id == id
        then (status == Active || status == Pending)
             && Try(c, Run(c, ops + [SetStatus(id, Active)]), Login(username, password)).Some?
        else Try(c, before, Login(username, password)).Some?
  {
    hide Refines, Made, Hash, Verify, Fold, ByKey, ById;
    var before, book := Run(c, ops), Play(c, ops);
    TableIsAMap(c, ops);
    FoundByName(c, before, book, username);
    SameOutcome(c, before, book, Login(username, password));
    forall s | s in {status, Active}
      ensures Try(c, Run(c, ops + [SetStatus(id, s)]), Login(username, password)).Some? <==>
              Succeeds(c, Next(c, book, SetStatus(id, s)), Login(username, password)) {
      var op := SetStatus(id, s);
      RefinesStep(c, before, book, op);
      assert (ops + [op])[..|ops|] == ops;
      SameOutcome(c, After(c, before, op), Next(c, book, op), Login(username, password));
    }
  }

  /** A successful change of password locks the old one out and lets the new one in, for that account only. */
  lemma ChangeReplaces(c: Crypto, ops: seq<Op>, op: Op, username: string, password: string)
    requires c.Lawful() && (forall o :: o in ops ==> Salted(o)) && Salted(op)
    requires (op.ChangePassword? || op.ResetPassword?) && Try(c, Run(c, ops), op).Some?
    ensures var before, users := Run(c, ops), Run(c, ops + [op]);
      var i, changed := ByName(before, username),
                        if op.ChangePassword? then ById(before, op.id) else ByName(before, op.username);
      Try(c, users, Login(username, password)).Some? <==>
        if i == changed
        then username != "" && password == op.newPassword && before[i].status in {Pending, Active}
        else Try(c, before, Login(username, password)).Some?
  {
    hide Refines, Made, Hash, Verify, Fold, ByKey, ById, Salted;
    var before, book := Run(c, ops), Play(c, ops);
    TableIsAMap(c, ops);
    SameOutcome(c, before, book, op);
    RefinesStep(c, before, book, op);
    assert (ops + [op])[..|ops|] == ops;
    FoundByName(c, before, book, username);
    SameOutcome(c, before, book, Login(username, password));
    SameOutcome(c, After(c, before, op), Next(c, book, op), Login(username, password));
    if op.ChangePassword? {
      FoundById(c, before, book, op.id);
      SameRow(c, before, book, ById(before, op.id));
    } else {
      FoundByName(c, before, book, op.username);
      SameRow(c, before, book, ByName(before, op.username));
    }
  }

  // ---------- The service ----------

  class AuthService {
    const crypto: Crypto
    var users: seq<User>

    constructor (crypto: Crypto)
      ensures this.crypto == crypto && users == Run(crypto, [])
    {
      this.crypto, users := crypto, [];
    }

    method IsUsernameUnique(username: string) returns (unique: bool)
      ensures unique <==> forall i :: 0 <= i < |users| ==> !SameName(users[i].username, username)
    {
      FreeName(users, username);
      unique := ByName(users, username) == |users|;
    }

    method RegisterAccount(id: Id, newId: Id, username: string, email: string, password: string, answer: string,
                           passwordSalt: string, answerSalt: string)
      returns (ok: bool)
      modifies this
      ensures var op := Register(id, newId, username, email, password, answer, passwordSalt, answerSalt);
        ok == Try(crypto, old(users), op).Some? && users == After(crypto, old(users), op)
    {
      hide SameName, Fold, Hash, ById, ByEmail, ByKey;
      if password == "" || answer == "" { return false; }
      FreeName(users, username);
      var unique := IsUsernameUnique(username);
      if !unique { return false; }
      var user := User(if id == "" then newId else id, username, email, Hash(crypto, passwordSalt, password),
                       Hash(crypto, answerSalt, crypto.normal(answer)), Active);
      if ById(users, user.id) < |users| || ByEmail(users, email) < |users| { return false; }
      users := users + [user];
      return true;
    }

    method LogIn(username: string, password: string) returns (found: Option<User>)
      ensures found.Some? <==> Try(crypto, users, Login(username, password)).Some?
      ensures found.Some? ==> found.value in users && SameName(found.value.username, username)
    {
      hide SameName;
      if username == "" || password == "" { return None; }
      var i := ByName(users, username);
      if i == |users| { return None; }
      if users[i].status == Blocked { return None; }
      if users[i].status == Disabled || users[i].status == Deleted { return None; }
      if !Verify(crypto, password, users[i].passwordHash) { return None; }
      FoldIgnoresCase(users[i].username, username);
      return Some(users[i]);
    }

    method UpdateUserPassword(id: Id, newHash: string)
      requires ById(users, id) < |users|
      modifies this
      ensures users == old(users)[ById(old(users), id) := old(users)[ById(old(users), id)].(passwordHash := newHash)]
    {
      var i := ById(users, id);
      users := users[i := users[i].(passwordHash := newHash)];
    }

    method ChangeTo(id: Id, oldPassword: string, newPassword: string, salt: string) returns (ok: bool)
      modifies this
      ensures var op := ChangePassword(id, oldPassword, newPassword, salt);
        ok == Try(crypto, old(users), op).Some? && users == After(crypto, old(users), op)
    {
      if id == "" || oldPassword == "" || newPassword == "" { return false; }
      var i := ById(users, id);
      if i == |users| { return false; }
      if !Verify(crypto, oldPassword, users[i].passwordHash) { return false; }
      UpdateUserPassword(id, Hash(crypto, salt, newPassword));
      return true;
    }

    method Reset(username: string, answer: string, newPassword: string, salt: string) returns (ok: bool)
      modifies this
      ensures var op := ResetPassword(username, answer, newPassword, salt);
        ok == Try(crypto, old(users), op).Some? && users == After(crypto, old(users), op)
    {
      if username == "" || answer == "" || newPassword == "" { return false; }
      var i := ByName(users, username);
      if i == |users| { return false; }
      if !Verify(crypto, crypto.normal(answer), users[i].answerHash) { return false; }
      UpdateUserPassword(users[i].id, Hash(crypto, salt, newPassword));
      return true;
    }
  }
}
