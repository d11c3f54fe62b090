/** Reviews, ratings, and the two aggregates every book row caches about them. */
module Ratings {
  import opened Search
  import opened Messages

  type Id = string

  /** A row of Reviews or Ratings; the two tables differ only in what else a row holds. */
  datatype Row<T> = Row(id: Id, book: Id, user: Id, stars: int, rest: T)

  datatype Note = Note(text: string, edited: bool)

  datatype Unit = Unit

  datatype Aggregate = Aggregate(average: real, count: nat)

  datatype Db = Db(books: map<Id, Aggregate>, users: set<Id>, reviews: seq<Row<Note>>, ratings: seq<Row<Unit>>)

  // ---------- One table ----------

  predicate Allowed(stars: int) {
    1 <= stars <= 5
  }

  function Find<T>(rows: seq<Row<T>>, book: Id, user: Id): (i: nat)
    ensures i <= |rows|
    ensures i < |rows| ==> rows[i].book == book && rows[i].user == user
    ensures forall j :: 0 <= j < i ==> !(rows[j].book == book && rows[j].user == user)
  {
    FirstIndex(rows, (row: Row<T>) => row.book == book && row.user == user)
  }

  function FindId<T>(rows: seq<Row<T>>, id: Id): (i: nat)
    ensures i <= |rows|
    ensures i < |rows| ==> rows[i].id == id
    ensures forall j :: 0 <= j < i ==> rows[j].id != id
  {
    FirstIndex(rows, (row: Row<T>) => row.id == id)
  }

  function Lookup<T>(rows: seq<Row<T>>, book: Id, user: Id): Option<Row<T>> {
    if Find(rows, book, user) < |rows| then Some(rows[Find(rows, book, user)]) else None
  }

  /** INSERT .. ON CONFLICT(bookId, userId) DO UPDATE: the stored row keeps its id. None if a constraint fails:
      stars out of range, or a new row that repeats an id or refers to no book or user. */
  function Upsert<T>(rows: seq<Row<T>>, row: Row<T>, again: T, known: bool): Option<seq<Row<T>>> {
    var i := Find(rows, row.book, row.user);
    if !Allowed(row.stars) then None
    else if i < |rows| then Some(rows[i := rows[i].(stars := row.stars, rest := again)])
    else if known && FindId(rows, row.id) == |rows| then Some(rows + [row])
    else None
  }

  /** UPDATE .. WHERE id = ?: ids are unique, so at most one row changes. */
  function Edit<T>(rows: seq<Row<T>>, id: Id, stars: int, rest: T): Option<seq<Row<T>>> {
    var i := FindId(rows, id);
    if i == |rows| then Some(rows)
    else if !Allowed(stars) then None
    else Some(rows[i := rows[i].(stars := stars, rest := rest)])
  }

  function DeleteId<T>(rows: seq<Row<T>>, id: Id): seq<Row<T>> {
    var i := FindId(rows, id);
    if i == |rows| then rows else rows[..i] + rows[i + 1..]
  }

  function DeleteOf<T>(rows: seq<Row<T>>, book: Id, user: Id): seq<Row<T>> {
    var i := Find(rows, book, user);
    if i == |rows| then rows else rows[..i] + rows[i + 1..]
  }

  /** SELECT stars .. WHERE bookId = ? */
  function Stars<T>(rows: seq<Row<T>>, book: Id): seq<int> {
    if rows == [] then []
    else if rows[0].book == book then [rows[0].stars] + Stars(rows[1..], book)
    else Stars(rows[1..], book)
  }

  /** The constraints of a table: primary key, one row per book and user, range of stars, foreign keys. */
  ghost predicate Distinct<T>(rows: seq<Row<T>>) {
    forall i, j :: 0 <= i < j < |rows| ==>
      rows[i].id != rows[j].id && (rows[i].book != rows[j].book || rows[i].user != rows[j].user)
  }

  ghost predicate Sound<T>(rows: seq<Row<T>>, books: set<Id>) {
    Distinct(rows) && forall i :: 0 <= i < |rows| ==> Allowed(rows[i].stars) && rows[i].book in books
  }

  // ---------- The operations of the two repositories ----------

  datatype Op =
    | SaveReview(id: Id, newId: Id, book: Id, user: Id, stars: int, text: string)
    | UpdateReview(id: Id, book: Id, stars: int, text: string)
    | RemoveReview(id: Id)
    | SetRating(newId: Id, book: Id, user: Id, stars: int)
    | RemoveRating(book: Id, user: Id)

  function Total(s: seq<int>): int {
    if s == [] then 0 else s[0] + Total(s[1..])
  }

  function Average(s: seq<int>): real {
    if s == [] then 0.0 else Total(s) as real / |s| as real
  }

  function AllStars(db: Db, book: Id): seq<int> {
    Stars(db.reviews, book) + Stars(db.ratings, book)
  }

  function Fresh(db: Db, book: Id): Aggregate {
    Aggregate(Average(AllStars(db, book)), |AllStars(db, book)|)
  }

  function Recalculated(db: Db, book: Id): Db {
    if book in db.books then db.(books := db.books[book := Fresh(db, book)]) else db
  }

  /** What an operation leaves behind; None if it reports failure. */
  function Try(db: Db, op: Op): Option<Db> {
    match op
    case SaveReview(id, newId, book, user, stars, text) =>
      var row := Row(if id == "" then newId else id, book, user, stars, Note(text, false));
      var rows := Upsert(db.reviews, row, Note(text, true), book in db.books && user in db.users);
      if rows.None? then None else Some(Recalculated(db.(reviews := rows.value), book))
    case UpdateReview(id, book, stars, text) =>
      var rows := Edit(db.reviews, id, stars, Note(text, true));
      if id == "" || rows.None? then None else Some(Recalculated(db.(reviews := rows.value), book))
    case RemoveReview(id) =>
      var i := FindId(db.reviews, id);
      var removed := db.(reviews := DeleteId(db.reviews, id));
      if i < |db.reviews| && db.reviews[i].book != "" then Some(Recalculated(removed, db.reviews[i].book))
      else Some(removed)
    case SetRating(newId, book, user, stars) =>
      var rows := Upsert(db.ratings, Row(newId, book, user, stars, Unit), Unit, book in db.books && user in db.users);
      if rows.None? then None else Some(Recalculated(db.(ratings := rows.value), book))
    case RemoveRating(book, user) =>
      Some(Recalculated(db.(ratings := DeleteOf(db.ratings, book, user)), book))
  }

  function After(db: Db, op: Op): Db {
    if Try(db, op).Some? then Try(db, op).value else db
  }

  function Run(db: Db, ops: seq<Op>): Db
    decreases |ops|
  {
    if ops == [] then db else Run(After(db, ops[0]), ops[1..])
  }

  // ---------- Tables stay sound, and change in one place ----------

  lemma SoundUpsert<T>(rows: seq<Row<T>>, row: Row<T>, again: T, books: set<Id>, known: bool)
    requires Sound(rows, books) && (known ==> row.book in books) && Upsert(rows, row, again, known).Some?
    ensures Sound(Upsert(rows, row, again, known).value, books)
  {
  }

  lemma SoundEdit<T>(rows: seq<Row<T>>, id: Id, stars: int, rest: T, books: set<Id>)
    requires Sound(rows, books) && Edit(rows, id, stars, rest).Some?
    ensures Sound(Edit(rows, id, stars, rest).value, books)
  {
  }

  lemma SoundCut<T>(rows: seq<Row<T>>, i: nat, books: set<Id>)
    requires Sound(rows, books) && i < |rows|
    ensures Sound(rows[..i] + rows[i + 1..], books)
  {
  }

  lemma {:induction false} StarsAppend<T>(a: seq<Row<T>>, b: seq<Row<T>>, book: Id)
    ensures Stars(a + b, book) == Stars(a, book) + Stars(b, book)
  {
    if a == [] {
      assert a + b == b;
    } else {
      assert (a + b)[1..] == a[1..] + b;
      StarsAppend(a[1..], b, book);
    }
  }

  /** The stars of a book, split around one row. */
  lemma StarsSplit<T>(rows: seq<Row<T>>, i: nat, book: Id)
    requires i < |rows|
    ensures Stars(rows, book) == Stars(rows[..i], book) + Stars([rows[i]], book) + Stars(rows[i + 1..], book)
    ensures Stars(rows[..i] + rows[i + 1..], book) == Stars(rows[..i], book) + Stars(rows[i + 1..], book)
  {
    assert rows == rows[..i] + [rows[i]] + rows[i + 1..];
    StarsAppend(rows[..i] + [rows[i]], rows[i + 1..], book);
    StarsAppend(rows[..i], [rows[i]], book);
    StarsAppend(rows[..i], rows[i + 1..], book);
  }

  lemma StarsSet<T>(rows: seq<Row<T>>, i: nat, row: Row<T>, book: Id)
    requires i < |rows|
    ensures Stars(rows[i := row], book) == Stars(rows[..i], book) + Stars([row], book) + Stars(rows[i + 1..], book)
  {
    StarsSplit(rows[i := row], i, book);
    assert rows[i := row][..i] == rows[..i] && rows[i := row][i + 1..] == rows[i + 1..];
  }

  lemma StarsOne<T>(row: Row<T>, book: Id)
    ensures Stars([row], book) == if row.book == book then [row.stars] else []
  {
    assert [row][1..] == [];
  }

  lemma UpsertElsewhere<T>(rows: seq<Row<T>>, row: Row<T>, again: T, known: bool, book: Id)
    requires Upsert(rows, row, again, known).Some? && book != row.book
    ensures Stars(Upsert(rows, row, again, known).value, book) == Stars(rows, book)
  {
    var i := Find(rows, row.book, row.user);
    if i < |rows| {
      var changed := rows[i].(stars := row.stars, rest := again);
      StarsSplit(rows, i, book);
      StarsSet(rows, i, changed, book);
      StarsOne(rows[i], book);
      StarsOne(changed, book);
    } else {
      StarsAppend(rows, [row], book);
      StarsOne(row, book);
    }
  }

  lemma EditElsewhere<T>(rows: seq<Row<T>>, id: Id, stars: int, rest: T, book: Id)
    requires Edit(rows, id, stars, rest).Some?
    requires FindId(rows, id) < |rows| ==> book != rows[FindId(rows, id)].book
    ensures Stars(Edit(rows, id, stars, rest).value, book) == Stars(rows, book)
  {
    var i := FindId(rows, id);
    if i < |rows| {
      var changed := rows[i].(stars := stars, rest := rest);
      StarsSplit(rows, i, book);
      StarsSet(rows, i, changed, book);
      StarsOne(rows[i], book);
      StarsOne(changed, book);
    }
  }

  lemma {:induction false} TotalAppend(a: seq<int>, b: seq<int>)
    ensures Total(a + b) == Total(a) + Total(b)
  {
    if a == [] {
      assert a + b == b;
    } else {
      assert (a + b)[1..] == a[1..] + b;
      TotalAppend(a[1..], b);
    }
  }

  lemma TotalThree(a: seq<int>, x: int, b: seq<int>)
    ensures Total(a + [x] + b) == Total(a) + x + Total(b)
  {
    TotalAppend(a + [x], b);
    TotalAppend(a, [x]);
    assert [x][1..] == [];
  }

  /** On the row's own book an edit keeps the number of stars and moves their sum by the difference. */
  lemma EditHere<T>(rows: seq<Row<T>>, id: Id, stars: int, rest: T)
    requires FindId(rows, id) < |rows| && Edit(rows, id, stars, rest).Some?
    ensures var was := rows[FindId(rows, id)];
      && |Stars(Edit(rows, id, stars, rest).value, was.book)| == |Stars(rows, was.book)| > 0
      && Total(Stars(Edit(rows, id, stars, rest).value, was.book)) == Total(Stars(rows, was.book)) + stars - was.stars
  {
    var i := FindId(rows, id);
    var changed := rows[i].(stars := stars, rest := rest);
    StarsSplit(rows, i, rows[i].book);
    StarsSet(rows, i, changed, rows[i].book);
    StarsOne(rows[i], rows[i].book);
    StarsOne(changed, rows[i].book);
    TotalThree(Stars(rows[..i], rows[i].book), rows[i].stars, Stars(rows[i + 1..], rows[i].book));
    TotalThree(Stars(rows[..i], rows[i].book), stars, Stars(rows[i + 1..], rows[i].book));
  }

  lemma CutElsewhere<T>(rows: seq<Row<T>>, i: nat, book: Id)
    requires i < |rows| && rows[i].book != book
    ensures Stars(rows[..i] + rows[i + 1..], book) == Stars(rows, book)
  {
    StarsSplit(rows, i, book);
    StarsOne(rows[i], book);
  }

  // ---------- The invariant ----------

  predicate Agrees(db: Db, book: Id) {
    book in db.books ==> db.books[book] == Fresh(db, book)
  }

  /** The tables satisfy their constraints. No book has the empty id: the book repository never stores one. */
  ghost predicate Consistent(db: Db) {
    "" !in db.books && Sound(db.reviews, db.books.Keys) && Sound(db.ratings, db.books.Keys)
  }

  ghost predicate Inv(db: Db) {
    Consistent(db) && forall book :: book in db.books ==> Agrees(db, book)
  }

  /** Whether an update names the book the review really belongs to, wherever that matters. */
  predicate Honest(db: Db, op: Op) {
    op.UpdateReview? ==>
      var i := FindId(db.reviews, op.id);
      || i == |db.reviews| || op.book == db.reviews[i].book || op.stars == db.reviews[i].stars
      || op.id == "" || !Allowed(op.stars)
  }

  predicate HonestRun(db: Db, ops: seq<Op>)
    decreases |ops|
  {
    ops == [] || (Honest(db, ops[0]) && HonestRun(After(db, ops[0]), ops[1..]))
  }

  lemma RecalculatedAgrees(db: Db, book: Id, other: Id)
    requires other == book || Agrees(db, other)
    ensures Agrees(Recalculated(db, book), other)
  {
    assert AllStars(Recalculated(db, book), other) == AllStars(db, other);
  }

  /** Agreement of one book survives a change of the tables that leaves its own stars alone. */
  lemma SameStars(db: Db, changed: Db, book: Id)
    requires changed.books == db.books && AllStars(changed, book) == AllStars(db, book)
    ensures Agrees(changed, book) == Agrees(db, book)
  {
  }

  lemma SaveAgrees(db: Db, op: Op, book: Id)
    requires op.SaveReview? || op.SetRating?
    requires Agrees(db, book)
    ensures Agrees(After(db, op), book)
  {
    if Try(db, op).Some? {
      var known := op.book in db.books && op.user in db.users;
      var mid: Db;
      if op.SaveReview? {
        var row := Row(if op.id == "" then op.newId else op.id, op.book, op.user, op.stars, Note(op.text, false));
        mid := db.(reviews := Upsert(db.reviews, row, Note(op.text, true), known).value);
        if book != op.book { UpsertElsewhere(db.reviews, row, Note(op.text, true), known, book); }
      } else {
        var row := Row(op.newId, op.book, op.user, op.stars, Unit);
        mid := db.(ratings := Upsert(db.ratings, row, Unit, known).value);
        if book != op.book { UpsertElsewhere(db.ratings, row, Unit, known, book); }
      }
      if book != op.book { SameStars(db, mid, book); }
      RecalculatedAgrees(mid, op.book, book);
      assert After(db, op) == Recalculated(mid, op.book);
    }
  }

  lemma RemoveAgrees(db: Db, op: Op, book: Id)
    requires op.RemoveReview? || op.RemoveRating?
    requires "" !in db.books && Agrees(db, book)
    ensures Agrees(After(db, op), book)
  {
    if op.RemoveReview? {
      var i := FindId(db.reviews, op.id);
      if i < |db.reviews| {
        var mid := db.(reviews := DeleteId(db.reviews, op.id));
        var owner := db.reviews[i].book;
        if book != owner {
          CutElsewhere(db.reviews, i, book);
          SameStars(db, mid, book);
        }
        RecalculatedAgrees(mid, owner, book);
        assert owner != "" ==> After(db, op) == Recalculated(mid, owner);
        assert owner == "" ==> After(db, op) == mid;
      }
    } else {
      var i := Find(db.ratings, op.book, op.user);
      var mid := db.(ratings := DeleteOf(db.ratings, op.book, op.user));
      if book != op.book {
        if i < |db.ratings| { CutElsewhere(db.ratings, i, book); }
        SameStars(db, mid, book);
      }
      RecalculatedAgrees(mid, op.book, book);
    }
  }

  lemma AverageMoves(a: seq<int>, b: seq<int>)
    requires |a| == |b| > 0
    ensures Average(a) == Average(b) <==> Total(a) == Total(b)
  {
    var n := |a| as real;
    assert Average(a) * n == Total(a) as real && Average(b) * n == Total(b) as real;
  }

  /** After a review update the book it belongs to agrees again if and only if the caller named that book, or
      the stars did not change. */
  lemma UpdateAgreesExactlyIfHonest(db: Db, op: Op)
    requires op.UpdateReview? && Inv(db)
    ensures Honest(db, op) <==> forall book :: book in db.books ==> Agrees(After(db, op), book)
  {
    if Try(db, op).Some? {
      var mid := db.(reviews := Edit(db.reviews, op.id, op.stars, Note(op.text, true)).value);
      assert After(db, op) == Recalculated(mid, op.book);
      var i := FindId(db.reviews, op.id);
      forall book | book in db.books ensures
          Agrees(After(db, op), book) <==> (i == |db.reviews| || book != db.reviews[i].book || Honest(db, op)) {
        UpdateOfBook(db, op, book);
      }
    }
  }

  lemma UpdateOfBook(db: Db, op: Op, book: Id)
    requires op.UpdateReview? && book in db.books && Agrees(db, book) && Try(db, op).Some?
    ensures var i := FindId(db.reviews, op.id);
      Agrees(After(db, op), book) <==> (i == |db.reviews| || book != db.reviews[i].book || Honest(db, op))
  {
    var rows := Edit(db.reviews, op.id, op.stars, Note(op.text, true)).value;
    var mid := db.(reviews := rows);
    var i := FindId(db.reviews, op.id);
    assert After(db, op) == Recalculated(mid, op.book);
    if i == |db.reviews| || book != db.reviews[i].book {
      EditElsewhere(db.reviews, op.id, op.stars, Note(op.text, true), book);
      SameStars(db, mid, book);
      RecalculatedAgrees(mid, op.book, book);
    } else if book == op.book {
      RecalculatedAgrees(mid, op.book, book);
    } else {
      EditHere(db.reviews, op.id, op.stars, Note(op.text, true));
      TotalAppend(Stars(db.reviews, book), Stars(db.ratings, book));
      TotalAppend(Stars(rows, book), Stars(db.ratings, book));
      AverageMoves(AllStars(db, book), AllStars(mid, book));
      assert AllStars(After(db, op), book) == AllStars(mid, book);
    }
  }

  ghost predicate SameBooks(db: Db, next: Db) {
    next.books.Keys == db.books.Keys && next.users == db.users
  }

  lemma ConsistentReview(db: Db, op: Op)
    requires Consistent(db) && (op.SaveReview? || op.UpdateReview? || op.RemoveReview?)
    ensures Consistent(After(db, op)) && SameBooks(db, After(db, op))
  {
    var books := db.books.Keys;
    if Try(db, op).Some? {
      match op
      case SaveReview(id, newId, book, user, stars, text) =>
        SoundUpsert(db.reviews, Row(if id == "" then newId else id, book, user, stars, Note(text, false)), Note(text,
            true), books,
                    book in db.books && user in db.users);
      case UpdateReview(id, book, stars, text) =>
        SoundEdit(db.reviews, id, stars, Note(text, true), books);
      case RemoveReview(id) =>
        if FindId(db.reviews, id) < |db.reviews| { SoundCut(db.reviews, FindId(db.reviews, id), books); }
    }
  }

  lemma ConsistentRating(db: Db, op: Op)
    requires Consistent(db) && (op.SetRating? || op.RemoveRating?)
    ensures Consistent(After(db, op)) && SameBooks(db, After(db, op))
  {
    var books := db.books.Keys;
    if Try(db, op).Some? {
      match op
      case SetRating(newId, book, user, stars) =>
        SoundUpsert(db.ratings, Row(newId, book, user, stars, Unit), Unit, books, book in db.books && user in db.users);
      case RemoveRating(book, user) =>
        if Find(db.ratings, book, user) < |db.ratings| { SoundCut(db.ratings, Find(db.ratings, book, user), books); }
    }
  }

  lemma ConsistentStep(db: Db, op: Op)
    requires Consistent(db)
    ensures Consistent(After(db, op)) && SameBooks(db, After(db, op))
  {
    if op.SetRating? || op.RemoveRating? {
      ConsistentRating(db, op);
    } else {
      ConsistentReview(db, op);
    }
  }

  lemma InvStep(db: Db, op: Op)
    requires Inv(db) && Honest(db, op)
    ensures Inv(After(db, op))
  {
    ConsistentStep(db, op);
    if op.UpdateReview? {
      UpdateAgreesExactlyIfHonest(db, op);
    }
    forall book | book in db.books ensures Agrees(After(db, op), book) {
      if op.SaveReview? || op.SetRating? {
        SaveAgrees(db, op, book);
      } else if !op.UpdateReview? {
        RemoveAgrees(db, op, book);
      }
    }
  }

  /** Books start without opinions. */
  lemma NoOpinionsAgree(db: Db)
    requires "" !in db.books && db.reviews == [] && db.ratings == []
    requires forall book :: book in db.books ==> db.books[book] == Aggregate(0.0, 0)
    ensures Inv(db)
  {
  }

  /** Over any run of saves, updates that name their book, removals and ratings, every cached aggregate is the
      count and mean of the rows. */
  lemma {:induction false} AggregatesOfRun(db: Db, ops: seq<Op>)
    requires Inv(db) && HonestRun(db, ops)
    ensures Inv(Run(db, ops))
    decreases |ops|
  {
    if ops != [] {
      InvStep(db, ops[0]);
      AggregatesOfRun(After(db, ops[0]), ops[1..]);
    }
  }

  /** However stale an aggregate is, the next successful operation that names the book repairs it. */
  lemma NextOperationRepairs(db: Db, op: Op)
    requires Try(db, op).Some? && !op.RemoveReview?
    ensures Agrees(After(db, op), op.book)
  {
    match op
    case SaveReview(id, newId, book, user, stars, text) =>
      var row := Row(if id == "" then newId else id, book, user, stars, Note(text, false));
      RecalculatedAgrees(db.(reviews := Upsert(db.reviews, row, Note(text, true), book in db.books
          && user in db.users).value), book, book);
    case UpdateReview(id, book, stars, text) =>
      RecalculatedAgrees(db.(reviews := Edit(db.reviews, id, stars, Note(text, true)).value), book, book);
    case SetRating(newId, book, user, stars) =>
      RecalculatedAgrees(db.(ratings := Upsert(db.ratings, Row(newId, book, user, stars, Unit), Unit,
          book in db.books && user in db.users).value), book, book);
    case RemoveRating(book, user) =>
      RecalculatedAgrees(db.(ratings := DeleteOf(db.ratings, book, user)), book, book);
  }

  /** An update that names another book leaves the real one stale: a five turned into a one. */
  lemma CarelessUpdateGoesStale()
    ensures exists db, op: Op :: Inv(db) && op.UpdateReview? && Try(db, op).Some? && !Inv(After(db, op))
  {
    var row := Row("r", "a", "u", 5, Note("", false));
    var db := Db(map["a" := Aggregate(5.0, 1)], {"u"}, [row], []);
    var op := UpdateReview("r", "b", 1, "");
    StarsOne(row, "a");
    assert Stars(db.reviews, "a") == [5] && Stars(db.ratings, "a") == [];
    assert AllStars(db, "a") == [5];
    assert Total([5]) == 5 by { assert [5][1..] == []; }
    assert Inv(db);
    assert FindId(db.reviews, "r") == 0;
    UpdateAgreesExactlyIfHonest(db, op);
  }

  // ---------- What the aggregates mean ----------

  ghost predicate InRange(s: seq<int>) {
    forall i :: 0 <= i < |s| ==> Allowed(s[i])
  }

  lemma {:induction false} StarsInRange<T>(rows: seq<Row<T>>, book: Id)
    requires forall i :: 0 <= i < |rows| ==> Allowed(rows[i].stars)
    ensures InRange(Stars(rows, book))
  {
    if rows != [] {
      StarsInRange(rows[1..], book);
    }
  }

  lemma {:induction false} TotalBounds(s: seq<int>)
    requires InRange(s)
    ensures |s| <= Total(s) <= 5 * |s|
  {
    if s != [] {
      TotalBounds(s[1..]);
    }
  }

  lemma Cancel(x: real, y: real, n: real)
    requires n > 0.0 && x * n <= y * n
    ensures x <= y
  {
  }

  lemma MeanBounds(total: real, n: real)
    requires n > 0.0 && n <= total <= 5.0 * n
    ensures 1.0 <= total / n <= 5.0
  {
    var mean := total / n;
    assert mean * n == total;
    Cancel(1.0, mean, n);
    Cancel(mean, 5.0, n);
  }

  ghost function Opinions<T>(rows: seq<Row<T>>, book: Id): set<Id> {
    set row | row in rows && row.book == book :: row.user
  }

  /** With one row per book and user, counting rows is counting people. */
  lemma {:induction false} RowsArePeople<T>(rows: seq<Row<T>>, book: Id)
    requires Distinct(rows)
    ensures |Stars(rows, book)| == |Opinions(rows, book)|
  {
    if rows != [] {
      var rest := rows[1..];
      forall i, j | 0 <= i < j < |rest| ensures rest[i].id != rest[j].id
          && (rest[i].book != rest[j].book || rest[i].user != rest[j].user) {
        assert rest[i] == rows[i + 1] && rest[j] == rows[j + 1];
      }
      RowsArePeople(rest, book);
      OpinionsOfFirst(rows, book);
    } else {
      assert Opinions(rows, book) == {};
    }
  }

  lemma OpinionsOfFirst<T>(rows: seq<Row<T>>, book: Id)
    requires rows != [] && Distinct(rows)
    ensures Opinions(rows, book) == Opinions(rows[1..], book) + if rows[0].book == book then {rows[0].user} else {}
    ensures rows[0].book == book ==> rows[0].user !in Opinions(rows[1..], book)
  {
    var rest := rows[1..];
    assert rows == [rows[0]] + rest;
    forall user | user in Opinions(rows, book)
        ensures user in Opinions(rest, book) || (rows[0].book == book && user == rows[0].user) {
      var row :| row in rows && row.book == book && row.user == user;
      assert row == rows[0] || row in rest;
    }
    forall user | user in Opinions(rest, book)
        ensures user in Opinions(rows, book) && (rows[0].book == book ==> user != rows[0].user) {
      var row :| row in rest && row.book == book && row.user == user;
      var k :| 0 <= k < |rest| && rest[k] == row;
      assert rows[k + 1] == row;
    }
  }

  /** What a book's opinions in one table add up to. */
  function StarSum<T>(rows: seq<Row<T>>, book: Id): int {
    if rows == [] then 0
    else StarSum(rows[..|rows| - 1], book) + if rows[|rows| - 1].book == book then rows[|rows| - 1].stars else 0
  }

  lemma {:induction false} TotalIsStarSum<T>(rows: seq<Row<T>>, book: Id)
    ensures Total(Stars(rows, book)) == StarSum(rows, book)
  {
    if rows != [] {
      var init, last := rows[..|rows| - 1], rows[|rows| - 1];
      TotalIsStarSum(init, book);
      assert rows == init + [last];
      StarsAppend(init, [last], book);
      StarsOne(last, book);
      TotalAppend(Stars(init, book), Stars([last], book));
      assert [last.stars][1..] == [];
    }
  }

  lemma AverageTimesCount(s: seq<int>)
    ensures Average(s) * |s| as real == Total(s) as real
  {
    if s != [] {
      var n := |s| as real;
      assert Average(s) == Total(s) as real / n;
    }
  }

  /** The cached mean times the cached count is what all opinions on the book add up to. */
  lemma MeanOfTheStars(db: Db, book: Id)
    requires Agrees(db, book) && book in db.books
    ensures db.books[book].average * db.books[book].count as real
         == (StarSum(db.reviews, book) + StarSum(db.ratings, book)) as real
  {
    hide Stars, Total, StarSum, Average;
    AverageTimesCount(AllStars(db, book));
    TotalAppend(Stars(db.reviews, book), Stars(db.ratings, book));
    TotalIsStarSum(db.reviews, book);
    TotalIsStarSum(db.ratings, book);
  }

  /** In a consistent state a book's count is the people who reviewed plus those who rated it, and its mean is the sum
      of all their stars divided by that count, in 1 to 5 as soon as there is an opinion; without one both are zero. */
  lemma AggregatesMean(db: Db, book: Id)
    requires Inv(db) && book in db.books
    ensures db.books[book].count == |Opinions(db.reviews, book)| + |Opinions(db.ratings, book)|
    ensures db.books[book].average * db.books[book].count as real
         == (StarSum(db.reviews, book) + StarSum(db.ratings, book)) as real
    ensures db.books[book].count > 0 ==> 1.0 <= db.books[book].average <= 5.0
    ensures db.books[book].count == 0 ==> db.books[book].average == 0.0
  {
    assert Agrees(db, book);
    RowsArePeople(db.reviews, book);
    RowsArePeople(db.ratings, book);
    StarsInRange(db.reviews, book);
    StarsInRange(db.ratings, book);
    var all := AllStars(db, book);
    assert InRange(all);
    TotalBounds(all);
    MeanOfTheStars(db, book);
    hide StarSum;
    if |all| > 0 {
      MeanBounds(Total(all) as real, |all| as real);
    }
  }

  // ---------- What is stored ----------

  /** A successful save or rating stores exactly one opinion for that book and user and touches no other. */
  lemma UpsertIsMapUpdate<T>(rows: seq<Row<T>>, row: Row<T>, again: T, known: bool, book: Id, user: Id)
    requires Upsert(rows, row, again, known).Some?
    ensures var stored := Lookup(rows, row.book, row.user);
      Lookup(Upsert(rows, row, again, known).value, book, user) ==
        if book != row.book || user != row.user then Lookup(rows, book, user)
        else Some(if stored.None? then row else stored.value.(stars := row.stars, rest := again))
  {
    hide Find;
    var next := Upsert(rows, row, again, known).value;
    var i, k := Find(rows, row.book, row.user), Find(next, book, user);
    var was := Find(rows, book, user);
    if i < |rows| {
      assert forall j :: 0 <= j < |rows| ==> next[j].book == rows[j].book && next[j].user == rows[j].user;
      assert k == was;
    } else {
      assert forall j :: 0 <= j < |rows| ==> next[j] == rows[j];
      assert next[|rows|] == row;
      if was < |rows| {
        assert k == was;
      } else {
        assert k >= |rows|;
      }
    }
  }

  /** Removing a row removes the opinion of its book and user and touches no other. */
  lemma CutIsMapRemoval<T>(rows: seq<Row<T>>, i: nat, book: Id, user: Id)
    requires Distinct(rows) && i < |rows|
    ensures Lookup(rows[..i] + rows[i + 1..], book, user) ==
            if book == rows[i].book && user == rows[i].user then None else Lookup(rows, book, user)
  {
    hide Find;
    var next := rows[..i] + rows[i + 1..];
    var was, now := Find(rows, book, user), Find(next, book, user);
    assert forall j :: 0 <= j < |next| ==> next[j] == rows[if j < i then j else j + 1];
    if was < |rows| && was != i {
      var there := if was < i then was else was - 1;
      assert next[there] == rows[was];
      assert now < |next|;
      assert rows[if now < i then now else now + 1] == next[now];
    }
  }

  lemma LookupFinds<T>(rows: seq<Row<T>>, book: Id, user: Id, i: nat)
    requires Distinct(rows) && i < |rows|
    ensures rows[i].book == book && rows[i].user == user <==> Find(rows, book, user) == i
    ensures FindId(rows, rows[i].id) == i
  {
  }

  /** Editing by id changes the opinion stored under that id and no other. */
  lemma EditIsMapUpdate<T>(rows: seq<Row<T>>, id: Id, stars: int, rest: T, book: Id, user: Id)
    requires Distinct(rows) && Edit(rows, id, stars, rest).Some?
    ensures var was := Lookup(rows, book, user);
      Lookup(Edit(rows, id, stars, rest).value, book, user) ==
        if was.Some? && was.value.id == id then Some(Row(id, book, user, stars, rest)) else was
  {
    hide Find, FindId;
    var next := Edit(rows, id, stars, rest).value;
    var i, k, now := FindId(rows, id), Find(rows, book, user), Find(next, book, user);
    assert |next| == |rows|;
    assert forall j :: 0 <= j < |rows| ==> next[j].book == rows[j].book && next[j].user == rows[j].user;
    assert k == now;
    if k < |rows| { LookupFinds(rows, book, user, k); }
  }

  /** Deleting by id removes the opinion stored under that id and no other. */
  lemma DeleteIsMapRemoval<T>(rows: seq<Row<T>>, id: Id, book: Id, user: Id)
    requires Distinct(rows)
    ensures var was := Lookup(rows, book, user);
      Lookup(DeleteId(rows, id), book, user) == if was.Some? && was.value.id == id then None else was
  {
    var i, k := FindId(rows, id), Find(rows, book, user);
    if i < |rows| { CutIsMapRemoval(rows, i, book, user); }
    if k < |rows| { LookupFinds(rows, book, user, k); }
  }

  lemma DeleteOfIsMapRemoval<T>(rows: seq<Row<T>>, item: Id, author: Id, book: Id, user: Id)
    requires Distinct(rows)
    ensures Lookup(DeleteOf(rows, item, author), book, user) ==
            if book == item && user == author then None else Lookup(rows, book, user)
  {
    var i := Find(rows, item, author);
    if i < |rows| { CutIsMapRemoval(rows, i, book, user); }
  }

  // ---------- The tables are the last opinions of the history ----------

  /** A save or a rating is accepted exactly for one to five stars and, unless that user has one for that book
      already, for a known book and user and a new id; an update exactly with an id, and stars in range if it is
      somebody's; a removal always. */
  lemma WhenAccepted(db: Db, op: Op)
    ensures Try(db, op).Some? <==>
      match op
      case SaveReview(id, newId, book, user, stars, _) =>
        && 1 <= stars <= 5
        && (Lookup(db.reviews, book, user).Some? ||
            (book in db.books && user in db.users
             && forall row :: row in db.reviews ==> row.id != if id == "" then newId else id))
      case UpdateReview(id, _, stars, _) =>
        id != "" && (1 <= stars <= 5 || forall row :: row in db.reviews ==> row.id != id)
      case SetRating(newId, book, user, stars) =>
        && 1 <= stars <= 5
        && (Lookup(db.ratings, book, user).Some? ||
            (book in db.books && user in db.users && forall row :: row in db.ratings ==> row.id != newId))
      case _ => true
  {
    if op.SaveReview? {
      NewId(db.reviews, if op.id == "" then op.newId else op.id);
    } else if op.UpdateReview? {
      NewId(db.reviews, op.id);
    } else if op.SetRating? {
      NewId(db.ratings, op.newId);
    }
  }

  lemma NewId<T>(rows: seq<Row<T>>, id: Id)
    ensures FindId(rows, id) == |rows| <==> forall row :: row in rows ==> row.id != id
  {
    if FindId(rows, id) < |rows| {
      assert rows[FindId(rows, id)] in rows;
    }
  }

  datatype Review = Review(id: Id, stars: int, note: Note)

  /** The stars a user last gave a book and has not taken back, over a history that began with the tables of db. */
  function LastStars(db: Db, ops: seq<Op>, book: Id, user: Id): Option<int> {
    if ops == [] then
      var row := Lookup(db.ratings, book, user);
      if row.Some? then Some(row.value.stars) else None
    else
      var init, op := ops[..|ops| - 1], ops[|ops| - 1];
      var was := LastStars(db, init, book, user);
      if op.SetRating? && op.book == book && op.user == user && Try(Run(db, init), op).Some? then Some(op.stars)
      else if op.RemoveRating? && op.book == book && op.user == user then None
      else was
  }

  /** The review a user last saved for a book, as edited since under its id, unless removed. */
  function LastReview(db: Db, ops: seq<Op>, book: Id, user: Id): Option<Review> {
    if ops == [] then
      var row := Lookup(db.reviews, book, user);
      if row.Some? then Some(Review(row.value.id, row.value.stars, row.value.rest)) else None
    else
      var init, op := ops[..|ops| - 1], ops[|ops| - 1];
      var was := LastReview(db, init, book, user);
      match op
      case SaveReview(id, newId, item, author, stars, text) =>
        if item != book || author != user || Try(Run(db, init), op).None? then was
        else if was.Some? then Some(Review(was.value.id, stars, Note(text, true)))
        else Some(Review(if id == "" then newId else id, stars, Note(text, false)))
      case UpdateReview(id, _, stars, text) =>
        if was.Some? && was.value.id == id && Try(Run(db, init), op).Some?
        then Some(Review(id, stars, Note(text, true)))
        else was
      case RemoveReview(id) => if was.Some? && was.value.id == id then None else was
      case _ => was
  }

  lemma {:induction false} RunSnoc(db: Db, ops: seq<Op>, op: Op)
    ensures Run(db, ops + [op]) == After(Run(db, ops), op)
    decreases |ops|
  {
    if ops == [] {
      assert ops + [op] == [op] && [op][1..] == [];
      assert Run(After(db, op), []) == After(db, op);
    } else {
      assert (ops + [op])[1..] == ops[1..] + [op];
      RunSnoc(After(db, ops[0]), ops[1..], op);
    }
  }

  lemma {:induction false} ConsistentRun(db: Db, ops: seq<Op>)
    requires Consistent(db)
    ensures Consistent(Run(db, ops))
    decreases |ops|
  {
    if ops != [] {
      ConsistentStep(db, ops[0]);
      ConsistentRun(After(db, ops[0]), ops[1..]);
    }
  }

  lemma RatingStep(db: Db, op: Op, book: Id, user: Id)
    requires Distinct(db.ratings)
    ensures var was, now := Lookup(db.ratings, book, user), Lookup(After(db, op).ratings, book, user);
      if op.SetRating? && op.book == book && op.user == user && Try(db, op).Some?
      then now.Some? && now.value.stars == op.stars
      else if op.RemoveRating? && op.book == book && op.user == user then now.None?
      else now == was
  {
    hide Lookup, Upsert, DeleteOf, Edit, DeleteId, Find, FindId;
    match op
    case SetRating(newId, item, author, stars) =>
      if Try(db, op).Some? {
        var known := item in db.books && author in db.users;
        UpsertIsMapUpdate(db.ratings, Row(newId, item, author, stars, Unit), Unit, known, book, user);
      }
    case RemoveRating(item, author) => DeleteOfIsMapRemoval(db.ratings, item, author, book, user);
    case _ =>
  }

  lemma ReviewStep(db: Db, op: Op, book: Id, user: Id)
    requires Distinct(db.reviews)
    ensures var was, now := Lookup(db.reviews, book, user), Lookup(After(db, op).reviews, book, user);
      match op
      case SaveReview(id, newId, item, author, stars, text) =>
        if item != book || author != user || Try(db, op).None? then now == was
        else now == Some(Row(if was.Some? then was.value.id else if id == "" then newId else id, book, user, stars,
                             Note(text, was.Some?)))
      case UpdateReview(id, _, stars, text) =>
        now == if was.Some? && was.value.id == id && Try(db, op).Some?
               then Some(Row(id, book, user, stars, Note(text, true))) else was
      case RemoveReview(id) => now == if was.Some? && was.value.id == id then None else was
      case _ => now == was
  {
    LookupNames(db.reviews, book, user);
    hide Lookup, Upsert, DeleteOf, Edit, DeleteId, Find, FindId;
    match op
    case SaveReview(id, newId, item, author, stars, text) =>
      if Try(db, op).Some? {
        var row := Row(if id == "" then newId else id, item, author, stars, Note(text, false));
        UpsertIsMapUpdate(db.reviews, row, Note(text, true), item in db.books && author in db.users, book, user);
      }
    case UpdateReview(id, _, stars, text) =>
      if Try(db, op).Some? { EditIsMapUpdate(db.reviews, id, stars, Note(text, true), book, user); }
    case RemoveReview(id) => DeleteIsMapRemoval(db.reviews, id, book, user);
    case _ =>
  }

  lemma LookupNames<T>(rows: seq<Row<T>>, book: Id, user: Id)
    ensures Lookup(rows, book, user).Some? ==>
              Lookup(rows, book, user).value.book == book && Lookup(rows, book, user).value.user == user
  {
  }

  /** Over every run the rating stored for a book and user is the last one given and not taken back. */
  lemma {:induction false} RatingsAreTheLast(db: Db, ops: seq<Op>, book: Id, user: Id)
    requires Consistent(db)
    ensures var row := Lookup(Run(db, ops).ratings, book, user);
      LastStars(db, ops, book, user) == if row.Some? then Some(row.value.stars) else None
  {
    hide Lookup, Try, After;
    if ops != [] {
      var init, op := ops[..|ops| - 1], ops[|ops| - 1];
      RatingsAreTheLast(db, init, book, user);
      ConsistentRun(db, init);
      RunSnoc(db, init, op);
      assert init + [op] == ops;
      RatingStep(Run(db, init), op, book, user);
    }
  }

  /** And the review stored is the last one saved, with its later edits, unless removed: id, stars, text and whether
      it was edited. */
  lemma {:induction false} ReviewsAreTheLast(db: Db, ops: seq<Op>, book: Id, user: Id)
    requires Consistent(db)
    ensures var row := Lookup(Run(db, ops).reviews, book, user);
      LastReview(db, ops, book, user) ==
        if row.Some? then Some(Review(row.value.id, row.value.stars, row.value.rest)) else None
  {
    hide Lookup, Try, After;
    if ops != [] {
      var init, op := ops[..|ops| - 1], ops[|ops| - 1];
      ReviewsAreTheLast(db, init, book, user);
      ConsistentRun(db, init);
      RunSnoc(db, init, op);
      assert init + [op] == ops;
      ReviewStep(Run(db, init), op, book, user);
    }
  }

  // ---------- The repositories over the tables they rewrite ----------

  class Tables {
    var books: map<Id, Aggregate>
    var users: set<Id>
    var reviews: seq<Row<Note>>
    var ratings: seq<Row<Unit>>

    ghost function View(): Db
      reads this
    {
      Db(books, users, reviews, ratings)
    }

    constructor (books: map<Id, Aggregate>, users: set<Id>)
      ensures View() == Db(books, users, [], [])
    {
      this.books, this.users, this.reviews, this.ratings := books, users, [], [];
    }

    /** SELECT AVG, COUNT over both tables, then UPDATE Books. */
    method RecalculateBookRating(book: Id)
      modifies this`books
      ensures View() == Recalculated(old(View()), book)
    {
      var stars := Stars(reviews, book) + Stars(ratings, book);
      if book in books {
        books := books[book := Aggregate(Average(stars), |stars|)];
      }
    }
  }

  class ReviewRepository {
    const db: Tables

    constructor (db: Tables)
      ensures this.db == db
    {
      this.db := db;
    }

    method Save(id: Id, newId: Id, book: Id, user: Id, stars: int, text: string) returns (ok: bool)
      modifies db
      ensures ok == Try(old(db.View()), SaveReview(id, newId, book, user, stars, text)).Some?
      ensures db.View() == After(old(db.View()), SaveReview(id, newId, book, user, stars, text))
      ensures ok ==> var row := Lookup(db.reviews, book, user);
                     row.Some? && row.value.stars == stars && row.value.rest.text == text
    {
      var row := Row(if id == "" then newId else id, book, user, stars, Note(text, false));
      var known := book in db.books && user in db.users;
      var rows := Upsert(db.reviews, row, Note(text, true), known);
      if rows.None? { return false; }
      UpsertIsMapUpdate(db.reviews, row, Note(text, true), known, book, user);
      db.reviews := rows.value;
      db.RecalculateBookRating(book);
      return true;
    }

    method Update(id: Id, book: Id, stars: int, text: string) returns (ok: bool)
      modifies db
      ensures ok == Try(old(db.View()), UpdateReview(id, book, stars, text)).Some?
      ensures db.View() == After(old(db.View()), UpdateReview(id, book, stars, text))
    {
      if id == "" { return false; }
      var rows := Edit(db.reviews, id, stars, Note(text, true));
      if rows.None? { return false; }
      db.reviews := rows.value;
      db.RecalculateBookRating(book);
      return true;
    }

    method Remove(id: Id) returns (ok: bool)
      modifies db
      ensures ok && db.View() == After(old(db.View()), RemoveReview(id))
    {
      var i := FindId(db.reviews, id);
      var book := if i < |db.reviews| then db.reviews[i].book else "";
      db.reviews := DeleteId(db.reviews, id);
      if book != "" {
        db.RecalculateBookRating(book);
      }
      return true;
    }
  }

  class RatingRepository {
    const db: Tables

    constructor (db: Tables)
      ensures this.db == db
    {
      this.db := db;
    }

    method SetStars(newId: Id, book: Id, user: Id, stars: int) returns (ok: bool)
      modifies db
      ensures ok == Try(old(db.View()), SetRating(newId, book, user, stars)).Some?
      ensures db.View() == After(old(db.View()), SetRating(newId, book, user, stars))
      ensures ok ==> Lookup(db.ratings, book, user).Some? && Lookup(db.ratings, book, user).value.stars == stars
    {
      if stars < 1 || stars > 5 { return false; }
      var known := book in db.books && user in db.users;
      var rows := Upsert(db.ratings, Row(newId, book, user, stars, Unit), Unit, known);
      if rows.None? { return false; }
      UpsertIsMapUpdate(db.ratings, Row(newId, book, user, stars, Unit), Unit, known, book, user);
      db.ratings := rows.value;
      db.RecalculateBookRating(book);
      return true;
    }

    method RemoveStars(book: Id, user: Id) returns (ok: bool)
      modifies db
      ensures ok && db.View() == After(old(db.View()), RemoveRating(book, user))
    {
      db.ratings := DeleteOf(db.ratings, book, user);
      db.RecalculateBookRating(book);
      return true;
    }
  }
}
