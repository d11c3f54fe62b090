/** Carts in the database, and buying one: what the tables hold before and after. */
module Shop {
  import opened Pricing

  datatype BookRow = BookRow(title: string, base: real, discount: real, sales: int)

  datatype OrderRow = OrderRow(user: Id, subtotal: real, discountTotal: real, finalTotal: real, paid: bool,
      completed: bool)

  datatype ItemRow = ItemRow(order: Id, book: Id, title: string, unitPrice: real, discountAmount: real,
      quantity: int, lineTotal: real)

  /** Cart rows are unique per user and book. */
  datatype Key = Key(user: Id, book: Id)

  datatype Db = Db(books: map<Id, BookRow>, users: set<Id>, carts: set<Id>, cartItems: map<Key, int>,
                   orders: map<Id, OrderRow>, orderItems: seq<ItemRow>)

  datatype OrderLine = OrderLine(book: Id, title: string, unitPrice: real, quantity: int)

  datatype Order = Order(id: Id, user: Id, subtotal: real, discountTotal: real, finalTotal: real,
                         paid: bool, completed: bool, items: seq<OrderLine>)

  datatype Reply = CartIsEmpty | NotPersisted | NotCommitted | Done(order: Id, finalTotal: real, books: seq<Id>)

  // ---------- Cart rows ----------

  function AtLeastOne(quantity: int): int {
    if quantity < 1 then 1 else quantity
  }

  /** INSERT OR IGNORE: a user without a row keeps having none. */
  function Opened(db: Db, user: Id): Db {
    if user in db.users then db.(carts := db.carts + {user}) else db
  }

  /** INSERT .. ON CONFLICT(userId, bookId) DO UPDATE SET quantity: replaces, does not add. */
  predicate CanPut(db: Db, user: Id, book: Id, quantity: int) {
    quantity > 0 && (Key(user, book) in db.cartItems || (user in db.carts && book in db.books))
  }

  function Put(db: Db, user: Id, book: Id, quantity: int): Db {
    if CanPut(db, user, book, quantity) then db.(cartItems := db.cartItems[Key(user, book) := quantity]) else db
  }

  function Taken(db: Db, user: Id, book: Id): Db {
    db.(cartItems := db.cartItems - {Key(user, book)})
  }

  function Requantified(db: Db, user: Id, book: Id, quantity: int): Db {
    if quantity <= 0 then Taken(db, user, book)
    else if Key(user, book) in db.cartItems then db.(cartItems := db.cartItems[Key(user, book) := quantity])
    else db
  }

  function Cleared(db: Db, user: Id): Db {
    db.(cartItems := map key | key in db.cartItems && key.user != user :: db.cartItems[key])
  }

  function PutAll(db: Db, user: Id, lines: seq<Line>): Db {
    if lines == [] then db
    else Put(PutAll(db, user, lines[..|lines| - 1]), user, lines[|lines| - 1].book, lines[|lines| - 1].quantity)
  }

  // ---------- Loading a cart ----------

  predicate InCart(db: Db, user: Id, book: Id) {
    Key(user, book) in db.cartItems && book in db.books
  }

  /** The rows of the join of CartItems and Books for a user, in any order. */
  ghost predicate Lists(db: Db, user: Id, books: seq<Id>) {
    && (forall i, j :: 0 <= i < j < |books| ==> books[i] != books[j])
    && (forall book :: book in books <==> InCart(db, user, book))
  }

  function LineOf(db: Db, user: Id, book: Id): Line
    requires InCart(db, user, book)
  {
    var row := db.books[book];
    Line(book, row.title, row.base, row.base - row.discount, AtLeastOne(db.cartItems[Key(user, book)]))
  }

  function Loaded(db: Db, user: Id, books: seq<Id>): (lines: seq<Line>)
    requires forall book :: book in books ==> InCart(db, user, book)
    ensures |lines| == |books| && forall i :: 0 <= i < |books| ==> lines[i] == LineOf(db, user, books[i])
  {
    if books == [] then [] else
      assert books[|books| - 1] in books;
      Loaded(db, user, books[..|books| - 1]) + [LineOf(db, user, books[|books| - 1])]
  }

  // ---------- Orders ----------

  function OrderItem(line: Line): OrderLine {
    OrderLine(line.book, line.title, line.unitPrice, AtLeastOne(line.quantity))
  }

  function OrderItems(lines: seq<Line>): (items: seq<OrderLine>)
    ensures |items| == |lines| && forall i :: 0 <= i < |lines| ==> items[i] == OrderItem(lines[i])
  {
    if lines == [] then [] else OrderItems(lines[..|lines| - 1]) + [OrderItem(lines[|lines| - 1])]
  }

  function Purchased(id: Id, user: Id, cart: State): Order {
    Order(id, user, cart.subtotal, cart.promo, cart.total, false, false, OrderItems(cart.lines))
  }

  function Header(order: Order): OrderRow {
    OrderRow(order.user, order.subtotal, order.discountTotal, order.finalTotal, order.paid, order.completed)
  }

  function RowOf(id: Id, item: OrderLine): ItemRow {
    ItemRow(id, item.book, item.title, item.unitPrice, 0.0, item.quantity, item.unitPrice * item.quantity as real)
  }

  /** Rows of unknown books are refused one by one, and nobody looks. */
  function Rows(db: Db, id: Id, items: seq<OrderLine>): seq<ItemRow> {
    if items == [] then [] else
      var before, item := Rows(db, id, items[..|items| - 1]), items[|items| - 1];
      if item.book in db.books then before + [RowOf(id, item)] else before
  }

  predicate CanSave(db: Db, order: Order) {
    order.id !in db.orders && order.user in db.users
  }

  function Saved(db: Db, order: Order): Db {
    db.(orders := db.orders[order.id := Header(order)], orderItems := db.orderItems + Rows(db, order.id, order.items))
  }

  function Sell(books: map<Id, BookRow>, item: OrderLine): map<Id, BookRow> {
    if item.book !in books then books
    else books[item.book := books[item.book].(sales := books[item.book].sales + item.quantity)]
  }

  function SellAll(books: map<Id, BookRow>, items: seq<OrderLine>): map<Id, BookRow> {
    if items == [] then books else Sell(SellAll(books, items[..|items| - 1]), items[|items| - 1])
  }

  function Bought(items: seq<OrderLine>): seq<Id> {
    if items == [] then [] else Bought(items[..|items| - 1]) + [items[|items| - 1].book]
  }

  function Billed(lines: seq<Line>): State {
    Recalculated(State(lines, 0.0, 0.0, 0.0))
  }

  function Paid(id: Id, user: Id, lines: seq<Line>): Order {
    Purchased(id, user, Billed(lines)).(paid := true, completed := true)
  }

  /** The checkout request. The transaction may fail to start, in which case every statement commits on its
      own, or to commit, in which case it is rolled back. */
  function Checkout(db: Db, user: Id, id: Id, books: seq<Id>, started: bool, commits: bool): (Db, Reply)
    requires forall book :: book in books ==> InCart(db, user, book)
  {
    var ready := Opened(db, user);
    var order := Paid(id, user, Loaded(db, user, books));
    if books == [] then (ready, CartIsEmpty)
    else if !CanSave(ready, order) then (ready, NotPersisted)
    else if started && !commits then (ready, NotCommitted)
    else
      var saved := Saved(ready, order);
      (Cleared(saved.(books := SellAll(saved.books, order.items)), user), Done(id, order.finalTotal,
          Bought(order.items)))
  }

  // ---------- What a loaded cart costs ----------

  function Due(db: Db, user: Id, book: Id): real
    requires InCart(db, user, book)
  {
    Selling(db.books[book].base, db.books[book].discount) * AtLeastOne(db.cartItems[Key(user, book)]) as real
  }

  /** A discount that swallows the whole price is ignored: the line is charged at the full base price. */
  predicate Overcharged(row: BookRow) {
    row.discount >= row.base > 0.0
  }

  function Excess(db: Db, user: Id, book: Id): real
    requires InCart(db, user, book)
  {
    if Overcharged(db.books[book]) then db.books[book].base * AtLeastOne(db.cartItems[Key(user, book)]) as real else 0.0
  }

  datatype Charge = Charge(due: real, excess: real)

  function Charges(db: Db, user: Id, books: seq<Id>): Charge
    requires forall book :: book in books ==> InCart(db, user, book)
  {
    if books == [] then Charge(0.0, 0.0) else
      assert books[|books| - 1] in books;
      var before, book := Charges(db, user, books[..|books| - 1]), books[|books| - 1];
      Charge(before.due + Due(db, user, book), before.excess + Excess(db, user, book))
  }

  ghost predicate GoodBooks(books: map<Id, BookRow>) {
    forall book :: book in books ==> books[book].base >= 0.0 && books[book].discount >= 0.0
  }

  lemma LineCharge(db: Db, user: Id, book: Id)
    requires GoodBooks(db.books) && InCart(db, user, book)
    ensures var line := LineOf(db, user, book);
      && Gross(line) - Saving(line) == Due(db, user, book) + Excess(db, user, book)
      && line.unitPrice >= 0.0 && line.quantity >= 1
    ensures Excess(db, user, book) >= 0.0 && (Excess(db, user, book) == 0.0 <==> !Overcharged(db.books[book]))
  {
    var row := db.books[book];
    var n := AtLeastOne(db.cartItems[Key(user, book)]) as real;
    if Overcharged(row) {
      Scaled(1.0, n, row.base);
    } else {
      assert row.base * n - row.discount * n == (row.base - row.discount) * n;
    }
  }

  lemma {:induction false} ChargesOfBill(db: Db, user: Id, books: seq<Id>)
    requires GoodBooks(db.books) && forall book :: book in books ==> InCart(db, user, book)
    ensures var bill, charges := Sum(Loaded(db, user, books)), Charges(db, user, books);
      && bill.gross - bill.saved == charges.due + charges.excess
      && charges.excess >= 0.0
      && (charges.excess == 0.0 <==> forall book :: book in books ==> !Overcharged(db.books[book]))
    ensures Sellable(Loaded(db, user, books))
  {
    hide Gross, Saving, Due, Excess, LineOf, Overcharged;
    if books != [] {
      var n := |books| - 1;
      assert books == books[..n] + [books[n]];
      ChargesOfBill(db, user, books[..n]);
      LineCharge(db, user, books[n]);
      SumSnoc(Loaded(db, user, books[..n]), LineOf(db, user, books[n]));
    }
  }

  /** A loaded cart without a promotion costs the selling prices of its books, plus the full base price of every
      book whose discount reaches it; so it costs exactly the selling prices if and only if there is none. */
  lemma LoadedCartCosts(db: Db, user: Id, books: seq<Id>)
    requires GoodBooks(db.books) && Lists(db, user, books)
    ensures var total, charges := Billed(Loaded(db, user, books)).total, Charges(db, user, books);
      && total == charges.due + charges.excess >= charges.due
      && (total == charges.due <==> forall book :: book in books ==> !Overcharged(db.books[book]))
  {
    ChargesOfBill(db, user, books);
    PayableBounds(Loaded(db, user, books), 0.0);
  }

  /** The price does not depend on the order the database lists the rows in. */
  lemma AnyListingCostsTheSame(db: Db, user: Id, books: seq<Id>, others: seq<Id>)
    requires Lists(db, user, books) && Lists(db, user, others)
    ensures Billed(Loaded(db, user, books)).total == Billed(Loaded(db, user, others)).total
    ensures Billed(Loaded(db, user, books)).subtotal == Billed(Loaded(db, user, others)).subtotal
  {
    var a, b := Loaded(db, user, books), Loaded(db, user, others);
    forall i, j | 0 <= i < j < |a| ensures a[i] != a[j] { assert a[i].book != a[j].book; }
    forall i, j | 0 <= i < j < |b| ensures b[i] != b[j] { assert b[i].book != b[j].book; }
    forall line ensures line in a <==> line in b {
      if line in a {
        var i :| 0 <= i < |a| && a[i] == line;
        assert books[i] in others;
        var j :| 0 <= j < |others| && others[j] == books[i];
        assert b[j] == line;
      }
      if line in b {
        var i :| 0 <= i < |b| && b[i] == line;
        assert others[i] in books;
        var j :| 0 <= j < |books| && books[j] == others[i];
        assert a[j] == line;
      }
    }
    SameMembers(a, b);
    SumOfPermutation(a, b);
  }

  lemma {:induction false} CountOfDistinct(a: seq<Line>, line: Line)
    requires forall i, j :: 0 <= i < j < |a| ==> a[i] != a[j]
    ensures multiset(a)[line] == if line in a then 1 else 0
  {
    if a != [] {
      assert a == [a[0]] + a[1..];
      CountOfDistinct(a[1..], line);
    }
  }

  lemma SameMembers(a: seq<Line>, b: seq<Line>)
    requires forall i, j :: 0 <= i < j < |a| ==> a[i] != a[j]
    requires forall i, j :: 0 <= i < j < |b| ==> b[i] != b[j]
    requires forall line :: line in a <==> line in b
    ensures multiset(a) == multiset(b)
  {
    forall line ensures multiset(a)[line] == multiset(b)[line] {
      CountOfDistinct(a, line);
      CountOfDistinct(b, line);
    }
  }

  // ---------- What the tables add up to ----------

  function Units(rows: seq<ItemRow>, book: Id): int {
    if rows == [] then 0
    else Units(rows[..|rows| - 1], book) + if rows[|rows| - 1].book == book then rows[|rows| - 1].quantity else 0
  }

  function LineTotals(rows: seq<ItemRow>, order: Id): real {
    if rows == [] then 0.0
    else LineTotals(rows[..|rows| - 1], order) + if rows[|rows| - 1].order
        == order then rows[|rows| - 1].lineTotal else 0.0
  }

  function Copies(items: seq<OrderLine>, book: Id): int {
    if items == [] then 0
    else Copies(items[..|items| - 1], book) + if items[|items| - 1].book == book then items[|items| - 1].quantity else 0
  }

  /** SELECT * FROM OrderItems WHERE orderId = ? */
  function RowsOf(rows: seq<ItemRow>, order: Id): seq<ItemRow> {
    if rows == [] then []
    else RowsOf(rows[..|rows| - 1], order) + if rows[|rows| - 1].order == order then [rows[|rows| - 1]] else []
  }

  lemma {:induction false} RowsAppend(a: seq<ItemRow>, b: seq<ItemRow>, book: Id, order: Id)
    ensures Units(a + b, book) == Units(a, book) + Units(b, book)
    ensures LineTotals(a + b, order) == LineTotals(a, order) + LineTotals(b, order)
    ensures RowsOf(a + b, order) == RowsOf(a, order) + RowsOf(b, order)
  {
    if b == [] {
      assert a + b == a;
    } else {
      var n := |b| - 1;
      assert (a + b)[..|a + b| - 1] == a + b[..n];
      RowsAppend(a, b[..n], book, order);
    }
  }

  lemma {:induction false} NoRows(rows: seq<ItemRow>, order: Id)
    requires forall i :: 0 <= i < |rows| ==> rows[i].order != order
    ensures RowsOf(rows, order) == [] && LineTotals(rows, order) == 0.0
  {
    if rows != [] {
      NoRows(rows[..|rows| - 1], order);
    }
  }

  ghost predicate Known(books: map<Id, BookRow>, items: seq<OrderLine>) {
    forall i :: 0 <= i < |items| ==> items[i].book in books
  }

  /** Every line of an order of known books becomes a row, in order. */
  lemma {:induction false} RowsKept(db: Db, id: Id, items: seq<OrderLine>)
    requires Known(db.books, items)
    ensures |Rows(db, id, items)| == |items|
    ensures forall i :: 0 <= i < |items| ==> Rows(db, id, items)[i] == RowOf(id, items[i])
  {
    if items != [] {
      RowsKept(db, id, items[..|items| - 1]);
    }
  }

  lemma {:induction false} RowsAddUp(db: Db, id: Id, lines: seq<Line>, book: Id)
    requires Known(db.books, OrderItems(lines)) && forall i :: 0 <= i < |lines| ==> lines[i].quantity >= 1
    ensures Units(Rows(db, id, OrderItems(lines)), book) == Copies(OrderItems(lines), book)
    ensures LineTotals(Rows(db, id, OrderItems(lines)), id) == Sum(lines).gross
    ensures RowsOf(Rows(db, id, OrderItems(lines)), id) == Rows(db, id, OrderItems(lines))
  {
    if lines != [] {
      var n := |lines| - 1;
      var items, rows := OrderItems(lines), Rows(db, id, OrderItems(lines));
      assert items[..n] == OrderItems(lines[..n]);
      RowsAddUp(db, id, lines[..n], book);
      assert items[n] == OrderItem(lines[n]);
      assert rows[..|rows| - 1] == Rows(db, id, items[..n]) && rows[|rows| - 1] == RowOf(id, items[n]);
      assert RowOf(id, items[n]).lineTotal == Gross(lines[n]);
    }
  }

  /** Sales grow by the copies sold, and nothing else about a book changes. */
  lemma {:induction false} SalesAddUp(books: map<Id, BookRow>, items: seq<OrderLine>, book: Id)
    requires Known(books, items)
    ensures SellAll(books, items).Keys == books.Keys
    ensures book in books ==>
              SellAll(books, items)[book] == books[book].(sales := books[book].sales + Copies(items, book))
  {
    if items != [] {
      SalesAddUp(books, items[..|items| - 1], book);
      SalesAddUp(books, items[..|items| - 1], items[|items| - 1].book);
    }
  }

  // ---------- The shop over its whole life ----------

  datatype Step =
    | OpenCart(user: Id)
    | AddToCart(user: Id, book: Id, quantity: int)
    | ChangeQuantity(user: Id, book: Id, quantity: int)
    | RemoveFromCart(user: Id, book: Id)
    | EmptyCart(user: Id)
    | SaveCart(user: Id, lines: seq<Line>)
    | Reprice(book: Id, base: real, discount: real)
    | Buy(user: Id, order: Id, books: seq<Id>, started: bool, commits: bool)

  /** A listing the database would not give is no step. */
  ghost function Next(db: Db, step: Step): Db {
    match step
    case OpenCart(user) => Opened(db, user)
    case AddToCart(user, book, quantity) => Put(db, user, book, quantity)
    case ChangeQuantity(user, book, quantity) => Requantified(db, user, book, quantity)
    case RemoveFromCart(user, book) => Taken(db, user, book)
    case EmptyCart(user) => Cleared(db, user)
    case SaveCart(user, lines) => PutAll(Cleared(db, user), user, lines)
    case Reprice(book, base, discount) =>
      if book in db.books && base >= 0.0 && discount >= 0.0
      then db.(books := db.books[book := db.books[book].(base := base, discount := discount)]) else db
    case Buy(user, order, books, started, commits) =>
      if Lists(db, user, books) then Checkout(db, user, order, books, started, commits).0 else db
  }

  ghost function Run(db: Db, steps: seq<Step>): Db {
    if steps == [] then db else Next(Run(db, steps[..|steps| - 1]), steps[|steps| - 1])
  }

  ghost predicate CartsOk(db: Db) {
    && db.carts <= db.users
    && (forall key :: key in db.cartItems ==> key.user in db.carts && key.book in db.books && db.cartItems[key] >= 1)
    && GoodBooks(db.books)
  }

  /** An order's stored lines add up to its subtotal, and it charges no more than that. */
  ghost predicate OrderOk(db: Db, id: Id) {
    id in db.orders ==>
      var order := db.orders[id];
      && order.subtotal == LineTotals(db.orderItems, id)
      && 0.0 <= order.finalTotal <= order.subtotal
      && order.paid && order.completed && RowsOf(db.orderItems, id) != []
  }

  ghost predicate NoOrphans(db: Db) {
    forall i :: 0 <= i < |db.orderItems| ==> db.orderItems[i].order in db.orders
  }

  ghost predicate SalesOk(db: Db, opening: map<Id, int>, book: Id) {
    book in db.books ==> book in opening && db.books[book].sales == opening[book] + Units(db.orderItems, book)
  }

  ghost predicate ShopInv(db: Db, opening: map<Id, int>) {
    CartsOk(db) && NoOrphans(db) && (forall id :: OrderOk(db, id)) && (forall book :: SalesOk(db, opening, book))
  }

  /** The step is a checkout that goes through. */
  ghost predicate Sale(db: Db, step: Step) {
    step.Buy? && Lists(db, step.user, step.books)
    && Checkout(db, step.user, step.order, step.books, step.started, step.commits).1.Done?
  }

  ghost function Basket(db: Db, step: Step): seq<Line>
    requires Sale(db, step)
  {
    Loaded(db, step.user, step.books)
  }

  lemma LoadedLines(db: Db, user: Id, books: seq<Id>)
    requires CartsOk(db) && Lists(db, user, books)
    ensures var lines := Loaded(db, user, books);
      && (forall i :: 0 <= i < |lines| ==> lines[i].quantity >= 1)
      && Known(db.books, OrderItems(lines))
  {
    var lines := Loaded(db, user, books);
    forall i | 0 <= i < |lines| ensures lines[i].quantity >= 1 && OrderItems(lines)[i].book in db.books {
      assert lines[i] == LineOf(db, user, books[i]);
      assert books[i] in books;
    }
  }

  /** What a successful checkout does to the tables, piece by piece. */
  lemma CheckoutDone(db: Db, step: Step)
    requires CartsOk(db) && Sale(db, step)
    ensures var lines, next := Basket(db, step), Next(db, step);
      var order := Paid(step.order, step.user, lines);
      && step.order !in db.orders && next.orders == db.orders[step.order := Header(order)]
      && next.orderItems == db.orderItems + Rows(db, step.order, OrderItems(lines))
      && next.books == SellAll(db.books, OrderItems(lines))
      && next.users == db.users && next.carts <= db.users && db.carts <= next.carts
      && (forall key :: key in next.cartItems <==> key in db.cartItems && key.user != step.user)
      && (forall key :: key in next.cartItems ==> next.cartItems[key] == db.cartItems[key])
      && Checkout(db, step.user, step.order, step.books, step.started, step.commits).1.finalTotal == order.finalTotal
  {
    hide Sum, Gross, Saving, SellAll, OrderItems, Bought, LineOf;
    RowsOfSameBooks(db, Opened(db, step.user), step.order, OrderItems(Basket(db, step)));
  }

  lemma {:induction false} RowsOfSameBooks(db: Db, other: Db, id: Id, items: seq<OrderLine>)
    requires db.books == other.books
    ensures Rows(db, id, items) == Rows(other, id, items)
  {
    if items != [] {
      RowsOfSameBooks(db, other, id, items[..|items| - 1]);
    }
  }

  lemma CartsOkPutAll(db: Db, user: Id, lines: seq<Line>)
    requires CartsOk(db)
    ensures CartsOk(PutAll(db, user, lines))
        && PutAll(db, user, lines) == db.(cartItems := PutAll(db, user, lines).cartItems)
  {
  }

  ghost predicate SameOrders(db: Db, next: Db) {
    && next.orders == db.orders && next.orderItems == db.orderItems
    && next.books.Keys == db.books.Keys && forall book :: book in db.books ==>
        next.books[book].sales == db.books[book].sales
  }

  lemma CartStepSellsNothing(db: Db, step: Step)
    requires CartsOk(db) && !step.Buy? && !step.Reprice?
    ensures CartsOk(Next(db, step)) && SameOrders(db, Next(db, step))
  {
    if step.SaveCart? {
      CartsOkPutAll(Cleared(db, step.user), step.user, step.lines);
    }
  }

  lemma FailedSaleSellsNothing(db: Db, step: Step)
    requires CartsOk(db) && step.Buy? && !Sale(db, step)
    ensures CartsOk(Next(db, step)) && SameOrders(db, Next(db, step))
  {
    if Lists(db, step.user, step.books) {
      assert Next(db, step) == Opened(db, step.user);
    }
  }

  /** Everything but a sale leaves orders, their lines, and sales alone. */
  lemma OnlySalesSell(db: Db, step: Step)
    requires CartsOk(db) && !Sale(db, step)
    ensures CartsOk(Next(db, step)) && SameOrders(db, Next(db, step))
  {
    if step.Buy? {
      FailedSaleSellsNothing(db, step);
    } else if !step.Reprice? {
      CartStepSellsNothing(db, step);
    }
  }

  lemma FreshRows(db: Db, id: Id, lines: seq<Line>)
    requires NoOrphans(db) && id !in db.orders && Known(db.books, OrderItems(lines))
    requires forall i :: 0 <= i < |lines| ==> lines[i].quantity >= 1
    ensures var rows := Rows(db, id, OrderItems(lines));
      && RowsOf(db.orderItems + rows, id) == rows && |rows| == |lines|
      && LineTotals(db.orderItems + rows, id) == Sum(lines).gross
  {
    hide Gross, Saving, Sum;
    RowsAppend(db.orderItems, Rows(db, id, OrderItems(lines)), "", id);
    NoRows(db.orderItems, id);
    RowsAddUp(db, id, lines, "");
    RowsKept(db, id, OrderItems(lines));
  }

  /** The rows stored for an order that was not there before. */
  lemma StoredRows(db: Db, step: Step)
    requires CartsOk(db) && NoOrphans(db) && Sale(db, step)
    ensures var rows := Rows(db, step.order, OrderItems(Basket(db, step)));
      && RowsOf(Next(db, step).orderItems, step.order) == rows
      && LineTotals(Next(db, step).orderItems, step.order) == Sum(Basket(db, step)).gross
      && |rows| == |Basket(db, step)| > 0
  {
    hide Sum, SellAll, Paid, Next, Rows, RowsOf, LineTotals, OrderItems, Bought;
    CheckoutDone(db, step);
    LoadedLines(db, step.user, step.books);
    FreshRows(db, step.order, Basket(db, step));
  }

  lemma OtherRows(db: Db, step: Step, id: Id)
    requires CartsOk(db) && Sale(db, step) && id != step.order
    ensures RowsOf(Next(db, step).orderItems, id) == RowsOf(db.orderItems, id)
    ensures LineTotals(Next(db, step).orderItems, id) == LineTotals(db.orderItems, id)
  {
    hide Gross, Saving, Sum, Sell, Paid;
    var items := OrderItems(Basket(db, step));
    CheckoutDone(db, step);
    LoadedLines(db, step.user, step.books);
    RowsAppend(db.orderItems, Rows(db, step.order, items), "", id);
    RowsKept(db, step.order, items);
    NoRows(Rows(db, step.order, items), id);
  }

  lemma NewOrderOk(db: Db, step: Step)
    requires CartsOk(db) && NoOrphans(db) && Sale(db, step)
    ensures OrderOk(Next(db, step), step.order)
  {
    CheckoutDone(db, step);
    StoredRows(db, step);
    ChargesOfBill(db, step.user, step.books);
    PayableBounds(Basket(db, step), 0.0);
  }

  lemma SaleKeepsOrders(db: Db, step: Step, id: Id)
    requires CartsOk(db) && NoOrphans(db) && OrderOk(db, id) && Sale(db, step)
    ensures OrderOk(Next(db, step), id)
  {
    if id == step.order {
      NewOrderOk(db, step);
    } else {
      CheckoutDone(db, step);
      OtherRows(db, step, id);
    }
  }

  lemma SaleKeepsSales(db: Db, step: Step, opening: map<Id, int>, book: Id)
    requires CartsOk(db) && SalesOk(db, opening, book) && Sale(db, step)
    ensures SalesOk(Next(db, step), opening, book)
  {
    hide Gross, Saving, Sum, Sell, Paid;
    var lines := Basket(db, step);
    CheckoutDone(db, step);
    LoadedLines(db, step.user, step.books);
    RowsAppend(db.orderItems, Rows(db, step.order, OrderItems(lines)), book, "");
    RowsAddUp(db, step.order, lines, book);
    SalesAddUp(db.books, OrderItems(lines), book);
  }

  lemma SaleKeepsCarts(db: Db, step: Step)
    requires CartsOk(db) && Sale(db, step)
    ensures CartsOk(Next(db, step))
  {
    hide Gross, Saving, Sum, SellAll, Paid, Checkout, Rows, OrderItems, Copies, LineOf;
    var lines, next := Basket(db, step), Next(db, step);
    CheckoutDone(db, step);
    LoadedLines(db, step.user, step.books);
    forall book
      ensures book in next.books <==> book in db.books
      ensures book in db.books ==>
                next.books[book].base == db.books[book].base && next.books[book].discount == db.books[book].discount {
      SalesAddUp(db.books, OrderItems(lines), book);
    }
  }

  lemma SaleOrphansNothing(db: Db, step: Step)
    requires CartsOk(db) && NoOrphans(db) && Sale(db, step)
    ensures NoOrphans(Next(db, step))
  {
    hide Gross, Saving, Sum, Sell, Paid, Checkout;
    CheckoutDone(db, step);
    LoadedLines(db, step.user, step.books);
    RowsKept(db, step.order, OrderItems(Basket(db, step)));
  }

  lemma ShopStep(db: Db, step: Step, opening: map<Id, int>)
    requires ShopInv(db, opening)
    ensures ShopInv(Next(db, step), opening)
  {
    hide Next, Sale, OrderOk, SalesOk;
    if Sale(db, step) {
      SaleKeepsCarts(db, step);
      SaleOrphansNothing(db, step);
      forall id ensures OrderOk(Next(db, step), id) { SaleKeepsOrders(db, step, id); }
      forall book ensures SalesOk(Next(db, step), opening, book) { SaleKeepsSales(db, step, opening, book); }
    } else {
      OnlySalesSell(db, step);
      forall id ensures OrderOk(Next(db, step), id) { SameOrderOk(db, Next(db, step), id); }
      forall book ensures SalesOk(Next(db, step), opening, book) { SameSalesOk(db, Next(db, step), opening, book); }
    }
  }

  lemma SameOrderOk(db: Db, next: Db, id: Id)
    requires OrderOk(db, id) && SameOrders(db, next)
    ensures OrderOk(next, id)
  {
  }

  lemma SameSalesOk(db: Db, next: Db, opening: map<Id, int>, book: Id)
    requires SalesOk(db, opening, book) && SameOrders(db, next)
    ensures SalesOk(next, opening, book)
  {
  }

  /** A shop without orders satisfies the invariant, with its sales so far as the opening balance. */
  lemma ShopOpens(db: Db)
    requires CartsOk(db) && db.orders == map[] && db.orderItems == []
    ensures ShopInv(db, map book | book in db.books :: db.books[book].sales)
  {
  }

  /** Over any run of cart edits, price changes and checkouts by any users: every order's lines add up to its
      subtotal and it charges between nothing and that; and every book's sales are exactly the copies in orders. */
  lemma {:induction false} ShopKeepsBooks(db: Db, steps: seq<Step>, opening: map<Id, int>)
    requires ShopInv(db, opening)
    ensures ShopInv(Run(db, steps), opening)
  {
    hide Next, ShopInv;
    if steps != [] {
      var n := |steps| - 1;
      ShopKeepsBooks(db, steps[..n], opening);
      ShopStep(Run(db, steps[..n]), steps[n], opening);
    }
  }

  lemma OrderKept(db: Db, step: Step, id: Id)
    requires CartsOk(db) && id in db.orders
    ensures var next := Next(db, step);
      id in next.orders && next.orders[id] == db.orders[id] && RowsOf(next.orderItems, id) == RowsOf(db.orderItems, id)
  {
    if Sale(db, step) {
      CheckoutDone(db, step);
      OtherRows(db, step, id);
    } else {
      OnlySalesSell(db, step);
    }
  }

  /** A stored order never changes again, whatever is bought or repriced later. */
  lemma {:induction false} OrdersAreForever(db: Db, steps: seq<Step>, opening: map<Id, int>, id: Id)
    requires ShopInv(db, opening) && id in db.orders
    ensures var next := Run(db, steps);
      id in next.orders && next.orders[id] == db.orders[id] && RowsOf(next.orderItems, id) == RowsOf(db.orderItems, id)
  {
    hide Next, OrderOk, SalesOk, CartsOk, NoOrphans;
    if steps != [] {
      var n := |steps| - 1;
      OrdersAreForever(db, steps[..n], opening, id);
      ShopKeepsBooks(db, steps[..n], opening);
      OrderKept(Run(db, steps[..n]), steps[n], id);
    }
  }

  // ---------- What the stored totals show ----------

  /** A discount the cart takes off: positive and below the base price. */
  predicate TakenOff(row: BookRow) {
    0.0 < row.discount < row.base
  }

  lemma LineSaving(db: Db, user: Id, book: Id)
    requires GoodBooks(db.books) && InCart(db, user, book)
    ensures Saving(LineOf(db, user, book)) >= 0.0
    ensures Saving(LineOf(db, user, book)) == 0.0 <==> !TakenOff(db.books[book])
  {
    var row := db.books[book];
    if TakenOff(row) {
      Scaled(1.0, AtLeastOne(db.cartItems[Key(user, book)]) as real, row.discount);
      assert row.base - (row.base - row.discount) == row.discount;
    }
  }

  lemma {:induction false} SavedNothing(db: Db, user: Id, books: seq<Id>)
    requires GoodBooks(db.books) && forall book :: book in books ==> InCart(db, user, book)
    ensures Sum(Loaded(db, user, books)).saved >= 0.0
    ensures Sum(Loaded(db, user, books)).saved == 0.0 <==> forall book :: book in books ==> !TakenOff(db.books[book])
  {
    hide Gross, Saving, LineOf, TakenOff;
    if books != [] {
      var n := |books| - 1;
      assert books == books[..n] + [books[n]];
      SavedNothing(db, user, books[..n]);
      LineSaving(db, user, books[n]);
      SumSnoc(Loaded(db, user, books[..n]), LineOf(db, user, books[n]));
    }
  }

  /** An order made from any consistent cart, with any promotion: what it charges, that it lies between nothing and
      the subtotal, and when its three amounts balance. Discounts on the items are not in its discount, and a
      promotion beyond what is due is cut off. */
  lemma PurchaseAddsUp(id: Id, user: Id, cart: State)
    requires Pricing.Inv(cart) && Sellable(cart.lines) && cart.promo >= 0.0
    ensures var order := Purchased(id, user, cart);
      && order.id == id && order.user == user && order.subtotal == AtFullPrice(cart.lines)
      && order.discountTotal == cart.promo && !order.paid && !order.completed
      && |order.items| == |cart.lines|
      && (forall i :: 0 <= i < |cart.lines| ==>
            var line := cart.lines[i];
            order.items[i] == OrderLine(line.book, line.title, line.unitPrice, line.quantity))
      && order.finalTotal == (if AtSellingPrice(cart.lines) < cart.promo then 0.0
                              else AtSellingPrice(cart.lines) - cart.promo)
      && 0.0 <= order.finalTotal <= order.subtotal
      && (order.subtotal - order.discountTotal == order.finalTotal <==>
            cart.promo == order.subtotal || (Sum(cart.lines).saved == 0.0 && cart.promo <= order.subtotal))
  {
    hide Gross, Saving, Sum, AtFullPrice, AtSellingPrice, OrderItems;
    SumIsBothPrices(cart.lines);
    PayableBounds(cart.lines, cart.promo);
    SumBounds(cart.lines);
  }

  /** At checkout the cart comes from the tables, which keep no promotion: the stored discount is always zero, so
      subtotal and final total agree if and only if no book in the cart was discounted. */
  lemma StoredTotalsBalance(db: Db, step: Step)
    requires CartsOk(db) && Sale(db, step)
    ensures step.order in Next(db, step).orders
    ensures Next(db, step).orders[step.order].discountTotal == 0.0
    ensures var row := Next(db, step).orders[step.order];
      row.subtotal - row.discountTotal == row.finalTotal <==>
        forall book :: book in step.books ==> !TakenOff(db.books[book])
  {
    hide Gross, Saving, LineOf, TakenOff, Sum;
    CheckoutDone(db, step);
    ChargesOfBill(db, step.user, step.books);
    PayableBounds(Basket(db, step), 0.0);
    SavedNothing(db, step.user, step.books);
  }

  /** The line a book in a cart is sold as: its title and base price as they are now, in the quantity asked for. */
  function Bargain(db: Db, user: Id, book: Id): OrderLine
    requires InCart(db, user, book)
  {
    OrderLine(book, db.books[book].title, db.books[book].base, db.cartItems[Key(user, book)])
  }

  lemma SoldLine(db: Db, user: Id, book: Id)
    requires CartsOk(db) && InCart(db, user, book)
    ensures OrderItem(LineOf(db, user, book)) == Bargain(db, user, book) && Bargain(db, user, book).book == book
  {
  }

  lemma {:induction false} BoughtAre(items: seq<OrderLine>, books: seq<Id>)
    requires |items| == |books| && forall i :: 0 <= i < |items| ==> items[i].book == books[i]
    ensures Bought(items) == books
  {
    if items != [] {
      var n := |items| - 1;
      BoughtAre(items[..n], books[..n]);
      assert books == books[..n] + [books[n]];
    }
  }

  lemma SoldLines(db: Db, step: Step)
    requires CartsOk(db) && Sale(db, step)
    ensures var items := OrderItems(Basket(db, step));
      && |items| == |step.books| && Bought(items) == step.books && Known(db.books, items)
      && forall i :: 0 <= i < |items| ==>
           InCart(db, step.user, step.books[i]) && items[i] == Bargain(db, step.user, step.books[i])
  {
    hide Sum, Gross, Saving, Bought, SellAll, Checkout, LineOf, OrderItem, Bargain;
    var lines, items := Basket(db, step), OrderItems(Basket(db, step));
    LoadedLines(db, step.user, step.books);
    forall i | 0 <= i < |items|
      ensures InCart(db, step.user, step.books[i]) && items[i] == Bargain(db, step.user, step.books[i])
      ensures items[i].book == step.books[i] {
      assert step.books[i] in step.books;
      SoldLine(db, step.user, step.books[i]);
    }
    BoughtAre(items, step.books);
  }

  lemma ReplyOfSale(db: Db, step: Step)
    requires Sale(db, step)
    ensures Checkout(db, step.user, step.order, step.books, step.started, step.commits).1
         == Done(step.order, Paid(step.order, step.user, Basket(db, step)).finalTotal,
                 Bought(OrderItems(Basket(db, step))))
  {
    hide Sum, Gross, Saving, SellAll, OrderItems, Bought, LineOf, Rows, Loaded;
  }

  lemma HeaderOfSale(db: Db, step: Step)
    requires CartsOk(db) && Sale(db, step)
    ensures var order := Paid(step.order, step.user, Basket(db, step));
      var charges := Charges(db, step.user, step.books);
      Header(order) == OrderRow(step.user, Sum(Basket(db, step)).gross, 0.0, charges.due + charges.excess, true, true)
  {
    ChargesOfBill(db, step.user, step.books);
    PayableBounds(Basket(db, step), 0.0);
    hide Sum, Gross, Saving, SellAll, OrderItems, Bought, LineOf, Rows, RowsOf, Charges, Loaded, Checkout;
  }

  /** A checkout stores a paid and completed header in the buyer's name that charges what the cart costs, and it replies
      with the order, that charge and the books. */
  lemma WhatCheckoutCharges(db: Db, step: Step)
    requires CartsOk(db) && NoOrphans(db) && Sale(db, step)
    ensures var next, charges := Next(db, step), Charges(db, step.user, step.books);
      && step.order in next.orders
      && next.orders[step.order].user == step.user
      && next.orders[step.order].paid && next.orders[step.order].completed
      && next.orders[step.order].finalTotal == charges.due + charges.excess
      && Checkout(db, step.user, step.order, step.books, step.started, step.commits).1
         == Done(step.order, charges.due + charges.excess, step.books)
  {
    SoldLines(db, step);
    ReplyOfSale(db, step);
    HeaderOfSale(db, step);
    hide Sum, Gross, Saving, SellAll, OrderItems, Bought, LineOf, Rows, RowsOf, Charges, Loaded, Bargain, Checkout;
    hide Next, Paid, Lists;
    CheckoutDone(db, step);
  }

  /** And one row for every book of the cart, in order: its title, base price and quantity, no discount, and their
      product. */
  lemma WhatCheckoutStores(db: Db, step: Step)
    requires CartsOk(db) && NoOrphans(db) && Sale(db, step)
    ensures var rows := RowsOf(Next(db, step).orderItems, step.order);
      && |rows| == |step.books|
      && forall i :: 0 <= i < |rows| ==>
           var book := step.books[i];
           && InCart(db, step.user, book)
           && rows[i] == ItemRow(step.order, book, db.books[book].title, db.books[book].base, 0.0,
                                 db.cartItems[Key(step.user, book)],
                                 db.books[book].base * db.cartItems[Key(step.user, book)] as real)
  {
    hide Sum, Gross, Saving, SellAll, Sell, OrderItems, Bought, LineOf, Rows, RowsOf, Next, Checkout, Loaded;
    StoredRows(db, step);
    SoldLines(db, step);
    RowsKept(db, step.order, OrderItems(Basket(db, step)));
  }

  /** How a checkout ends: an empty cart is refused; so is an order whose id is taken or whose user is unknown; a
      transaction that began and cannot commit is undone. None of these changes more than making the cart row. */
  lemma CheckoutEnds(db: Db, user: Id, id: Id, books: seq<Id>, started: bool, commits: bool)
    requires forall book :: book in books ==> InCart(db, user, book)
    ensures var (next, reply) := Checkout(db, user, id, books, started, commits);
      && (reply == CartIsEmpty <==> books == [])
      && (reply == NotPersisted <==> books != [] && (id in db.orders || user !in db.users))
      && (reply == NotCommitted <==> books != [] && id !in db.orders && user in db.users && started && !commits)
      && (!reply.Done? ==> next == Db(db.books, db.users, if user in db.users then db.carts + {user} else db.carts,
                                      db.cartItems, db.orders, db.orderItems))
  {
    hide Sum, Gross, Saving, SellAll, OrderItems, Bought, LineOf, Rows, Loaded;
  }

  // ---------- What the history says of a cart ----------

  /** Whether the user has a cart row: there from the start, or made by opening the cart or trying to check out. */
  ghost predicate HasCart(db: Db, steps: seq<Step>, user: Id) {
    if steps == [] then user in db.carts
    else
      var init, step := steps[..|steps| - 1], steps[|steps| - 1];
      || HasCart(db, init, user)
      || (user in db.users && step.OpenCart? && step.user == user)
      || (user in db.users && step.Buy? && step.user == user && Lists(Run(db, init), user, step.books))
  }

  /** The last positive quantity a list of lines gives a book. */
  function LastIn(lines: seq<Line>, book: Id): int {
    if lines == [] then 0
    else if lines[|lines| - 1].book == book && lines[|lines| - 1].quantity > 0 then lines[|lines| - 1].quantity
    else LastIn(lines[..|lines| - 1], book)
  }

  /** How many copies of a book a user's cart holds, going by the history alone; 0 if it is not in it. */
  ghost function Wanted(db: Db, steps: seq<Step>, user: Id, book: Id): int {
    if steps == [] then (if Key(user, book) in db.cartItems then db.cartItems[Key(user, book)] else 0)
    else
      var init, step := steps[..|steps| - 1], steps[|steps| - 1];
      Wants(Run(db, init), step, user, book, Wanted(db, init, user, book), HasCart(db, init, user) && book in db.books)
  }

  /** One step further; there is room for a new row if the user has a cart row and the book is known. */
  ghost function Wants(db: Db, step: Step, user: Id, book: Id, was: int, room: bool): int {
    match step
    case OpenCart(_) => was
    case AddToCart(u, b, quantity) =>
      if u == user && b == book && quantity > 0 && (was > 0 || room) then quantity else was
    case ChangeQuantity(u, b, quantity) =>
      if u != user || b != book then was else if quantity <= 0 || was == 0 then 0 else quantity
    case RemoveFromCart(u, b) => if u == user && b == book then 0 else was
    case EmptyCart(u) => if u == user then 0 else was
    case SaveCart(u, lines) => if u != user then was else if room then LastIn(lines, book) else 0
    case Reprice(_, _, _) => was
    case Buy(u, _, _, _, _) => if u == user && Sale(db, step) then 0 else was
  }

  ghost predicate Holds(db: Db, user: Id, book: Id, quantity: int) {
    if quantity == 0 then Key(user, book) !in db.cartItems
    else Key(user, book) in db.cartItems && db.cartItems[Key(user, book)] == quantity && quantity > 0
  }

  lemma {:induction false} PutAllHolds(db: Db, user: Id, lines: seq<Line>, book: Id)
    requires Key(user, book) !in db.cartItems
    ensures Holds(PutAll(db, user, lines), user, book,
                  if user in db.carts && book in db.books then LastIn(lines, book) else 0)
  {
    if lines != [] {
      var n := |lines| - 1;
      PutAllHolds(db, user, lines[..n], book);
      SameShop(db, user, lines[..n]);
    }
  }

  lemma CartRowAfter(db: Db, step: Step, user: Id, book: Id, was: int)
    requires CartsOk(db) && Holds(db, user, book, was)
    ensures Holds(Next(db, step), user, book, Wants(db, step, user, book, was, user in db.carts && book in db.books))
  {
    hide Checkout, LastIn, PutAll;
    if step.SaveCart? {
      if step.user != user {
        PutAllIsPrivate(Cleared(db, step.user), step.user, step.lines, Key(user, book));
      } else {
        PutAllHolds(Cleared(db, user), user, step.lines, book);
      }
    } else if step.Buy? {
      hide Next;
      if Sale(db, step) {
        CheckoutDone(db, step);
      } else {
        FailedSaleKeepsRows(db, step);
      }
    }
  }

  lemma FailedSaleKeepsRows(db: Db, step: Step)
    requires step.Buy? && !Sale(db, step)
    ensures Next(db, step).cartItems == db.cartItems && Next(db, step).books == db.books
  {
    if Lists(db, step.user, step.books) {
      CheckoutEnds(db, step.user, step.order, step.books, step.started, step.commits);
    }
  }

  lemma CartOpenAfter(db: Db, step: Step, user: Id)
    requires CartsOk(db)
    ensures Next(db, step).users == db.users && Next(db, step).books.Keys == db.books.Keys
    ensures user in Next(db, step).carts <==>
            || user in db.carts
            || (user in db.users && step.OpenCart? && step.user == user)
            || (user in db.users && step.Buy? && step.user == user && Lists(db, user, step.books))
  {
    hide Sum, Gross, Saving, OrderItems, Bought, LineOf, Rows, Loaded;
    if step.Buy? {
      if Sale(db, step) {
        LoadedLines(db, step.user, step.books);
        SalesAddUp(db.books, OrderItems(Basket(db, step)), "");
      }
    } else if step.SaveCart? {
      CartsOkPutAll(Cleared(db, step.user), step.user, step.lines);
      SameShop(Cleared(db, step.user), step.user, step.lines);
    }
  }

  /** Over every run a user's cart holds exactly the copies the history asks for, and the cart row is there exactly
      once something made it. */
  lemma {:induction false} CartRowsAreTheirHistory(db: Db, steps: seq<Step>, opening: map<Id, int>, user: Id, book: Id)
    requires ShopInv(db, opening)
    ensures var now := Run(db, steps);
      && Holds(now, user, book, Wanted(db, steps, user, book))
      && (user in now.carts <==> HasCart(db, steps, user))
      && now.users == db.users && now.books.Keys == db.books.Keys
  {
    hide Next, OrderOk, SalesOk, NoOrphans, Wants;
    if steps != [] {
      var n := |steps| - 1;
      CartRowsAreTheirHistory(db, steps[..n], opening, user, book);
      ShopKeepsBooks(db, steps[..n], opening);
      CartRowAfter(Run(db, steps[..n]), steps[n], user, book, Wanted(db, steps[..n], user, book));
      CartOpenAfter(Run(db, steps[..n]), steps[n], user);
    }
  }

  /** The base price and discount last set for a book, if any were accepted. */
  function Tag(db: Db, steps: seq<Step>, book: Id): (real, real)
    requires book in db.books
  {
    if steps == [] then (db.books[book].base, db.books[book].discount)
    else
      var init, step := steps[..|steps| - 1], steps[|steps| - 1];
      if step.Reprice? && step.book == book && step.base >= 0.0 && step.discount >= 0.0 then (step.base, step.discount)
      else Tag(db, init, book)
  }

  lemma TagAfter(db: Db, step: Step, book: Id)
    requires CartsOk(db) && book in db.books
    ensures var now := Next(db, step);
      && book in now.books && now.books[book].title == db.books[book].title
      && (now.books[book].base, now.books[book].discount) ==
           if step.Reprice? && step.book == book && step.base >= 0.0 && step.discount >= 0.0
           then (step.base, step.discount) else (db.books[book].base, db.books[book].discount)
  {
    hide Sum, Gross, Saving, OrderItems, Bought, LineOf, Rows, Loaded;
    if step.Buy? {
      hide Checkout;
      if Sale(db, step) {
        CheckoutDone(db, step);
        LoadedLines(db, step.user, step.books);
        SalesAddUp(db.books, OrderItems(Basket(db, step)), book);
      } else {
        FailedSaleKeepsRows(db, step);
      }
    } else if step.SaveCart? {
      SameShop(Cleared(db, step.user), step.user, step.lines);
    }
  }

  /** A book's price tag is the one last set, whatever is sold in between. */
  lemma {:induction false} TagsAreTheLastSet(db: Db, steps: seq<Step>, opening: map<Id, int>, book: Id)
    requires ShopInv(db, opening) && book in db.books
    ensures var now := Run(db, steps);
      && book in now.books && now.books[book].title == db.books[book].title
      && (now.books[book].base, now.books[book].discount) == Tag(db, steps, book)
  {
    hide Next, OrderOk, SalesOk, NoOrphans;
    if steps != [] {
      var n := |steps| - 1;
      TagsAreTheLastSet(db, steps[..n], opening, book);
      ShopKeepsBooks(db, steps[..n], opening);
      TagAfter(Run(db, steps[..n]), steps[n], book);
    }
  }

  // ---------- Carts are private ----------

  function Actor(step: Step): Id {
    match step
    case OpenCart(user) => user
    case AddToCart(user, _, _) => user
    case ChangeQuantity(user, _, _) => user
    case RemoveFromCart(user, _) => user
    case EmptyCart(user) => user
    case SaveCart(user, _) => user
    case Buy(user, _, _, _, _) => user
    case Reprice(_, _, _) => ""
  }

  lemma {:induction false} PutAllIsPrivate(db: Db, user: Id, lines: seq<Line>, key: Key)
    requires key.user != user
    ensures key in PutAll(db, user, lines).cartItems <==> key in db.cartItems
    ensures key in db.cartItems ==> PutAll(db, user, lines).cartItems[key] == db.cartItems[key]
  {
    if lines != [] {
      PutAllIsPrivate(db, user, lines[..|lines| - 1], key);
    }
  }

  ghost predicate SameRow(db: Db, next: Db, key: Key) {
    && (key in next.cartItems <==> key in db.cartItems)
    && (key in db.cartItems ==> next.cartItems[key] == db.cartItems[key])
  }

  lemma BuyIsPrivate(db: Db, step: Step, key: Key)
    requires CartsOk(db) && step.Buy? && step.user != key.user
    ensures SameRow(db, Next(db, step), key)
  {
    hide Sum, Gross, Saving, Rows, SellAll, Loaded, OrderItems, Bought;
    if Sale(db, step) {
      CheckoutDone(db, step);
    } else if Lists(db, step.user, step.books) {
      assert Next(db, step).cartItems == db.cartItems;
    }
  }

  lemma StepIsPrivate(db: Db, step: Step, key: Key)
    requires CartsOk(db) && (step.Reprice? || Actor(step) != key.user)
    ensures SameRow(db, Next(db, step), key)
  {
    if step.Buy? {
      BuyIsPrivate(db, step, key);
    } else {
      hide Checkout, Lists;
      if step.SaveCart? {
        PutAllIsPrivate(Cleared(db, step.user), step.user, step.lines, key);
      }
    }
  }

  /** Over any run, a user's cart rows change only through that user's own steps. */
  lemma {:induction false} CartsArePrivate(db: Db, steps: seq<Step>, opening: map<Id, int>, key: Key)
    requires ShopInv(db, opening) && forall step :: step in steps ==> step.Reprice? || Actor(step) != key.user
    ensures SameRow(db, Run(db, steps), key)
  {
    hide Next, OrderOk, SalesOk, CartsOk, NoOrphans, Actor;
    if steps != [] {
      var n := |steps| - 1;
      assert steps[n] in steps;
      CartsArePrivate(db, steps[..n], opening, key);
      ShopKeepsBooks(db, steps[..n], opening);
      StepIsPrivate(Run(db, steps[..n]), steps[n], key);
    }
  }

  // ---------- The requests of the cart handler ----------

  datatype Request =
    | PutBook(user: Id, book: Id, active: bool)
    | DropBook(user: Id, book: Id)
    | ShowCart(user: Id)
    | ClearCart(user: Id)
    | PlaceOrder(user: Id, order: Id, books: seq<Id>, started: bool, commits: bool)
    | Catalogue(book: Id, base: real, discount: real)

  predicate BoughtIn(orders: map<Id, OrderRow>, row: ItemRow, user: Id, book: Id) {
    row.book == book && row.order in orders && orders[row.order].user == user && orders[row.order].completed
  }

  /** SELECT 1 FROM OrderItems JOIN Orders .. WHERE completed = 1. */
  predicate Purchases(db: Db, user: Id, book: Id) {
    exists i :: 0 <= i < |db.orderItems| && BoughtIn(db.orders, db.orderItems[i], user, book)
  }

  predicate Admits(db: Db, user: Id, book: Id, active: bool) {
    book != "" && book in db.books && active && !Purchases(db, user, book)
  }

  /** An add-to-cart request is taken up exactly for a known, active book that no completed order of this user lists;
      otherwise it changes nothing. */
  lemma WhoIsAdmitted(db: Db, user: Id, book: Id, active: bool)
    ensures Handling(db, PutBook(user, book, active)) != [] <==>
            && book != "" && book in db.books && active
            && forall row :: row in db.orderItems && row.book == book && row.order in db.orders ==>
                 !(db.orders[row.order].user == user && db.orders[row.order].completed)
    ensures Handling(db, PutBook(user, book, active)) == [] ==> Run(db, Handling(db, PutBook(user, book, active))) == db
  {
    if row :| row in db.orderItems && BoughtIn(db.orders, row, user, book) {
      var i :| 0 <= i < |db.orderItems| && db.orderItems[i] == row;
      assert BoughtIn(db.orders, db.orderItems[i], user, book);
    }
    if i :| 0 <= i < |db.orderItems| && BoughtIn(db.orders, db.orderItems[i], user, book) {
      assert db.orderItems[i] in db.orderItems;
    }
  }

  /** What a request does, in the repositories' own steps. A book is always put with quantity one, and the answer
      of the put is not looked at. */
  function Handling(db: Db, r: Request): seq<Step> {
    match r
    case PutBook(user, book, active) =>
      if Admits(db, user, book, active) then [AddToCart(user, book, 1), OpenCart(user)] else []
    case DropBook(user, book) => if book != "" then [RemoveFromCart(user, book), OpenCart(user)] else []
    case ShowCart(user) => [OpenCart(user)]
    case ClearCart(user) => [EmptyCart(user)]
    case PlaceOrder(user, order, books, started, commits) => [Buy(user, order, books, started, commits)]
    case Catalogue(book, base, discount) => [Reprice(book, base, discount)]
  }

  ghost function Serve(db: Db, requests: seq<Request>): Db {
    if requests == [] then db else
      var before := Serve(db, requests[..|requests| - 1]);
      Run(before, Handling(before, requests[|requests| - 1]))
  }

  lemma RunOne(db: Db, step: Step)
    ensures Run(db, [step]) == Next(db, step)
  {
    hide Next;
    assert [step][..0] == [];
  }

  lemma RunTwo(db: Db, a: Step, b: Step)
    ensures Run(db, [a, b]) == Next(Next(db, a), b)
  {
    hide Next;
    RunOne(db, a);
    assert [a, b][..1] == [a];
  }

  /** What a request leaves behind, row by row: dropping a book removes its row, clearing all of the user's rows,
      showing and dropping make the cart row, and none of them touches anything else. */
  lemma WhatRequestsDo(db: Db, r: Request, key: Key)
    requires r.DropBook? || r.ShowCart? || r.ClearCart?
    ensures var after := Run(db, Handling(db, r));
      && (key in after.cartItems <==>
            && key in db.cartItems
            && !(r.DropBook? && r.book != "" && key == Key(r.user, r.book))
            && !(r.ClearCart? && key.user == r.user))
      && (key in after.cartItems ==> after.cartItems[key] == db.cartItems[key])
      && (forall user :: user in after.carts <==>
            || user in db.carts
            || (user == r.user && user in db.users && (r.ShowCart? || (r.DropBook? && r.book != ""))))
      && after.books == db.books && after.users == db.users
      && after.orders == db.orders && after.orderItems == db.orderItems
  {
    match r {
      case DropBook(user, book) => if book != "" { RunTwo(db, RemoveFromCart(user, book), OpenCart(user)); }
      case ShowCart(user) => RunOne(db, OpenCart(user));
      case ClearCart(user) => RunOne(db, EmptyCart(user));
    }
  }

  /** Adding a book does put it in the cart exactly if the cart row exists already: the row is only made
      afterwards, so the first book of a new customer is lost although the request succeeds. */
  lemma FirstBookIsLost(db: Db, user: Id, book: Id, active: bool)
    requires CartsOk(db) && user in db.users && Admits(db, user, book, active)
    ensures var after := Run(db, Handling(db, PutBook(user, book, active)));
      && (Key(user, book) in after.cartItems <==> user in db.carts)
      && (user in db.carts ==> after.cartItems == db.cartItems[Key(user, book) := 1])
      && (user !in db.carts ==> after.cartItems == db.cartItems)
      && after.carts == db.carts + {user}
  {
    RunTwo(db, AddToCart(user, book, 1), OpenCart(user));
  }

  /** One book, one customer, no cart row: the request is accepted and the cart stays empty. */
  lemma FirstBookIsLostHere()
    ensures var db := Db(map["b" := BookRow("t", 1.0, 0.0, 0)], {"u"}, {}, map[], map[], []);
      && CartsOk(db) && Admits(db, "u", "b", true)
      && Run(db, Handling(db, PutBook("u", "b", true))).cartItems == map[]
  {
    var db := Db(map["b" := BookRow("t", 1.0, 0.0, 0)], {"u"}, {}, map[], map[], []);
    RunTwo(db, AddToCart("u", "b", 1), OpenCart("u"));
    assert Next(db, AddToCart("u", "b", 1)) == db;
  }

  // ---------- A book is bought once ----------

  ghost predicate OneOfEach(db: Db) {
    forall key :: key in db.cartItems ==> db.cartItems[key] == 1 && !Purchases(db, key.user, key.book)
  }

  predicate SamePurchase(orders: map<Id, OrderRow>, a: ItemRow, b: ItemRow) {
    a.order in orders && b.order in orders && orders[a.order].user == orders[b.order].user && a.book == b.book
  }

  ghost predicate SoldOnce(db: Db) {
    && (forall i :: 0 <= i < |db.orderItems| ==> db.orderItems[i].quantity == 1)
    && (forall i, j :: 0 <= i < j < |db.orderItems| ==> !SamePurchase(db.orders, db.orderItems[i], db.orderItems[j]))
  }

  ghost predicate OnceInv(db: Db, opening: map<Id, int>) {
    ShopInv(db, opening) && OneOfEach(db) && SoldOnce(db)
  }

  lemma StepsKeepOnce(db: Db, next: Db)
    requires OneOfEach(db) && SoldOnce(db) && next.orders == db.orders && next.orderItems == db.orderItems
    requires forall key :: key in next.cartItems ==>
               next.cartItems[key] == 1 && (key in db.cartItems || !Purchases(db, key.user, key.book))
    ensures OneOfEach(next) && SoldOnce(next)
  {
    forall key | key in next.cartItems ensures !Purchases(next, key.user, key.book) {
      assert Purchases(next, key.user, key.book) == Purchases(db, key.user, key.book);
    }
  }

  /** The rows a sale adds, one by one. */
  lemma SaleRow(db: Db, step: Step, k: nat)
    requires CartsOk(db) && OneOfEach(db) && Sale(db, step) && k < |step.books|
    ensures var rows := Rows(db, step.order, OrderItems(Basket(db, step)));
      |rows| == |step.books| && rows[k].order == step.order && rows[k].book == step.books[k] && rows[k].quantity == 1
    ensures Key(step.user, step.books[k]) in db.cartItems
  {
    hide Gross, Saving, Sum, Next, Checkout, Purchases;
    LoadedLines(db, step.user, step.books);
    RowsKept(db, step.order, OrderItems(Basket(db, step)));
    assert step.books[k] in step.books;
    assert Basket(db, step)[k] == LineOf(db, step.user, step.books[k]);
  }

  lemma NewRowsAreTheBuyers(db: Db, step: Step, i: nat)
    requires CartsOk(db) && Sale(db, step) && |db.orderItems| <= i < |Next(db, step).orderItems|
    ensures var next := Next(db, step);
      next.orderItems[i].order == step.order && step.order in next.orders && next.orders[step.order].user == step.user
  {
    hide Gross, Saving, Sum, Next, Checkout, SellAll, Bought, Loaded;
    CheckoutDone(db, step);
    LoadedLines(db, step.user, step.books);
    RowsKept(db, step.order, OrderItems(Basket(db, step)));
  }

  lemma PurchasesAfterSale(db: Db, step: Step, user: Id, book: Id)
    requires CartsOk(db) && NoOrphans(db) && Sale(db, step) && user != step.user
    requires Purchases(Next(db, step), user, book)
    ensures Purchases(db, user, book)
  {
    hide Gross, Saving, Sum, Next, Checkout, SellAll, Bought, Loaded, OrderItems, Rows, Lists, GoodBooks;
    CheckoutDone(db, step);
    var next := Next(db, step);
    var i :| 0 <= i < |next.orderItems| && BoughtIn(next.orders, next.orderItems[i], user, book);
    if i < |db.orderItems| {
      assert next.orderItems[i] == db.orderItems[i];
      assert BoughtIn(db.orders, db.orderItems[i], user, book);
    } else {
      NewRowsAreTheBuyers(db, step, i);
    }
  }

  lemma SaleKeepsOneOfEach(db: Db, step: Step)
    requires CartsOk(db) && NoOrphans(db) && OneOfEach(db) && Sale(db, step)
    ensures OneOfEach(Next(db, step))
  {
    hide Gross, Saving, Sum, Next, Checkout, SellAll, Bought, Purchases;
    CheckoutDone(db, step);
    forall key | key in Next(db, step).cartItems
      ensures Next(db, step).cartItems[key] == 1 && !Purchases(Next(db, step), key.user, key.book) {
      if Purchases(Next(db, step), key.user, key.book) {
        PurchasesAfterSale(db, step, key.user, key.book);
      }
    }
  }

  /** Two stored lines of a sale: both old, both new, or one of each. */
  lemma SalePair(db: Db, step: Step, i: nat, j: nat)
    requires CartsOk(db) && NoOrphans(db) && OneOfEach(db) && SoldOnce(db) && Sale(db, step)
    requires forall k :: 0 <= k < |db.orderItems| ==> OrderOk(db, db.orderItems[k].order)
    requires i < j < |db.orderItems| + |step.books| == |Next(db, step).orderItems|
    ensures !SamePurchase(Next(db, step).orders, Next(db, step).orderItems[i], Next(db, step).orderItems[j])
  {
    hide Gross, Saving, Sum, Next, Checkout, SellAll, Bought, Loaded, OrderItems, Rows;
    CheckoutDone(db, step);
    var n, next := |db.orderItems|, Next(db, step);
    if j < n {
      assert next.orderItems[i] == db.orderItems[i] && next.orderItems[j] == db.orderItems[j];
      assert !SamePurchase(db.orders, db.orderItems[i], db.orderItems[j]);
    } else {
      SaleRow(db, step, j - n);
      if i < n {
        assert next.orderItems[i] == db.orderItems[i];
        assert !Purchases(db, step.user, step.books[j - n]);
        assert !BoughtIn(db.orders, db.orderItems[i], step.user, step.books[j - n]);
      } else {
        SaleRow(db, step, i - n);
      }
    }
  }

  lemma SaleKeepsSoldOnce(db: Db, step: Step)
    requires CartsOk(db) && NoOrphans(db) && OneOfEach(db) && SoldOnce(db) && Sale(db, step)
    requires forall id :: OrderOk(db, id)
    ensures SoldOnce(Next(db, step))
  {
    hide Gross, Saving, Sum, Next, Checkout, SellAll, Bought, Loaded, OrderItems, Rows, OneOfEach;
    hide SamePurchase, OrderOk;
    CheckoutDone(db, step);
    var n, next := |db.orderItems|, Next(db, step);
    if step.books != [] { SaleRow(db, step, 0); }
    LoadedLines(db, step.user, step.books);
    RowsKept(db, step.order, OrderItems(Basket(db, step)));
    forall i | 0 <= i < |next.orderItems| ensures next.orderItems[i].quantity == 1 {
      if i >= n { SaleRow(db, step, i - n); }
    }
    forall i, j | 0 <= i < j < |next.orderItems|
      ensures !SamePurchase(next.orders, next.orderItems[i], next.orderItems[j]) {
      SalePair(db, step, i, j);
    }
  }

  lemma CartRequestKeepsOnce(db: Db, r: Request)
    requires OneOfEach(db) && SoldOnce(db) && !r.PlaceOrder?
    ensures OneOfEach(Run(db, Handling(db, r))) && SoldOnce(Run(db, Handling(db, r)))
  {
    hide Checkout, Lists, Purchases, SoldOnce;
    var next := Run(db, Handling(db, r));
    match r
    case PutBook(user, book, active) =>
      if Admits(db, user, book, active) {
        RunTwo(db, AddToCart(user, book, 1), OpenCart(user));
        StepsKeepOnce(db, next);
      }
    case DropBook(user, book) =>
      if book != "" {
        RunTwo(db, RemoveFromCart(user, book), OpenCart(user));
        StepsKeepOnce(db, next);
      }
    case ShowCart(user) =>
      RunOne(db, OpenCart(user));
      StepsKeepOnce(db, next);
    case ClearCart(user) =>
      RunOne(db, EmptyCart(user));
      StepsKeepOnce(db, next);
    case Catalogue(book, base, discount) =>
      RunOne(db, Reprice(book, base, discount));
      StepsKeepOnce(db, next);
  }

  lemma RequestKeepsOnce(db: Db, r: Request, opening: map<Id, int>)
    requires OnceInv(db, opening)
    ensures OnceInv(Run(db, Handling(db, r)), opening)
  {
    hide OneOfEach, SoldOnce, Next, OrderOk, SalesOk;
    ShopKeepsBooks(db, Handling(db, r), opening);
    if r.PlaceOrder? {
      var step := Buy(r.user, r.order, r.books, r.started, r.commits);
      PlaceOrderKeepsOnce(db, step);
      RunOne(db, step);
    } else {
      CartRequestKeepsOnce(db, r);
    }
  }

  lemma PlaceOrderKeepsOnce(db: Db, step: Step)
    requires step.Buy? && CartsOk(db) && NoOrphans(db) && OneOfEach(db) && SoldOnce(db)
    requires forall id :: OrderOk(db, id)
    ensures OneOfEach(Next(db, step)) && SoldOnce(Next(db, step))
  {
    if Sale(db, step) {
      SaleKeepsOneOfEach(db, step);
      SaleKeepsSoldOnce(db, step);
    } else {
      FailedSaleSellsNothing(db, step);
      StepsKeepOnce(db, Next(db, step));
    }
  }

  lemma OnceOpens(db: Db)
    requires CartsOk(db) && db.cartItems == map[] && db.orders == map[] && db.orderItems == []
    ensures OnceInv(db, map book | book in db.books :: db.books[book].sales)
  {
  }

  /** Over every run of requests by any users: no cart holds a book its user owns, every quantity is one, and no
      user ever has a book in two order lines. */
  lemma {:induction false} EveryBookIsBoughtOnce(db: Db, requests: seq<Request>, opening: map<Id, int>)
    requires OnceInv(db, opening)
    ensures OnceInv(Serve(db, requests), opening)
  {
    hide OnceInv, Run, Handling;
    if requests != [] {
      var n := |requests| - 1;
      EveryBookIsBoughtOnce(db, requests[..n], opening);
      RequestKeepsOnce(Serve(db, requests[..n]), requests[n], opening);
    }
  }

  ghost function Owners(orders: map<Id, OrderRow>, rows: seq<ItemRow>, book: Id): set<Id> {
    set row | row in rows && row.book == book && row.order in orders :: orders[row.order].user
  }

  lemma OwnersOfLast(orders: map<Id, OrderRow>, rows: seq<ItemRow>, book: Id)
    requires rows != [] && (forall i :: 0 <= i < |rows| ==> rows[i].order in orders)
    requires forall i, j :: 0 <= i < j < |rows| ==> !SamePurchase(orders, rows[i], rows[j])
    ensures var init, row := rows[..|rows| - 1], rows[|rows| - 1];
      && Owners(orders, rows, book)
         == Owners(orders, init, book) + (if row.book == book then {orders[row.order].user} else {})
      && (row.book == book ==> orders[row.order].user !in Owners(orders, init, book))
  {
    var n := |rows| - 1;
    var init, row := rows[..n], rows[n];
    assert rows == init + [row];
    forall user | user in Owners(orders, init, book)
      ensures user in Owners(orders, rows, book) && (row.book == book ==> user != orders[row.order].user) {
      var r :| r in init && r.book == book && r.order in orders && orders[r.order].user == user;
      var i :| 0 <= i < n && init[i] == r;
      assert rows[i] == r && !SamePurchase(orders, rows[i], rows[n]);
    }
    forall user | user in Owners(orders, rows, book)
      ensures user in Owners(orders, init, book) || (row.book == book && user == orders[row.order].user) {
      var r :| r in rows && r.book == book && r.order in orders && orders[r.order].user == user;
    }
  }

  lemma {:induction false} CopiesAreOwners(orders: map<Id, OrderRow>, rows: seq<ItemRow>, book: Id)
    requires forall i :: 0 <= i < |rows| ==> rows[i].order in orders && rows[i].quantity == 1
    requires forall i, j :: 0 <= i < j < |rows| ==> !SamePurchase(orders, rows[i], rows[j])
    ensures Units(rows, book) == |Owners(orders, rows, book)|
  {
    hide SamePurchase;
    if rows == [] {
      assert Owners(orders, rows, book) == {};
    } else {
      CopiesAreOwners(orders, rows[..|rows| - 1], book);
      OwnersOfLast(orders, rows, book);
    }
  }

  /** So a book's sales since the opening are exactly the number of users who own it. */
  lemma SalesAreOwners(db: Db, requests: seq<Request>, opening: map<Id, int>, book: Id)
    requires OnceInv(db, opening) && book in Serve(db, requests).books && book in opening
    ensures var after := Serve(db, requests);
      after.books[book].sales == opening[book] + |Owners(after.orders, after.orderItems, book)|
  {
    EveryBookIsBoughtOnce(db, requests, opening);
    var after := Serve(db, requests);
    assert SalesOk(after, opening, book);
    CopiesAreOwners(after.orders, after.orderItems, book);
  }

  // ---------- Reading an order back ----------

  function ItemOf(row: ItemRow): OrderLine {
    OrderLine(row.book, row.title, row.unitPrice, AtLeastOne(row.quantity))
  }

  function ItemsOf(rows: seq<ItemRow>): (items: seq<OrderLine>)
    ensures |items| == |rows| && forall i :: 0 <= i < |rows| ==> items[i] == ItemOf(rows[i])
  {
    if rows == [] then [] else ItemsOf(rows[..|rows| - 1]) + [ItemOf(rows[|rows| - 1])]
  }

  /** The order as loaded from its header row and its item rows in the order the database lists them. */
  function Found(db: Db, id: Id, rows: seq<ItemRow>): Order
    requires id in db.orders
  {
    var row := db.orders[id];
    Order(id, row.user, row.subtotal, row.discountTotal, row.finalTotal, row.paid, row.completed, ItemsOf(rows))
  }

  lemma {:induction false} ItemsOfAppend(a: seq<ItemRow>, b: seq<ItemRow>)
    ensures ItemsOf(a + b) == ItemsOf(a) + ItemsOf(b)
  {
    if b == [] {
      assert a + b == a;
    } else {
      var n := |b| - 1;
      assert (a + b)[..|a + b| - 1] == a + b[..n];
      ItemsOfAppend(a, b[..n]);
    }
  }

  lemma ItemsAround(before: seq<ItemRow>, row: ItemRow, after: seq<ItemRow>)
    ensures multiset(ItemsOf(before + [row] + after)) == multiset(ItemsOf(before + after)) + multiset{ItemOf(row)}
  {
    hide ItemOf;
    ItemsOfAppend(before + [row], after);
    ItemsOfAppend(before, [row]);
    ItemsOfAppend(before, after);
    assert ItemsOf([row]) == [ItemOf(row)];
  }

  lemma {:induction false} ItemsOfPermutation(a: seq<ItemRow>, b: seq<ItemRow>)
    requires multiset(a) == multiset(b)
    ensures multiset(ItemsOf(a)) == multiset(ItemsOf(b))
  {
    hide ItemOf;
    if a == [] {
      assert |multiset(b)| == |b| == 0;
    } else {
      var n := |a| - 1;
      assert a[n] in multiset(b);
      var k :| 0 <= k < |b| && b[k] == a[n];
      MultisetTakenOut(a, b, k);
      assert b == b[..k] + [b[k]] + b[k + 1..];
      ItemsOfPermutation(a[..n], b[..k] + b[k + 1..]);
      ItemsAround(b[..k], b[k], b[k + 1..]);
    }
  }

  lemma RowsReadBack(db: Db, step: Step)
    requires CartsOk(db) && NoOrphans(db) && Sale(db, step)
    ensures ItemsOf(RowsOf(Next(db, step).orderItems, step.order)) == OrderItems(Basket(db, step))
  {
    hide Gross, Saving, Sum, Next, Paid, Checkout;
    var items := OrderItems(Basket(db, step));
    StoredRows(db, step);
    LoadedLines(db, step.user, step.books);
    RowsKept(db, step.order, items);
  }

  /** Checkout stores the cart: read back in any row order, right away or after any later run, the order has the
      same header and, as a multiset, exactly the lines that were in the cart. */
  lemma OrderReadsBack(db: Db, opening: map<Id, int>, step: Step, later: seq<Step>, rows: seq<ItemRow>)
    requires ShopInv(db, opening) && Sale(db, step)
    requires multiset(rows) == multiset(RowsOf(Run(Next(db, step), later).orderItems, step.order))
    ensures var after, order := Run(Next(db, step), later), Paid(step.order, step.user, Basket(db, step));
      && step.order in after.orders
      && Found(after, step.order, rows).(items := []) == order.(items := [])
      && multiset(Found(after, step.order, rows).items) == multiset(order.items)
  {
    hide Next, Sum, Gross, Saving, Payable, OrderOk, SalesOk;
    ShopStep(db, step, opening);
    CheckoutDone(db, step);
    OrdersAreForever(Next(db, step), later, opening, step.order);
    RowsReadBack(db, step);
    ItemsOfPermutation(rows, RowsOf(Next(db, step).orderItems, step.order));
  }

  /** One line for every book of the cart, as the cart and the catalogue were at the checkout. */
  function Bargains(db: Db, user: Id, books: seq<Id>): (items: seq<OrderLine>)
    requires forall book :: book in books ==> InCart(db, user, book)
    ensures |items| == |books| && forall i :: 0 <= i < |books| ==> items[i] == Bargain(db, user, books[i])
  {
    seq(|books|, i requires 0 <= i < |books| => assert books[i] in books; Bargain(db, user, books[i]))
  }

  /** In other words: whenever it is read, the order is the buyer's, paid and completed, charges what the cart cost and
      lists each book once with the title, base price and quantity it had in the cart. */
  lemma OrderReadsBackAsBought(db: Db, opening: map<Id, int>, step: Step, later: seq<Step>, rows: seq<ItemRow>)
    requires ShopInv(db, opening) && Sale(db, step)
    requires multiset(rows) == multiset(RowsOf(Run(Next(db, step), later).orderItems, step.order))
    ensures var after, charges := Run(Next(db, step), later), Charges(db, step.user, step.books);
      && step.order in after.orders
      && var order := Found(after, step.order, rows);
         && order.user == step.user && order.paid && order.completed
         && order.discountTotal == 0.0 && order.finalTotal == charges.due + charges.excess
         && multiset(order.items) == multiset(Bargains(db, step.user, step.books))
  {
    OrderReadsBack(db, opening, step, later, rows);
    SoldLines(db, step);
    assert OrderItems(Basket(db, step)) == Bargains(db, step.user, step.books);
    ChargesOfBill(db, step.user, step.books);
    PayableBounds(Basket(db, step), 0.0);
    hide Sum, Gross, Saving, SellAll, OrderItems, Bought, LineOf, Rows, RowsOf, Charges, Loaded, Bargain, Next, ShopInv;
  }

  // ---------- Saving a cart ----------

  function QuantityIn(lines: seq<Line>, book: Id): int {
    if lines == [] then 0
    else if lines[|lines| - 1].book == book then lines[|lines| - 1].quantity
    else QuantityIn(lines[..|lines| - 1], book)
  }

  /** Saving replaces the user's rows by the given lines and touches nobody else's. */
  lemma {:induction false} SavedCart(db: Db, user: Id, lines: seq<Line>, key: Key)
    requires user in db.carts && forall line :: line in lines ==> line.book in db.books && line.quantity >= 1
    ensures var saved := PutAll(Cleared(db, user), user, lines).cartItems;
      if key.user != user then key in saved <==> key in db.cartItems
      else key in saved <==> exists line :: line in lines && line.book == key.book
    ensures var saved := PutAll(Cleared(db, user), user, lines).cartItems;
      key in saved ==> saved[key] == if key.user != user then db.cartItems[key] else QuantityIn(lines, key.book)
    ensures PutAll(Cleared(db, user), user, lines) == db.(cartItems := PutAll(Cleared(db, user), user, lines).cartItems)
  {
    if lines != [] {
      var n := |lines| - 1;
      assert lines == lines[..n] + [lines[n]];
      SavedCart(db, user, lines[..n], key);
      assert lines[n] in lines;
      if key.user == user {
        assert (exists line :: line in lines && line.book == key.book) <==>
               lines[n].book == key.book || exists line :: line in lines[..n] && line.book == key.book;
      }
    }
  }

  /** Whether every line is put, each after those before it. */
  predicate AllPut(db: Db, user: Id, lines: seq<Line>) {
    lines == [] ||
    (AllPut(db, user, lines[..|lines| - 1])
     && CanPut(PutAll(db, user, lines[..|lines| - 1]), user, lines[|lines| - 1].book, lines[|lines| - 1].quantity))
  }

  lemma {:induction false} PutOnlyKnown(db: Db, user: Id, lines: seq<Line>, book: Id)
    requires Key(user, book) !in db.cartItems && Key(user, book) in PutAll(db, user, lines).cartItems
    ensures user in db.carts && book in db.books
  {
    if lines != [] {
      var n := |lines| - 1;
      var before := PutAll(db, user, lines[..n]);
      SameShop(db, user, lines[..n]);
      if Key(user, book) in before.cartItems {
        PutOnlyKnown(db, user, lines[..n], book);
      }
    }
  }

  lemma {:induction false} SameShop(db: Db, user: Id, lines: seq<Line>)
    ensures PutAll(db, user, lines).carts == db.carts && PutAll(db, user, lines).books == db.books
  {
    if lines != [] {
      SameShop(db, user, lines[..|lines| - 1]);
    }
  }

  /** Saving a cart reports success exactly if the user has a cart and every line is a known book with a positive
      quantity. */
  lemma {:induction false} SaveSucceeds(db: Db, user: Id, lines: seq<Line>)
    ensures AllPut(Cleared(db, user), user, lines) <==>
            forall line :: line in lines ==> line.quantity > 0 && user in db.carts && line.book in db.books
  {
    if lines != [] {
      var n := |lines| - 1;
      var cleared := Cleared(db, user);
      assert lines == lines[..n] + [lines[n]];
      SaveSucceeds(db, user, lines[..n]);
      SameShop(cleared, user, lines[..n]);
      if Key(user, lines[n].book) in PutAll(cleared, user, lines[..n]).cartItems {
        PutOnlyKnown(cleared, user, lines[..n], lines[n].book);
      }
    }
  }
}
