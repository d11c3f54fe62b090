/** The cart and order repositories, the purchase service and the checkout handler over the shop's tables. */
module ShopRepositories {
  import opened Pricing
  import opened Carts
  import opened Shop

  class Tables {
    var books: map<Id, BookRow>
    var users: set<Id>
    var carts: set<Id>
    var cartItems: map<Key, int>
    var orders: map<Id, OrderRow>
    var orderItems: seq<ItemRow>

    function View(): Db
      reads this
    {
      Db(books, users, carts, cartItems, orders, orderItems)
    }

    constructor (db: Db)
      ensures View() == db
    {
      books, users, carts, cartItems, orders, orderItems :=
        db.books, db.users, db.carts, db.cartItems, db.orders, db.orderItems;
    }

    /** ROLLBACK to the state at the start of the transaction. */
    method Restore(db: Db)
      modifies this
      ensures View() == db
    {
      books, users, carts, cartItems, orders, orderItems :=
        db.books, db.users, db.carts, db.cartItems, db.orders, db.orderItems;
    }
  }

  class CartRepository {
    const db: Tables

    constructor (db: Tables)
      ensures this.db == db
    {
      this.db := db;
    }

    method EnsureRow(user: Id)
      modifies db`carts
      ensures db.View() == Opened(old(db.View()), user)
    {
      if user in db.users {
        db.carts := db.carts + {user};
      }
    }

    /** Loads the user's cart from the rows in the order the database lists them. */
    method GetOrCreateForUser(user: Id, listing: seq<Id>) returns (cart: Cart)
      requires Lists(db.View(), user, listing)
      modifies db
      ensures db.View() == Opened(old(db.View()), user)
      ensures fresh(cart) && fresh(set item | item in cart.items) && cart.Shape() && cart.userId == user
      ensures cart.View() == Billed(Loaded(old(db.View()), user, listing))
    {
      hide Sum, Payable, LineOf, Gross, Saving;
      cart := new Cart(user);
      EnsureRow(user);
      ghost var was := old(db.View());
      for i := 0 to |listing|
        invariant db.View() == Opened(was, user)
        invariant fresh(cart) && fresh(set item | item in cart.items) && cart.Shape() && cart.userId == user
        invariant cart.discountTotal == 0.0 && (forall book :: book in listing[..i] ==> InCart(was, user, book))
        invariant cart.Values() == Loaded(was, user, listing[..i])
      {
        SameRowsLoaded(was, db.View(), user, listing[..i]);
        Load(cart, user, listing, i);
        SameRowsLoaded(was, db.View(), user, listing[..i + 1]);
      }
      assert listing[..|listing|] == listing;
      cart.RecalculateTotal();
    }

    method Load(cart: Cart, user: Id, listing: seq<Id>, i: nat)
      requires Lists(db.View(), user, listing) && i < |listing| && cart.Shape()
      requires cart.Values() == Loaded(db.View(), user, listing[..i])
      modifies cart, cart.items
      ensures cart.Shape() && cart.userId == old(cart.userId) && cart.discountTotal == old(cart.discountTotal)
      ensures cart.Values() == Loaded(db.View(), user, listing[..i + 1])
      ensures forall item :: item in cart.items ==> fresh(item) || item in old(cart.items)
    {
      hide Sum, Payable, LineOf, Lists;
      ghost var line := NewBook(db.View(), user, listing, i);
      var item := LoadItem(user, listing[i]);
      cart.AddItem(item);
      assert cart.Values() == cart.View().lines;
    }

    method LoadItem(user: Id, book: Id) returns (item: CartItem)
      requires InCart(db.View(), user, book)
      ensures fresh(item) && item.cart == null && item.Value() == LineOf(db.View(), user, book)
    {
      var row := db.books[book];
      item := new CartItem(book);
      item.SetTitle(row.title, 0);
      item.SetUnitPrice(row.base, 0);
      item.SetDiscountedUnitPrice(row.base - row.discount, 0);
      item.SetQuantity(db.cartItems[Key(user, book)], 0);
    }

    method AddItem(user: Id, book: Id, quantity: int) returns (ok: bool)
      modifies db
      ensures ok == CanPut(old(db.View()), user, book, quantity)
      ensures db.View() == Put(old(db.View()), user, book, quantity)
    {
      ok := CanPut(db.View(), user, book, quantity);
      if ok {
        db.cartItems := db.cartItems[Key(user, book) := quantity];
      }
    }

    method RemoveItem(user: Id, book: Id) returns (ok: bool)
      modifies db
      ensures ok && db.View() == Taken(old(db.View()), user, book)
    {
      db.cartItems := db.cartItems - {Key(user, book)};
      ok := true;
    }

    method UpdateItemQuantity(user: Id, book: Id, quantity: int) returns (ok: bool)
      modifies db
      ensures ok && db.View() == Requantified(old(db.View()), user, book, quantity)
    {
      if quantity <= 0 {
        ok := RemoveItem(user, book);
        return;
      }
      if Key(user, book) in db.cartItems {
        db.cartItems := db.cartItems[Key(user, book) := quantity];
      }
      ok := true;
    }

    method ClearRows(user: Id) returns (ok: bool)
      modifies db
      ensures ok && db.View() == Cleared(old(db.View()), user)
    {
      db.cartItems := map key | key in db.cartItems && key.user != user :: db.cartItems[key];
      ok := true;
    }

    method Save(user: Id, lines: seq<Line>) returns (allOk: bool)
      modifies db
      ensures db.View() == PutAll(Cleared(old(db.View()), user), user, lines)
      ensures allOk == AllPut(Cleared(old(db.View()), user), user, lines)
    {
      ghost var cleared := Cleared(db.View(), user);
      allOk := ClearRows(user);
      for i := 0 to |lines|
        invariant db.View() == PutAll(cleared, user, lines[..i]) && allOk == AllPut(cleared, user, lines[..i])
      {
        assert lines[..i + 1][..i] == lines[..i];
        var ok := AddItem(user, lines[i].book, lines[i].quantity);
        if !ok { allOk := false; }
      }
      assert lines[..|lines|] == lines;
    }
  }

  lemma SameRowsLoaded(db: Db, other: Db, user: Id, listing: seq<Id>)
    requires db.books == other.books && db.cartItems == other.cartItems
    requires forall book :: book in listing ==> InCart(db, user, book)
    ensures Loaded(db, user, listing) == Loaded(other, user, listing)
  {
    forall i | 0 <= i < |listing| ensures Loaded(db, user, listing)[i] == Loaded(other, user, listing)[i] {
      assert listing[i] in listing;
    }
  }

  /** A listing names every book once, so loading never merges. */
  lemma NewBook(db: Db, user: Id, listing: seq<Id>, i: nat) returns (line: Line)
    requires Lists(db, user, listing) && i < |listing|
    ensures forall book :: book in listing[..i + 1] ==> InCart(db, user, book)
    ensures line == LineOf(db, user, listing[i])
    ensures Lines(Loaded(db, user, listing[..i]), Add(line)) == Loaded(db, user, listing[..i + 1])
  {
    assert forall book :: book in listing[..i + 1] ==> book in listing;
    line := LineOf(db, user, listing[i]);
    assert listing[..i + 1][..i] == listing[..i] && listing[i] == listing[..i + 1][i];
    var lines := Loaded(db, user, listing[..i]);
    forall j | 0 <= j < i ensures lines[j].book != listing[i] {
      assert listing[..i][j] == listing[j];
    }
  }

  class BookService {
    /** Turns a cart into an order; an empty cart is refused. */
    static method PurchaseCart(cart: Cart, id: Id) returns (ok: bool, order: Order)
      requires cart.Shape()
      ensures ok == (cart.items != [])
      ensures ok ==> order == Purchased(id, cart.userId, cart.View())
    {
      ghost var lines := cart.Values();
      order := Order(id, cart.userId, cart.subtotal, cart.discountTotal, cart.total, false, false, []);
      if cart.items == [] { return false, order; }
      for i := 0 to |cart.items|
        invariant order == Purchased(id, cart.userId, cart.View()).(items := OrderItems(lines[..i]))
      {
        assert lines[..i + 1][..i] == lines[..i];
        var item := cart.items[i];
        order := order.(items := order.items + [OrderLine(item.book, item.title, item.unitPrice,
            AtLeastOne(item.quantity))]);
      }
      assert lines[..|lines|] == lines;
      ok := true;
    }
  }

  lemma RowsNext(db: Db, id: Id, items: seq<OrderLine>, i: nat)
    requires i < |items|
    ensures Rows(db, id, items[..i + 1]) ==
            if items[i].book in db.books then Rows(db, id, items[..i]) + [RowOf(id, items[i])] else Rows(db, id,
                items[..i])
  {
    assert items[..i + 1][..i] == items[..i];
  }

  class OrderRepository {
    const db: Tables

    constructor (db: Tables)
      ensures this.db == db
    {
      this.db := db;
    }

    /** INSERT INTO OrderItems; a row of an unknown book is refused. */
    method Insert(id: Id, item: OrderLine)
      modifies db`orderItems
      ensures db.orderItems == if item.book in db.books then old(db.orderItems) + [RowOf(id,
          item)] else old(db.orderItems)
    {
      if item.book in db.books {
        var lineTotal := item.unitPrice * item.quantity as real;
        var row := ItemRow(id, item.book, item.title, item.unitPrice, 0.0, item.quantity, lineTotal);
        assert row == RowOf(id, item);
        db.orderItems := db.orderItems + [row];
      }
    }

    method Save(order: Order) returns (ok: bool)
      modifies db
      ensures ok == CanSave(old(db.View()), order)
      ensures db.View() == if ok then Saved(old(db.View()), order) else old(db.View())
    {
      if order.id in db.orders || order.user !in db.users { return false; }
      ghost var was := db.View();
      db.orders := db.orders[order.id := Header(order)];
      for i := 0 to |order.items|
        invariant db.View() == was.(orders := was.orders[order.id := Header(order)],
                                    orderItems := was.orderItems + Rows(was, order.id, order.items[..i]))
      {
        assert order.items[..i + 1][..i] == order.items[..i];
        Insert(order.id, order.items[i]);
        RowsNext(was, order.id, order.items, i);
      }
      assert order.items[..|order.items|] == order.items;
      ok := true;
    }

    /** Loads an order with its lines in the order the database lists them. */
    method FindById(id: Id, rows: seq<ItemRow>) returns (found: bool, order: Order)
      requires multiset(rows) == multiset(RowsOf(db.orderItems, id))
      ensures found == (id in db.orders)
      ensures found ==> order == Found(db.View(), id, rows)
    {
      order := Order(id, "", 0.0, 0.0, 0.0, false, false, []);
      if id !in db.orders { return false, order; }
      var row := db.orders[id];
      order := Order(id, row.user, row.subtotal, row.discountTotal, row.finalTotal, row.paid, row.completed, []);
      for i := 0 to |rows|
        invariant order == Found(db.View(), id, rows[..i])
      {
        assert rows[..i + 1][..i] == rows[..i];
        order := order.(items := order.items + [OrderLine(rows[i].book, rows[i].title, rows[i].unitPrice,
            AtLeastOne(rows[i].quantity))]);
      }
      assert rows[..|rows|] == rows;
      found := true;
    }
  }

  class CartRequestHandler {
    const db: Tables
    const cartRepo: CartRepository
    const orderRepo: OrderRepository

    constructor (db: Tables)
      ensures this.db == db && cartRepo.db == db && orderRepo.db == db
    {
      this.db := db;
      cartRepo := new CartRepository(db);
      orderRepo := new OrderRepository(db);
    }

    method BumpSales(items: seq<OrderLine>) returns (bought: seq<Id>)
      modifies db`books
      ensures db.View() == old(db.View()).(books := SellAll(old(db.books), items)) && bought == Bought(items)
    {
      bought := [];
      ghost var was := db.View();
      for i := 0 to |items|
        invariant db.View() == was.(books := SellAll(was.books, items[..i])) && bought == Bought(items[..i])
      {
        assert items[..i + 1][..i] == items[..i];
        var item := items[i];
        if item.book in db.books {
          var row := db.books[item.book];
          db.books := db.books[item.book := row.(sales := row.sales + item.quantity)];
        }
        bought := bought + [item.book];
      }
      assert items[..|items|] == items;
    }

    /** hasUserPurchased. */
    method HasPurchased(user: Id, book: Id) returns (yes: bool)
      ensures yes == Purchases(db.View(), user, book)
      ensures yes <==> exists i ::
                && 0 <= i < |db.orderItems| && db.orderItems[i].book == book
                && db.orderItems[i].order in db.orders
                && db.orders[db.orderItems[i].order].user == user && db.orders[db.orderItems[i].order].completed
    {
      for i := 0 to |db.orderItems|
        invariant forall j :: 0 <= j < i ==> !BoughtIn(db.orders, db.orderItems[j], user, book)
      {
        if BoughtIn(db.orders, db.orderItems[i], user, book) { return true; }
      }
      return false;
    }

    method HandleAddToCart(user: Id, book: Id, active: bool) returns (shown: bool)
      requires cartRepo.db == db
      modifies db
      ensures shown == Admits(old(db.View()), user, book, active)
      ensures db.View() == Run(old(db.View()), Handling(old(db.View()), PutBook(user, book, active)))
    {
      if book == "" || book !in db.books || !active { return false; }
      var owned := HasPurchased(user, book);
      if owned { return false; }
      RunTwo(db.View(), Step.AddToCart(user, book, 1), OpenCart(user));
      var _ := cartRepo.AddItem(user, book, 1);
      cartRepo.EnsureRow(user);
      return true;
    }

    method HandleRemoveFromCart(user: Id, book: Id) returns (shown: bool)
      requires cartRepo.db == db
      modifies db
      ensures shown == (book != "")
      ensures db.View() == Run(old(db.View()), Handling(old(db.View()), DropBook(user, book)))
    {
      if book == "" { return false; }
      RunTwo(db.View(), RemoveFromCart(user, book), OpenCart(user));
      var _ := cartRepo.RemoveItem(user, book);
      cartRepo.EnsureRow(user);
      return true;
    }

    method HandleClearCart(user: Id)
      requires cartRepo.db == db
      modifies db
      ensures db.View() == Run(old(db.View()), Handling(old(db.View()), Request.ClearCart(user)))
    {
      RunOne(db.View(), EmptyCart(user));
      var _ := cartRepo.ClearRows(user);
    }

    method HandleCheckout(user: Id, listing: seq<Id>, id: Id, started: bool, commits: bool) returns (reply: Reply)
      requires cartRepo.db == db && orderRepo.db == db && Lists(db.View(), user, listing)
      modifies db
      ensures (db.View(), reply) == Checkout(old(db.View()), user, id, listing, started, commits)
    {
      hide Sum, Payable, LineOf, Loaded, Rows, SellAll, Bought, OrderItems;
      var cart := cartRepo.GetOrCreateForUser(user, listing);
      var begun := db.View();
      if cart.items == [] { return CartIsEmpty; }
      var ok, order := BookService.PurchaseCart(cart, id);
      order := order.(paid := true, completed := true);
      ok := orderRepo.Save(order);
      if !ok {
        if started { db.Restore(begun); }
        return NotPersisted;
      }
      var bought := BumpSales(order.items);
      if started && !commits {
        db.Restore(begun);
        return NotCommitted;
      }
      ok := cartRepo.ClearRows(user);
      return Done(id, order.finalTotal, bought);
    }
  }
}
