/** The cart and its items as objects: an item's setters signal the cart that holds it. */
module Carts {
  import opened Pricing

  class CartItem {
    var book: Id
    var title: string
    var unitPrice: real
    var discounted: real
    var quantity: int
    /** Who listens to this item's change signal. */
    var cart: Cart?

    ghost function Value(): Line
      reads this
    {
      Line(book, title, unitPrice, discounted, quantity)
    }

    constructor (book: Id)
      ensures Value() == Line(book, "", 0.0, 0.0, 1) && cart == null
    {
      this.book, title, unitPrice, discounted, quantity, cart := book, "", 0.0, 0.0, 1, null;
    }

    method Amounts() returns (gross: real, saved: real)
      ensures gross == Gross(Value()) && saved == Saving(Value())
    {
      gross, saved := unitPrice * quantity as real, 0.0;
      if discounted > 0.0 && discounted < unitPrice {
        saved := (unitPrice - discounted) * quantity as real;
      }
    }

    /** An item in a cart sits at a position of it. */
    ghost predicate Held(at: nat)
      reads this, cart, if cart == null then [] else cart.items
    {
      cart != null ==> at < |cart.items| && cart.items[at] == this && cart.Shape()
    }

    method ItemChanged()
      requires cart != null ==> cart.Shape()
      modifies cart
      ensures cart != null ==> cart.Shape() && cart.items == old(cart.items) && cart.userId == old(cart.userId)
                               && cart.View() == Recalculated(old(cart.View()))
    {
      if cart != null {
        cart.RecalculateTotal();
      }
    }

    method SetTitle(text: string, ghost at: nat)
      requires Held(at)
      modifies this, cart
      ensures Value() == Changed(old(Value()), Title(text)) && cart == old(cart)
      ensures cart != null ==> Held(at) && cart.items == old(cart.items) && cart.userId == old(cart.userId)
                               && cart.View() == Apply(old(cart.View()), Edit(at, Title(text)))
    {
      ghost var was := if cart == null then After([]) else cart.View();
      if cart != null { EditOfOne(was, at, Title(text)); }
      if title == text { return; }
      title := text;
      if cart != null { assert cart.Values() == was.lines[at := Value()]; }
      ItemChanged();
    }

    method SetUnitPrice(price: real, ghost at: nat)
      requires Held(at)
      modifies this, cart
      ensures Value() == Changed(old(Value()), UnitPrice(price)) && cart == old(cart)
      ensures cart != null ==> Held(at) && cart.items == old(cart.items) && cart.userId == old(cart.userId)
                               && cart.View() == Apply(old(cart.View()), Edit(at, UnitPrice(price)))
    {
      ghost var was := if cart == null then After([]) else cart.View();
      if cart != null { EditOfOne(was, at, UnitPrice(price)); }
      if unitPrice == price { return; }
      unitPrice := price;
      if cart != null { assert cart.Values() == was.lines[at := Value()]; }
      ItemChanged();
    }

    method SetDiscountedUnitPrice(price: real, ghost at: nat)
      requires Held(at)
      modifies this, cart
      ensures Value() == Changed(old(Value()), Discounted(price)) && cart == old(cart)
      ensures cart != null ==> Held(at) && cart.items == old(cart.items) && cart.userId == old(cart.userId)
                               && cart.View() == Apply(old(cart.View()), Edit(at, Discounted(price)))
    {
      ghost var was := if cart == null then After([]) else cart.View();
      if cart != null { EditOfOne(was, at, Discounted(price)); }
      if discounted == price { return; }
      discounted := price;
      if cart != null { assert cart.Values() == was.lines[at := Value()]; }
      ItemChanged();
    }

    method SetQuantity(wanted: int, ghost at: nat)
      requires Held(at)
      modifies this, cart
      ensures Value() == Changed(old(Value()), Quantity(wanted)) && cart == old(cart)
      ensures cart != null ==> Held(at) && cart.items == old(cart.items) && cart.userId == old(cart.userId)
                               && cart.View() == Apply(old(cart.View()), Edit(at, Quantity(wanted)))
    {
      ghost var was := if cart == null then After([]) else cart.View();
      if cart != null { EditOfOne(was, at, Quantity(wanted)); }
      var clamped := if wanted < 1 then 1 else wanted;
      if quantity == clamped { return; }
      quantity := clamped;
      if cart != null { assert cart.Values() == was.lines[at := Value()]; }
      ItemChanged();
    }
  }

  class Cart {
    var userId: Id
    var items: seq<CartItem>
    var subtotal: real
    var discountTotal: real
    var total: real

    /** The cart owns its items: all different, all signalling this cart. */
    ghost predicate Shape()
      reads this, items
    {
      && (forall i :: 0 <= i < |items| ==> items[i].cart == this)
      && (forall i, j :: 0 <= i < j < |items| ==> items[i] != items[j])
    }

    ghost function Values(): (lines: seq<Line>)
      reads this, items
      ensures |lines| == |items| && forall i :: 0 <= i < |items| ==> lines[i] == items[i].Value()
    {
      seq(|items|, i requires 0 <= i < |items| reads this, items => items[i].Value())
    }

    ghost function View(): State
      reads this, items
    {
      State(Values(), subtotal, discountTotal, total)
    }

    constructor (userId: Id)
      ensures Shape() && items == [] && this.userId == userId && View() == After([])
    {
      this.userId, items, subtotal, discountTotal, total := userId, [], 0.0, 0.0, 0.0;
      new;
      assert Values() == [];
    }

    method Sums() returns (sum: real, perItemDiscountTotal: real)
      ensures Sum(Values()) == Bill(sum, perItemDiscountTotal)
    {
      hide Gross, Saving;
      sum, perItemDiscountTotal := 0.0, 0.0;
      ghost var lines := Values();
      for i := 0 to |items|
        invariant Sum(lines[..i]) == Bill(sum, perItemDiscountTotal)
      {
        assert lines[..i + 1] == lines[..i] + [lines[i]];
        SumSnoc(lines[..i], lines[i]);
        var gross, saved := items[i].Amounts();
        sum := sum + gross;
        perItemDiscountTotal := perItemDiscountTotal + saved;
      }
      assert lines[..|items|] == lines;
    }

    method RecalculateTotal()
      requires Shape()
      modifies this`subtotal, this`total
      ensures Shape() && View() == Recalculated(old(View()))
    {
      var sum, perItemDiscountTotal := Sums();
      ghost var lines := Values();
      subtotal := sum;
      total := subtotal - perItemDiscountTotal - discountTotal;
      if total < 0.0 { total := 0.0; }
      assert Values() == lines;
    }

    method IndexOf(book: Id) returns (at: nat)
      ensures at == Place(Values(), book)
    {
      for i := 0 to |items|
        invariant forall j :: 0 <= j < i ==> items[j].book != book
      {
        if items[i].book == book { return i; }
      }
      return |items|;
    }

    method Append(item: CartItem)
      requires Shape() && item.cart == null
      modifies this`items, item
      ensures Shape() && items == old(items) + [item] && Values() == old(Values()) + [old(item.Value())]
    {
      ghost var lines, line := Values(), item.Value();
      items := items + [item];
      item.cart := this;
      assert Values() == lines + [line];
    }

    method Cut(at: nat)
      requires Shape() && at < |items|
      modifies this`items
      ensures Shape() && items == old(items[..at] + items[at + 1..])
      ensures Values() == old(Values())[..at] + old(Values())[at + 1..]
    {
      ghost var lines := Values();
      items := items[..at] + items[at + 1..];
      assert Values() == lines[..at] + lines[at + 1..];
    }

    /** The book is in the cart already: its item takes the quantity, and the new one is dropped. */
    method Merge(i: nat, item: CartItem)
      requires Shape() && i < |items| && i == Place(Values(), item.book) && item !in items
      modifies this, items
      ensures Shape() && userId == old(userId) && items == old(items)
      ensures View() == Apply(old(View()), Add(item.Value()))
    {
      hide Apply, Sum, Payable, Recalculated, Changed, Lines, Place;
      ghost var was, line := View(), item.Value();
      AddMerges(was, line);
      var held, quantity := items[i], items[i].quantity + item.quantity;
      held.SetQuantity(quantity, i);
      assert View() == Apply(was, Edit(i, Quantity(quantity)));
      RecalculateTotal();
      assert item.Value() == line;
    }

    method AddItem(item: CartItem)
      requires Shape() && item.cart == null
      modifies this, items, item
      ensures Shape() && userId == old(userId) && View() == Apply(old(View()), Add(old(item.Value())))
      ensures forall x :: x in items ==> x == item || x in old(items)
    {
      hide Sum, Payable;
      var i := IndexOf(item.book);
      if i < |items| {
        Merge(i, item);
      } else {
        Append(item);
        RecalculateTotal();
      }
    }

    method RemoveItem(book: Id)
      requires Shape()
      modifies this
      ensures Shape() && userId == old(userId) && View() == Apply(old(View()), Remove(book))
      ensures forall x :: x in items ==> x in old(items)
    {
      hide Sum, Payable;
      ghost var was := View();
      var i := IndexOf(book);
      if i < |items| {
        Cut(i);
        RecalculateTotal();
      }
    }

    method ClearItems()
      requires Shape()
      modifies this
      ensures Shape() && items == [] && userId == old(userId) && View() == Apply(old(View()), Clear)
    {
      items := [];
      subtotal := 0.0;
      discountTotal := 0.0;
      total := 0.0;
      assert Values() == [];
    }

    method SetDiscountTotal(amount: real)
      requires Shape()
      modifies this
      ensures Shape() && items == old(items) && userId == old(userId) && View() == Apply(old(View()), SetPromo(amount))
    {
      if discountTotal == amount { return; }
      ghost var lines := Values();
      discountTotal := amount;
      assert Values() == lines;
      RecalculateTotal();
    }
  }
}
