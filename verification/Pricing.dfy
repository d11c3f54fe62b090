/** Prices and cart arithmetic on values. Amounts are reals, so fuzzy comparison is equality. */
module Pricing {
  import opened Search
  type Id = string

  // ---------- Lines of a cart ----------

  datatype Line = Line(book: Id, title: string, unitPrice: real, discounted: real, quantity: int)

  /** What a list of lines adds up to: undiscounted, and saved by discounts on the items. */
  datatype Bill = Bill(gross: real, saved: real)

  function Gross(line: Line): real {
    line.unitPrice * line.quantity as real
  }

  /** A selling price counts only strictly between zero and the unit price. */
  function Saving(line: Line): real {
    if 0.0 < line.discounted < line.unitPrice then (line.unitPrice - line.discounted) * line.quantity as real else 0.0
  }

  function Sum(lines: seq<Line>): Bill {
    if lines == [] then Bill(0.0, 0.0) else
      var before, line := Sum(lines[..|lines| - 1]), lines[|lines| - 1];
      Bill(before.gross + Gross(line), before.saved + Saving(line))
  }

  function Payable(bill: Bill, promo: real): real {
    var due := bill.gross - bill.saved - promo;
    if due < 0.0 then 0.0 else due
  }

  lemma SumSnoc(lines: seq<Line>, line: Line)
    ensures Sum(lines + [line]) == Bill(Sum(lines).gross + Gross(line), Sum(lines).saved + Saving(line))
  {
    assert (lines + [line])[..|lines|] == lines;
  }

  lemma {:induction false} SumAppend(a: seq<Line>, b: seq<Line>)
    ensures Sum(a + b) == Bill(Sum(a).gross + Sum(b).gross, Sum(a).saved + Sum(b).saved)
  {
    if b == [] {
      assert a + b == a;
    } else {
      var n := |b| - 1;
      assert a + b == (a + b[..n]) + [b[n]];
      SumSnoc(a + b[..n], b[n]);
      SumAppend(a, b[..n]);
    }
  }

  lemma SumMiddle(before: seq<Line>, line: Line, after: seq<Line>)
    ensures Sum(before + [line] + after) ==
            Bill(Sum(before + after).gross + Gross(line), Sum(before + after).saved + Saving(line))
  {
    hide Gross, Saving;
    SumAppend(before, after);
    SumAppend(before + [line], after);
    SumSnoc(before, line);
  }

  lemma MultisetSplit<T>(s: seq<T>, k: nat)
    requires k < |s|
    ensures multiset(s) == multiset(s[..k] + s[k + 1..]) + multiset{s[k]}
  {
    assert s == s[..k] + [s[k]] + s[k + 1..];
  }

  lemma MultisetTakenOut<T>(a: seq<T>, b: seq<T>, k: nat)
    requires multiset(a) == multiset(b) && a != [] && k < |b| && b[k] == a[|a| - 1]
    ensures multiset(a[..|a| - 1]) == multiset(b[..k] + b[k + 1..])
  {
    MultisetSplit(a, |a| - 1);
    MultisetSplit(b, k);
    SameWithout(multiset(a[..|a| - 1]), multiset(b[..k] + b[k + 1..]), b[k]);
    assert a[..|a| - 1] + a[|a|..] == a[..|a| - 1];
  }

  lemma SameWithout<T>(a: multiset<T>, b: multiset<T>, x: T)
    ensures a + multiset{x} == b + multiset{x} ==> a == b
  {
    assert (a + multiset{x}) - multiset{x} == a && (b + multiset{x}) - multiset{x} == b;
  }

  /** A bill does not depend on the order a query lists its rows in. */
  lemma {:induction false} SumOfPermutation(a: seq<Line>, b: seq<Line>)
    requires multiset(a) == multiset(b)
    ensures Sum(a) == Sum(b)
  {
    if a == [] {
      assert |multiset(b)| == |b| == 0;
    } else {
      var n := |a| - 1;
      assert a[n] in multiset(b);
      var k :| 0 <= k < |b| && b[k] == a[n];
      MultisetTakenOut(a, b, k);
      SumOfPermutation(a[..n], b[..k] + b[k + 1..]);
      assert b == b[..k] + [b[k]] + b[k + 1..];
      SumMiddle(b[..k], b[k], b[k + 1..]);
    }
  }

  lemma Scaled(x: real, y: real, n: real)
    requires 0.0 <= n && 0.0 <= x <= y
    ensures 0.0 <= x * n <= y * n
  {
    assert 0.0 <= x * n;
    assert 0.0 <= (y - x) * n;
  }

  lemma SavingWithinGross(line: Line)
    requires line.unitPrice >= 0.0 && line.quantity >= 1
    ensures 0.0 <= Saving(line) <= Gross(line)
  {
    if 0.0 < line.discounted < line.unitPrice {
      Scaled(line.unitPrice - line.discounted, line.unitPrice, line.quantity as real);
    } else {
      Scaled(line.unitPrice, line.unitPrice, line.quantity as real);
    }
  }

  ghost predicate Sellable(lines: seq<Line>) {
    forall line :: line in lines ==> line.unitPrice >= 0.0 && line.quantity >= 1
  }

  lemma {:induction false} SumBounds(lines: seq<Line>)
    requires Sellable(lines)
    ensures 0.0 <= Sum(lines).saved <= Sum(lines).gross
  {
    if lines != [] {
      SumBounds(lines[..|lines| - 1]);
      SavingWithinGross(lines[|lines| - 1]);
    }
  }

  /** For non-negative prices and promotions the customer pays between nothing and the subtotal; without a
      promotion the clamp at zero never fires. */
  lemma PayableBounds(lines: seq<Line>, promo: real)
    requires Sellable(lines) && promo >= 0.0
    ensures 0.0 <= Payable(Sum(lines), promo) <= Sum(lines).gross
    ensures Payable(Sum(lines), 0.0) == Sum(lines).gross - Sum(lines).saved
  {
    SumBounds(lines);
  }

  // ---------- The cart as a state machine ----------

  datatype State = State(lines: seq<Line>, subtotal: real, promo: real, total: real)

  datatype Change = Title(title: string) | UnitPrice(price: real) | Discounted(price: real) | Quantity(quantity: int)

  datatype Op = Add(line: Line) | Remove(book: Id) | Clear | SetPromo(amount: real) | Edit(at: nat, change: Change)

  function Changed(line: Line, change: Change): Line {
    match change
    case Title(title) => line.(title := title)
    case UnitPrice(price) => line.(unitPrice := price)
    case Discounted(price) => line.(discounted := price)
    case Quantity(quantity) => line.(quantity := if quantity < 1 then 1 else quantity)
  }

  function Place(lines: seq<Line>, book: Id): (i: nat)
    ensures i <= |lines|
    ensures i < |lines| ==> lines[i].book == book
    ensures forall j :: 0 <= j < i ==> lines[j].book != book
  {
    FirstIndex(lines, (line: Line) => line.book == book)
  }

  function More(line: Line, quantity: int): Line {
    Changed(line, Quantity(line.quantity + quantity))
  }

  function Lines(lines: seq<Line>, op: Op): seq<Line> {
    match op
    case Add(line) =>
      var i := Place(lines, line.book);
      if i < |lines| then lines[i := More(lines[i], line.quantity)] else lines + [line]
    case Remove(book) =>
      var i := Place(lines, book);
      if i < |lines| then lines[..i] + lines[i + 1..] else lines
    case Clear => []
    case SetPromo(_) => lines
    case Edit(at, change) => if at < |lines| then lines[at := Changed(lines[at], change)] else lines
  }

  function Recalculated(s: State): State {
    s.(subtotal := Sum(s.lines).gross, total := Payable(Sum(s.lines), s.promo))
  }

  /** The cached totals are rewritten only where the code does it: not when a setter sees no change, not when
      nothing is removed, and to plain zeros on clear. */
  function Apply(s: State, op: Op): State {
    match op
    case Add(_) => Recalculated(s.(lines := Lines(s.lines, op)))
    case Remove(book) => if Place(s.lines, book) < |s.lines| then Recalculated(s.(lines := Lines(s.lines, op))) else s
    case Clear => State([], 0.0, 0.0, 0.0)
    case SetPromo(amount) => if s.promo == amount then s else Recalculated(s.(promo := amount))
    case Edit(at, change) => if Lines(s.lines, op) == s.lines then s else Recalculated(s.(lines := Lines(s.lines, op)))
  }

  lemma EditOfOne(s: State, at: nat, change: Change)
    requires at < |s.lines|
    ensures Apply(s, Edit(at, change)) ==
            if Changed(s.lines[at], change) == s.lines[at] then s
            else Recalculated(s.(lines := s.lines[at := Changed(s.lines[at], change)]))
  {
    assert s.lines[at := s.lines[at]] == s.lines;
    assert s.lines[at := Changed(s.lines[at], change)][at] == Changed(s.lines[at], change);
  }

  lemma AddMerges(s: State, line: Line)
    requires Place(s.lines, line.book) < |s.lines|
    ensures var i := Place(s.lines, line.book);
      Apply(s, Add(line)) == Recalculated(Apply(s, Edit(i, Quantity(s.lines[i].quantity + line.quantity))))
  {
    hide Place;
    var i := Place(s.lines, line.book);
    EditOfOne(s, i, Quantity(s.lines[i].quantity + line.quantity));
    assert s.lines[i := s.lines[i]] == s.lines;
  }

  function After(ops: seq<Op>): State {
    if ops == [] then State([], 0.0, 0.0, 0.0) else Apply(After(ops[..|ops| - 1]), ops[|ops| - 1])
  }

  /** Items are made with quantity one and only ever set through the clamp. */
  predicate Possible(op: Op) {
    op.Add? ==> op.line.quantity >= 1
  }

  ghost predicate GoodLines(lines: seq<Line>) {
    && (forall i, j :: 0 <= i < j < |lines| ==> lines[i].book != lines[j].book)
    && (forall i :: 0 <= i < |lines| ==> lines[i].quantity >= 1)
  }

  ghost predicate Inv(s: State) {
    GoodLines(s.lines) && s == Recalculated(s)
  }

  lemma GoodLinesCut(lines: seq<Line>, k: nat)
    requires GoodLines(lines) && k < |lines|
    ensures GoodLines(lines[..k] + lines[k + 1..])
  {
  }

  lemma GoodLinesStep(lines: seq<Line>, op: Op)
    requires GoodLines(lines) && Possible(op)
    ensures GoodLines(Lines(lines, op))
  {
    hide Place;
    if op.Remove? && Place(lines, op.book) < |lines| {
      GoodLinesCut(lines, Place(lines, op.book));
    }
  }

  lemma GoodEmpty()
    ensures GoodLines([])
  {
  }

  /** Whatever is added, removed or changed, books in a cart are pairwise distinct, quantities are positive, and
      both cached totals equal a fresh fold over the items. */
  lemma {:induction false} CartInvariant(ops: seq<Op>)
    requires forall op :: op in ops ==> Possible(op)
    ensures Inv(After(ops)) && After(ops).total >= 0.0
  {
    hide Place, Lines, Gross, Saving, GoodLines;
    GoodEmpty();
    if ops != [] {
      var n := |ops| - 1;
      CartInvariant(ops[..n]);
      assert ops[n] in ops;
      GoodLinesStep(After(ops[..n]).lines, ops[n]);
    }
  }

  // ---------- The cart as a plain map from book to line ----------

  /** The line of a book, if it is in the cart. */
  function LineFor(lines: seq<Line>, book: Id): seq<Line> {
    if Place(lines, book) < |lines| then [lines[Place(lines, book)]] else []
  }

  /** The position an edit names, if it is one of that book's line. */
  predicate Meets(lines: seq<Line>, at: nat, book: Id) {
    at < |lines| && lines[at].book == book
  }

  /** The line a customer would expect to find, going by the history alone; none, or just one. The title and prices
      are those of the first adding or of the last edit, quantities add up. */
  function Expected(ops: seq<Op>, book: Id): seq<Line> {
    if ops == [] then [] else
      var before, op := Expected(ops[..|ops| - 1], book), ops[|ops| - 1];
      match op
      case Add(line) =>
        if line.book != book then before
        else if before == [] then [line]
        else
          var was := before[0];
          [Line(book, was.title, was.unitPrice, was.discounted, was.quantity + line.quantity)]
      case Remove(removed) => if removed == book then [] else before
      case Clear => []
      case SetPromo(_) => before
      case Edit(at, change) =>
        if before == [] || !Meets(After(ops[..|ops| - 1]).lines, at, book) then before
        else
          var line := before[0];
          match change
          case Title(title) => [Line(book, title, line.unitPrice, line.discounted, line.quantity)]
          case UnitPrice(price) => [Line(book, line.title, price, line.discounted, line.quantity)]
          case Discounted(price) => [Line(book, line.title, line.unitPrice, price, line.quantity)]
          case Quantity(quantity) =>
            [Line(book, line.title, line.unitPrice, line.discounted, if quantity < 1 then 1 else quantity)]
  }

  lemma PlaceOf(lines: seq<Line>, i: nat)
    requires GoodLines(lines) && i < |lines|
    ensures Place(lines, lines[i].book) == i
  {
    hide Place;
  }

  lemma FoundSet(lines: seq<Line>, i: nat, line: Line, book: Id)
    requires GoodLines(lines) && i < |lines| && line.book == lines[i].book
    ensures LineFor(lines[i := line], book) == if book == line.book then [line] else LineFor(lines, book)
  {
    hide Place;
    var next := lines[i := line];
    assert forall j :: 0 <= j < |lines| ==> next[j].book == lines[j].book;
    assert Place(next, book) == Place(lines, book);
    PlaceOf(lines, i);
  }

  lemma FoundCut(lines: seq<Line>, i: nat, book: Id)
    requires GoodLines(lines) && i < |lines|
    ensures LineFor(lines[..i] + lines[i + 1..], book) == if book == lines[i].book then [] else LineFor(lines, book)
  {
    hide Place;
    var next := lines[..i] + lines[i + 1..];
    assert forall j :: 0 <= j < |next| ==> next[j] == lines[if j < i then j else j + 1];
    var was, now := Place(lines, book), Place(next, book);
    if was < |lines| && was != i {
      assert next[if was < i then was else was - 1] == lines[was];
      assert now < |next|;
      PlaceOf(lines, if now < i then now else now + 1);
    }
  }

  lemma FoundNew(lines: seq<Line>, line: Line, book: Id)
    requires GoodLines(lines) && Place(lines, line.book) == |lines|
    ensures LineFor(lines + [line], book) == if book == line.book then [line] else LineFor(lines, book)
  {
    hide Place;
    var next := lines + [line];
    assert next[|lines|] == line && forall j :: 0 <= j < |lines| ==> next[j] == lines[j];
    assert Place(lines, book) < |lines| ==> Place(next, book) == Place(lines, book);
  }

  lemma FoundAfter(lines: seq<Line>, op: Op, book: Id)
    requires GoodLines(lines) && Possible(op)
    ensures LineFor(Lines(lines, op), book) == match op
      case Add(line) =>
        if line.book != book then LineFor(lines, book)
        else if LineFor(lines, book) == [] then [line]
        else [More(LineFor(lines, book)[0], line.quantity)]
      case Remove(removed) => if removed == book then [] else LineFor(lines, book)
      case Clear => []
      case SetPromo(_) => LineFor(lines, book)
      case Edit(at, change) => if Meets(lines, at, book) then [Changed(lines[at], change)] else LineFor(lines, book)
  {
    hide Place;
    match op
    case Add(line) =>
      var i := Place(lines, line.book);
      if i < |lines| {
        FoundSet(lines, i, More(lines[i], line.quantity), book);
      } else {
        FoundNew(lines, line, book);
      }
    case Remove(removed) =>
      if Place(lines, removed) < |lines| { FoundCut(lines, Place(lines, removed), book); }
    case Clear =>
    case SetPromo(_) =>
    case Edit(at, change) =>
      if at < |lines| {
        FoundSet(lines, at, Changed(lines[at], change), book);
      }
  }

  /** Merging, removing, editing and clamping add up: the cart holds exactly the lines of its history. */
  lemma {:induction false} CartIsItsHistory(ops: seq<Op>, book: Id)
    requires forall op :: op in ops ==> Possible(op)
    ensures LineFor(After(ops).lines, book) == Expected(ops, book)
  {
    hide Place, Lines, Sum, Payable;
    if ops != [] {
      var n := |ops| - 1;
      var lines, op := After(ops[..n]).lines, ops[n];
      CartIsItsHistory(ops[..n], book);
      CartInvariant(ops[..n]);
      assert op in ops;
      FoundAfter(lines, op, book);
      LinesAfter(After(ops[..n]), op);
      if op.Edit? && Meets(lines, op.at, book) { PlaceOf(lines, op.at); }
    } else {
      assert LineFor([], book) == [];
    }
  }

  lemma LinesAfter(s: State, op: Op)
    ensures Apply(s, op).lines == Lines(s.lines, op)
  {
  }

  /** The books in the order they came into the cart. */
  function BooksInOrder(ops: seq<Op>): seq<Id> {
    if ops == [] then [] else
      var before, op := BooksInOrder(ops[..|ops| - 1]), ops[|ops| - 1];
      match op
      case Add(line) => if line.book in before then before else before + [line.book]
      case Remove(book) => Without(before, book)
      case Clear => []
      case _ => before
  }

  function Without(books: seq<Id>, book: Id): seq<Id> {
    if books == [] then []
    else Without(books[..|books| - 1], book) + if books[|books| - 1] == book then [] else [books[|books| - 1]]
  }

  function Books(lines: seq<Line>): (books: seq<Id>)
    ensures |books| == |lines| && forall i :: 0 <= i < |lines| ==> books[i] == lines[i].book
  {
    seq(|lines|, i requires 0 <= i < |lines| => lines[i].book)
  }

  lemma {:induction false} WithoutNone(books: seq<Id>, book: Id)
    requires book !in books
    ensures Without(books, book) == books
  {
    if books != [] {
      var n := |books| - 1;
      assert books[n] in books;
      WithoutNone(books[..n], book);
    }
  }

  lemma {:induction false} WithoutOne(before: seq<Id>, book: Id, after: seq<Id>)
    requires book !in before && book !in after
    ensures Without(before + [book] + after, book) == before + after
  {
    var all := before + [book] + after;
    if after == [] {
      assert all[..|all| - 1] == before && all[|all| - 1] == book;
      WithoutNone(before, book);
      assert before + after == before;
    } else {
      var n := |after| - 1;
      assert all[..|all| - 1] == before + [book] + after[..n] && all[|all| - 1] == after[n];
      assert after[n] in after;
      WithoutOne(before, book, after[..n]);
    }
  }

  lemma OrderStep(lines: seq<Line>, op: Op)
    requires GoodLines(lines)
    ensures Books(Lines(lines, op)) == match op
      case Add(line) => if line.book in Books(lines) then Books(lines) else Books(lines) + [line.book]
      case Remove(book) => Without(Books(lines), book)
      case Clear => []
      case _ => Books(lines)
  {
    hide Place, Without;
    match op
    case Add(line) =>
      if line.book in Books(lines) {
        var i :| 0 <= i < |lines| && Books(lines)[i] == line.book;
        assert lines[i].book == line.book;
      }
    case Remove(book) =>
      var i := Place(lines, book);
      if i < |lines| {
        assert Books(lines) == Books(lines)[..i] + [book] + Books(lines)[i + 1..];
        WithoutOne(Books(lines)[..i], book, Books(lines)[i + 1..]);
        assert Books(lines[..i] + lines[i + 1..]) == Books(lines)[..i] + Books(lines)[i + 1..];
      } else {
        WithoutNone(Books(lines), book);
      }
    case _ =>
  }

  lemma {:induction false} CartKeepsOrder(ops: seq<Op>)
    requires forall op :: op in ops ==> Possible(op)
    ensures Books(After(ops).lines) == BooksInOrder(ops)
  {
    hide Place, Lines, Sum, Payable;
    if ops != [] {
      var n := |ops| - 1;
      CartKeepsOrder(ops[..n]);
      CartInvariant(ops[..n]);
      OrderStep(After(ops[..n]).lines, ops[n]);
      LinesAfter(After(ops[..n]), ops[n]);
    }
  }

  /** The promotion set last, unless the cart was cleared since. */
  function LastPromo(ops: seq<Op>): real {
    if ops == [] then 0.0
    else if ops[|ops| - 1].SetPromo? then ops[|ops| - 1].amount
    else if ops[|ops| - 1].Clear? then 0.0
    else LastPromo(ops[..|ops| - 1])
  }

  /** What a line costs at the price it is sold for. */
  function Cost(line: Line): real {
    (if 0.0 < line.discounted < line.unitPrice then line.discounted else line.unitPrice) * line.quantity as real
  }

  function AtFullPrice(lines: seq<Line>): real {
    if lines == [] then 0.0 else lines[0].unitPrice * lines[0].quantity as real + AtFullPrice(lines[1..])
  }

  function AtSellingPrice(lines: seq<Line>): real {
    if lines == [] then 0.0 else Cost(lines[0]) + AtSellingPrice(lines[1..])
  }

  lemma CostIsGrossLessSaving(line: Line)
    ensures Gross(line) - Saving(line) == Cost(line)
  {
    var n := line.quantity as real;
    assert (line.unitPrice - line.discounted) * n == line.unitPrice * n - line.discounted * n;
  }

  lemma BothPricesOfFirst(first: Line, rest: seq<Line>)
    ensures AtFullPrice([first] + rest) == Gross(first) + AtFullPrice(rest)
    ensures AtSellingPrice([first] + rest) == Gross(first) - Saving(first) + AtSellingPrice(rest)
  {
    CostIsGrossLessSaving(first);
    hide Saving, Cost;
    assert ([first] + rest)[1..] == rest;
  }

  lemma NothingCostsNothing()
    ensures AtFullPrice([]) == AtSellingPrice([]) == 0.0
  {
  }

  lemma {:induction false} SumIsBothPrices(lines: seq<Line>)
    ensures Sum(lines).gross == AtFullPrice(lines)
    ensures Sum(lines).gross - Sum(lines).saved == AtSellingPrice(lines)
  {
    hide Gross, Saving, Cost, AtFullPrice, AtSellingPrice;
    NothingCostsNothing();
    if lines != [] {
      var first, rest := lines[0], lines[1..];
      SumIsBothPrices(rest);
      assert lines == [first] + rest;
      assert [] + [first] + rest == [first] + rest && [] + rest == rest;
      SumMiddle([], first, rest);
      BothPricesOfFirst(first, rest);
    }
  }

  /** Over every run: the subtotal is what the lines cost at full price, and the total what they cost at the prices they
      are sold for less the promotion set last, or nothing if that is more. */
  lemma TotalsOfRun(ops: seq<Op>)
    requires forall op :: op in ops ==> Possible(op)
    ensures var s := After(ops);
      && s.promo == LastPromo(ops) && s.subtotal == AtFullPrice(s.lines)
      && s.total == if AtSellingPrice(s.lines) < s.promo then 0.0 else AtSellingPrice(s.lines) - s.promo
  {
    PromoOfRun(ops);
    CartInvariant(ops);
    SumIsBothPrices(After(ops).lines);
  }

  lemma {:induction false} PromoOfRun(ops: seq<Op>)
    ensures After(ops).promo == LastPromo(ops)
  {
    hide Lines, Place, Sum, Payable;
    if ops != [] {
      PromoOfRun(ops[..|ops| - 1]);
    }
  }

  // ---------- Book prices ----------

  datatype BookPrice = BookPrice(base: real, discount: real, price: real, timed: bool)

  datatype PriceOp =
    | SetBase(amount: real) | SetDiscount(amount: real) | SetPrice(amount: real)
    | Percentage(percent: real) | Fixed(amount: real) | NoDiscount

  function Selling(base: real, discount: real): real {
    if base - discount < 0.0 then 0.0 else base - discount
  }

  function Repriced(p: BookPrice): BookPrice {
    p.(price := Selling(p.base, p.discount))
  }

  function Price(p: BookPrice, op: PriceOp): BookPrice {
    match op
    case SetBase(amount) => if p.base == amount then p else Repriced(p.(base := amount))
    case SetDiscount(amount) => if p.discount == amount then p else Repriced(p.(discount := amount))
    case SetPrice(amount) => p.(price := amount)
    case Percentage(percent) =>
      if percent < 0.0 || percent > 100.0 then p else Repriced(p.(discount := p.base * (percent / 100.0),
          timed := true))
    case Fixed(amount) => if amount < 0.0 || amount > p.base then p else Repriced(p.(discount := amount, timed := true))
    case NoDiscount => Repriced(p.(discount := 0.0, timed := false))
  }

  function Prices(ops: seq<PriceOp>): BookPrice {
    if ops == [] then BookPrice(0.0, 0.0, 0.0, false) else Price(Prices(ops[..|ops| - 1]), ops[|ops| - 1])
  }

  /** The selling price is the discounted base price, never negative, as long as nobody overwrites it directly. */
  lemma {:induction false} PriceFollowsDiscount(ops: seq<PriceOp>)
    requires forall op :: op in ops ==> !op.SetPrice?
    ensures Prices(ops).price == Selling(Prices(ops).base, Prices(ops).discount) && Prices(ops).price >= 0.0
  {
    if ops != [] {
      PriceFollowsDiscount(ops[..|ops| - 1]);
      assert ops[|ops| - 1] in ops;
    }
  }

  /** Whether an operation recomputes the price. */
  predicate Reprices(p: BookPrice, op: PriceOp) {
    match op
    case SetBase(amount) => p.base != amount
    case SetDiscount(amount) => p.discount != amount
    case SetPrice(_) => false
    case Percentage(percent) => 0.0 <= percent <= 100.0
    case Fixed(amount) => 0.0 <= amount <= p.base
    case NoDiscount => true
  }

  /** Whether the price was overwritten with another one and not recomputed since. */
  predicate Overwritten(ops: seq<PriceOp>) {
    ops != [] &&
    var before, op := ops[..|ops| - 1], ops[|ops| - 1];
    if op.SetPrice? then op.amount != Selling(Prices(before).base, Prices(before).discount)
    else !Reprices(Prices(before), op) && Overwritten(before)
  }

  /** Over every run: the price is the discounted base price exactly if it was not overwritten with another one
      since it was last recomputed. */
  lemma {:induction false} PriceAgreesUnlessOverwritten(ops: seq<PriceOp>)
    ensures Prices(ops).price == Selling(Prices(ops).base, Prices(ops).discount) <==> !Overwritten(ops)
  {
    if ops != [] {
      PriceAgreesUnlessOverwritten(ops[..|ops| - 1]);
    }
  }

  // ---------- The price fields by their history ----------

  function BaseSet(ops: seq<PriceOp>): real {
    if ops == [] then 0.0
    else if ops[|ops| - 1].SetBase? then ops[|ops| - 1].amount
    else BaseSet(ops[..|ops| - 1])
  }

  function Share(amount: real, percent: real): real {
    amount * (percent / 100.0)
  }

  /** The discount in force: set outright, or an accepted share or amount of the base price as it then was. */
  function DiscountSet(ops: seq<PriceOp>): real {
    if ops == [] then 0.0
    else
      var before := ops[..|ops| - 1];
      match ops[|ops| - 1]
      case SetDiscount(amount) => amount
      case Percentage(percent) =>
        if 0.0 <= percent <= 100.0 then Share(BaseSet(before), percent) else DiscountSet(before)
      case Fixed(amount) => if 0.0 <= amount <= BaseSet(before) then amount else DiscountSet(before)
      case NoDiscount => 0.0
      case _ => DiscountSet(before)
  }

  predicate Timed(ops: seq<PriceOp>) {
    ops != [] &&
    var before := ops[..|ops| - 1];
    match ops[|ops| - 1]
    case Percentage(percent) => 0.0 <= percent <= 100.0 || Timed(before)
    case Fixed(amount) => 0.0 <= amount <= BaseSet(before) || Timed(before)
    case NoDiscount => false
    case _ => Timed(before)
  }

  /** The price as set outright, or as the last change of base price or discount left it. */
  function PriceSet(ops: seq<PriceOp>): real {
    if ops == [] then 0.0
    else
      var before := ops[..|ops| - 1];
      var left := BaseSet(ops) - DiscountSet(ops);
      match ops[|ops| - 1]
      case SetPrice(amount) => amount
      case SetBase(amount) => if amount == BaseSet(before) then PriceSet(before) else if left < 0.0 then 0.0 else left
      case SetDiscount(amount) =>
        if amount == DiscountSet(before) then PriceSet(before) else if left < 0.0 then 0.0 else left
      case Percentage(percent) =>
        if percent < 0.0 || percent > 100.0 then PriceSet(before) else if left < 0.0 then 0.0 else left
      case Fixed(amount) =>
        if amount < 0.0 || amount > BaseSet(before) then PriceSet(before) else if left < 0.0 then 0.0 else left
      case NoDiscount => if left < 0.0 then 0.0 else left
  }

  lemma PercentageTakesAShare(p: BookPrice, percent: real)
    ensures var left := p.base - Share(p.base, percent);
      Price(p, Percentage(percent)) ==
        if 0.0 <= percent <= 100.0
        then BookPrice(p.base, Share(p.base, percent), if left < 0.0 then 0.0 else left, true)
        else p
  {
  }

  lemma PriceStep(p: BookPrice, op: PriceOp, before: seq<PriceOp>)
    requires !op.Percentage?
    requires p == BookPrice(BaseSet(before), DiscountSet(before), PriceSet(before), Timed(before))
    ensures var ops := before + [op];
      Price(p, op) == BookPrice(BaseSet(ops), DiscountSet(ops), PriceSet(ops), Timed(ops))
  {
    hide Share;
    assert (before + [op])[..|before|] == before;
  }

  /** Base price, discount, price and the timed flag are what the history of the book says. */
  lemma {:induction false} PriceIsItsHistory(ops: seq<PriceOp>)
    ensures Prices(ops) == BookPrice(BaseSet(ops), DiscountSet(ops), PriceSet(ops), Timed(ops))
  {
    if ops != [] {
      var before, op := ops[..|ops| - 1], ops[|ops| - 1];
      PriceIsItsHistory(before);
      if op.Percentage? {
        PercentageTakesAShare(Prices(before), op.percent);
        hide Price, Share;
      } else {
        PriceStep(Prices(before), op, before);
        assert before + [op] == ops;
        hide Price, Share, BaseSet, DiscountSet, PriceSet, Timed;
      }
    }
  }

  /** A discount that is accepted as such never exceeds the base price it was computed from. */
  lemma AcceptedDiscountFits(p: BookPrice, op: PriceOp)
    requires p.base >= 0.0 && ((op.Percentage? && 0.0 <= op.percent <= 100.0) || (op.Fixed?
        && 0.0 <= op.amount <= p.base))
    ensures var q := Price(p, op);
      && q.timed && 0.0 <= q.discount <= q.base
      && q.price == q.base - q.discount && 0.0 <= q.price <= p.base
    ensures op.Percentage? ==> Price(p, op).price == p.base * (1.0 - op.percent / 100.0)
  {
    if op.Percentage? {
      Scaled(op.percent / 100.0, 1.0, p.base);
      assert p.base * (1.0 - op.percent / 100.0) == p.base - p.base * (op.percent / 100.0);
    }
  }

  class Book {
    var basePrice: real
    var discountValue: real
    var price: real
    var timedDiscountActive: bool

    ghost function View(): BookPrice
      reads this
    {
      BookPrice(basePrice, discountValue, price, timedDiscountActive)
    }

    constructor ()
      ensures View() == Prices([])
    {
      basePrice, discountValue, price, timedDiscountActive := 0.0, 0.0, 0.0, false;
    }

    method RecalculateSellingPrice()
      modifies this`price
      ensures View() == Repriced(old(View()))
    {
      var newPrice := basePrice - discountValue;
      if newPrice < 0.0 { newPrice := 0.0; }
      price := newPrice;
    }

    method SetSellingPrice(amount: real)
      modifies this`price
      ensures View() == Price(old(View()), SetPrice(amount))
    {
      if price == amount { return; }
      price := amount;
    }

    method SetBasePrice(amount: real)
      modifies this
      ensures View() == Price(old(View()), SetBase(amount))
    {
      if basePrice == amount { return; }
      basePrice := amount;
      RecalculateSellingPrice();
    }

    method SetDiscountValue(amount: real)
      modifies this
      ensures View() == Price(old(View()), SetDiscount(amount))
    {
      if discountValue == amount { return; }
      discountValue := amount;
      RecalculateSellingPrice();
    }

    method ApplyPercentageDiscount(percent: real)
      modifies this
      ensures View() == Price(old(View()), Percentage(percent))
    {
      if percent < 0.0 || percent > 100.0 { return; }
      discountValue := basePrice * (percent / 100.0);
      timedDiscountActive := true;
      RecalculateSellingPrice();
    }

    method ApplyFixedDiscount(amount: real)
      modifies this
      ensures View() == Price(old(View()), Fixed(amount))
    {
      if amount < 0.0 || amount > basePrice { return; }
      discountValue := amount;
      timedDiscountActive := true;
      RecalculateSellingPrice();
    }

    method ClearDiscount()
      modifies this
      ensures View() == Price(old(View()), NoDiscount)
    {
      discountValue := 0.0;
      timedDiscountActive := false;
      RecalculateSellingPrice();
    }
  }
}
