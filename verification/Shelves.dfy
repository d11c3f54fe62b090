/** The order of a user's shelves: what the database lists, and what moving and reordering do to it. */
module Shelves {
  import opened Search
  import opened Messages

  type Id = string

  datatype Shelf = Shelf(user: Id, name: string, order: int)

  /** How the database compares names. */
  datatype NameOrder = NameOrder(le: (string, string) -> bool) {
    ghost predicate Lawful() {
      && (forall a, b :: le(a, b) || le(b, a))
      && (forall a, b :: le(a, b) && le(b, a) ==> a == b)
      && (forall a, b, c :: le(a, b) && le(b, c) ==> le(a, c))
    }

    predicate KeyLe(a: Shelf, b: Shelf) {
      a.order < b.order || (a.order == b.order && le(a.name, b.name))
    }

    /** The first of two stored shelves may be listed before the second. */
    predicate Le(shelves: map<Id, Shelf>, a: Id, b: Id) {
      a in shelves && b in shelves && KeyLe(shelves[a], shelves[b])
    }

    predicate KeyLess(a: Shelf, b: Shelf) {
      KeyLe(a, b) && !Tie(a, b)
    }
  }

  /** The BINARY collation, which the schema leaves in force for names. */
  predicate BinaryLe(a: string, b: string) {
    a == "" || (b != "" && (a[0] < b[0] || (a[0] == b[0] && BinaryLe(a[1..], b[1..]))))
  }

  lemma {:induction false} BinaryTotal(a: string, b: string)
    ensures BinaryLe(a, b) || BinaryLe(b, a)
    ensures BinaryLe(a, b) && BinaryLe(b, a) ==> a == b
  {
    if a != "" && b != "" {
      BinaryTotal(a[1..], b[1..]);
      assert a == [a[0]] + a[1..] && b == [b[0]] + b[1..];
    }
  }

  lemma {:induction false} BinaryTransitive(a: string, b: string, c: string)
    requires BinaryLe(a, b) && BinaryLe(b, c)
    ensures BinaryLe(a, c)
  {
    if a != "" && a[0] == b[0] == c[0] {
      BinaryTransitive(a[1..], b[1..], c[1..]);
    }
  }

  /** It is an order as the results below ask for. */
  lemma BinaryIsLawful()
    ensures NameOrder(BinaryLe).Lawful()
  {
    forall a, b ensures (BinaryLe(a, b) || BinaryLe(b, a)) && (BinaryLe(a, b) && BinaryLe(b, a) ==> a == b) {
      BinaryTotal(a, b);
    }
    forall a, b, c | BinaryLe(a, b) && BinaryLe(b, c) ensures BinaryLe(a, c) {
      BinaryTransitive(a, b, c);
    }
  }

  predicate Tie(a: Shelf, b: Shelf) {
    a.order == b.order && a.name == b.name
  }

  predicate Owns(shelves: map<Id, Shelf>, user: Id, id: Id) {
    id in shelves && shelves[id].user == user
  }

  predicate Distinct(ids: seq<Id>) {
    forall i, j :: 0 <= i < j < |ids| ==> ids[i] != ids[j]
  }

  /** A result of SELECT .. WHERE userId = ? ORDER BY sortOrder, name: ties come in any order. */
  ghost predicate Lists(o: NameOrder, shelves: map<Id, Shelf>, user: Id, ids: seq<Id>) {
    && Distinct(ids)
    && (forall id :: id in ids <==> Owns(shelves, user, id))
    && (forall i, j :: 0 <= i < j < |ids| ==> o.Le(shelves, ids[i], ids[j]))
  }

  ghost predicate Before(ids: seq<Id>, a: Id, b: Id) {
    exists i, j :: 0 <= i < j < |ids| && ids[i] == a && ids[j] == b
  }

  /** The server's UpdateShelf with a new sort order: refused for an empty, unknown or foreign id. */
  function Update(shelves: map<Id, Shelf>, user: Id, id: Id, order: int): Option<map<Id, Shelf>> {
    if id != "" && Owns(shelves, user, id) then Some(shelves[id := shelves[id].(order := order)]) else None
  }

  function Updated(shelves: map<Id, Shelf>, user: Id, id: Id, order: int): map<Id, Shelf> {
    if Update(shelves, user, id, order).Some? then Update(shelves, user, id, order).value else shelves
  }

  /** One update per position, whatever each of them answers; some may never reach the server. */
  function Numbered(shelves: map<Id, Shelf>, user: Id, ids: seq<Id>, reached: nat -> bool): map<Id, Shelf> {
    if ids == [] then shelves
    else
      var n := |ids| - 1;
      var before := Numbered(shelves, user, ids[..n], reached);
      if reached(n) then Updated(before, user, ids[n], n) else before
  }

  // ---------- Listings ----------

  ghost predicate NoTies(shelves: map<Id, Shelf>, user: Id) {
    forall a, b :: Owns(shelves, user, a) && Owns(shelves, user, b) && a != b ==> !Tie(shelves[a], shelves[b])
  }

  lemma BeforeByKey(o: NameOrder, shelves: map<Id, Shelf>, user: Id, ids: seq<Id>, a: Id, b: Id)
    requires o.Lawful() && Lists(o, shelves, user, ids) && Owns(shelves, user, a) && Owns(shelves, user, b)
    requires o.KeyLess(shelves[a], shelves[b])
    ensures Before(ids, a, b)
  {
    var i :| 0 <= i < |ids| && ids[i] == a;
    var j :| 0 <= j < |ids| && ids[j] == b;
    assert j < i ==> o.Le(shelves, ids[j], ids[i]);
    assert i < j;
  }

  lemma KeyByBefore(o: NameOrder, shelves: map<Id, Shelf>, user: Id, ids: seq<Id>, a: Id, b: Id)
    requires Lists(o, shelves, user, ids) && Before(ids, a, b)
    ensures Owns(shelves, user, a) && Owns(shelves, user, b) && a != b && o.KeyLe(shelves[a], shelves[b])
  {
    var i, j :| 0 <= i < j < |ids| && ids[i] == a && ids[j] == b;
    assert a in ids && b in ids;
  }

  /** Sorted lists of the same distinct shelves agree when no two keys are equal. */
  lemma {:induction false} SortedOnce(o: NameOrder, shelves: map<Id, Shelf>, a: seq<Id>, b: seq<Id>)
    requires o.Lawful() && Distinct(a) && Distinct(b) && (forall id :: id in a <==> id in b)
    requires forall id :: id in a ==> id in shelves
    requires forall x, y :: x in a && y in a && x != y ==> !Tie(shelves[x], shelves[y])
    requires forall i, j :: 0 <= i < j < |a| ==> o.Le(shelves, a[i], a[j])
    requires forall i, j :: 0 <= i < j < |b| ==> o.Le(shelves, b[i], b[j])
    ensures a == b
  {
    if b != [] { assert b[0] in b; }
    if a != [] {
      assert a[0] in b && b != [] && b[0] in a;
      FirstAgrees(o, shelves, a, b);
      var p, q := a[1..], b[1..];
      assert a == [a[0]] + p && b == [b[0]] + q;
      assert forall i :: 0 <= i < |p| ==> p[i] == a[i + 1];
      assert forall i :: 0 <= i < |q| ==> q[i] == b[i + 1];
      assert a[0] !in p && b[0] !in q;
      forall id ensures id in p <==> id in q {
        assert id in p <==> id in a && id != a[0];
        assert id in q <==> id in b && id != b[0];
      }
      SortedOnce(o, shelves, p, q);
    }
  }

  lemma FirstAgrees(o: NameOrder, shelves: map<Id, Shelf>, a: seq<Id>, b: seq<Id>)
    requires o.Lawful() && a != [] && b != [] && a[0] in b && b[0] in a
    requires forall id :: id in a ==> id in shelves
    requires forall id :: id in b ==> id in shelves
    requires a[0] != b[0] ==> !Tie(shelves[a[0]], shelves[b[0]])
    requires forall i, j :: 0 <= i < j < |a| ==> o.Le(shelves, a[i], a[j])
    requires forall i, j :: 0 <= i < j < |b| ==> o.Le(shelves, b[i], b[j])
    ensures a[0] == b[0]
  {
    var i :| 0 <= i < |a| && a[i] == b[0];
    var j :| 0 <= j < |b| && b[j] == a[0];
    assert i > 0 ==> o.Le(shelves, a[0], a[i]);
    assert j > 0 ==> o.Le(shelves, b[0], b[j]);
  }

  lemma ListingIsUnique(o: NameOrder, shelves: map<Id, Shelf>, user: Id, a: seq<Id>, b: seq<Id>)
    requires o.Lawful() && NoTies(shelves, user) && Lists(o, shelves, user, a) && Lists(o, shelves, user, b)
    ensures a == b
  {
    SortedOnce(o, shelves, a, b);
  }

  // ---------- Reordering ----------

  ghost predicate Reorderable(shelves: map<Id, Shelf>, user: Id, ids: seq<Id>) {
    Distinct(ids) && "" !in ids && forall x :: x in ids ==> Owns(shelves, user, x)
  }

  lemma ReorderableInit(shelves: map<Id, Shelf>, user: Id, ids: seq<Id>)
    requires Reorderable(shelves, user, ids) && ids != []
    ensures Reorderable(shelves, user, ids[..|ids| - 1]) && Owns(shelves, user, ids[|ids| - 1]) && ids[|ids| - 1] != ""
    ensures ids[|ids| - 1] !in ids[..|ids| - 1]
  {
    var n := |ids| - 1;
    assert ids[n] in ids;
    assert forall x :: x in ids[..n] ==> x in ids;
  }

  /** Numbering adds and drops no shelf. */
  lemma {:induction false} NumberedKeys(shelves: map<Id, Shelf>, user: Id, ids: seq<Id>, reached: nat -> bool)
    ensures Numbered(shelves, user, ids, reached).Keys == shelves.Keys
  {
    if ids != [] {
      NumberedKeys(shelves, user, ids[..|ids| - 1], reached);
    }
  }

  /** A shelf that is not named keeps everything. */
  lemma {:induction false} NumberedElsewhere(shelves: map<Id, Shelf>, user: Id, ids: seq<Id>, reached: nat -> bool,
                                             id: Id)
    requires id in shelves && id !in ids
    ensures id in Numbered(shelves, user, ids, reached) && Numbered(shelves, user, ids, reached)[id] == shelves[id]
  {
    if ids != [] {
      assert ids[|ids| - 1] in ids;
      NumberedElsewhere(shelves, user, ids[..|ids| - 1], reached, id);
    }
  }

  /** Whatever shelves a user's requests name, nobody else's shelf changes. */
  lemma {:induction false} OthersShelvesAreSafe(shelves: map<Id, Shelf>, user: Id, ids: seq<Id>, reached: nat -> bool,
                                                id: Id)
    requires id in shelves && shelves[id].user != user
    ensures id in Numbered(shelves, user, ids, reached) && Numbered(shelves, user, ids, reached)[id] == shelves[id]
  {
    if ids != [] {
      OthersShelvesAreSafe(shelves, user, ids[..|ids| - 1], reached, id);
    }
  }

  /** The shelf at a position gets that number if its request reached the server, and keeps its own if not. */
  lemma {:induction false} NumberedAt(shelves: map<Id, Shelf>, user: Id, ids: seq<Id>, reached: nat -> bool, i: nat)
    requires Reorderable(shelves, user, ids) && i < |ids|
    ensures ids[i] in shelves && ids[i] in Numbered(shelves, user, ids, reached)
    ensures Numbered(shelves, user, ids, reached)[ids[i]] ==
            if reached(i) then shelves[ids[i]].(order := i) else shelves[ids[i]]
  {
    var n := |ids| - 1;
    ReorderableInit(shelves, user, ids);
    if i < n {
      NumberedAt(shelves, user, ids[..n], reached, i);
      assert ids[..n][i] == ids[i] != ids[n];
    } else {
      NumberedElsewhere(shelves, user, ids[..n], reached, ids[n]);
    }
  }

  lemma SameOwners(shelves: map<Id, Shelf>, user: Id, ids: seq<Id>, reached: nat -> bool, owner: Id, id: Id)
    requires Reorderable(shelves, user, ids)
    ensures Owns(Numbered(shelves, user, ids, reached), owner, id) <==> Owns(shelves, owner, id)
    ensures id in shelves && id !in ids ==>
              id in Numbered(shelves, user, ids, reached) && Numbered(shelves, user, ids, reached)[id] == shelves[id]
  {
    NumberedKeys(shelves, user, ids, reached);
    if id in shelves {
      if id in ids {
        var i :| 0 <= i < |ids| && ids[i] == id;
        NumberedAt(shelves, user, ids, reached, i);
      } else {
        NumberedElsewhere(shelves, user, ids, reached, id);
      }
    }
  }

  lemma NumberedInOrder(o: NameOrder, shelves: map<Id, Shelf>, user: Id, ids: seq<Id>, reached: nat -> bool)
    requires Reorderable(shelves, user, ids) && forall i :: 0 <= i < |ids| ==> reached(i)
    ensures forall i, j :: 0 <= i < j < |ids| ==> o.Le(Numbered(shelves, user, ids, reached), ids[i], ids[j])
    ensures forall a, b :: a in ids && b in ids && a != b ==>
              a in Numbered(shelves, user, ids, reached) && b in Numbered(shelves, user, ids, reached)
              && !Tie(Numbered(shelves, user, ids, reached)[a], Numbered(shelves, user, ids, reached)[b])
  {
    forall i | 0 <= i < |ids|
      ensures ids[i] in Numbered(shelves, user, ids, reached)
      ensures Numbered(shelves, user, ids, reached)[ids[i]].order == i {
      NumberedAt(shelves, user, ids, reached, i);
    }
  }

  /** Numbering a permutation of a user's shelves, when every request reached the server, makes every listing
      equal that permutation, and renumbers nothing else. */
  lemma ReorderGivesThatOrder(o: NameOrder, shelves: map<Id, Shelf>, user: Id, ids: seq<Id>, reached: nat -> bool,
                              listing: seq<Id>)
    requires o.Lawful() && "" !in shelves && Distinct(ids) && (forall id :: id in ids <==> Owns(shelves, user, id))
    requires forall i :: 0 <= i < |ids| ==> reached(i)
    requires Lists(o, Numbered(shelves, user, ids, reached), user, listing)
    ensures listing == ids
    ensures forall id :: id in shelves && shelves[id].user != user ==>
              id in Numbered(shelves, user, ids, reached) && Numbered(shelves, user, ids, reached)[id] == shelves[id]
  {
    hide Numbered, Tie;
    var next := Numbered(shelves, user, ids, reached);
    assert Reorderable(shelves, user, ids);
    forall id ensures Owns(next, user, id) <==> Owns(shelves, user, id)
              ensures id in shelves && id !in ids ==> id in next && next[id] == shelves[id] {
      SameOwners(shelves, user, ids, reached, user, id);
    }
    NumberedInOrder(o, shelves, user, ids, reached);
    ListingIsUnique(o, next, user, listing, ids);
  }

  /** When a request is lost, that shelf keeps its old number: the new listing still shows the shelves whose
      requests arrived in the order asked for. */
  lemma LostRequestsKeepTheRest(o: NameOrder, shelves: map<Id, Shelf>, user: Id, ids: seq<Id>, reached: nat -> bool,
                                listing: seq<Id>, i: nat, j: nat)
    requires o.Lawful() && "" !in shelves && Distinct(ids) && (forall id :: id in ids <==> Owns(shelves, user, id))
    requires Lists(o, Numbered(shelves, user, ids, reached), user, listing)
    requires i < j < |ids| && reached(i) && reached(j)
    ensures Before(listing, ids[i], ids[j])
  {
    hide Numbered;
    assert Reorderable(shelves, user, ids);
    NumberedAt(shelves, user, ids, reached, i);
    NumberedAt(shelves, user, ids, reached, j);
    SameOwners(shelves, user, ids, reached, user, ids[i]);
    SameOwners(shelves, user, ids, reached, user, ids[j]);
    assert ids[i] in ids && ids[j] in ids;
    BeforeByKey(o, Numbered(shelves, user, ids, reached), user, listing, ids[i], ids[j]);
  }

  // ---------- Moving one shelf ----------

  /** Shelves that did not move keep their relative order; only exact ties may be listed either way. */
  lemma OthersKeepTheirOrder(o: NameOrder, shelves: map<Id, Shelf>, next: map<Id, Shelf>, user: Id, ids: seq<Id>,
                             listing: seq<Id>, moved: Id, a: Id, b: Id)
    requires o.Lawful() && Lists(o, shelves, user, ids) && Lists(o, next, user, listing)
    requires next.Keys == shelves.Keys && forall id :: id in shelves && id != moved ==> next[id] == shelves[id]
    requires Before(ids, a, b) && a != moved && b != moved
    ensures Before(listing, a, b) || (a in shelves && b in shelves && Tie(shelves[a], shelves[b]))
  {
    KeyByBefore(o, shelves, user, ids, a, b);
    if !Tie(shelves[a], shelves[b]) {
      BeforeByKey(o, next, user, listing, a, b);
    }
  }

  /** Moving a shelf up lists it strictly before the shelf that was above it and before everything that sorted
      like that one, and leaves the others in order. */
  lemma MoveUp(o: NameOrder, shelves: map<Id, Shelf>, user: Id, ids: seq<Id>, at: nat, listing: seq<Id>)
    requires o.Lawful() && "" !in shelves && Lists(o, shelves, user, ids) && 0 < at < |ids|
    requires ids[at] in shelves && ids[at - 1] in shelves
    requires Lists(o, shelves[ids[at] := shelves[ids[at]].(order := shelves[ids[at - 1]].order - 1)], user,
                   listing)
    ensures forall id :: (Owns(shelves, user, id) && id != ids[at] && ids[at - 1] in shelves
                          && shelves[id].order >= shelves[ids[at - 1]].order) ==>
              Before(listing, ids[at], id)
    ensures Before(listing, ids[at], ids[at - 1])
    ensures forall a, b :: Before(ids, a, b) && a != ids[at] && b != ids[at] ==>
              Before(listing, a, b) || (a in shelves && b in shelves && Tie(shelves[a], shelves[b]))
  {
    var next := shelves[ids[at] := shelves[ids[at]].(order := shelves[ids[at - 1]].order - 1)];
    assert ids[at] in ids && ids[at - 1] in ids;
    assert ids[at - 1] != ids[at];
    forall id | Owns(shelves, user, id) && id != ids[at] && ids[at - 1] in shelves
        && shelves[id].order >= shelves[ids[at - 1]].order
      ensures Before(listing, ids[at], id) {
      BeforeByKey(o, next, user, listing, ids[at], id);
    }
    forall a, b | Before(ids, a, b) && a != ids[at] && b != ids[at]
      ensures Before(listing, a, b) || (a in shelves && b in shelves && Tie(shelves[a], shelves[b])) {
      OthersKeepTheirOrder(o, shelves, next, user, ids, listing, ids[at], a, b);
    }
  }

  lemma MoveDown(o: NameOrder, shelves: map<Id, Shelf>, user: Id, ids: seq<Id>, at: nat, listing: seq<Id>)
    requires o.Lawful() && "" !in shelves && Lists(o, shelves, user, ids) && at + 1 < |ids|
    requires ids[at] in shelves && ids[at + 1] in shelves
    requires Lists(o, shelves[ids[at] := shelves[ids[at]].(order := shelves[ids[at + 1]].order + 1)], user,
                   listing)
    ensures forall id :: (Owns(shelves, user, id) && id != ids[at] && ids[at + 1] in shelves
                          && shelves[id].order <= shelves[ids[at + 1]].order) ==>
              Before(listing, id, ids[at])
    ensures Before(listing, ids[at + 1], ids[at])
    ensures forall a, b :: Before(ids, a, b) && a != ids[at] && b != ids[at] ==>
              Before(listing, a, b) || (a in shelves && b in shelves && Tie(shelves[a], shelves[b]))
  {
    var next := shelves[ids[at] := shelves[ids[at]].(order := shelves[ids[at + 1]].order + 1)];
    assert ids[at] in ids && ids[at + 1] in ids;
    assert ids[at + 1] != ids[at];
    forall id | Owns(shelves, user, id) && id != ids[at] && ids[at + 1] in shelves
        && shelves[id].order <= shelves[ids[at + 1]].order
      ensures Before(listing, id, ids[at]) {
      BeforeByKey(o, next, user, listing, id, ids[at]);
    }
    forall a, b | Before(ids, a, b) && a != ids[at] && b != ids[at]
      ensures Before(listing, a, b) || (a in shelves && b in shelves && Tie(shelves[a], shelves[b])) {
      OthersKeepTheirOrder(o, shelves, next, user, ids, listing, ids[at], a, b);
    }
  }

  function Exchanged(ids: seq<Id>, i: nat): seq<Id>
    requires i + 1 < |ids|
  {
    ids[i := ids[i + 1]][i + 1 := ids[i]]
  }

  /** Where the shelf at a position was before the exchange. */
  function Was(i: nat, k: nat): nat {
    if k == i then i + 1 else if k == i + 1 then i else k
  }

  lemma ExchangedAt(ids: seq<Id>, i: nat, k: nat)
    requires i + 1 < |ids| && k < |ids|
    ensures Was(i, k) < |ids| && Exchanged(ids, i)[k] == ids[Was(i, k)] && Exchanged(ids, i)[Was(i, k)] == ids[k]
  {
  }

  lemma ExchangedMembers(ids: seq<Id>, i: nat)
    requires i + 1 < |ids| && Distinct(ids)
    ensures |Exchanged(ids, i)| == |ids| && Distinct(Exchanged(ids, i))
    ensures forall id :: id in Exchanged(ids, i) <==> id in ids
  {
    var t := Exchanged(ids, i);
    forall j, k | 0 <= j < k < |t| ensures t[j] != t[k] {
      ExchangedAt(ids, i, j);
      ExchangedAt(ids, i, k);
    }
    forall id ensures id in t <==> id in ids {
      if id in ids {
        var k :| 0 <= k < |ids| && ids[k] == id;
        ExchangedAt(ids, i, k);
        assert t[Was(i, k)] == id;
      }
      if id in t {
        var k :| 0 <= k < |t| && t[k] == id;
        ExchangedAt(ids, i, k);
        assert ids[Was(i, k)] == id;
      }
    }
  }

  /** Exchanging neighbours keeps a list sorted once the pairs at the seam are. */
  lemma ExchangedSorted(o: NameOrder, shelves: map<Id, Shelf>, next: map<Id, Shelf>, user: Id, ids: seq<Id>, i: nat,
      moved: Id)
    requires o.Lawful() && Lists(o, shelves, user, ids) && i + 1 < |ids|
    requires next.Keys == shelves.Keys && (forall id :: id in shelves && id != moved ==> next[id] == shelves[id])
    requires forall id :: id in shelves ==> next[id].user == shelves[id].user
    requires moved == ids[i] || moved == ids[i + 1]
    requires forall k :: 0 <= k < i ==> o.Le(next, ids[k], moved)
    requires forall k :: i + 1 < k < |ids| ==> o.Le(next, moved, ids[k])
    requires o.Le(next, ids[i + 1], ids[i])
    ensures Lists(o, next, user, Exchanged(ids, i))
  {
    var t := Exchanged(ids, i);
    ExchangedMembers(ids, i);
    forall j, k | 0 <= j < k < |t| ensures o.Le(next, t[j], t[k]) {
      ExchangedAt(ids, i, j);
      ExchangedAt(ids, i, k);
      ExchangedPair(o, shelves, next, user, ids, i, moved, j, k);
    }
  }

  lemma ExchangedPair(o: NameOrder, shelves: map<Id, Shelf>, next: map<Id, Shelf>, user: Id, ids: seq<Id>, i: nat,
      moved: Id, j: nat, k: nat)
    requires Lists(o, shelves, user, ids) && i + 1 < |ids| && j < k < |ids|
    requires next.Keys == shelves.Keys && (forall id :: id in shelves && id != moved ==> next[id] == shelves[id])
    requires moved == ids[i] || moved == ids[i + 1]
    requires forall k :: 0 <= k < i ==> o.Le(next, ids[k], moved)
    requires forall k :: i + 1 < k < |ids| ==> o.Le(next, moved, ids[k])
    requires o.Le(next, ids[i + 1], ids[i])
    ensures o.Le(next, ids[Was(i, j)], ids[Was(i, k)])
  {
    var p, q := Was(i, j), Was(i, k);
    if p < q && ids[p] != moved && ids[q] != moved {
      assert o.Le(shelves, ids[p], ids[q]);
    }
  }

  /** Up means exactly one place up, and nothing else, if and only if the shelf two places above still sorts
      strictly before the new key; otherwise the move jumps further. */
  lemma MoveUpIsOnePlace(o: NameOrder, shelves: map<Id, Shelf>, user: Id, ids: seq<Id>, at: nat, listing: seq<Id>)
    requires o.Lawful() && "" !in shelves && Lists(o, shelves, user, ids) && 0 < at < |ids|
    requires ids[at] in shelves && ids[at - 1] in shelves
    requires Lists(o, shelves[ids[at] := shelves[ids[at]].(order := shelves[ids[at - 1]].order - 1)], user,
                   listing)
    requires NoTies(shelves[ids[at] := shelves[ids[at]].(order := shelves[ids[at - 1]].order - 1)], user)
    ensures listing == Exchanged(ids, at - 1) <==>
            at == 1 || (ids[at - 2] in shelves
                        && o.KeyLess(shelves[ids[at - 2]],
                                     shelves[ids[at]].(order := shelves[ids[at - 1]].order - 1)))
  {
    var moved := ids[at];
    var next := shelves[ids[at] := shelves[ids[at]].(order := shelves[ids[at - 1]].order - 1)];
    assert forall k :: 0 <= k < |ids| ==> ids[k] in ids && ids[k] in shelves && ids[k] != "";
    assert forall k :: 0 <= k < |ids| && k != at ==> ids[k] != moved;
    if at == 1 || o.KeyLess(shelves[ids[at - 2]], next[moved]) {
      UpSorted(o, shelves, next, user, ids, at);
      ListingIsUnique(o, next, user, listing, Exchanged(ids, at - 1));
    } else {
      var t := Exchanged(ids, at - 1);
      assert t[at - 2] == ids[at - 2] && t[at - 1] == moved;
      assert !o.Le(next, t[at - 2], t[at - 1]);
      assert at <= |listing| ==> o.Le(next, listing[at - 2], listing[at - 1]);
    }
  }

  lemma UpSorted(o: NameOrder, shelves: map<Id, Shelf>, next: map<Id, Shelf>, user: Id, ids: seq<Id>, at: nat)
    requires o.Lawful() && "" !in shelves && Lists(o, shelves, user, ids) && 0 < at < |ids|
    requires ids[at] in shelves && ids[at - 1] in shelves
    requires next == shelves[ids[at] := shelves[ids[at]].(order := shelves[ids[at - 1]].order - 1)]
    requires at == 1 || (ids[at - 2] in shelves && o.KeyLess(shelves[ids[at - 2]], next[ids[at]]))
    ensures Lists(o, next, user, Exchanged(ids, at - 1))
  {
    var moved := ids[at];
    assert forall k :: 0 <= k < |ids| ==> ids[k] in ids && ids[k] in shelves && ids[k] != "";
    assert forall k :: 0 <= k < |ids| && k != at ==> ids[k] != moved;
    forall k | 0 <= k < at - 1 ensures o.Le(next, ids[k], moved) {
      if k < at - 2 { assert o.Le(shelves, ids[k], ids[at - 2]); }
    }
    forall k | at < k < |ids| ensures o.Le(next, moved, ids[k]) {
      assert o.Le(shelves, ids[at - 1], ids[k]);
    }
    ExchangedSorted(o, shelves, next, user, ids, at - 1, moved);
  }

  lemma MoveDownIsOnePlace(o: NameOrder, shelves: map<Id, Shelf>, user: Id, ids: seq<Id>, at: nat, listing: seq<Id>)
    requires o.Lawful() && "" !in shelves && Lists(o, shelves, user, ids) && at + 1 < |ids|
    requires ids[at] in shelves && ids[at + 1] in shelves
    requires Lists(o, shelves[ids[at] := shelves[ids[at]].(order := shelves[ids[at + 1]].order + 1)], user,
                   listing)
    requires NoTies(shelves[ids[at] := shelves[ids[at]].(order := shelves[ids[at + 1]].order + 1)], user)
    ensures listing == Exchanged(ids, at) <==>
            at + 2 == |ids| || (ids[at + 2] in shelves
                                && o.KeyLess(shelves[ids[at]].(order := shelves[ids[at + 1]].order + 1),
                                             shelves[ids[at + 2]]))
  {
    var moved := ids[at];
    var next := shelves[ids[at] := shelves[ids[at]].(order := shelves[ids[at + 1]].order + 1)];
    assert forall k :: 0 <= k < |ids| ==> ids[k] in ids && ids[k] in shelves && ids[k] != "";
    assert forall k :: 0 <= k < |ids| && k != at ==> ids[k] != moved;
    if at + 2 == |ids| || o.KeyLess(next[moved], shelves[ids[at + 2]]) {
      forall k | at + 1 < k < |ids| ensures o.Le(next, moved, ids[k]) {
        if k > at + 2 { assert o.Le(shelves, ids[at + 2], ids[k]); }
      }
      forall k | 0 <= k < at ensures o.Le(next, ids[k], moved) {
        assert o.Le(shelves, ids[k], ids[at + 1]);
      }
      ExchangedSorted(o, shelves, next, user, ids, at, moved);
      ListingIsUnique(o, next, user, listing, Exchanged(ids, at));
    } else {
      var t := Exchanged(ids, at);
      assert t[at + 1] == moved && t[at + 2] == ids[at + 2];
      assert !o.Le(next, t[at + 1], t[at + 2]);
      assert at + 2 < |listing| ==> o.Le(next, listing[at + 1], listing[at + 2]);
    }
  }

  /** Shelves start with equal sort orders; moving any of them up then puts it first. */
  lemma EqualOrdersJumpToTop(o: NameOrder, shelves: map<Id, Shelf>, user: Id, ids: seq<Id>, at: nat, listing: seq<Id>)
    requires o.Lawful() && "" !in shelves && Lists(o, shelves, user, ids) && 0 < at < |ids|
    requires ids[at] in shelves && ids[at - 1] in shelves
    requires Lists(o, shelves[ids[at] := shelves[ids[at]].(order := shelves[ids[at - 1]].order - 1)], user,
                   listing)
    requires forall a, b :: Owns(shelves, user, a) && Owns(shelves, user, b) ==> shelves[a].order == shelves[b].order
    ensures listing != [] && listing[0] == ids[at]
  {
    MoveUp(o, shelves, user, ids, at, listing);
    var next := shelves[ids[at] := shelves[ids[at]].(order := shelves[ids[at - 1]].order - 1)];
    assert ids[at] in ids && ids[at - 1] in ids && Owns(shelves, user, ids[at - 1]);
    var i :| 0 <= i < |listing| && listing[i] == ids[at];
    assert listing[0] in listing && Owns(next, user, listing[0]);
  }

  // ---------- The client's library service ----------

  /** A shelf in a server reply, as far as moving looks at it. */
  datatype Entry = Entry(id: Id, order: int)

  /** What becomes of a request: whether it arrives, whether its reply does, and the shelves the reply shows. */
  datatype Delivery = Delivery(reached: bool, answered: bool, reply: Option<seq<Entry>>)

  function FindEntry(entries: seq<Entry>, id: Id): (i: nat)
    ensures i <= |entries|
    ensures i < |entries| ==> entries[i].id == id
    ensures forall j :: 0 <= j < i ==> entries[j].id != id
  {
    FirstIndex(entries, (entry: Entry) => entry.id == id)
  }

  /** The sort order a move up sends, if it sends anything. */
  function UpRequest(entries: seq<Entry>, id: Id): Option<int> {
    var at := FindEntry(entries, id);
    if id != "" && 0 < at < |entries| then Some(entries[at - 1].order - 1) else None
  }

  function DownRequest(entries: seq<Entry>, id: Id): Option<int> {
    var at := FindEntry(entries, id);
    if id != "" && at + 1 < |entries| then Some(entries[at + 1].order + 1) else None
  }

  /** The entries are what the server lists now. */
  ghost predicate Shows(shelves: map<Id, Shelf>, ids: seq<Id>, entries: seq<Entry>) {
    |entries| == |ids| && forall i :: 0 <= i < |ids| ==>
      ids[i] in shelves && entries[i] == Entry(ids[i], shelves[ids[i]].order)
  }

  /** With an up-to-date cache the request asks for one less than the order of the shelf above, or one more than that of
      the shelf below; nothing is sent for the first, the last or an unknown shelf. */
  lemma RequestsMove(shelves: map<Id, Shelf>, user: Id, ids: seq<Id>, entries: seq<Entry>, at: nat)
    requires Shows(shelves, ids, entries) && Distinct(ids) && "" !in ids && at < |ids|
    ensures ids[at] in shelves
    ensures at == 0 ==> UpRequest(entries, ids[at]) == None
    ensures at > 0 ==>
              ids[at - 1] in shelves && UpRequest(entries, ids[at]) == Some(shelves[ids[at - 1]].order - 1)
    ensures at + 1 == |ids| ==> DownRequest(entries, ids[at]) == None
    ensures at + 1 < |ids| ==>
              ids[at + 1] in shelves && DownRequest(entries, ids[at]) == Some(shelves[ids[at + 1]].order + 1)
    ensures forall id :: id !in ids ==> UpRequest(entries, id) == DownRequest(entries, id) == None
    ensures forall order :: shelves[ids[at]].user == user ==>
              Updated(shelves, user, ids[at], order) == shelves[ids[at] := shelves[ids[at]].(order := order)]
  {
    assert FindEntry(entries, ids[at]) == at;
    assert ids[at] in ids;
    assert forall k :: 0 <= k < |ids| ==> entries[k].id == ids[k] && ids[k] in ids;
  }

  class LibraryServer {
    var shelves: map<Id, Shelf>

    constructor (shelves: map<Id, Shelf>)
      ensures this.shelves == shelves
    {
      this.shelves := shelves;
    }

    method UpdateShelf(user: Id, id: Id, order: int) returns (ok: bool)
      modifies this
      ensures ok == (id != "" && id in old(shelves) && old(shelves)[id].user == user)
      ensures shelves == if ok then old(shelves)[id := old(shelves)[id].(order := order)] else old(shelves)
      ensures ok == Update(old(shelves), user, id, order).Some?
      ensures shelves == Updated(old(shelves), user, id, order)
    {
      if id == "" || id !in shelves || shelves[id].user != user { return false; }
      shelves := shelves[id := shelves[id].(order := order)];
      return true;
    }
  }

  class LibraryService {
    const server: LibraryServer
    const user: Id
    /** The cached library; None when empty, to be fetched again. */
    var cache: Option<seq<Entry>>

    constructor (server: LibraryServer, user: Id)
      ensures this.server == server && this.user == user && cache == None
    {
      this.server, this.user, cache := server, user, None;
    }

    /** The cached shelves, fetched first if there are none; the fetch may fail. */
    method Fetched(fetch: Option<seq<Entry>>) returns (entries: seq<Entry>)
      modifies this
      ensures cache == if old(cache).Some? then old(cache) else fetch
      ensures entries == if cache.Some? then cache.value else []
    {
      if cache.None? { cache := fetch; }
      entries := if cache.Some? then cache.value else [];
    }

    method IndexOf(entries: seq<Entry>, id: Id) returns (at: nat)
      ensures at == FindEntry(entries, id)
    {
      for i := 0 to |entries|
        invariant forall j :: 0 <= j < i ==> entries[j].id != id
      {
        if entries[i].id == id { return i; }
      }
      return |entries|;
    }

    /** Sends one update. It may not reach the server, and the reply, with the new listing or without, may not
        come back. */
    method Send(id: Id, order: int, d: Delivery) returns (ok: bool)
      modifies this, server
      ensures server.shelves == if d.reached then Updated(old(server.shelves), user, id, order) else old(server.shelves)
      ensures ok == (d.reached && d.answered && Update(old(server.shelves), user, id, order).Some?)
      ensures cache == if ok then d.reply else old(cache)
    {
      if !d.reached { return false; }
      var done := server.UpdateShelf(user, id, order);
      ok := d.answered && done;
      if ok { cache := d.reply; }
    }

    method MoveShelfUp(id: Id, fetch: Option<seq<Entry>>, d: Delivery) returns (ok: bool)
      modifies this, server
      ensures var known := if old(cache).Some? then old(cache) else fetch;
        var request := UpRequest(if known.Some? then known.value else [], id);
        && server.shelves == (if request.Some? && d.reached then Updated(old(server.shelves), user, id, request.value)
                              else old(server.shelves))
        && ok == (request.Some? && d.reached && d.answered
                  && Update(old(server.shelves), user, id, request.value).Some?)
        && cache == if ok then d.reply else if id == "" then old(cache) else known
    {
      if id == "" { return false; }
      var entries := Fetched(fetch);
      var at := IndexOf(entries, id);
      if at == 0 || at == |entries| { return false; }
      ok := Send(id, entries[at - 1].order - 1, d);
    }

    method MoveShelfDown(id: Id, fetch: Option<seq<Entry>>, d: Delivery) returns (ok: bool)
      modifies this, server
      ensures var known := if old(cache).Some? then old(cache) else fetch;
        var request := DownRequest(if known.Some? then known.value else [], id);
        && server.shelves == (if request.Some? && d.reached then Updated(old(server.shelves), user, id, request.value)
                              else old(server.shelves))
        && ok == (request.Some? && d.reached && d.answered
                  && Update(old(server.shelves), user, id, request.value).Some?)
        && cache == if ok then d.reply else if id == "" then old(cache) else known
    {
      if id == "" { return false; }
      var entries := Fetched(fetch);
      var at := IndexOf(entries, id);
      if at >= |entries| - 1 { return false; }
      ok := Send(id, entries[at + 1].order + 1, d);
    }

    /** Numbers the shelves one request at a time, whatever becomes of each, empties the cache and fetches the
        result, which may fail. */
    method ReorderShelves(ids: seq<Id>, reached: nat -> bool, fetch: Option<seq<Entry>>) returns (ok: bool)
      modifies this, server
      ensures ok && server.shelves == Numbered(old(server.shelves), user, ids, reached) && cache == fetch
    {
      ghost var was := server.shelves;
      for i := 0 to |ids|
        invariant server.shelves == Numbered(was, user, ids[..i], reached)
      {
        assert ids[..i + 1][..i] == ids[..i];
        if reached(i) {
          var _ := server.UpdateShelf(user, ids[i], i);
        }
      }
      assert ids[..|ids|] == ids;
      cache := None;
      var _ := Fetched(fetch);
      ok := true;
    }
  }
}
