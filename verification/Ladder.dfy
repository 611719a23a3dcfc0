/** One side of the book as the engine stores it: a price-sorted map of FIFO levels.

    The sorted map is the sequence of its entries, best price first; a level is its
    queue of (id, quantity, arrival).  The functions below are the contracts of the
    two foreign containers: the sorted map (best entry, get, insert, remove) and the
    price level (enqueue, cancel by id, update quantity in place, snapshot, count). */
module Ladder {
  import opened Domain
  import opened PriceTime

  datatype LevelOrder = LevelOrder(id: OrderId, qty: Qty, arrival: nat)

  datatype Level = Level(price: Price, orders: seq<LevelOrder>)

  // -------------------------------------------------------------------------
  // Price level
  // -------------------------------------------------------------------------

  function Drop(os: seq<LevelOrder>, id: OrderId): seq<LevelOrder> {
    if os == [] then []
    else if os[0].id == id then Drop(os[1..], id)
    else [os[0]] + Drop(os[1..], id)
  }

  function Resize(os: seq<LevelOrder>, id: OrderId, n: Qty): seq<LevelOrder> {
    if os == [] then []
    else (if os[0].id == id then [os[0].(qty := n)] else [os[0]]) + Resize(os[1..], id, n)
  }

  function QtyIn(os: seq<LevelOrder>, id: OrderId): Option<Qty> {
    if os == [] then None
    else if os[0].id == id then Some(os[0].qty)
    else QtyIn(os[1..], id)
  }

  function TotalQuantity(os: seq<LevelOrder>): nat {
    if os == [] then 0 else os[0].qty + TotalQuantity(os[1..])
  }

  // -------------------------------------------------------------------------
  // Sorted map of levels
  // -------------------------------------------------------------------------

  function BestLevel(lad: seq<Level>): Option<Price> {
    if lad == [] then None else Some(lad[0].price)
  }

  /** The queue at `price`; empty when there is no such level. */
  function OrdersAt(lad: seq<Level>, price: Price): seq<LevelOrder> {
    if lad == [] then []
    else if lad[0].price == price then lad[0].orders
    else OrdersAt(lad[1..], price)
  }

  /** Create the level if it is missing and enqueue at its tail. */
  function Enqueue(side: Side, lad: seq<Level>, price: Price, o: LevelOrder): seq<Level> {
    if lad == [] then [Level(price, [o])]
    else if lad[0].price == price then [Level(price, lad[0].orders + [o])] + lad[1..]
    else if Better(side, lad[0].price, price) then [lad[0]] + Enqueue(side, lad[1..], price, o)
    else [Level(price, [o])] + lad
  }

  /** Replace the queue at `price`, leaving every other level alone. */
  function Store(lad: seq<Level>, price: Price, os: seq<LevelOrder>): seq<Level> {
    if lad == [] then []
    else if lad[0].price == price then [Level(price, os)] + lad[1..]
    else [lad[0]] + Store(lad[1..], price, os)
  }

  function RemoveLevel(lad: seq<Level>, price: Price): seq<Level> {
    if lad == [] then []
    else if lad[0].price == price then lad[1..]
    else [lad[0]] + RemoveLevel(lad[1..], price)
  }

  // -------------------------------------------------------------------------
  // Representation of a flat queue
  // -------------------------------------------------------------------------

  /** What a ladder knows about one resting order. */
  datatype Slot = Slot(id: OrderId, price: Price, qty: Qty, arrival: nat)

  function SlotOf(o: Resting): Slot { Slot(o.id, o.price, o.qty, o.arrival) }

  function Strip(q: seq<Resting>): seq<Slot> {
    if q == [] then [] else [SlotOf(q[0])] + Strip(q[1..])
  }

  function Slots(price: Price, os: seq<LevelOrder>): seq<Slot> {
    if os == [] then []
    else [Slot(os[0].id, price, os[0].qty, os[0].arrival)] + Slots(price, os[1..])
  }

  function Flatten(lad: seq<Level>): seq<Slot> {
    if lad == [] then [] else Slots(lad[0].price, lad[0].orders) + Flatten(lad[1..])
  }

  ghost predicate Priced(side: Side, lad: seq<Level>) {
    forall i, j :: 0 <= i < j < |lad| ==> Better(side, lad[i].price, lad[j].price)
  }

  ghost predicate NoneEmpty(lad: seq<Level>) {
    forall l :: l in lad ==> l.orders != []
  }

  /** The ladder holds exactly the queue `q`, one non-empty level per price, best first. */
  ghost predicate Represents(side: Side, lad: seq<Level>, q: seq<Resting>) {
    Priced(side, lad) && NoneEmpty(lad) && Flatten(lad) == Strip(q)
  }

  lemma {:induction false} StripAt(q: seq<Resting>)
    ensures |Strip(q)| == |q|
    ensures forall i :: 0 <= i < |q| ==> Strip(q)[i] == SlotOf(q[i])
  {
    if q != [] { StripAt(q[1..]); }
  }

  lemma {:induction false} SlotsAt(price: Price, os: seq<LevelOrder>)
    ensures |Slots(price, os)| == |os|
    ensures forall i :: 0 <= i < |os| ==>
      Slots(price, os)[i] == Slot(os[i].id, price, os[i].qty, os[i].arrival)
  {
    if os != [] { SlotsAt(price, os[1..]); }
  }

  // -------------------------------------------------------------------------
  // Slot-level edits, and how both representations perform them
  // -------------------------------------------------------------------------

  function DropSlot(s: seq<Slot>, id: OrderId): seq<Slot> {
    if s == [] then []
    else (if s[0].id == id then [] else [s[0]]) + DropSlot(s[1..], id)
  }

  function ResizeSlot(s: seq<Slot>, id: OrderId, n: Qty): seq<Slot> {
    if s == [] then []
    else (if s[0].id == id then [s[0].(qty := n)] else [s[0]]) + ResizeSlot(s[1..], id, n)
  }

  function FindQty(s: seq<Slot>, id: OrderId): Option<Qty> {
    if s == [] then None else if s[0].id == id then Some(s[0].qty) else FindQty(s[1..], id)
  }

  predicate HasSlot(s: seq<Slot>, id: OrderId) {
    if s == [] then false else s[0].id == id || HasSlot(s[1..], id)
  }

  lemma {:induction false} DropSlotAppend(a: seq<Slot>, b: seq<Slot>, id: OrderId)
    ensures DropSlot(a + b, id) == DropSlot(a, id) + DropSlot(b, id)
  {
    if a == [] {
      assert a + b == b;
    } else {
      assert (a + b)[1..] == a[1..] + b;
      DropSlotAppend(a[1..], b, id);
    }
  }

  lemma {:induction false} ResizeSlotAppend(a: seq<Slot>, b: seq<Slot>, id: OrderId, n: Qty)
    ensures ResizeSlot(a + b, id, n) == ResizeSlot(a, id, n) + ResizeSlot(b, id, n)
  {
    if a == [] {
      assert a + b == b;
    } else {
      assert (a + b)[1..] == a[1..] + b;
      ResizeSlotAppend(a[1..], b, id, n);
    }
  }

  lemma {:induction false} FindSlotAppend(a: seq<Slot>, b: seq<Slot>, id: OrderId)
    ensures HasSlot(a + b, id) == (HasSlot(a, id) || HasSlot(b, id))
    ensures FindQty(a + b, id) == if HasSlot(a, id) then FindQty(a, id) else FindQty(b, id)
  {
    if a == [] {
      assert a + b == b;
    } else {
      assert (a + b)[1..] == a[1..] + b;
      FindSlotAppend(a[1..], b, id);
    }
  }

  lemma {:induction false} SlotEditsAbsent(s: seq<Slot>, id: OrderId, n: Qty)
    requires !HasSlot(s, id)
    ensures DropSlot(s, id) == s && ResizeSlot(s, id, n) == s && FindQty(s, id) == None
  {
    if s != [] { SlotEditsAbsent(s[1..], id, n); }
  }

  lemma {:induction false} LevelEdits(price: Price, os: seq<LevelOrder>, id: OrderId, n: Qty)
    ensures Slots(price, Drop(os, id)) == DropSlot(Slots(price, os), id)
    ensures Slots(price, Resize(os, id, n)) == ResizeSlot(Slots(price, os), id, n)
    ensures QtyIn(os, id) == FindQty(Slots(price, os), id)
    ensures |Resize(os, id, n)| == |os|
  {
    if os != [] { LevelEdits(price, os[1..], id, n); }
  }

  lemma {:induction false} QueueEdits(q: seq<Resting>, id: OrderId, n: Qty)
    ensures Strip(Without(q, {id})) == DropSlot(Strip(q), id)
    ensures Strip(SetQty(q, id, n)) == ResizeSlot(Strip(q), id, n)
    ensures HasSlot(Strip(q), id) <==> exists o :: o in q && o.id == id
  {
    if q != [] {
      QueueEdits(q[1..], id, n);
      assert q == [q[0]] + q[1..];
    }
  }

  lemma {:induction false} FindQtyOf(q: seq<Resting>, o: Resting)
    requires Distinct(q) && o in q
    ensures FindQty(Strip(q), o.id) == Some(o.qty)
  {
    if q[0] != o {
      assert o in q[1..];
      assert q[0].id != o.id;
      FindQtyOf(q[1..], o);
    }
  }

  // -------------------------------------------------------------------------
  // Level edits refine the queue edits
  // -------------------------------------------------------------------------

  /** `id` stands in the level at `price` and nowhere else. */
  ghost predicate OnlyAt(lad: seq<Level>, price: Price, id: OrderId) {
    forall l :: l in lad && l.price != price ==> !HasSlot(Slots(l.price, l.orders), id)
  }

  lemma {:induction false} AbsentElsewhere(lad: seq<Level>, price: Price, id: OrderId)
    requires OnlyAt(lad, price, id) && (forall l :: l in lad ==> l.price != price)
    ensures !HasSlot(Flatten(lad), id)
  {
    if lad != [] {
      assert lad == [lad[0]] + lad[1..];
      AbsentElsewhere(lad[1..], price, id);
      FindSlotAppend(Slots(lad[0].price, lad[0].orders), Flatten(lad[1..]), id);
    }
  }

  lemma {:induction false} StoreFlattens(side: Side, lad: seq<Level>, price: Price, id: OrderId, n: Qty)
    requires Priced(side, lad) && OnlyAt(lad, price, id)
    ensures var os := OrdersAt(lad, price);
      && Flatten(Store(lad, price, Drop(os, id))) == DropSlot(Flatten(lad), id)
      && Flatten(Store(lad, price, Resize(os, id, n))) == ResizeSlot(Flatten(lad), id, n)
      && QtyIn(os, id) == FindQty(Flatten(lad), id)
  {
    if lad != [] {
      var os, head, tail := OrdersAt(lad, price), Slots(lad[0].price, lad[0].orders), Flatten(lad[1..]);
      assert lad == [lad[0]] + lad[1..];
      DropSlotAppend(head, tail, id);
      ResizeSlotAppend(head, tail, id, n);
      FindSlotAppend(head, tail, id);
      LevelEdits(price, lad[0].orders, id, n);
      if lad[0].price == price {
        AbsentElsewhere(lad[1..], price, id);
        SlotEditsAbsent(tail, id, n);
        if !HasSlot(head, id) { SlotEditsAbsent(head, id, n); }
      } else {
        SlotEditsAbsent(head, id, n);
        StoreFlattens(side, lad[1..], price, id, n);
      }
    }
  }

  lemma {:induction false} StoreShape(side: Side, lad: seq<Level>, price: Price, os: seq<LevelOrder>)
    requires Priced(side, lad) && NoneEmpty(lad)
    ensures Priced(side, Store(lad, price, os))
    ensures forall l :: l in Store(lad, price, os) ==> l == Level(price, os) || (l in lad && l.price != price)
  {
    StorePrices(lad, price, os);
    StoreLevels(side, lad, price, os);
  }

  lemma {:induction false} StoreLevels(side: Side, lad: seq<Level>, price: Price, os: seq<LevelOrder>)
    requires Priced(side, lad)
    ensures forall l :: l in Store(lad, price, os) ==> l == Level(price, os) || (l in lad && l.price != price)
  {
    if lad != [] {
      assert lad == [lad[0]] + lad[1..];
      if lad[0].price != price { StoreLevels(side, lad[1..], price, os); }
    }
  }

  lemma {:induction false} StorePrices(lad: seq<Level>, price: Price, os: seq<LevelOrder>)
    ensures |Store(lad, price, os)| == |lad|
    ensures forall i :: 0 <= i < |lad| ==> Store(lad, price, os)[i].price == lad[i].price
  {
    if lad != [] && lad[0].price != price { StorePrices(lad[1..], price, os); }
  }

  /** Removing an emptied level restores a ladder without empty levels and changes
      nothing else. */
  lemma {:induction false} PruneFlattens(side: Side, lad: seq<Level>, price: Price)
    requires Priced(side, lad) && OrdersAt(lad, price) == []
    requires forall l :: l in lad && l.price != price ==> l.orders != []
    ensures var r := RemoveLevel(lad, price);
      && Flatten(r) == Flatten(lad)
      && Priced(side, r) && NoneEmpty(r)
      && (forall l :: l in r ==> l in lad)
  {
    if lad != [] {
      assert lad == [lad[0]] + lad[1..];
      if lad[0].price == price {
        assert Flatten(lad) == Flatten(lad[1..]);
      } else {
        PruneFlattens(side, lad[1..], price);
        var tail := RemoveLevel(lad[1..], price);
        forall i | 0 <= i < |tail| ensures Better(side, lad[0].price, tail[i].price) {
          assert tail[i] in lad[1..];
        }
      }
    }
  }

  lemma {:induction false} HasSlotWitness(s: seq<Slot>, id: OrderId)
    ensures HasSlot(s, id) <==> exists x :: x in s && x.id == id
  {
    if s != [] {
      assert s == [s[0]] + s[1..];
      HasSlotWitness(s[1..], id);
    }
  }

  lemma {:induction false} LevelInFlatten(lad: seq<Level>, l: Level)
    requires l in lad
    ensures forall x :: x in Slots(l.price, l.orders) ==> x in Flatten(lad) && x.price == l.price
  {
    SlotsAt(l.price, l.orders);
    if lad[0] != l {
      assert l in lad[1..];
      LevelInFlatten(lad[1..], l);
    }
  }

  lemma {:induction false} FlattenPrices(lad: seq<Level>)
    ensures forall x :: x in Flatten(lad) ==> exists l :: l in lad && l.price == x.price
  {
    if lad != [] {
      assert lad == [lad[0]] + lad[1..];
      FlattenPrices(lad[1..]);
      SlotsAt(lad[0].price, lad[0].orders);
    }
  }

  /** A resting order stands in the level of its own price and nowhere else. */
  lemma StandsAtItsPrice(lad: seq<Level>, q: seq<Resting>, o: Resting)
    requires Flatten(lad) == Strip(q) && Distinct(q) && o in q
    ensures OnlyAt(lad, o.price, o.id)
  {
    StripAt(q);
    forall l | l in lad && HasSlot(Slots(l.price, l.orders), o.id) ensures l.price == o.price {
      HasSlotWitness(Slots(l.price, l.orders), o.id);
      LevelInFlatten(lad, l);
      var x :| x in Slots(l.price, l.orders) && x.id == o.id;
      assert x in Strip(q);
    }
  }

  /** Cancel by id in the level, then drop the level if it emptied. */
  function CancelAt(lad: seq<Level>, price: Price, id: OrderId): seq<Level> {
    var s := Store(lad, price, Drop(OrdersAt(lad, price), id));
    if OrdersAt(s, price) == [] then RemoveLevel(s, price) else s
  }

  lemma {:induction false} OrdersAtStore(lad: seq<Level>, price: Price, os: seq<LevelOrder>)
    ensures OrdersAt(Store(lad, price, os), price) == os || OrdersAt(Store(lad, price, os), price) == []
  {
    if lad != [] && lad[0].price != price { OrdersAtStore(lad[1..], price, os); }
  }

  lemma CancelRefines(side: Side, lad: seq<Level>, q: seq<Resting>, o: Resting)
    requires Represents(side, lad, q) && Distinct(q) && o in q
    ensures Represents(side, CancelAt(lad, o.price, o.id), Without(q, {o.id}))
  {
    StandsAtItsPrice(lad, q, o);
    StoreFlattens(side, lad, o.price, o.id, 1);
    var os := Drop(OrdersAt(lad, o.price), o.id);
    StoreShape(side, lad, o.price, os);
    OrdersAtStore(lad, o.price, os);
    QueueEdits(q, o.id, 1);
    var s := Store(lad, o.price, os);
    if OrdersAt(s, o.price) == [] {
      PruneFlattens(side, s, o.price);
    } else {
      assert os != [];
    }
  }

  lemma ResizeRefines(side: Side, lad: seq<Level>, q: seq<Resting>, o: Resting, n: Qty)
    requires Represents(side, lad, q) && Distinct(q) && o in q
    ensures Represents(side, Store(lad, o.price, Resize(OrdersAt(lad, o.price), o.id, n)), SetQty(q, o.id, n))
    ensures QtyIn(OrdersAt(lad, o.price), o.id) == Some(o.qty)
  {
    StandsAtItsPrice(lad, q, o);
    StoreFlattens(side, lad, o.price, o.id, n);
    FindQtyOf(q, o);
    var os := OrdersAt(lad, o.price);
    LevelEdits(o.price, os, o.id, n);
    StoreShape(side, lad, o.price, Resize(os, o.id, n));
    QueueEdits(q, o.id, n);
  }

  // -------------------------------------------------------------------------
  // Enqueue refines Insert
  // -------------------------------------------------------------------------

  predicate SlotAhead(side: Side, a: Slot, b: Slot) {
    Better(side, a.price, b.price) || (a.price == b.price && a.arrival < b.arrival)
  }

  function InsertSlot(side: Side, s: seq<Slot>, x: Slot): seq<Slot> {
    if s == [] then [x]
    else if SlotAhead(side, s[0], x) then [s[0]] + InsertSlot(side, s[1..], x)
    else [x] + s
  }

  lemma {:induction false} StripInsert(side: Side, q: seq<Resting>, o: Resting)
    ensures Strip(Insert(side, q, o)) == InsertSlot(side, Strip(q), SlotOf(o))
  {
    if q != [] && Ahead(side, q[0], o) {
      StripInsert(side, q[1..], o);
      assert Insert(side, q, o)[1..] == Insert(side, q[1..], o);
    } else {
      assert Insert(side, q, o)[1..] == q;
    }
  }

  lemma {:induction false} InsertSlotPast(side: Side, a: seq<Slot>, b: seq<Slot>, x: Slot)
    requires forall y :: y in a ==> SlotAhead(side, y, x)
    ensures InsertSlot(side, a + b, x) == a + InsertSlot(side, b, x)
  {
    if a == [] {
      assert a + b == b;
    } else {
      assert a[0] in a;
      InsertSlotPast(side, a[1..], b, x);
      assert (a + b)[1..] == a[1..] + b;
    }
  }

  lemma {:induction false} SlotsAppend(price: Price, os: seq<LevelOrder>, o: LevelOrder)
    ensures Slots(price, os + [o]) == Slots(price, os) + [Slot(o.id, price, o.qty, o.arrival)]
  {
    if os != [] {
      assert (os + [o])[1..] == os[1..] + [o];
      SlotsAppend(price, os[1..], o);
    }
  }

  /** Everything behind the best level is worse priced than it. */
  lemma FlattenBehind(side: Side, lad: seq<Level>)
    requires Priced(side, lad) && lad != []
    ensures forall x :: x in Flatten(lad[1..]) ==> Better(side, lad[0].price, x.price)
    ensures forall x :: x in Slots(lad[0].price, lad[0].orders) ==> x.price == lad[0].price
  {
    FlattenPrices(lad[1..]);
    SlotsAt(lad[0].price, lad[0].orders);
  }

  lemma InsertSlotFirst(side: Side, s: seq<Slot>, x: Slot)
    requires forall y :: y in s ==> Better(side, x.price, y.price)
    ensures InsertSlot(side, s, x) == [x] + s
  {
    if s != [] { assert s[0] in s; }
  }

  lemma FlattenCons(l: Level, lad: seq<Level>)
    ensures Flatten([l] + lad) == Slots(l.price, l.orders) + Flatten(lad)
  {
    assert ([l] + lad)[1..] == lad;
  }

  lemma {:induction false} EnqueueFlattens(side: Side, lad: seq<Level>, price: Price, o: LevelOrder)
    requires Priced(side, lad)
    requires forall x :: x in Flatten(lad) ==> x.arrival < o.arrival
    ensures Flatten(Enqueue(side, lad, price, o))
         == InsertSlot(side, Flatten(lad), Slot(o.id, price, o.qty, o.arrival))
  {
    hide Flatten, Slots;
    var x := Slot(o.id, price, o.qty, o.arrival);
    if lad == [] || Better(side, price, lad[0].price) {
      FlattenAll(side, lad, price);
      FlattenCons(Level(price, [o]), lad);
      SlotsOne(price, o);
      InsertSlotFirst(side, Flatten(lad), x);
      assert [Level(price, [o])] + [] == [Level(price, [o])];
    } else {
      var head, tail := Slots(lad[0].price, lad[0].orders), Flatten(lad[1..]);
      assert lad == [lad[0]] + lad[1..];
      FlattenCons(lad[0], lad[1..]);
      FlattenBehind(side, lad);
      InsertSlotPast(side, head, tail, x);
      if lad[0].price == price {
        SlotsAppend(price, lad[0].orders, o);
        InsertSlotFirst(side, tail, x);
        FlattenCons(Level(price, lad[0].orders + [o]), lad[1..]);
      } else {
        EnqueueFlattens(side, lad[1..], price, o);
        FlattenCons(lad[0], Enqueue(side, lad[1..], price, o));
      }
    }
  }

  lemma SlotsOne(price: Price, o: LevelOrder)
    ensures Slots(price, [o]) == [Slot(o.id, price, o.qty, o.arrival)]
  {
  }

  /** Ahead of the best level is ahead of every order. */
  lemma FlattenAll(side: Side, lad: seq<Level>, price: Price)
    requires Priced(side, lad) && (lad == [] || Better(side, price, lad[0].price))
    ensures forall y :: y in Flatten(lad) ==> Better(side, price, y.price)
    ensures lad == [] ==> Flatten(lad) == []
  {
    if lad != [] {
      FlattenBehind(side, lad);
      forall y | y in Flatten(lad) ensures Better(side, price, y.price) {
        assert y in Slots(lad[0].price, lad[0].orders) || y in Flatten(lad[1..]);
      }
    }
  }

  lemma {:induction false} EnqueueShape(side: Side, lad: seq<Level>, price: Price, o: LevelOrder)
    requires Priced(side, lad) && NoneEmpty(lad)
    ensures Priced(side, Enqueue(side, lad, price, o)) && NoneEmpty(Enqueue(side, lad, price, o))
    ensures forall l :: l in Enqueue(side, lad, price, o) ==> l.price == price || l in lad
  {
    if lad != [] {
      assert lad == [lad[0]] + lad[1..];
      if Better(side, lad[0].price, price) {
        EnqueueShape(side, lad[1..], price, o);
        var tail := Enqueue(side, lad[1..], price, o);
        forall i | 0 <= i < |tail| ensures Better(side, lad[0].price, tail[i].price) {
          assert tail[i] in tail;
        }
      }
    }
  }

  lemma EnqueueRefines(side: Side, lad: seq<Level>, q: seq<Resting>, o: Resting)
    requires Represents(side, lad, q)
    requires forall x :: x in q ==> x.arrival < o.arrival
    ensures Represents(side, Enqueue(side, lad, o.price, LevelOrder(o.id, o.qty, o.arrival)), Insert(side, q, o))
  {
    var lo := LevelOrder(o.id, o.qty, o.arrival);
    StripAt(q);
    forall x | x in Flatten(lad) ensures x.arrival < o.arrival {
      var i :| 0 <= i < |q| && Strip(q)[i] == x;
      assert q[i] in q;
    }
    EnqueueFlattens(side, lad, o.price, lo);
    EnqueueShape(side, lad, o.price, lo);
    StripInsert(side, q, o);
  }
}
