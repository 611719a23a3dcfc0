/** Laws of the queue edits: what `Insert`, `Without` and `SetQty` do to order,
    to membership, to the by-id view and to every weighted total. */
module QueueLaws {
  import opened Domain
  import opened PriceTime

  // -------------------------------------------------------------------------
  // The by-id view
  // -------------------------------------------------------------------------

  lemma {:induction false} MapOfFacts(q: seq<Resting>)
    requires Distinct(q)
    ensures forall o :: o in q ==> o.id in MapOf(q) && MapOf(q)[o.id] == o
    ensures forall id :: id in MapOf(q) ==> MapOf(q)[id] in q && MapOf(q)[id].id == id
  {
    if q != [] {
      MapOfFacts(q[1..]);
      forall o | o in q ensures o.id in MapOf(q) && MapOf(q)[o.id] == o {
        if o != q[0] { assert o in q[1..]; }
      }
    }
  }

  lemma MapsDisjoint(q: seq<Resting>, r: seq<Resting>)
    requires Distinct(q) && Distinct(r) && Disjoint(q, r)
    ensures MapOf(q).Keys !! MapOf(r).Keys
    ensures MapOf(q) + MapOf(r) == MapOf(r) + MapOf(q)
  {
    MapOfFacts(q);
    MapOfFacts(r);
  }

  /** The by-id view holds exactly the resting orders. */
  lemma LookupFacts(b: FlatBook)
    requires Valid(b)
    ensures forall o :: o in b.bids || o in b.asks ==> o.id in Lookup(b) && Lookup(b)[o.id] == o
    ensures forall id :: id in Lookup(b) ==>
      && Lookup(b)[id].id == id
      && Lookup(b)[id] in b.Of(Lookup(b)[id].side)
    ensures forall side: Side :: Lookup(b) == MapOf(b.Of(side)) + MapOf(b.Of(side.Opposite()))
  {
    MapOfFacts(b.bids);
    MapOfFacts(b.asks);
    MapsDisjoint(b.bids, b.asks);
  }

  // -------------------------------------------------------------------------
  // Insert
  // -------------------------------------------------------------------------

  lemma {:induction false} InsertMembers(side: Side, q: seq<Resting>, o: Resting)
    ensures forall x :: x in Insert(side, q, o) <==> x in q || x == o
    ensures |Insert(side, q, o)| == |q| + 1
  {
    if q != [] {
      assert q == [q[0]] + q[1..];
      InsertMembers(side, q[1..], o);
    }
  }

  lemma {:induction false} InsertTotal(side: Side, q: seq<Resting>, o: Resting, w: Resting -> nat)
    ensures Total(Insert(side, q, o), w) == Total(q, w) + w(o)
  {
    if q != [] && Ahead(side, q[0], o) {
      InsertTotal(side, q[1..], o, w);
      assert Insert(side, q, o)[1..] == Insert(side, q[1..], o);
    } else {
      assert Insert(side, q, o)[1..] == q;
    }
  }

  /** Removing the newcomer restores the queue. */
  lemma {:induction false} InsertWithout(side: Side, q: seq<Resting>, o: Resting)
    requires forall x :: x in q ==> x.id != o.id
    ensures Without(Insert(side, q, o), {o.id}) == q
  {
    WithoutNone(q, {o.id});
    if q != [] && Ahead(side, q[0], o) {
      InsertWithout(side, q[1..], o);
      assert Insert(side, q, o)[1..] == Insert(side, q[1..], o);
    } else {
      assert Insert(side, q, o)[1..] == q;
    }
  }

  lemma {:induction false} InsertMap(side: Side, q: seq<Resting>, o: Resting)
    requires forall x :: x in q ==> x.id != o.id
    ensures MapOf(Insert(side, q, o)) == MapOf(q)[o.id := o]
  {
    if q != [] && Ahead(side, q[0], o) {
      InsertMap(side, q[1..], o);
      assert Insert(side, q, o)[1..] == Insert(side, q[1..], o);
    } else {
      assert Insert(side, q, o)[1..] == q;
    }
  }

  lemma {:induction false} InsertValid(side: Side, q: seq<Resting>, o: Resting, arrivals: nat)
    requires ValidSide(side, q, arrivals)
    requires o.side == side && arrivals < o.arrival && !o.tif.Ioc?
    requires forall x :: x in q ==> x.id != o.id
    ensures ValidSide(side, Insert(side, q, o), o.arrival)
  {
    var r := Insert(side, q, o);
    if q != [] && Ahead(side, q[0], o) {
      InsertValid(side, q[1..], o, arrivals);
      InsertMembers(side, q[1..], o);
      var tail := Insert(side, q[1..], o);
      assert r == [q[0]] + tail;
      forall j | 0 <= j < |tail| ensures Ahead(side, q[0], tail[j]) && q[0].id != tail[j].id {
        assert tail[j] in q[1..] || tail[j] == o;
      }
    } else {
      assert r == [o] + q;
      forall j | 0 <= j < |q| ensures Ahead(side, o, q[j]) {
        assert j == 0 || Ahead(side, q[0], q[j]);
      }
    }
  }

  // -------------------------------------------------------------------------
  // Without
  // -------------------------------------------------------------------------

  lemma {:induction false} WithoutNone(q: seq<Resting>, ids: set<OrderId>)
    requires forall x :: x in q ==> x.id !in ids
    ensures Without(q, ids) == q
  {
    if q != [] { WithoutNone(q[1..], ids); }
  }

  lemma WithoutHead(q: seq<Resting>)
    requires q != [] && Distinct(q)
    ensures Without(q, {q[0].id}) == q[1..]
  {
    WithoutNone(q[1..], {q[0].id});
  }

  lemma {:induction false} WithoutMembers(q: seq<Resting>, ids: set<OrderId>)
    ensures forall x :: x in Without(q, ids) <==> x in q && x.id !in ids
  {
    if q != [] {
      assert q == [q[0]] + q[1..];
      WithoutMembers(q[1..], ids);
    }
  }

  lemma {:induction false} WithoutValid(side: Side, q: seq<Resting>, ids: set<OrderId>, arrivals: nat)
    requires ValidSide(side, q, arrivals)
    ensures ValidSide(side, Without(q, ids), arrivals)
  {
    if q != [] {
      WithoutValid(side, q[1..], ids, arrivals);
      WithoutMembers(q[1..], ids);
      var tail := Without(q[1..], ids);
      forall j | 0 <= j < |tail| ensures Ahead(side, q[0], tail[j]) && q[0].id != tail[j].id {
        assert tail[j] in q[1..];
      }
    }
  }

  lemma {:induction false} WithoutMap(q: seq<Resting>, ids: set<OrderId>)
    requires Distinct(q)
    ensures MapOf(Without(q, ids)) == MapOf(q) - ids
  {
    if q != [] {
      WithoutMap(q[1..], ids);
      UpdateMinus(MapOf(q[1..]), q[0].id, q[0], ids);
      assert q[0].id !in ids ==> Without(q, ids)[1..] == Without(q[1..], ids);
    }
  }

  lemma UpdateMinus<K, V>(m: map<K, V>, k: K, v: V, ks: set<K>)
    ensures k in ks ==> m[k := v] - ks == m - ks
    ensures k !in ks ==> m[k := v] - ks == (m - ks)[k := v]
  {
  }

  lemma {:induction false} WithoutTwice(q: seq<Resting>, ids: set<OrderId>, more: set<OrderId>)
    ensures Without(Without(q, ids), more) == Without(q, ids + more)
  {
    if q != [] { WithoutTwice(q[1..], ids, more); }
  }

  /** Dropping one order takes exactly its weight off every total. */
  lemma {:induction false} WithoutTotal(q: seq<Resting>, o: Resting, w: Resting -> nat)
    requires Distinct(q) && o in q
    ensures Total(q, w) == Total(Without(q, {o.id}), w) + w(o)
  {
    if q[0] == o {
      WithoutHead(q);
    } else {
      assert o in q[1..];
      WithoutTotal(q[1..], o, w);
      assert q[0].id != o.id;
      assert Without(q, {o.id})[1..] == Without(q[1..], {o.id});
    }
  }

  // -------------------------------------------------------------------------
  // SetQty
  // -------------------------------------------------------------------------

  /** Every order keeps its place; only the quantity of `id` changes. */
  lemma {:induction false} SetQtyAt(q: seq<Resting>, id: OrderId, n: Qty)
    ensures |SetQty(q, id, n)| == |q|
    ensures forall i :: 0 <= i < |q| ==>
      SetQty(q, id, n)[i] == if q[i].id == id then q[i].(qty := n) else q[i]
  {
    if q != [] { SetQtyAt(q[1..], id, n); }
  }

  lemma {:induction false} SetQtyMap(q: seq<Resting>, o: Resting, n: Qty)
    requires Distinct(q) && o in q
    ensures MapOf(SetQty(q, o.id, n)) == MapOf(q)[o.id := o.(qty := n)]
  {
    if q[0] == o {
      SetQtyNone(q[1..], o.id, n);
    } else {
      assert o in q[1..];
      assert q[0].id != o.id;
      SetQtyMap(q[1..], o, n);
    }
  }

  lemma {:induction false} SetQtyNone(q: seq<Resting>, id: OrderId, n: Qty)
    requires forall x :: x in q ==> x.id != id
    ensures SetQty(q, id, n) == q
  {
    if q != [] { SetQtyNone(q[1..], id, n); }
  }

  lemma SetQtyHead(q: seq<Resting>, n: Qty)
    requires Distinct(q) && q != []
    ensures SetQty(q, q[0].id, n) == [q[0].(qty := n)] + q[1..]
  {
    SetQtyNone(q[1..], q[0].id, n);
  }

  lemma {:induction false} SetQtyTotal(q: seq<Resting>, o: Resting, n: Qty, w: Resting -> nat)
    requires Distinct(q) && o in q
    ensures Total(SetQty(q, o.id, n), w) + w(o) == Total(q, w) + w(o.(qty := n))
  {
    if q[0] == o {
      SetQtyNone(q[1..], o.id, n);
    } else {
      assert o in q[1..];
      assert q[0].id != o.id;
      SetQtyTotal(q[1..], o, n, w);
    }
  }

  lemma SetQtyValid(side: Side, q: seq<Resting>, id: OrderId, n: Qty, arrivals: nat)
    requires ValidSide(side, q, arrivals)
    ensures ValidSide(side, SetQty(q, id, n), arrivals)
  {
    SetQtyAt(q, id, n);
    var r := SetQty(q, id, n);
    forall i, j | 0 <= i < j < |r| ensures Ahead(side, r[i], r[j]) && r[i].id != r[j].id {
      assert Ahead(side, q[i], q[j]);
    }
  }

  // -------------------------------------------------------------------------
  // Totals
  // -------------------------------------------------------------------------

  lemma {:induction false} TotalMember(q: seq<Resting>, o: Resting, w: Resting -> nat)
    requires o in q
    ensures w(o) <= Total(q, w)
  {
    if q[0] != o {
      assert o in q[1..];
      TotalMember(q[1..], o, w);
    }
  }
}
