/** Laws of the matching walk: it is the greedy allocation in price-time order,
    it conserves lots, and it leaves nothing behind that still crosses. */
module WalkLaws {
  import opened Domain
  import opened PriceTime
  import opened QueueLaws

  // -------------------------------------------------------------------------
  // The greedy reference
  // -------------------------------------------------------------------------

  predicate Tradable(t: Taker, o: Resting) {
    Crosses(t.side, t.price, o.price) && o.account != t.account
  }

  /** Length of the longest prefix of makers the taker may trade with. */
  function Reach(q: seq<Resting>, t: Taker): (n: nat)
    ensures n <= |q|
    ensures forall i :: 0 <= i < n ==> Tradable(t, q[i])
    ensures n < |q| ==> !Tradable(t, q[n])
  {
    if q != [] && Tradable(t, q[0]) then 1 + Reach(q[1..], t) else 0
  }

  function Min(a: nat, b: nat): nat { if a <= b then a else b }

  /** A maker is in reach exactly when the taker has no limit or the maker's price is at
      least as good as it, and no order of the taker's own account stands at or ahead of
      the maker: the orders within the limit are a prefix of the queue. */
  lemma ReachIsPriority(q: seq<Resting>, t: Taker, i: nat)
    requires Sorted(t.side.Opposite(), q) && i < |q|
    ensures i < Reach(q, t) <==>
      && (t.price.None? || if t.side.Bid? then q[i].price <= t.price.value else q[i].price >= t.price.value)
      && forall j :: 0 <= j <= i ==> q[j].account != t.account
  {
    var n := Reach(q, t);
    if n < i { assert Ahead(t.side.Opposite(), q[n], q[i]); }
  }

  /** A market order reaches everything ahead of its own account's first order, so it
      trades with the head of the queue unless that order is its own. */
  lemma MarketReach(q: seq<Resting>, t: Taker, i: nat, trade: nat)
    requires t.price.None?
    ensures i < |q| ==> (i < Reach(q, t) <==> forall j :: 0 <= j <= i ==> q[j].account != t.account)
    ensures Walk(q, t, t.qty, trade).fills != [] <==> q != [] && q[0].account != t.account
  {
    var n := Reach(q, t);
    if n < |q| { assert q[n].account == t.account; }
  }

  lemma LotsCons(q: seq<Resting>, n: nat)
    requires 0 < n <= |q|
    ensures Lots(q[..n]) == q[0].qty + Lots(q[1..][..n - 1])
  {
    assert q[..n][1..] == q[1..][..n - 1];
  }

  lemma {:induction false} LotsMonotone(q: seq<Resting>, m: nat, n: nat)
    requires m <= n <= |q|
    ensures Lots(q[..m]) <= Lots(q[..n])
  {
    if m > 0 {
      LotsCons(q, m);
      LotsCons(q, n);
      LotsMonotone(q[1..], m - 1, n - 1);
    }
  }

  /** The walk allocates greedily: fill `i` takes what the makers ahead of it left,
      up to its own quantity, and makers are filled while anything is left. */
  lemma {:induction false} WalkFillsGreedily(q: seq<Resting>, t: Taker, left: nat, trade: nat)
    ensures var w, n := Walk(q, t, left, trade), Reach(q, t);
      && |w.fills| <= n
      && (forall i :: 0 <= i < n ==> (i < |w.fills| <==> Lots(q[..i]) < left))
      && (forall i :: 0 <= i < |w.fills| ==>
            var x := Min(q[i].qty, left - Lots(q[..i]));
            w.fills[i] == Fill(trade + i, q[i].id, t.id, t.side.Opposite(), q[i].price, x, x == q[i].qty))
  {
    hide Lots, Walk, Crosses;
    var w, n := Walk(q, t, left, trade), Reach(q, t);
    WalkUnrolls(q, t, left, trade);
    NoLots(q);
    if left == 0 || q == [] || !Tradable(t, q[0]) {
    } else if left < q[0].qty {
      NoLots(q[1..]);
      LotsCons(q, 1);
      forall i | 0 < i <= n ensures Lots(q[..i]) >= left { LotsMonotone(q, 1, i); }
    } else {
      WalkFillsGreedily(q[1..], t, left - q[0].qty, trade + 1);
      var v := Walk(q[1..], t, left - q[0].qty, trade + 1);
      forall i | 0 < i <= n ensures Lots(q[..i]) == q[0].qty + Lots(q[1..][..i - 1]) { LotsCons(q, i); }
      forall i | 0 <= i < |w.fills|
        ensures var x := Min(q[i].qty, left - Lots(q[..i]));
          w.fills[i] == Fill(trade + i, q[i].id, t.id, t.side.Opposite(), q[i].price, x, x == q[i].qty)
      {
        if i > 0 { assert w.fills[i] == v.fills[i - 1]; }
      }
    }
  }

  predicate OneOf(who: Option<AccountId>, a: AccountId) { who.Some? ==> who.value == a }

  /** A quantity runs out inside some maker in reach, of account `who` if one is named:
      the ones ahead do not cover it, and with that maker they more than cover it. */
  ghost predicate EndsInside(q: seq<Resting>, t: Taker, left: nat, who: Option<AccountId> := None) {
    exists i :: 0 <= i < Reach(q, t) && Lots(q[..i]) < left < Lots(q[..i + 1]) && OneOf(who, q[i].account)
  }

  /** A quantity outlasts the makers in reach, and no crossing order of the taker's own
      account stops it. */
  predicate Outlasts(q: seq<Resting>, t: Taker, left: nat) {
    var n := Reach(q, t);
    Lots(q[..n]) < left && !(n < |q| && Crosses(t.side, t.price, q[n].price))
  }

  lemma EndsInsideUnrolls(q: seq<Resting>, t: Taker, left: nat, who: Option<AccountId> := None)
    ensures EndsInside(q, t, left, who) ==
      if left == 0 || q == [] || !Tradable(t, q[0]) then false
      else if left < q[0].qty then OneOf(who, q[0].account)
      else EndsInside(q[1..], t, left - q[0].qty, who)
  {
    hide Lots, OneOf;
    var n := Reach(q, t);
    if q != [] && Tradable(t, q[0]) {
      NoLots(q);
      NoLots(q[1..]);
      LotsCons(q, 1);
      if left < q[0].qty {
        forall i | 0 < i <= n ensures Lots(q[..i]) >= q[0].qty { LotsMonotone(q, 1, i); }
        assert 0 < left && OneOf(who, q[0].account) ==>
          Lots(q[..0]) < left < Lots(q[..0 + 1]) && OneOf(who, q[0].account);
      } else {
        forall i | 0 < i <= n ensures Lots(q[..i]) == q[0].qty + Lots(q[1..][..i - 1]) { LotsCons(q, i); }
        if EndsInside(q, t, left, who) {
          var i :| 0 <= i < n && Lots(q[..i]) < left < Lots(q[..i + 1]) && OneOf(who, q[i].account);
          assert i > 0 && Lots(q[1..][..i - 1]) < left - q[0].qty < Lots(q[1..][..i - 1 + 1]);
        }
        if EndsInside(q[1..], t, left - q[0].qty, who) {
          var i :| 0 <= i < n - 1 && Lots(q[1..][..i]) < left - q[0].qty < Lots(q[1..][..i + 1])
            && OneOf(who, q[1..][i].account);
          assert Lots(q[..i + 1]) < left < Lots(q[..i + 1 + 1]) && OneOf(who, q[i + 1].account);
        }
      }
    }
  }

  /** The walk takes maker `i` off the queue: a maker in reach that the quantity covers
      with the ones ahead, or the own order that stops a leftover. */
  predicate Takes(q: seq<Resting>, t: Taker, left: nat, i: nat)
    requires i < |q|
  {
    var n := Reach(q, t);
    if i < n then Lots(q[..i + 1]) <= left
    else i == n && Lots(q[..n]) < left && Crosses(t.side, t.price, q[n].price)
  }

  ghost predicate TakesOff(q: seq<Resting>, t: Taker, left: nat, id: OrderId) {
    exists i :: 0 <= i < |q| && q[i].id == id && Takes(q, t, left, i)
  }

  lemma TakesUnrolls(q: seq<Resting>, t: Taker, left: nat, i: nat)
    requires i < |q|
    ensures Takes(q, t, left, i) ==
      if left == 0 || !Crosses(t.side, t.price, q[0].price) then false
      else if q[0].account == t.account then i == 0
      else if left < q[0].qty then false
      else i == 0 || Takes(q[1..], t, left - q[0].qty, i - 1)
  {
    hide Lots;
    var n := Reach(q, t);
    NoLots(q);
    if Tradable(t, q[0]) {
      NoLots(q[1..]);
      LotsCons(q, n);
      LotsCons(q, 1);
      if i < n {
        LotsCons(q, i + 1);
        LotsMonotone(q, 1, i + 1);
      }
      LotsMonotone(q, 1, n);
    }
  }

  lemma TakesOffUnrolls(q: seq<Resting>, t: Taker, left: nat, id: OrderId)
    ensures TakesOff(q, t, left, id) ==
      if left == 0 || q == [] || !Crosses(t.side, t.price, q[0].price) then false
      else if q[0].account == t.account then q[0].id == id
      else if left < q[0].qty then false
      else q[0].id == id || TakesOff(q[1..], t, left - q[0].qty, id)
  {
    hide Takes;
    forall i | 0 <= i < |q| { TakesUnrolls(q, t, left, i); }
    if q != [] && left >= q[0].qty {
      var v, r := q[1..], left - q[0].qty;
      if TakesOff(v, t, r, id) {
        var i :| 0 <= i < |v| && v[i].id == id && Takes(v, t, r, i);
        assert q[i + 1].id == id && (Takes(q, t, left, i + 1) || !Tradable(t, q[0]));
      }
      if TakesOff(q, t, left, id) {
        var i :| 0 <= i < |q| && q[i].id == id && Takes(q, t, left, i);
        if i > 0 { assert v[i - 1] == q[i]; }
      }
    }
    if q != [] { assert Takes(q, t, left, 0) && q[0].id == id ==> TakesOff(q, t, left, id); }
  }

  lemma NoLots(q: seq<Resting>)
    ensures Lots(q[..0]) == 0
  {
    assert q[..0] == [];
  }

  function Resized(o: Resting, n: nat): Resting {
    if QtyOf(n).Some? then o.(qty := n) else o
  }

  /** The leftover is what the makers in reach could not absorb, and self-trade
      prevention fires exactly when a leftover meets a crossing order it may not trade with. */
  lemma {:induction false} WalkLeftover(q: seq<Resting>, t: Taker, left: nat, trade: nat)
    ensures var w, n := Walk(q, t, left, trade), Reach(q, t);
      && w.left == SatSub(left, Lots(q[..n]))
      && w.stp == (if w.left > 0 && n < |q| && Crosses(t.side, t.price, q[n].price)
                   then [Cancellation(q[n].id, q[n].account, q[n].side, q[n].price, q[n].qty)] else [])
  {
    var w, n := Walk(q, t, left, trade), Reach(q, t);
    assert q[..0] == [];
    if left == 0 || q == [] || !Tradable(t, q[0]) {
    } else if left < q[0].qty {
      LotsCons(q, n);
    } else {
      WalkLeftover(q[1..], t, left - q[0].qty, trade + 1);
      LotsCons(q, n);
    }
  }

  /** The survivors: the last maker filled, resized if it was only partly filled, and
      everything behind the makers filled or dropped. */
  lemma {:induction false} WalkSurvivors(q: seq<Resting>, t: Taker, left: nat, trade: nat)
    ensures var w := Walk(q, t, left, trade);
      var k := |w.fills|;
      && k + |w.stp| <= |q|
      && (Lots(q[..k]) > left ==> k > 0)
      && w.queue == (if Lots(q[..k]) > left then [Resized(q[k - 1], Lots(q[..k]) - left)] else [])
                    + q[k + |w.stp|..]
  {
    hide Walk;
    var w := Walk(q, t, left, trade);
    WalkUnrolls(q, t, left, trade);
    assert q[..0] == [];
    if left == 0 || q == [] || !Tradable(t, q[0]) {
      assert Lots(q[..0]) == 0;
    } else if left < q[0].qty {
      LotsCons(q, 1);
      assert q[1..][..0] == [];
      assert Lots(q[..1]) == q[0].qty;
    } else {
      var k := |w.fills|;
      WalkSurvivors(q[1..], t, left - q[0].qty, trade + 1);
      LotsCons(q, k);
      assert q[1..][k - 1 + |w.stp|..] == q[k + |w.stp|..];
    }
  }

  // -------------------------------------------------------------------------
  // Shape, conservation, stopping
  // -------------------------------------------------------------------------

  /** What survives is a suffix of the queue, its head at most reduced in size. */
  ghost predicate SuffixOf(r: seq<Resting>, q: seq<Resting>) {
    && |r| <= |q|
    && (forall i :: 0 < i < |r| ==> r[i] == q[|q| - |r| + i])
    && (r != [] ==> r[0].qty <= q[|q| - |r|].qty && r[0] == q[|q| - |r|].(qty := r[0].qty))
  }

  lemma {:induction false} WalkShape(q: seq<Resting>, t: Taker, left: nat, trade: nat)
    ensures SuffixOf(Walk(q, t, left, trade).queue, q)
  {
    hide SuffixOf;
    SuffixHeads(q, left);
    if !(left == 0 || q == [] || !Tradable(t, q[0]) || left < q[0].qty) {
      WalkShape(q[1..], t, left - q[0].qty, trade + 1);
      SuffixCons(Walk(q, t, left, trade).queue, q);
    }
  }

  lemma SuffixHeads(q: seq<Resting>, taken: nat)
    ensures SuffixOf(q, q)
    ensures q != [] ==> SuffixOf(q[1..], q)
    ensures q != [] && taken < q[0].qty ==> SuffixOf([q[0].(qty := q[0].qty - taken)] + q[1..], q)
  {
  }

  lemma SuffixCons(r: seq<Resting>, q: seq<Resting>)
    requires q != [] && SuffixOf(r, q[1..])
    ensures SuffixOf(r, q)
  {
  }

  /** The walk, unrolled once. */
  lemma {:induction false} WalkUnrolls(q: seq<Resting>, t: Taker, left: nat, trade: nat)
    ensures var w := Walk(q, t, left, trade);
      if left == 0 || q == [] || !Crosses(t.side, t.price, q[0].price) then
        w == WalkResult([], [], left, q)
      else if q[0].account == t.account then
        w == WalkResult([], [CancellationOf(q[0])], left, q[1..])
      else if left < q[0].qty then
        w == WalkResult([FillOf(q[0], t, left, trade)], [], 0, [q[0].(qty := q[0].qty - left)] + q[1..])
      else
        var v := Walk(q[1..], t, left - q[0].qty, trade + 1);
        w == v.(fills := [FillOf(q[0], t, q[0].qty, trade)] + v.fills) && w.fills[1..] == v.fills
  {
  }

  lemma SuffixValid(side: Side, r: seq<Resting>, q: seq<Resting>, arrivals: nat)
    requires SuffixOf(r, q) && ValidSide(side, q, arrivals)
    ensures ValidSide(side, r, arrivals)
  {
    var d := |q| - |r|;
    forall i, j | 0 <= i < j < |r| ensures Ahead(side, r[i], r[j]) && r[i].id != r[j].id {
      assert Ahead(side, q[d + i], q[d + j]);
    }
  }

  lemma SuffixMembers(r: seq<Resting>, q: seq<Resting>)
    requires SuffixOf(r, q)
    ensures forall o :: o in r ==> exists x :: x in q && x.id == o.id && x.price == o.price
  {
    forall i | 0 <= i < |r| ensures exists x :: x in q && x.id == r[i].id && x.price == r[i].price {
      var x := q[|q| - |r| + i];
      assert x in q && x.id == r[i].id && x.price == r[i].price;
    }
  }

  function FillLots(fs: seq<Fill>): nat {
    if fs == [] then 0 else fs[0].qty + FillLots(fs[1..])
  }

  function DroppedLots(cs: seq<Cancellation>): nat {
    if cs == [] then 0 else cs[0].qty + DroppedLots(cs[1..])
  }

  /** Lots are conserved: the taker's quantity is its fills plus the leftover, and
      the opposite side shrinks by exactly the fills plus the self-trade drop.  At most
      one maker is dropped, and then some of the taker is left over. */
  lemma {:induction false} WalkConserves(q: seq<Resting>, t: Taker, left: nat, trade: nat)
    ensures var w := Walk(q, t, left, trade);
      && FillLots(w.fills) + w.left == left
      && Lots(w.queue) + FillLots(w.fills) + DroppedLots(w.stp) == Lots(q)
      && |w.stp| <= 1
      && (w.stp != [] ==> w.left > 0)
  {
    if !(left == 0 || q == [] || !Tradable(t, q[0]) || left < q[0].qty) {
      WalkConserves(q[1..], t, left - q[0].qty, trade + 1);
    }
  }

  /** A leftover that self-trade prevention did not drop crosses nothing that remains. */
  lemma {:induction false} WalkExhausts(q: seq<Resting>, t: Taker, left: nat, trade: nat)
    requires Sorted(t.side.Opposite(), q)
    ensures var w := Walk(q, t, left, trade);
      w.stp == [] && w.left > 0 ==>
        forall o :: o in w.queue ==> !Crosses(t.side, t.price, o.price)
  {
    if left == 0 || q == [] || !Crosses(t.side, t.price, q[0].price) {
      if left > 0 { NoCrossBehindHead(q, t.side, t.price); }
    } else if q[0].account != t.account && left >= q[0].qty {
      WalkExhausts(q[1..], t, left - q[0].qty, trade + 1);
    }
  }

  /** A walk whose first maker does not cross changes nothing. */
  lemma WalkIdle(q: seq<Resting>, t: Taker, left: nat, trade: nat)
    requires q == [] || !Crosses(t.side, t.price, q[0].price)
    ensures Walk(q, t, left, trade) == WalkResult([], [], left, q)
  {
  }

  // -------------------------------------------------------------------------
  // Book operations keep the book valid and uncrossed
  // -------------------------------------------------------------------------

  lemma CancelValid(b: FlatBook, ids: set<OrderId>)
    requires Valid(b)
    ensures Valid(Cancel(b, ids))
    ensures Uncrossed(b) ==> Uncrossed(Cancel(b, ids))
  {
    WithoutValid(Bid, b.bids, ids, b.arrivals);
    WithoutValid(Ask, b.asks, ids, b.arrivals);
    WithoutMembers(b.bids, ids);
    WithoutMembers(b.asks, ids);
  }

  lemma CancelLookup(b: FlatBook, ids: set<OrderId>)
    requires Valid(b)
    ensures Lookup(Cancel(b, ids)) == Lookup(b) - ids
  {
    WithoutMap(b.bids, ids);
    WithoutMap(b.asks, ids);
  }

  lemma FreshOnBothSides(b: FlatBook, id: OrderId)
    requires Valid(b) && id !in Lookup(b)
    ensures forall side: Side, o :: o in b.Of(side) ==> o.id != id
  {
    LookupFacts(b);
  }

  lemma RestValid(b: FlatBook, o: RestingOrder)
    requires Valid(b) && !o.tif.Ioc?
    requires RestError(b, o.id) == None
    ensures Valid(Rest(b, o))
    ensures Uncrossed(b) && !WouldCross(b, o.side, Some(o.price)) ==> Uncrossed(Rest(b, o))
  {
    var x := Arrive(o, b.arrivals + 1);
    FreshOnBothSides(b, o.id);
    InsertValid(o.side, b.Of(o.side), x, b.arrivals);
    InsertMembers(o.side, b.Of(o.side), x);
    if !WouldCross(b, o.side, Some(o.price)) {
      NoCrossBehindHead(b.Of(o.side.Opposite()), o.side, Some(o.price));
    }
  }

  lemma RestLookup(b: FlatBook, o: RestingOrder)
    requires Valid(b) && RestError(b, o.id) == None
    ensures Lookup(Rest(b, o)) == Lookup(b)[o.id := Arrive(o, b.arrivals + 1)]
  {
    FreshOnBothSides(b, o.id);
    var x := Arrive(o, b.arrivals + 1);
    InsertMap(o.side, b.Of(o.side), x);
    SumUpdate(MapOf(b.bids), MapOf(b.asks), o.id, x);
  }

  lemma SumUpdate<K, V>(m: map<K, V>, n: map<K, V>, k: K, v: V)
    ensures k !in n ==> m[k := v] + n == (m + n)[k := v]
    ensures m + n[k := v] == (m + n)[k := v]
  {
  }

  /** If the best order does not cross, none does. */
  lemma NoCrossBehindHead(q: seq<Resting>, taker: Side, limit: Option<Price>)
    requires Sorted(taker.Opposite(), q)
    requires q == [] || !Crosses(taker, limit, q[0].price)
    ensures forall o :: o in q ==> !Crosses(taker, limit, o.price)
  {
    forall i | 0 < i < |q| ensures !Crosses(taker, limit, q[i].price) {
      assert Ahead(taker.Opposite(), q[0], q[i]);
    }
  }

  lemma MatchValid(b: FlatBook, t: Taker, trade: nat)
    requires Valid(b)
    ensures Valid(Match(b, t, trade).book)
    ensures Uncrossed(b) ==> Uncrossed(Match(b, t, trade).book)
  {
    var m := Match(b, t, trade);
    if !m.postOnlyRejected {
      var side := t.side.Opposite();
      WalkShape(b.Of(side), t, t.qty, trade);
      SuffixValid(side, m.book.Of(side), b.Of(side), b.arrivals);
      SuffixMembers(m.book.Of(side), b.Of(side));
    }
  }

  /** The walk leaves the taker's own side alone, and a leftover that is free to rest
      would no longer cross. */
  lemma MatchResidual(b: FlatBook, t: Taker, trade: nat)
    requires Valid(b)
    ensures var m := Match(b, t, trade);
      && m.book.arrivals == b.arrivals
      && m.book.Of(t.side) == b.Of(t.side)
      && m.left <= t.qty
      && |m.stp| <= 1
      && (!m.postOnlyRejected && m.stp == [] && m.left > 0 ==> !WouldCross(m.book, t.side, t.price))
  {
    var q := b.Of(t.side.Opposite());
    WalkExhausts(q, t, t.qty, trade);
    WalkConserves(q, t, t.qty, trade);
  }

  /** A post-only taker is a no-op: refused when it would cross, idle otherwise. */
  lemma PostOnlyNeverTakes(b: FlatBook, t: Taker, trade: nat)
    requires t.tif.PostOnly?
    ensures var m := Match(b, t, trade);
      m.book == b && m.fills == [] && m.stp == [] && m.left == t.qty
  {
    if !WouldCross(b, t.side, t.price) {
      WalkIdle(b.Of(t.side.Opposite()), t, t.qty, trade);
    }
  }
}
