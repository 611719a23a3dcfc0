/** Depth mirroring: a consumer that folds the emitted level changes, from the empty
    book or from any snapshot, holds the book's exact level map after every step. */
module MarketData {
  import opened Domain
  import opened PriceTime
  import opened QueueLaws
  import opened Messages
  import opened Risk
  import opened EngineSpec
  import opened EngineInvariants
  import opened EngineSafety

  type LevelKey = (Side, Price)

  function LevelQty(b: FlatBook, k: LevelKey): nat { Total(b.Of(k.0), AtPrice(k.1)) }

  function LevelKeys(b: FlatBook): set<LevelKey> {
    (set o | o in b.bids :: (Bid, o.price)) + (set o | o in b.asks :: (Ask, o.price))
  }

  /** The level map of the book: every price with resting orders, with their total. */
  function L2(b: FlatBook): map<LevelKey, nat> {
    map k: LevelKey | k in LevelKeys(b) :: LevelQty(b, k)
  }

  /** A depth consumer: replace on snapshot, set or remove on delta. */
  function Consume(m: map<LevelKey, nat>, e: Body): map<LevelKey, nat> {
    match e
    case Delta(side, price, newQty) =>
      if newQty == 0 then m - {(side, price)} else m[(side, price) := newQty]
    case Snapshot(_, bids, asks) => RowMap(RowsOf(Bid, bids) + RowsOf(Ask, asks))
    case _ => m
  }

  function ConsumeAll(m: map<LevelKey, nat>, ev: seq<Body>): map<LevelKey, nat>
    decreases ev
  {
    if ev == [] then m else ConsumeAll(Consume(m, ev[0]), ev[1..])
  }

  function KeyOf(r: Row): LevelKey { (r.side, r.price) }

  function RowMap(rows: seq<Row>): map<LevelKey, nat> {
    if rows == [] then map[] else RowMap(rows[1..])[KeyOf(rows[0]) := rows[0].qty]
  }

  function RowQty(rows: seq<Row>, k: LevelKey): nat {
    if rows == [] then 0 else if KeyOf(rows[0]) == k then rows[0].qty else RowQty(rows[1..], k)
  }

  function At(m: map<LevelKey, nat>, k: LevelKey): nat { if k in m then m[k] else 0 }

  ghost predicate Positive(m: map<LevelKey, nat>) { forall k :: k in m ==> m[k] > 0 }

  ghost predicate Ascends(rows: seq<Row>) {
    forall i, j :: 0 <= i < j < |rows| ==> RowBefore(rows[i], rows[j])
  }

  ghost predicate NoneZero(rows: seq<Row>) { forall r :: r in rows ==> r.qty > 0 }

  // -------------------------------------------------------------------------
  // Depth is the level map, grouped
  // -------------------------------------------------------------------------

  ghost predicate Laddered(side: Side, ds: seq<Rung>) {
    forall i, j :: 0 <= i < j < |ds| ==> Better(side, ds[i].price, ds[j].price)
  }

  lemma {:induction false} DepthLaddered(side: Side, q: seq<Resting>)
    requires Sorted(side, q)
    ensures Laddered(side, Depth(q))
    ensures forall d :: d in Depth(q) ==> d.qty > 0
    ensures q != [] ==> Depth(q) != [] && Depth(q)[0].price == q[0].price
  {
    if |q| > 1 {
      DepthLaddered(side, q[1..]);
      assert Ahead(side, q[0], q[1]);
      var rest := Depth(q[1..]);
      forall j | 0 < j < |rest| ensures Better(side, q[0].price, rest[j].price) { }
    }
  }

  function RungQty(ds: seq<Rung>, p: Price): nat {
    if ds == [] then 0 else if ds[0].price == p then ds[0].qty else RungQty(ds[1..], p)
  }

  lemma {:induction false} RungAbsent(ds: seq<Rung>, p: Price)
    requires forall d :: d in ds ==> d.price != p
    ensures RungQty(ds, p) == 0
  {
    if ds != [] { RungAbsent(ds[1..], p); }
  }

  lemma {:induction false} DepthTotals(side: Side, q: seq<Resting>, p: Price)
    requires Sorted(side, q)
    ensures RungQty(Depth(q), p) == Total(q, AtPrice(p))
  {
    if q != [] {
      DepthTotals(side, q[1..], p);
      DepthLaddered(side, q[1..]);
      DepthLaddered(side, q);
      var rest := Depth(q[1..]);
      if p == q[0].price && !(rest != [] && rest[0].price == p) {
        assert Depth(q)[1..] == rest;
        forall d | d in rest ensures d.price != p {
          var j :| 0 <= j < |rest| && rest[j] == d;
          assert Better(side, Depth(q)[0].price, Depth(q)[j + 1].price);
        }
        RungAbsent(rest, p);
      }
    }
  }

  /** A price's share of a side is all of it exactly when every order stands there. */
  lemma {:induction false} ShareOfSide(q: seq<Resting>, p: Price)
    ensures Total(q, AtPrice(p)) <= Lots(q)
    ensures Total(q, AtPrice(p)) == Lots(q) <==> forall o :: o in q ==> o.price == p
  {
    if q != [] {
      ShareOfSide(q[1..], p);
      assert q[0] in q;
      assert forall o :: o in q <==> o == q[0] || o in q[1..];
    }
  }

  lemma {:induction false} RowsOfAt(side: Side, ds: seq<Rung>)
    ensures |RowsOf(side, ds)| == |ds|
    ensures forall i :: 0 <= i < |ds| ==> RowsOf(side, ds)[i] == Row(side, ds[i].price, ds[i].qty)
  {
    if ds != [] { RowsOfAt(side, ds[1..]); }
  }

  lemma {:induction false} ReversedAt<T>(xs: seq<T>)
    ensures |Reversed(xs)| == |xs|
    ensures forall i :: 0 <= i < |xs| ==> Reversed(xs)[i] == xs[|xs| - 1 - i]
  {
    if xs != [] { ReversedAt(xs[1..]); }
  }

  /** Where each row comes from. */
  lemma RowsAt(b: FlatBook, i: nat)
    requires i < |Rows(b)|
    ensures var bids, asks := Depth(b.bids), Depth(b.asks);
      && |Rows(b)| == |bids| + |asks|
      && Rows(b)[i] ==
           if i < |bids| then Row(Bid, bids[|bids| - 1 - i].price, bids[|bids| - 1 - i].qty)
           else Row(Ask, asks[i - |bids|].price, asks[i - |bids|].qty)
  {
    hide Depth, RowsOf, Reversed;
    RowsOfAt(Bid, Depth(b.bids));
    RowsOfAt(Ask, Depth(b.asks));
    ReversedAt(RowsOf(Bid, Depth(b.bids)));
  }

  /** The captured rows are strictly ascending and none is empty. */
  lemma RowsAscend(b: FlatBook)
    requires Valid(b)
    ensures Ascends(Rows(b)) && NoneZero(Rows(b))
  {
    DepthLaddered(Bid, b.bids);
    DepthLaddered(Ask, b.asks);
    hide Valid, Depth, Rows, Laddered;
    forall r | r in Rows(b) ensures r.qty > 0 {
      var i :| 0 <= i < |Rows(b)| && Rows(b)[i] == r;
      RowsAt(b, i);
    }
    forall i, j | 0 <= i < j < |Rows(b)| ensures RowBefore(Rows(b)[i], Rows(b)[j]) {
      RowsAt(b, i);
      RowsAt(b, j);
      var n := |Depth(b.bids)|;
      if j < n {
        LadderedAt(Bid, Depth(b.bids), n - 1 - j, n - 1 - i);
      } else if n <= i {
        LadderedAt(Ask, Depth(b.asks), i - n, j - n);
      }
    }
  }

  lemma LadderedAt(side: Side, ds: seq<Rung>, i: nat, j: nat)
    requires Laddered(side, ds) && i < j < |ds|
    ensures Better(side, ds[i].price, ds[j].price)
  {
  }

  lemma {:induction false} RowQtyAbsent(rows: seq<Row>, k: LevelKey)
    requires forall r :: r in rows ==> KeyOf(r) != k
    ensures RowQty(rows, k) == 0
  {
    if rows != [] { RowQtyAbsent(rows[1..], k); }
  }

  lemma {:induction false} RowQtyMember(rows: seq<Row>, r: Row)
    requires Ascends(rows) && r in rows
    ensures RowQty(rows, KeyOf(r)) == r.qty
  {
    if rows[0] != r {
      assert r in rows[1..];
      RowQtyMember(rows[1..], r);
      assert RowBefore(rows[0], r);
    }
  }

  lemma {:induction false} RungMember(side: Side, ds: seq<Rung>, d: Rung)
    requires Laddered(side, ds) && d in ds
    ensures RungQty(ds, d.price) == d.qty
  {
    if ds[0] != d {
      assert d in ds[1..];
      RungMember(side, ds[1..], d);
    }
  }

  lemma RowIn(b: FlatBook, r: Row)
    ensures r in Rows(b) <==> Rung(r.price, r.qty) in Depth(b.Of(r.side))
  {
    var bids, asks := RowsOf(Bid, Depth(b.bids)), RowsOf(Ask, Depth(b.asks));
    hide Depth, RowsOf, Reversed;
    RowsOfAt(Bid, Depth(b.bids));
    RowsOfAt(Ask, Depth(b.asks));
    ReversedAt(bids);
    if Rung(r.price, r.qty) in Depth(b.Of(r.side)) {
      var i :| 0 <= i < |Depth(b.Of(r.side))| && Depth(b.Of(r.side))[i] == Rung(r.price, r.qty);
      if r.side.Bid? { assert Reversed(bids)[|bids| - 1 - i] == r; } else { assert asks[i] == r; }
    }
    if r in Rows(b) {
      var i :| 0 <= i < |Rows(b)| && Rows(b)[i] == r;
      if i < |bids| { assert r == bids[|bids| - 1 - i]; } else { assert r == asks[i - |bids|]; }
    }
  }

  /** The rows carry exactly the level quantities. */
  lemma RowsAreLevels(b: FlatBook, k: LevelKey)
    requires Valid(b)
    ensures RowQty(Rows(b), k) == LevelQty(b, k)
  {
    var ds := Depth(b.Of(k.0));
    RowsAscend(b);
    DepthLaddered(k.0, b.Of(k.0));
    DepthTotals(k.0, b.Of(k.0), k.1);
    hide Valid, Depth, Rows;
    if d :| d in ds && d.price == k.1 {
      RowIn(b, Row(k.0, d.price, d.qty));
      RowQtyMember(Rows(b), Row(k.0, d.price, d.qty));
      RungMember(k.0, ds, d);
    } else {
      RungAbsent(ds, k.1);
      forall r | r in Rows(b) ensures KeyOf(r) != k { RowIn(b, r); }
      RowQtyAbsent(Rows(b), k);
    }
  }

  lemma {:induction false} NoLevelWithoutOrders(q: seq<Resting>, p: Price)
    requires forall o :: o in q ==> o.price != p
    ensures Total(q, AtPrice(p)) == 0
  {
    if q != [] { NoLevelWithoutOrders(q[1..], p); }
  }

  lemma L2At(b: FlatBook, k: LevelKey)
    ensures At(L2(b), k) == LevelQty(b, k)
    ensures k in L2(b) ==> L2(b)[k] > 0
  {
    var q := b.Of(k.0);
    if k in LevelKeys(b) {
      var o :| o in q && o.price == k.1;
      TotalMember(q, o, AtPrice(k.1));
    } else {
      forall o | o in q ensures o.price != k.1 {
        assert (k.0, o.price) in LevelKeys(b);
      }
      NoLevelWithoutOrders(q, k.1);
    }
  }

  lemma SameLevels(m: map<LevelKey, nat>, n: map<LevelKey, nat>)
    requires Positive(m) && Positive(n)
    requires forall k: LevelKey :: At(m, k) == At(n, k)
    ensures m == n
  {
    forall k: LevelKey ensures k in m <==> k in n { assert At(m, k) == At(n, k); }
    forall k | k in m ensures m[k] == n[k] { assert At(m, k) == At(n, k); }
  }

  /** A map is the book's level map once it is positive and reads the level quantities. */
  lemma IsL2(m: map<LevelKey, nat>, b: FlatBook)
    requires Positive(m)
    requires forall k: LevelKey :: At(m, k) == LevelQty(b, k)
    ensures m == L2(b)
  {
    forall k: LevelKey ensures At(m, k) == At(L2(b), k) && (k in L2(b) ==> L2(b)[k] > 0) { L2At(b, k); }
    SameLevels(m, L2(b));
  }

  // -------------------------------------------------------------------------
  // The merge
  // -------------------------------------------------------------------------

  function DeltaKey(e: Body): LevelKey
    requires e.Delta?
  {
    (e.side, e.price)
  }

  ghost predicate AllDeltas(ev: seq<Body>) { forall e :: e in ev ==> e.Delta? }

  /** The last change `ev` makes to level `k`. */
  function LastChange(ev: seq<Body>, k: LevelKey): Option<nat> {
    if ev == [] then None
    else
      var later := LastChange(ev[1..], k);
      if later.Some? then later
      else if ev[0].Delta? && DeltaKey(ev[0]) == k then Some(ev[0].newQty)
      else None
  }

  lemma {:induction false} DiffDeltas(pre: seq<Row>, post: seq<Row>)
    ensures AllDeltas(Diff(pre, post))
    ensures forall e :: e in Diff(pre, post) ==>
      exists r :: (r in pre || r in post) && KeyOf(r) == (e.side, e.price)
    decreases |pre| + |post|
  {
    if pre == [] && post == [] {
    } else if post == [] || (pre != [] && RowBefore(pre[0], post[0])) {
      assert pre == [pre[0]] + pre[1..];
      DiffDeltas(pre[1..], post);
      assert pre[0] in pre && KeyOf(pre[0]) == DeltaKey(DeltaOf(pre[0], 0));
    } else if pre == [] || !SameLevel(pre[0], post[0]) {
      assert post == [post[0]] + post[1..];
      DiffDeltas(pre, post[1..]);
      assert post[0] in post && KeyOf(post[0]) == DeltaKey(DeltaOf(post[0], post[0].qty));
    } else {
      assert pre == [pre[0]] + pre[1..];
      assert post == [post[0]] + post[1..];
      DiffDeltas(pre[1..], post[1..]);
      assert post[0] in post && KeyOf(post[0]) == DeltaKey(DeltaOf(post[0], post[0].qty));
    }
  }

  /** The market-data messages of a step are neither trades nor reports. */
  lemma TailKinds(pre: FlatBook, post: FlatBook, cmd: Inbound)
    ensures forall e :: e in Tail(pre, post, cmd) ==> !e.Trade? && !e.Report?
  {
    DiffDeltas(Rows(pre), Rows(post));
    hide Rows, Diff, Depth;
  }

  lemma AbsentBefore(r: Row, rows: seq<Row>)
    requires Ascends(rows) && (rows == [] || RowBefore(r, rows[0]))
    ensures RowQty(rows, KeyOf(r)) == 0
    ensures forall x :: x in rows ==> RowBefore(r, x)
  {
    forall x | x in rows ensures RowBefore(r, x) {
      var j :| 0 <= j < |rows| && rows[j] == x;
      if j > 0 { assert RowBefore(rows[0], rows[j]); }
    }
    RowQtyAbsent(rows, KeyOf(r));
  }

  lemma AbsentInTail(rows: seq<Row>)
    requires Ascends(rows) && rows != []
    ensures RowQty(rows[1..], KeyOf(rows[0])) == 0
    ensures forall x :: x in rows[1..] ==> RowBefore(rows[0], x)
  {
    AbsentBefore(rows[0], rows[1..]);
  }

  lemma LastChangeCons(e: Body, ev: seq<Body>, k: LevelKey)
    requires e.Delta?
    ensures LastChange([e] + ev, k) ==
      if LastChange(ev, k).Some? then LastChange(ev, k) else if DeltaKey(e) == k then Some(e.newQty) else None
  {
    assert ([e] + ev)[1..] == ev;
  }

  /** The merge names a level exactly when its quantity changed, with the new quantity. */
  lemma {:induction false} DiffExact(pre: seq<Row>, post: seq<Row>, k: LevelKey)
    requires Ascends(pre) && Ascends(post) && NoneZero(pre) && NoneZero(post)
    ensures LastChange(Diff(pre, post), k) ==
      if RowQty(pre, k) == RowQty(post, k) then None else Some(RowQty(post, k))
    decreases |pre| + |post|
  {
    if pre == [] && post == [] {
    } else if post == [] || (pre != [] && RowBefore(pre[0], post[0])) {
      AbsentInTail(pre);
      AbsentBefore(pre[0], post);
      DiffExact(pre[1..], post, k);
      LastChangeCons(DeltaOf(pre[0], 0), Diff(pre[1..], post), k);
      assert pre[0] in pre;
    } else if pre == [] || !SameLevel(pre[0], post[0]) {
      AbsentInTail(post);
      if pre != [] { assert RowBefore(post[0], pre[0]); }
      AbsentBefore(post[0], pre);
      DiffExact(pre, post[1..], k);
      LastChangeCons(DeltaOf(post[0], post[0].qty), Diff(pre, post[1..]), k);
      assert post[0] in post;
    } else {
      AbsentInTail(pre);
      AbsentInTail(post);
      DiffExact(pre[1..], post[1..], k);
      LastChangeCons(DeltaOf(post[0], post[0].qty), Diff(pre[1..], post[1..]), k);
      assert [] + Diff(pre[1..], post[1..]) == Diff(pre[1..], post[1..]);
    }
  }

  ghost predicate DeltasAscend(ev: seq<Body>) {
    && AllDeltas(ev)
    && forall i, j :: 0 <= i < j < |ev| ==>
         RowBefore(Row(ev[i].side, ev[i].price, 0), Row(ev[j].side, ev[j].price, 0))
  }

  lemma AscendCons(e: Body, ev: seq<Body>)
    requires e.Delta? && DeltasAscend(ev)
    requires forall x :: x in ev ==> RowBefore(Row(e.side, e.price, 0), Row(x.side, x.price, 0))
    ensures DeltasAscend([e] + ev)
  {
  }

  /** Changes come out strictly ascending, so each level is named at most once. */
  lemma {:induction false} DiffAscends(pre: seq<Row>, post: seq<Row>)
    requires Ascends(pre) && Ascends(post)
    ensures DeltasAscend(Diff(pre, post))
    decreases |pre| + |post|
  {
    if pre == [] && post == [] {
    } else if post == [] || (pre != [] && RowBefore(pre[0], post[0])) {
      AbsentInTail(pre);
      AbsentBefore(pre[0], post);
      DiffAscends(pre[1..], post);
      DiffDeltas(pre[1..], post);
      AscendCons(DeltaOf(pre[0], 0), Diff(pre[1..], post));
    } else if pre == [] || !SameLevel(pre[0], post[0]) {
      AbsentInTail(post);
      AbsentBefore(post[0], pre);
      DiffAscends(pre, post[1..]);
      DiffDeltas(pre, post[1..]);
      AscendCons(DeltaOf(post[0], post[0].qty), Diff(pre, post[1..]));
    } else {
      AbsentInTail(pre);
      AbsentInTail(post);
      DiffAscends(pre[1..], post[1..]);
      DiffDeltas(pre[1..], post[1..]);
      AscendCons(DeltaOf(post[0], post[0].qty), Diff(pre[1..], post[1..]));
      assert [] + Diff(pre[1..], post[1..]) == Diff(pre[1..], post[1..]);
    }
  }

  // -------------------------------------------------------------------------
  // Folding
  // -------------------------------------------------------------------------

  lemma {:induction false} ConsumeDeltas(m: map<LevelKey, nat>, ev: seq<Body>, k: LevelKey)
    requires AllDeltas(ev) && Positive(m)
    ensures Positive(ConsumeAll(m, ev))
    ensures At(ConsumeAll(m, ev), k) ==
      match LastChange(ev, k) case Some(n) => n case None => At(m, k)
    decreases ev
  {
    if ev != [] {
      assert ev[0] in ev;
      ConsumeDeltas(Consume(m, ev[0]), ev[1..], k);
    }
  }

  lemma {:induction false} ConsumeAppend(m: map<LevelKey, nat>, a: seq<Body>, b: seq<Body>)
    ensures ConsumeAll(m, a + b) == ConsumeAll(ConsumeAll(m, a), b)
    decreases a
  {
    if a == [] {
      assert a + b == b;
    } else {
      assert (a + b)[1..] == a[1..] + b;
      ConsumeAppend(Consume(m, a[0]), a[1..], b);
    }
  }

  /** Folding one step's changes into the old level map gives the new one. */
  lemma DiffFolds(pre: FlatBook, post: FlatBook)
    requires Valid(pre) && Valid(post)
    ensures ConsumeAll(L2(pre), Diff(Rows(pre), Rows(post))) == L2(post)
  {
    hide Valid, Rows, Diff, L2, ConsumeAll, LevelQty;
    RowsAscend(pre);
    RowsAscend(post);
    DiffDeltas(Rows(pre), Rows(post));
    var d := Diff(Rows(pre), Rows(post));
    forall k: LevelKey ensures At(ConsumeAll(L2(pre), d), k) == LevelQty(post, k) {
      PositiveL2(pre);
      ConsumeDeltas(L2(pre), d, k);
      DiffExact(Rows(pre), Rows(post), k);
      RowsAreLevels(pre, k);
      RowsAreLevels(post, k);
      L2At(pre, k);
    }
    PositiveL2(pre);
    ConsumeDeltas(L2(pre), d, (Bid, 1));
    IsL2(ConsumeAll(L2(pre), d), post);
  }

  lemma PositiveL2(b: FlatBook)
    ensures Positive(L2(b))
  {
    forall k | k in L2(b) ensures L2(b)[k] > 0 { L2At(b, k); }
  }

  /** Replacing the mirror by a snapshot gives the level map. */
  lemma SnapshotIsL2(b: FlatBook, m: map<LevelKey, nat>, requestId: nat)
    requires Valid(b)
    ensures Consume(m, Snapshot(requestId, Depth(b.bids), Depth(b.asks))) == L2(b)
  {
    hide Valid, Depth, RowsOf, L2, RowMap, LevelQty;
    var bids, asks := RowsOf(Bid, Depth(b.bids)), RowsOf(Ask, Depth(b.asks));
    RowMapAppend(bids, asks);
    forall k: LevelKey ensures At(RowMap(bids + asks), k) == LevelQty(b, k) {
      SideMap(b, Bid, k);
      SideMap(b, Ask, k);
    }
    SideMapPositive(b, Bid);
    SideMapPositive(b, Ask);
    IsL2(RowMap(bids + asks), b);
  }

  lemma {:induction false} RowMapAppend(a: seq<Row>, c: seq<Row>)
    ensures RowMap(a + c) == RowMap(c) + RowMap(a)
  {
    if a == [] {
      assert a + c == c;
    } else {
      assert (a + c)[1..] == a[1..] + c;
      RowMapAppend(a[1..], c);
    }
  }

  lemma {:induction false} RowMapOf(side: Side, ds: seq<Rung>, k: LevelKey)
    ensures k in RowMap(RowsOf(side, ds)) ==> k.0 == side && exists d :: d in ds && d.price == k.1
    ensures (exists d :: d in ds && d.price == k.1) && k.0 == side ==>
      k in RowMap(RowsOf(side, ds)) && RowMap(RowsOf(side, ds))[k] == RungQty(ds, k.1)
  {
    if ds != [] {
      RowMapOf(side, ds[1..], k);
      assert ds == [ds[0]] + ds[1..];
      assert RowsOf(side, ds)[1..] == RowsOf(side, ds[1..]);
    }
  }

  lemma SideMap(b: FlatBook, side: Side, k: LevelKey)
    requires Valid(b)
    ensures At(RowMap(RowsOf(side, Depth(b.Of(side)))), k) == if k.0 == side then LevelQty(b, k) else 0
    ensures k in RowMap(RowsOf(side, Depth(b.Of(side)))) ==> k.0 == side
  {
    DepthTotals(side, b.Of(side), k.1);
    RowMapOf(side, Depth(b.Of(side)), k);
    if k.0 == side && !(exists d :: d in Depth(b.Of(side)) && d.price == k.1) {
      RungAbsent(Depth(b.Of(side)), k.1);
    }
  }

  lemma SideMapPositive(b: FlatBook, side: Side)
    requires Valid(b)
    ensures Positive(RowMap(RowsOf(side, Depth(b.Of(side)))))
  {
    var ds := Depth(b.Of(side));
    DepthLaddered(side, b.Of(side));
    hide Valid, Depth;
    forall k | k in RowMap(RowsOf(side, ds)) ensures RowMap(RowsOf(side, ds))[k] > 0 {
      RowMapOf(side, ds, k);
      var d :| d in ds && d.price == k.1;
      RungMember(side, ds, d);
    }
  }

  // -------------------------------------------------------------------------
  // Steps and runs
  // -------------------------------------------------------------------------

  ghost predicate NoDepth(ev: seq<Body>) { forall e :: e in ev ==> !e.Delta? && !e.Snapshot? }

  lemma {:induction false} ConsumeNoDepth(m: map<LevelKey, nat>, ev: seq<Body>)
    requires NoDepth(ev)
    ensures ConsumeAll(m, ev) == m
    decreases ev
  {
    if ev != [] {
      assert ev[0] in ev;
      ConsumeNoDepth(m, ev[1..]);
    }
  }

  ghost predicate Answers(ev: seq<Body>) { forall e :: e in ev ==> e.Report? || e.Trade? }

  lemma NewAnswers(s: EngineState, m: NewOrder)
    ensures Answers(HandleNew(s, m).ev)
  {
    hide Settle, Match, CheckNewOrder, Rest, RestError, CheckCaps, NotionalOf, OnOrderResting, OnOrderRemoved;
    var w := Match(s.book, NewTaker(m), s.nextTrade);
    SettleSays(s.ledger, w.fills, w.stp, m.account, m.qty);
  }

  lemma CommitAnswers(
    s: EngineState, id: OrderId, account: AccountId, price: Price, qty: Qty,
    fills: seq<Fill>, stp: seq<Cancellation>, dropped: bool, left: nat)
    ensures Answers(CommitReplace(s, id, account, price, qty, fills, stp, dropped, left).ev)
  {
    hide Settle, Retire, Cancel, CheckCaps, NotionalOf, OnOrderResting;
    SettleSays(Retire(s.ledger, id), fills, stp, account, qty);
  }

  lemma ReplaceAnswersOnly(s: EngineState, id: OrderId, account: AccountId, price: Price, qty: Qty)
    ensures Answers(HandleReplace(s, id, account, price, qty).ev)
  {
    hide Replace, CommitReplace, CheckCancelReplace;
    var r := Replace(s.book, id, price, qty, s.nextTrade);
    var s' := s.(book := r.book, nextTrade := s.nextTrade + |r.fills|);
    CommitAnswers(s', id, account, price, qty, [], [], false, qty);
    if r.outcome.Ok? && r.outcome.value.Walked? {
      var m := r.outcome.value.m;
      CommitAnswers(s', id, account, price, qty, m.fills, m.stp, m.stp != [], m.left);
    }
  }

  /** Handlers emit reports and trades only. */
  lemma HandleNoDepth(s: EngineState, cmd: Inbound)
    ensures NoDepth(Handle(s, cmd).ev) && Answers(Handle(s, cmd).ev)
  {
    hide HandleNew, HandleReplace, RetireAll, Cancel, Retire, MassRecords, MassCancel, Lookup;
    match cmd
    case New(m) => NewAnswers(s, m);
    case CancelReplace(id, account, price, qty) => ReplaceAnswersOnly(s, id, account, price, qty);
    case MassCancelAll(account) => RetireAllSays(s.ledger, MassRecords(s.book, account), MassCancelled);
    case _ =>
  }

  /** The level changes of a stream. */
  function DeltasOf(ev: seq<Body>): seq<Body> {
    if ev == [] then [] else (if ev[0].Delta? then [ev[0]] else []) + DeltasOf(ev[1..])
  }

  lemma {:induction false} DeltasAppend(a: seq<Body>, b: seq<Body>)
    ensures DeltasOf(a + b) == DeltasOf(a) + DeltasOf(b)
  {
    if a == [] {
      assert a + b == b;
    } else {
      assert (a + b)[1..] == a[1..] + b;
      DeltasAppend(a[1..], b);
      var head := if a[0].Delta? then [a[0]] else [];
      assert head + (DeltasOf(a[1..]) + DeltasOf(b)) == (head + DeltasOf(a[1..])) + DeltasOf(b);
    }
  }

  lemma {:induction false} DeltasAll(ev: seq<Body>)
    ensures AllDeltas(ev) ==> DeltasOf(ev) == ev
    ensures (forall e :: e in ev ==> !e.Delta?) ==> DeltasOf(ev) == []
  {
    if ev != [] {
      assert ev[0] in ev;
      DeltasAll(ev[1..]);
    }
  }

  /** The level changes a step emits are those between its books. */
  lemma StepDeltas(s: EngineState, cmd: Inbound)
    requires Valid(s.book)
    ensures DeltasOf(Step(s, cmd).ev) == Diff(Rows(s.book), Rows(Step(s, cmd).s.book))
  {
    hide Valid, HandleNew, HandleCancel, HandleReplace, HandleMassCancel, Rows, Diff, Depth;
    var h := Handle(s, cmd);
    var d := Diff(Rows(s.book), Rows(h.s.book));
    HandleNoDepth(s, cmd);
    DeltasAll(h.ev);
    DeltasAppend(h.ev, Tail(s.book, h.s.book, cmd));
    DiffDeltas(Rows(s.book), Rows(h.s.book));
    DeltasAll(d);
    DeltasAll([TopOf(h.s.book)]);
    DeltasAppend(d, [TopOf(h.s.book)]);
    if cmd.KillSwitchSet? || cmd.SnapshotRequest? {
      DeltasAll(Tail(s.book, h.s.book, cmd));
      RowsAscend(s.book);
      DiffSame(Rows(s.book));
    }
  }

  lemma {:induction false} DiffSame(rows: seq<Row>)
    ensures Diff(rows, rows) == []
  {
    if rows != [] { DiffSame(rows[1..]); }
  }

  /** One step carries the level map along. */
  lemma StepFolds(s: EngineState, cmd: Inbound)
    requires Inv(s) && !Stranding(s, cmd)
    ensures ConsumeAll(L2(s.book), Step(s, cmd).ev) == L2(Step(s, cmd).s.book)
  {
    var h := Handle(s, cmd);
    HandleInvUnless(s, cmd);
    InvValid(s);
    InvValid(h.s);
    HandleNoDepth(s, cmd);
    hide Inv, Valid, HandleNew, HandleCancel, HandleReplace, HandleMassCancel, L2, Diff, Rows, Depth, ConsumeAll;
    ConsumeNoDepth(L2(s.book), h.ev);
    ConsumeAppend(L2(s.book), h.ev, Tail(s.book, h.s.book, cmd));
    TailFolds(s.book, h.s.book, cmd);
    if cmd.KillSwitchSet? || cmd.SnapshotRequest? { assert h.s.book == s.book; }
  }

  lemma TailFolds(pre: FlatBook, post: FlatBook, cmd: Inbound)
    requires Valid(pre) && Valid(post)
    requires cmd.KillSwitchSet? || cmd.SnapshotRequest? ==> post == pre
    ensures ConsumeAll(L2(pre), Tail(pre, post, cmd)) == L2(post)
  {
    hide Valid, L2, Diff, Rows, Depth;
    match cmd
    case KillSwitchSet(_) =>
    case SnapshotRequest(requestId) =>
      SnapshotIsL2(post, L2(pre), requestId);
      var e := Snapshot(requestId, Depth(post.bids), Depth(post.asks));
      assert [e][1..] == [];
      assert ConsumeAll(L2(pre), [e]) == ConsumeAll(Consume(L2(pre), e), []);
    case _ =>
      DiffFolds(pre, post);
      ConsumeAppend(L2(pre), Diff(Rows(pre), Rows(post)), [TopOf(post)]);
      ConsumeNoDepth(L2(post), [TopOf(post)]);
  }

  /** A mirror that holds the level map before a run holds it after. */
  lemma {:induction false} RunFolds(s: EngineState, cmds: seq<Inbound>)
    requires Inv(s) && Strandless(s, cmds)
    ensures ConsumeAll(L2(s.book), Run(s, cmds).ev) == L2(Run(s, cmds).s.book)
    decreases cmds
  {
    hide Inv, Handle, Tail, L2, Stranding;
    if cmds != [] {
      HandleInvUnless(s, cmds[0]);
      StepFolds(s, cmds[0]);
      RunFolds(Step(s, cmds[0]).s, cmds[1..]);
      ConsumeAppend(L2(s.book), Step(s, cmds[0]).ev, Run(Step(s, cmds[0]).s, cmds[1..]).ev);
    }
  }

  /** Whatever a mirror held, one snapshot makes it exact. */
  lemma SnapshotResyncs(s: EngineState, m: map<LevelKey, nat>, requestId: nat)
    requires Inv(s)
    ensures ConsumeAll(m, Step(s, SnapshotRequest(requestId)).ev) == L2(s.book)
  {
    InvValid(s);
    hide Inv, Valid, L2, Depth;
    SnapshotIsL2(s.book, m, requestId);
    var e := Snapshot(requestId, Depth(s.book.bids), Depth(s.book.asks));
    assert Step(s, SnapshotRequest(requestId)).ev == [e];
    assert [e][1..] == [];
    assert ConsumeAll(m, [e]) == ConsumeAll(Consume(m, e), []);
  }
}
