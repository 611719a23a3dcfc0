/** The level views of a ladder are the depth of the queue it represents. */
module LadderDepth {
  import opened Domain
  import opened PriceTime
  import opened Ladder

  /** Price and total of each level, best first. */
  function LevelView(lad: seq<Level>): seq<Rung> {
    if lad == [] then [] else [Rung(lad[0].price, TotalQuantity(lad[0].orders))] + LevelView(lad[1..])
  }

  function SlotDepth(s: seq<Slot>): seq<Rung> {
    if s == [] then []
    else
      var rest := SlotDepth(s[1..]);
      if rest != [] && rest[0].price == s[0].price
      then [Rung(s[0].price, s[0].qty + rest[0].qty)] + rest[1..]
      else [Rung(s[0].price, s[0].qty)] + rest
  }

  lemma {:induction false} StripDepth(q: seq<Resting>)
    ensures SlotDepth(Strip(q)) == Depth(q)
  {
    if q != [] { StripDepth(q[1..]); }
  }

  lemma {:induction false} SlotDepthHead(s: seq<Slot>)
    ensures s != [] ==> SlotDepth(s) != [] && SlotDepth(s)[0].price == s[0].price
  {
  }

  lemma {:induction false} SlotDepthCons(s: seq<Slot>)
    requires s != []
    ensures var rest := SlotDepth(s[1..]);
      SlotDepth(s) ==
        if rest != [] && rest[0].price == s[0].price then [Rung(s[0].price, s[0].qty + rest[0].qty)] + rest[1..]
        else [Rung(s[0].price, s[0].qty)] + rest
    ensures SlotDepth([]) == []
  {
  }

  /** A non-empty level contributes one rung ahead of worse-priced slots. */
  lemma {:induction false} LevelDepth(price: Price, os: seq<LevelOrder>, tail: seq<Slot>)
    requires os != [] && (tail != [] ==> tail[0].price != price)
    ensures SlotDepth(Slots(price, os) + tail) == [Rung(price, TotalQuantity(os))] + SlotDepth(tail)
  {
    hide SlotDepth;
    var s := Slots(price, os) + tail;
    assert s[1..] == Slots(price, os[1..]) + tail;
    SlotDepthHead(tail);
    SlotDepthCons(s);
    if |os| == 1 {
      assert Slots(price, os[1..]) + tail == tail;
    } else {
      LevelDepth(price, os[1..], tail);
    }
  }

  lemma {:induction false} ViewIsDepth(side: Side, lad: seq<Level>)
    requires Priced(side, lad) && NoneEmpty(lad)
    ensures LevelView(lad) == SlotDepth(Flatten(lad))
  {
    if lad != [] {
      assert lad == [lad[0]] + lad[1..];
      ViewIsDepth(side, lad[1..]);
      FlattenBehind(side, lad);
      var tail := Flatten(lad[1..]);
      if tail != [] { assert tail[0] in tail; }
      LevelDepth(lad[0].price, lad[0].orders, tail);
    }
  }

  /** The stored levels show exactly the depth of the flat queue. */
  lemma ViewRefines(side: Side, lad: seq<Level>, q: seq<Resting>)
    requires Represents(side, lad, q)
    ensures LevelView(lad) == Depth(q)
  {
    ViewIsDepth(side, lad);
    StripDepth(q);
  }

  /** Lots resting on a side, level by level. */
  function SideQty(lad: seq<Level>): nat {
    if lad == [] then 0 else TotalQuantity(lad[0].orders) + SideQty(lad[1..])
  }

  function SlotLots(s: seq<Slot>): nat {
    if s == [] then 0 else s[0].qty + SlotLots(s[1..])
  }

  lemma {:induction false} LevelLots(price: Price, os: seq<LevelOrder>, tail: seq<Slot>)
    ensures SlotLots(Slots(price, os) + tail) == TotalQuantity(os) + SlotLots(tail)
  {
    if os == [] {
      assert Slots(price, os) + tail == tail;
    } else {
      assert (Slots(price, os) + tail)[1..] == Slots(price, os[1..]) + tail;
      LevelLots(price, os[1..], tail);
    }
  }

  lemma {:induction false} LadderLots(lad: seq<Level>)
    ensures SideQty(lad) == SlotLots(Flatten(lad))
  {
    if lad != [] {
      LadderLots(lad[1..]);
      LevelLots(lad[0].price, lad[0].orders, Flatten(lad[1..]));
    }
  }

  lemma {:induction false} StripLots(q: seq<Resting>)
    ensures SlotLots(Strip(q)) == Lots(q)
  {
    if q != [] { StripLots(q[1..]); }
  }

  /** The level totals of a side add up to the lots of the flat queue. */
  lemma SideQtyRefines(side: Side, lad: seq<Level>, q: seq<Resting>)
    requires Represents(side, lad, q)
    ensures SideQty(lad) == Lots(q)
  {
    LadderLots(lad);
    StripLots(q);
  }
}
