/** The receive window on a machine word: the shifts, ors and ands of the program on 64 bits
    accept what the window on numbers accepts. */
module MachineWindow {

  import opened Words
  import opened ReplayWindow

  // ---------- the window on any bitmap ----------

  /** What the window needs of a bitmap: no bits, all bits moved up, one bit set, one bit tested. */
  datatype Bitmap<!W> = Bitmap(zero: W, move: (W, nat) -> W, mark: (W, nat) -> W, test: (W, nat) -> bool)

  ghost predicate Lawful<W(!new)>(b: Bitmap<W>) {
    && (forall d: nat | d < 64 :: !b.test(b.zero, d))
    && (forall w, n: nat, d: nat | n < 64 && d < 64 :: b.test(b.move(w, n), d) <==> n <= d && b.test(w, d - n))
    && (forall w, k: nat, d: nat | k < 64 && d < 64 :: b.test(b.mark(w, k), d) <==> d == k || b.test(w, d))
  }

  /** The highest accepted number and the bitmap. */
  datatype View<W> = View(max: uint64, bits: W)

  function AcceptOn<W>(b: Bitmap<W>, v: View<W>, s: uint64): (View<W>, bool) {
    if s == 0 then (v, false)
    else if s > v.max then
      var shift := s - v.max;
      (View(s, b.mark(if shift >= 64 then b.zero else b.move(v.bits, shift), 0)), true)
    else if v.max - s >= 64 || b.test(v.bits, v.max - s) then (v, false)
    else (View(v.max, b.mark(v.bits, v.max - s)), true)
  }

  /** The bitmap and the number have the same bits. */
  ghost predicate Represents<W>(b: Bitmap<W>, w: W, x: uint64) {
    forall d: nat | d < 64 :: b.test(w, d) <==> Bit(x, d)
  }

  ghost predicate Matches<W>(b: Bitmap<W>, v: View<W>, w: Window) {
    v.max == w.max && Represents(b, v.bits, w.bits)
  }

  lemma ShiftRepresents<W(!new)>(b: Bitmap<W>, w: W, x: uint64, n: nat)
    requires Lawful(b) && Represents(b, w, x) && n < 64
    ensures Represents(b, b.move(w, n), ShiftLeft64(x, n))
  {
    forall d: nat | d < 64
      ensures b.test(b.move(w, n), d) <==> Bit(ShiftLeft64(x, n), d)
    {
      ShiftedBit(x, n, d);
    }
  }

  lemma SetRepresents<W(!new)>(b: Bitmap<W>, w: W, x: uint64, k: nat)
    requires Lawful(b) && Represents(b, w, x) && k < 64
    ensures Represents(b, b.mark(w, k), OrBit64(x, k))
  {
    forall d: nat | d < 64
      ensures b.test(b.mark(w, k), d) <==> Bit(OrBit64(x, k), d)
    {
      SetBit(x, k, d);
    }
  }

  lemma ZeroRepresents<W(!new)>(b: Bitmap<W>)
    requires Lawful(b)
    ensures Represents(b, b.zero, 0)
  {
    forall d: nat | d < 64
      ensures b.test(b.zero, d) <==> Bit(0, d)
    {
      ZeroHasNoBits(d);
    }
  }

  /** A call on a lawful bitmap does what it does on the number. */
  lemma AcceptOnMatches<W(!new)>(b: Bitmap<W>, v: View<W>, w: Window, s: uint64)
    requires Lawful(b) && Matches(b, v, w)
    ensures AcceptOn(b, v, s).1 == Accept(w, s).1 && Matches(b, AcceptOn(b, v, s).0, Accept(w, s).0)
  {
    if s > v.max {
      var shift := s - v.max;
      if shift >= 64 {
        ZeroRepresents(b);
        SetRepresents(b, b.zero, 0, 0);
      } else {
        ShiftRepresents(b, v.bits, w.bits, shift);
        SetRepresents(b, b.move(v.bits, shift), ShiftLeft64(w.bits, shift), 0);
      }
    } else if s != 0 && v.max - s < 64 {
      assert b.test(v.bits, v.max - s) <==> Bit(w.bits, v.max - s);
      SetRepresents(b, v.bits, w.bits, v.max - s);
    }
  }

  function AfterOn<W>(b: Bitmap<W>, calls: seq<uint64>): View<W> {
    if calls == [] then View(0, b.zero)
    else AcceptOn(b, AfterOn(b, calls[..|calls| - 1]), calls[|calls| - 1]).0
  }

  /** After any calls a lawful bitmap accepts exactly the numbers that are fresh. */
  lemma {:induction false} AcceptsTheFresh<W(!new)>(b: Bitmap<W>, calls: seq<uint64>, s: uint64)
    requires Lawful(b)
    ensures Matches(b, AfterOn(b, calls), After(calls))
    ensures AcceptOn(b, AfterOn(b, calls), s).1 <==> Fresh(Accepted(calls), After(calls).max, s)
  {
    if calls == [] {
      ZeroRepresents(b);
    } else {
      var n := |calls| - 1;
      AcceptsTheFresh(b, calls[..n], calls[n]);
      AcceptOnMatches(b, AfterOn(b, calls[..n]), After(calls[..n]), calls[n]);
    }
    AcceptOnMatches(b, AfterOn(b, calls), After(calls), s);
    RunTracks(calls);
    AcceptRefines(After(calls), s, Accepted(calls));
  }

  // ---------- machine words as indices ----------

  function Index(d: bv64): nat
    decreases d
  {
    if d == 0 then 0 else 1 + Index(d - 1)
  }

  lemma Predecessors(n: bv64, d: bv64)
    requires n != 0 && n <= d <= 64
    ensures d != 0 && n - 1 <= d - 1 <= 64 && n - 1 < n
  {
  }

  lemma SameDistance(n: bv64, d: bv64)
    ensures (d - 1) - (n - 1) == d - n
  {
  }

  lemma {:induction false} IndexMinus(n: bv64, d: bv64)
    requires n <= d <= 64
    ensures Index(d - n) == Index(d) - Index(n)
    decreases n
  {
    if n != 0 {
      Predecessors(n, d);
      IndexMinus(n - 1, d - 1);
      SameDistance(n, d);
    }
  }

  lemma Doubled(d: bv64)
    requires d <= 32
    ensures Index(d + d) == 2 * Index(d)
  {
    assert d <= d + d <= 64 && (d + d) - d == d;
    IndexMinus(d, d + d);
  }

  lemma IndexOf64()
    ensures Index(64) == 64
  {
    Doubled(1);
    Doubled(2);
    Doubled(4);
    Doubled(8);
    Doubled(16);
    Doubled(32);
  }

  lemma IndexGrows(n: bv64, d: bv64)
    requires n < d <= 64
    ensures Index(n) < Index(d) <= 64
  {
    IndexMinus(n, d);
    IndexMinus(d, 64);
    IndexOf64();
    assert d - n != 0;
  }

  lemma IndexIsOneToOne(k: bv64, d: bv64)
    requires k <= 64 && d <= 64 && Index(k) == Index(d)
    ensures k == d
  {
    if k < d {
      IndexGrows(k, d);
    } else if d < k {
      IndexGrows(d, k);
    }
  }

  lemma {:induction false} SomeWord(n: nat) returns (d: bv64)
    requires n < 64
    ensures d < 64 && Index(d) == n
  {
    if n == 0 {
      d := 0;
    } else {
      var e := SomeWord(n - 1);
      IndexOf64();
      d := e + 1;
      assert d != 0 && d - 1 == e;
    }
  }

  /** The machine word for a number below 64. */
  ghost function Place(n: nat): (d: bv64)
    requires n < 64
    ensures d < 64 && Index(d) == n
  {
    assert exists d: bv64 :: d < 64 && Index(d) == n by {
      var d := SomeWord(n);
    }
    var d: bv64 :| d < 64 && Index(d) == n;
    d
  }

  // ---------- bits of machine words ----------

  ghost function Shift(w: bv64, i: bv64): bv64
    requires i < 64
  {
    w << i
  }

  lemma ShiftMoves(x: bv64, n: bv64, d: bv64)
    requires n <= d < 64
    ensures ((x << n) >> d) & 1 == (x >> (d - n)) & 1
  {
  }

  lemma ShiftClears(x: bv64, n: bv64, d: bv64)
    requires d < n < 64
    ensures ((x << n) >> d) & 1 == 0
  {
  }

  lemma OrSets(x: bv64, k: bv64, d: bv64)
    requires k < 64 && d < 64
    ensures ((x | (1 << k)) >> d) & 1 == if d == k then 1 else (x >> d) & 1
  {
  }

  lemma AndIsClear(x: bv64, k: bv64)
    requires k < 64 && (x >> k) & 1 != 1
    ensures x & (1 << k) == 0
  {
  }

  lemma ClearIsAnd(x: bv64, k: bv64)
    requires k < 64 && x & (1 << k) == 0
    ensures (x >> k) & 1 != 1
  {
  }

  lemma DistanceFits(n: bv64, d: bv64)
    requires n <= d < 64
    ensures d - n < 64
  {
  }

  ghost predicate Tested(w: bv64, d: bv64)
    requires d < 64
  {
    w & (1 << d) != 0
  }

  lemma TestIsBit(w: bv64, d: bv64)
    requires d < 64
    ensures Tested(w, d) <==> (w >> d) & 1 == 1
  {
    if w & (1 << d) == 0 {
      ClearIsAnd(w, d);
    } else if (w >> d) & 1 != 1 {
      AndIsClear(w, d);
    }
  }

  lemma SameBitSameTest(r: bv64, d: bv64, w: bv64, e: bv64)
    requires d < 64 && e < 64 && (r >> d) & 1 == (w >> e) & 1
    ensures Tested(r, d) <==> Tested(w, e)
  {
    TestIsBit(r, d);
    TestIsBit(w, e);
  }

  lemma TestMoves(w: bv64, n: bv64, d: bv64)
    requires n <= d < 64
    ensures d - n < 64 && (Tested(w << n, d) <==> Tested(w, d - n))
  {
    DistanceFits(n, d);
    ShiftMoves(w, n, d);
    SameBitSameTest(w << n, d, w, d - n);
  }

  lemma TestClears(w: bv64, n: bv64, d: bv64)
    requires d < n < 64
    ensures !Tested(w << n, d)
  {
    ShiftClears(w, n, d);
    TestIsBit(w << n, d);
  }

  lemma TestAfterShift(w: bv64, n: bv64, d: bv64)
    requires n < 64 && d < 64
    ensures n <= d ==> d - n < 64 && (Tested(Shift(w, n), d) <==> Tested(w, d - n))
    ensures d < n ==> !Tested(Shift(w, n), d)
  {
    if n <= d {
      TestMoves(w, n, d);
    } else {
      TestClears(w, n, d);
    }
  }

  lemma TestAfterOr(w: bv64, k: bv64, d: bv64)
    requires k < 64 && d < 64
    ensures Tested(w | (1 << k), d) <==> d == k || Tested(w, d)
  {
    OrSets(w, k, d);
    TestIsBit(w | (1 << k), d);
    TestIsBit(w, d);
  }

  // ---------- the operations of the program ----------

  ghost function Moved(w: bv64, n: nat): bv64 {
    if n < 64 then Shift(w, Place(n)) else 0
  }

  ghost function Marked(w: bv64, k: nat): bv64 {
    if k < 64 then w | (1 << Place(k)) else w
  }

  ghost function IsMarked(w: bv64, d: nat): bool {
    d < 64 && Tested(w, Place(d))
  }

  ghost function Machine(): Bitmap<bv64> {
    Bitmap(0, (w, n) => Moved(w, n), (w, k) => Marked(w, k), (w, d) => IsMarked(w, d))
  }

  lemma PlacesInOrder(n: nat, d: nat)
    requires n < 64 && d < 64
    ensures n <= d <==> Place(n) <= Place(d)
  {
    var i, j := Place(n), Place(d);
    if i < j {
      IndexGrows(i, j);
    } else if j < i {
      IndexGrows(j, i);
    }
  }

  lemma PlaceOfDistance(n: nat, d: nat)
    requires n <= d < 64
    ensures Place(d - n) == Place(d) - Place(n)
  {
    var i, j := Place(n), Place(d);
    PlacesInOrder(n, d);
    IndexMinus(i, j);
    DistanceFits(i, j);
    IndexIsOneToOne(j - i, Place(d - n));
  }

  lemma MoveUp(w: bv64, n: nat, d: nat, i: bv64, j: bv64, e: bv64)
    requires n <= d < 64 && i == Place(n) && j == Place(d) && e == Place(d - n)
    ensures i < 64 && (Tested(Shift(w, i), j) <==> Tested(w, e))
  {
    PlacesInOrder(n, d);
    PlaceOfDistance(n, d);
    TestAfterShift(w, i, j);
  }

  lemma MoveOut(w: bv64, n: nat, d: nat, i: bv64, j: bv64)
    requires d < n < 64 && i == Place(n) && j == Place(d)
    ensures !Tested(Shift(w, i), j)
  {
    PlacesInOrder(n, d);
    TestAfterShift(w, i, j);
  }

  lemma MoveLawUp(w: bv64, n: nat, d: nat)
    requires n <= d < 64
    ensures IsMarked(Moved(w, n), d) <==> IsMarked(w, d - n)
  {
    MoveUp(w, n, d, Place(n), Place(d), Place(d - n));
  }

  lemma MoveLawOut(w: bv64, n: nat, d: nat)
    requires d < n < 64
    ensures !IsMarked(Moved(w, n), d)
  {
    MoveOut(w, n, d, Place(n), Place(d));
  }

  lemma MarkLaw(w: bv64, k: nat, d: nat)
    requires k < 64 && d < 64
    ensures IsMarked(Marked(w, k), d) <==> d == k || IsMarked(w, d)
  {
    TestAfterOr(w, Place(k), Place(d));
    if Place(k) == Place(d) {
      assert k == d;
    }
  }

  lemma NothingMarked(d: bv64)
    requires d < 64
    ensures !Tested(0, d)
  {
  }

  lemma MachineIsLawful()
    ensures Lawful(Machine())
  {
    var b := Machine();
    forall d: nat | d < 64
      ensures !b.test(b.zero, d)
    {
      NothingMarked(Place(d));
    }
    forall w, n: nat, d: nat | n < 64 && d < 64
      ensures b.test(b.move(w, n), d) <==> n <= d && b.test(w, d - n)
    {
      if n <= d {
        MoveLawUp(w, n, d);
      } else {
        MoveLawOut(w, n, d);
      }
    }
    forall w, k: nat, d: nat | k < 64 && d < 64
      ensures b.test(b.mark(w, k), d) <==> d == k || b.test(w, d)
    {
      MarkLaw(w, k, d);
    }
  }

  /** After any calls the 64-bit word accepts exactly the numbers that are fresh. */
  lemma WordAcceptsTheFresh(calls: seq<uint64>, s: uint64)
    ensures AcceptOn(Machine(), AfterOn(Machine(), calls), s).1 <==> Fresh(Accepted(calls), After(calls).max, s)
  {
    MachineIsLawful();
    AcceptsTheFresh(Machine(), calls, s);
  }
}
