/**
 * The mask clean-up of `detect_pool`: opening, then closing, with a k x k block of ones.
 *
 * Assumed of the image library: the anchor of the block is its default centre k/2, erosion and dilation both look at
 * the same offsets around a pixel, and pixels outside the frame take no part in either.
 */
module Morphology {

  datatype Pixel = Pixel(x: int, y: int)

  type Mask = set<Pixel>

  /** A frame of pixels, or the unbounded plane. */
  datatype Grid = Plane | Frame(width: nat, height: nat) {
    predicate Has(p: Pixel) {
      Plane? || (0 <= p.x < width && 0 <= p.y < height)
    }
  }

  function Plus(p: Pixel, b: Pixel): Pixel { Pixel(p.x + b.x, p.y + b.y) }

  function Minus(p: Pixel, b: Pixel): Pixel { Pixel(p.x - b.x, p.y - b.y) }

  /** Offsets of the block relative to its anchor. */
  function Block(k: int): set<Pixel> {
    set x, y | -(k / 2) <= x < k - k / 2 && -(k / 2) <= y < k - k / 2 :: Pixel(x, y)
  }

  ghost predicate On(g: Grid, a: Mask) { forall p | p in a :: g.Has(p) }

  /** Everything the block sees around p, as far as it lies on the grid, is set. */
  predicate Fits(g: Grid, k: int, a: Mask, p: Pixel) {
    forall b | b in Block(k) :: g.Has(Plus(p, b)) ==> Plus(p, b) in a
  }

  /** The block sees a set pixel around p. */
  predicate Touches(k: int, a: Mask, p: Pixel) {
    exists b | b in Block(k) :: Plus(p, b) in a
  }

  function Erode(g: Grid, k: int, a: Mask): Mask {
    set p | p in a && Fits(g, k, a, p)
  }

  function Dilate(g: Grid, k: int, a: Mask): Mask {
    set p, b | p in a && b in Block(k) && g.Has(Minus(p, b)) :: Minus(p, b)
  }

  function Open(g: Grid, k: int, a: Mask): Mask { Dilate(g, k, Erode(g, k, a)) }

  function Close(g: Grid, k: int, a: Mask): Mask { Erode(g, k, Dilate(g, k, a)) }

  function CleanUp(g: Grid, k: int, a: Mask): Mask { Close(g, k, Open(g, k, a)) }

  // ---------- pixel by pixel ----------

  lemma InBlock(k: int, b: Pixel)
    ensures b in Block(k) <==> -(k / 2) <= b.x < k - k / 2 && -(k / 2) <= b.y < k - k / 2
  {
  }

  /** Erosion keeps the grid pixels at which the whole block fits; the anchor is part of the block. */
  lemma ErodeMeaning(g: Grid, k: int, a: Mask, p: Pixel)
    requires k >= 1 && On(g, a)
    ensures p in Erode(g, k, a) <==> g.Has(p) && Fits(g, k, a, p)
  {
    InBlock(k, Pixel(0, 0));
    assert Plus(p, Pixel(0, 0)) == p;
  }

  lemma DilateMeaning(g: Grid, k: int, a: Mask, p: Pixel)
    ensures p in Dilate(g, k, a) <==> g.Has(p) && Touches(k, a, p)
  {
    if g.Has(p) && Touches(k, a, p) {
      var b :| b in Block(k) && Plus(p, b) in a;
      assert p == Minus(Plus(p, b), b);
    }
    if p in Dilate(g, k, a) {
      var q, b :| q in a && b in Block(k) && p == Minus(q, b);
      assert Plus(p, b) == q;
    }
  }

  lemma ErodeMonotone(g: Grid, k: int, a: Mask, c: Mask)
    requires a <= c
    ensures Erode(g, k, a) <= Erode(g, k, c)
  {
    forall p | p in Erode(g, k, a) ensures p in Erode(g, k, c) {
      assert Fits(g, k, a, p);
      assert Fits(g, k, c, p);
    }
  }

  lemma DilateMonotone(g: Grid, k: int, a: Mask, c: Mask)
    requires a <= c
    ensures Dilate(g, k, a) <= Dilate(g, k, c)
  {
  }

  /** A larger mask stays larger under the clean-up, for any kernel. */
  lemma CleanUpMonotone(g: Grid, k: int, a: Mask, c: Mask)
    requires a <= c
    ensures CleanUp(g, k, a) <= CleanUp(g, k, c)
  {
    ErodeMonotone(g, k, a, c);
    DilateMonotone(g, k, Erode(g, k, a), Erode(g, k, c));
    DilateMonotone(g, k, Open(g, k, a), Open(g, k, c));
    ErodeMonotone(g, k, Dilate(g, k, Open(g, k, a)), Dilate(g, k, Open(g, k, c)));
  }

  // ---------- the ideal filter ----------

  /** The dilation that belongs to the erosion: it lays the block itself, not its mirror image, at every set pixel. */
  function Spread(g: Grid, k: int, a: Mask): Mask {
    set p, b | p in a && b in Block(k) && g.Has(Plus(p, b)) :: Plus(p, b)
  }

  function IdealOpen(g: Grid, k: int, a: Mask): Mask { Spread(g, k, Erode(g, k, a)) }

  function IdealClose(g: Grid, k: int, a: Mask): Mask { Erode(g, k, Spread(g, k, a)) }

  function IdealCleanUp(g: Grid, k: int, a: Mask): Mask { IdealClose(g, k, IdealOpen(g, k, a)) }

  /** Spread and Erode are adjoint on every grid, for every kernel. */
  lemma Adjunction(g: Grid, k: int, a: Mask, c: Mask)
    requires k >= 1 && On(g, a) && On(g, c)
    ensures Spread(g, k, a) <= c <==> a <= Erode(g, k, c)
  {
    if Spread(g, k, a) <= c {
      forall p | p in a ensures p in Erode(g, k, c) {
        forall b | b in Block(k) && g.Has(Plus(p, b)) ensures Plus(p, b) in c {
          assert Plus(p, b) in Spread(g, k, a);
        }
        ErodeMeaning(g, k, c, p);
      }
    }
    if a <= Erode(g, k, c) {
      forall q | q in Spread(g, k, a) ensures q in c {
        var p, b :| p in a && b in Block(k) && g.Has(Plus(p, b)) && q == Plus(p, b);
        assert Fits(g, k, c, p);
      }
    }
  }

  lemma SpreadMonotone(g: Grid, k: int, a: Mask, c: Mask)
    requires a <= c
    ensures Spread(g, k, a) <= Spread(g, k, c)
  {
  }

  lemma IdealMonotone(g: Grid, k: int, a: Mask, c: Mask)
    requires a <= c
    ensures IdealOpen(g, k, a) <= IdealOpen(g, k, c) && IdealClose(g, k, a) <= IdealClose(g, k, c)
  {
    ErodeMonotone(g, k, a, c);
    SpreadMonotone(g, k, Erode(g, k, a), Erode(g, k, c));
    SpreadMonotone(g, k, a, c);
    ErodeMonotone(g, k, Spread(g, k, a), Spread(g, k, c));
  }

  /** Opening only removes and closing only adds. */
  lemma OpenRemovesCloseAdds(g: Grid, k: int, a: Mask)
    requires k >= 1 && On(g, a)
    ensures IdealOpen(g, k, a) <= a <= IdealClose(g, k, a)
    ensures On(g, IdealOpen(g, k, a)) && On(g, IdealClose(g, k, a))
  {
    Adjunction(g, k, Erode(g, k, a), a);
    Adjunction(g, k, a, Spread(g, k, a));
  }

  lemma IdealIdempotent(g: Grid, k: int, a: Mask)
    requires k >= 1 && On(g, a)
    ensures IdealOpen(g, k, IdealOpen(g, k, a)) == IdealOpen(g, k, a)
    ensures IdealClose(g, k, IdealClose(g, k, a)) == IdealClose(g, k, a)
  {
    var o, c := IdealOpen(g, k, a), IdealClose(g, k, a);
    OpenRemovesCloseAdds(g, k, a);
    OpenRemovesCloseAdds(g, k, o);
    OpenRemovesCloseAdds(g, k, c);
    // What survives erosion survives it again after spreading, and dually.
    Adjunction(g, k, Erode(g, k, a), o);
    SpreadMonotone(g, k, Erode(g, k, a), Erode(g, k, o));
    Adjunction(g, k, c, Spread(g, k, a));
    ErodeMonotone(g, k, Spread(g, k, c), Spread(g, k, a));
  }

  /** Applying the ideal filter a second time changes nothing, on every grid and for every kernel. */
  lemma IdealCleanUpIdempotent(g: Grid, k: int, a: Mask)
    requires k >= 1 && On(g, a)
    ensures IdealCleanUp(g, k, IdealCleanUp(g, k, a)) == IdealCleanUp(g, k, a)
  {
    var o, f := IdealOpen(g, k, a), IdealCleanUp(g, k, a);
    OpenRemovesCloseAdds(g, k, a);
    OpenRemovesCloseAdds(g, k, o);
    OpenRemovesCloseAdds(g, k, f);
    IdealIdempotent(g, k, a);
    IdealIdempotent(g, k, o);
    IdealMonotone(g, k, IdealOpen(g, k, f), f);
    IdealMonotone(g, k, o, f);
    IdealMonotone(g, k, o, IdealOpen(g, k, f));
  }

  // ---------- odd kernels ----------

  /** An odd block is its own mirror image, so the library's dilation is the one that belongs to the erosion. */
  lemma OddDilate(g: Grid, k: int, a: Mask)
    requires k % 2 == 1
    ensures Dilate(g, k, a) == Spread(g, k, a)
  {
    forall q ensures q in Dilate(g, k, a) <==> q in Spread(g, k, a) {
      DilateMeaning(g, k, a, q);
      if Touches(k, a, q) && g.Has(q) {
        var b :| b in Block(k) && Plus(q, b) in a;
        Mirror(k, b);
        assert q == Plus(Plus(q, b), Pixel(-b.x, -b.y));
      }
      if q in Spread(g, k, a) {
        var p, b :| p in a && b in Block(k) && g.Has(Plus(p, b)) && q == Plus(p, b);
        Mirror(k, b);
        assert Plus(q, Pixel(-b.x, -b.y)) == p;
      }
    }
  }

  lemma Mirror(k: int, b: Pixel)
    requires k % 2 == 1 && b in Block(k)
    ensures Pixel(-b.x, -b.y) in Block(k)
  {
    InBlock(k, b);
    InBlock(k, Pixel(-b.x, -b.y));
  }

  /**
   * With an odd kernel the clean-up is the ideal one, on every frame: opening only removes, closing only adds, and one
   * pass is enough.
   */
  lemma OddCleanUpIdempotent(g: Grid, k: int, a: Mask)
    requires k >= 1 && k % 2 == 1 && On(g, a)
    ensures Open(g, k, a) <= a <= Close(g, k, a)
    ensures CleanUp(g, k, a) == IdealCleanUp(g, k, a)
    ensures CleanUp(g, k, CleanUp(g, k, a)) == CleanUp(g, k, a)
  {
    OddIsIdeal(g, k, a);
    OddIsIdeal(g, k, Open(g, k, a));
    var f := CleanUp(g, k, a);
    OddIsIdeal(g, k, f);
    OddIsIdeal(g, k, Open(g, k, f));
    OpenRemovesCloseAdds(g, k, a);
    IdealCleanUpIdempotent(g, k, a);
  }

  lemma OddIsIdeal(g: Grid, k: int, a: Mask)
    requires k % 2 == 1
    ensures Open(g, k, a) == IdealOpen(g, k, a) && Close(g, k, a) == IdealClose(g, k, a)
  {
    OddDilate(g, k, Erode(g, k, a));
    OddDilate(g, k, a);
  }

  // ---------- any kernel, on the plane ----------

  /** How far the block's mirror image lies from the block, on each axis. */
  function Drift(k: int): int { if k % 2 == 1 then 0 else 1 }

  function Shift(a: Mask, t: int): Mask { set p | p in a :: Pixel(p.x + t, p.y + t) }

  lemma ShiftMeaning(a: Mask, t: int, p: Pixel)
    ensures p in Shift(a, t) <==> Pixel(p.x - t, p.y - t) in a
  {
    if Pixel(p.x - t, p.y - t) in a {
      assert p == Pixel(Pixel(p.x - t, p.y - t).x + t, Pixel(p.x - t, p.y - t).y + t);
    }
  }

  lemma ShiftTwiceAt(a: Mask, t: int, u: int, p: Pixel)
    ensures p in Shift(Shift(a, t), u) <==> p in Shift(a, t + u)
  {
    ShiftMeaning(Shift(a, t), u, p);
    ShiftMeaning(a, t, Pixel(p.x - u, p.y - u));
    ShiftMeaning(a, t + u, p);
  }

  lemma ShiftTwice(a: Mask, t: int, u: int)
    ensures Shift(Shift(a, t), u) == Shift(a, t + u)
  {
    forall p ensures p in Shift(Shift(a, t), u) <==> p in Shift(a, t + u) { ShiftTwiceAt(a, t, u, p); }
  }

  lemma DilateDrifts(k: int, a: Mask)
    requires k >= 1
    ensures Dilate(Plane, k, a) == Shift(Spread(Plane, k, a), Drift(k))
  {
    var d := Drift(k);
    forall p ensures p in Dilate(Plane, k, a) <==> p in Shift(Spread(Plane, k, a), d) {
      var q := Pixel(p.x - d, p.y - d);
      ShiftMeaning(Spread(Plane, k, a), d, p);
      DilateMeaning(Plane, k, a, p);
      if Touches(k, a, p) {
        var b :| b in Block(k) && Plus(p, b) in a;
        var c := Pixel(-b.x - d, -b.y - d);
        InBlock(k, b);
        InBlock(k, c);
        assert q == Plus(Plus(p, b), c);
      }
      if q in Spread(Plane, k, a) {
        var r, c :| r in a && c in Block(k) && q == Plus(r, c);
        var b := Pixel(-c.x - d, -c.y - d);
        InBlock(k, c);
        InBlock(k, b);
        assert Plus(p, b) == r;
      }
    }
  }

  lemma FitsShift(k: int, a: Mask, t: int, p: Pixel)
    ensures Fits(Plane, k, Shift(a, t), p) <==> Fits(Plane, k, a, Pixel(p.x - t, p.y - t))
  {
    var q := Pixel(p.x - t, p.y - t);
    forall b ensures Plus(p, b) in Shift(a, t) <==> Plus(q, b) in a {
      ShiftMeaning(a, t, Plus(p, b));
      assert Pixel(Plus(p, b).x - t, Plus(p, b).y - t) == Plus(q, b);
    }
  }

  lemma ErodeShift(k: int, a: Mask, t: int)
    ensures Erode(Plane, k, Shift(a, t)) == Shift(Erode(Plane, k, a), t)
  {
    forall p ensures p in Erode(Plane, k, Shift(a, t)) <==> p in Shift(Erode(Plane, k, a), t) {
      ShiftMeaning(a, t, p);
      ShiftMeaning(Erode(Plane, k, a), t, p);
      FitsShift(k, a, t, p);
    }
  }

  lemma SpreadShift(k: int, a: Mask, t: int)
    ensures Spread(Plane, k, Shift(a, t)) == Shift(Spread(Plane, k, a), t)
  {
    forall p ensures p in Spread(Plane, k, Shift(a, t)) <==> p in Shift(Spread(Plane, k, a), t) {
      var q := Pixel(p.x - t, p.y - t);
      ShiftMeaning(Spread(Plane, k, a), t, p);
      if p in Spread(Plane, k, Shift(a, t)) {
        var r, b :| r in Shift(a, t) && b in Block(k) && p == Plus(r, b);
        ShiftMeaning(a, t, r);
        assert q == Plus(Pixel(r.x - t, r.y - t), b);
      }
      if q in Spread(Plane, k, a) {
        var r, b :| r in a && b in Block(k) && q == Plus(r, b);
        ShiftMeaning(a, t, Pixel(r.x + t, r.y + t));
        assert p == Plus(Pixel(r.x + t, r.y + t), b);
      }
    }
  }

  lemma IdealShift(k: int, a: Mask, t: int)
    ensures IdealOpen(Plane, k, Shift(a, t)) == Shift(IdealOpen(Plane, k, a), t)
    ensures IdealClose(Plane, k, Shift(a, t)) == Shift(IdealClose(Plane, k, a), t)
    ensures IdealCleanUp(Plane, k, Shift(a, t)) == Shift(IdealCleanUp(Plane, k, a), t)
  {
    ErodeShift(k, a, t);
    SpreadShift(k, Erode(Plane, k, a), t);
    SpreadShift(k, a, t);
    ErodeShift(k, Spread(Plane, k, a), t);
    SpreadShift(k, IdealOpen(Plane, k, a), t);
    ErodeShift(k, Spread(Plane, k, IdealOpen(Plane, k, a)), t);
  }

  /**
   * Opening and closing restore shape exactly, but an even kernel moves the result one pixel along each axis every
   * time: the clean-up is the ideal one moved by twice that.
   */
  lemma CleanUpDrifts(k: int, a: Mask)
    requires k >= 1
    ensures Open(Plane, k, a) == Shift(IdealOpen(Plane, k, a), Drift(k))
    ensures Close(Plane, k, a) == Shift(IdealClose(Plane, k, a), Drift(k))
    ensures CleanUp(Plane, k, a) == Shift(IdealCleanUp(Plane, k, a), 2 * Drift(k))
  {
    var d, o := Drift(k), IdealOpen(Plane, k, a);
    DilateDrifts(k, Erode(Plane, k, a));
    DilateDrifts(k, a);
    ErodeShift(k, Spread(Plane, k, a), d);
    DilateDrifts(k, Shift(o, d));
    ErodeShift(k, Spread(Plane, k, Shift(o, d)), d);
    IdealShift(k, o, d);
    ShiftTwice(IdealClose(Plane, k, o), d, d);
  }

  /** A second pass of the clean-up moves the first one's result once more, and changes nothing else. */
  lemma SecondPassMoves(k: int, a: Mask)
    requires k >= 1
    ensures CleanUp(Plane, k, CleanUp(Plane, k, a)) == Shift(CleanUp(Plane, k, a), 2 * Drift(k))
  {
    var f, t := IdealCleanUp(Plane, k, a), 2 * Drift(k);
    CleanUpDrifts(k, a);
    CleanUpDrifts(k, Shift(f, t));
    IdealShift(k, f, t);
    IdealCleanUpIdempotent(Plane, k, a);
  }

  lemma {:induction false} RightmostPixel(a: Mask) returns (p: Pixel)
    requires a != {}
    ensures p in a && forall q | q in a :: q.x <= p.x
    decreases |a|
  {
    p :| p in a;
    var rest := a - {p};
    if rest == {} {
      assert a == {p};
    } else {
      var r := RightmostPixel(rest);
      var first := p;
      if r.x > first.x { p := r; }
      forall q | q in a ensures q.x <= p.x {
        assert q in rest || q == first;
      }
    }
  }

  /** A finite mask with anything in it does not stay the same when moved. */
  lemma MovedDiffers(a: Mask, t: int)
    requires a != {} && t > 0
    ensures Shift(a, t) != a
  {
    var p := RightmostPixel(a);
    var q := Pixel(p.x + t, p.y + t);
    ShiftMeaning(a, t, q);
    assert q !in a;
  }

  lemma UnmovedIsSame(a: Mask)
    ensures Shift(a, 0) == a
  {
    forall p ensures p in Shift(a, 0) <==> p in a { ShiftMeaning(a, 0, p); }
  }

  /** The whole block fits somewhere in the mask. */
  predicate FitsSomewhere(g: Grid, k: int, a: Mask) { exists p | p in a :: Fits(g, k, a, p) }

  /** The filter leaves something exactly when the block fits somewhere. */
  lemma SurvivesIff(k: int, a: Mask)
    requires k >= 1
    ensures IdealCleanUp(Plane, k, a) != {} <==> FitsSomewhere(Plane, k, a)
  {
    var e, o := Erode(Plane, k, a), IdealOpen(Plane, k, a);
    if FitsSomewhere(Plane, k, a) {
      var p :| p in a && Fits(Plane, k, a, p);
      InBlock(k, Pixel(0, 0));
      assert p == Plus(p, Pixel(0, 0)) && p in e;
      assert p in o;
      OpenRemovesCloseAdds(Plane, k, o);
    } else {
      assert e == {};
      assert o == {};
      assert Spread(Plane, k, o) == {};
    }
  }

  lemma ShiftedIsSameIff(a: Mask, t: int)
    requires t >= 0
    ensures Shift(a, t) == a <==> t == 0 || a == {}
    ensures Shift(a, t) == {} <==> a == {}
  {
    if t == 0 { UnmovedIsSame(a); }
    if a == {} {
    } else {
      var p :| p in a;
      ShiftMeaning(a, t, Pixel(p.x + t, p.y + t));
      if t > 0 { MovedDiffers(a, t); }
    }
  }

  /** The clean-up agrees with the ideal one on a mask exactly if the kernel is odd or the block fits nowhere in it. */
  lemma RestoresIff(k: int, a: Mask)
    requires k >= 1
    ensures CleanUp(Plane, k, a) == IdealCleanUp(Plane, k, a) <==> k % 2 == 1 || !FitsSomewhere(Plane, k, a)
  {
    CleanUpDrifts(k, a);
    ShiftedIsSameIff(IdealCleanUp(Plane, k, a), 2 * Drift(k));
    SurvivesIff(k, a);
  }

  /** One pass is enough for a mask exactly if the kernel is odd or the block fits nowhere in the mask. */
  lemma IdempotentIff(k: int, a: Mask)
    requires k >= 1
    ensures CleanUp(Plane, k, CleanUp(Plane, k, a)) == CleanUp(Plane, k, a)
      <==> k % 2 == 1 || !FitsSomewhere(Plane, k, a)
  {
    SecondPassMoves(k, a);
    ShiftedIsSameIff(CleanUp(Plane, k, a), 2 * Drift(k));
    CleanUpDrifts(k, a);
    ShiftedIsSameIff(IdealCleanUp(Plane, k, a), 2 * Drift(k));
    SurvivesIff(k, a);
  }

  // ---------- from the plane to a frame ----------

  /** The mask keeps distance lo from the left and upper border of the frame, and hi from the right and lower one. */
  ghost predicate Inside(g: Grid, lo: int, hi: int, a: Mask) {
    g.Frame? && forall p | p in a :: lo <= p.x < g.width - hi && lo <= p.y < g.height - hi
  }

  /** Where the block fits, it keeps clear of everything the mask keeps clear of. */
  lemma ErodeInside(g: Grid, k: int, lo: int, hi: int, a: Mask)
    requires k >= 1 && Inside(g, lo, hi, a) && k / 2 <= lo && k - 1 - k / 2 <= hi
    ensures Erode(g, k, a) == Erode(Plane, k, a)
    ensures Inside(g, lo + k / 2, hi + (k - 1 - k / 2), Erode(g, k, a))
  {
    forall p | p in a ensures Fits(g, k, a, p) <==> Fits(Plane, k, a, p) {
      forall b | b in Block(k) ensures g.Has(Plus(p, b)) { InBlock(k, b); }
    }
    var low, high := Pixel(-(k / 2), -(k / 2)), Pixel(k - 1 - k / 2, k - 1 - k / 2);
    InBlock(k, low);
    InBlock(k, high);
    forall p | p in Erode(Plane, k, a) ensures Plus(p, low) in a && Plus(p, high) in a {}
  }

  lemma DilateInside(g: Grid, k: int, lo: int, hi: int, a: Mask)
    requires k >= 1 && Inside(g, lo, hi, a) && k - 1 - k / 2 <= lo && k / 2 <= hi
    ensures Dilate(g, k, a) == Dilate(Plane, k, a)
    ensures Inside(g, lo - (k - 1 - k / 2), hi - k / 2, Dilate(g, k, a))
  {
    forall p, b | p in a && b in Block(k)
      ensures g.Has(Minus(p, b))
      ensures lo - (k - 1 - k / 2) <= Minus(p, b).x < g.width - (hi - k / 2)
      ensures lo - (k - 1 - k / 2) <= Minus(p, b).y < g.height - (hi - k / 2)
    {
      InBlock(k, b);
    }
  }

  /**
   * In a real frame: a mask one kernel size from the border comes out of the clean-up as the ideal filter leaves it,
   * moved by two pixels along each axis when the kernel is even, as the default one is.
   */
  lemma FrameDrifts(g: Grid, k: int, a: Mask)
    requires k >= 1 && Inside(g, 2 * (k / 2), 2 * (k / 2), a)
    ensures CleanUp(g, k, a) == Shift(IdealCleanUp(Plane, k, a), 2 * Drift(k))
  {
    var l, r, m := k / 2, k - 1 - k / 2, 2 * (k / 2);
    ErodeInside(g, k, m, m, a);
    DilateInside(g, k, m + l, m + r, Erode(g, k, a));
    DilateInside(g, k, m + l - r, m + r - l, Open(g, k, a));
    ErodeInside(g, k, m + l - 2 * r, m + r - 2 * l, Dilate(g, k, Open(g, k, a)));
    CleanUpDrifts(k, a);
  }

  /** The same condition as on the plane decides whether the blob stays where it is in the frame. */
  lemma FrameRestoresIff(g: Grid, k: int, a: Mask)
    requires k >= 1 && Inside(g, 2 * (k / 2), 2 * (k / 2), a)
    ensures CleanUp(g, k, a) == IdealCleanUp(Plane, k, a) <==> k % 2 == 1 || !FitsSomewhere(Plane, k, a)
  {
    FrameDrifts(g, k, a);
    ShiftedIsSameIff(IdealCleanUp(Plane, k, a), 2 * Drift(k));
    SurvivesIff(k, a);
  }

  // ---------- rectangles ----------

  /** The mask is the rectangle of this width and height with its upper left corner at p. */
  ghost predicate IsRectangle(a: Mask, p: Pixel, width: int, height: int) {
    forall q :: q in a <==> p.x <= q.x < p.x + width && p.y <= q.y < p.y + height
  }

  function Rectangle(p: Pixel, width: nat, height: nat): (a: Mask)
    ensures IsRectangle(a, p, width, height)
  {
    set x, y | p.x <= x < p.x + width && p.y <= y < p.y + height :: Pixel(x, y)
  }

  lemma RectangleUnique(a: Mask, b: Mask, p: Pixel, width: int, height: int)
    requires IsRectangle(a, p, width, height) && IsRectangle(b, p, width, height)
    ensures a == b
  {
  }

  /** Eroding a rectangle takes off what the block reaches on each side. */
  lemma ErodeRectangle(k: int, a: Mask, p: Pixel, width: int, height: int)
    requires k >= 1 && width >= k && height >= k && IsRectangle(a, p, width, height)
    ensures IsRectangle(Erode(Plane, k, a), Pixel(p.x + k / 2, p.y + k / 2), width - k + 1, height - k + 1)
  {
    var low, high := Pixel(-(k / 2), -(k / 2)), Pixel(k - 1 - k / 2, k - 1 - k / 2);
    InBlock(k, low);
    InBlock(k, high);
    forall q
      ensures q in Erode(Plane, k, a) <==>
        0 <= q.x - p.x - k / 2 < width - k + 1 && 0 <= q.y - p.y - k / 2 < height - k + 1
    {
      ErodeMeaning(Plane, k, a, q);
      if q in Erode(Plane, k, a) {
        assert Plus(q, low) in a && Plus(q, high) in a;
      }
      if 0 <= q.x - p.x - k / 2 < width - k + 1 && 0 <= q.y - p.y - k / 2 < height - k + 1 {
        forall b | b in Block(k) ensures Plus(q, b) in a { InBlock(k, b); }
      }
    }
  }

  /** An offset of the block that leads from a stretch 0..length - 1 to d. */
  function Offset(k: int, d: int, length: int): (b: int)
    requires k >= 1 && length >= 1 && -(k / 2) <= d < length + k - 1 - k / 2
    ensures -(k / 2) <= b < k - k / 2 && 0 <= d - b < length
  {
    if d < 0 then d else if d < length then 0 else d - length + 1
  }

  /** Spreading adds the same amounts. */
  lemma SpreadRectangle(k: int, a: Mask, p: Pixel, width: int, height: int)
    requires k >= 1 && width >= 1 && height >= 1 && IsRectangle(a, p, width, height)
    ensures IsRectangle(Spread(Plane, k, a), Pixel(p.x - k / 2, p.y - k / 2), width + k - 1, height + k - 1)
  {
    forall q
      ensures q in Spread(Plane, k, a) <==>
        -(k / 2) <= q.x - p.x < width + k - 1 - k / 2 && -(k / 2) <= q.y - p.y < height + k - 1 - k / 2
    {
      if q in Spread(Plane, k, a) {
        var r, b :| r in a && b in Block(k) && q == Plus(r, b);
        InBlock(k, b);
      }
      if -(k / 2) <= q.x - p.x < width + k - 1 - k / 2 && -(k / 2) <= q.y - p.y < height + k - 1 - k / 2 {
        var b := Pixel(Offset(k, q.x - p.x, width), Offset(k, q.y - p.y, height));
        InBlock(k, b);
        assert Minus(q, b) in a && q == Plus(Minus(q, b), b);
      }
    }
  }

  lemma SameRectangle(a: Mask, p: Pixel, width: int, height: int, q: Pixel, w: int, h: int)
    requires IsRectangle(a, p, width, height) && p == q && width == w && height == h
    ensures IsRectangle(a, q, w, h)
  {
  }

  lemma SpreadBack(k: int, e: Mask, p: Pixel, width: int, height: int)
    requires k >= 1 && width >= k && height >= k
    requires IsRectangle(e, Pixel(p.x + k / 2, p.y + k / 2), width - k + 1, height - k + 1)
    ensures IsRectangle(Spread(Plane, k, e), p, width, height)
  {
    var inner, w, h := Pixel(p.x + k / 2, p.y + k / 2), width - k + 1, height - k + 1;
    SpreadRectangle(k, e, inner, w, h);
    SameRectangle(Spread(Plane, k, e), Pixel(inner.x - k / 2, inner.y - k / 2), w + k - 1, h + k - 1, p, width, height);
  }

  lemma OpenRectangle(k: int, a: Mask, p: Pixel, width: int, height: int)
    requires k >= 1 && width >= k && height >= k && IsRectangle(a, p, width, height)
    ensures IsRectangle(IdealOpen(Plane, k, a), p, width, height)
  {
    ErodeRectangle(k, a, p, width, height);
    SpreadBack(k, Erode(Plane, k, a), p, width, height);
  }

  lemma ErodeBack(k: int, d: Mask, p: Pixel, width: int, height: int)
    requires k >= 1 && width >= 1 && height >= 1
    requires IsRectangle(d, Pixel(p.x - k / 2, p.y - k / 2), width + k - 1, height + k - 1)
    ensures IsRectangle(Erode(Plane, k, d), p, width, height)
  {
    var outer, w, h := Pixel(p.x - k / 2, p.y - k / 2), width + k - 1, height + k - 1;
    ErodeRectangle(k, d, outer, w, h);
    SameRectangle(Erode(Plane, k, d), Pixel(outer.x + k / 2, outer.y + k / 2), w - k + 1, h - k + 1, p, width, height);
  }

  lemma CloseRectangle(k: int, a: Mask, p: Pixel, width: int, height: int)
    requires k >= 1 && width >= 1 && height >= 1 && IsRectangle(a, p, width, height)
    ensures IsRectangle(IdealClose(Plane, k, a), p, width, height)
  {
    SpreadRectangle(k, a, p, width, height);
    ErodeBack(k, Spread(Plane, k, a), p, width, height);
  }

  /** A rectangle at least as large as the block comes out of the ideal clean-up unchanged. */
  lemma RectangleStays(k: int, a: Mask, p: Pixel, width: int, height: int)
    requires k >= 1 && width >= k && height >= k && IsRectangle(a, p, width, height)
    ensures IdealCleanUp(Plane, k, a) == a
  {
    OpenRectangle(k, a, p, width, height);
    RectangleUnique(a, IdealOpen(Plane, k, a), p, width, height);
    CloseRectangle(k, a, p, width, height);
    RectangleUnique(a, IdealClose(Plane, k, a), p, width, height);
  }

  lemma ShiftRectangle(a: Mask, p: Pixel, width: int, height: int, t: int)
    requires IsRectangle(a, p, width, height)
    ensures IsRectangle(Shift(a, t), Pixel(p.x + t, p.y + t), width, height)
  {
    forall q ensures q in Shift(a, t) <==> 0 <= q.x - p.x - t < width && 0 <= q.y - p.y - t < height {
      ShiftMeaning(a, t, q);
    }
  }

  /** Where the clean-up puts a rectangle with its upper left corner at p. */
  function Moved(k: int, p: Pixel): Pixel { Pixel(p.x + 2 * Drift(k), p.y + 2 * Drift(k)) }

  lemma ShiftedRectangle(f: Mask, p: Pixel, width: nat, height: nat, t: int, q: Pixel)
    requires IsRectangle(f, p, width, height) && q == Pixel(p.x + t, p.y + t)
    ensures Shift(f, t) == Rectangle(q, width, height)
  {
    ShiftRectangle(f, p, width, height, t);
    RectangleUnique(Shift(f, t), Rectangle(q, width, height), q, width, height);
  }

  lemma IdealRectangle(k: int, a: Mask, p: Pixel, width: int, height: int)
    requires k >= 1 && width >= k && height >= k && IsRectangle(a, p, width, height)
    ensures IsRectangle(IdealCleanUp(Plane, k, a), p, width, height)
  {
    OpenRectangle(k, a, p, width, height);
    CloseRectangle(k, IdealOpen(Plane, k, a), p, width, height);
  }

  lemma MovedIs(k: int, p: Pixel)
    ensures Moved(k, p) == Pixel(p.x + 2 * Drift(k), p.y + 2 * Drift(k))
  {
  }

  lemma MovedRectangle(k: int, a: Mask, p: Pixel, width: nat, height: nat)
    requires 1 <= k <= width && k <= height && IsRectangle(a, p, width, height)
    ensures Shift(IdealCleanUp(Plane, k, a), 2 * Drift(k)) == Rectangle(Moved(k, p), width, height)
  {
    MovedIs(k, p);
    IdealRectangle(k, a, p, width, height);
    ShiftedRectangle(IdealCleanUp(Plane, k, a), p, width, height, 2 * Drift(k), Moved(k, p));
  }

  /** If the block fits nowhere, nothing is left, on any grid. */
  lemma NothingLeft(g: Grid, k: int, a: Mask)
    requires forall p | p in a :: !Fits(g, k, a, p)
    ensures CleanUp(g, k, a) == {}
  {
    assert Erode(g, k, a) == {};
    assert Open(g, k, a) == {};
    assert Dilate(g, k, {}) == {};
  }

  lemma CleanedRectangle(g: Grid, k: int, a: Mask, p: Pixel, width: int, height: int)
    requires k >= 1 && width >= k && height >= k && IsRectangle(a, p, width, height)
    requires Inside(g, 2 * (k / 2), 2 * (k / 2), a)
    ensures CleanUp(g, k, a) == Shift(a, 2 * Drift(k))
  {
    RectangleStays(k, a, p, width, height);
    FrameDrifts(g, k, a);
  }

  /**
   * A rectangle at least as large as the block, a kernel size from the border, comes out of the clean-up as the same
   * rectangle: in its place for an odd kernel, two pixels further right and down for an even one.
   */
  lemma RectangleDrifts(g: Grid, k: int, a: Mask, p: Pixel, width: int, height: int)
    requires k >= 1 && width >= k && height >= k && IsRectangle(a, p, width, height)
    requires Inside(g, 2 * (k / 2), 2 * (k / 2), a)
    ensures IsRectangle(CleanUp(g, k, a), Pixel(p.x + 2 * Drift(k), p.y + 2 * Drift(k)), width, height)
  {
    CleanedRectangle(g, k, a, p, width, height);
    ShiftRectangle(a, p, width, height, 2 * Drift(k));
  }

  /** In a VGA frame, with the default kernel 8, a 30 x 30 blob keeps its size and changes its place. */
  lemma DriftExample()
    ensures var blob := Rectangle(Pixel(100, 100), 30, 30);
      var cleaned := CleanUp(Frame(640, 480), 8, blob);
      IsRectangle(cleaned, Pixel(102, 102), 30, 30) && cleaned != blob
  {
    var blob := Rectangle(Pixel(100, 100), 30, 30);
    RectangleDrifts(Frame(640, 480), 8, blob, Pixel(100, 100), 30, 30);
    assert Pixel(100, 100) in blob && Pixel(100, 100) !in CleanUp(Frame(640, 480), 8, blob);
  }
}
