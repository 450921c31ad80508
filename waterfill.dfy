/** The water-filling root finder of the balance policies: the height to
    which `water` units poured over a terrain of levels rise. */
module WaterFill {

  /** The absolute tolerance of the bisection, 1e-8. */
  const Eps: real := 0.00000001

  /** Volume of water standing above the terrain `level` when the surface is
      at height `mid`: the sum of mid - item over the items below mid. */
  function Overflow(level: seq<real>, mid: real): (v: real)
    ensures v >= 0.0
  {
    if level == [] then 0.0
    else
      var item := level[|level| - 1];
      Overflow(level[..|level| - 1], mid) + (if item < mid then mid - item else 0.0)
  }

  /** The overflow is non-decreasing in the surface height; this is what
      makes the bisection sound. */
  lemma {:induction false} OverflowMonotone(level: seq<real>, a: real, b: real)
    requires a <= b
    ensures Overflow(level, a) <= Overflow(level, b)
  {
    if level != [] {
      OverflowMonotone(level[..|level| - 1], a, b);
    }
  }

  /** Raising the surface by d raises the overflow by at most |level| * d. */
  lemma {:induction false} OverflowLipschitz(level: seq<real>, a: real, b: real)
    requires a <= b
    ensures Overflow(level, b) - Overflow(level, a) <= (|level| as real) * (b - a)
  {
    if level != [] {
      var init, item := level[..|level| - 1], level[|level| - 1];
      OverflowLipschitz(init, a, b);
      assert (if item < b then b - item else 0.0) - (if item < a then a - item else 0.0) <= b - a;
      assert (|level| as real) * (b - a) == (|init| as real) * (b - a) + (b - a);
    }
  }

  /** Halving a ratio above 1 lowers its floor: the bisection's measure. */
  lemma HalvedFloorDecreases(x: real)
    requires x > 1.0
    ensures 0 <= (x / 2.0).Floor < x.Floor
  {
    assert x.Floor as real > x - 1.0;
    assert (x / 2.0).Floor as real <= x / 2.0;
  }

  /** Both halves of a bracket wider than Eps have a smaller measure. */
  lemma HalvesShrink(l: real, r: real)
    requires r - l > Eps
    ensures var mid := (l + r) / 2.0;
      && 0 <= ((mid - l) / Eps).Floor < ((r - l) / Eps).Floor
      && 0 <= ((r - mid) / Eps).Floor < ((r - l) / Eps).Floor
  {
    var mid := (l + r) / 2.0;
    HalvedFloorDecreases((r - l) / Eps);
    assert (mid - l) / Eps == ((r - l) / Eps) / 2.0 && (r - mid) / Eps == ((r - l) / Eps) / 2.0;
  }

  /** The bisection on the bracket [l, r]: halve it until it is no wider
      than Eps and return its midpoint. */
  function Bisect(level: seq<real>, water: real, l: real, r: real): real
    decreases ((r - l) / Eps).Floor
  {
    if r - l > Eps then
      var mid := (l + r) / 2.0;
      HalvesShrink(l, r);
      if Overflow(level, mid) >= water then Bisect(level, water, l, mid)
      else Bisect(level, water, mid, r)
    else (l + r) / 2.0
  }

  /** The ceiling `fill_water(level, water)` returns. */
  function WaterLevel(level: seq<real>, water: real): real
  {
    Bisect(level, water, 0.0, water)
  }

  /** The bracket the bisection keeps: 0 <= l <= r <= water, the overflow at
      l is below water unless l is still 0, and the overflow at r reaches
      water unless r is still water. */
  predicate Bracket(level: seq<real>, water: real, l: real, r: real)
  {
    && 0.0 <= l <= r <= water
    && (l == 0.0 || Overflow(level, l) < water)
    && (r == water || Overflow(level, r) >= water)
  }

  /** A bracket no wider than Eps has its midpoint within Eps/2 of where the
      overflow crosses water. */
  lemma NarrowBracket(level: seq<real>, water: real, l: real, r: real)
    requires Bracket(level, water, l, r) && r - l <= Eps
    ensures var c := (l + r) / 2.0;
      && (c - Eps / 2.0 <= 0.0 || Overflow(level, c - Eps / 2.0) < water)
      && (c + Eps / 2.0 >= water || Overflow(level, c + Eps / 2.0) >= water)
  {
    var c := (l + r) / 2.0;
    if l != 0.0 {
      OverflowMonotone(level, c - Eps / 2.0, l);
    }
    if r != water {
      OverflowMonotone(level, r, c + Eps / 2.0);
    }
  }

  /** Each half the bisection keeps is again a bracket. */
  lemma HalveBracket(level: seq<real>, water: real, l: real, r: real)
    requires Bracket(level, water, l, r)
    ensures var mid := (l + r) / 2.0;
      if Overflow(level, mid) >= water then Bracket(level, water, l, mid) else Bracket(level, water, mid, r)
  {
  }

  /** The result lies in the bracket, and within Eps/2 of the height where
      the overflow crosses water. */
  lemma {:induction false} BisectBracket(level: seq<real>, water: real, l: real, r: real)
    requires Bracket(level, water, l, r)
    ensures l <= Bisect(level, water, l, r) <= r
    ensures var c := Bisect(level, water, l, r);
      && (c - Eps / 2.0 <= 0.0 || Overflow(level, c - Eps / 2.0) < water)
      && (c + Eps / 2.0 >= water || Overflow(level, c + Eps / 2.0) >= water)
    decreases ((r - l) / Eps).Floor
  {
    if r - l > Eps {
      var mid := (l + r) / 2.0;
      HalvesShrink(l, r);
      HalveBracket(level, water, l, r);
      if Overflow(level, mid) >= water {
        assert Bisect(level, water, l, r) == Bisect(level, water, l, mid);
        BisectBracket(level, water, l, mid);
      } else {
        assert Bisect(level, water, l, r) == Bisect(level, water, mid, r);
        BisectBracket(level, water, mid, r);
      }
    } else {
      assert Bisect(level, water, l, r) == (l + r) / 2.0;
      NarrowBracket(level, water, l, r);
    }
  }

  /** For non-negative water the ceiling lies in [0, water]; for any water
      it is within Eps/2 of where the overflow crosses water. */
  lemma WaterLevelBounds(level: seq<real>, water: real)
    ensures water >= 0.0 ==> 0.0 <= WaterLevel(level, water) <= water
    ensures var c := WaterLevel(level, water);
      && (c - Eps / 2.0 <= 0.0 || Overflow(level, c - Eps / 2.0) < water)
      && (c + Eps / 2.0 >= water || Overflow(level, c + Eps / 2.0) >= water)
  {
    if water >= 0.0 {
      BisectBracket(level, water, 0.0, water);
    }
  }

  /** A height c whose overflow Eps/2 lower is below water has an overflow
      less than |level| * Eps/2 above water. */
  lemma OverflowAbove(level: seq<real>, water: real, c: real)
    requires Overflow(level, c - Eps / 2.0) < water
    ensures Overflow(level, c) - water <= (|level| as real) * Eps / 2.0
  {
    var h := Eps / 2.0;
    OverflowLipschitz(level, c - h, c);
    assert c - (c - h) == h;
  }

  /** A height c whose overflow Eps/2 higher reaches water has an overflow at
      most |level| * Eps/2 below water. */
  lemma OverflowBelow(level: seq<real>, water: real, c: real)
    requires Overflow(level, c + Eps / 2.0) >= water
    ensures -(|level| as real) * Eps / 2.0 <= Overflow(level, c) - water
  {
    var h := Eps / 2.0;
    OverflowLipschitz(level, c, c + h);
    assert (c + h) - c == h;
  }

  /** Away from the ends of [0, water], a height within Eps/2 of the crossing
      leaves an overflow within |level| * Eps/2 of water. */
  lemma CrossingError(level: seq<real>, water: real, c: real)
    requires c - Eps / 2.0 <= 0.0 || Overflow(level, c - Eps / 2.0) < water
    requires c + Eps / 2.0 >= water || Overflow(level, c + Eps / 2.0) >= water
    requires Eps / 2.0 < c < water - Eps / 2.0
    ensures -(|level| as real) * Eps / 2.0 <= Overflow(level, c) - water <= (|level| as real) * Eps / 2.0
  {
    OverflowAbove(level, water, c);
    OverflowBelow(level, water, c);
  }

  /** The ceiling fill_water returns, away from the ends of [0, water], has
      an overflow within |level| * Eps/2 of water. */
  lemma WaterLevelError(level: seq<real>, water: real)
    requires Eps / 2.0 < WaterLevel(level, water) < water - Eps / 2.0
    ensures var c := WaterLevel(level, water);
      -(|level| as real) * Eps / 2.0 <= Overflow(level, c) - water <= (|level| as real) * Eps / 2.0
  {
    WaterLevelBounds(level, water);
    CrossingError(level, water, WaterLevel(level, water));
  }

  /** The inner loop of `fill_water`: the water standing above the items
      below mid. */
  method OverflowAt(level: seq<real>, mid: real) returns (tt: real)
    ensures tt == Overflow(level, mid)
  {
    tt := 0.0;
    var k := 0;
    while k < |level|
      invariant 0 <= k <= |level|
      invariant tt == Overflow(level[..k], mid)
    {
      assert level[..k + 1][..k] == level[..k];
      if level[k] < mid {
        tt := tt + (mid - level[k]);
      }
      k := k + 1;
    }
    assert level[..|level|] == level;
  }

  /** `fill_water`: bisection on [0, water] for the ceiling whose overflow
      reaches water, to within Eps. */
  method FillWater(level: seq<real>, water: real) returns (c: real)
    ensures c == WaterLevel(level, water)
    ensures water >= 0.0 ==> 0.0 <= c <= water
    ensures c - Eps / 2.0 <= 0.0 || Overflow(level, c - Eps / 2.0) < water
    ensures c + Eps / 2.0 >= water || Overflow(level, c + Eps / 2.0) >= water
    ensures Eps / 2.0 < c < water - Eps / 2.0 ==>
      -(|level| as real) * Eps / 2.0 <= Overflow(level, c) - water <= (|level| as real) * Eps / 2.0
  {
    var l, r, eps := 0.0, water, Eps;
    while r - l > eps
      invariant eps == Eps
      invariant Bisect(level, water, l, r) == WaterLevel(level, water)
      invariant water >= 0.0 ==> Bracket(level, water, l, r)
      invariant water < 0.0 ==> l == 0.0 && r == water
      decreases ((r - l) / Eps).Floor
    {
      var mid := (l + r) / 2.0;
      HalvesShrink(l, r);
      if water >= 0.0 {
        HalveBracket(level, water, l, r);
      }
      var tt := OverflowAt(level, mid);
      if tt >= water {
        r := mid;
      } else {
        l := mid;
      }
    }
    c := (l + r) / 2.0;
    WaterLevelBounds(level, water);
    if Eps / 2.0 < c < water - Eps / 2.0 {
      CrossingError(level, water, c);
    }
  }
}
