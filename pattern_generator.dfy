/**
 * Python/PatternGenerator.py: the arithmetic around a repeating cover
 * image. The three answers typed in are checked, the tile size is the
 * divisor of the image size closest to the requested one, clamped to at
 * least 64 and at most a quarter of the image, and the image is filled
 * with a grid of four tile variations laid out along the diagonals.
 *
 * Drawing the tiles and the colours chosen at random are outside the
 * model; where the script draws a random number the model takes it as a
 * parameter.
 */
module PatternGenerator {
  import opened Wrappers
  import opened Text

  // ---------------------------------------------------------------------
  // find_closest_divisor
  // ---------------------------------------------------------------------

  /** `int(math.sqrt(n))`, the integer square root. */
  function Isqrt(n: nat): nat {
    if n == 0 then 0
    else
      var r := Isqrt(n - 1);
      if (r + 1) * (r + 1) <= n then r + 1
      else r
  }

  /** The square root found is the largest whose square does not exceed `n`. */
  lemma {:induction false} IsqrtBounds(n: nat)
    ensures Isqrt(n) * Isqrt(n) <= n < (Isqrt(n) + 1) * (Isqrt(n) + 1)
  {
    if n > 0 {
      IsqrtBounds(n - 1);
      var r := Isqrt(n - 1);
      assert (r + 2) * (r + 2) == (r + 1) * (r + 1) + 2 * r + 3;
    }
  }

  /** The distance `abs(x - target)`. */
  function Dist(x: int, target: int): nat {
    if x >= target then x - target else target - x
  }

  /** What the loop collects for `i` in `1..k`: each divisor `i`, followed by `n // i` when that is another number. */
  function Collected(n: nat, k: nat): seq<nat> {
    if k == 0 then []
    else Collected(n, k - 1) + (if n % k == 0 then (if k != n / k then [k, n / k] else [k]) else [])
  }

  /** The `divisors` list, in the order the loop builds it. */
  function Divisors(n: nat): seq<nat> {
    Collected(n, Isqrt(n))
  }

  /** `min(xs, key=...)`: the position of the first element closest to the target. */
  function FirstClosest(xs: seq<nat>, target: int): (j: nat)
    requires |xs| > 0
    ensures j < |xs|
    ensures forall k :: 0 <= k < |xs| ==> Dist(xs[j], target) <= Dist(xs[k], target)
    ensures forall k :: 0 <= k < j ==> Dist(xs[k], target) > Dist(xs[j], target)
  {
    if |xs| == 1 then 0
    else
      var j := FirstClosest(xs[..|xs| - 1], target);
      if Dist(xs[|xs| - 1], target) < Dist(xs[j], target) then |xs| - 1 else j
  }

  /** `find_closest_divisor(n, target)`: the loop collecting the divisors, then the closest of them. */
  method FindClosestDivisor(n: nat, target: int) returns (d: Option<nat>)
    ensures d.None? <==> |Divisors(n)| == 0
    ensures d.Some? ==> d.value == Divisors(n)[FirstClosest(Divisors(n), target)]
  {
    var divisors: seq<nat> := [];
    var r := Isqrt(n);
    for i := 1 to r + 1
      invariant divisors == Collected(n, i - 1)
    {
      if n % i == 0 {
        divisors := divisors + [i];
        if i != n / i {
          divisors := divisors + [n / i];
        }
      }
    }
    if |divisors| == 0 {
      return None;
    }
    d := Some(divisors[FirstClosest(divisors, target)]);
  }

  /** Every collected number divides `n` and lies between 1 and `n`. */
  lemma {:induction false} CollectedDivide(n: nat, k: nat)
    requires n >= 1
    ensures forall x :: x in Collected(n, k) ==> 1 <= x <= n && n % x == 0
  {
    if k > 0 {
      CollectedDivide(n, k - 1);
      if n % k == 0 {
        QuotientDivides(n, k);
      }
    }
  }

  /** For a divisor `k` of `n`, the quotient `n / k` is a divisor too. */
  lemma QuotientDivides(n: nat, k: nat)
    requires n >= 1 && k >= 1 && n % k == 0
    ensures 1 <= n / k <= n && n % (n / k) == 0 && n / (n / k) == k
  {
    var q := n / k;
    assert n == k * q;
    assert q >= 1;
    assert q <= n by {
      assert k * q >= q;
    }
    DivideExact(n, q, k);
  }

  /** `n == q * k` with `q >= 1` gives `n % q == 0` and `n / q == k`. */
  lemma DivideExact(n: nat, q: nat, k: nat)
    requires q >= 1 && n == k * q
    ensures n % q == 0 && n / q == k
  {
    var d, m := n / q, n % q;
    assert n == q * d + m && 0 <= m < q;
    assert q * (k - d) == m;
    if k - d >= 1 {
      MulMono(q, k - d, q, 1);
    } else if k - d <= -1 {
      MulMono(q, d - k, q, 1);
    }
  }

  /** Products grow with their factors. */
  lemma MulMono(a: int, b: int, c: int, d: int)
    requires a >= c >= 0 && b >= d >= 0
    ensures a * b >= c * d
  {
    assert (a - c) * b >= 0;
    assert c * (b - d) >= 0;
  }

  /** Collecting up to `k` picks up `i` and `n / i` for every divisor `i` from 1 to `k`. */
  lemma {:induction false} CollectedHas(n: nat, k: nat, i: nat)
    requires 1 <= i <= k && n % i == 0
    ensures i in Collected(n, k) && n / i in Collected(n, k)
  {
    if i < k {
      CollectedHas(n, k - 1, i);
    }
  }

  /** Every divisor of `n` is collected: the small one as `i`, the large one as `n // i`. */
  lemma DivisorsComplete(n: nat, e: nat)
    requires 1 <= e && n >= 1 && n % e == 0
    ensures e in Divisors(n)
  {
    var r := Isqrt(n);
    IsqrtBounds(n);
    if e <= r {
      CollectedHas(n, r, e);
    } else {
      var q := CoDivisor(n, e, r);
      CollectedHas(n, r, q);
    }
  }

  /** A divisor above the square root is the quotient of one at or below it. */
  lemma CoDivisor(n: nat, e: nat, r: nat) returns (q: nat)
    requires n >= 1 && 1 <= e && n % e == 0 && r < e
    requires n < (r + 1) * (r + 1)
    ensures 1 <= q <= r && n % q == 0 && n / q == e
  {
    QuotientDivides(n, e);
    q := n / e;
    assert n == e * q;
    if q > r {
      MulMono(e, q, r + 1, r + 1);
    }
  }

  /** The divisors found are exactly the divisors of `n`; there are some exactly when `n >= 1`. */
  lemma DivisorsExact(n: nat, e: nat)
    ensures n >= 1 ==> (e in Divisors(n) <==> 1 <= e <= n && n % e == 0)
    ensures |Divisors(n)| == 0 <==> n == 0
  {
    if n >= 1 {
      CollectedDivide(n, Isqrt(n));
      if 1 <= e <= n && n % e == 0 {
        DivisorsComplete(n, e);
      }
      DivisorsComplete(n, 1);
    }
  }

  /**
   * For `n >= 1` the result is never None, divides `n`, and no divisor of
   * `n` is closer to the target.
   */
  lemma ClosestDivisorOptimal(n: nat, target: int, e: nat)
    requires n >= 1 && 1 <= e && n % e == 0
    ensures |Divisors(n)| > 0
    ensures var d := Divisors(n)[FirstClosest(Divisors(n), target)];
      1 <= d <= n && n % d == 0 && Dist(d, target) <= Dist(e, target)
  {
    DivisorsComplete(n, e);
    var divs := Divisors(n);
    var j := FirstClosest(divs, target);
    CollectedDivide(n, Isqrt(n));
    assert divs[j] in divs;
    var k :| 0 <= k < |divs| && divs[k] == e;
  }

  // ---------------------------------------------------------------------
  // The answers typed in, and the tile size
  // ---------------------------------------------------------------------

  /** Why an answer is refused (`ValueError`): not a number, an image below 256 pixels, a negative colour count. */
  datatype InputError = NotAnInteger | ImageTooSmall | NegativeColorCount

  /** What the script goes on with. */
  datatype Settings = Settings(imageSize: int, tile: int, colorCount: int)

  const MinTile: int := 64

  /** `max(min_tile, min(valid_tile, max_tile)) if valid_tile else min_tile`. */
  function FinalTile(imageSize: int, valid: Option<nat>): (tile: int)
    ensures imageSize >= 256 ==> MinTile <= tile <= imageSize / 4
    ensures valid.Some? && valid.value != 0 && MinTile <= valid.value <= imageSize / 4 ==> tile == valid.value
    // the clamp is the point of [64, image_size // 4] nearest to the divisor found
    ensures imageSize >= 256 && valid.Some? && valid.value != 0 ==>
      forall t :: MinTile <= t <= imageSize / 4 ==> Dist(tile, valid.value) <= Dist(t, valid.value)
    // no divisor, or a falsy 0, falls back to the minimum
    ensures valid.None? || valid.value == 0 ==> tile == MinTile
  {
    var maxTile := imageSize / 4;
    if valid.Some? && valid.value != 0 then
      var m := if valid.value < maxTile then valid.value else maxTile;
      if MinTile > m then MinTile else m
    else MinTile
  }

  /**
   * The input block: the image size is read and checked first, then the
   * requested tile size and the colour count; a colour count of 0 is
   * replaced by `randomCount`, drawn from 5 to 12.
   */
  function Configure(sizeText: string, targetText: string, colorText: string, randomCount: int): (r: Result<Settings, InputError>)
    requires 5 <= randomCount <= 12
    ensures r.Ok? ==> r.value.imageSize >= 256 && r.value.colorCount >= 1
    ensures r.Ok? ==> MinTile <= r.value.tile <= r.value.imageSize / 4
    ensures ParseInt(sizeText).None? ==> r == Err(NotAnInteger)
    ensures ParseInt(sizeText).Some? && ParseInt(sizeText).value < 256 ==> r == Err(ImageTooSmall)
    ensures ParseInt(sizeText).Some? && ParseInt(sizeText).value >= 256 && (ParseInt(targetText).None? || ParseInt(colorText).None?)
      ==> r == Err(NotAnInteger)
    ensures ParseInt(sizeText).Some? && ParseInt(sizeText).value >= 256 && ParseInt(targetText).Some?
      && ParseInt(colorText).Some? && ParseInt(colorText).value < 0
      ==> r == Err(NegativeColorCount)
    // answers passing the three checks are accepted, whatever `int()` read them from
    ensures ParseInt(sizeText).Some? && ParseInt(sizeText).value >= 256 && ParseInt(targetText).Some?
      && ParseInt(colorText).Some? && ParseInt(colorText).value >= 0
      ==> r == Ok(Settings(ParseInt(sizeText).value,
                           FinalTile(ParseInt(sizeText).value, ClosestDivisor(ParseInt(sizeText).value as nat, ParseInt(targetText).value)),
                           if ParseInt(colorText).value == 0 then randomCount else ParseInt(colorText).value))
  {
    match ParseInt(sizeText)
    case None => Err(NotAnInteger)
    case Some(size) =>
      if size < 256 then Err(ImageTooSmall)
      else
        match (ParseInt(targetText), ParseInt(colorText))
        case (None, _) => Err(NotAnInteger)
        case (_, None) => Err(NotAnInteger)
        case (Some(target), Some(colors)) =>
          if colors < 0 then Err(NegativeColorCount)
          else
            var count := if colors == 0 then randomCount else colors;
            Ok(Settings(size, FinalTile(size, ClosestDivisor(size as nat, target)), count))
  }

  /** `find_closest_divisor` as a value, for the input block. */
  function ClosestDivisor(n: nat, target: int): (d: Option<nat>)
    ensures d.None? <==> |Divisors(n)| == 0
    ensures d.Some? ==> d.value == Divisors(n)[FirstClosest(Divisors(n), target)]
  {
    var divs := Divisors(n);
    if |divs| == 0 then None else Some(divs[FirstClosest(divs, target)])
  }

  /** Answers written as plain numbers are accepted when the image is at least 256 pixels, and give those settings. */
  lemma ConfigureAccepts(size: nat, target: nat, colors: nat, randomCount: int)
    requires 5 <= randomCount <= 12 && size >= 256
    ensures Configure(NatToString(size), NatToString(target), NatToString(colors), randomCount)
      == Ok(Settings(size, FinalTile(size, ClosestDivisor(size, target)), if colors == 0 then randomCount else colors))
  {
    ParseIntOfNat(size);
    ParseIntOfNat(target);
    ParseIntOfNat(colors);
  }

  // ---------------------------------------------------------------------
  // The grid of tiles
  // ---------------------------------------------------------------------

  const TileVariations: nat := 4

  /** `(x + y) % tile_variations`, a valid position in the list of four tiles. */
  function TileIndex(x: nat, y: nat): (t: nat)
    ensures t < TileVariations
  {
    (x + y) % TileVariations
  }

  /** Tiles side by side, in a row or in a column, are different variations; along an anti-diagonal they repeat. */
  lemma NeighboursDiffer(x: nat, y: nat)
    ensures TileIndex(x + 1, y) != TileIndex(x, y)
    ensures TileIndex(x, y + 1) != TileIndex(x, y)
    ensures TileIndex(x + 1, y) == TileIndex(x, y + 1)
  {
  }

  /** The paste loop: the tile variation placed at each grid position. */
  method Layout(numTiles: nat) returns (grid: array2<nat>)
    ensures fresh(grid)
    ensures grid.Length0 == numTiles && grid.Length1 == numTiles
    ensures forall x, y :: 0 <= x < numTiles && 0 <= y < numTiles ==> grid[x, y] == TileIndex(x, y)
  {
    grid := new nat[numTiles, numTiles];
    for x := 0 to numTiles
      invariant forall i, j :: 0 <= i < x && 0 <= j < numTiles ==> grid[i, j] == TileIndex(i, j)
    {
      for y := 0 to numTiles
        invariant forall i, j :: 0 <= i < x && 0 <= j < numTiles ==> grid[i, j] == TileIndex(i, j)
        invariant forall j :: 0 <= j < y ==> grid[x, j] == TileIndex(x, j)
      {
        grid[x, y] := TileIndex(x, y);
      }
    }
  }

  /**
   * `num_tiles = image_size // final_tile` whole tiles fit on each side,
   * starting at `x * final_tile`; the strip left over is narrower than a tile
   * and stays unpainted.
   */
  lemma GridFits(imageSize: int, tile: int)
    requires imageSize >= 256 && MinTile <= tile <= imageSize / 4
    ensures var numTiles := imageSize / tile;
      numTiles >= 4 && numTiles * tile <= imageSize < (numTiles + 1) * tile
  {
    var numTiles := imageSize / tile;
    assert imageSize == numTiles * tile + imageSize % tile;
  }

  /** The clamp can give up divisibility: a 257-pixel image gets 64-pixel tiles and a one-pixel strip is left over. */
  lemma ClampLeavesStrip()
    ensures FinalTile(257, Some(1)) == 64 && 257 % 64 == 1
  {
  }
}
