/**
 * The price axis of the terminal candlestick chart: the chart's constants,
 * the visible window, the `YAxis` object itself, the linear price-to-row map
 * and the direction-biased rounding of axis prices.
 */
module YAxis {
  import opened Highlights

  /** The module-level constants the axis reads. */
  datatype Constants = Constants(
    charPrecision: nat,
    decPrecision: nat,
    yAxisSpacing: int,
    yAxisRoundMultiplier: real,
    yAxisRoundDir: string,
    yAxisOnTheRight: bool,
    marginRight: nat)

  /** One candle's prices. */
  datatype Candle = Candle(open: real, high: real, low: real, close: real)

  function Min(a: real, b: real): real { if a <= b then a else b }
  function Max(a: real, b: real): real { if a <= b then b else a }

  /** A candle whose wick encloses its body. */
  predicate WellFormed(c: Candle) {
    c.low <= Min(c.open, c.close) && Max(c.open, c.close) <= c.high
  }

  /** The part of the chart data the axis reads: the visible price extremes and the plot height in rows. */
  datatype ChartData = ChartData(minPrice: real, maxPrice: real, height: int)

  /**
   * A `YAxis` object: its `chart_data`, which it never changes, together with
   * the constants it reads and the two foreign helpers it calls, `fnum`
   * (number to label text) and `color` (wraps a text in colour codes).
   */
  datatype Axis = Axis(
    chartData: ChartData,
    constants: Constants,
    fnum: real -> string,
    color: (string, ColorSpec) -> string)

  /** The four row offsets of one candle, in the order the source returns them. */
  datatype Heights = Heights(highY: real, lowY: real, maxY: real, minY: real)

  /** `(max_price - min_price) or 1`: the visible price range, with 1 standing in for an empty range. */
  function Span(d: ChartData): (r: real)
    ensures r != 0.0
    ensures d.maxPrice != d.minPrice ==> r == d.maxPrice - d.minPrice
    ensures d.maxPrice == d.minPrice ==> r == 1.0
  {
    if d.maxPrice - d.minPrice == 0.0 then 1.0 else d.maxPrice - d.minPrice
  }

  /**
   * The fractional row at which price `p` is drawn; the bottom of the window
   * lands on row 0, and (`ScaleTop`) the top of a non-empty window on row `height`.
   */
  function Scale(d: ChartData, p: real): (r: real)
    ensures p == d.minPrice ==> r == 0.0
  {
    (p - d.minPrice) / Span(d) * d.height as real
  }

  /** `price_to_heights`: the offsets of the high, the low, the body top and the body bottom. */
  function PriceToHeights(d: ChartData, c: Candle): (r: Heights)
    ensures r.highY == Scale(d, c.high) && r.lowY == Scale(d, c.low)
    ensures r.maxY == Scale(d, Max(c.open, c.close))
    ensures r.minY == Scale(d, Min(c.open, c.close))
  {
    var minOpen := if c.open < c.close then c.open else c.close;
    var maxOpen := if c.open > c.close then c.open else c.close;
    Heights(Scale(d, c.high), Scale(d, c.low), Scale(d, maxOpen), Scale(d, minOpen))
  }

  /** Over an ordered window and a non-negative height, a higher price never lands on a lower row. */
  lemma ScaleMonotone(d: ChartData, p: real, q: real)
    requires p <= q && d.minPrice <= d.maxPrice && d.height >= 0
    ensures Scale(d, p) <= Scale(d, q)
  {
    // At the bottom of the window `Scale`'s own contract already fixes the row at 0.
    if p == d.minPrice {
      ScaledOrder(0.0, q - d.minPrice, Span(d), d.height as real);
    } else {
      ScaledOrder(p - d.minPrice, q - d.minPrice, Span(d), d.height as real);
    }
  }

  /** For a non-empty window the top of the window lands on row `height`. */
  lemma ScaleTop(d: ChartData)
    requires d.minPrice != d.maxPrice
    ensures Scale(d, d.maxPrice) == d.height as real
  {
  }

  /** The offsets of a well-formed candle are ordered like its prices: low, body bottom, body top, high. */
  lemma PriceToHeightsOrdered(d: ChartData, c: Candle)
    requires WellFormed(c) && d.minPrice <= d.maxPrice && d.height >= 0
    ensures var r := PriceToHeights(d, c); r.lowY <= r.minY <= r.maxY <= r.highY
  {
    ScaleMonotone(d, c.low, Min(c.open, c.close));
    ScaleMonotone(d, Min(c.open, c.close), Max(c.open, c.close));
    ScaleMonotone(d, Max(c.open, c.close), c.high);
  }

  /**
   * The price shown at row `y`, `min + y * (max - min) / height`: row 0 shows
   * the bottom of the window, row `height` its top, and over an empty window
   * every row shows the window's price.
   */
  function RowPrice(d: ChartData, y: int): (r: real)
    requires d.height != 0
    ensures y == 0 ==> r == d.minPrice
    ensures y == d.height ==> r == d.maxPrice
    ensures d.minPrice == d.maxPrice ==> r == d.minPrice
  {
    d.minPrice + (y as real * (d.maxPrice - d.minPrice) / d.height as real)
  }

  /** For a non-empty window the axis prices rise strictly from row to row. */
  lemma RowPriceIncreasing(d: ChartData, y: int)
    requires d.height > 0 && d.minPrice < d.maxPrice
    ensures RowPrice(d, y) < RowPrice(d, y + 1)
  {
    StepUp(y as real, d.maxPrice - d.minPrice, d.height as real);
  }

  /** Over a non-empty window, the row-to-price map of the axis and the price-to-row map of the plot are inverse. */
  lemma ScaleInvertsRowPrice(d: ChartData, y: int)
    requires d.height > 0 && d.minPrice != d.maxPrice
    ensures Scale(d, RowPrice(d, y)) == y as real
  {
    var w := d.maxPrice - d.minPrice;
    var h := d.height as real;
    assert RowPrice(d, y) - d.minPrice == y as real * w / h;
    Cancel(y as real, w, h);
  }

  /** Dividing by a positive `s` and scaling by a non-negative `h` keeps order. */
  lemma ScaledOrder(a: real, b: real, s: real, h: real)
    requires a <= b && s > 0.0 && h >= 0.0
    ensures a / s * h <= b / s * h
  {
    assert a / s <= b / s;
  }

  /** One more step of a positive width `w / h` gives a strictly larger value. */
  lemma StepUp(y: real, w: real, h: real)
    requires w > 0.0 && h > 0.0
    ensures y * w / h < (y + 1.0) * w / h
  {
    assert (y + 1.0) * w / h == y * w / h + w / h;
  }

  /** Scaling by `w / h` and back by `h / w` is the identity. */
  lemma Cancel(y: real, w: real, h: real)
    requires w != 0.0 && h != 0.0
    ensures y * w / h / w * h == y
  {
    assert y * w / h / w == y / h;
  }

  /** Floor, as Dafny provides it. */
  function Floor(x: real): (r: int)
    ensures r as real <= x < r as real + 1.0
  {
    x.Floor
  }

  /** Ceiling, written with the floor that Dafny provides. */
  function Ceil(x: real): (r: int)
    ensures r as real - 1.0 < x <= r as real
  {
    -((-x).Floor)
  }

  /**
   * The whole number of grid steps a price rounds to, for a positive
   * multiplier `m`: the floor of `v*m` for direction `"down"` and its
   * ceiling for every other direction string.
   */
  function GridIndex(k: Constants, v: real): (n: int)
    requires k.yAxisRoundMultiplier > 0.0
    ensures k.yAxisRoundDir == "down" ==> n as real <= v * k.yAxisRoundMultiplier < n as real + 1.0
    ensures k.yAxisRoundDir != "down" ==> n as real - 1.0 < v * k.yAxisRoundMultiplier <= n as real
  {
    var m := k.yAxisRoundMultiplier;
    if k.yAxisRoundDir == "down" then Floor(v * m) else Ceil(v * m)
  }

  /**
   * The numeric part of `_round_price`: with a positive multiplier `m`, the
   * price is scaled by `m`, floored or ceiled by direction, and scaled back,
   * so it lands on the grid of multiples of `1/m`; otherwise it is left
   * alone. Rounding is thus biased by direction: down never overshoots and
   * up never undershoots, each by less than one grid step `1/m`.
   */
  function RoundPrice(k: Constants, v: real): (r: real)
    ensures k.yAxisRoundMultiplier <= 0.0 ==> r == v
    ensures k.yAxisRoundMultiplier > 0.0 && k.yAxisRoundDir == "down" ==>
      r <= v < r + 1.0 / k.yAxisRoundMultiplier
    ensures k.yAxisRoundMultiplier > 0.0 && k.yAxisRoundDir != "down" ==>
      r - 1.0 / k.yAxisRoundMultiplier < v <= r
  {
    if k.yAxisRoundMultiplier > 0.0 then GridIndex(k, v) as real / k.yAxisRoundMultiplier
    else v
  }

  /**
   * With a positive multiplier `m` the rounded price lies on the grid of
   * multiples of `1/m`: it is `GridIndex` steps of `1/m`, that is
   * `floor(v*m)/m` rounding down and `ceil(v*m)/m` in any other direction.
   */
  lemma RoundPriceOnGrid(k: Constants, v: real)
    requires k.yAxisRoundMultiplier > 0.0
    ensures RoundPrice(k, v) * k.yAxisRoundMultiplier == GridIndex(k, v) as real
  {
    assert GridIndex(k, v) as real / k.yAxisRoundMultiplier * k.yAxisRoundMultiplier == GridIndex(k, v) as real;
  }

  /** Rounding an already rounded price changes nothing. */
  lemma RoundPriceIdempotent(k: Constants, v: real)
    ensures RoundPrice(k, RoundPrice(k, v)) == RoundPrice(k, v)
  {
    var m := k.yAxisRoundMultiplier;
    if m > 0.0 {
      var r := RoundPrice(k, v);
      var n := GridIndex(k, v);
      assert r * m == n as real by {
        assert n as real / m * m == n as real;
      }
      var n' := GridIndex(k, r);
      assert n' == n;
    }
  }

  /** Rounding keeps the order of prices, so rounded axis prices never fall from row to row. */
  lemma RoundPriceMonotone(k: Constants, v: real, w: real)
    requires v <= w
    ensures RoundPrice(k, v) <= RoundPrice(k, w)
  {
    var m := k.yAxisRoundMultiplier;
    if m > 0.0 {
      assert v * m <= w * m;
      var a := GridIndex(k, v);
      var b := GridIndex(k, w);
      assert a <= b;
      assert b as real / m - a as real / m == (b as real - a as real) / m;
    }
  }

  /** The rounded prices of successive axis rows never fall. */
  lemma RoundedRowPricesRise(k: Constants, d: ChartData, y: int)
    requires d.height > 0 && d.minPrice <= d.maxPrice
    ensures RoundPrice(k, RowPrice(d, y)) <= RoundPrice(k, RowPrice(d, y + 1))
  {
    if d.minPrice < d.maxPrice {
      RowPriceIncreasing(d, y);
    }
    RoundPriceMonotone(k, RowPrice(d, y), RowPrice(d, y + 1));
  }

  /** `_round_price`: the rounded price as label text; without rounding the price reaches `fnum` unchanged. */
  function RoundLabel(ax: Axis, v: real): (r: string)
    ensures ax.constants.yAxisRoundMultiplier <= 0.0 ==> r == ax.fnum(v)
  {
    ax.fnum(RoundPrice(ax.constants, v))
  }
}
