/**
 * The per-row cells of the price axis: labelled tick rows, blank rule rows,
 * and highlighted prices that override either kind.
 */
module AxisRows {
  import opened Wrappers
  import opened PyStr
  import opened Highlights
  import opened YAxis

  /** The vertical rule glyph, U+2502. */
  const Rule: char := '\U{2502}'
  /** The tick mark glyph, U+2015. */
  const Tick: char := '\U{2015}'

  /** `CHAR_PRECISION + DEC_PRECISION + 1`: the width a price label is padded to. */
  function CellMinLength(k: Constants): nat {
    k.charPrecision + k.decPrecision + 1
  }

  /** The label text of the price at row `y`. */
  function RowLabel(ax: Axis, y: int): string
    requires ax.chartData.height != 0
  {
    RoundLabel(ax, RowPrice(ax.chartData, y))
  }

  /**
   * Puts a padded label on its side of the rule: `" │― " + cell` for an axis
   * on the right, `cell + " │―" + '' * MARGIN_RIGHT` for one on the left,
   * where the repeated empty string adds no margin at all.
   */
  function Place(k: Constants, cell: string): (r: string)
    ensures k.yAxisOnTheRight ==> r == [' ', Rule, Tick, ' '] + cell
    ensures !k.yAxisOnTheRight ==> r == cell + [' ', Rule, Tick]
  {
    if k.yAxisOnTheRight then [' ', Rule, Tick, ' '] + cell
    else cell + [' ', Rule, Tick] + Repeat("", k.marginRight)
  }

  /** `Place` applied to a padded cell, or the padding's error passed on. */
  function PlaceResult(k: Constants, cell: Result<string, FormatError>): (r: Result<string, FormatError>)
    ensures r.Ok? <==> cell.Ok?
    ensures cell.Ok? ==> r.value == Place(k, cell.value)
  {
    match cell
    case Ok(s) => Ok(Place(k, s))
    case Err(e) => Err(e)
  }

  /** The column of the rule glyph in every unhighlighted row whose label fits its cell. */
  function RuleColumn(k: Constants): nat {
    if k.yAxisOnTheRight then 1 else CellMinLength(k) + 1
  }

  /**
   * A row with neither label nor highlight: `" │"` on the right; on the left,
   * `CHAR_PRECISION + DEC_PRECISION + 2` spaces, the rule, and
   * `MARGIN_RIGHT + 1` spaces.
   */
  function BlankCell(k: Constants): (r: string)
    ensures k.yAxisOnTheRight ==> r == [' ', Rule]
    ensures !k.yAxisOnTheRight ==> |r| == k.charPrecision + k.decPrecision + k.marginRight + 4
    ensures r[RuleColumn(k)] == Rule
    ensures forall i :: 0 <= i < |r| && i != RuleColumn(k) ==> r[i] == ' '
  {
    if k.yAxisOnTheRight then [' ', Rule]
    else
      var cell := Repeat(" ", k.charPrecision + k.decPrecision + 2);
      var margin := Repeat(" ", k.marginRight + 1);
      cell + [Rule] + margin
  }

  /**
   * The colourised `token`, left-aligned with trailing spaces to the label
   * width widened by the characters that `color` added, where "added" is
   * measured against `base`.
   */
  function PadColorized(ax: Axis, token: string, c: ColorSpec, base: string): (r: Result<string, FormatError>)
    ensures var colorized := ax.color(token, c);
      var width := CellMinLength(ax.constants) + |colorized| - |base|;
      (r.Err? <==> width < 0) &&
      (r.Ok? ==> |r.value| == (if |colorized| < width then width else |colorized|) && r.value[..|colorized|] == colorized) &&
      (r.Ok? ==> forall i :: |colorized| <= i < |r.value| ==> r.value[i] == ' ')
  {
    var colorized := ax.color(token, c);
    FormatLeft(colorized, CellMinLength(ax.constants) + |colorized| - |base|)
  }

  /** Whether `highlights.get(key)` yields a truthy colour. */
  predicate Highlighted(hl: HighlightMap, key: string) {
    Get(hl, key).Some? && Truthy(Get(hl, key).value)
  }

  /**
   * `_render_tick`: the labelled row `y`. A label that is a key with a truthy
   * colour is shown colourised; every other label is padded as it is. The
   * row fails to render exactly when its label is highlighted and the
   * colourised label is shorter than the label by more than the cell width;
   * so with a `color` that never shortens its text, every tick row renders.
   */
  function RenderTick(ax: Axis, y: int, hl: HighlightMap): (r: Result<string, FormatError>)
    requires ax.chartData.height > 0
    ensures var text := RowLabel(ax, y);
      r.Err? <==>
        Highlighted(hl, text) &&
        CellMinLength(ax.constants) + |ax.color(text, Get(hl, text).value)| < |text|
  {
    var k := ax.constants;
    var price := RowLabel(ax, y);
    if Highlighted(hl, price) then
      PlaceResult(k, PadColorized(ax, price, Get(hl, price).value, price))
    else
      PlaceResult(k, FormatLeft(price, CellMinLength(k)))
  }

  /** `price < target < price_upper`, with Python's string order on both sides. */
  predicate InBand(lo: string, t: string, hi: string) {
    LexLess(lo, t) && LexLess(t, hi)
  }

  /** The position of the first key, in iteration order, strictly between `lo` and `hi`. */
  function FirstBand(hl: HighlightMap, lo: string, hi: string): (r: Option<nat>)
    ensures r.Some? ==> r.value < |hl| && InBand(lo, hl[r.value].price, hi)
    ensures r.Some? ==> forall j :: 0 <= j < r.value ==> !InBand(lo, hl[j].price, hi)
    ensures r.None? <==> forall j :: 0 <= j < |hl| ==> !InBand(lo, hl[j].price, hi)
    decreases |hl|
  {
    if |hl| == 0 then None
    else if InBand(lo, hl[0].price, hi) then Some(0)
    else match FirstBand(hl[1..], lo, hi)
      case None => None
      case Some(i) => Some(i + 1)
  }

  /** `if highlights and y`: band promotion is tried only with a non-empty dictionary on a row other than 0. */
  predicate Attempts(y: int, highlights: Option<HighlightMap>) {
    highlights.Some? && |highlights.value| > 0 && y != 0
  }

  /** The source divides by the height only when it tries band promotion. */
  predicate EmptyRowDefined(ax: Axis, y: int, highlights: Option<HighlightMap>) {
    Attempts(y, highlights) ==> ax.chartData.height > 0
  }

  /**
   * What `render_empty` returns: the first key strictly between the labels
   * of rows `y` and `y + 1` is shown colourised, padded against the length
   * of row `y`'s own label; without such a key the row is blank. Row 0 and
   * a missing or empty dictionary always give the blank row, and only a
   * promoted row can fail to render.
   */
  function EmptyRow(ax: Axis, y: int, highlights: Option<HighlightMap>): (r: Result<string, FormatError>)
    requires EmptyRowDefined(ax, y, highlights)
    ensures !Attempts(y, highlights) ==> r == Ok(BlankCell(ax.constants))
    ensures r.Err? ==>
      Attempts(y, highlights) && FirstBand(highlights.value, RowLabel(ax, y), RowLabel(ax, y + 1)).Some?
  {
    if Attempts(y, highlights) then
      var hl := highlights.value;
      var price := RowLabel(ax, y);
      var priceUpper := RowLabel(ax, y + 1);
      match FirstBand(hl, price, priceUpper)
      case Some(i) => PlaceResult(ax.constants, PadColorized(ax, hl[i].price, hl[i].color, price))
      case None => Ok(BlankCell(ax.constants))
    else
      Ok(BlankCell(ax.constants))
  }

  /** `render_empty`: scans the highlights in order and returns on the first key in the row's band. */
  method RenderEmpty(ax: Axis, y: int, highlights: Option<HighlightMap>) returns (r: Result<string, FormatError>)
    requires EmptyRowDefined(ax, y, highlights)
    ensures r == EmptyRow(ax, y, highlights)
  {
    if highlights.Some? && |highlights.value| > 0 && y != 0 {
      var hl := highlights.value;
      var price := RowLabel(ax, y);
      var priceUpper := RowLabel(ax, y + 1);
      var i := 0;
      while i < |hl|
        invariant 0 <= i <= |hl|
        invariant forall j :: 0 <= j < i ==> !InBand(price, hl[j].price, priceUpper)
      {
        var target := hl[i].price;
        if InBand(price, target, priceUpper) {
          var cell := PadColorized(ax, target, hl[i].color, price);
          r := PlaceResult(ax.constants, cell);
          assert FirstBand(hl, price, priceUpper) == Some(i);
          return;
        }
        i := i + 1;
      }
      assert FirstBand(hl, price, priceUpper).None?;
    }
    r := Ok(BlankCell(ax.constants));
  }

  /**
   * `render_line`: a row whose index is a multiple of `Y_AXIS_SPACING` is a
   * tick row, given the highlights or an empty dictionary in place of none;
   * every other row is rendered by `render_empty` with the highlights as given.
   */
  method RenderLine(ax: Axis, y: int, highlights: Option<HighlightMap>) returns (r: Result<string, FormatError>)
    requires ax.constants.yAxisSpacing != 0
    requires y % ax.constants.yAxisSpacing == 0 ==> ax.chartData.height > 0
    requires y % ax.constants.yAxisSpacing != 0 ==> EmptyRowDefined(ax, y, highlights)
    ensures y % ax.constants.yAxisSpacing != 0 ==> r == EmptyRow(ax, y, highlights)
    ensures y % ax.constants.yAxisSpacing == 0 ==>
      r == RenderTick(ax, y, if highlights.Some? then highlights.value else [])
  {
    if y % ax.constants.yAxisSpacing != 0 {
      r := RenderEmpty(ax, y, highlights);
    } else {
      r := RenderTick(ax, y, if highlights.Some? then highlights.value else []);
    }
  }

  /** The number of characters `Place` adds around a cell. */
  function RuleWidth(k: Constants): nat {
    if k.yAxisOnTheRight then 4 else 3
  }

  /**
   * An unhighlighted tick row shows its label whole, followed by spaces up to
   * `CHAR_PRECISION + DEC_PRECISION + 1` characters, after `" │― "` on the
   * right or before `" │―"` on the left.
   */
  lemma TickRowPlain(ax: Axis, y: int, hl: HighlightMap)
    requires ax.chartData.height > 0
    requires !Highlighted(hl, RowLabel(ax, y))
    ensures var text := RowLabel(ax, y);
      var width := CellMinLength(ax.constants);
      var row := RenderTick(ax, y, hl);
      row.Ok? &&
      |row.value| == RuleWidth(ax.constants) + (if |text| < width then width else |text|) &&
      (ax.constants.yAxisOnTheRight ==>
        row.value[..4] == [' ', Rule, Tick, ' '] &&
        row.value[4..4 + |text|] == text &&
        forall i :: 4 + |text| <= i < |row.value| ==> row.value[i] == ' ') &&
      (!ax.constants.yAxisOnTheRight ==>
        row.value[..|text|] == text &&
        (forall i :: |text| <= i < |row.value| - 3 ==> row.value[i] == ' ') &&
        row.value[|row.value| - 3..] == [' ', Rule, Tick])
  {
  }

  /**
   * A highlighted tick row shows the colourised label, padded with trailing
   * spaces, after `" │― "` on the right or before `" │―"` on the left; it is longer
   * than the unhighlighted row for the same label by exactly the number of
   * characters that `color` added.
   */
  lemma TickRowHighlighted(ax: Axis, y: int, hl: HighlightMap)
    requires ax.chartData.height > 0
    requires Highlighted(hl, RowLabel(ax, y))
    requires var text := RowLabel(ax, y);
      CellMinLength(ax.constants) + |ax.color(text, Get(hl, text).value)| >= |text|
    ensures var text := RowLabel(ax, y);
      var colorized := ax.color(text, Get(hl, text).value);
      var width := CellMinLength(ax.constants);
      var row := RenderTick(ax, y, hl);
      row.Ok? &&
      |row.value| == RuleWidth(ax.constants) + (if |text| < width then width else |text|) + |colorized| - |text| &&
      (ax.constants.yAxisOnTheRight ==>
        row.value[..4] == [' ', Rule, Tick, ' '] &&
        row.value[4..4 + |colorized|] == colorized &&
        forall i :: 4 + |colorized| <= i < |row.value| ==> row.value[i] == ' ') &&
      (!ax.constants.yAxisOnTheRight ==>
        row.value[..|colorized|] == colorized &&
        (forall i :: |colorized| <= i < |row.value| - 3 ==> row.value[i] == ' ') &&
        row.value[|row.value| - 3..] == [' ', Rule, Tick])
  {
    var text := RowLabel(ax, y);
    var colorized := ax.color(text, Get(hl, text).value);
    var cell := PadColorized(ax, text, Get(hl, text).value, text).value;
    var row := RenderTick(ax, y, hl).value;
    if ax.constants.yAxisOnTheRight {
      assert row == [' ', Rule, Tick, ' '] + cell;
      assert row[4..4 + |colorized|] == cell[..|colorized|];
    } else {
      assert row == cell + [' ', Rule, Tick];
      assert row[..|colorized|] == cell[..|colorized|];
    }
  }

  /**
   * The rule glyph stands in the same column in a blank row and in an
   * unhighlighted tick row whose label fits its cell, on either side.
   */
  lemma RuleColumnAligned(ax: Axis, y: int, hl: HighlightMap)
    requires ax.chartData.height > 0
    requires !Highlighted(hl, RowLabel(ax, y))
    requires |RowLabel(ax, y)| <= CellMinLength(ax.constants)
    ensures RenderTick(ax, y, hl).Ok?
    ensures RuleColumn(ax.constants) < |RenderTick(ax, y, hl).value|
    ensures RenderTick(ax, y, hl).value[RuleColumn(ax.constants)] == Rule
    ensures BlankCell(ax.constants)[RuleColumn(ax.constants)] == Rule
  {
  }

  /** Over an empty price window every tick row is the same, whatever its index. */
  lemma FlatWindowTicksAgree(ax: Axis, y1: int, y2: int, hl: HighlightMap)
    requires ax.chartData.height > 0 && ax.chartData.minPrice == ax.chartData.maxPrice
    ensures RenderTick(ax, y1, hl) == RenderTick(ax, y2, hl)
  {
  }

  /** With equal or falling labels no key lies strictly between them, so no key is found. */
  lemma NoBandUnlessRising(hl: HighlightMap, lo: string, hi: string)
    requires !LexLess(lo, hi)
    ensures FirstBand(hl, lo, hi).None?
  {
    forall j | 0 <= j < |hl|
      ensures !InBand(lo, hl[j].price, hi)
    {
      if InBand(lo, hl[j].price, hi) {
        BetweenMeansOrdered(lo, hl[j].price, hi);
      }
    }
  }

  /** Over an empty price window no row is promoted: every non-tick row is blank. */
  lemma FlatWindowRowsBlank(ax: Axis, y: int, highlights: Option<HighlightMap>)
    requires EmptyRowDefined(ax, y, highlights)
    requires ax.chartData.minPrice == ax.chartData.maxPrice
    ensures EmptyRow(ax, y, highlights) == Ok(BlankCell(ax.constants))
  {
    if Attempts(y, highlights) {
      LexLessIrreflexive(RowLabel(ax, y));
      NoBandUnlessRising(highlights.value, RowLabel(ax, y), RowLabel(ax, y + 1));
    }
  }

  /**
   * A non-tick row is blank exactly when promotion is not tried (no
   * highlights, an empty dictionary, or row 0) or no key lies in its band.
   */
  lemma BlankUnlessPromoted(ax: Axis, y: int, highlights: Option<HighlightMap>)
    requires EmptyRowDefined(ax, y, highlights)
    ensures EmptyRow(ax, y, highlights) == Ok(BlankCell(ax.constants)) <==>
      !Attempts(y, highlights) ||
      FirstBand(highlights.value, RowLabel(ax, y), RowLabel(ax, y + 1)).None?
  {
    var k := ax.constants;
    if Attempts(y, highlights) {
      var hl := highlights.value;
      var price := RowLabel(ax, y);
      var band := FirstBand(hl, price, RowLabel(ax, y + 1));
      if band.Some? {
        var cell := PadColorized(ax, hl[band.value].price, hl[band.value].color, price);
        if cell.Ok? {
          var row := Place(k, cell.value);
          var blank := BlankCell(k);
          if k.yAxisOnTheRight {
            assert |row| >= 4 && |blank| == 2;
          } else {
            assert row[|row| - 1] == Tick;
            assert blank[|blank| - 1] == ' ';
          }
        }
      }
    }
  }

  /**
   * A promoted row shows the first key, in iteration order, that lies
   * strictly between the labels of rows `y` and `y + 1`; a key equal to
   * either label never qualifies. Its colourised text is padded against
   * the length of row `y`'s label rather than the key's, and the row fails
   * to render exactly when that width is negative; a row that renders shows
   * that key's colourised text next to the rule, on the axis's side.
   */
  lemma PromotedRow(ax: Axis, y: int, highlights: Option<HighlightMap>)
    requires Attempts(y, highlights) && ax.chartData.height > 0
    requires FirstBand(highlights.value, RowLabel(ax, y), RowLabel(ax, y + 1)).Some?
    ensures var hl := highlights.value;
      var price := RowLabel(ax, y);
      var priceUpper := RowLabel(ax, y + 1);
      var i := FirstBand(hl, price, priceUpper).value;
      var colorized := ax.color(hl[i].price, hl[i].color);
      var width := CellMinLength(ax.constants) + |colorized| - |price|;
      var row := EmptyRow(ax, y, highlights);
      LexLess(price, priceUpper) && hl[i].price != price && hl[i].price != priceUpper &&
      (forall j :: 0 <= j < i ==> !InBand(price, hl[j].price, priceUpper)) &&
      (row.Err? <==> width < 0) &&
      (row.Ok? ==> |row.value| == RuleWidth(ax.constants) + (if |colorized| < width then width else |colorized|)) &&
      (row.Ok? && ax.constants.yAxisOnTheRight ==>
        row.value[..4] == [' ', Rule, Tick, ' '] && row.value[4..4 + |colorized|] == colorized &&
        forall i :: 4 + |colorized| <= i < |row.value| ==> row.value[i] == ' ') &&
      (row.Ok? && !ax.constants.yAxisOnTheRight ==>
        row.value[..|colorized|] == colorized &&
        (forall i :: |colorized| <= i < |row.value| - 3 ==> row.value[i] == ' ') &&
        row.value[|row.value| - 3..] == [' ', Rule, Tick])
  {
    var hl := highlights.value;
    var price := RowLabel(ax, y);
    var priceUpper := RowLabel(ax, y + 1);
    var i := FirstBand(hl, price, priceUpper).value;
    BetweenMeansOrdered(price, hl[i].price, priceUpper);
    var colorized := ax.color(hl[i].price, hl[i].color);
    var cell := PadColorized(ax, hl[i].price, hl[i].color, price);
    if cell.Ok? {
      var row := Place(ax.constants, cell.value);
      if ax.constants.yAxisOnTheRight {
        assert row[4..4 + |colorized|] == cell.value[..|colorized|];
      } else {
        assert row[..|colorized|] == cell.value[..|colorized|];
      }
    }
  }
}
