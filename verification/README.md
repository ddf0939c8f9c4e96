# Price axis of the terminal candlestick chart, in Dafny

This project models the `YAxis` class of `py-candlestick-chart`
(`src/candlestick_chart/y_axis.py`). The class is the vertical price axis of a
candlestick chart drawn in a terminal. It does three things:

- **Price to row.** `price_to_heights` maps a candle's high, low, body top and
  body bottom linearly onto the plot height. An empty visible price range is
  replaced by 1, so the map never divides by zero.
- **Rounding.** `_round_price` rounds an axis price down or up on a grid of
  step `1 / Y_AXIS_ROUND_MULTIPLIER`, then turns it into label text with `fnum`.
- **Axis cells.** `render_line`, `_render_tick` and `render_empty` produce the
  axis cell of one screen row.
  - A row whose index is a multiple of `Y_AXIS_SPACING` is a tick row and
    carries a padded price label.
  - Any other row is a blank rule row.
  - Both kinds can be overridden by highlighted prices.

Files and modules:

- `wrappers.dfy` (`Wrappers`): `Option`, and `Result` for errors that Python would raise.
- `py_str.dfy` (`PyStr`): the Python string behaviour the renderer relies on:
  - `<` on `str` (lexicographic by code point, with its order laws);
  - `s * n`;
  - `f"{s:<{w}}"`, including the `ValueError` raised for a negative width.
- `highlights.dfy` (`Highlights`): the `highlights` dictionary.
  - It is a sequence of entries in iteration (insertion) order.
  - `Get` is `dict.get`.
  - `Truthy` gives the Python truthiness of a colour value.
- `y_axis.dfy` (`YAxis`): the data model and the numeric side.
  - The data model: the module constants, the chart data, and `Axis` (the `YAxis` object).
  - The numeric operations: the linear map `Scale`, `PriceToHeights`, the row price `RowPrice`, and rounding.
- `axis_rows.dfy` (`AxisRows`): the row renderers and the lemmas about them.
  - `render_empty` holds the source's one loop. Here it is the method
    `RenderEmpty`, proved equal to the specification function `EmptyRow`.
  - `render_line` is the method `RenderLine`.

Modelling choices:

- **The `YAxis` object.** It never changes its `chart_data`, so it is a value,
  `Axis`. The module-level `constants` are an immutable `Constants` record in it.
- **Foreign helpers.** `fnum` (from `utils`) and `color` (from `colors`) are
  function-valued fields of `Axis`. Nothing is assumed about them except where
  a lemma says so in its `requires`.
- **Prices** are `real`.
- **Errors.** `f"{s:<{w}}"` with a negative `w` raises `ValueError` in Python.
  Here it gives `Err(SignNotAllowed)`. This can happen in a highlighted cell
  when the colourised text is much shorter than the text it is measured against.
- **`y % Y_AXIS_SPACING == 0`.** For a non-zero spacing this test means the
  same under Python's floored `%` and Dafny's Euclidean `%`.

Behaviour of the code worth knowing:

- **The band test compares strings, not numbers.** `price < target_price <
  price_upper` (`y_axis.py:76`) compares the formatted label strings in
  Python's string order. `StringOrderIsNotNumeric` shows the two orders differ.
- **Labels are padded on the right and never truncated.** The code pads with
  trailing spaces (`:<`) and keeps long labels whole.
- **Rounding direction and multiplier.** Any direction string other than
  `"down"` rounds up. Any multiplier `<= 0` disables rounding.
- **Highlight width is counted in characters.** A highlighted tick cell is
  longer than the plain cell by exactly the characters `color` added. Its
  displayed width stays equal only if those characters are invisible, and that
  is a property of `color`, which is not modelled.
- **A promoted blank row is padded against the row's own label.** Its width
  is computed from the length of the row's label (`len(price)`, line 80), not
  the length of the key it shows.
- **The left tick row has no margin.** It ends with `'' * MARGIN_RIGHT`,
  which is always empty. A blank left row, in contrast, ends with
  `MARGIN_RIGHT + 1` spaces.

## Model

| member | source | states |
|---|---|---|
| `YAxis.Span` | src/candlestick_chart/y_axis.py:26 | the divisor is never zero: it is `max - min` when the range is non-empty and 1 when the range is empty |
| `YAxis.PriceToHeights` | src/candlestick_chart/y_axis.py:23-33 | the four offsets come in the fixed order high, low, body top `max(open, close)`, body bottom `min(open, close)`, each the linear map of its price |
| `YAxis.ScaleMonotone` | src/candlestick_chart/y_axis.py:26-32 | over an ordered window with height >= 0, a higher price never maps to a lower row |
| `YAxis.PriceToHeightsOrdered` | src/candlestick_chart/y_axis.py:23-32 | for a well-formed candle (low <= body <= high), `low_y <= min_y <= max_y <= high_y` |
| `YAxis.Scale` | src/candlestick_chart/y_axis.py:29-32 | a price equal to `min_price` maps to row 0 |
| `YAxis.ScaleTop` | src/candlestick_chart/y_axis.py:25-32 | for a non-empty window `max_price` maps to row `height` |
| `YAxis.RowPrice` | src/candlestick_chart/y_axis.py:105 | the axis price at row 0 is `min_price` and at row `height` is `max_price`; over an empty window every row's price is the window's price |
| `YAxis.RowPriceIncreasing` | src/candlestick_chart/y_axis.py:68-73 | over a non-empty window the axis price at row `y + 1` is strictly above the one at row `y` |
| `YAxis.ScaleInvertsRowPrice` | src/candlestick_chart/y_axis.py:105 | over a non-empty window (`min_price != max_price`) with a positive height, the axis's row-to-price map and the plot's price-to-row map are inverse: row `y`'s price maps back to row `y` |
| `YAxis.GridIndex` | src/candlestick_chart/y_axis.py:43-46 | with a positive multiplier `m`, the grid index is the floor of `v*m` for `"down"` and its ceiling for any other direction |
| `YAxis.RoundPriceOnGrid` | src/candlestick_chart/y_axis.py:41-46 | with a positive multiplier `m`, the rounded price times `m` is exactly the grid index, so the result is `floor(v*m)/m` rounding down and `ceil(v*m)/m` otherwise |
| `YAxis.RoundPrice` | src/candlestick_chart/y_axis.py:41-46 | rounding down gives `r <= v < r + 1/m`; rounding in any other direction gives `r - 1/m < v <= r`; with `m <= 0` the price is unchanged |
| `YAxis.RoundPriceIdempotent` | src/candlestick_chart/y_axis.py:41-46 | rounding an already rounded price leaves it unchanged |
| `YAxis.RoundPriceMonotone` | src/candlestick_chart/y_axis.py:41-46 | rounding preserves the order of prices |
| `YAxis.RoundedRowPricesRise` | src/candlestick_chart/y_axis.py:68-73 | over an ordered window (`min_price <= max_price`) with a positive height, the rounded prices of successive rows never fall |
| `YAxis.RoundLabel` | src/candlestick_chart/y_axis.py:35-47 | with a multiplier `<= 0` the price reaches `fnum` unchanged |
| `PyStr.LexLess` | src/candlestick_chart/y_axis.py:76 | Python's `<` on `str`: a proper prefix is below the longer string; otherwise the first differing code point decides |
| `PyStr.LexLessIrreflexive` | src/candlestick_chart/y_axis.py:76 | no string is below itself in Python's string order |
| `PyStr.LexLessTransitive` | src/candlestick_chart/y_axis.py:76 | Python's string order is transitive |
| `PyStr.LexLessTotal` | src/candlestick_chart/y_axis.py:76 | any two distinct strings are ordered one way or the other |
| `PyStr.BetweenMeansOrdered` | src/candlestick_chart/y_axis.py:76 | a key strictly between two labels differs from both, and the labels are strictly ordered |
| `PyStr.StringOrderIsNotNumeric` | src/candlestick_chart/y_axis.py:76 | the band test's order is not numeric: `"100.00" < "99.50"` as strings |
| `PyStr.Repeat` | src/candlestick_chart/y_axis.py:92-93 | `s * n` has length `|s| * n` (0 when `n <= 0`) and, for a one-character `s`, consists of that character |
| `PyStr.FormatLeft` | src/candlestick_chart/y_axis.py:112 | left alignment fails exactly when the width is negative; otherwise the result keeps the whole text, followed by spaces up to the width, and is never truncated |
| `Highlights.Get` | src/candlestick_chart/y_axis.py:107 | `dict.get` returns a colour only when an entry has exactly that key, and returns `None` exactly when no entry has it |
| `Highlights.GetStoredKey` | src/candlestick_chart/y_axis.py:107 | in a dictionary (distinct keys), looking up a stored key yields the colour stored with it |
| `AxisRows.RowLabel` | src/candlestick_chart/y_axis.py:68-73 | the label of row `y` is the rounded, `fnum`-formatted price `min + y * (max - min) / height`; the band's upper label is the same at `y + 1` (and the tick label at line 105 is the same expression) |
| `AxisRows.Attempts` | src/candlestick_chart/y_axis.py:61 | `if highlights and y`: band promotion is tried only with a non-empty dictionary on a row other than 0 |
| `AxisRows.Highlighted` | src/candlestick_chart/y_axis.py:107 | `custom_color := highlights.get(price)` is truthy: the label is a key and its colour is not the empty name |
| `AxisRows.Place` | src/candlestick_chart/y_axis.py:114-117 | a right-axis cell is `" │― " + cell`; a left-axis cell is `cell + " │―"`, because the repeated empty margin adds nothing |
| `AxisRows.BlankCell` | src/candlestick_chart/y_axis.py:89-94 | a right blank row is `" │"`; a left blank row has length `CHAR_PRECISION + DEC_PRECISION + MARGIN_RIGHT + 4`; both are spaces except the rule at its column |
| `AxisRows.PadColorized` | src/candlestick_chart/y_axis.py:79-81 | the colourised text is padded with trailing spaces to the label width plus `len(colorized) - len(base)`, never truncated; it fails exactly when that width is negative |
| `AxisRows.FirstBand` | src/candlestick_chart/y_axis.py:75-78 | returns the first entry, in iteration order, whose key is strictly between the two labels, or none exactly when no key is |
| `AxisRows.EmptyRow` | src/candlestick_chart/y_axis.py:58-94 | row 0 and a missing or empty dictionary give the blank row, and only a row promoted by an in-band key can fail (the full characterisation: `BlankUnlessPromoted`, `PromotedRow`) |
| `AxisRows.RenderEmpty` | src/candlestick_chart/y_axis.py:58-94 | the loop returns what `EmptyRow` specifies: the first in-band key, colourised and placed, or else the blank row |
| `AxisRows.RenderLine` | src/candlestick_chart/y_axis.py:49-56 | a row with `y % Y_AXIS_SPACING == 0` is a tick row, with missing highlights given as an empty dictionary; every other row is an empty row with the highlights as given |
| `AxisRows.TickRowPlain` | src/candlestick_chart/y_axis.py:104-117 | an unhighlighted tick row shows its whole label padded with trailing spaces to `CHAR_PRECISION + DEC_PRECISION + 1`, after `" │― "` (right axis) or before `" │―"` (left axis) |
| `AxisRows.TickRowHighlighted` | src/candlestick_chart/y_axis.py:107-117 | when the label is a key with a truthy colour and the colourised cell's width `CHAR_PRECISION + DEC_PRECISION + 1 + len(colorized) - len(label)` is non-negative, the row shows the colourised label padded with trailing spaces, after `" │― "` (right axis) or before `" │―"` (left axis), and is longer than the plain row by exactly the characters `color` added |
| `AxisRows.RenderTick` | src/candlestick_chart/y_axis.py:96-118 | a tick row fails to render exactly when its label is a key with a truthy colour and the colourised label is shorter than the label by more than the cell width (its full shape: `TickRowPlain`, `TickRowHighlighted`) |
| `AxisRows.RuleColumnAligned` | src/candlestick_chart/y_axis.py:89-117 | the rule glyph stands in the same column in blank rows and in unhighlighted tick rows whose label fits, on either side |
| `AxisRows.FlatWindowTicksAgree` | src/candlestick_chart/y_axis.py:99-117 | over an empty price window all tick rows are identical |
| `AxisRows.NoBandUnlessRising` | src/candlestick_chart/y_axis.py:75-77 | when a row's label is not below the next row's, no key can be promoted into that row |
| `AxisRows.FlatWindowRowsBlank` | src/candlestick_chart/y_axis.py:61-94 | over an empty price window no row is promoted: every non-tick row is blank |
| `AxisRows.BlankUnlessPromoted` | src/candlestick_chart/y_axis.py:61-94 | a non-tick row is blank if and only if promotion is not tried (no highlights, an empty dictionary, or row 0) or no key lies in its band |
| `AxisRows.PromotedRow` | src/candlestick_chart/y_axis.py:75-87 | the first in-band key wins; a key equal to either bound never matches; its padding is measured against the row's own label; the row fails exactly when that width is negative; a row that renders shows that key's colourised text, padded with trailing spaces, right after `" │― "` (right axis) or at its start, ending with `" │―"` (left axis) |

## Left out

- `fnum` and `color` are in `utils` and `colors`, which are not part of this
  model. They are uninterpreted function values, and nothing about ANSI escape
  codes or number formatting is modelled.
- `_round_price`'s `fn_down` / `fn_up` parameters are fixed to `math.floor` /
  `math.ceil`, the only values used in `y_axis.py`.
- IEEE-754 floating point (rounding error in `v*m`, in the divisions, and in
  `floor`/`ceil` at large magnitudes) is not modelled. Prices are exact reals.
- A `height <= 0` in the tick and band paths is excluded by precondition: a
  height of 0 raises `ZeroDivisionError` in Python, and a negative height is
  outside the system's contract. A `Y_AXIS_SPACING` of 0, which also raises
  `ZeroDivisionError`, is excluded by precondition too.
- `ChartData` and `visible_candle_set` are not part of this model. `min_price`,
  `max_price` and `height` are inputs.
- `CHAR_PRECISION`, `DEC_PRECISION` and `MARGIN_RIGHT` are natural numbers.
  Negative configuration is outside the system's contract.
- `render_empty`'s default `y=None` is not modelled. `render_line` always
  passes an integer row.
- `Candle` construction, the dataclass and `slots` machinery, and terminal
  output carry no logic and are not modelled.
- A highlighted cell's *displayed* width is not modelled. Lengths are counted
  in characters, escape codes included.
