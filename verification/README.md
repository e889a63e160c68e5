# Bullet graph drawing, modelled in Dafny

This project models the drawing core of the Go package `bulletgraph`:
`Drawbg` draws a stack of bullet graphs onto an SVG canvas. The canvas is a
foreign library, so the model records the calls made to it, in order, as a
trace of `Canvas.Cmd` values:

- `Title`, `Text`, `Rect`, `Circle`, `Line`, `Gstyle`, `Gend`.

`Graph.Drawbg(bg, parse)` is a pure function returning a `Drawing`. It holds
that trace and the receiver as the call leaves it. `Drawbg` defaults the
margins and the title in place through its `*Bulletgraph` receiver, so the
receiver is part of the result.

What `Drawbg` does, step by step:

- A zero `Left`, `Right` or `Top` becomes 250, 50 or 50.
- A non-empty `Flags.Title` replaces the graph title.
- It emits the document title.
- It walks the rows. A row is drawn only when its `Scale` splits on commas
  into exactly three fields. Each drawn row is one `Barheight + Gutter`
  below the last, and consists of:
  - two labels;
  - a style group of scale-tick labels;
  - a style group of band rectangles;
  - the measure bar;
  - the comparative marker, which is a circle or a vertical line.
- It optionally emits the title again below the rows.
- When there are notes, it emits a style group of note lines.

The helpers are modelled too:

- `vmap` (`Numeric.Vmap`) over exact reals.
- `fraction` (`Numeric.Fraction`).
- Go's truncating integer division (`Numeric.Quot`).
- Go's `int(float)` conversion (`Numeric.Trunc`).
- The tick loop `for sc := min; sc <= max; sc += incr` (`Numeric.Ticks`).
- `strings.Split` on one character (`Fields.Split`).
- `New` (`Graph.New`): the default options.

The row loop is written once, as `Graph.Rows`, over any `RowDrawer`.
`Graph.Sheet` puts together everything a drawing emits for a given row
drawer. The trace of `Drawbg` is the sheet of the defaulted receiver whose
row drawer is `Graph.DrawRow` (the helper `Layout.DrawbgSheet`).
`Layout.DrawRowIsRow` shows that this drawer draws `Graph.Row` on every
accepted row. The placement lemmas about sheets (`RowPosition`,
`TitleBelowAt`, `NotesAt`, `SheetSkips`) are therefore lemmas about
`Drawbg`.

Modules:

- `Fields`: splitting and joining on a single-character separator.
- `Numeric`: integer division, truncation, `fraction`, `vmap`, the tick loop.
- `Canvas`: the command datatype and style scopes, i.e. balance and counting.
- `Graph`: the records, `New`, the defaulting, each part of a row, the row
  loop, the trailer and `Drawbg`.
- `Layout`: lemmas about whole traces. They cover which rows are drawn and
  where, what the defaulting changes, and the graph `New` gives.

All source cells refer to `bulletgraph.go`.

## Model

| member | source | states |
|---|---|---|
| Fields.Split | bulletgraph.go:133-134 | Splitting gives one more field than there are separators, so never zero fields, and no field contains the separator. |
| Fields.JoinSplit | bulletgraph.go:133-134 | Gluing the fields of a split back together with the separator restores the original string, so no character is lost or reordered. |
| Fields.SplitJoin | bulletgraph.go:133-134 | Splitting the join of separator-free fields returns exactly those fields, so split and join are mutually inverse. |
| Fields.SplitPlain | bulletgraph.go:133-134 | A string without the separator splits into itself alone. |
| Fields.SplitAfterField | bulletgraph.go:133-134 | A separator after a separator-free prefix closes exactly that one field; the rest splits independently. |
| Numeric.Quot | bulletgraph.go:107 | Go's integer division by a positive divisor truncates toward zero. The remainder lies in [0, d) for non-negative dividends and in (-d, 0] for negative ones. |
| Numeric.Trunc | bulletgraph.go:212 | For values in int range, `int(n)` truncates toward zero. The result is within one of `n`, at or below it for non-negative `n` and at or above it for negative `n`. |
| Numeric.Fraction | bulletgraph.go:211-214 | `fraction(n)` lies strictly between -1 and 1. It is positive exactly when `n` is positive and not whole, and only then is the one-decimal tick format chosen (lines 154-157). |
| Numeric.Vmap | bulletgraph.go:206-208 | The result is non-finite exactly when the source interval is degenerate. Otherwise `low1` maps to `low2` and `high1` maps to `high2`. |
| Numeric.VmapCharacter | bulletgraph.go:206-208 | Without any division: `m` is the image of `x` exactly when `m` is as far along the target interval as `x` is along the source interval. |
| Numeric.VmapInverse | bulletgraph.go:206-208 | Mapping with the intervals swapped undoes the map, for non-degenerate intervals. |
| Numeric.VmapAffine | bulletgraph.go:206-208 | The map is affine: the difference of two images is the difference of the points, scaled by the ratio of the interval widths. |
| Numeric.VmapWithin | bulletgraph.go:206-208 | On an increasing scale onto a non-empty pixel range, a point of the scale maps into the range and order is kept. This is why in-range ticks, bands and measures land inside the bar. |
| Numeric.Ticks | bulletgraph.go:159-162 | The loop visits exactly the arithmetic progression `min + k*incr` that stays at or below `max`. The next value would exceed `max`. |
| Numeric.TickGuardForever | bulletgraph.go:159 | As written, the loop never ends when it starts at or below `max` with a step that is not positive. Every value `min + k*incr` it reaches still passes `sc <= max`. |
| Numeric.TickCount | bulletgraph.go:159-162 | The loop visits `floor((max - min) / incr) + 1` values when `min <= max`. |
| Canvas.CountNone | bulletgraph.go:128-202 | A trace has no call of a kind exactly when its count of that kind is zero, in both directions. |
| Canvas.BalancedAppend | bulletgraph.go:158-172 | Two balanced traces in sequence are balanced. |
| Canvas.ReachesByCounting | bulletgraph.go:158-172 | Replaying a trace from depth `d` ends at depth `e` without ending a scope that was not begun, exactly when no prefix takes the depth below zero and the begins minus the ends move `d` to `e`. |
| Canvas.BalancedByCounting | bulletgraph.go:158-172 | A trace is balanced exactly when it has as many `Gstyle` as `Gend` calls and no prefix has more ends than begins. |
| Graph.Defaulted | bulletgraph.go:109-120 | Each zero margin takes its default (Left 250, Right 50, Top 50), a non-zero one is kept, and a non-empty options title replaces the graph title. Data, notes and options are untouched. Afterwards no margin is zero. |
| Graph.AcceptsAsSplit | bulletgraph.go:133-139 | A row is drawn exactly when its scale splits into three fields and its bands into at least one. The second test always holds. |
| Graph.Accepted | bulletgraph.go:130-139 | The drawn rows are no more than the input rows, and every one of them passes the loop's guard. |
| Graph.AcceptedMembers | bulletgraph.go:130-139 | A row is among the drawn rows exactly when it is an input row that passes the guard. |
| Graph.Bands | bulletgraph.go:141-144 | There is one band threshold per `Qmeasure` field, the j-th being the parse of the j-th field. |
| Graph.Labels | bulletgraph.go:150-151 | Two texts at the same x, one font size left of the plot, with the subtitle exactly one font size below the headline. The headline carries the title and measure, the second text the subtitle. |
| Graph.TickLabels | bulletgraph.go:159-162 | One tick label per visited scale value, in loop order. |
| Graph.ScaleScope | bulletgraph.go:154-163 | A `Gstyle`, then one label per value the tick loop visits in order, then `Gend`. The group is balanced and draws no marker or title. |
| Graph.BandRects | bulletgraph.go:168-171 | One rectangle per threshold, in input order. Each starts at the plot's left edge and its width is the mapped threshold. |
| Graph.BandScope | bulletgraph.go:165-172 | A `Gstyle` in the bar colour, then the full plot-width rectangle, then one rectangle per band in order, then `Gend`. The group is balanced and unmarked. |
| Graph.MeasureBar | bulletgraph.go:175-176 | The measure bar starts at the plot's left edge, one third of the bar height below the row's top, and is one third of the bar height tall (Go's truncating `Barheight/3`, line 107). Its width is the mapped measure. For a non-negative bar height it lies inside the bar: the gap above it is between 0 and 2 pixels smaller than the gap below it. |
| Graph.Marker | bulletgraph.go:177-183 | With `Circlemark` the marker is a circle at the mapped comparative measure, centred on the bar. Otherwise it is a vertical line (x1 == x2) from a quarter below the bar top to a quarter above its bottom. That line is symmetric about the bar's middle and, for a non-negative bar height, inside the bar. |
| Graph.Row | bulletgraph.go:130-186 | A drawn row is balanced. It holds exactly one circle and no line with `Circlemark`, one line and no circle without it, and no document title. It starts with the headline label a third of a bar below the cursor. |
| Graph.RowOrder | bulletgraph.go:149-183 | A drawn row is emitted in a fixed order. With n scale ticks and m bands it has n + m + 9 commands: first the two labels, then the scale group (n + 2 commands), then the band group (m + 3), then the measure bar, and last the marker. |
| Graph.RowsCursor | bulletgraph.go:185 | After the loop, the cursor has moved down one `Barheight + Gutter` per drawn row. Skipped rows do not move it. |
| Graph.RowsBalanced | bulletgraph.go:130-186 | If every drawn row is balanced, so is the whole loop's output. |
| Graph.RowsCount | bulletgraph.go:130-186 | If every drawn row has one command of a kind, the loop has one per drawn row. If every row has none, the loop has none. |
| Graph.NoteLines | bulletgraph.go:197-200 | One text per note, in order, each `Fontsize + 3` below the previous. The cursor ends that far below the last note. |
| Graph.NoteBlock | bulletgraph.go:193-202 | With no notes nothing is drawn. Otherwise a note-style group starts; the j-th note is at `y + 2*Fontsize + j*(Fontsize + 3)` at the left margin; then `Gend`. It is balanced and unmarked. |
| Graph.Drawbg | bulletgraph.go:106-203 | The receiver ends up defaulted. The trace starts with the document title, the only title call. The trace is balanced. It has one circle per drawn row and no line with `Circlemark`, and one line per drawn row and no circle otherwise. |
| Graph.RowsFacts | bulletgraph.go:130-186 | The loop of `Drawbg` is balanced and has no title call. It has one circle or one line per drawn row, as the options ask. |
| Layout.RowsOnlyAccepted | bulletgraph.go:137-139 | The loop over all rows draws and moves exactly as the loop over the drawn rows alone. |
| Layout.AcceptedAppend | bulletgraph.go:130-139 | The drawn rows of two lists in sequence are the drawn rows of each, in sequence. |
| Layout.SkipRejected | bulletgraph.go:137-139 | Removing a row that fails the guard leaves the drawn rows unchanged. |
| Layout.HaltsAfterRemoval | bulletgraph.go:159 | Removing a row keeps every other row's tick loop terminating. |
| Layout.SheetSkips | bulletgraph.go:137-139 | Removing a rejected row changes nothing drawn: it emits nothing and does not advance the cursor. |
| Layout.SkippedRowInvisible | bulletgraph.go:137-139 | The same for `Drawbg` itself: its trace with a rejected row removed is its trace. |
| Layout.RowsSplit | bulletgraph.go:130-186 | In a list of drawn rows, the loop's output is what the rows before the k-th draw, then the k-th row at `y + k*step`, then what the rows after it draw. |
| Layout.RowSlot | bulletgraph.go:185 | In any row list, the k-th drawn row (rejected rows not counted) is drawn at `y + k*step`, between the drawn rows before and after it. |
| Layout.RowPosition | bulletgraph.go:124-130 | In the sheet, the k-th drawn row is drawn at `Top + k*(Barheight + Gutter)`. It appears as one contiguous block right after the document title and the rows before it. |
| Layout.RowHeadline | bulletgraph.go:150 | What `Drawbg`'s loop draws for a drawn row is non-empty and starts with the headline at `tx`, a third of a bar below the cursor. |
| Layout.MeasureBarOrder | bulletgraph.go:175 | On an increasing scale and a plot of non-negative width, a measure within the scale gives a bar length within `[0, maxwidth]`, and a larger measure never gives a shorter bar. |
| Layout.DefaultsInvisible | bulletgraph.go:109-120 | Drawing the defaulted receiver is the same as drawing the original. A zero margin draws as its default. With a non-empty options title, the graph title does not matter. |
| Layout.Redraw | bulletgraph.go:109-120 | Drawing again with the receiver a first call leaves gives the same trace and receiver, so the in-place defaulting is idempotent. |
| Layout.TitleBelowAt | bulletgraph.go:187-191 | With `rowsEnd = Top + n*(Barheight + Gutter)` for n drawn rows: the title below, when shown and non-empty, is the one command right after the rows. It is at the left margin, two font sizes below `rowsEnd`. |
| Layout.TitleAfterRows | bulletgraph.go:187-191 | The same for whatever cursor the row loop ends at. |
| Layout.NotesAt | bulletgraph.go:193-202 | With `rowsEnd` as above: the sheet ends with the notes block. It is drawn two font sizes below `rowsEnd` when the title below is shown, at `rowsEnd` otherwise. Nothing but the optional title below comes between the rows and the notes. |
| Layout.NotesAfterRows | bulletgraph.go:193-202 | The same for whatever cursor the row loop ends at. |
| Layout.BandsFollowCommas | bulletgraph.go:141-144 | The band count is the comma count plus one. An empty `Qmeasure` still gives one band, the parse of the empty string. |
| Layout.NewDrawsTitleOnly | bulletgraph.go:88-103 | The graph `New` gives draws only an empty document title and gets the default margins. |

## Left out

- The SVG output itself: `svg.SVG` is foreign code. Each canvas call is a `Cmd`, and its style argument is the `Style` value whose `Css` is the text passed.
- `fmt.Sprintf` formatting: the `%s (%g)`, `%g` and `%.1f` texts are kept as the `Label` values they format (`Headline`, `TickValue`), not as strings.
- `strconv.ParseFloat`: a parameter `parse: string -> real`. The source ignores its error, so the parser is total. NaN and infinities from parsing are not modelled.
- float64 rounding: all floating-point arithmetic, including the tick loop's repeated `sc += incr`, is exact real arithmetic.
- `int(vmap(...))` in pixel positions is not evaluated. `Pos.Shift(base, m)` stands for `base + int(m)`. Go's conversion of a non-finite or out-of-range float is implementation-specific. `Numeric.Trunc` gives the conversion for finite values in int range.
- 64-bit integer overflow in pixel arithmetic: integers are unbounded.
- Graph.Drawbg: requires every drawn row's tick loop to terminate. When `min <= max` and the increment is not positive, the source loops forever (`Numeric.TickGuardForever`). This includes an increment that does not parse, such as the scale "0,60,x". Such inputs have no trace to model.
- Numeric.Fraction: uses `Numeric.Trunc`, which is exact truncation. For a float outside int range Go's `int(n)` is implementation-specific. For example, on amd64 `fraction(1e20)` is positive and line 155 selects "%.1f", where the model selects "%g".
- The `Height` and `Bgcolor` options are carried in `Options` but `Drawbg` does not read them.
- The example program, its XML reading and the struct tags are outside the drawing core.
- Graph.Accepted: states only that its rows are accepted and no more than the input. Membership in both directions is the separate lemma `Graph.AcceptedMembers`, and order and removal are covered by `Layout.AcceptedAppend` and `Layout.SkipRejected`.
- Layout.RowPosition: is stated for a sheet with any row drawer, not for `Drawbg`'s trace directly. A single statement naming both `Drawbg` and `Row` is beyond the verifier's resource limit. The `Drawbg` form follows by `Layout.DrawbgSheet` and `Layout.DrawRowIsRow`, and the row's first command by `Layout.RowHeadline`.
