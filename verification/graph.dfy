/** The bulletgraph package: its records, the default options of `New`, and
    `Drawbg` as a pure function from a bullet graph to the ordered trace of
    canvas calls it makes. */
module Graph {
  import opened Fields
  import opened Numeric
  import opened Canvas

  /** strconv.ParseFloat with its error discarded: every string reads as
      some number (zero when the text is not one). */
  type Parser = string -> real

  /** One bullet graph row: `scale` is "min,max,increment" and `qmeasure`
      the comma-separated qualitative band thresholds. */
  datatype Bdata = Bdata(
    title: string,
    subtitle: string,
    scale: string,
    qmeasure: string,
    cmeasure: real,
    measure: real)

  datatype Note = Note(text: string)

  datatype Options = Options(
    width: int, height: int, fontsize: int, barheight: int, gutter: int,
    bgcolor: string, barcolor: string, datacolor: string, compcolor: string, title: string,
    showtitle: bool, circlemark: bool)

  datatype Bulletgraph = Bulletgraph(
    top: int,
    left: int,
    right: int,
    title: string,
    data: seq<Bdata>,
    notes: seq<Note>,
    flags: Options)

  const DefaultLeft := 250
  const DefaultRight := 50
  const DefaultTop := 50

  /** Space between the bar and its scale labels. */
  const ScaleSep := 4
  /** Extra space between two note lines. */
  const Leading := 3

  /** `New`: an empty bullet graph with the default options. The canvas
      argument of the source is not used there. */
  function New(): Bulletgraph
  {
    Bulletgraph(0, 0, 0, "", [], [],
      Options(1024, 800, 18, 48, 30, "white", "rgb(200,200,200)", "darkgray", "black", "", false, false))
  }

  /** The receiver as `Drawbg` leaves it: a zero margin is replaced by its
      default, a non-zero one is kept, and a non-empty options title
      replaces the graph title. Nothing else changes. */
  function Defaulted(bg: Bulletgraph): (g: Bulletgraph)
    ensures g.left == (if bg.left == 0 then DefaultLeft else bg.left)
    ensures g.right == (if bg.right == 0 then DefaultRight else bg.right)
    ensures g.top == (if bg.top == 0 then DefaultTop else bg.top)
    ensures g.title == (if |bg.flags.title| > 0 then bg.flags.title else bg.title)
    ensures g.data == bg.data && g.notes == bg.notes && g.flags == bg.flags
    ensures g.left != 0 && g.right != 0 && g.top != 0
  {
    var l := if bg.left == 0 then DefaultLeft else bg.left;
    var r := if bg.right == 0 then DefaultRight else bg.right;
    var t := if bg.top == 0 then DefaultTop else bg.top;
    var title := if |bg.flags.title| > 0 then bg.flags.title else bg.title;
    bg.(left := l, right := r, top := t, title := title)
  }

  /** What a row is drawn with: the defaulted side margins and the
      options. */
  datatype Frame = Frame(left: int, right: int, flags: Options)

  function FrameOf(g: Bulletgraph): Frame
  {
    Frame(g.left, g.right, g.flags)
  }

  /** Width of the plot area between the margins. */
  function MaxWidth(f: Frame): int
  {
    f.flags.width - (f.left + f.right)
  }

  /** Vertical distance from one row to the next. */
  function Step(g: Bulletgraph): int
  {
    g.flags.barheight + g.flags.gutter
  }

  /** A row is drawn when its scale holds exactly two commas; see
      `AcceptsAsSplit` for the tests as the loop writes them. */
  predicate Accepts(v: Bdata)
  {
    Occurrences(v.scale, ',') == 2
  }

  /** The loop skips a row unless its scale splits into exactly three
      fields and its bands into at least one. That is `Accepts`: the second
      test never fails, since a split always has a field. */
  lemma AcceptsAsSplit(v: Bdata)
    ensures Accepts(v) <==> |Split(v.scale, ',')| == 3 && |Split(v.qmeasure, ',')| >= 1
    ensures |Split(v.qmeasure, ',')| >= 1
  {
  }

  /** The rows that are drawn, in input order. */
  function Accepted(data: seq<Bdata>): (acc: seq<Bdata>)
    ensures |acc| <= |data|
    ensures forall i :: 0 <= i < |acc| ==> Accepts(acc[i])
  {
    if |data| == 0 then []
    else if Accepts(data[0]) then [data[0]] + Accepted(data[1..])
    else Accepted(data[1..])
  }

  /** The accepted rows are exactly the rows of the input that are
      accepted. */
  lemma {:induction false} AcceptedMembers(data: seq<Bdata>, v: Bdata)
    ensures v in Accepted(data) <==> v in data && Accepts(v)
  {
    if |data| > 0 {
      AcceptedMembers(data[1..], v);
      assert data == [data[0]] + data[1..];
    }
  }

  /** The scale of an accepted row, parsed. */
  datatype Scale = Scale(min: real, max: real, incr: real)

  function ParseScale(v: Bdata, parse: Parser): Scale
    requires Accepts(v)
  {
    var sc := Split(v.scale, ',');
    Scale(parse(sc[0]), parse(sc[1]), parse(sc[2]))
  }

  /** The qualitative band thresholds of a row, parsed, one per field. */
  function Bands(v: Bdata, parse: Parser): (qs: seq<real>)
    ensures |qs| == |Split(v.qmeasure, ',')|
    ensures forall j :: 0 <= j < |qs| ==> qs[j] == parse(Split(v.qmeasure, ',')[j])
  {
    var qm := Split(v.qmeasure, ',');
    seq(|qm|, j requires 0 <= j < |qm| => parse(qm[j]))
  }

  /** The scale-tick loop of a drawn row terminates: it is skipped when the
      minimum is above the maximum, and otherwise needs a positive step. */
  predicate Halts(v: Bdata, parse: Parser)
  {
    Accepts(v) ==> var s := ParseScale(v, parse); s.min <= s.max ==> s.incr > 0.0
  }

  predicate AllHalt(data: seq<Bdata>, parse: Parser)
  {
    forall v :: v in data ==> Halts(v, parse)
  }

  /** Pixel offset, from the left margin, of a scale value. */
  function PlotX(f: Frame, s: Scale, value: real): Mapped
  {
    Vmap(value, s.min, s.max, 0.0, MaxWidth(f) as real)
  }

  /** The two labels right-aligned one font size left of the plot: the
      title with the measure, and the subtitle one line below it. */
  function Labels(f: Frame, v: Bdata, y: int): (r: seq<Cmd>)
    ensures |r| == 2 && r[0].Text? && r[1].Text?
    ensures r[0].x == r[1].x == At(f.left - f.flags.fontsize)
    ensures r[1].y - r[0].y == f.flags.fontsize
    ensures r[0].content == Headline(v.title, v.measure) && r[1].content == Plain(v.subtitle)
  {
    var tx := f.left - f.flags.fontsize;
    var ty := y + Quot(f.flags.barheight, 3);
    [Text(At(tx), ty, Headline(v.title, v.measure), HeadlineStyle),
     Text(At(tx), ty + f.flags.fontsize, Plain(v.subtitle), SubtitleStyle)]
  }

  /** The label of one tick value, under the bar at the value's mapped
      position; one decimal is printed when the step is not whole. */
  function TickText(f: Frame, s: Scale, tick: real, y: int): Cmd
  {
    Text(Shift(f.left, PlotX(f, s, tick)),
         y + ScaleSep + f.flags.barheight + Quot(f.flags.fontsize, 2),
         TickValue(tick, Fraction(s.incr) > 0.0), NoStyle)
  }

  /** One label per tick value, in order. */
  function TickLabels(f: Frame, s: Scale, ticks: seq<real>, y: int): (r: seq<Cmd>)
    ensures |r| == |ticks|
    ensures forall k :: 0 <= k < |ticks| ==> r[k] == TickText(f, s, ticks[k], y)
  {
    if |ticks| == 0 then []
    else [TickText(f, s, ticks[0], y)] + TickLabels(f, s, ticks[1..], y)
  }

  /** The scale scope: a style group holding one label per value the
      tick loop visits. */
  function ScaleScope(f: Frame, s: Scale, y: int): (r: seq<Cmd>)
    requires s.min <= s.max ==> s.incr > 0.0
    ensures |r| == |Ticks(s.min, s.max, s.incr)| + 2
    ensures r[0] == Gstyle(ScaleStyle) && r[|r| - 1] == Gend
    ensures var ticks := Ticks(s.min, s.max, s.incr);
            forall k :: 0 <= k < |ticks| ==> r[k + 1] == TickText(f, s, ticks[k], y)
    ensures Balanced(r) && Unmarked(r)
  {
    var ticks := Ticks(s.min, s.max, s.incr);
    var body := TickLabels(f, s, ticks, y);
    assert forall k :: 0 <= k < |body| ==> body[k].Text? by {
      forall k | 0 <= k < |body|
        ensures body[k].Text?
      {
        assert body[k] == TickText(f, s, ticks[k], y);
      }
    }
    ScopeFacts(ScaleStyle, body);
    var r := [Gstyle(ScaleStyle)] + body + [Gend];
    assert forall k :: 0 <= k < |ticks| ==> r[k + 1] == body[k];
    r
  }

  /** No marker and no document title among the commands. */
  predicate Unmarked(t: seq<Cmd>)
  {
    Count(t, CircleKind) == 0 && Count(t, LineKind) == 0 && Count(t, TitleKind) == 0
  }

  /** A style group around texts and rectangles is balanced and unmarked. */
  lemma ScopeFacts(style: Style, body: seq<Cmd>)
    requires forall i :: 0 <= i < |body| ==> body[i].Text? || body[i].Rect?
    ensures Balanced([Gstyle(style)] + body + [Gend]) && Unmarked([Gstyle(style)] + body + [Gend])
  {
    var r := [Gstyle(style)] + body + [Gend];
    CountZero(body, GstyleKind);
    CountZero(body, GendKind);
    Scoped(style, body);
    assert forall i :: 0 <= i < |r| ==> r[i].Gstyle? || r[i].Gend? || r[i].Text? || r[i].Rect? by {
      forall i | 0 <= i < |r|
        ensures r[i].Gstyle? || r[i].Gend? || r[i].Text? || r[i].Rect?
      {
        if 0 < i < |r| - 1 {
          assert r[i] == body[i - 1];
        }
      }
    }
    CountZero(r, CircleKind);
    CountZero(r, LineKind);
    CountZero(r, TitleKind);
  }

  /** One rectangle per band threshold, in input order, each from the left
      edge of the plot to the mapped threshold. */
  function BandRects(f: Frame, s: Scale, bands: seq<real>, y: int): (r: seq<Cmd>)
    ensures |r| == |bands|
    ensures forall j :: 0 <= j < |bands| ==>
              r[j] == Rect(f.left, y, Shift(0, PlotX(f, s, bands[j])), f.flags.barheight, NoStyle)
  {
    if |bands| == 0 then []
    else
      [Rect(f.left, y, Shift(0, PlotX(f, s, bands[0])), f.flags.barheight, NoStyle)]
      + BandRects(f, s, bands[1..], y)
  }

  /** The band scope: one style group holding a full-width rectangle and
      then the band rectangles. */
  function BandScope(f: Frame, s: Scale, bands: seq<real>, y: int): (r: seq<Cmd>)
    ensures |r| == |bands| + 3
    ensures r[0] == Gstyle(BandStyle(f.flags.barcolor)) && r[|r| - 1] == Gend
    ensures r[1] == Rect(f.left, y, At(MaxWidth(f)), f.flags.barheight, NoStyle)
    ensures forall j :: 0 <= j < |bands| ==>
              r[j + 2] == Rect(f.left, y, Shift(0, PlotX(f, s, bands[j])), f.flags.barheight, NoStyle)
    ensures Balanced(r) && Unmarked(r)
  {
    var style := BandStyle(f.flags.barcolor);
    var rects := BandRects(f, s, bands, y);
    var body := [Rect(f.left, y, At(MaxWidth(f)), f.flags.barheight, NoStyle)] + rects;
    assert forall i :: 0 <= i < |body| ==> body[i].Rect? by {
      forall i | 0 <= i < |body|
        ensures body[i].Rect?
      {
        if i > 0 {
          assert body[i] == rects[i - 1];
        }
      }
    }
    ScopeFacts(style, body);
    [Gstyle(style)] + body + [Gend]
  }

  /** The measure bar: a third of the bar height tall, vertically centred in
      the bar, from the plot's left edge to the mapped measure. */
  function MeasureBar(f: Frame, s: Scale, measure: real, y: int): (c: Cmd)
    ensures c.Rect? && c.rx == f.left && c.w == Shift(0, PlotX(f, s, measure))
    ensures c.ry == y + Quot(f.flags.barheight, 3) && c.h == Quot(f.flags.barheight, 3)
    ensures f.flags.barheight >= 0 ==> y <= c.ry && c.ry + c.h <= y + f.flags.barheight
    ensures f.flags.barheight >= 0 ==> -2 <= (c.ry - y) - (y + f.flags.barheight - (c.ry + c.h)) <= 0
    ensures c.style == BarStyle(f.flags.datacolor)
  {
    var qmheight := Quot(f.flags.barheight, 3);
    Rect(f.left, y + qmheight, Shift(0, PlotX(f, s, measure)), qmheight, BarStyle(f.flags.datacolor))
  }

  /** The comparative marker at the mapped comparative measure: a circle
      when `circlemark` is set, otherwise a vertical tick line over the
      middle half of the bar. */
  function Marker(f: Frame, s: Scale, cmeasure: real, y: int): (c: Cmd)
    ensures f.flags.circlemark <==> c.Circle?
    ensures !f.flags.circlemark <==> c.Line?
    ensures c.Circle? ==> c.cx == Shift(f.left, PlotX(f, s, cmeasure))
                          && c.cy == y + Quot(f.flags.barheight, 2)
                          && c.r == Quot(f.flags.barheight, 6)
    ensures c.Line? ==> c.x1 == c.x2 == Shift(f.left, PlotX(f, s, cmeasure))
                        && c.y1 == y + Quot(f.flags.barheight, 4)
                        && c.y2 == y + f.flags.barheight - Quot(f.flags.barheight, 4)
    ensures c.Line? ==> c.y1 + c.y2 == 2 * y + f.flags.barheight
    ensures c.Line? && f.flags.barheight >= 0 ==> y <= c.y1 <= c.y2 <= y + f.flags.barheight
  {
    var cmx := PlotX(f, s, cmeasure);
    if f.flags.circlemark then
      Circle(Shift(f.left, cmx), y + Quot(f.flags.barheight, 2), Quot(f.flags.barheight, 6),
             CircleStyle(f.flags.compcolor))
    else
      var cbh := Quot(f.flags.barheight, 4);
      Line(Shift(f.left, cmx), y + cbh, Shift(f.left, cmx), y + f.flags.barheight - cbh,
           TickStyle(f.flags.compcolor))
  }

  /** Everything one accepted row draws, at vertical position `y`: labels,
      scale, bands, measure bar, marker. */
  function Row(f: Frame, v: Bdata, y: int, parse: Parser): (r: seq<Cmd>)
    requires Accepts(v) && Halts(v, parse)
    ensures Balanced(r)
    ensures Count(r, CircleKind) == (if f.flags.circlemark then 1 else 0)
    ensures Count(r, LineKind) == (if f.flags.circlemark then 0 else 1)
    ensures Count(r, TitleKind) == 0
    ensures r[0] == Text(At(f.left - f.flags.fontsize), y + Quot(f.flags.barheight, 3),
                         Headline(v.title, v.measure), HeadlineStyle)
  {
    var s := ParseScale(v, parse);
    var labels := Labels(f, v, y);
    var scale := ScaleScope(f, s, y);
    var bands := BandScope(f, s, Bands(v, parse), y);
    var bar := MeasureBar(f, s, v.measure, y);
    var marker := Marker(f, s, v.cmeasure, y);
    RowAssembly(f.flags.circlemark, labels, scale, bands, bar, marker);
    labels + scale + bands + [bar, marker]
  }

  /** A row is drawn in a fixed order: the two labels, the scale scope, the
      band scope, the measure bar, and last the marker. */
  lemma RowOrder(f: Frame, v: Bdata, y: int, parse: Parser)
    requires Accepts(v) && Halts(v, parse)
    ensures var s := ParseScale(v, parse);
            var bands := Bands(v, parse);
            var n := |Ticks(s.min, s.max, s.incr)|;
            var m := |bands|;
            var r := Row(f, v, y, parse);
            |r| == n + m + 9
            && r[..2] == Labels(f, v, y)
            && r[2..n + 4] == ScaleScope(f, s, y)
            && r[n + 4..n + m + 7] == BandScope(f, s, bands, y)
            && r[n + m + 7] == MeasureBar(f, s, v.measure, y)
            && r[n + m + 8] == Marker(f, s, v.cmeasure, y)
  {
    var s := ParseScale(v, parse);
    var labels := Labels(f, v, y);
    var scale := ScaleScope(f, s, y);
    var bands := BandScope(f, s, Bands(v, parse), y);
    var tail := [MeasureBar(f, s, v.measure, y), Marker(f, s, v.cmeasure, y)];
    var r := Row(f, v, y, parse);
    assert r == labels + scale + bands + tail;
    var n := |Ticks(s.min, s.max, s.incr)|;
    var m := |Bands(v, parse)|;
    assert r[..2] == labels;
    assert r[2..n + 4] == scale;
    assert r[n + 4..n + m + 7] == bands;
  }

  /** The parts of a row put together: balanced, with exactly the one
      marker the options ask for. */
  lemma RowAssembly(circlemark: bool, labels: seq<Cmd>, scale: seq<Cmd>, bands: seq<Cmd>, bar: Cmd, marker: Cmd)
    requires |labels| == 2 && labels[0].Text? && labels[1].Text?
    requires Balanced(scale) && Unmarked(scale) && Balanced(bands) && Unmarked(bands)
    requires bar.Rect? && (circlemark <==> marker.Circle?) && (!circlemark <==> marker.Line?)
    ensures Balanced(labels + scale + bands + [bar, marker])
    ensures Count(labels + scale + bands + [bar, marker], CircleKind) == (if circlemark then 1 else 0)
    ensures Count(labels + scale + bands + [bar, marker], LineKind) == (if circlemark then 0 else 1)
    ensures Count(labels + scale + bands + [bar, marker], TitleKind) == 0
  {
    var tail := [bar, marker];
    CountZero(labels, GstyleKind);
    CountZero(labels, GendKind);
    CountZero(tail, GstyleKind);
    CountZero(tail, GendKind);
    FlatReaches(labels, 0);
    FlatReaches(tail, 0);
    BalancedAppend(labels, scale);
    BalancedAppend(labels + scale, bands);
    BalancedAppend(labels + scale + bands, tail);
    Count4(labels, scale, bands, tail, CircleKind);
    Count4(labels, scale, bands, tail, LineKind);
    Count4(labels, scale, bands, tail, TitleKind);
  }

  /** Counts over four consecutive parts add up. */
  lemma Count4(a: seq<Cmd>, b: seq<Cmd>, c: seq<Cmd>, d: seq<Cmd>, k: Kind)
    ensures Count(a + b + c + d, k) == Count(a, k) + Count(b, k) + Count(c, k) + Count(d, k)
  {
    CountAppend(a, b, k);
    CountAppend(a + b, c, k);
    CountAppend(a + b + c, d, k);
  }

  /** Moving `j` strides of `w` from `y + w` is moving `j + 1` strides from `y`. */
  lemma Stride(y: int, j: int, w: int)
    ensures (y + w) + j * w == y + (j + 1) * w
  {
  }

  /** Commands drawn so far and the vertical cursor after them. */
  datatype Drawn = Drawn(cmds: seq<Cmd>, y: int)

  /** How the loop body draws one accepted row at a cursor position. */
  type RowDrawer = (Bdata, int) -> seq<Cmd>

  /** The loop over the rows, from cursor `y`. A row that is not accepted
      draws nothing and leaves the cursor where it is; an accepted row is
      drawn by `draw` at the cursor, which then moves down by `step`. */
  function Rows(data: seq<Bdata>, y: int, step: int, draw: RowDrawer): Drawn
  {
    if |data| == 0 then Drawn([], y)
    else if !Accepts(data[0]) then Rows(data[1..], y, step, draw)
    else
      var rest := Rows(data[1..], y + step, step, draw);
      Drawn(draw(data[0], y) + rest.cmds, rest.y)
  }

  /** The cursor ends one step below the start per accepted row. */
  lemma {:induction false} RowsCursor(data: seq<Bdata>, y: int, step: int, draw: RowDrawer)
    ensures Rows(data, y, step, draw).y == y + |Accepted(data)| * step
  {
    if |data| > 0 {
      if Accepts(data[0]) {
        RowsCursor(data[1..], y + step, step, draw);
        Stride(y, |Accepted(data[1..])|, step);
      } else {
        RowsCursor(data[1..], y, step, draw);
      }
    }
  }

  /** The row loop of `Drawbg`: `Row` in the frame. Rows whose tick loop
      would not end are excluded by the precondition of `Drawbg`, so the
      empty fallback is never drawn there. */
  function DrawRow(f: Frame, parse: Parser): RowDrawer
  {
    (v: Bdata, y: int) => if Accepts(v) && Halts(v, parse) then Row(f, v, y, parse) else []
  }

  /** If every accepted row draws balanced commands, so does the loop. */
  lemma {:induction false} RowsBalanced(data: seq<Bdata>, y: int, step: int, draw: RowDrawer)
    requires forall v, y' :: v in data && Accepts(v) ==> Balanced(draw(v, y'))
    ensures Balanced(Rows(data, y, step, draw).cmds)
  {
    if |data| > 0 {
      RowsBalanced(data[1..], y, step, draw);
      RowsBalanced(data[1..], y + step, step, draw);
      if Accepts(data[0]) {
        BalancedAppend(draw(data[0], y), Rows(data[1..], y + step, step, draw).cmds);
      }
    }
  }

  /** If every accepted row draws one command of kind `k` (or, when `one`
      is false, none), the loop draws one per accepted row (or none). */
  lemma {:induction false} RowsCount(data: seq<Bdata>, y: int, step: int, draw: RowDrawer, k: Kind, one: bool)
    requires forall v, y' :: v in data && Accepts(v) ==> Count(draw(v, y'), k) == (if one then 1 else 0)
    ensures Count(Rows(data, y, step, draw).cmds, k) == (if one then |Accepted(data)| else 0)
  {
    if |data| > 0 {
      if Accepts(data[0]) {
        var rest := Rows(data[1..], y + step, step, draw).cmds;
        RowsCount(data[1..], y + step, step, draw, k, one);
        CountAppend(draw(data[0], y), rest, k);
      } else {
        RowsCount(data[1..], y, step, draw, k, one);
      }
    }
  }

  /** The overall title, two font sizes below the cursor, when asked for
      and not empty. */
  function TitleBelow(f: Frame, title: string, y: int): Drawn
  {
    if f.flags.showtitle && |title| > 0 then
      Drawn([Text(At(f.left), y + f.flags.fontsize * 2, Plain(title), TitleBelowStyle)],
            y + f.flags.fontsize * 2)
    else Drawn([], y)
  }

  /** One left-aligned line per note, each `fontsize + 3` below the last. */
  function NoteLines(f: Frame, notes: seq<Note>, y: int): (d: Drawn)
    ensures |d.cmds| == |notes|
    ensures forall j :: 0 <= j < |notes| ==>
              d.cmds[j] == Text(At(f.left), y + j * (f.flags.fontsize + Leading), Plain(notes[j].text), NoStyle)
    ensures d.y == y + |notes| * (f.flags.fontsize + Leading)
  {
    if |notes| == 0 then Drawn([], y)
    else
      var w := f.flags.fontsize + Leading;
      var rest := NoteLines(f, notes[1..], y + w);
      NoteLinesStep(f, notes, y, rest.cmds);
      Stride(y, |notes| - 1, w);
      Drawn([Text(At(f.left), y, Plain(notes[0].text), NoStyle)] + rest.cmds, rest.y)
  }

  lemma NoteLinesStep(f: Frame, notes: seq<Note>, y: int, rest: seq<Cmd>)
    requires |notes| > 0 && |rest| == |notes| - 1
    requires forall j :: 0 <= j < |notes| - 1 ==>
               rest[j] == Text(At(f.left), (y + f.flags.fontsize + Leading) + j * (f.flags.fontsize + Leading),
                               Plain(notes[1..][j].text), NoStyle)
    ensures forall j :: 0 <= j < |notes| ==>
              ([Text(At(f.left), y, Plain(notes[0].text), NoStyle)] + rest)[j]
              == Text(At(f.left), y + j * (f.flags.fontsize + Leading), Plain(notes[j].text), NoStyle)
  {
    var w := f.flags.fontsize + Leading;
    var r := [Text(At(f.left), y, Plain(notes[0].text), NoStyle)] + rest;
    forall j | 0 <= j < |notes|
      ensures r[j] == Text(At(f.left), y + j * w, Plain(notes[j].text), NoStyle)
    {
      if j > 0 {
        assert r[j] == rest[j - 1];
        Stride(y, j - 1, w);
      }
    }
  }

  /** The notes block: nothing without notes; otherwise a style group,
      starting two font sizes below the cursor, holding the note lines. */
  function NoteBlock(f: Frame, notes: seq<Note>, y: int): (d: Drawn)
    ensures Balanced(d.cmds) && Unmarked(d.cmds)
    ensures |notes| == 0 ==> d.cmds == []
    ensures |notes| > 0 ==>
              |d.cmds| == |notes| + 2 && d.cmds[0] == Gstyle(NoteStyle) && d.cmds[|d.cmds| - 1] == Gend
    ensures forall j :: 0 <= j < |notes| ==>
              d.cmds[j + 1] == Text(At(f.left), y + 2 * f.flags.fontsize + j * (f.flags.fontsize + Leading),
                                    Plain(notes[j].text), NoStyle)
  {
    if |notes| == 0 then Drawn([], y)
    else
      var lines := NoteLines(f, notes, y + f.flags.fontsize * 2);
      ScopeFacts(NoteStyle, lines.cmds);
      Drawn([Gstyle(NoteStyle)] + lines.cmds + [Gend], lines.y)
  }

  /** The outcome of `Drawbg`: the canvas calls made, in order, and the
      receiver as the call leaves it. */
  datatype Drawing = Drawing(trace: seq<Cmd>, receiver: Bulletgraph)

  /** The commands of a drawing, given how each accepted row is drawn: the
      document title, the rows stacked one step apart from the top margin,
      the optional title below and the notes. */
  function Sheet(g: Bulletgraph, draw: RowDrawer): seq<Cmd>
  {
    var rows := Rows(g.data, g.top, Step(g), draw);
    var below := TitleBelow(FrameOf(g), g.title, rows.y);
    var notes := NoteBlock(FrameOf(g), g.notes, below.y);
    [Title(g.title)] + rows.cmds + below.cmds + notes.cmds
  }

  /** `Drawbg`. The receiver's margins and title are defaulted in place,
      then the sheet is drawn with `Row` for each accepted row. The source
      loops forever on a drawn row whose scale step is not positive, so
      every row must halt. */
  function Drawbg(bg: Bulletgraph, parse: Parser): (r: Drawing)
    requires AllHalt(bg.data, parse)
    ensures r.receiver == Defaulted(bg)
    ensures |r.trace| >= 1 && r.trace[0] == Title(r.receiver.title)
    ensures Count(r.trace, TitleKind) == 1
    ensures Balanced(r.trace)
    ensures Count(r.trace, CircleKind) == (if bg.flags.circlemark then |Accepted(bg.data)| else 0)
    ensures Count(r.trace, LineKind) == (if bg.flags.circlemark then 0 else |Accepted(bg.data)|)
  {
    var g := Defaulted(bg);
    var draw := DrawRow(FrameOf(g), parse);
    var rows := Rows(g.data, g.top, Step(g), draw);
    var below := TitleBelow(FrameOf(g), g.title, rows.y);
    var notes := NoteBlock(FrameOf(g), g.notes, below.y);
    RowsFacts(FrameOf(g), g.data, g.top, Step(g), parse);
    DrawbgAssembly(g.title, rows.cmds, below.cmds, notes.cmds);
    Drawing(Sheet(g, draw), g)
  }

  /** What the row loop of `Drawbg` draws: balanced, no document title, and
      the one marker per accepted row that the options ask for. */
  lemma RowsFacts(f: Frame, data: seq<Bdata>, y: int, step: int, parse: Parser)
    requires AllHalt(data, parse)
    ensures var t := Rows(data, y, step, DrawRow(f, parse)).cmds;
            && Balanced(t) && Count(t, TitleKind) == 0
            && Count(t, CircleKind) == (if f.flags.circlemark then |Accepted(data)| else 0)
            && Count(t, LineKind) == (if f.flags.circlemark then 0 else |Accepted(data)|)
  {
    var draw := DrawRow(f, parse);
    forall v, y' | v in data && Accepts(v)
      ensures draw(v, y') == Row(f, v, y', parse)
    {
    }
    RowsBalanced(data, y, step, draw);
    RowsCount(data, y, step, draw, TitleKind, false);
    RowsCount(data, y, step, draw, CircleKind, f.flags.circlemark);
    RowsCount(data, y, step, draw, LineKind, !f.flags.circlemark);
  }

  /** The document title, the rows and the trailer put together. */
  lemma DrawbgAssembly(title: string, rows: seq<Cmd>, below: seq<Cmd>, notes: seq<Cmd>)
    requires Balanced(rows) && Count(rows, TitleKind) == 0
    requires |below| <= 1 && (|below| == 1 ==> below[0].Text?)
    requires Balanced(notes) && Unmarked(notes)
    ensures Balanced([Title(title)] + rows + below + notes)
    ensures Count([Title(title)] + rows + below + notes, TitleKind) == 1
    ensures Count([Title(title)] + rows + below + notes, CircleKind) == Count(rows, CircleKind)
    ensures Count([Title(title)] + rows + below + notes, LineKind) == Count(rows, LineKind)
  {
    var head := [Title(title)];
    assert Count(head, GstyleKind) == 0 && Count(head, GendKind) == 0;
    assert Count(below, GstyleKind) == 0 && Count(below, GendKind) == 0;
    assert Unmarked(below);
    FlatReaches(head, 0);
    FlatReaches(below, 0);
    BalancedAppend(head, rows);
    BalancedAppend(head + rows, below);
    BalancedAppend(head + rows + below, notes);
    Count4(head, rows, below, notes, TitleKind);
    Count4(head, rows, below, notes, CircleKind);
    Count4(head, rows, below, notes, LineKind);
  }
}
