/** Properties of `Drawbg` over whole traces: which rows are drawn and
    where, what the defaulting does and does not change, the trailer, and
    the graph that `New` starts from. */
module Layout {
  import opened Fields
  import opened Numeric
  import opened Canvas
  import opened Graph

  /** The trace of `Drawbg` is the sheet of the defaulted receiver with
      `Row` drawing each accepted row, so the sheet lemmas below apply to
      it. */
  lemma DrawbgSheet(bg: Bulletgraph, parse: Parser)
    requires AllHalt(bg.data, parse)
    ensures var g := Defaulted(bg);
            Drawbg(bg, parse).trace == Sheet(g, DrawRow(FrameOf(g), parse))
  {
  }

  /** Only accepted rows matter to the row loop: it draws exactly what it
      draws for the accepted rows alone, and ends at the same cursor. */
  lemma {:induction false} RowsOnlyAccepted(data: seq<Bdata>, y: int, step: int, draw: RowDrawer)
    ensures Rows(data, y, step, draw) == Rows(Accepted(data), y, step, draw)
  {
    if |data| > 0 {
      var acc := Accepted(data);
      if Accepts(data[0]) {
        RowsOnlyAccepted(data[1..], y + step, step, draw);
        assert acc == [data[0]] + Accepted(data[1..]);
        assert acc[1..] == Accepted(data[1..]);
      } else {
        RowsOnlyAccepted(data[1..], y, step, draw);
      }
    }
  }

  lemma {:induction false} AcceptedAppend(a: seq<Bdata>, b: seq<Bdata>)
    ensures Accepted(a + b) == Accepted(a) + Accepted(b)
  {
    if |a| == 0 {
      assert a + b == b;
    } else {
      assert (a + b)[1..] == a[1..] + b;
      AcceptedAppend(a[1..], b);
    }
  }

  /** Removing a row that is not accepted leaves the accepted rows as they
      were. */
  lemma {:induction false} SkipRejected(data: seq<Bdata>, i: int)
    requires 0 <= i < |data| && !Accepts(data[i])
    ensures Accepted(data[..i] + data[i + 1..]) == Accepted(data)
  {
    var rest := data[..i] + data[i + 1..];
    if i == 0 {
      assert rest == data[1..];
    } else {
      var tail := data[1..];
      SkipRejected(tail, i - 1);
      assert rest[0] == data[0];
      assert rest[1..] == tail[..i - 1] + tail[i..];
    }
  }

  /** Removing a row keeps every remaining row halting. */
  lemma HaltsAfterRemoval(data: seq<Bdata>, i: int, parse: Parser)
    requires AllHalt(data, parse) && 0 <= i < |data|
    ensures AllHalt(data[..i] + data[i + 1..], parse)
  {
    forall v | v in data[..i] + data[i + 1..]
      ensures Halts(v, parse)
    {
      assert v in data[..i] || v in data[i + 1..];
    }
  }

  /** Removing a row that is not accepted changes nothing that is drawn:
      a skipped row leaves no command and does not move the cursor. */
  lemma SheetSkips(g: Bulletgraph, i: int, draw: RowDrawer)
    requires 0 <= i < |g.data| && !Accepts(g.data[i])
    ensures Sheet(g.(data := g.data[..i] + g.data[i + 1..]), draw) == Sheet(g, draw)
  {
    var rest := g.data[..i] + g.data[i + 1..];
    assert Rows(rest, g.top, Step(g), draw) == Rows(g.data, g.top, Step(g), draw) by {
      SkipRejected(g.data, i);
      RowsOnlyAccepted(g.data, g.top, Step(g), draw);
      RowsOnlyAccepted(rest, g.top, Step(g), draw);
    }
    SheetFromRows(g, g.(data := rest), draw);
  }

  /** The sheet depends on the list of rows only through what the row loop
      draws and where it leaves the cursor. */
  lemma SheetFromRows(g: Bulletgraph, g': Bulletgraph, draw: RowDrawer)
    requires g' == g.(data := g'.data)
    requires Rows(g'.data, g.top, Step(g), draw) == Rows(g.data, g.top, Step(g), draw)
    ensures Sheet(g', draw) == Sheet(g, draw)
  {
    assert Step(g') == Step(g) && FrameOf(g') == FrameOf(g);
  }

  /** The same for `Drawbg`: a row whose scale does not split into three
      fields can be left out of the graph without changing the drawing. */
  lemma SkippedRowInvisible(bg: Bulletgraph, i: int, parse: Parser)
    requires AllHalt(bg.data, parse)
    requires 0 <= i < |bg.data| && !Accepts(bg.data[i])
    ensures AllHalt(bg.data[..i] + bg.data[i + 1..], parse)
    ensures Drawbg(bg.(data := bg.data[..i] + bg.data[i + 1..]), parse).trace == Drawbg(bg, parse).trace
  {
    HaltsAfterRemoval(bg.data, i, parse);
    var g := Defaulted(bg);
    var g' := Defaulted(bg.(data := bg.data[..i] + bg.data[i + 1..]));
    assert g' == g.(data := g.data[..i] + g.data[i + 1..]);
    assert FrameOf(g') == FrameOf(g);
    SheetSkips(g, i, DrawRow(FrameOf(g), parse));
  }

  /** In a list of accepted rows, the loop draws the rows before the k-th,
      then the k-th row at `y + k * step`, then the rows after it. */
  lemma {:induction false} RowsSplit(acc: seq<Bdata>, y: int, step: int, draw: RowDrawer, k: nat)
    requires forall i :: 0 <= i < |acc| ==> Accepts(acc[i])
    requires k < |acc|
    ensures Rows(acc, y, step, draw).cmds
            == Rows(acc[..k], y, step, draw).cmds
               + draw(acc[k], y + k * step)
               + Rows(acc[k + 1..], y + (k + 1) * step, step, draw).cmds
  {
    assert Accepts(acc[0]);
    if k == 0 {
      assert acc[..0] == [];
      assert acc[1..] == acc[k + 1..];
    } else {
      var tail := acc[1..];
      RowsSplit(tail, y + step, step, draw, k - 1);
      assert tail[..k - 1] == acc[..k][1..];
      assert tail[k - 1] == acc[k];
      assert tail[k..] == acc[k + 1..];
      Stride(y, k - 1, step);
      Stride(y, k, step);
      assert acc[..k][0] == acc[0];
    }
  }

  /** In the row loop, the k-th accepted row (counting from zero, skipped
      rows not counted) is drawn at `y + k * step`, after what the rows
      before it draw and before what the rows after it draw. */
  lemma RowSlot(data: seq<Bdata>, y: int, step: int, draw: RowDrawer, k: nat)
    requires k < |Accepted(data)|
    ensures var acc := Accepted(data);
            Rows(data, y, step, draw).cmds
            == Rows(acc[..k], y, step, draw).cmds + draw(acc[k], y + k * step)
               + Rows(acc[k + 1..], y + (k + 1) * step, step, draw).cmds
  {
    RowsOnlyAccepted(data, y, step, draw);
    RowsSplit(Accepted(data), y, step, draw, k);
  }

  /** In the sheet, the k-th accepted row is drawn at `top + k * Step`,
      that is `top + k * (barheight + gutter)`, right after the document
      title and the rows before it. */
  lemma RowPosition(g: Bulletgraph, draw: RowDrawer, k: nat)
    requires k < |Accepted(g.data)|
    ensures var acc := Accepted(g.data);
            var p := 1 + |Rows(acc[..k], g.top, Step(g), draw).cmds|;
            var row := draw(acc[k], g.top + k * Step(g));
            var t := Sheet(g, draw);
            p + |row| <= |t| && t[p..p + |row|] == row
  {
    RowSlot(g.data, g.top, Step(g), draw, k);
    var acc := Accepted(g.data);
    var pre := Rows(acc[..k], g.top, Step(g), draw).cmds;
    var row := draw(acc[k], g.top + k * Step(g));
    var post := Rows(acc[k + 1..], g.top + (k + 1) * Step(g), Step(g), draw).cmds;
    var rows := Rows(g.data, g.top, Step(g), draw);
    var below := TitleBelow(FrameOf(g), g.title, rows.y);
    var notes := NoteBlock(FrameOf(g), g.notes, below.y);
    Regroup([Title(g.title)], pre, row, post, below.cmds, notes.cmds);
    Middle([Title(g.title)] + pre, row, post + below.cmds + notes.cmds);
  }

  lemma Regroup(h: seq<Cmd>, pre: seq<Cmd>, row: seq<Cmd>, post: seq<Cmd>, b: seq<Cmd>, n: seq<Cmd>)
    ensures h + (pre + row + post) + b + n == (h + pre) + row + (post + b + n)
  {
  }

  /** The middle part of a concatenation sits right after the first part. */
  lemma Middle(a: seq<Cmd>, b: seq<Cmd>, c: seq<Cmd>)
    ensures (a + b + c)[|a|..|a| + |b|] == b
  {
  }

  /** On an accepted, halting row, the row loop of `Drawbg` draws `Row`. */
  lemma DrawRowIsRow(f: Frame, v: Bdata, y: int, parse: Parser)
    requires Accepts(v) && Halts(v, parse)
    ensures DrawRow(f, parse)(v, y) == Row(f, v, y, parse)
  {
  }

  /** What the row loop of `Drawbg` draws for an accepted, halting row is
      that row, headline label first. */
  lemma RowHeadline(f: Frame, v: Bdata, y: int, parse: Parser)
    requires Accepts(v) && Halts(v, parse)
    ensures var row := DrawRow(f, parse)(v, y);
            |row| > 0 && row[0] == Text(At(f.left - f.flags.fontsize), y + Quot(f.flags.barheight, 3),
                                        Headline(v.title, v.measure), HeadlineStyle)
  {
    assert DrawRow(f, parse)(v, y) == Row(f, v, y, parse);
  }

  /** On an increasing scale and a plot of non-negative width, a measure
      within the scale gives a bar whose length is within the plot, and a
      larger measure never gives a shorter bar. */
  lemma MeasureBarOrder(f: Frame, s: Scale, m1: real, m2: real, y: int)
    requires s.min < s.max && MaxWidth(f) >= 0
    requires s.min <= m1 <= m2 <= s.max
    ensures var w1 := MeasureBar(f, s, m1, y).w.mapped;
            var w2 := MeasureBar(f, s, m2, y).w.mapped;
            w1.Finite? && w2.Finite? && 0.0 <= w1.v <= w2.v <= MaxWidth(f) as real
  {
    VmapWithin(m1, m2, s.min, s.max, 0.0, MaxWidth(f) as real);
  }

  /** A zero margin draws exactly as the default margin does, and a
      non-empty options title makes the graph title irrelevant: drawing the
      defaulted receiver gives the same trace. */
  lemma DefaultsInvisible(bg: Bulletgraph, parse: Parser)
    requires AllHalt(bg.data, parse)
    ensures Drawbg(Defaulted(bg), parse) == Drawbg(bg, parse)
    ensures bg.left == 0 ==> Drawbg(bg.(left := DefaultLeft), parse) == Drawbg(bg, parse)
    ensures bg.right == 0 ==> Drawbg(bg.(right := DefaultRight), parse) == Drawbg(bg, parse)
    ensures bg.top == 0 ==> Drawbg(bg.(top := DefaultTop), parse) == Drawbg(bg, parse)
    ensures |bg.flags.title| > 0 ==>
              forall title: string :: Drawbg(bg.(title := title), parse) == Drawbg(bg, parse)
  {
  }

  /** Drawing twice with the same receiver draws the same trace and leaves
      the same receiver: the in-place defaulting is idempotent. */
  lemma Redraw(bg: Bulletgraph, parse: Parser)
    requires AllHalt(bg.data, parse)
    ensures AllHalt(Drawbg(bg, parse).receiver.data, parse)
    ensures Drawbg(Drawbg(bg, parse).receiver, parse) == Drawbg(bg, parse)
  {
    DefaultsInvisible(bg, parse);
  }

  /** After the rows, the cursor is `rowsEnd`, that is
      `top + n * (barheight + gutter)` for `n` accepted rows. The title
      below, when asked for and not empty, is the one command right after
      the rows, two font sizes below that cursor. */
  lemma TitleBelowAt(g: Bulletgraph, draw: RowDrawer, rowsEnd: int)
    requires rowsEnd == g.top + |Accepted(g.data)| * Step(g)
    ensures var t := Sheet(g, draw);
            var shown := g.flags.showtitle && |g.title| > 0;
            var b := 1 + |Rows(g.data, g.top, Step(g), draw).cmds|;
            b <= |t|
            && (shown ==> b < |t| && t[b] == Text(At(g.left), rowsEnd + 2 * g.flags.fontsize, Plain(g.title), TitleBelowStyle))
  {
    RowsCursor(g.data, g.top, Step(g), draw);
    TitleAfterRows(g, draw, rowsEnd);
  }

  /** `TitleBelowAt` for a cursor `rowsEnd` that the rows end at. */
  lemma TitleAfterRows(g: Bulletgraph, draw: RowDrawer, rowsEnd: int)
    requires Rows(g.data, g.top, Step(g), draw).y == rowsEnd
    ensures var t := Sheet(g, draw);
            var shown := g.flags.showtitle && |g.title| > 0;
            var b := 1 + |Rows(g.data, g.top, Step(g), draw).cmds|;
            b <= |t|
            && (shown ==> b < |t| && t[b] == Text(At(g.left), rowsEnd + 2 * g.flags.fontsize, Plain(g.title), TitleBelowStyle))
  {
    var f := FrameOf(g);
    var rows := Rows(g.data, g.top, Step(g), draw);
    var below := TitleBelow(f, g.title, rows.y);
    var notes := NoteBlock(f, g.notes, below.y);
    var lead := [Title(g.title)] + rows.cmds;
    assert Sheet(g, draw) == lead + below.cmds + notes.cmds;
    Middle(lead, below.cmds, notes.cmds);
  }

  /** The notes block ends the sheet, drawn at the cursor left by the
      title below: two font sizes under the rows' end `rowsEnd` when the
      title is shown, at `rowsEnd` otherwise. Its contents are those
      `NoteBlock` states. */
  lemma NotesAt(g: Bulletgraph, draw: RowDrawer, rowsEnd: int)
    requires rowsEnd == g.top + |Accepted(g.data)| * Step(g)
    ensures var t := Sheet(g, draw);
            var shown := g.flags.showtitle && |g.title| > 0;
            var y := if shown then rowsEnd + 2 * g.flags.fontsize else rowsEnd;
            var notes := NoteBlock(FrameOf(g), g.notes, y).cmds;
            var b := 1 + |Rows(g.data, g.top, Step(g), draw).cmds|;
            |t| == b + (if shown then 1 else 0) + |notes| && t[|t| - |notes|..] == notes
  {
    RowsCursor(g.data, g.top, Step(g), draw);
    NotesAfterRows(g, draw, rowsEnd);
  }

  /** `NotesAt` for a cursor `rowsEnd` that the rows end at. */
  lemma NotesAfterRows(g: Bulletgraph, draw: RowDrawer, rowsEnd: int)
    requires Rows(g.data, g.top, Step(g), draw).y == rowsEnd
    ensures var t := Sheet(g, draw);
            var shown := g.flags.showtitle && |g.title| > 0;
            var y := if shown then rowsEnd + 2 * g.flags.fontsize else rowsEnd;
            var notes := NoteBlock(FrameOf(g), g.notes, y).cmds;
            var b := 1 + |Rows(g.data, g.top, Step(g), draw).cmds|;
            |t| == b + (if shown then 1 else 0) + |notes| && t[|t| - |notes|..] == notes
  {
    var f := FrameOf(g);
    var rows := Rows(g.data, g.top, Step(g), draw);
    var shown := g.flags.showtitle && |g.title| > 0;
    var below := TitleBelow(f, g.title, rows.y);
    assert below.y == (if shown then rowsEnd + 2 * g.flags.fontsize else rowsEnd);
    assert |below.cmds| == (if shown then 1 else 0);
    var notes := NoteBlock(f, g.notes, below.y).cmds;
    var lead := [Title(g.title)] + rows.cmds + below.cmds;
    var t := Sheet(g, draw);
    assert t == lead + notes;
    assert |t| - |notes| == |lead|;
    Suffix(lead, notes);
  }

  /** The last part of a concatenation is what follows the first part. */
  lemma Suffix(a: seq<Cmd>, b: seq<Cmd>)
    ensures (a + b)[|a|..] == b
  {
  }

  /** An empty `Qmeasure` still gives one band (whatever the parser makes of
      the empty string); band counts follow the commas. */
  lemma BandsFollowCommas(v: Bdata, parse: Parser)
    ensures |Bands(v, parse)| == Occurrences(v.qmeasure, ',') + 1
    ensures v.qmeasure == "" ==> Bands(v, parse) == [parse("")]
  {
  }

  /** The graph `New` gives, with nothing added, draws only its (empty)
      document title. */
  lemma NewDrawsTitleOnly(parse: Parser)
    ensures Drawbg(New(), parse).trace == [Title("")]
    ensures Drawbg(New(), parse).receiver.left == DefaultLeft
    ensures Drawbg(New(), parse).receiver.right == DefaultRight
    ensures Drawbg(New(), parse).receiver.top == DefaultTop
  {
  }
}
