/** The drawing surface as an ordered trace of commands. The svgo canvas
    (`Title`, `Text`, `Rect`, `Circle`, `Line`, `Gstyle`, `Gend`) is a
    foreign library; only the calls made to it are modelled. */
module Canvas {
  import opened Numeric

  /** A pixel coordinate or length: either an exact integer, or
      `base + int(mapped)` where `mapped` is a float produced by the interval map.
      The float-to-int conversion is left uninterpreted. */
  datatype Pos = At(px: int) | Shift(base: int, mapped: Mapped)

  /** The text of a label, kept opaque where Go formats a float:
      `Headline` is "%s (%g)" of a title and its measure, `TickValue` is a
      scale value printed with "%.1f" when `oneDecimal` and "%g" otherwise. */
  datatype Label =
    | Plain(s: string)
    | Headline(title: string, measure: real)
    | TickValue(value: real, oneDecimal: bool)

  /** The style argument of a canvas call, one constructor per style the
      bullet graph builds; `Css` gives the text passed to the canvas.
      `NoStyle` stands for a call made without a style argument. */
  datatype Style =
    | NoStyle
    | HeadlineStyle
    | SubtitleStyle
    | ScaleStyle
    | BandStyle(barcolor: string)
    | BarStyle(datacolor: string)
    | CircleStyle(compcolor: string)
    | TickStyle(compcolor: string)
    | TitleBelowStyle
    | NoteStyle

  function Css(s: Style): string
  {
    match s
    case NoStyle => ""
    case HeadlineStyle => "text-anchor:end;font-weight:bold"
    case SubtitleStyle => "text-anchor:end;font-size:75%"
    case ScaleStyle => "text-anchor:middle;font-size:75%"
    case BandStyle(c) => "fill-opacity:0.5;fill:" + c
    case BarStyle(c) => "fill:" + c
    case CircleStyle(c) => "fill-opacity:0.3;fill:" + c
    case TickStyle(c) => "stroke-width:3;stroke:" + c
    case TitleBelowStyle => "text-anchor:start;font-size:200%"
    case NoteStyle => "font-size:100%;text-anchor:start"
  }

  /** One canvas call. */
  datatype Cmd =
    | Title(s: string)
    | Text(x: Pos, y: int, content: Label, style: Style)
    | Rect(rx: int, ry: int, w: Pos, h: int, style: Style)
    | Circle(cx: Pos, cy: int, r: int, style: Style)
    | Line(x1: Pos, y1: int, x2: Pos, y2: int, style: Style)
    | Gstyle(style: Style)
    | Gend

  datatype Kind = TitleKind | TextKind | RectKind | CircleKind | LineKind | GstyleKind | GendKind

  function KindOf(c: Cmd): Kind
  {
    match c
    case Title(_) => TitleKind
    case Text(_, _, _, _) => TextKind
    case Rect(_, _, _, _, _) => RectKind
    case Circle(_, _, _, _) => CircleKind
    case Line(_, _, _, _, _) => LineKind
    case Gstyle(_) => GstyleKind
    case Gend => GendKind
  }

  /** Number of commands of kind `k` in `t`. */
  function Count(t: seq<Cmd>, k: Kind): (n: nat)
    ensures n <= |t|
  {
    if |t| == 0 then 0
    else (if KindOf(t[0]) == k then 1 else 0) + Count(t[1..], k)
  }

  lemma {:induction false} CountAppend(a: seq<Cmd>, b: seq<Cmd>, k: Kind)
    ensures Count(a + b, k) == Count(a, k) + Count(b, k)
  {
    if |a| == 0 {
      assert a + b == b;
    } else {
      CountAppend(a[1..], b, k);
      assert (a + b)[1..] == a[1..] + b;
    }
  }

  lemma {:induction false} CountZero(t: seq<Cmd>, k: Kind)
    requires forall i :: 0 <= i < |t| ==> KindOf(t[i]) != k
    ensures Count(t, k) == 0
  {
    if |t| > 0 {
      CountZero(t[1..], k);
    }
  }

  /** No command of kind `k` exactly when the count of kind `k` is zero. */
  lemma {:induction false} CountNone(t: seq<Cmd>, k: Kind)
    ensures Count(t, k) == 0 <==> forall i :: 0 <= i < |t| ==> KindOf(t[i]) != k
  {
    if |t| > 0 {
      CountNone(t[1..], k);
      if Count(t, k) == 0 {
        forall i | 0 <= i < |t|
          ensures KindOf(t[i]) != k
        {
          if i > 0 {
            assert t[i] == t[1..][i - 1];
          }
        }
      } else if KindOf(t[0]) != k {
        var i :| 0 <= i < |t[1..]| && KindOf(t[1..][i]) == k;
        assert t[i + 1] == t[1..][i];
      }
    }
  }

  /** Replaying `t` from scope depth `d` never ends a scope that was not
      begun, and leaves the depth at `e`. */
  predicate Reaches(t: seq<Cmd>, d: nat, e: nat)
  {
    if |t| == 0 then d == e
    else match t[0]
      case Gstyle(_) => Reaches(t[1..], d + 1, e)
      case Gend => d > 0 && Reaches(t[1..], d - 1, e)
      case _ => Reaches(t[1..], d, e)
  }

  /** Every `Gstyle` is closed by a later `Gend`, and every `Gend` closes an
      earlier `Gstyle`. */
  predicate Balanced(t: seq<Cmd>)
  {
    Reaches(t, 0, 0)
  }

  lemma {:induction false} ReachesAppend(a: seq<Cmd>, b: seq<Cmd>, d: nat, e: nat, f: nat)
    requires Reaches(a, d, e) && Reaches(b, e, f)
    ensures Reaches(a + b, d, f)
  {
    if |a| == 0 {
      assert a + b == b;
    } else {
      assert (a + b)[1..] == a[1..] + b;
      assert (a + b)[0] == a[0];
      match a[0]
      case Gstyle(_) => ReachesAppend(a[1..], b, d + 1, e, f);
      case Gend => ReachesAppend(a[1..], b, d - 1, e, f);
      case _ => ReachesAppend(a[1..], b, d, e, f);
    }
  }

  lemma BalancedAppend(a: seq<Cmd>, b: seq<Cmd>)
    requires Balanced(a) && Balanced(b)
    ensures Balanced(a + b)
  {
    ReachesAppend(a, b, 0, 0, 0);
  }

  /** Commands that neither begin nor end a scope leave the depth alone. */
  lemma {:induction false} FlatReaches(t: seq<Cmd>, d: nat)
    requires Count(t, GstyleKind) == 0 && Count(t, GendKind) == 0
    ensures Reaches(t, d, d)
  {
    if |t| > 0 {
      assert KindOf(t[0]) != GstyleKind && KindOf(t[0]) != GendKind;
      FlatReaches(t[1..], d);
    }
  }

  /** A style scope around scope-free commands is balanced. */
  lemma Scoped(style: Style, body: seq<Cmd>)
    requires Count(body, GstyleKind) == 0 && Count(body, GendKind) == 0
    ensures Balanced([Gstyle(style)] + body + [Gend])
  {
    FlatReaches(body, 1);
    assert Reaches([Gend], 1, 0) by {
      assert [Gend][1..] == [];
    }
    assert Reaches([Gstyle(style)], 0, 1) by {
      assert [Gstyle(style)][1..] == [];
    }
    ReachesAppend([Gstyle(style)], body, 0, 1, 1);
    ReachesAppend([Gstyle(style)] + body, [Gend], 0, 1, 0);
  }

  /** How a command moves the scope depth. */
  function Delta(c: Cmd): int
  {
    match c
    case Gstyle(_) => 1
    case Gend => -1
    case _ => 0
  }

  /** Scope depth reached after the first `i` commands, counted from `d`. */
  function Opened(t: seq<Cmd>, d: int, i: nat): int
    requires i <= |t|
  {
    d + Count(t[..i], GstyleKind) - Count(t[..i], GendKind)
  }

  /** No prefix of `t` takes the depth, counted from `d`, below zero. */
  predicate NeverBelow(t: seq<Cmd>, d: int)
  {
    forall i :: 0 <= i <= |t| ==> Opened(t, d, i) >= 0
  }

  lemma OpenedStep(t: seq<Cmd>, d: int, i: nat)
    requires i < |t|
    ensures Opened(t, d, i + 1) == Opened(t[1..], d + Delta(t[0]), i)
  {
    assert t[..i + 1] == [t[0]] + t[1..][..i];
    assert [t[0]][1..] == [];
    CountAppend([t[0]], t[1..][..i], GstyleKind);
    CountAppend([t[0]], t[1..][..i], GendKind);
  }

  lemma NeverBelowStep(t: seq<Cmd>, d: int)
    requires |t| > 0
    ensures NeverBelow(t, d) <==> d >= 0 && NeverBelow(t[1..], d + Delta(t[0]))
  {
    assert Opened(t, d, 0) == d by {
      assert t[..0] == [];
    }
    var u, d' := t[1..], d + Delta(t[0]);
    if NeverBelow(t, d) {
      forall i | 0 <= i <= |u|
        ensures Opened(u, d', i) >= 0
      {
        OpenedStep(t, d, i);
      }
    }
    if d >= 0 && NeverBelow(t[1..], d + Delta(t[0])) {
      forall i | 0 <= i <= |t|
        ensures Opened(t, d, i) >= 0
      {
        if i > 0 {
          OpenedStep(t, d, i - 1);
        }
      }
    }
  }

  /** The counting view of nesting: `t` reaches `e` from `d` exactly when
      no prefix takes the depth below zero and the begins minus the ends
      over the whole trace move `d` to `e`. */
  lemma {:induction false} ReachesByCounting(t: seq<Cmd>, d: nat, e: nat)
    ensures Reaches(t, d, e) <==> Opened(t, d, |t|) == e && NeverBelow(t, d)
  {
    if |t| == 0 {
      assert t[..0] == t;
    } else {
      NeverBelowStep(t, d);
      OpenedStep(t, d, |t| - 1);
      assert t[..|t|] == t;
      assert t[1..][..|t| - 1] == t[1..];
      var d' := d + Delta(t[0]);
      if d' >= 0 {
        ReachesByCounting(t[1..], d', e);
      } else {
        assert Opened(t[1..], d', 0) < 0 by {
          assert t[1..][..0] == [];
        }
      }
    }
  }

  /** A balanced trace begins and ends equally many scopes, and no prefix
      ends more scopes than it begins. */
  lemma BalancedByCounting(t: seq<Cmd>)
    ensures Balanced(t) <==> Count(t, GstyleKind) == Count(t, GendKind) && NeverBelow(t, 0)
  {
    ReachesByCounting(t, 0, 0);
    assert t[..|t|] == t;
  }
}
