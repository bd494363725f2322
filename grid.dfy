/** The grid drawn over the mosaic: a thin grey line on every pixel boundary and a heavy
    green line every 32 pixels, on a canvas of `32w x 32h`. */
module Grid {

  /** Thin lines are grey `#777777`, half a unit wide; heavy lines green `#00ff00`, three wide. */
  datatype Stroke = Thin | Heavy

  /** A straight segment from `(x0, y0)` to `(x1, y1)`. */
  datatype Line = Line(x0: int, y0: int, x1: int, y1: int, stroke: Stroke)

  /** Thin lines are one pixel's square apart; heavy lines 32 squares apart. */
  function Offset(k: nat, s: Stroke): nat
  {
    match s
    case Thin => 32 * k
    case Heavy => 32 * 32 * k
  }

  /** The `k`-th vertical line of a family, from the top edge of the `32h`-high canvas to the bottom. */
  function Vertical(k: nat, h: nat, s: Stroke): Line
  {
    Line(Offset(k, s), 0, Offset(k, s), 32 * h, s)
  }

  /** The `k`-th horizontal line of a family, across the `32w`-wide canvas. */
  function Horizontal(k: nat, w: nat, s: Stroke): Line
  {
    Line(0, Offset(k, s), 32 * w, Offset(k, s), s)
  }

  /** The first `n` lines of a vertical family, in drawing order. */
  function Verticals(n: nat, h: nat, s: Stroke): (ls: seq<Line>)
    ensures |ls| == n
  {
    seq(n, k requires 0 <= k < n => Vertical(k, h, s))
  }

  function Horizontals(n: nat, w: nat, s: Stroke): (ls: seq<Line>)
    ensures |ls| == n
  {
    seq(n, k requires 0 <= k < n => Horizontal(k, w, s))
  }

  /** Every line the grid pass draws for a `w x h` image, in drawing order: thin verticals,
      thin horizontals, heavy verticals, heavy horizontals; each family has one line more
      than the image has columns or rows. */
  function Lines(w: nat, h: nat): seq<Line>
  {
    Verticals(w + 1, h, Thin) + Horizontals(h + 1, w, Thin) +
    Verticals(w + 1, h, Heavy) + Horizontals(h + 1, w, Heavy)
  }

  lemma VerticalsSnoc(n: nat, h: nat, s: Stroke)
    ensures Verticals(n + 1, h, s) == Verticals(n, h, s) + [Vertical(n, h, s)]
  {
  }

  lemma HorizontalsSnoc(n: nat, w: nat, s: Stroke)
    ensures Horizontals(n + 1, w, s) == Horizontals(n, w, s) + [Horizontal(n, w, s)]
  {
  }

  /** The four loops of the grid pass. */
  method DrawGrid(w: nat, h: nat) returns (lines: seq<Line>)
    ensures lines == Lines(w, h)
  {
    var width, height := w * 32, h * 32;
    lines := [];
    var x := 0;
    while x <= w
      invariant 0 <= x <= w + 1
      invariant lines == Verticals(x, h, Thin)
    {
      VerticalsSnoc(x, h, Thin);
      lines := lines + [Line(x * 32, 0, x * 32, height, Thin)];
      x := x + 1;
    }
    var thinV := lines;
    var y := 0;
    while y <= h
      invariant 0 <= y <= h + 1
      invariant lines == thinV + Horizontals(y, w, Thin)
    {
      HorizontalsSnoc(y, w, Thin);
      lines := lines + [Line(0, y * 32, width, y * 32, Thin)];
      y := y + 1;
    }
    var thin := lines;
    x := 0;
    while x <= w
      invariant 0 <= x <= w + 1
      invariant lines == thin + Verticals(x, h, Heavy)
    {
      VerticalsSnoc(x, h, Heavy);
      lines := lines + [Line(x * 32 * 32, 0, x * 32 * 32, height, Heavy)];
      x := x + 1;
    }
    var drawn := lines;
    y := 0;
    while y <= h
      invariant 0 <= y <= h + 1
      invariant lines == drawn + Horizontals(y, w, Heavy)
    {
      HorizontalsSnoc(y, w, Heavy);
      lines := lines + [Line(0, y * 32 * 32, width, y * 32 * 32, Heavy)];
      y := y + 1;
    }
  }

  /** The four edges of every pixel square are thin lines that cross the whole canvas. */
  lemma CellEdgesDrawn(w: nat, h: nat, x: nat, y: nat)
    requires x < w && y < h
    ensures Line(x * 32, 0, x * 32, 32 * h, Thin) in Lines(w, h)
    ensures Line((x + 1) * 32, 0, (x + 1) * 32, 32 * h, Thin) in Lines(w, h)
    ensures Line(0, y * 32, 32 * w, y * 32, Thin) in Lines(w, h)
    ensures Line(0, (y + 1) * 32, 32 * w, (y + 1) * 32, Thin) in Lines(w, h)
  {
    var ls := Lines(w, h);
    assert ls[x] == Line(x * 32, 0, x * 32, 32 * h, Thin);
    assert ls[x + 1] == Line((x + 1) * 32, 0, (x + 1) * 32, 32 * h, Thin);
    assert ls[w + 1 + y] == Line(0, y * 32, 32 * w, y * 32, Thin);
    assert ls[w + 1 + y + 1] == Line(0, (y + 1) * 32, 32 * w, (y + 1) * 32, Thin);
  }

  /** Every drawn line crosses the whole canvas and runs along a pixel boundary: thin lines
      at multiples of 32 within the canvas, heavy lines at multiples of 1024. */
  predicate OnBoundary(l: Line, w: nat, h: nat)
  {
    ((l.x0 == l.x1 && l.y0 == 0 && l.y1 == 32 * h && l.x0 >= 0) ||
     (l.y0 == l.y1 && l.x0 == 0 && l.x1 == 32 * w && l.y0 >= 0)) &&
    (l.stroke == Thin ==> l.x0 % 32 == 0 && l.y0 % 32 == 0) &&
    (l.stroke == Heavy ==> l.x0 % 1024 == 0 && l.y0 % 1024 == 0)
  }

  lemma LinesOnBoundaries(w: nat, h: nat)
    ensures |Lines(w, h)| == 2 * (w + 1) + 2 * (h + 1)
    ensures forall i | 0 <= i < |Lines(w, h)| :: OnBoundary(Lines(w, h)[i], w, h)
    ensures forall i | 0 <= i < |Lines(w, h)| && Lines(w, h)[i].stroke == Thin ::
              Lines(w, h)[i].x0 <= 32 * w && Lines(w, h)[i].y0 <= 32 * h
  {
    forall i | 0 <= i < |Lines(w, h)|
      ensures OnBoundary(Lines(w, h)[i], w, h)
      ensures Lines(w, h)[i].stroke == Thin ==> Lines(w, h)[i].x0 <= 32 * w && Lines(w, h)[i].y0 <= 32 * h
    {
      LineOnBoundary(w, h, i);
    }
  }

  lemma LineOnBoundary(w: nat, h: nat, i: nat)
    requires i < |Lines(w, h)|
    ensures OnBoundary(Lines(w, h)[i], w, h)
    ensures Lines(w, h)[i].stroke == Thin ==> Lines(w, h)[i].x0 <= 32 * w && Lines(w, h)[i].y0 <= 32 * h
  {
    var ls := Lines(w, h);
    var a, b, c := w + 1, w + 1 + h + 1, w + 1 + h + 1 + w + 1;
    {
      if i < a {
        assert ls[i] == Vertical(i, h, Thin);
      } else if i < b {
        assert ls[i] == Horizontal(i - a, w, Thin);
      } else if i < c {
        assert ls[i] == Vertical(i - b, h, Heavy);
      } else {
        assert ls[i] == Horizontal(i - c, w, Heavy);
      }
    }
  }

  /** A heavy vertical line `k` lands inside the canvas exactly when `32k <= w`, and then
      it lies on the thin line of column `32k`; so `w / 32 + 1` heavy verticals are visible. */
  lemma HeavyVisible(w: nat, k: nat)
    ensures Offset(k, Heavy) <= 32 * w <==> 32 * k <= w
    ensures Offset(k, Heavy) == Offset(32 * k, Thin)
    ensures 32 * k <= w <==> k <= w / 32
  {
  }
}
