/**
  The master-stack layout computed by `tile` (xwm.c:28-44, main.c:51-67).

  The C code multiplies the usable width by a float master factor and
  truncates. Here the factor is an integer percent, so the master width is
  `(mfact * width) / 100` with C's truncating division. The loop in `tile`
  only issues one move-resize request per window and changes no state, so
  the layout is a pure function from the list to one placement per index.
*/
module Layout {
  import opened WindowList

  /** Screen size (`DisplayWidth`, `DisplayHeight`) and the configured gap. */
  datatype Geometry = Geometry(width: int, height: int, gap: int)

  /** One `XMoveResizeWindow(display, window, x, y, width, height)`. */
  datatype Placement = Placement(window: Window, x: int, y: int, width: int, height: int)

  /** The master factor as a percent: 0.6 by default (main.c:18), stepped by
      0.05 and clamped to [0.1, 0.9] by the Super+h / Super+l bindings. */
  const DEFAULT_MFACT := 60
  const MFACT_STEP := 5
  const MIN_MFACT := 10
  const MAX_MFACT := 90

  /** Super+h: `mfact = max(0.1, mfact - 0.05)`. */
  function DecreaseMfact(mfact: int): (r: int)
    ensures r >= MIN_MFACT && r <= Max(mfact, MIN_MFACT)
    ensures MIN_MFACT <= mfact <= MAX_MFACT ==> MIN_MFACT <= r <= MAX_MFACT
    ensures mfact - MFACT_STEP >= MIN_MFACT ==> r == mfact - MFACT_STEP
    ensures mfact - MFACT_STEP < MIN_MFACT ==> r == MIN_MFACT
  {
    Max(MIN_MFACT, mfact - MFACT_STEP)
  }

  /** Super+l: `mfact = min(0.9, mfact + 0.05)`. */
  function IncreaseMfact(mfact: int): (r: int)
    ensures r <= MAX_MFACT && r >= Min(mfact, MAX_MFACT)
    ensures MIN_MFACT <= mfact <= MAX_MFACT ==> MIN_MFACT <= r <= MAX_MFACT
    ensures mfact + MFACT_STEP <= MAX_MFACT ==> r == mfact + MFACT_STEP
    ensures mfact + MFACT_STEP > MAX_MFACT ==> r == MAX_MFACT
  {
    Min(MAX_MFACT, mfact + MFACT_STEP)
  }

  /** C's `/` on `int`: the quotient is truncated toward zero. */
  function CDiv(a: int, b: int): (q: int)
    requires b > 0
    ensures a >= 0 ==> q >= 0 && q * b <= a < q * b + b
    ensures a < 0 ==> q <= 0 && q * b - b < a <= q * b
  {
    if a >= 0 then a / b else -((-a) / b)
  }

  /** `master_width = mfact * width` with `width` the screen width minus two
      gaps. */
  function MasterWidth(g: Geometry, mfact: int): int
  {
    CDiv(mfact * (g.width - 2 * g.gap), 100)
  }

  /** `slave_height = (height - (n - 2) * gap) / (n - 1)`. */
  function StackHeight(g: Geometry, n: int): int
    requires n >= 2
  {
    CDiv(g.height - 2 * g.gap - (n - 2) * g.gap, n - 1)
  }

  /** The placements `tile` requests for the list `windows`, in order. */
  function Tile(windows: seq<Window>, g: Geometry, mfact: int): (r: seq<Placement>)
    ensures |r| == |windows|
  {
    var n := |windows|;
    var width := g.width - 2 * g.gap;
    var height := g.height - 2 * g.gap;
    if n == 1 then
      [Placement(windows[0], g.gap, g.gap, width, height)]
    else if n > 1 then
      var mw := MasterWidth(g, mfact);
      var sw := width - mw - g.gap;
      var sh := StackHeight(g, n);
      [Placement(windows[0], g.gap, g.gap, mw, height)] +
      seq(n - 1, i requires 0 <= i < n - 1 =>
        Placement(windows[i + 1], mw + 2 * g.gap, g.gap + i * (sh + g.gap), sw, sh))
    else
      []
  }

  /** Every window gets exactly one placement, and in list order: the
      `i`-th request moves the `i`-th window. */
  lemma TileWindows(windows: seq<Window>, g: Geometry, mfact: int)
    ensures forall i :: 0 <= i < |windows| ==> Tile(windows, g, mfact)[i].window == windows[i]
  {
  }

  /** The placement of stack window `i`. */
  lemma TileStackAt(windows: seq<Window>, g: Geometry, mfact: int, i: int)
    requires 2 <= |windows| && 1 <= i < |windows|
    ensures Tile(windows, g, mfact)[i] ==
      Placement(windows[i], MasterWidth(g, mfact) + 2 * g.gap,
                g.gap + (i - 1) * (StackHeight(g, |windows|) + g.gap),
                g.width - 2 * g.gap - MasterWidth(g, mfact) - g.gap,
                StackHeight(g, |windows|))
  {
  }

  /** An empty list gets no placement; a single window fills the screen
      less one gap on every side. */
  lemma TileFewWindows(windows: seq<Window>, g: Geometry, mfact: int)
    requires |windows| <= 1
    ensures |windows| == 0 ==> Tile(windows, g, mfact) == []
    ensures |windows| == 1 ==>
      Tile(windows, g, mfact) == [Placement(windows[0], g.gap, g.gap, g.width - 2 * g.gap, g.height - 2 * g.gap)]
  {
  }

  /** With two or more windows the master column and the stack column, with
      one gap between them, fill the usable width exactly: every stack window
      starts one gap right of the master and ends one gap left of the screen
      edge. */
  lemma TileColumns(windows: seq<Window>, g: Geometry, mfact: int, i: int)
    requires 2 <= |windows| && 1 <= i < |windows|
    ensures var r := Tile(windows, g, mfact);
      && r[0].x == g.gap && r[0].y == g.gap && r[0].height == g.height - 2 * g.gap
      && r[i].x == r[0].x + r[0].width + g.gap
      && r[0].width + g.gap + r[i].width == g.width - 2 * g.gap
      && r[i].x + r[i].width == g.width - g.gap
  {
    TileStackAt(windows, g, mfact, i);
  }

  /** Stack windows share one height, the first starts one gap below the top,
      and consecutive ones are exactly one gap apart. */
  lemma TileStackSpacing(windows: seq<Window>, g: Geometry, mfact: int, i: int)
    requires 2 <= |windows| && 1 <= i < |windows| - 1
    ensures var r := Tile(windows, g, mfact);
      && r[1].y == g.gap
      && r[i + 1].height == r[i].height
      && r[i + 1].y == r[i].y + r[i].height + g.gap
  {
    TileStackAt(windows, g, mfact, 1);
    TileStackAt(windows, g, mfact, i);
    TileStackAt(windows, g, mfact, i + 1);
    NextRow(i, StackHeight(g, |windows|) + g.gap);
  }

  /** Row `i` of the stack starts one row pitch below row `i - 1`. */
  lemma NextRow(i: int, pitch: int)
    ensures i * pitch == (i - 1) * pitch + pitch
  {
  }

  /** When the stack fits (the usable height covers the gaps between stack
      windows), the last stack window ends on the bottom margin `height - gap`
      or less than `n - 1` pixels above it: the whole shortfall is the
      remainder of the integer division. */
  lemma TileStackBottom(windows: seq<Window>, g: Geometry, mfact: int)
    requires 2 <= |windows|
    requires g.height - 2 * g.gap - (|windows| - 2) * g.gap >= 0
    ensures var r := Tile(windows, g, mfact); var last := r[|windows| - 1];
      g.height - g.gap - (|windows| - 1) < last.y + last.height <= g.height - g.gap
  {
    var n := |windows|;
    var sh := StackHeight(g, n);
    var room := g.height - 2 * g.gap - (n - 2) * g.gap;
    TileStackAt(windows, g, mfact, n - 1);
    assert sh * (n - 1) <= room < sh * (n - 1) + (n - 1);
    StackSpan(n, sh, g.gap);
  }

  /** Where the last of `n - 1` stack windows of height `sh` ends. */
  lemma StackSpan(n: int, sh: int, gap: int)
    ensures gap + (n - 2) * (sh + gap) + sh == gap + (n - 2) * gap + sh * (n - 1)
  {
    assert (n - 2) * (sh + gap) == (n - 2) * sh + (n - 2) * gap;
    assert sh * (n - 1) == (n - 2) * sh + sh;
  }

  lemma StepsApart(i: int, j: int, h: int)
    requires 1 <= i < j && h >= 0
    ensures (j - 1) * h - (i - 1) * h >= h
  {
    var d := j - i;
    assert (j - 1) * h == (i - 1) * h + d * h;
    assert d * h == h + (d - 1) * h;
    assert (d - 1) * h >= 0;
  }

  /** The placements do not overlap: the master lies left of the stack and
      each stack window lies above the next. */
  lemma TileDisjoint(windows: seq<Window>, g: Geometry, mfact: int, i: int, j: int)
    requires 0 <= i < j < |windows| && g.gap >= 0
    requires |windows| >= 2 ==> StackHeight(g, |windows|) >= 0
    ensures var r := Tile(windows, g, mfact);
      (i == 0 && r[i].x + r[i].width <= r[j].x) || r[i].y + r[i].height <= r[j].y
  {
    if i == 0 {
      TileColumns(windows, g, mfact, j);
    } else {
      var sh := StackHeight(g, |windows|);
      TileStackAt(windows, g, mfact, i);
      TileStackAt(windows, g, mfact, j);
      StepsApart(i, j, sh + g.gap);
    }
  }

  /** The layout of three windows on a 1000x800 screen with gap 10 and the
      default factor 60: (10,10,588,780), (608,10,382,385), (608,405,382,385). */
  lemma TileThreeWindows(a: Window, b: Window, c: Window)
    ensures Tile([a, b, c], Geometry(1000, 800, 10), DEFAULT_MFACT) ==
      [Placement(a, 10, 10, 588, 780), Placement(b, 608, 10, 382, 385), Placement(c, 608, 405, 382, 385)]
  {
    var g := Geometry(1000, 800, 10);
    assert MasterWidth(g, DEFAULT_MFACT) == 588;
    assert StackHeight(g, 3) == 385;
  }
}
