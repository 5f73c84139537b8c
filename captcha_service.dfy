/** The challenge generator: a four-digit answer drawn from a random source,
    and a 200x80 RGBA canvas painted in place with a background fill, noise
    lines, seven-segment digit glyphs and noise dots. Random values enter as
    parameters (already drawn, so already in range); the canvas is the raw
    pixel array, before any PNG encoding. */
module CaptchaService {
  import opened Base

  const Width := 200
  const Height := 80
  const DigitCount := 4
  const NoiseLinesCount := 10
  const NoiseDotsCount := 100

  type Byte = x: int | 0 <= x < 256

  datatype Color = RGBA(r: Byte, g: Byte, b: Byte, a: Byte)

  const Background := RGBA(240, 240, 240, 255)
  const NoiseLineColor := RGBA(200, 200, 200, 255)
  const DigitColor := RGBA(50, 50, 50, 255)
  const NoiseDotColor := RGBA(180, 180, 180, 255)

  datatype Point = Point(x: int, y: int)

  predicate InCanvas(p: Point) {
    0 <= p.x < Width && 0 <= p.y < Height
  }

  predicate IsCanvas(img: array2<Color>) {
    img.Length0 == Width && img.Length1 == Height
  }

  // ---------------------------------------------------------------------
  // The answer

  /** One value taken from the cryptographic source: a number below the
      requested bound, or the source's failure. */
  datatype Rand = Drawn(n: int) | Failed

  /** A challenge answer: exactly four decimal digits. */
  predicate IsAnswer(s: string) {
    |s| == DigitCount && forall i :: 0 <= i < |s| ==> IsDigit(s[i])
  }

  /** The answer loop of Generate: four digits, each the decimal rendering of
      one value drawn below 10; the first failing draw aborts generation. */
  method DrawAnswer(draws: seq<Rand>) returns (answer: Option<string>)
    requires |draws| == DigitCount
    requires forall i :: 0 <= i < |draws| && draws[i].Drawn? ==> 0 <= draws[i].n < 10
    ensures answer.None? <==> exists i :: 0 <= i < DigitCount && draws[i].Failed?
    ensures answer.Some? ==> IsAnswer(answer.value)
    ensures answer.Some? ==> forall i :: 0 <= i < DigitCount ==> answer.value[i] == DigitChar(draws[i].n)
  {
    var s := "";
    for i := 0 to DigitCount
      invariant |s| == i
      invariant forall k :: 0 <= k < i ==> draws[k].Drawn? && s[k] == DigitChar(draws[k].n)
    {
      match draws[i]
      case Failed =>
        return None;
      case Drawn(n) =>
        s := s + IntToString(n);
    }
    return Some(s);
  }

  /** Every four-digit string, "0000" included, is the answer of some draw. */
  lemma EveryAnswerDrawable(s: string)
    requires IsAnswer(s)
    ensures var draws := seq(DigitCount, i requires 0 <= i < DigitCount => Drawn(s[i] as int - '0' as int));
      forall i :: 0 <= i < DigitCount ==> 0 <= draws[i].n < 10 && DigitChar(draws[i].n) == s[i]
  {
  }

  // ---------------------------------------------------------------------
  // Pixels

  /** The pixels one plotted point `p` of a line sets: `p` itself and its east
      and south neighbours, each only if it lies on the canvas, and nothing at
      all when `p` is off the canvas. */
  predicate Near(p: Point, q: Point) {
    InCanvas(p) && InCanvas(q) &&
    (q == p || q == Point(p.x + 1, p.y) || q == Point(p.x, p.y + 1))
  }

  /** Pixel `q` is set by some point of `path`. */
  ghost predicate Covers(path: seq<Point>, q: Point)
    decreases |path|
  {
    |path| > 0 && (Covers(path[..|path| - 1], q) || Near(path[|path| - 1], q))
  }

  /** Pixel `q` is set by some point of some path in `paths`. */
  ghost predicate CoversAny(paths: seq<seq<Point>>, q: Point)
    decreases |paths|
  {
    |paths| > 0 && (CoversAny(paths[..|paths| - 1], q) || Covers(paths[|paths| - 1], q))
  }

  lemma CoversSnoc(path: seq<Point>, p: Point)
    ensures forall q :: Covers(path + [p], q) <==> Covers(path, q) || Near(p, q)
  {
    assert (path + [p])[..|path|] == path;
  }

  lemma CoversAnySnoc(paths: seq<seq<Point>>, path: seq<Point>)
    ensures forall q :: CoversAny(paths + [path], q) <==> CoversAny(paths, q) || Covers(path, q)
  {
    assert (paths + [path])[..|paths|] == paths;
  }

  lemma CoversAnyConcat(ps: seq<seq<Point>>, qs: seq<seq<Point>>)
    ensures forall q :: CoversAny(ps + qs, q) <==> CoversAny(ps, q) || CoversAny(qs, q)
    decreases |qs|
  {
    if qs == [] {
      assert ps + qs == ps;
    } else {
      var last := qs[|qs| - 1];
      var init := qs[..|qs| - 1];
      assert ps + qs == (ps + init) + [last];
      assert qs == init + [last];
      CoversAnyConcat(ps, init);
      CoversAnySnoc(ps + init, last);
      CoversAnySnoc(init, last);
    }
  }

  /** A point of a path on the canvas is covered by the path. */
  lemma {:induction false} CoversPoint(path: seq<Point>, j: int)
    requires 0 <= j < |path| && InCanvas(path[j])
    ensures Covers(path, path[j])
    decreases |path|
  {
    var n := |path| - 1;
    if j < n {
      assert path[..n][j] == path[j];
      CoversPoint(path[..n], j);
    }
  }

  /** A pixel covered by one path of a list is covered by the list. */
  lemma {:induction false} CoversAnyPath(paths: seq<seq<Point>>, k: int, q: Point)
    requires 0 <= k < |paths| && Covers(paths[k], q)
    ensures CoversAny(paths, q)
    decreases |paths|
  {
    var n := |paths| - 1;
    if k < n {
      assert paths[..n][k] == paths[k];
      CoversAnyPath(paths[..n], k, q);
    }
  }

  /** Sets the pixel at `p` and its east and south neighbours, skipping
      everything off the canvas (the body of drawLine's loop). */
  method Plot(img: array2<Color>, p: Point, col: Color)
    requires IsCanvas(img)
    modifies img
    ensures forall x, y :: 0 <= x < Width && 0 <= y < Height ==>
      img[x, y] == if Near(p, Point(x, y)) then col else old(img[x, y])
  {
    if InCanvas(p) {
      img[p.x, p.y] := col;
      if p.x + 1 < Width {
        img[p.x + 1, p.y] := col;
      }
      if p.y + 1 < Height {
        img[p.x, p.y + 1] := col;
      }
    }
  }

  /** Fills the whole canvas with one colour (draw.Draw with a uniform source). */
  method Fill(img: array2<Color>, col: Color)
    requires IsCanvas(img)
    modifies img
    ensures forall x, y :: 0 <= x < Width && 0 <= y < Height ==> img[x, y] == col
  {
    for x := 0 to Width
      invariant forall i, j :: 0 <= i < x && 0 <= j < Height ==> img[i, j] == col
    {
      for y := 0 to Height
        invariant forall i, j :: 0 <= i < x && 0 <= j < Height ==> img[i, j] == col
        invariant forall j :: 0 <= j < y ==> img[x, j] == col
      {
        img[x, y] := col;
      }
    }
  }

  // ---------------------------------------------------------------------
  // Lines

  function Abs(n: int): int {
    if n < 0 then -n else n
  }

  function Min(a: int, b: int): int {
    if a < b then a else b
  }

  function Max(a: int, b: int): int {
    if a < b then b else a
  }

  /** One step of a line: a different point, each coordinate moved by at
      most one. */
  predicate Adjacent(p: Point, q: Point) {
    p != q && -1 <= q.x - p.x <= 1 && -1 <= q.y - p.y <= 1
  }

  /** `p` lies in the bounding box of `a` and `b`. */
  predicate InBox(p: Point, a: Point, b: Point) {
    Min(a.x, b.x) <= p.x <= Max(a.x, b.x) && Min(a.y, b.y) <= p.y <= Max(a.y, b.y)
  }

  /** `path` is a connected line from `from` to `to` inside their bounding box. */
  ghost predicate IsLine(path: seq<Point>, from: Point, to: Point) {
    |path| >= 1 && path[0] == from && path[|path| - 1] == to &&
    (forall k :: 0 < k < |path| ==> Adjacent(path[k - 1], path[k])) &&
    (forall k :: 0 <= k < |path| ==> InBox(path[k], from, to))
  }

  /** One iteration of Bresenham's loop while the end point is not reached:
      with `a` and `b` the distances still to go on each axis, the error term
      moves x only when `a > 0`, moves y only when `b > 0`, moves at least one
      of them, and keeps its relation to the remaining distances. */
  lemma BresenhamStep(dx: int, dy: int, a: int, b: int, err: int)
    requires 0 <= a <= dx && 0 <= b <= dy && (a > 0 || b > 0)
    requires err == dx - dy + dy * a - dx * b
    ensures 2 * err > -dy ==> a > 0
    ensures 2 * err < dx ==> b > 0
    ensures 2 * err > -dy || 2 * err < dx
    ensures err - dy == dx - dy + dy * (a - 1) - dx * b
    ensures err + dx == dx - dy + dy * a - dx * (b - 1)
    ensures err - dy + dx == dx - dy + dy * (a - 1) - dx * (b - 1)
  {
    if a == 0 {
      assert dx * b >= dx by { MulAtLeast(dx, b); }
    }
    if b == 0 {
      assert dy * a >= dy by { MulAtLeast(dy, a); }
    }
  }

  lemma MulAtLeast(p: int, q: int)
    requires p >= 0 && q >= 1
    ensures p * q >= p
  {
  }

  /** The points plotted so far on the way from `from` to `to`, with `next`
      the point about to be plotted: connected, inside the bounding box, and
      starting at `from`. */
  ghost predicate Trail(path: seq<Point>, from: Point, to: Point, next: Point) {
    (path == [] ==> next == from) &&
    (path != [] ==> path[0] == from && Adjacent(path[|path| - 1], next)) &&
    (forall k :: 0 < k < |path| ==> Adjacent(path[k - 1], path[k])) &&
    (forall k :: 0 <= k < |path| ==> InBox(path[k], from, to))
  }

  lemma TrailExtend(path: seq<Point>, from: Point, to: Point, p: Point, next: Point)
    requires Trail(path, from, to, p) && InBox(p, from, to) && Adjacent(p, next)
    ensures Trail(path + [p], from, to, next)
  {
  }

  lemma TrailEnd(path: seq<Point>, from: Point, to: Point)
    requires Trail(path, from, to, to) && InBox(to, from, to)
    ensures IsLine(path + [to], from, to)
  {
  }

  /** Bresenham's integer line from (x1, y1) to (x2, y2), every visited point
      plotted two pixels thick. Returns the visited points. The loop always
      ends: the distance still to go, `a + b` below, drops at every step. */
  method DrawLine(img: array2<Color>, x1: int, y1: int, x2: int, y2: int, col: Color)
    returns (ghost path: seq<Point>)
    requires IsCanvas(img)
    modifies img
    ensures IsLine(path, Point(x1, y1), Point(x2, y2))
    ensures forall x, y :: 0 <= x < Width && 0 <= y < Height ==>
      img[x, y] == if Covers(path, Point(x, y)) then col else old(img[x, y])
  {
    var dx := Abs(x2 - x1);
    var dy := Abs(y2 - y1);
    var sx := -1;
    if x1 < x2 {
      sx := 1;
    }
    var sy := -1;
    if y1 < y2 {
      sy := 1;
    }
    var err := dx - dy;
    var x, y := x1, y1;
    // a and b: how far x and y still are from the end point.
    ghost var a: int, b: int := dx, dy;
    ghost var from, to := Point(x1, y1), Point(x2, y2);
    path := [];
    while true
      invariant 0 <= a <= dx && 0 <= b <= dy
      invariant if x1 < x2 then sx == 1 && x == x2 - a else sx == -1 && x == x2 + a
      invariant if y1 < y2 then sy == 1 && y == y2 - b else sy == -1 && y == y2 + b
      invariant err == dx - dy + dy * a - dx * b
      invariant Trail(path, from, to, Point(x, y))
      invariant forall x', y' :: 0 <= x' < Width && 0 <= y' < Height ==>
        img[x', y'] == if Covers(path, Point(x', y')) then col else old(img[x', y'])
      decreases a + b
    {
      var here := Point(x, y);
      assert InBox(here, from, to);
      Plot(img, here, col);
      CoversSnoc(path, here);
      if x == x2 && y == y2 {
        TrailEnd(path, from, to);
        path := path + [here];
        break;
      }
      BresenhamStep(dx, dy, a, b, err);
      var e2 := 2 * err;
      if e2 > -dy {
        err := err - dy;
        x := x + sx;
        a := a - 1;
      }
      if e2 < dx {
        err := err + dx;
        y := y + sy;
        b := b - 1;
      }
      TrailExtend(path, from, to, here, Point(x, y));
      path := path + [here];
    }
  }

  // ---------------------------------------------------------------------
  // Digits

  /** A stroke of a glyph, in the glyph's own frame centred on (0, 0). */
  datatype Segment = Segment(x1: int, y1: int, x2: int, y2: int)

  predicate InGlyphFrame(s: Segment) {
    -10 <= s.x1 <= 10 && -10 <= s.x2 <= 10 && -20 <= s.y1 <= 20 && -20 <= s.y2 <= 20
  }

  /** The seven-segment table; any other character has no segments. */
  function DigitSegments(digit: char): (segs: seq<Segment>)
    ensures forall k :: 0 <= k < |segs| ==> InGlyphFrame(segs[k])
    ensures IsDigit(digit) <==> |segs| > 0
  {
    match digit
    case '0' => [Segment(-10, -20, 10, -20), Segment(10, -20, 10, 20), Segment(10, 20, -10, 20), Segment(-10, 20, -10, -20)]
    case '1' => [Segment(0, -20, 0, 20)]
    case '2' => [Segment(-10, -20, 10, -20), Segment(10, -20, 10, 0), Segment(10, 0, -10, 0), Segment(-10, 0, -10, 20), Segment(-10, 20, 10, 20)]
    case '3' => [Segment(-10, -20, 10, -20), Segment(10, -20, 10, 20), Segment(10, 20, -10, 20), Segment(-5, 0, 10, 0)]
    case '4' => [Segment(-10, -20, -10, 0), Segment(-10, 0, 10, 0), Segment(10, -20, 10, 20)]
    case '5' => [Segment(10, -20, -10, -20), Segment(-10, -20, -10, 0), Segment(-10, 0, 10, 0), Segment(10, 0, 10, 20), Segment(10, 20, -10, 20)]
    case '6' => [Segment(10, -20, -10, -20), Segment(-10, -20, -10, 20), Segment(-10, 20, 10, 20), Segment(10, 20, 10, 0), Segment(10, 0, -10, 0)]
    case '7' => [Segment(-10, -20, 10, -20), Segment(10, -20, 10, 20)]
    case '8' => [Segment(-10, -20, 10, -20), Segment(10, -20, 10, 20), Segment(10, 20, -10, 20), Segment(-10, 20, -10, -20), Segment(-10, 0, 10, 0)]
    case '9' => [Segment(10, 20, 10, -20), Segment(10, -20, -10, -20), Segment(-10, -20, -10, 0), Segment(-10, 0, 10, 0)]
    case _ => []
  }

  function SegmentStart(s: Segment, offsetX: int, offsetY: int): Point {
    Point(offsetX + s.x1, offsetY + s.y1)
  }

  function SegmentEnd(s: Segment, offsetX: int, offsetY: int): Point {
    Point(offsetX + s.x2, offsetY + s.y2)
  }

  /** Draws one glyph segment shifted to the glyph's centre. */
  method DrawSegment(img: array2<Color>, seg: Segment, offsetX: int, offsetY: int, col: Color)
    returns (ghost path: seq<Point>)
    requires IsCanvas(img)
    modifies img
    ensures IsLine(path, SegmentStart(seg, offsetX, offsetY), SegmentEnd(seg, offsetX, offsetY))
    ensures forall x, y :: 0 <= x < Width && 0 <= y < Height ==>
      img[x, y] == if Covers(path, Point(x, y)) then col else old(img[x, y])
  {
    path := DrawLine(img, offsetX + seg.x1, offsetY + seg.y1, offsetX + seg.x2, offsetY + seg.y2, col);
  }

  /** Draws every segment of `digit`'s glyph centred on (x, y); returns one
      stroke per segment, in table order. */
  method DrawDigit(img: array2<Color>, digit: char, x: int, y: int, col: Color)
    returns (ghost strokes: seq<seq<Point>>)
    requires IsCanvas(img)
    modifies img
    ensures |strokes| == |DigitSegments(digit)|
    ensures forall k :: 0 <= k < |strokes| ==>
      IsLine(strokes[k], SegmentStart(DigitSegments(digit)[k], x, y), SegmentEnd(DigitSegments(digit)[k], x, y))
    ensures forall i, j :: 0 <= i < Width && 0 <= j < Height ==>
      img[i, j] == if CoversAny(strokes, Point(i, j)) then col else old(img[i, j])
  {
    var segments := DigitSegments(digit);
    strokes := [];
    for k := 0 to |segments|
      invariant |strokes| == k
      invariant forall m :: 0 <= m < k ==>
        IsLine(strokes[m], SegmentStart(segments[m], x, y), SegmentEnd(segments[m], x, y))
      invariant forall i, j :: 0 <= i < Width && 0 <= j < Height ==>
        img[i, j] == if CoversAny(strokes, Point(i, j)) then col else old(img[i, j])
    {
      var path := DrawSegment(img, segments[k], x, y, col);
      CoversAnySnoc(strokes, path);
      strokes := strokes + [path];
    }
  }

  /** Where Generate centres digit `i`: x = i * (200 / 4) + (200 / 4) / 4,
      y = 80 / 2. */
  function DigitCentre(i: int): (c: Point)
    ensures 0 <= i < DigitCount ==> InCanvas(c) && c.y == Height / 2
  {
    var digitWidth := Width / DigitCount;
    Point(i * digitWidth + digitWidth / 4, Height / 2)
  }

  /** The glyph frames at two different centres are disjoint: the x of
      every segment end lies within ten of the centre, and the centres are
      fifty apart. */
  lemma GlyphFramesApart(i: int, j: int)
    requires 0 <= i < j < DigitCount
    ensures DigitCentre(i).x + 10 < DigitCentre(j).x - 10
  {
  }

  /** A point whose whole two-pixel stroke (itself and its east and south
      neighbours) is on the canvas, so drawing it clips nothing. */
  predicate Unclipped(p: Point) {
    0 <= p.x && p.x + 1 < Width && 0 <= p.y && p.y + 1 < Height
  }

  lemma UnclippedPlotsAll(p: Point)
    requires Unclipped(p)
    ensures Near(p, p) && Near(p, Point(p.x + 1, p.y)) && Near(p, Point(p.x, p.y + 1))
  {
  }

  /** Every point in the bounding box of any segment of any glyph placed at
      any of the four digit centres is unclipped. */
  lemma GlyphInsideCanvas(i: int, digit: char, k: int, p: Point)
    requires 0 <= i < DigitCount
    requires 0 <= k < |DigitSegments(digit)|
    requires InBox(p, SegmentStart(DigitSegments(digit)[k], DigitCentre(i).x, DigitCentre(i).y),
                      SegmentEnd(DigitSegments(digit)[k], DigitCentre(i).x, DigitCentre(i).y))
    ensures Unclipped(p)
  {
    assert 12 <= DigitCentre(i).x <= 162;
    assert InGlyphFrame(DigitSegments(digit)[k]);
  }

  /** `glyph` is the glyph of segment table `segs` drawn centred on `c`:
      one line per segment, in table order. */
  ghost predicate GlyphAt(glyph: seq<seq<Point>>, segs: seq<Segment>, c: Point) {
    |glyph| == |segs| &&
    forall k :: 0 <= k < |glyph| ==> IsLine(glyph[k], SegmentStart(segs[k], c.x, c.y), SegmentEnd(segs[k], c.x, c.y))
  }

  /** `glyphs[i]` is the glyph of the answer's digit `i`, drawn at digit
      centre `i`. */
  ghost predicate AnswerGlyphs(glyphs: seq<seq<seq<Point>>>, answer: string) {
    |glyphs| == |answer| &&
    forall i :: 0 <= i < |answer| ==> GlyphAt(glyphs[i], DigitSegments(answer[i]), DigitCentre(i))
  }

  /** So every stroke of a glyph drawn at digit centre `i` is unclipped. */
  lemma GlyphStrokesUnclipped(i: int, digit: char, strokes: seq<seq<Point>>)
    requires 0 <= i < DigitCount
    requires GlyphAt(strokes, DigitSegments(digit), DigitCentre(i))
    ensures forall k, j :: 0 <= k < |strokes| && 0 <= j < |strokes[k]| ==> Unclipped(strokes[k][j])
  {
    forall k, j | 0 <= k < |strokes| && 0 <= j < |strokes[k]|
      ensures Unclipped(strokes[k][j])
    {
      GlyphInsideCanvas(i, digit, k, strokes[k][j]);
    }
  }

  // ---------------------------------------------------------------------
  // Noise

  /** The four coordinates one noise line draws, each below its bound. */
  datatype NoiseLine = NoiseLine(x1: int, y1: int, x2: int, y2: int)

  function LineStart(l: NoiseLine): Point {
    Point(l.x1, l.y1)
  }

  function LineEnd(l: NoiseLine): Point {
    Point(l.x2, l.y2)
  }

  /** Both end points are drawn inside the canvas. */
  predicate ValidNoiseLine(l: NoiseLine) {
    InCanvas(LineStart(l)) && InCanvas(LineEnd(l))
  }

  method DrawNoiseLine(img: array2<Color>, l: NoiseLine) returns (ghost path: seq<Point>)
    requires IsCanvas(img)
    modifies img
    ensures IsLine(path, LineStart(l), LineEnd(l))
    ensures forall x, y :: 0 <= x < Width && 0 <= y < Height ==>
      img[x, y] == if Covers(path, Point(x, y)) then NoiseLineColor else old(img[x, y])
  {
    path := DrawLine(img, l.x1, l.y1, l.x2, l.y2, NoiseLineColor);
  }

  /** A noise line between two points of the canvas stays on the canvas:
      none of its pixels is clipped away. */
  lemma NoiseLineInCanvas(path: seq<Point>, l: NoiseLine)
    requires ValidNoiseLine(l) && IsLine(path, LineStart(l), LineEnd(l))
    ensures forall k :: 0 <= k < |path| ==> InCanvas(path[k])
  {
  }

  /** One noise dot at a drawn point; nothing else changes. */
  method DrawNoiseDot(img: array2<Color>, p: Point)
    requires IsCanvas(img)
    requires InCanvas(p)
    modifies img
    ensures forall x, y :: 0 <= x < Width && 0 <= y < Height ==>
      img[x, y] == if Point(x, y) == p then NoiseDotColor else old(img[x, y])
  {
    img[p.x, p.y] := NoiseDotColor;
  }

  // ---------------------------------------------------------------------
  // The whole challenge

  datatype CaptchaImage = CaptchaImage(pixels: array2<Color>, answer: string)

  /** The colour Generate leaves at pixel `q`: dots are drawn last, digits
      before them, noise lines before those, all over the background. */
  ghost function FinalColor(lines: seq<seq<Point>>, digits: seq<seq<Point>>, dots: seq<Point>, q: Point): Color {
    if q in dots then NoiseDotColor
    else if CoversAny(digits, q) then DigitColor
    else if CoversAny(lines, q) then NoiseLineColor
    else Background
  }

  lemma FinalColorInPalette(lines: seq<seq<Point>>, digits: seq<seq<Point>>, dots: seq<Point>, q: Point)
    ensures FinalColor(lines, digits, dots, q) in {Background, NoiseLineColor, DigitColor, NoiseDotColor}
  {
  }

  /** `strokes[m]` is a line between the end points of `lines[m]`, for every m. */
  ghost predicate Traces(strokes: seq<seq<Point>>, lines: seq<NoiseLine>)
    decreases |lines|
  {
    |strokes| == |lines| &&
    (lines != [] ==>
      Traces(strokes[..|strokes| - 1], lines[..|lines| - 1]) &&
      IsLine(strokes[|strokes| - 1], LineStart(lines[|lines| - 1]), LineEnd(lines[|lines| - 1])))
  }

  lemma TracesSnoc(strokes: seq<seq<Point>>, lines: seq<NoiseLine>, path: seq<Point>, l: NoiseLine)
    requires Traces(strokes, lines) && IsLine(path, LineStart(l), LineEnd(l))
    ensures Traces(strokes + [path], lines + [l])
  {
    assert (strokes + [path])[..|strokes|] == strokes;
    assert (lines + [l])[..|lines|] == lines;
  }

  lemma {:induction false} TracesAll(strokes: seq<seq<Point>>, lines: seq<NoiseLine>)
    requires Traces(strokes, lines)
    ensures forall m :: 0 <= m < |lines| ==> IsLine(strokes[m], LineStart(lines[m]), LineEnd(lines[m]))
    decreases |lines|
  {
    if lines != [] {
      var n := |lines| - 1;
      TracesAll(strokes[..n], lines[..n]);
      forall m | 0 <= m < n
        ensures IsLine(strokes[m], LineStart(lines[m]), LineEnd(lines[m]))
      {
        assert strokes[..n][m] == strokes[m] && lines[..n][m] == lines[m];
      }
    }
  }

  /** Generate's noise-line loop: one line per drawn coordinate quadruple,
      over a canvas holding only the background. */
  method DrawNoiseLines(img: array2<Color>, lines: seq<NoiseLine>) returns (ghost strokes: seq<seq<Point>>)
    requires IsCanvas(img)
    requires forall x, y :: 0 <= x < Width && 0 <= y < Height ==> img[x, y] == Background
    modifies img
    ensures |strokes| == |lines|
    ensures forall i :: 0 <= i < |lines| ==>
      IsLine(strokes[i], LineStart(lines[i]), LineEnd(lines[i]))
    ensures forall x, y :: 0 <= x < Width && 0 <= y < Height ==>
      img[x, y] == if CoversAny(strokes, Point(x, y)) then NoiseLineColor else Background
  {
    strokes := [];
    for i := 0 to |lines|
      invariant Traces(strokes, lines[..i])
      invariant forall x, y :: 0 <= x < Width && 0 <= y < Height ==>
        img[x, y] == if CoversAny(strokes, Point(x, y)) then NoiseLineColor else Background
    {
      var path := DrawNoiseLine(img, lines[i]);
      forall x, y | 0 <= x < Width && 0 <= y < Height
        ensures img[x, y] == if CoversAny(strokes + [path], Point(x, y)) then NoiseLineColor else Background
      {
        CoversAnySnoc(strokes, path);
      }
      TracesSnoc(strokes, lines[..i], path, lines[i]);
      assert lines[..i] + [lines[i]] == lines[..i + 1];
      strokes := strokes + [path];
    }
    assert lines[..|lines|] == lines;
    TracesAll(strokes, lines);
  }

  /** The strokes of the glyphs, in drawing order. */
  ghost function Flatten(glyphs: seq<seq<seq<Point>>>): seq<seq<Point>>
    decreases |glyphs|
  {
    if glyphs == [] then [] else Flatten(glyphs[..|glyphs| - 1]) + glyphs[|glyphs| - 1]
  }

  lemma FlattenFour(glyphs: seq<seq<seq<Point>>>)
    requires |glyphs| == 4
    ensures Flatten(glyphs) == glyphs[0] + glyphs[1] + glyphs[2] + glyphs[3]
  {
    var g3, g2, g1 := glyphs[..3], glyphs[..2], glyphs[..1];
    assert g3[..2] == g2 && g2[..1] == g1 && g1[..0] == [];
    assert Flatten(g1) == [] + glyphs[0] == glyphs[0];
    assert Flatten(g2) == Flatten(g1) + glyphs[1];
    assert Flatten(g3) == Flatten(g2) + glyphs[2];
    assert Flatten(glyphs) == Flatten(g3) + glyphs[3];
  }

  /** `glyphs[m]` is the glyph of segment table `tables[m]` at the `m`-th
      digit centre, for every m. */
  ghost predicate Glyphs(glyphs: seq<seq<seq<Point>>>, tables: seq<seq<Segment>>)
    decreases |tables|
  {
    |glyphs| == |tables| &&
    (tables != [] ==>
      Glyphs(glyphs[..|glyphs| - 1], tables[..|tables| - 1]) &&
      GlyphAt(glyphs[|glyphs| - 1], tables[|tables| - 1], DigitCentre(|tables| - 1)))
  }

  lemma GlyphsSnoc(glyphs: seq<seq<seq<Point>>>, tables: seq<seq<Segment>>, glyph: seq<seq<Point>>, segs: seq<Segment>)
    requires Glyphs(glyphs, tables) && GlyphAt(glyph, segs, DigitCentre(|tables|))
    ensures Glyphs(glyphs + [glyph], tables + [segs])
  {
    assert (glyphs + [glyph])[..|glyphs|] == glyphs;
    assert (tables + [segs])[..|tables|] == tables;
  }

  lemma {:induction false} GlyphsAll(glyphs: seq<seq<seq<Point>>>, tables: seq<seq<Segment>>)
    requires Glyphs(glyphs, tables)
    ensures forall m :: 0 <= m < |tables| ==> GlyphAt(glyphs[m], tables[m], DigitCentre(m))
    decreases |tables|
  {
    if tables != [] {
      var n := |tables| - 1;
      GlyphsAll(glyphs[..n], tables[..n]);
      forall m | 0 <= m < n
        ensures GlyphAt(glyphs[m], tables[m], DigitCentre(m))
      {
        assert glyphs[..n][m] == glyphs[m] && tables[..n][m] == tables[m];
      }
    }
  }

  /** The segment tables of the digits of `ds`, in order. */
  ghost function Tables(ds: string): seq<seq<Segment>>
    decreases |ds|
  {
    if ds == [] then [] else Tables(ds[..|ds| - 1]) + [DigitSegments(ds[|ds| - 1])]
  }

  lemma TablesSnoc(ds: string, i: int)
    requires 0 <= i < |ds|
    ensures Tables(ds[..i + 1]) == Tables(ds[..i]) + [DigitSegments(ds[i])]
  {
    assert ds[..i + 1][..i] == ds[..i];
  }

  lemma {:induction false} TablesAt(ds: string)
    ensures |Tables(ds)| == |ds|
    ensures forall m :: 0 <= m < |ds| ==> Tables(ds)[m] == DigitSegments(ds[m])
    decreases |ds|
  {
    if ds != [] {
      var n := |ds| - 1;
      TablesAt(ds[..n]);
      forall m | 0 <= m < n
        ensures Tables(ds)[m] == DigitSegments(ds[m])
      {
        assert ds[..n][m] == ds[m];
      }
    }
  }

  /** Glyphs drawn for the tables of `answer`'s digits are the glyphs of
      those digits at their centres. */
  lemma GlyphsOfAnswer(glyphs: seq<seq<seq<Point>>>, answer: string)
    requires Glyphs(glyphs, Tables(answer))
    ensures AnswerGlyphs(glyphs, answer)
  {
    TablesAt(answer);
    GlyphsAll(glyphs, Tables(answer));
  }

  /** No stroke of the glyphs drawn at the digit centres is clipped. */
  lemma {:induction false} FlattenUnclipped(glyphs: seq<seq<seq<Point>>>, answer: string)
    requires |glyphs| <= DigitCount && |glyphs| <= |answer|
    requires forall i :: 0 <= i < |glyphs| ==> GlyphAt(glyphs[i], DigitSegments(answer[i]), DigitCentre(i))
    ensures forall k, j :: 0 <= k < |Flatten(glyphs)| && 0 <= j < |Flatten(glyphs)[k]| ==> Unclipped(Flatten(glyphs)[k][j])
    decreases |glyphs|
  {
    if glyphs != [] {
      var n := |glyphs| - 1;
      FlattenUnclipped(glyphs[..n], answer);
      GlyphStrokesUnclipped(n, answer[n], glyphs[n]);
    }
  }

  /** The canvas shows the digit strokes `below` over the noise strokes
      `lines` over the background. */
  ghost predicate DigitLayer(img: array2<Color>, below: seq<seq<Point>>, lines: seq<seq<Point>>)
    requires IsCanvas(img)
    reads img
  {
    forall x, y :: 0 <= x < Width && 0 <= y < Height ==>
      img[x, y] == if CoversAny(below, Point(x, y)) then DigitColor
                   else if CoversAny(lines, Point(x, y)) then NoiseLineColor
                   else Background
  }

  /** One turn of Generate's digit loop: the glyph of `digit` at the
      `i`-th centre, drawn over the earlier glyphs and the noise lines. */
  method DrawGlyph(img: array2<Color>, digit: char, i: int, ghost below: seq<seq<Point>>, ghost lines: seq<seq<Point>>)
    returns (ghost glyph: seq<seq<Point>>)
    requires IsCanvas(img)
    requires 0 <= i < DigitCount
    requires DigitLayer(img, below, lines)
    modifies img
    ensures GlyphAt(glyph, DigitSegments(digit), DigitCentre(i))
    ensures DigitLayer(img, below + glyph, lines)
  {
    var digitWidth := Width / DigitCount;
    var x := i * digitWidth + digitWidth / 4;
    var y := Height / 2;
    assert Point(x, y) == DigitCentre(i);
    glyph := DrawDigit(img, digit, x, y, DigitColor);
    CoversAnyConcat(below, glyph);
  }

  /** Generate's digit loop: digit `i` of the answer drawn at the `i`-th
      centre, over a canvas holding the background and the noise lines.
      `glyphs[i]` is the glyph of digit `i`. */
  method DrawAnswerDigits(img: array2<Color>, answer: string, ghost lines: seq<seq<Point>>)
    returns (ghost glyphs: seq<seq<seq<Point>>>, ghost strokes: seq<seq<Point>>)
    requires IsCanvas(img)
    requires IsAnswer(answer)
    requires forall x, y :: 0 <= x < Width && 0 <= y < Height ==>
      img[x, y] == if CoversAny(lines, Point(x, y)) then NoiseLineColor else Background
    modifies img
    ensures |glyphs| == DigitCount && AnswerGlyphs(glyphs, answer)
    ensures strokes == glyphs[0] + glyphs[1] + glyphs[2] + glyphs[3]
    ensures forall k, j :: 0 <= k < |strokes| && 0 <= j < |strokes[k]| ==> Unclipped(strokes[k][j])
    ensures forall x, y :: 0 <= x < Width && 0 <= y < Height ==>
      img[x, y] == if CoversAny(strokes, Point(x, y)) then DigitColor
                   else if CoversAny(lines, Point(x, y)) then NoiseLineColor
                   else Background
  {
    glyphs, strokes := [], [];
    ghost var tables: seq<seq<Segment>> := [];
    for i := 0 to DigitCount
      invariant |glyphs| == |tables| == i
      invariant Glyphs(glyphs, tables)
      invariant tables == Tables(answer[..i])
      invariant strokes == Flatten(glyphs)
      invariant DigitLayer(img, strokes, lines)
    {
      var glyph := DrawGlyph(img, answer[i], i, strokes, lines);
      GlyphsSnoc(glyphs, tables, glyph, DigitSegments(answer[i]));
      TablesSnoc(answer, i);
      assert (glyphs + [glyph])[..i] == glyphs;
      glyphs, tables, strokes := glyphs + [glyph], tables + [DigitSegments(answer[i])], strokes + glyph;
    }
    assert answer[..DigitCount] == answer;
    GlyphsOfAnswer(glyphs, answer);
    FlattenUnclipped(glyphs, answer);
    FlattenFour(glyphs);
  }

  /** Generate's noise-dot loop: a dot at every drawn point, over whatever
      is below. */
  method DrawNoiseDots(img: array2<Color>, dots: seq<Point>)
    requires IsCanvas(img)
    requires forall i :: 0 <= i < |dots| ==> InCanvas(dots[i])
    modifies img
    ensures forall x, y :: 0 <= x < Width && 0 <= y < Height ==>
      img[x, y] == if Point(x, y) in dots then NoiseDotColor else old(img[x, y])
  {
    for i := 0 to |dots|
      invariant forall x, y :: 0 <= x < Width && 0 <= y < Height ==>
        img[x, y] == if Point(x, y) in dots[..i] then NoiseDotColor else old(img[x, y])
    {
      DrawNoiseDot(img, dots[i]);
      assert dots[..i + 1] == dots[..i] + [dots[i]];
    }
    assert dots[..|dots|] == dots;
  }

  /** Generate: the answer loop, then the fill, ten noise lines, the four
      digits of the answer at their centres, and a hundred noise dots. The
      PNG encoding is not modelled, so here generation fails only when the
      random source fails while drawing the answer. `glyphs[i]` is the glyph
      of digit `i`. */
  method Generate(draws: seq<Rand>, lines: seq<NoiseLine>, dots: seq<Point>)
    returns (r: Option<CaptchaImage>, ghost lineStrokes: seq<seq<Point>>,
             ghost glyphs: seq<seq<seq<Point>>>, ghost digitStrokes: seq<seq<Point>>)
    requires |draws| == DigitCount
    requires forall i :: 0 <= i < |draws| && draws[i].Drawn? ==> 0 <= draws[i].n < 10
    requires |lines| == NoiseLinesCount && forall i :: 0 <= i < |lines| ==> ValidNoiseLine(lines[i])
    requires |dots| == NoiseDotsCount && forall i :: 0 <= i < |dots| ==> InCanvas(dots[i])
    ensures r.None? <==> exists i :: 0 <= i < DigitCount && draws[i].Failed?
    ensures r.Some? ==> fresh(r.value.pixels) && IsCanvas(r.value.pixels)
    ensures r.Some? ==> IsAnswer(r.value.answer)
    ensures r.Some? ==> forall i :: 0 <= i < DigitCount ==> r.value.answer[i] == DigitChar(draws[i].n)
    ensures r.Some? ==> |lineStrokes| == NoiseLinesCount
    ensures r.Some? ==> forall i :: 0 <= i < NoiseLinesCount ==>
      IsLine(lineStrokes[i], LineStart(lines[i]), LineEnd(lines[i]))
    ensures r.Some? ==> forall i, k :: 0 <= i < NoiseLinesCount && 0 <= k < |lineStrokes[i]| ==>
      InCanvas(lineStrokes[i][k])
    ensures r.Some? ==> |glyphs| == DigitCount && AnswerGlyphs(glyphs, r.value.answer)
    ensures r.Some? ==> digitStrokes == glyphs[0] + glyphs[1] + glyphs[2] + glyphs[3]
    ensures r.Some? ==> forall k, j :: 0 <= k < |digitStrokes| && 0 <= j < |digitStrokes[k]| ==>
      Unclipped(digitStrokes[k][j])
    ensures r.Some? ==> forall x, y :: 0 <= x < Width && 0 <= y < Height ==>
      r.value.pixels[x, y] == FinalColor(lineStrokes, digitStrokes, dots, Point(x, y))
  {
    lineStrokes, glyphs, digitStrokes := [], [], [];
    var answer := DrawAnswer(draws);
    if answer.None? {
      return None, lineStrokes, glyphs, digitStrokes;
    }
    var img := new Color[Width, Height];
    Fill(img, Background);
    lineStrokes := DrawNoiseLines(img, lines);
    forall i | 0 <= i < NoiseLinesCount
      ensures forall k :: 0 <= k < |lineStrokes[i]| ==> InCanvas(lineStrokes[i][k])
    {
      NoiseLineInCanvas(lineStrokes[i], lines[i]);
    }
    glyphs, digitStrokes := DrawAnswerDigits(img, answer.value, lineStrokes);
    DrawNoiseDots(img, dots);
    r := Some(CaptchaImage(img, answer.value));
  }

  /** Every point of every stroke of every digit shows the digit colour in
      the generated image, unless a noise dot was drawn over it. */
  lemma DigitStrokesShown(lines: seq<seq<Point>>, glyphs: seq<seq<seq<Point>>>, dots: seq<Point>, answer: string,
                          i: int, k: int, j: int)
    requires |glyphs| == DigitCount && AnswerGlyphs(glyphs, answer)
    requires 0 <= i < DigitCount && 0 <= k < |glyphs[i]| && 0 <= j < |glyphs[i][k]|
    requires glyphs[i][k][j] !in dots
    ensures FinalColor(lines, glyphs[0] + glyphs[1] + glyphs[2] + glyphs[3], dots, glyphs[i][k][j]) == DigitColor
  {
    var p := glyphs[i][k][j];
    assert GlyphAt(glyphs[i], DigitSegments(answer[i]), DigitCentre(i));
    GlyphStrokesUnclipped(i, answer[i], glyphs[i]);
    CoversPoint(glyphs[i][k], j);
    CoversAnyPath(glyphs[i], k, p);
    CoversAnyFour(glyphs, i, p);
  }

  lemma CoversAnyFour(glyphs: seq<seq<seq<Point>>>, i: int, q: Point)
    requires |glyphs| == 4 && 0 <= i < 4 && CoversAny(glyphs[i], q)
    ensures CoversAny(glyphs[0] + glyphs[1] + glyphs[2] + glyphs[3], q)
  {
    CoversAnyConcat(glyphs[0], glyphs[1]);
    CoversAnyConcat(glyphs[0] + glyphs[1], glyphs[2]);
    CoversAnyConcat(glyphs[0] + glyphs[1] + glyphs[2], glyphs[3]);
  }

  // ---------------------------------------------------------------------
  // Assets

  /** LoadFromAssets' answer: the file name without its last four characters
      (the ".png" the file pattern matched). */
  function AnswerFromFilename(filename: string): (answer: string)
    requires |filename| >= 4
    ensures |answer| == |filename| - 4
    ensures answer + filename[|filename| - 4..] == filename
  {
    filename[..|filename| - 4]
  }

  /** Naming an image after its answer, with the ".png" extension, and
      reading the answer back from the name gives the answer. */
  lemma AssetNameRoundTrip(answer: string)
    ensures AnswerFromFilename(answer + ".png") == answer
  {
    assert (answer + ".png")[..|answer|] == answer;
  }

  lemma AssetNameExample()
    ensures AnswerFromFilename("5647.png") == "5647"
  {
    AssetNameRoundTrip("5647");
  }
}
