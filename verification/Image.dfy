/** Pixel rearrangements: the eight EXIF orientations and the patch order of the
    vision encoder. */
module Image {
  import opened Basics

  // ---- mixed-radix indices ----

  /** Digit `lo` below digit `hi` in a number whose last digit counts to `n`. */
  function At(hi: nat, lo: nat, n: nat): nat {
    hi * n + lo
  }

  lemma Times(a: int, b: int, n: nat)
    ensures a >= b ==> a * n >= b * n
    ensures a > b ==> a * n >= b * n + n
  {
    if a >= b { assert (a - b) * n >= 0; }
    if a > b { assert (a - b - 1) * n >= 0; }
  }

  lemma AtSplit(hi: nat, lo: nat, n: nat)
    requires lo < n
    ensures At(hi, lo, n) / n == hi && At(hi, lo, n) % n == lo
  {
    var v := At(hi, lo, n);
    var q := v / n;
    Times(q, hi, n);
    Times(hi, q, n);
  }

  lemma AtJoin(v: nat, n: nat)
    requires n > 0
    ensures At(v / n, v % n, n) == v && v % n < n
  {
  }

  lemma AtBound(hi: nat, lo: nat, m: nat, n: nat)
    requires hi < m && lo < n
    ensures At(hi, lo, n) < m * n
  {
    assert (m - 1 - hi) * n >= 0;
    assert (m - 1 - hi) * n == m * n - n - hi * n;
  }

  lemma DivBound(v: nat, m: nat, n: nat)
    requires v < m * n
    ensures n > 0 && v / n < m
  {
    assert m * 0 == 0;
    Times(v / n, m, n);
  }

  // ---- orientations ----

  /** The rows and columns an orientation produces. */
  function OutWidth(o: int, w: nat, h: nat): nat { if o >= 5 then h else w }

  function OutHeight(o: int, w: nat, h: nat): nat { if o >= 5 then w else h }

  /** Where a pixel goes.  Orientations outside 1 to 8 are treated like 1, and those
      above 8 still swap width and height. */
  function Oriented(o: int, w: nat, h: nat, x: nat, y: nat): (p: (nat, nat))
    requires x < w && y < h
  {
    match o
    case 2 => (w - 1 - x, y)
    case 3 => (w - 1 - x, h - 1 - y)
    case 4 => (x, h - 1 - y)
    case 5 => (y, x)
    case 6 => (h - 1 - y, x)
    case 7 => (h - 1 - y, w - 1 - x)
    case 8 => (y, w - 1 - x)
    case _ => (x, y)
  }

  datatype Side = Top | Bottom | Left | Right

  /** The side of the picture as seen where the stored row 0 is, and where the
      stored column 0 is: section 8 of TIFF 6.0, tag 274. */
  function FirstRow(o: int): Side {
    if o == 1 || o == 2 then Top else if o == 3 || o == 4 then Bottom else if o == 5 || o == 8 then Left else Right
  }

  function FirstColumn(o: int): Side {
    if o == 1 || o == 4 then Left else if o == 2 || o == 3 then Right else if o == 5 || o == 6 then Top else Bottom
  }

  function DistanceFrom(side: Side, p: (nat, nat), w: nat, h: nat): int {
    match side
    case Top => p.1
    case Bottom => h - 1 - p.1
    case Left => p.0
    case Right => w - 1 - p.0
  }

  /** The picture stands as the tag says: stored rows count from the side of row 0,
      stored columns from that of column 0. */
  lemma OrientedSides(o: int, w: nat, h: nat, x: nat, y: nat)
    requires 1 <= o <= 8 && x < w && y < h
    ensures var p := Oriented(o, w, h, x, y); var ow, oh := OutWidth(o, w, h), OutHeight(o, w, h);
      && DistanceFrom(FirstRow(o), p, ow, oh) == y
      && DistanceFrom(FirstColumn(o), p, ow, oh) == x
  {
  }

  /** The orientation that undoes one. */
  function Undo(o: int): int {
    if o == 6 then 8 else if o == 8 then 6 else o
  }

  /** Every orientation is undone by another: each output pixel comes from exactly
      one input pixel. */
  lemma OrientedUndone(o: int, w: nat, h: nat, x: nat, y: nat)
    requires x < w && y < h && o <= 8
    ensures var p := Oriented(o, w, h, x, y); var ow, oh := OutWidth(o, w, h), OutHeight(o, w, h);
      && p.0 < ow && p.1 < oh
      && OutWidth(Undo(o), ow, oh) == w && OutHeight(Undo(o), ow, oh) == h
      && Oriented(Undo(o), ow, oh, p.0, p.1) == (x, y)
  {
  }

  /** Above 8 a picture that is not square loses pixels outside its frame. */
  lemma OrientationTooLarge(o: int, w: nat, h: nat)
    requires o > 8 && w > 0 && h > 0
    ensures (exists x, y :: 0 <= x < w && 0 <= y < h
               && !(Oriented(o, w, h, x, y).0 < OutWidth(o, w, h) && Oriented(o, w, h, x, y).1 < OutHeight(o, w, h)))
            <==> w != h
  {
    if w != h {
      assert Oriented(o, w, h, w - 1, h - 1) == (w - 1, h - 1);
    }
  }

  /** Where a pixel of a row-major picture is. */
  function Pixel(w: nat, x: nat, y: nat): nat {
    At(y, x, w)
  }

  lemma PixelIs(w: nat, x: nat, y: nat)
    ensures Pixel(w, x, y) == y * w + x
  {
  }

  lemma PlaceBound(w: nat, h: nat, x: nat, y: nat, channels: nat)
    requires x < w && y < h
    ensures Pixel(w, x, y) < w * h && 0 <= Pixel(w, x, y) * channels
    ensures Pixel(w, x, y) * channels + channels <= w * h * channels
  {
    hide At;
    AtBound(y, x, h, w);
    assert h * w == w * h;
    Times(w * h, Pixel(w, x, y), channels);
    Times(Pixel(w, x, y), 0, channels);
  }

  /** The input pixel an output pixel shows. */
  function Origin(o: int, w: nat, h: nat, ox: nat, oy: nat): (p: (nat, nat))
    requires ox < OutWidth(o, w, h) && oy < OutHeight(o, w, h) && o <= 8
    ensures p.0 < w && p.1 < h
  {
    Oriented(Undo(o), OutWidth(o, w, h), OutHeight(o, w, h), ox, oy)
  }

  lemma OriginOf(o: int, w: nat, h: nat, ox: nat, oy: nat)
    requires ox < OutWidth(o, w, h) && oy < OutHeight(o, w, h) && o <= 8
    ensures var p := Origin(o, w, h, ox, oy); Oriented(o, w, h, p.0, p.1) == (ox, oy)
  {
  }

  /** The three bytes of output pixel `i` are those of an input pixel: of more than
      three channels the first three, of fewer the first one three times. */
  ghost predicate Shows(rgb: seq<Byte>, pixels: seq<Byte>, channels: nat, i: int, place: int) {
    && 0 <= 3 * i && 3 * i + 3 <= |rgb|
    && 0 <= place * channels < place * channels + channels <= |pixels|
    && (channels >= 3 ==>
          && rgb[3 * i] == pixels[place * channels]
          && rgb[3 * i + 1] == pixels[place * channels + 1]
          && rgb[3 * i + 2] == pixels[place * channels + 2])
    && (channels < 3 ==> rgb[3 * i] == rgb[3 * i + 1] == rgb[3 * i + 2] == pixels[place * channels])
  }

  lemma PlaceInjective(w: nat, x: nat, y: nat, x': nat, y': nat)
    requires x < w && x' < w && Pixel(w, x, y) == Pixel(w, x', y')
    ensures x == x' && y == y'
  {
    AtSplit(y, x, w);
    AtSplit(y', x', w);
  }

  /** Pixels before (x, y) in reading order. */
  predicate Earlier(x: nat, y: nat, x': nat, y': nat) {
    y' < y || (y' == y && x' < x)
  }

  ghost predicate Copied(rgb: seq<Byte>, pixels: seq<Byte>, o: int, w: nat, h: nat, channels: nat, x: nat, y: nat) {
    forall x': nat, y': nat :: x' < w && y' < h && Earlier(x, y, x', y') ==>
      Shows(rgb, pixels, channels, Target(o, w, h, x', y'), Pixel(w, x', y'))
  }

  /** The output place of a pixel. */
  function Target(o: int, w: nat, h: nat, x: nat, y: nat): nat
    requires x < w && y < h
  {
    var p := Oriented(o, w, h, x, y);
    Pixel(OutWidth(o, w, h), p.0, p.1)
  }

  lemma TargetInjective(o: int, w: nat, h: nat, x: nat, y: nat, x': nat, y': nat)
    requires x < w && y < h && x' < w && y' < h && o <= 8
    ensures Target(o, w, h, x, y) < w * h
    ensures Target(o, w, h, x, y) == Target(o, w, h, x', y') ==> x == x' && y == y'
  {
    hide Oriented, Pixel;
    OrientedUndone(o, w, h, x, y);
    OrientedUndone(o, w, h, x', y');
    var ow, oh := OutWidth(o, w, h), OutHeight(o, w, h);
    var p, q := Oriented(o, w, h, x, y), Oriented(o, w, h, x', y');
    PlaceBound(ow, oh, p.0, p.1, 3);
    assert ow * oh == w * h;
    if Pixel(ow, p.0, p.1) == Pixel(ow, q.0, q.1) { PlaceInjective(ow, p.0, p.1, q.0, q.1); }
  }

  /** q36_oriented_rgb: every output pixel is written once and shows its origin. */
  method OrientRgb(pixels: seq<Byte>, w: nat, h: nat, channels: nat, o: int) returns (rgb: array<Byte>)
    requires channels > 0 && |pixels| == w * h * channels && o <= 8
    ensures fresh(rgb) && rgb.Length == 3 * (w * h)
    ensures forall ox: nat, oy: nat :: ox < OutWidth(o, w, h) && oy < OutHeight(o, w, h) ==>
      var p := Origin(o, w, h, ox, oy);
      Shows(rgb[..], pixels, channels, oy * OutWidth(o, w, h) + ox, p.1 * w + p.0)
  {
    hide Shows, Oriented, Target, Pixel, Origin, OutWidth, OutHeight;
    assert w * h >= 0;
    rgb := new Byte[3 * (w * h)];
    for y := 0 to h
      invariant Copied(rgb[..], pixels, o, w, h, channels, 0, y)
    {
      for x := 0 to w
        invariant Copied(rgb[..], pixels, o, w, h, channels, x, y)
      {
        PutPixel(rgb, pixels, w, h, channels, o, x, y);
      }
    }
    forall ox: nat, oy: nat | ox < OutWidth(o, w, h) && oy < OutHeight(o, w, h)
      ensures var p := Origin(o, w, h, ox, oy);
        Shows(rgb[..], pixels, channels, oy * OutWidth(o, w, h) + ox, p.1 * w + p.0)
    {
      OriginOf(o, w, h, ox, oy);
      var p := Origin(o, w, h, ox, oy);
      assert Earlier(0, h, p.0, p.1);
      TargetIs(o, w, h, p.0, p.1);
      PixelIs(OutWidth(o, w, h), ox, oy);
      PixelIs(w, p.0, p.1);
    }
  }

  lemma TargetIs(o: int, w: nat, h: nat, x: nat, y: nat)
    requires x < w && y < h
    ensures Target(o, w, h, x, y) == Pixel(OutWidth(o, w, h), Oriented(o, w, h, x, y).0, Oriented(o, w, h, x, y).1)
  {
  }

  /** The loop's body: one pixel, three bytes. */
  method PutPixel(rgb: array<Byte>, pixels: seq<Byte>, w: nat, h: nat, channels: nat, o: int, x: nat, y: nat)
    requires channels > 0 && |pixels| == w * h * channels && o <= 8 && rgb.Length == 3 * (w * h) && x < w && y < h
    requires Copied(rgb[..], pixels, o, w, h, channels, x, y)
    modifies rgb
    ensures Copied(rgb[..], pixels, o, w, h, channels, x + 1, y)
  {
    hide Oriented, Pixel, Target;
    var ox, oy := x, y;
    match o {
      case 2 => ox := w - 1 - x;
      case 3 => ox, oy := w - 1 - x, h - 1 - y;
      case 4 => oy := h - 1 - y;
      case 5 => ox, oy := y, x;
      case 6 => ox, oy := h - 1 - y, x;
      case 7 => ox, oy := h - 1 - y, w - 1 - x;
      case 8 => ox, oy := y, w - 1 - x;
      case _ =>
    }
    assert (ox, oy) == Oriented(o, w, h, x, y) by { OrientedIs(o, w, h, x, y); }
    TargetIs(o, w, h, x, y);
    TargetInjective(o, w, h, x, y, x, y);
    PlaceBound(w, h, x, y, channels);
    var place, i := Pixel(w, x, y), Pixel(OutWidth(o, w, h), ox, oy);
    ghost var was := rgb[..];
    var src := place * channels;
    if channels < 3 {
      rgb[3 * i], rgb[3 * i + 1], rgb[3 * i + 2] := pixels[src], pixels[src], pixels[src];
    } else {
      rgb[3 * i], rgb[3 * i + 1], rgb[3 * i + 2] := pixels[src], pixels[src + 1], pixels[src + 2];
    }
    forall x': nat, y': nat | x' < w && y' < h && Earlier(x + 1, y, x', y')
      ensures Shows(rgb[..], pixels, channels, Target(o, w, h, x', y'), Pixel(w, x', y'))
    {
      TargetInjective(o, w, h, x', y', x, y);
      if x' != x || y' != y {
        assert Earlier(x, y, x', y');
        assert Shows(was, pixels, channels, Target(o, w, h, x', y'), Pixel(w, x', y'));
      }
    }
  }

  lemma OrientedIs(o: int, w: nat, h: nat, x: nat, y: nat)
    requires x < w && y < h
    ensures Oriented(o, w, h, x, y) ==
      if o == 2 then (w - 1 - x, y) else if o == 3 then (w - 1 - x, h - 1 - y) else if o == 4 then (x, h - 1 - y)
      else if o == 5 then (y, x) else if o == 6 then (h - 1 - y, x) else if o == 7 then (h - 1 - y, w - 1 - x)
      else if o == 8 then (y, w - 1 - x) else (x, y)
  {
  }

  // ---- patches ----

  const SIDE := 16
  const MERGE := 2
  const COLORS := 3
  const PATCH := 768

  /** A value of the canvas by patch row and column, row and column inside the
      patch, and colour. */
  datatype Place = Place(py: nat, px: nat, y: nat, x: nat, c: nat)

  predicate OnGrid(p: Place, gw: nat, gh: nat) {
    p.py < gh && p.px < gw && p.y < SIDE && p.x < SIDE && p.c < COLORS
  }

  /** Its index on the canvas: rows of pixels of colours. */
  function CanvasIndex(p: Place, gw: nat): nat {
    At(At(At(p.py, p.y, SIDE), At(p.px, p.x, SIDE), gw * SIDE), p.c, COLORS)
  }

  /** Its index among the patches: blocks of two by two patches, each patch colour
      by colour. */
  function PatchIndex(p: Place, gw: nat): nat {
    At(At(At(PatchNumber(p.py, p.px, gw), p.c, COLORS), p.y, SIDE), p.x, SIDE)
  }

  function PatchNumber(py: nat, px: nat, gw: nat): nat {
    At(At(At(py / MERGE, px / MERGE, gw / MERGE), py % MERGE, MERGE), px % MERGE, MERGE)
  }

  /** The place a canvas index stands for. */
  function CanvasPlace(i: nat, gw: nat): Place
    requires gw > 0
  {
    var pixel := i / COLORS;
    var row, col := pixel / (gw * SIDE), pixel % (gw * SIDE);
    Place(row / SIDE, col / SIDE, row % SIDE, col % SIDE, i % COLORS)
  }

  /** The place a patch index stands for. */
  function PatchPlace(i: nat, gw: nat): Place
    requires gw >= MERGE
  {
    var line := i / SIDE;
    var plane := line / SIDE;
    var n := plane / COLORS;
    var m := n / MERGE;
    var b := m / MERGE;
    Place(b / (gw / MERGE) * MERGE + m % MERGE, b % (gw / MERGE) * MERGE + n % MERGE, line % SIDE, i % SIDE, plane % COLORS)
  }

  function Even(n: nat): bool { n % 2 == 0 }

  lemma CanvasPlaceOf(p: Place, gw: nat, gh: nat)
    requires OnGrid(p, gw, gh)
    ensures CanvasPlace(CanvasIndex(p, gw), gw) == p
    ensures CanvasIndex(p, gw) < gh * SIDE * (gw * SIDE) * COLORS
  {
    hide At;
    var row, col := At(p.py, p.y, SIDE), At(p.px, p.x, SIDE);
    AtSplit(p.py, p.y, SIDE);
    AtSplit(p.px, p.x, SIDE);
    AtBound(p.py, p.y, gh, SIDE);
    AtBound(p.px, p.x, gw, SIDE);
    AtSplit(row, col, gw * SIDE);
    AtBound(row, col, gh * SIDE, gw * SIDE);
    AtSplit(At(row, col, gw * SIDE), p.c, COLORS);
    AtBound(At(row, col, gw * SIDE), p.c, gh * SIDE * (gw * SIDE), COLORS);
  }

  lemma CanvasIndexOf(i: nat, gw: nat, gh: nat)
    requires i < gh * SIDE * (gw * SIDE) * COLORS
    ensures gw > 0 && OnGrid(CanvasPlace(i, gw), gw, gh) && CanvasIndex(CanvasPlace(i, gw), gw) == i
  {
    hide At;
    DivBound(i, gh * SIDE * (gw * SIDE), COLORS);
    var pixel := i / COLORS;
    DivBound(pixel, gh * SIDE, gw * SIDE);
    var row, col := pixel / (gw * SIDE), pixel % (gw * SIDE);
    AtJoin(i, COLORS);
    AtJoin(pixel, gw * SIDE);
    AtJoin(row, SIDE);
    AtJoin(col, SIDE);
  }

  lemma Halves(n: nat, k: nat)
    requires Even(n) && k < n
    ensures k / MERGE < n / MERGE && k == k / MERGE * MERGE + k % MERGE
  {
  }

  lemma PatchPlaceOf(p: Place, gw: nat, gh: nat)
    requires OnGrid(p, gw, gh) && Even(gw) && Even(gh)
    ensures PatchPlace(PatchIndex(p, gw), gw) == p
    ensures PatchIndex(p, gw) < PatchCount(gw, gh) * PATCH
  {
    hide At;
    var hw := gw / MERGE;
    Halves(gw, p.px);
    Halves(gh, p.py);
    var b := At(p.py / MERGE, p.px / MERGE, hw);
    var m := At(b, p.py % MERGE, MERGE);
    var n := At(m, p.px % MERGE, MERGE);
    var plane := At(n, p.c, COLORS);
    var line := At(plane, p.y, SIDE);
    AtSplit(p.py / MERGE, p.px / MERGE, hw);
    AtSplit(b, p.py % MERGE, MERGE);
    AtSplit(m, p.px % MERGE, MERGE);
    AtSplit(n, p.c, COLORS);
    AtSplit(plane, p.y, SIDE);
    AtSplit(line, p.x, SIDE);
    PatchBound(p, gw, gh);
  }

  /** Patches on a grid: one block for every two by two of them. */
  function PatchCount(gw: nat, gh: nat): nat {
    gh / MERGE * (gw / MERGE) * 4
  }

  lemma PatchBound(p: Place, gw: nat, gh: nat)
    requires OnGrid(p, gw, gh) && Even(gw) && Even(gh)
    ensures PatchIndex(p, gw) < PatchCount(gw, gh) * PATCH
  {
    hide At;
    var hw, hh := gw / MERGE, gh / MERGE;
    Halves(gw, p.px);
    Halves(gh, p.py);
    var b := At(p.py / MERGE, p.px / MERGE, hw);
    AtBound(p.py / MERGE, p.px / MERGE, hh, hw);
    var m := At(b, p.py % MERGE, MERGE);
    AtBound(b, p.py % MERGE, hh * hw, MERGE);
    var n := At(m, p.px % MERGE, MERGE);
    AtBound(m, p.px % MERGE, hh * hw * MERGE, MERGE);
    AtBound(n, p.c, hh * hw * MERGE * MERGE, COLORS);
    AtBound(At(n, p.c, COLORS), p.y, hh * hw * MERGE * MERGE * COLORS, SIDE);
    AtBound(At(At(n, p.c, COLORS), p.y, SIDE), p.x, hh * hw * MERGE * MERGE * COLORS * SIDE, SIDE);
  }

  lemma PatchIndexOf(i: nat, gw: nat, gh: nat)
    requires Even(gw) && Even(gh) && i < PatchCount(gw, gh) * PATCH
    ensures gw >= MERGE && OnGrid(PatchPlace(i, gw), gw, gh) && PatchIndex(PatchPlace(i, gw), gw) == i
  {
    hide At;
    var hw, hh := gw / MERGE, gh / MERGE;
    var line := i / SIDE;
    var plane := line / SIDE;
    var n := plane / COLORS;
    var m := n / MERGE;
    var b := m / MERGE;
    assert b < hh * hw;
    DivBound(b, hh, hw);
    AtJoin(i, SIDE);
    AtJoin(line, SIDE);
    AtJoin(plane, COLORS);
    AtJoin(n, MERGE);
    AtJoin(m, MERGE);
    AtJoin(b, hw);
    Doubled(b / hw, m % MERGE);
    Doubled(b % hw, n % MERGE);
  }

  lemma Doubled(k: nat, r: nat)
    requires r < MERGE
    ensures (k * MERGE + r) / MERGE == k && (k * MERGE + r) % MERGE == r
  {
  }

  /** The canvas value that patch value `i` repeats. */
  function Source(i: nat, gw: nat): nat
    requires gw >= MERGE
  {
    CanvasIndex(PatchPlace(i, gw), gw)
  }

  /** The patch value that repeats canvas value `j`. */
  function Destination(j: nat, gw: nat): nat
    requires gw > 0
  {
    PatchIndex(CanvasPlace(j, gw), gw)
  }

  /** On an even grid the patch order uses every canvas value exactly once. */
  lemma PatchOrderBijective(i: nat, gw: nat, gh: nat)
    requires Even(gw) && Even(gh) && i < PatchCount(gw, gh) * PATCH
    ensures PatchCount(gw, gh) * PATCH == gh * SIDE * (gw * SIDE) * COLORS
    ensures gw >= MERGE && Source(i, gw) < gh * SIDE * (gw * SIDE) * COLORS && Destination(Source(i, gw), gw) == i
    ensures Destination(i, gw) < PatchCount(gw, gh) * PATCH && Source(Destination(i, gw), gw) == i
  {
    hide PatchIndex, CanvasIndex, PatchPlace, CanvasPlace;
    SameSize(gw, gh);
    PatchIndexOf(i, gw, gh);
    CanvasPlaceOf(PatchPlace(i, gw), gw, gh);
    CanvasIndexOf(i, gw, gh);
    PatchPlaceOf(CanvasPlace(i, gw), gw, gh);
  }

  lemma SameSize(gw: nat, gh: nat)
    requires Even(gw) && Even(gh)
    ensures PatchCount(gw, gh) * PATCH == gh * SIDE * (gw * SIDE) * COLORS
  {
    var a, b := gh / MERGE, gw / MERGE;
    assert gh == 2 * a && gw == 2 * b;
    assert gh * SIDE * (gw * SIDE) * COLORS == a * b * 3072;
  }

  /** The first `n` patch values are in place. */
  ghost predicate Filled(patches: seq<real>, canvas: seq<real>, gw: nat, gh: nat, n: nat) {
    && Even(gw) && Even(gh) && n <= |patches| == PatchCount(gw, gh) * PATCH
    && |canvas| == gh * SIDE * (gw * SIDE) * COLORS
    && forall i, v :: 0 <= i < n && v == patches[i] ==> FromCanvas(v, canvas, gw, gh, i)
  }

  ghost predicate FromCanvas(v: real, canvas: seq<real>, gw: nat, gh: nat, i: nat) {
    gw >= MERGE && Source(i, gw) < |canvas| && v == canvas[Source(i, gw)]
  }

  /** The innermost three loops: one patch, colour by colour. */
  method CopyPatch(canvas: seq<real>, patches: array<real>, gw: nat, gh: nat, py: nat, px: nat, from: nat) returns (index: nat)
    requires py < gh && px < gw && from == PatchNumber(py, px, gw) * PATCH
    requires Filled(patches[..], canvas, gw, gh, from)
    modifies patches
    ensures index == from + PATCH && Filled(patches[..], canvas, gw, gh, index)
  {
    hide PatchNumber, Source, FromCanvas, PatchIndex, CanvasIndex;
    index := from;
    for c := 0 to 3
      invariant index == from + c * 256 && Filled(patches[..], canvas, gw, gh, index)
    {
      for y := 0 to 16
        invariant index == from + c * 256 + y * 16 && Filled(patches[..], canvas, gw, gh, index)
      {
        for x := 0 to 16
          invariant index == from + c * 256 + y * 16 + x && Filled(patches[..], canvas, gw, gh, index)
        {
          index := CopyValue(canvas, patches, gw, gh, Place(py, px, y, x, c), index);
        }
      }
    }
  }

  /** One value: patches[index++] = canvas[...]. */
  method CopyValue(canvas: seq<real>, patches: array<real>, gw: nat, gh: nat, p: Place, index: nat) returns (next: nat)
    requires OnGrid(p, gw, gh) && index == PatchNumber(p.py, p.px, gw) * PATCH + p.c * 256 + p.y * 16 + p.x
    requires Filled(patches[..], canvas, gw, gh, index)
    modifies patches
    ensures next == index + 1 && Filled(patches[..], canvas, gw, gh, next)
  {
    hide PatchNumber, PatchPlace, CanvasPlace, PatchIndex, At;
    IndexIs(p, gw, index);
    CanvasPlaceOf(p, gw, gh);
    PatchPlaceOf(p, gw, gh);
    assert gw >= MERGE;
    assert Source(index, gw) == CanvasIndex(p, gw);
    ghost var was := patches[..];
    CanvasIndexIs(p, gw);
    patches[index] := canvas[((p.py * 16 + p.y) * (gw * 16) + p.px * 16 + p.x) * 3 + p.c];
    next := index + 1;
    forall i, v | 0 <= i < next && v == patches[..][i] ensures FromCanvas(v, canvas, gw, gh, i) {
      if i < index { assert v == was[i]; }
    }
  }

  lemma CanvasIndexIs(p: Place, gw: nat)
    ensures CanvasIndex(p, gw) == ((p.py * 16 + p.y) * (gw * 16) + p.px * 16 + p.x) * 3 + p.c
  {
  }

  /** The four patches of a block. */
  method CopyBlock(canvas: seq<real>, patches: array<real>, gw: nat, gh: nat, row: nat, col: nat, from: nat) returns (index: nat)
    requires row < gh / 2 && col < gw / 2 && from == At(row, col, gw / MERGE) * (4 * PATCH)
    requires Filled(patches[..], canvas, gw, gh, from)
    modifies patches
    ensures index == from + 4 * PATCH && Filled(patches[..], canvas, gw, gh, index)
  {
    hide Filled;
    index := from;
    for my := 0 to 2
      invariant index == from + my * (2 * PATCH) && Filled(patches[..], canvas, gw, gh, index)
    {
      for mx := 0 to 2
        invariant index == from + my * (2 * PATCH) + mx * PATCH && Filled(patches[..], canvas, gw, gh, index)
      {
        var py, px := row * 2 + my, col * 2 + mx;
        NumberIs(row, col, my, mx, gw);
        index := CopyPatch(canvas, patches, gw, gh, py, px, index);
      }
    }
  }

  lemma NumberIs(row: nat, col: nat, my: nat, mx: nat, gw: nat)
    requires my < 2 && mx < 2
    ensures PatchNumber(row * 2 + my, col * 2 + mx, gw) == At(row, col, gw / MERGE) * 4 + my * 2 + mx
  {
    Doubled(row, my);
    Doubled(col, mx);
  }

  /** The loops' own arithmetic: patches in blocks of two by two, each a plane of 16
      by 16 per colour, out of a canvas of rows of pixels of three colours. */
  ghost predicate Repeats(patches: seq<real>, canvas: seq<real>, gw: nat, p: Place) {
    var patch := (p.py / 2 * (gw / 2) + p.px / 2) * 4 + p.py % 2 * 2 + p.px % 2;
    var i, j := patch * 768 + p.c * 256 + p.y * 16 + p.x, ((p.py * 16 + p.y) * (gw * 16) + p.px * 16 + p.x) * 3 + p.c;
    0 <= i < |patches| && 0 <= j < |canvas| && patches[i] == canvas[j]
  }

  lemma RepeatsAt(patches: seq<real>, canvas: seq<real>, gw: nat, gh: nat, p: Place)
    requires Even(gw) && Even(gh) && |canvas| == |patches| == gh * SIDE * (gw * SIDE) * COLORS && OnGrid(p, gw, gh)
    requires forall i :: 0 <= i < |canvas| && gw >= MERGE && 0 <= Source(i, gw) < |canvas| ==> patches[i] == canvas[Source(i, gw)]
    ensures Repeats(patches, canvas, gw, p)
  {
    hide PatchIndex, CanvasIndex, PatchPlace, CanvasPlace, PatchNumber, At;
    CanvasPlaceOf(p, gw, gh);
    PatchPlaceOf(p, gw, gh);
    CanvasIndexIs(p, gw);
    NumberIs(p.py / 2, p.px / 2, p.py % 2, p.px % 2, gw);
    BlockIs(p.py / 2, p.px / 2, gw / MERGE);
    SameSize(gw, gh);
    IndexIs(p, gw, PatchNumber(p.py, p.px, gw) * PATCH + p.c * 256 + p.y * 16 + p.x);
  }

  lemma BlockIs(row: nat, col: nat, n: nat)
    ensures At(row, col, n) == row * n + col
  {
  }

  /** The patch loops of q36_image_preprocess_qwen3vl: every patch value is the
      canvas value it stands for. */
  method Rearrange(canvas: seq<real>, gw: nat, gh: nat) returns (patches: array<real>)
    requires Even(gw) && Even(gh) && |canvas| == gh * SIDE * (gw * SIDE) * COLORS
    ensures fresh(patches) && patches.Length == |canvas|
    ensures gw > 0 ==> forall i :: 0 <= i < |canvas| ==> Source(i, gw) < |canvas| && patches[i] == canvas[Source(i, gw)]
    ensures forall p: Place :: OnGrid(p, gw, gh) ==> Repeats(patches[..], canvas, gw, p)
  {
    hide PatchNumber, Source, PatchPlace, CanvasPlace, PatchIndex, Repeats, CanvasIndex;
    SameSize(gw, gh);
    patches := new real[PatchCount(gw, gh) * PATCH];
    var index := 0;
    for row := 0 to gh / 2
      invariant index == At(row, 0, gw / MERGE) * (4 * PATCH) && Filled(patches[..], canvas, gw, gh, index)
    {
      for col := 0 to gw / 2
        invariant index == At(row, col, gw / MERGE) * (4 * PATCH) && Filled(patches[..], canvas, gw, gh, index)
      {
        index := CopyBlock(canvas, patches, gw, gh, row, col, index);
      }
    }
    assert index == patches.Length;
    forall i | gw > 0 && 0 <= i < |canvas| ensures Source(i, gw) < |canvas| && patches[i] == canvas[Source(i, gw)] {
      assert FromCanvas(patches[..][i], canvas, gw, gh, i);
    }
    forall p: Place | OnGrid(p, gw, gh) ensures Repeats(patches[..], canvas, gw, p) {
      RepeatsAt(patches[..], canvas, gw, gh, p);
    }
  }

  lemma IndexIs(p: Place, gw: nat, index: nat)
    requires index == PatchNumber(p.py, p.px, gw) * PATCH + p.c * 256 + p.y * 16 + p.x
    ensures index == PatchIndex(p, gw)
  {
    hide PatchNumber;
  }
}
