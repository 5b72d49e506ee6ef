/** Breaking an image into tiles and building images from tiles: the exact condition under which an image
    can be broken up, and the round trip through both blocks. */
module Tiling {
  import opened Kernel
  import opened Arith

  datatype Image = Image(width: nat, height: nat, rows: seq<seq<real>>)

  ghost predicate Proper(img: Image) {
    |img.rows| == img.height && forall k | 0 <= k < img.height :: |img.rows[k]| == img.width
  }

  // ------------------------------------------------------------------ breaking up

  /** The part of an image below and to the right of an offset; none if it would reach past the edge. */
  function SubMatrix(img: Image, subWidth: nat, subHeight: nat, w: nat, h: nat): (s: Option<Image>)
    requires Proper(img)
    ensures s.Some? <==> subHeight + h <= img.height && subWidth + w <= img.width
    ensures s.Some? ==> Proper(s.value) && s.value.width == subWidth && s.value.height == subHeight
    ensures s.Some? ==> forall k, j | 0 <= k < subHeight && 0 <= j < subWidth ::
                          s.value.rows[k][j] == img.rows[h + k][w + j]
  {
    if subHeight + h > img.height then None
    else if subWidth + w > img.width then None
    else Some(Image(subWidth, subHeight,
                    seq(subHeight, k requires 0 <= k < subHeight => img.rows[h + k][w..w + subWidth])))
  }

  /** The tiles put out from an offset on, and whether the end of the image is reached. */
  datatype Cutting = Cutting(tiles: seq<Image>, complete: bool)

  /** The offsets of the next tile: along the row, then down. */
  function NextWidth(w: nat, step: nat, width: nat): nat {
    if w + step >= width then 0 else w + step
  }

  function NextHeight(w: nat, h: nat, step: nat, down: nat, width: nat): nat {
    if w + step >= width then h + down else h
  }

  function CutFrom(img: Image, sw: nat, sh: nat, w: nat, h: nat): (c: Cutting)
    requires Proper(img) && sw > 0 && sh > 0
    ensures forall t | 0 <= t < |c.tiles| :: Proper(c.tiles[t]) && c.tiles[t].width == sw && c.tiles[t].height == sh
    decreases if h < img.height then img.height - h else 0, if w < img.width then img.width - w else 0
  {
    match SubMatrix(img, sw, sh, w, h)
    case None => Cutting([], false)
    case Some(tile) =>
      var w', h' := NextWidth(w, sw, img.width), NextHeight(w, h, sw, sh, img.width);
      if h' >= img.height then Cutting([tile], true)
      else
        var rest := CutFrom(img, sw, sh, w', h');
        Cutting([tile] + rest.tiles, rest.complete)
  }

  lemma CutStep(img: Image, sw: nat, sh: nat, w: nat, h: nat)
    requires Proper(img) && sw > 0 && sh > 0
    ensures var c := CutFrom(img, sw, sh, w, h);
            match SubMatrix(img, sw, sh, w, h)
            case None => c.tiles == [] && !c.complete
            case Some(tile) =>
              var w', h' := NextWidth(w, sw, img.width), NextHeight(w, h, sw, sh, img.width);
              if h' >= img.height then c.tiles == [tile] && c.complete
              else
                var rest := CutFrom(img, sw, sh, w', h');
                c.tiles == [tile] + rest.tiles && c.complete == rest.complete
  {
    hide Proper, SubMatrix;
  }

  /** What is left to put out once the tile at an offset is out. */
  lemma CutRest(img: Image, sw: nat, sh: nat, w: nat, h: nat, left: Cutting, cells: seq<Image>) returns (rest: Cutting)
    requires Proper(img) && sw > 0 && sh > 0 && left == CutFrom(img, sw, sh, w, h)
    ensures var w', h' := NextWidth(w, sw, img.width), NextHeight(w, h, sw, sh, img.width);
            match SubMatrix(img, sw, sh, w, h)
            case None => left.tiles == [] && !left.complete
            case Some(tile) =>
              && rest == (if h' >= img.height then Cutting([], true) else CutFrom(img, sw, sh, w', h'))
              && (cells + [tile]) + rest.tiles == cells + left.tiles && rest.complete == left.complete
  {
    hide Proper, SubMatrix, CutFrom;
    CutStep(img, sw, sh, w, h);
    var w', h' := NextWidth(w, sw, img.width), NextHeight(w, h, sw, sh, img.width);
    rest := if h' >= img.height then Cutting([], true) else CutFrom(img, sw, sh, w', h');
  }

  /** From tile a of row b on, the rest of the image can be cut exactly when both sizes divide. */
  lemma {:induction false} CompleteFrom(img: Image, sw: nat, sh: nat, a: nat, b: nat)
    requires Proper(img) && sw > 0 && sh > 0 && sw * a < img.width && sh * b < img.height
    ensures CutFrom(img, sw, sh, sw * a, sh * b).complete <==> img.width % sw == 0 && img.height % sh == 0
    decreases img.height - sh * b, img.width - sw * a
  {
    var w, h := sw * a, sh * b;
    NextMultiple(sw, a, a + 1);
    NextMultiple(sh, b, b + 1);
    TakesIn(img.width, sw, a);
    TakesIn(img.height, sh, b);
    if sw + w <= img.width && sh + h <= img.height {
      if sw + w < img.width {
        CompleteFrom(img, sw, sh, a + 1, b);
      } else if sh + h < img.height {
        assert sw * 0 == 0;
        CompleteFrom(img, sw, sh, 0, b + 1);
      }
    }
  }

  /** Where a multiple and the next one lie on different sides of n, n is no multiple unless it is the
      second one. */
  lemma TakesIn(n: nat, l: nat, a: nat)
    requires l > 0 && l * a < n
    ensures l * (a + 1) == l * a + l
    ensures n < l * (a + 1) ==> n % l != 0
    ensures n == l * (a + 1) ==> n % l == 0
  {
    if n < l * (a + 1) {
      RemainderUnique(n, l, a, n - l * a);
    } else if n == l * (a + 1) {
      MultipleHasNoRemainder(l, a + 1);
    }
  }

  /** An image is broken up completely exactly when it is not empty and the tile sizes divide its own. */
  lemma CompleteExactly(img: Image, sw: nat, sh: nat)
    requires Proper(img) && sw > 0 && sh > 0
    ensures CutFrom(img, sw, sh, 0, 0).complete
       <==> img.width > 0 && img.height > 0 && img.width % sw == 0 && img.height % sh == 0
  {
    if img.width > 0 && img.height > 0 {
      assert sw * 0 == 0 && sh * 0 == 0;
      CompleteFrom(img, sw, sh, 0, 0);
    }
  }

  /** Tile n of an image that is A tiles wide, counted along the rows and then down. */
  function TileNumber(img: Image, sw: nat, sh: nat, A: nat, n: nat): Option<Image>
    requires Proper(img) && A > 0
  {
    SubMatrix(img, sw, sh, sw * (n % A), sh * (n / A))
  }

  lemma TileAt(img: Image, sw: nat, sh: nat, A: nat, a: nat, b: nat)
    requires Proper(img) && a < A
    ensures TileNumber(img, sw, sh, A, A * b + a) == SubMatrix(img, sw, sh, sw * a, sh * b)
  {
    hide SubMatrix, Proper;
    QuotientUnique(A * b + a, A, b, a);
  }

  lemma {:induction false} GridFrom(img: Image, sw: nat, sh: nat, A: nat, B: nat, a: nat, b: nat, k: nat)
    requires Proper(img) && sw > 0 && sh > 0 && img.width == sw * A && img.height == sh * B && a < A && b < B
    ensures var tiles := CutFrom(img, sw, sh, sw * a, sh * b).tiles;
            && |tiles| == A * B - (A * b + a)
            && (k < |tiles| ==> TileNumber(img, sw, sh, A, A * b + a + k) == Some(tiles[k]))
    decreases B - b, A - a
  {
    hide SubMatrix, Proper, CutFrom, TileNumber;
    Inside(sw, a, A);
    Inside(sh, b, B);
    TileFits(img, sw, sh, sw * a, sh * b);
    CutStep(img, sw, sh, sw * a, sh * b);
    TileAt(img, sw, sh, A, a, b);
    if a + 1 < A {
      GridFrom(img, sw, sh, A, B, a + 1, b, if k > 0 then k - 1 else 0);
    } else {
      assert A * (b + 1) == A * b + a + 1;
      if b + 1 < B {
        NoOffset(sw);
        GridFrom(img, sw, sh, A, B, 0, b + 1, if k > 0 then k - 1 else 0);
      } else {
        assert A * (b + 1) == A * B;
      }
    }
  }

  lemma NoOffset(l: nat)
    ensures l * 0 == 0
  {
  }

  lemma Inside(l: nat, a: nat, n: nat)
    requires l > 0 && a < n
    ensures l * (a + 1) == l * a + l <= l * n
    ensures a + 1 < n ==> l * a + l < l * n
    ensures a + 1 == n ==> l * a + l == l * n
  {
    NextMultiple(l, a, n);
    if a + 1 < n {
      NextMultiple(l, a + 1, n);
    }
  }

  lemma TileFits(img: Image, sw: nat, sh: nat, w: nat, h: nat)
    requires Proper(img) && sh + h <= img.height && sw + w <= img.width
    ensures SubMatrix(img, sw, sh, w, h).Some?
  {
  }

  /** The tiles come along the rows and then down: of an image A tiles wide and B tiles high, tile k is the one in
      column k % A and row k / A. */
  lemma TilesInOrder(img: Image, sw: nat, sh: nat, A: nat, B: nat, k: nat)
    requires Proper(img) && sw > 0 && sh > 0 && A > 0 && img.width == sw * A && img.height == sh * B && k < A * B
    ensures var tiles := CutFrom(img, sw, sh, 0, 0).tiles;
            |tiles| == A * B && TileNumber(img, sw, sh, A, k) == Some(tiles[k])
  {
    hide SubMatrix, Proper, CutFrom, TileNumber;
    NoOffset(sw);
    NoOffset(sh);
    NoOffset(A);
    Positive(A, B);
    GridFrom(img, sw, sh, A, B, 0, 0, k);
  }

  lemma Positive(a: nat, b: nat)
    requires a * b > 0
    ensures a > 0 && b > 0
  {
  }

  // ------------------------------------------------------------------ building

  function Blank(width: nat, height: nat): (img: Image)
    ensures Proper(img)
  {
    Image(width, height, seq(height, _ => seq(width, _ => 0.0)))
  }

  /** What a tile at an offset adds to a pixel. */
  function Addend(tile: Image, w: nat, h: nat, k: nat, j: nat): real
    requires Proper(tile)
  {
    if h <= k < tile.height + h && w <= j < tile.width + w then tile.rows[k - h][j - w] else 0.0
  }

  function PlacedRow(row: seq<real>, tile: Image, w: nat, h: nat, k: nat): (r: seq<real>)
    requires Proper(tile)
    ensures |r| == |row|
  {
    seq(|row|, j requires 0 <= j < |row| => row[j] + Addend(tile, w, h, k, j))
  }

  /** A tile added onto a canvas; what reaches past the edge is dropped. */
  function Placed(canvas: Image, tile: Image, w: nat, h: nat): (c: Image)
    requires Proper(canvas) && Proper(tile)
    ensures Proper(c) && c.width == canvas.width && c.height == canvas.height
  {
    Image(canvas.width, canvas.height,
          seq(canvas.height, k requires 0 <= k < canvas.height => PlacedRow(canvas.rows[k], tile, w, h, k)))
  }

  /** Tiles that overlap add up: each pixel gets both, in either order. */
  lemma OverlapsAdd(canvas: Image, s: Image, t: Image, w: nat, h: nat, u: nat, v: nat)
    requires Proper(canvas) && Proper(s) && Proper(t)
    ensures Placed(Placed(canvas, s, w, h), t, u, v) == Placed(Placed(canvas, t, u, v), s, w, h)
    ensures forall k: nat, j: nat | k < canvas.height && j < canvas.width ::
              Placed(Placed(canvas, s, w, h), t, u, v).rows[k][j]
              == canvas.rows[k][j] + Addend(s, w, h, k, j) + Addend(t, u, v, k, j)
  {
    hide Addend;
    var c, d := Placed(Placed(canvas, s, w, h), t, u, v), Placed(Placed(canvas, t, u, v), s, w, h);
    forall k: nat, j: nat | k < canvas.height && j < canvas.width
      ensures c.rows[k][j] == d.rows[k][j] == canvas.rows[k][j] + Addend(s, w, h, k, j) + Addend(t, u, v, k, j)
    {
      TwicePlaced(canvas, s, t, w, h, u, v, k, j);
      TwicePlaced(canvas, t, s, u, v, w, h, k, j);
    }
    hide Placed, Proper;
    SameImage(c, d);
  }

  lemma TwicePlaced(canvas: Image, s: Image, t: Image, w: nat, h: nat, u: nat, v: nat, k: nat, j: nat)
    requires Proper(canvas) && Proper(s) && Proper(t) && k < canvas.height && j < canvas.width
    ensures Placed(Placed(canvas, s, w, h), t, u, v).rows[k][j]
         == canvas.rows[k][j] + Addend(s, w, h, k, j) + Addend(t, u, v, k, j)
  {
    hide Addend;
    var c := Placed(canvas, s, w, h);
    assert c.rows[k] == PlacedRow(canvas.rows[k], s, w, h, k);
    assert Placed(c, t, u, v).rows[k] == PlacedRow(c.rows[k], t, u, v, k);
  }

  lemma SameImage(c: Image, d: Image)
    requires Proper(c) && Proper(d) && c.width == d.width && c.height == d.height
    requires forall k: nat, j: nat | k < c.height && j < c.width :: c.rows[k][j] == d.rows[k][j]
    ensures c == d
  {
    forall k | 0 <= k < c.height
      ensures c.rows[k] == d.rows[k]
    {
      assert |c.rows[k]| == |d.rows[k]|;
      forall j | 0 <= j < c.width
        ensures c.rows[k][j] == d.rows[k][j]
      {
      }
    }
    assert c.rows == d.rows;
  }

  /** A canvas under construction; `blank` asks for a new one with the next tile. */
  datatype Progress = Progress(canvas: Image, w: nat, h: nat, blank: bool)

  function Started(p: Progress, width: nat, height: nat): Progress {
    if p.blank then Progress(Blank(width, height), 0, 0, false) else p
  }

  function Built(p: Progress, tile: Image, width: nat, height: nat): (q: Progress)
    requires Proper(p.canvas) && Proper(tile)
    ensures Proper(q.canvas)
  {
    var s := Started(p, width, height);
    var canvas := Placed(s.canvas, tile, s.w, s.h);
    var w, h := NextWidth(s.w, tile.width, canvas.width), NextHeight(s.w, s.h, tile.width, tile.height, canvas.width);
    if h >= canvas.height then Progress(canvas, 0, 0, true) else Progress(canvas, w, h, false)
  }

  ghost predicate AllProper(tiles: seq<Image>) {
    forall t | 0 <= t < |tiles| :: Proper(tiles[t])
  }

  /** The progress after a list of tiles. */
  ghost function BuiltAll(p: Progress, tiles: seq<Image>, width: nat, height: nat): (q: Progress)
    requires Proper(p.canvas) && AllProper(tiles)
    ensures Proper(q.canvas)
    decreases |tiles|
  {
    if tiles == [] then p else BuiltAll(Built(p, tiles[0], width, height), tiles[1..], width, height)
  }

  /** The images put out for a list of tiles: each canvas that a tile completes. */
  ghost function PutOut(p: Progress, tiles: seq<Image>, width: nat, height: nat): seq<Image>
    requires Proper(p.canvas) && AllProper(tiles)
    decreases |tiles|
  {
    if tiles == [] then []
    else
      var q := Built(p, tiles[0], width, height);
      (if q.blank then [q.canvas] else []) + PutOut(q, tiles[1..], width, height)
  }

  // ------------------------------------------------------------------ the round trip

  /** The pixels placed before the tile at (w, h): the rows above it, and its own rows left of it. */
  predicate Before(w: nat, h: nat, sh: nat, k: nat, j: nat) {
    k < h || (k < h + sh && j < w)
  }

  ghost predicate PixelAt(canvas: Image, img: Image, w: nat, h: nat, sh: nat, k: nat, j: nat)
    requires Proper(canvas) && Proper(img) && k < canvas.height == img.height && j < canvas.width == img.width
  {
    canvas.rows[k][j] == if Before(w, h, sh, k, j) then img.rows[k][j] else 0.0
  }

  /** The canvas holds exactly the pixels of img before (w, h), each once, and zeros elsewhere. */
  ghost predicate Covers(canvas: Image, img: Image, w: nat, h: nat, sh: nat)
    requires Proper(canvas) && Proper(img)
  {
    && canvas.width == img.width && canvas.height == img.height
    && forall k, j | 0 <= k < img.height && 0 <= j < img.width :: PixelAt(canvas, img, w, h, sh, k, j)
  }

  /** Placing the tile cut at (w, h) moves the border past it. */
  lemma TilePlaced(canvas: Image, img: Image, sw: nat, sh: nat, w: nat, h: nat)
    requires Proper(canvas) && Proper(img) && sw > 0 && sh > 0 && Covers(canvas, img, w, h, sh)
    requires sh + h <= img.height && sw + w <= img.width
    ensures Covers(Placed(canvas, SubMatrix(img, sw, sh, w, h).value, w, h), img, w + sw, h, sh)
  {
    var tile := SubMatrix(img, sw, sh, w, h).value;
    var c := Placed(canvas, tile, w, h);
    var w' := w + sw;
    forall k, j | 0 <= k < img.height && 0 <= j < img.width
      ensures PixelAt(c, img, w', h, sh, k, j)
    {
      assert PixelAt(canvas, img, w, h, sh, k, j);
      assert c.rows[k] == PlacedRow(canvas.rows[k], tile, w, h, k);
      assert c.rows[k][j] == canvas.rows[k][j] + Addend(tile, w, h, k, j);
      if h <= k < sh + h && w <= j < sw + w {
        assert tile.rows[k - h] == img.rows[h + (k - h)][w..w + sw];
      }
    }
  }

  /** A full row is a row above the next one. */
  lemma RowDone(canvas: Image, img: Image, w: nat, h: nat, sh: nat)
    requires Proper(canvas) && Proper(img) && Covers(canvas, img, w, h, sh) && w >= img.width
    ensures Covers(canvas, img, 0, h + sh, sh)
  {
    var h' := h + sh;
    forall k, j | 0 <= k < img.height && 0 <= j < img.width
      ensures PixelAt(canvas, img, 0, h', sh, k, j)
    {
      assert PixelAt(canvas, img, w, h, sh, k, j);
    }
  }

  lemma AllCovered(canvas: Image, img: Image, h: nat, sh: nat)
    requires Proper(canvas) && Proper(img) && Covers(canvas, img, 0, h, sh) && h >= img.height
    ensures canvas == img
  {
    forall k | 0 <= k < img.height
      ensures canvas.rows[k] == img.rows[k]
    {
      forall j | 0 <= j < img.width
        ensures canvas.rows[k][j] == img.rows[k][j]
      {
        assert PixelAt(canvas, img, 0, h, sh, k, j);
      }
    }
    assert canvas.rows == img.rows;
  }

  lemma BlankCovers(img: Image, sh: nat)
    requires Proper(img)
    ensures Covers(Blank(img.width, img.height), img, 0, 0, sh)
  {
    var canvas := Blank(img.width, img.height);
    forall k, j | 0 <= k < img.height && 0 <= j < img.width
      ensures PixelAt(canvas, img, 0, 0, sh, k, j)
    {
    }
  }

  lemma TilesProper(img: Image, sw: nat, sh: nat, w: nat, h: nat)
    requires Proper(img) && sw > 0 && sh > 0
    ensures AllProper(CutFrom(img, sw, sh, w, h).tiles)
  {
    hide Proper, SubMatrix;
  }

  lemma AllOf(a: seq<Image>, b: seq<Image>)
    requires AllProper(a) && AllProper(b)
    ensures AllProper(a + b)
  {
    hide Proper;
  }

  lemma PutOutStep(p: Progress, tile: Image, more: seq<Image>, width: nat, height: nat)
    requires Proper(p.canvas) && Proper(tile) && AllProper(more)
    ensures AllProper([tile] + more)
    ensures var q := Built(p, tile, width, height);
            && PutOut(p, [tile] + more, width, height)
               == (if q.blank then [q.canvas] else []) + PutOut(q, more, width, height)
            && BuiltAll(p, [tile] + more, width, height) == BuiltAll(q, more, width, height)
  {
    hide Proper, Built;
    assert ([tile] + more)[1..] == more && ([tile] + more)[0] == tile;
    AllOf([tile], more);
  }

  /** One tile of a cut, built in: the border moves to the offset of the next one. */
  lemma TileBuilt(p: Progress, img: Image, sw: nat, sh: nat)
    requires Proper(img) && sw > 0 && sh > 0 && Proper(p.canvas) && !p.blank && Covers(p.canvas, img, p.w, p.h, sh)
    requires sh + p.h <= img.height && sw + p.w <= img.width
    ensures var w', h' := NextWidth(p.w, sw, img.width), NextHeight(p.w, p.h, sw, sh, img.width);
            var q := Built(p, SubMatrix(img, sw, sh, p.w, p.h).value, img.width, img.height);
            if h' >= img.height then q == Progress(img, 0, 0, true)
            else !q.blank && q.w == w' && q.h == h' && Covers(q.canvas, img, w', h', sh)
  {
    var tile := SubMatrix(img, sw, sh, p.w, p.h).value;
    TilePlaced(p.canvas, img, sw, sh, p.w, p.h);
    var c := Placed(p.canvas, tile, p.w, p.h);
    CoversSize(p.canvas, img, p.w, p.h, sh);
    hide Covers, Placed, SubMatrix, Proper;
    if p.w + sw >= img.width {
      RowDone(c, img, p.w + sw, p.h, sh);
      if p.h + sh >= img.height {
        AllCovered(c, img, p.h + sh, sh);
      }
    }
  }

  lemma CoversSize(canvas: Image, img: Image, w: nat, h: nat, sh: nat)
    requires Proper(canvas) && Proper(img) && Covers(canvas, img, w, h, sh)
    ensures canvas.width == img.width && canvas.height == img.height
  {
  }

  /** The tiles of the rest of an image complete the canvas and put out the image. */
  lemma {:induction false} RestRebuilds(img: Image, sw: nat, sh: nat, p: Progress, more: seq<Image>)
    requires Proper(img) && sw > 0 && sh > 0 && Proper(p.canvas) && AllProper(more)
    requires !p.blank && Covers(p.canvas, img, p.w, p.h, sh)
    requires CutFrom(img, sw, sh, p.w, p.h).complete
    ensures var tiles := CutFrom(img, sw, sh, p.w, p.h).tiles;
            AllProper(tiles + more)
            && PutOut(p, tiles + more, img.width, img.height)
               == [img] + PutOut(Progress(img, 0, 0, true), more, img.width, img.height)
    decreases if p.h < img.height then img.height - p.h else 0, if p.w < img.width then img.width - p.w else 0
  {
    hide Covers, Built, SubMatrix, Proper, CutFrom, PutOut, AllProper;
    var w, h := p.w, p.h;
    CutStep(img, sw, sh, w, h);
    TilesProper(img, sw, sh, w, h);
    TileBuilt(p, img, sw, sh);
    var tile, tiles := SubMatrix(img, sw, sh, w, h).value, CutFrom(img, sw, sh, w, h).tiles;
    var w', h' := NextWidth(w, sw, img.width), NextHeight(w, h, sw, sh, img.width);
    AllOf(tiles, more);
    TileProper(img, sw, sh, w, h);
    if h' >= img.height {
      PutOutStep(p, tile, more, img.width, img.height);
    } else {
      var rest := CutFrom(img, sw, sh, w', h').tiles;
      RestRebuilds(img, sw, sh, Built(p, tile, img.width, img.height), more);
      PutOutStep(p, tile, rest + more, img.width, img.height);
      assert tiles + more == [tile] + (rest + more);
    }
  }

  lemma TileProper(img: Image, sw: nat, sh: nat, w: nat, h: nat)
    requires Proper(img) && sh + h <= img.height && sw + w <= img.width
    ensures Proper(SubMatrix(img, sw, sh, w, h).value)
  {
  }

  /** All tiles of a list of images, one image after the other. */
  ghost function Tiles(imgs: seq<Image>, sw: nat, sh: nat): (t: seq<Image>)
    requires AllProper(imgs) && sw > 0 && sh > 0
    ensures AllProper(t)
  {
    if imgs == [] then [] else CutFrom(imgs[0], sw, sh, 0, 0).tiles + Tiles(imgs[1..], sw, sh)
  }

  lemma PutOutStarts(p: Progress, tiles: seq<Image>, width: nat, height: nat)
    requires Proper(p.canvas) && AllProper(tiles) && p.blank && tiles != []
    ensures PutOut(p, tiles, width, height) == PutOut(Progress(Blank(width, height), 0, 0, false), tiles, width, height)
  {
    hide Proper, Placed, Blank;
  }

  /** Every stream of images of one size that the tile sizes divide comes back, image by image, when its
      tiles are built up again. */
  lemma {:induction false} RoundTrip(imgs: seq<Image>, sw: nat, sh: nat, width: nat, height: nat, p: Progress)
    requires AllProper(imgs) && sw > 0 && sh > 0 && width > 0 && height > 0 && width % sw == 0 && height % sh == 0
    requires forall i | 0 <= i < |imgs| :: imgs[i].width == width && imgs[i].height == height
    requires p.blank && Proper(p.canvas)
    ensures PutOut(p, Tiles(imgs, sw, sh), width, height) == imgs
  {
    hide PutOut, CutFrom, Built, Covers, SubMatrix, Blank;
    if imgs == [] {
      NothingPutOut(p, width, height);
    } else {
      var img, rest := imgs[0], Tiles(imgs[1..], sw, sh);
      CompleteExactly(img, sw, sh);
      CutStep(img, sw, sh, 0, 0);
      TilesProper(img, sw, sh, 0, 0);
      BlankCovers(img, sh);
      var s := Progress(Blank(width, height), 0, 0, false);
      BlankProper(width, height);
      RestRebuilds(img, sw, sh, s, rest);
      PutOutStarts(p, CutFrom(img, sw, sh, 0, 0).tiles + rest, width, height);
      RoundTrip(imgs[1..], sw, sh, width, height, Progress(img, 0, 0, true));
    }
  }

  lemma BlankProper(width: nat, height: nat)
    ensures Proper(Blank(width, height))
  {
  }

  lemma NothingPutOut(p: Progress, width: nat, height: nat)
    requires Proper(p.canvas)
    ensures PutOut(p, [], width, height) == []
  {
  }

  // ------------------------------------------------------------------ the blocks

  class ImgBreakup {
    const subWidth: nat
    const subHeight: nat
    var widthOffset: nat
    var heightOffset: nat

    constructor (width: nat, height: nat)
      requires width > 0 && height > 0
      ensures subWidth == width && subHeight == height
    {
      subWidth, subHeight, widthOffset, heightOffset := width, height, 0, 0;
    }

    /** The tiles of one image, along its rows and then down; the offsets move on after every tile, and a
        tile that would reach past the edge is an error. */
    method BreakImage(img: Image, out: OutBuffer<Image>) returns (status: int)
      requires Proper(img) && subWidth > 0 && subHeight > 0
      modifies this, out
      ensures status == 0 || status == 4 || status == 99
      ensures var c := CutFrom(img, subWidth, subHeight, 0, 0);
              && (status == 0 ==> c.complete && out.cells == old(out.cells) + c.tiles)
              && (status == 4 ==> !c.complete && out.cells == old(out.cells) + c.tiles)
              && (status == 99 ==> old(out.cells) <= out.cells <= old(out.cells) + c.tiles)
    {
      hide Proper, SubMatrix, CutFrom;
      widthOffset, heightOffset := 0, 0;
      ghost var all := CutFrom(img, subWidth, subHeight, 0, 0);
      ghost var left := all;
      var done := false;
      while !done
        invariant left.complete == all.complete && out.cells + left.tiles == old(out.cells) + all.tiles
        invariant old(out.cells) <= out.cells
        invariant if done then left == Cutting([], true)
                  else left == CutFrom(img, subWidth, subHeight, widthOffset, heightOffset)
        decreases !done, if heightOffset < img.height then img.height - heightOffset else 0,
                  if widthOffset < img.width then img.width - widthOffset else 0
      {
        left := CutRest(img, subWidth, subHeight, widthOffset, heightOffset, left, out.cells);
        var tile := SubMatrix(img, subWidth, subHeight, widthOffset, heightOffset);
        if tile.None? {
          return 4;
        }
        var full := out.Put(tile.value);
        if full {
          return 99;
        }
        widthOffset := widthOffset + subWidth;
        if widthOffset >= img.width {
          heightOffset := heightOffset + subHeight;
          widthOffset := 0;
        }
        if heightOffset >= img.height {
          done := true;
        }
      }
      return 0;
    }

    /** One visit: the tiles of every image, until one does not divide (4) or a cell is refused (99). */
    method MainCode(inp: InBuffer<Image>, out: OutBuffer<Image>) returns (status: int, ghost used: seq<Image>)
      requires subWidth > 0 && subHeight > 0 && AllProper(inp.pending)
      modifies this, inp, out
      ensures status == 0 || status == 4 || status == 99
      ensures old(inp.pending) == used + inp.pending && AllProper(used)
      ensures status == 0 ==> inp.pending == [] && out.cells == old(out.cells) + Tiles(used, subWidth, subHeight)
                              && forall i | 0 <= i < |used| :: CutFrom(used[i], subWidth, subHeight, 0, 0).complete
      ensures status == 4 ==> used != [] && !CutFrom(used[|used| - 1], subWidth, subHeight, 0, 0).complete
                              && out.cells == old(out.cells) + Tiles(used, subWidth, subHeight)
      ensures status == 99 ==> out.cells <= old(out.cells) + Tiles(used, subWidth, subHeight)
    {
      hide Proper, CutFrom, Tiles;
      used := [];
      ghost var xs := inp.pending;
      NoTiles(subWidth, subHeight);
      while inp.pending != []
        invariant xs == used + inp.pending && AllProper(used) && AllProper(inp.pending)
        invariant out.cells == old(out.cells) + Tiles(used, subWidth, subHeight)
        invariant forall i | 0 <= i < |used| :: CutFrom(used[i], subWidth, subHeight, 0, 0).complete
        decreases |inp.pending|
      {
        var img := inp.Take();
        TilesSnoc(used, img, subWidth, subHeight);
        status := BreakImage(img, out);
        used := used + [img];
        if status != 0 {
          return;
        }
      }
      return 0, used;
    }
  }

  lemma NoTiles(sw: nat, sh: nat)
    requires sw > 0 && sh > 0
    ensures Tiles([], sw, sh) == []
  {
  }

  lemma {:induction false} TilesSnoc(imgs: seq<Image>, img: Image, sw: nat, sh: nat)
    requires AllProper(imgs) && Proper(img) && sw > 0 && sh > 0
    ensures AllProper(imgs + [img])
    ensures Tiles(imgs + [img], sw, sh) == Tiles(imgs, sw, sh) + CutFrom(img, sw, sh, 0, 0).tiles
  {
    hide *;
    OneProper(img);
    AllOf(imgs, [img]);
    TilesStep(imgs + [img], sw, sh);
    NoTiles(sw, sh);
    if imgs == [] {
      assert (imgs + [img])[1..] == [];
    } else {
      assert (imgs + [img])[1..] == imgs[1..] + [img];
      TilesStep(imgs, sw, sh);
      TilesSnoc(imgs[1..], img, sw, sh);
    }
  }

  lemma OneProper(img: Image)
    requires Proper(img)
    ensures AllProper([img])
  {
    hide Proper;
  }

  lemma TilesStep(imgs: seq<Image>, sw: nat, sh: nat)
    requires imgs != [] && AllProper(imgs) && sw > 0 && sh > 0
    ensures Proper(imgs[0]) && AllProper(imgs[1..])
    ensures Tiles(imgs, sw, sh) == CutFrom(imgs[0], sw, sh, 0, 0).tiles + Tiles(imgs[1..], sw, sh)
  {
    hide Proper, CutFrom;
  }

  /** The image a matrix holds. */
  function Snapshot(m: array2<real>): (img: Image)
    reads m
    ensures Proper(img)
  {
    Image(m.Length1, m.Length0,
          seq(m.Length0, k requires 0 <= k < m.Length0 reads m =>
                seq(m.Length1, j requires 0 <= j < m.Length1 && 0 <= k < m.Length0 reads m => m[k, j])))
  }

  lemma SnapshotSize(m: array2<real>)
    ensures Proper(Snapshot(m)) && Snapshot(m).width == m.Length1 && Snapshot(m).height == m.Length0
  {
  }

  lemma BuiltFrom(p: Progress, tile: Image, width: nat, height: nat)
    requires Proper(p.canvas) && Proper(tile)
    ensures var s := Started(p, width, height);
            && Proper(s.canvas)
            && var canvas := Placed(s.canvas, tile, s.w, s.h);
               var w := NextWidth(s.w, tile.width, canvas.width);
               var h := NextHeight(s.w, s.h, tile.width, tile.height, canvas.width);
               Built(p, tile, width, height)
               == if h >= canvas.height then Progress(canvas, 0, 0, true) else Progress(canvas, w, h, false)
  {
    hide Placed, Proper;
  }

  lemma BlankSnapshot(m: array2<real>)
    requires forall k, j | 0 <= k < m.Length0 && 0 <= j < m.Length1 :: m[k, j] == 0.0
    ensures Snapshot(m) == Blank(m.Length1, m.Length0)
  {
    forall k | 0 <= k < m.Length0
      ensures Snapshot(m).rows[k] == Blank(m.Length1, m.Length0).rows[k]
    {
    }
  }

  class ImgBuild {
    const imageWidth: nat
    const imageHeight: nat
    var widthOffset: nat
    var heightOffset: nat
    var createImageFlag: bool
    var done: bool
    var matrix: array2<real>
    ghost var progress: Progress

    ghost predicate Valid()
      reads this, matrix
    {
      && Proper(progress.canvas) && createImageFlag == progress.blank
      && (!createImageFlag ==>
            !done && Snapshot(matrix) == progress.canvas && widthOffset == progress.w && heightOffset == progress.h)
    }

    constructor (width: nat, height: nat)
      ensures Valid() && fresh(matrix) && progress.blank && imageWidth == width && imageHeight == height
    {
      imageWidth, imageHeight, createImageFlag, done := width, height, true, false;
      widthOffset, heightOffset := 0, 0;
      matrix := new real[0, 0];
      progress := Progress(Blank(0, 0), 0, 0, true);
    }

    /** Adds a tile to the matrix at the current offsets; pixels past the edge are skipped. */
    method Place(img: Image)
      requires Proper(img)
      modifies matrix
      ensures Snapshot(matrix) == Placed(old(Snapshot(matrix)), img, widthOffset, heightOffset)
    {
      ghost var was := Snapshot(matrix);
      var k := heightOffset;
      while k < img.height + heightOffset
        invariant heightOffset <= k <= img.height + heightOffset
        invariant forall r, c | 0 <= r < matrix.Length0 && 0 <= c < matrix.Length1 ::
                    matrix[r, c] == was.rows[r][c]
                                    + (if r < k then Addend(img, widthOffset, heightOffset, r, c) else 0.0)
      {
        var j := widthOffset;
        while j < img.width + widthOffset
          invariant widthOffset <= j <= img.width + widthOffset
          invariant forall r, c | 0 <= r < matrix.Length0 && 0 <= c < matrix.Length1 ::
                      matrix[r, c] == was.rows[r][c]
                        + (if r < k || (r == k && c < j) then Addend(img, widthOffset, heightOffset, r, c) else 0.0)
        {
          if k < matrix.Length0 && j < matrix.Length1 {
            var temp := img.rows[k - heightOffset][j - widthOffset];
            matrix[k, j] := matrix[k, j] + temp;
          }
          j := j + 1;
        }
        k := k + 1;
      }
      ghost var p := Placed(was, img, widthOffset, heightOffset);
      forall r | 0 <= r < matrix.Length0
        ensures Snapshot(matrix).rows[r] == p.rows[r]
      {
        assert p.rows[r] == PlacedRow(was.rows[r], img, widthOffset, heightOffset, r);
        forall c | 0 <= c < matrix.Length1
          ensures Snapshot(matrix).rows[r][c] == p.rows[r][c]
        {
        }
      }
      assert Snapshot(matrix).rows == p.rows;
    }

    /** Takes a new zeroed matrix if one is due. */
    method Begin()
      requires Valid()
      modifies this
      ensures Valid() && !createImageFlag && progress == Started(old(progress), imageWidth, imageHeight)
      ensures matrix == old(matrix) || fresh(matrix)
    {
      hide Proper;
      progress := Started(progress, imageWidth, imageHeight);
      if createImageFlag {
        matrix := new real[imageHeight, imageWidth]((k, j) => 0.0);
        BlankSnapshot(matrix);
        createImageFlag, done, heightOffset, widthOffset := false, false, 0, 0;
      }
    }

    /** Moves along the image past a tile; past the last row the image is done. */
    method Move(width: nat, height: nat)
      requires !createImageFlag && !done
      modifies this`widthOffset, this`heightOffset, this`createImageFlag, this`done
      ensures var w, h := NextWidth(old(widthOffset), width, matrix.Length1),
                          NextHeight(old(widthOffset), old(heightOffset), width, height, matrix.Length1);
              && done == createImageFlag == (h >= matrix.Length0)
              && (if done then widthOffset == heightOffset == 0 else widthOffset == w && heightOffset == h)
    {
      widthOffset := widthOffset + width;
      if widthOffset >= matrix.Length1 {
        heightOffset := heightOffset + height;
        widthOffset := 0;
      }
      if heightOffset >= matrix.Length0 {
        widthOffset, heightOffset, createImageFlag, done := 0, 0, true, true;
      }
    }

    /** One tile: onto the canvas, a new one if the last was completed. */
    method TakeTile(img: Image, out: OutBuffer<Image>) returns (full: bool)
      requires Valid() && Proper(img)
      modifies this, matrix, out
      ensures progress == Built(old(progress), img, imageWidth, imageHeight) && (matrix == old(matrix) || fresh(matrix))
      ensures !full ==> Valid() && out.cells == old(out.cells) + (if progress.blank then [progress.canvas] else [])
      ensures full ==> progress.blank && out.cells == old(out.cells)
    {
      hide Placed, Snapshot, Proper, Blank, Started, NextWidth, NextHeight;
      ghost var p0 := progress;
      Begin();
      SnapshotSize(matrix);
      Place(img);
      SnapshotSize(matrix);
      BuiltFrom(p0, img, imageWidth, imageHeight);
      Move(img.width, img.height);
      progress := Built(p0, img, imageWidth, imageHeight);
      full := false;
      if done {
        full := out.Put(Snapshot(matrix));
      }
    }

    /** One visit: every canvas completed by the tiles taken is put out; a refused cell (99) ends the run. */
    method MainCode(inp: InBuffer<Image>, out: OutBuffer<Image>) returns (status: int, ghost used: seq<Image>)
      requires Valid() && AllProper(inp.pending)
      modifies this, matrix, inp, out
      ensures status == 0 || status == 99
      ensures old(inp.pending) == used + inp.pending && AllProper(used) && Proper(old(progress).canvas)
      ensures progress == BuiltAll(old(progress), used, imageWidth, imageHeight)
      ensures status == 0 ==> Valid() && inp.pending == []
                              && out.cells == old(out.cells) + PutOut(old(progress), used, imageWidth, imageHeight)
      ensures status == 99 ==> used != [] && AllProper(used[..|used| - 1])
                               && out.cells == old(out.cells)
                                  + PutOut(old(progress), used[..|used| - 1], imageWidth, imageHeight)
    {
      hide Proper, Built, PutOut, BuiltAll;
      used := [];
      ghost var xs, p0 := inp.pending, progress;
      NothingBuilt(p0, imageWidth, imageHeight);
      while inp.pending != []
        invariant Valid() && xs == used + inp.pending && AllProper(used) && AllProper(inp.pending)
        invariant matrix == old(matrix) || fresh(matrix)
        invariant progress == BuiltAll(p0, used, imageWidth, imageHeight)
        invariant out.cells == old(out.cells) + PutOut(p0, used, imageWidth, imageHeight)
        decreases |inp.pending|
      {
        var img := inp.Take();
        BuiltSnoc(p0, used, img, imageWidth, imageHeight);
        var full := TakeTile(img, out);
        used := used + [img];
        if full {
          assert used[..|used| - 1] == used[..|used| - 1 + 0];
          return 99, used;
        }
      }
      return 0, used;
    }
  }

  lemma NothingBuilt(p: Progress, width: nat, height: nat)
    requires Proper(p.canvas)
    ensures BuiltAll(p, [], width, height) == p && PutOut(p, [], width, height) == []
  {
  }

  lemma {:induction false} BuiltSnoc(p: Progress, tiles: seq<Image>, tile: Image, width: nat, height: nat)
    requires Proper(p.canvas) && AllProper(tiles) && Proper(tile)
    ensures AllProper(tiles + [tile]) && (tiles + [tile])[..|tiles|] == tiles
    ensures var q := Built(BuiltAll(p, tiles, width, height), tile, width, height);
            && BuiltAll(p, tiles + [tile], width, height) == q
            && PutOut(p, tiles + [tile], width, height)
               == PutOut(p, tiles, width, height) + (if q.blank then [q.canvas] else [])
    decreases |tiles|
  {
    hide Proper, Built, BuiltAll, PutOut;
    AllOf(tiles, [tile]);
    if tiles == [] {
      assert [tile] + [] == [tile] && tiles + [tile] == [tile];
      NothingBuilt(p, width, height);
      PutOutStep(p, tile, [], width, height);
      NothingBuilt(Built(p, tile, width, height), width, height);
    } else {
      var rest := tiles[1..];
      assert tiles == [tiles[0]] + rest && tiles + [tile] == [tiles[0]] + (rest + [tile]);
      BuiltSnoc(Built(p, tiles[0], width, height), rest, tile, width, height);
      PutOutStep(p, tiles[0], rest, width, height);
      PutOutStep(p, tiles[0], rest + [tile], width, height);
    }
  }
}
