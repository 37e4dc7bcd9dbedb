/**
 * The frame loop of TachyonRenderer::renderFrame
 * (src/plugins/tachyon/renderer/TachyonRenderer.cpp): the image is traced
 * tile by tile, each tile's rows shared out among the Tachyon threads, and
 * each finished tile copied from Tachyon's RGB24 buffer into the ARGB32
 * frame buffer, upside down.
 *
 * Ray tracing itself (thread_trace and the barrier that wakes the threads)
 * is outside the model: the traced image is an input, `img`.
 */
module TachyonFrame {
  import opened Wrappers
  import opened Arithmetic

  newtype byte = x: int | 0 <= x < 256

  /** The fields of thr_parms that the loop sets: 1-based, inclusive pixel ranges with a stride. */
  datatype ThrParms = ThrParms(startx: int, stopx: int, xinc: int, starty: int, stopy: int, yinc: int)

  /** A tile: columns xstart..xstop-1 and rows ystart..ystop-1 of the image. */
  datatype Rect = Rect(xstart: int, ystart: int, xstop: int, ystop: int)

  function Min(a: int, b: int): int { if a <= b then a else b }

  predicate InRect(t: Rect, y: int, x: int)
  {
    t.ystart <= y < t.ystop && t.xstart <= x < t.xstop
  }

  /** The edge length of a tile. */
  function TileSize(numthreads: nat): nat { numthreads * 8 }

  /** How many tiles the loops visit along a side of `len` pixels (one every ts pixels). */
  function TilesAlong(len: nat, ts: nat): nat
    requires ts > 0
  {
    (len + ts - 1) / ts
  }

  /** Tile (tx, ty): it starts at multiples of ts and is clipped at the image border. */
  function TileRect(w: nat, h: nat, ts: nat, tx: nat, ty: nat): Rect
  {
    Rect(tx * ts, ty * ts, Min(w, tx * ts + ts), Min(h, ty * ts + ts))
  }

  function TileCount(w: nat, h: nat, ts: nat): nat
    requires ts > 0
  {
    TilesAlong(w, ts) * TilesAlong(h, ts)
  }

  /** The i-th tile the loops visit: rows of tiles top to bottom, each left to right. */
  function TileAt(w: nat, h: nat, ts: nat, i: nat): Rect
    requires ts > 0 && i < TileCount(w, h, ts)
  {
    var nx := TilesAlong(w, ts);
    TileRect(w, h, ts, i % nx, i / nx)
  }

  /** The index of the tile that pixel (y, x) falls into. */
  function TileIndexOf(w: nat, ts: nat, y: nat, x: nat): nat
    requires ts > 0
  {
    var ty: nat := y / ts;
    var nx: nat := TilesAlong(w, ts);
    ty * nx + x / ts
  }

  /** Every pixel of the image falls into one of the tiles. */
  lemma PixelTileIndex(w: nat, h: nat, ts: nat, y: nat, x: nat)
    requires ts > 0 && y < h && x < w
    ensures x / ts < TilesAlong(w, ts) && y / ts < TilesAlong(h, ts)
    ensures TileIndexOf(w, ts, y, x) < TileCount(w, h, ts)
  {
    var nx, ny := TilesAlong(w, ts), TilesAlong(h, ts);
    var tx, ty := x / ts, y / ts;
    DivBounds(x, ts);
    DivBounds(y, ts);
    CeilDiv(w, ts, tx);
    CeilDiv(h, ts, ty);
    MulMono(ty + 1, ny, nx);
    assert (ty + 1) * nx == ty * nx + nx;
  }

  /**
   * The tiles partition the image: pixel (y, x) lies in tile i exactly
   * when i is its tile index.
   */
  lemma TilePartition(w: nat, h: nat, ts: nat, y: nat, x: nat, i: nat)
    requires ts > 0 && y < h && x < w && i < TileCount(w, h, ts)
    ensures InRect(TileAt(w, h, ts, i), y, x) <==> i == TileIndexOf(w, ts, y, x)
  {
    var nx := TilesAlong(w, ts);
    PixelTileIndex(w, h, ts, y, x);
    var a, b := i % nx, i / nx;
    var tx, ty := x / ts, y / ts;
    DivBounds(x, ts);
    DivBounds(y, ts);
    if InRect(TileAt(w, h, ts, i), y, x) {
      DivUnique(x, ts, a);
      DivUnique(y, ts, b);
      assert i == b * nx + a;
    }
    if i == TileIndexOf(w, ts, y, x) {
      DivModOf(ty, nx, tx);
    }
  }

  /** Tile number j is tile (j mod nx, j div nx), and both coordinates start inside the image. */
  lemma TileIndexParts(w: nat, h: nat, ts: nat, j: nat)
    requires ts > 0 && j < TileCount(w, h, ts)
    ensures TilesAlong(w, ts) > 0
    ensures (j % TilesAlong(w, ts)) * ts < w && (j / TilesAlong(w, ts)) * ts < h
  {
    var nx, ny := TilesAlong(w, ts), TilesAlong(h, ts);
    var ty, tx := j / nx, j % nx;
    DivBounds(j, nx);
    assert j == ty * nx + tx;
    if ty >= ny {
      MulMono(ny, ty, nx);
    }
    CeilDiv(w, ts, tx);
    CeilDiv(h, ts, ty);
  }

  /** Every tile lies inside the image and is non-empty. */
  lemma TileInImage(w: nat, h: nat, ts: nat, i: nat)
    requires ts > 0 && i < TileCount(w, h, ts)
    ensures var t := TileAt(w, h, ts, i);
            0 <= t.xstart < t.xstop <= w && 0 <= t.ystart < t.ystop <= h
  {
    var nx := TilesAlong(w, ts);
    TileIndexParts(w, h, ts, i);
    var a, b := i % nx, i / nx;
    MulMono(0, a, ts);
    MulMono(0, b, ts);
    var xs, ys := a * ts, b * ts;
    assert TileAt(w, h, ts, i) == Rect(xs, ys, Min(w, xs + ts), Min(h, ys + ts));
  }

  // ---------------------------------------------------------------------
  // Thread parameters

  /** The parameters the loop gives thread `thr` for tile t. */
  function ParmsFor(t: Rect, numthreads: nat, thr: nat): ThrParms
  {
    ThrParms(1 + t.xstart, t.xstop, 1, thr + 1 + t.ystart, t.ystop, numthreads)
  }

  /** Tachyon's tracer loops y from starty to stopy in steps of yinc (1-based rows). */
  predicate TracesRow(p: ThrParms, y: int)
    requires p.yinc > 0
  {
    p.starty <= y <= p.stopy && (y - p.starty) % p.yinc == 0
  }

  predicate TracesColumn(p: ThrParms, x: int)
    requires p.xinc > 0
  {
    p.startx <= x <= p.stopx && (x - p.startx) % p.xinc == 0
  }

  /**
   * The threads split the tile's rows: 1-based row y of the tile is traced
   * by thread thr exactly when thr == (y - 1 - ystart) mod numthreads.
   */
  lemma RowOwner(t: Rect, numthreads: nat, thr: nat, y: int)
    requires numthreads >= 1 && thr < numthreads && t.ystart < y <= t.ystop
    ensures TracesRow(ParmsFor(t, numthreads, thr), y) <==> thr == (y - 1 - t.ystart) % numthreads
  {
    var d := y - 1 - t.ystart;
    assert y - (thr + 1 + t.ystart) == d - thr;
    ModResidue(d, numthreads, thr);
  }

  /** Every thread traces every column of the tile, 1-based xstart+1..xstop. */
  lemma ColumnsOfEveryThread(t: Rect, numthreads: nat, thr: nat, x: int)
    ensures TracesColumn(ParmsFor(t, numthreads, thr), x) <==> t.xstart < x <= t.xstop
  {
  }

  /** The per-thread loop: one parameter block per thread for tile t. */
  method AssignThreadParms(parms: array<ThrParms>, numthreads: nat, t: Rect)
    requires parms.Length == numthreads
    modifies parms
    ensures forall thr :: 0 <= thr < numthreads ==> parms[thr] == ParmsFor(t, numthreads, thr)
  {
    for thr := 0 to numthreads
      invariant forall k :: 0 <= k < thr ==> parms[k] == ParmsFor(t, numthreads, k)
    {
      parms[thr] := ThrParms(1 + t.xstart, t.xstop, 1, thr + 1 + t.ystart, t.ystop, numthreads);
    }
  }

  // ---------------------------------------------------------------------
  // Copying a tile into the frame buffer

  /** Pixel (y, x) of a w-pixel-wide RGB24 image starts at byte y * (w * 3) + x * 3. */
  lemma PixelInImage(w: nat, h: nat, y: nat, x: nat)
    requires y < h && x < w
    ensures y * (w * 3) + x * 3 + 2 < w * h * 3
  {
    MulMono(y + 1, h, w);
    assert y * (w * 3) + x * 3 + 3 <= (y + 1) * w * 3;
    assert h * w * 3 == w * h * 3;
  }

  /**
   * Channel c (blue, green, red, alpha in memory order) of the ARGB32
   * pixel the copy makes from RGB24 pixel (y, x).
   */
  function Bgra(img: seq<byte>, w: nat, h: nat, y: nat, x: nat, c: nat): byte
    requires |img| == w * h * 3 && y < h && x < w && c < 4
  {
    PixelInImage(w, h, y, x);
    var base := y * (w * 3) + x * 3;
    if c == 0 then img[base + 2]
    else if c == 1 then img[base + 1]
    else if c == 2 then img[base]
    else 255
  }

  /**
   * One row of the copy: source row y, columns xstart..xstop-1, written
   * to frame-buffer row h-1-y; nothing else changes.
   */
  method CopyRow(fb: array3<byte>, img: seq<byte>, w: nat, h: nat, y: nat, xstart: nat, xstop: nat)
    requires fb.Length0 == h && fb.Length1 == w && fb.Length2 == 4 && |img| == w * h * 3
    requires y < h && xstart <= xstop <= w
    modifies fb
    ensures forall r, x, c :: 0 <= r < h && 0 <= x < w && 0 <= c < 4 ==>
      fb[r, x, c] == if r == h - 1 - y && xstart <= x < xstop then Bgra(img, w, h, y, x, c) else old(fb[r, x, c])
  {
    var bperline := w * 3;
    var row := h - 1 - y;
    var src := y * bperline + xstart * 3;
    for x := xstart to xstop
      invariant src == y * bperline + x * 3
      invariant forall r, x', c :: 0 <= r < h && 0 <= x' < w && 0 <= c < 4 ==>
        fb[r, x', c] == if r == row && xstart <= x' < x then Bgra(img, w, h, y, x', c) else old(fb[r, x', c])
    {
      PixelInImage(w, h, y, x);
      fb[row, x, 0] := img[src + 2];
      fb[row, x, 1] := img[src + 1];
      fb[row, x, 2] := img[src];
      fb[row, x, 3] := 255;
      src := src + 3;
    }
  }

  /** The copy of one tile: every pixel of tile t lands flipped; nothing else changes. */
  method CopyTile(fb: array3<byte>, img: seq<byte>, w: nat, h: nat, t: Rect)
    requires fb.Length0 == h && fb.Length1 == w && fb.Length2 == 4 && |img| == w * h * 3
    requires 0 <= t.xstart <= t.xstop <= w && 0 <= t.ystart <= t.ystop <= h
    modifies fb
    ensures forall r, x, c :: 0 <= r < h && 0 <= x < w && 0 <= c < 4 ==>
      fb[r, x, c] == if InRect(t, h - 1 - r, x) then Bgra(img, w, h, h - 1 - r, x, c) else old(fb[r, x, c])
  {
    for y := t.ystart to t.ystop
      invariant forall r, x, c :: 0 <= r < h && 0 <= x < w && 0 <= c < 4 ==>
        fb[r, x, c] == if t.ystart <= h - 1 - r < y && t.xstart <= x < t.xstop
                       then Bgra(img, w, h, h - 1 - r, x, c) else old(fb[r, x, c])
    {
      CopyRow(fb, img, w, h, y, t.xstart, t.xstop);
    }
  }

  // ---------------------------------------------------------------------
  // Progress

  function Area(t: Rect): int
  {
    (t.xstop - t.xstart) * (t.ystop - t.ystart)
  }

  /** The progress the first k tiles add: the sum of their areas. */
  function AreaOfFirst(w: nat, h: nat, ts: nat, k: nat): int
    requires ts > 0 && k <= TileCount(w, h, ts)
    decreases k
  {
    if k == 0 then 0 else AreaOfFirst(w, h, ts, k - 1) + Area(TileAt(w, h, ts, k - 1))
  }

  /** The area of ty full rows of tiles and the first tx tiles of the next row. */
  function AreaUpTo(w: nat, h: nat, ts: nat, ty: nat, tx: nat): int
  {
    Min(h, ty * ts) * w + Min(w, tx * ts) * (Min(h, ty * ts + ts) - ty * ts)
  }

  /** Adding tile (tx, ty) to the tiles before it in its row. */
  lemma AreaStepWithinRow(w: nat, h: nat, ts: nat, ty: nat, tx: nat)
    requires ts > 0 && tx * ts < w && ty * ts < h
    ensures AreaUpTo(w, h, ts, ty, tx + 1) == AreaUpTo(w, h, ts, ty, tx) + Area(TileRect(w, h, ts, tx, ty))
  {
    var a, b := tx * ts, ty * ts;
    assert (tx + 1) * ts == a + ts;
    var bh := Min(h, b + ts) - b;
    var cw := Min(w, a + ts) - a;
    assert AreaUpTo(w, h, ts, ty, tx) == b * w + a * bh;
    assert AreaUpTo(w, h, ts, ty, tx + 1) == b * w + (a + cw) * bh;
    assert Area(TileRect(w, h, ts, tx, ty)) == cw * bh;
  }

  /** A row of n tiles that reaches the right border is a full row. */
  lemma RowComplete(w: nat, h: nat, ts: nat, ty: nat, n: nat)
    requires ts > 0 && w <= n * ts && ty * ts < h
    ensures AreaUpTo(w, h, ts, ty, n) == AreaUpTo(w, h, ts, ty + 1, 0)
  {
    var b := ty * ts;
    assert (ty + 1) * ts == b + ts;
    var bh := Min(h, b + ts) - b;
    assert AreaUpTo(w, h, ts, ty, n) == b * w + w * bh;
    assert AreaUpTo(w, h, ts, ty + 1, 0) == (b + bh) * w;
  }

  /** The induction step within a row: tile number ty * nx + tx - 1 is tile (tx - 1, ty). */
  lemma AreaOfRowsStep(w: nat, h: nat, ts: nat, ty: nat, tx: nat)
    requires ts > 0 && ty < TilesAlong(h, ts) && 0 < tx <= TilesAlong(w, ts)
    requires ty * TilesAlong(w, ts) + tx <= TileCount(w, h, ts)
    requires AreaOfFirst(w, h, ts, ty * TilesAlong(w, ts) + (tx - 1)) == AreaUpTo(w, h, ts, ty, tx - 1)
    ensures AreaOfFirst(w, h, ts, ty * TilesAlong(w, ts) + tx) == AreaUpTo(w, h, ts, ty, tx)
  {
    var nx := TilesAlong(w, ts);
    var j := ty * nx + (tx - 1);
    DivModOf(ty, nx, tx - 1);
    assert TileAt(w, h, ts, j) == TileRect(w, h, ts, tx - 1, ty);
    assert AreaOfFirst(w, h, ts, j + 1) == AreaOfFirst(w, h, ts, j) + Area(TileAt(w, h, ts, j));
    CeilDiv(h, ts, ty);
    CeilDiv(w, ts, tx - 1);
    AreaStepWithinRow(w, h, ts, ty, tx - 1);
  }

  /** The induction step to a new row: nx tiles after row ty - 1 starts row ty. */
  lemma AreaOfRowsWrap(w: nat, h: nat, ts: nat, ty: nat)
    requires ts > 0 && 0 < ty < TilesAlong(h, ts)
    requires ty * TilesAlong(w, ts) <= TileCount(w, h, ts)
    requires AreaOfFirst(w, h, ts, (ty - 1) * TilesAlong(w, ts) + TilesAlong(w, ts))
             == AreaUpTo(w, h, ts, ty - 1, TilesAlong(w, ts))
    ensures AreaOfFirst(w, h, ts, ty * TilesAlong(w, ts)) == AreaUpTo(w, h, ts, ty, 0)
  {
    var nx := TilesAlong(w, ts);
    MulPred(ty, nx);
    CeilDiv(w, ts, nx);
    CeilDiv(h, ts, ty - 1);
    RowComplete(w, h, ts, ty - 1, nx);
  }

  /**
   * The first ty rows of tiles and tx tiles of the next row add
   * AreaUpTo(ty, tx).
   */
  lemma {:induction false} AreaOfRows(w: nat, h: nat, ts: nat, ty: nat, tx: nat)
    requires ts > 0 && ty < TilesAlong(h, ts) && tx <= TilesAlong(w, ts)
    ensures ty * TilesAlong(w, ts) + tx <= TileCount(w, h, ts)
    ensures AreaOfFirst(w, h, ts, ty * TilesAlong(w, ts) + tx) == AreaUpTo(w, h, ts, ty, tx)
    decreases ty, tx
  {
    RowBound(ty, TilesAlong(h, ts), TilesAlong(w, ts));
    if tx > 0 {
      AreaOfRows(w, h, ts, ty, tx - 1);
      AreaOfRowsStep(w, h, ts, ty, tx);
    } else if ty > 0 {
      AreaOfRows(w, h, ts, ty - 1, TilesAlong(w, ts));
      AreaOfRowsWrap(w, h, ts, ty);
    }
  }

  /** ny full rows of tiles cover an image of height at most ny * ts. */
  lemma AreaOfFullRows(w: nat, h: nat, ts: nat, ny: nat)
    requires ts > 0 && h <= ny * ts
    ensures AreaUpTo(w, h, ts, ny, 0) == w * h
  {
  }

  /** The last row of tiles, completed, covers the image. */
  lemma LastRowCompletes(w: nat, h: nat, ts: nat, nx: nat, ny: nat)
    requires ts > 0 && nx == TilesAlong(w, ts) && ny == TilesAlong(h, ts) && ny > 0
    ensures AreaUpTo(w, h, ts, ny - 1, nx) == w * h
  {
    CeilDiv(w, ts, nx);
    CeilDiv(h, ts, ny - 1);
    RowComplete(w, h, ts, ny - 1, nx);
    CeilDiv(h, ts, ny);
    AreaOfFullRows(w, h, ts, ny);
  }

  /** All tiles together add the whole image: width times height. */
  lemma AllTilesArea(w: nat, h: nat, ts: nat)
    requires ts > 0
    ensures AreaOfFirst(w, h, ts, TileCount(w, h, ts)) == w * h
  {
    var nx, ny := TilesAlong(w, ts), TilesAlong(h, ts);
    CeilDiv(w, ts, 0);
    CeilDiv(h, ts, 0);
    if nx > 0 && ny > 0 {
      AreaOfRows(w, h, ts, ny - 1, nx);
      MulPred(ny, nx);
      LastRowCompletes(w, h, ts, nx, ny);
    } else if nx == 0 {
      assert w == 0 && TileCount(w, h, ts) == 0 * ny;
    } else {
      assert h == 0 && TileCount(w, h, ts) == nx * 0;
    }
  }

  // ---------------------------------------------------------------------
  // The frame loop

  /** progress->wasCanceled() once `done` tiles are finished, for a user who cancels after cancelAfter tiles. */
  predicate Canceled(cancelAfter: Option<nat>, done: nat)
  {
    cancelAfter.Some? && done >= cancelAfter.value
  }

  /** The number of tiles the loops finish: all of them, unless cancelled before. */
  function TilesRendered(w: nat, h: nat, ts: nat, cancelAfter: Option<nat>): nat
    requires ts > 0
  {
    match cancelAfter
    case None => TileCount(w, h, ts)
    case Some(k) => Min(k, TileCount(w, h, ts))
  }

  /**
   * The body of the tile loops for tile number i, whose corner is
   * (xstart, ystart): the threads' parameters are set for the tile and the
   * traced tile is copied into the frame buffer. Exactly the pixels of
   * tile i change.
   */
  method RenderTile(numthreads: nat, w: nat, h: nat, img: seq<byte>, fb: array3<byte>,
                    parms: array<ThrParms>, ghost i: nat, xstart: nat, ystart: nat)
    requires numthreads >= 1 && parms.Length == numthreads
    requires |img| == w * h * 3 && fb.Length0 == h && fb.Length1 == w && fb.Length2 == 4
    requires i < TileCount(w, h, TileSize(numthreads))
    requires TileAt(w, h, TileSize(numthreads), i)
             == Rect(xstart, ystart, Min(w, xstart + TileSize(numthreads)), Min(h, ystart + TileSize(numthreads)))
    modifies fb, parms
    ensures forall r, x, c :: 0 <= r < h && 0 <= x < w && 0 <= c < 4 ==>
      fb[r, x, c] == if TileIndexOf(w, TileSize(numthreads), h - 1 - r, x) == i
                     then Bgra(img, w, h, h - 1 - r, x, c) else old(fb[r, x, c])
    ensures forall thr :: 0 <= thr < numthreads ==>
      parms[thr] == ParmsFor(TileAt(w, h, TileSize(numthreads), i), numthreads, thr)
  {
    var tileSize := numthreads * 8;
    var tile := Rect(xstart, ystart, Min(w, xstart + tileSize), Min(h, ystart + tileSize));
    TileInImage(w, h, tileSize, i);
    AssignThreadParms(parms, numthreads, tile);
    CopyTile(fb, img, w, h, tile);
    forall y, x | 0 <= y < h && 0 <= x < w
      ensures InRect(tile, y, x) <==> i == TileIndexOf(w, tileSize, y, x)
    {
      TilePartition(w, h, tileSize, y, x, i);
    }
  }

  /**
   * The inner loop of renderFrame: the tiles of row ty, left to right,
   * from tile number done0 = ty * nx, until the row ends or the user cancels.
   */
  method RenderTileRow(numthreads: nat, w: nat, h: nat, img: seq<byte>, fb: array3<byte>,
                       parms: array<ThrParms>, cancelAfter: Option<nat>,
                       ystart: nat, ghost ty: nat, done0: nat, progress0: int)
    returns (done: nat, progress: int)
    requires numthreads >= 1 && parms.Length == numthreads
    requires |img| == w * h * 3 && fb.Length0 == h && fb.Length1 == w && fb.Length2 == 4
    requires ystart == ty * TileSize(numthreads) && ystart < h
    requires done0 == ty * TilesAlong(w, TileSize(numthreads))
    requires cancelAfter.Some? ==> done0 <= cancelAfter.value
    modifies fb, parms
    ensures done0 <= done <= done0 + TilesAlong(w, TileSize(numthreads))
    ensures done == done0 + TilesAlong(w, TileSize(numthreads)) || Canceled(cancelAfter, done)
    ensures cancelAfter.Some? ==> done <= cancelAfter.value
    ensures done <= TileCount(w, h, TileSize(numthreads))
    ensures progress == progress0 + AreaOfFirst(w, h, TileSize(numthreads), done)
                                  - AreaOfFirst(w, h, TileSize(numthreads), done0)
    ensures forall r, x, c :: 0 <= r < h && 0 <= x < w && 0 <= c < 4 ==>
      fb[r, x, c] == if done0 <= TileIndexOf(w, TileSize(numthreads), h - 1 - r, x) < done
                     then Bgra(img, w, h, h - 1 - r, x, c) else old(fb[r, x, c])
    ensures done == done0 ==> parms[..] == old(parms[..])
    ensures done > done0 ==> forall thr :: 0 <= thr < numthreads ==>
      parms[thr] == ParmsFor(TileAt(w, h, TileSize(numthreads), done - 1), numthreads, thr)
  {
    var tileSize := numthreads * 8;
    ghost var nx := TilesAlong(w, tileSize);
    done := done0;
    progress := progress0;
    var xstart := 0;
    ghost var tx: nat := 0;
    TileRowInImage(w, h, tileSize, ty);
    while xstart < w && !Canceled(cancelAfter, done)
      invariant xstart == tx * tileSize && tx <= nx
      invariant done == done0 + tx
      invariant cancelAfter.Some? ==> done <= cancelAfter.value
      invariant progress == progress0 + AreaOfFirst(w, h, tileSize, done) - AreaOfFirst(w, h, tileSize, done0)
      invariant forall r, x, c :: 0 <= r < h && 0 <= x < w && 0 <= c < 4 ==>
        fb[r, x, c] == if done0 <= TileIndexOf(w, tileSize, h - 1 - r, x) < done
                       then Bgra(img, w, h, h - 1 - r, x, c) else old(fb[r, x, c])
      invariant done == done0 ==> parms[..] == old(parms[..])
      invariant done > done0 ==> forall thr :: 0 <= thr < numthreads ==>
        parms[thr] == ParmsFor(TileAt(w, h, tileSize, done - 1), numthreads, thr)
      decreases w - xstart
    {
      CeilDiv(w, tileSize, tx);
      TileIsNext(w, h, tileSize, tx, ty, done);
      assert (tx + 1) * tileSize == tx * tileSize + tileSize;
      RenderTile(numthreads, w, h, img, fb, parms, done, xstart, ystart);
      progress := progress + (Min(w, xstart + tileSize) - xstart) * (Min(h, ystart + tileSize) - ystart);
      done := done + 1;
      xstart := xstart + tileSize;
      tx := tx + 1;
    }
    if !Canceled(cancelAfter, done) {
      CeilDiv(w, tileSize, tx);
    }
  }

  /**
   * The tile loops of TachyonRenderer::renderFrame. `img` is the image
   * Tachyon traces (RGB24, w * 3 bytes per row, row 0 first); `fb` is the
   * frame buffer image (rows, columns, ARGB32 bytes); `cancelAfter` is the
   * number of finished tiles after which the user cancels, if ever.
   */
  method RenderFrame(numthreads: nat, w: nat, h: nat, img: seq<byte>, fb: array3<byte>,
                     parms: array<ThrParms>, cancelAfter: Option<nat>, progress0: int)
    returns (rendered: bool, progress: int)
    requires numthreads >= 1 && parms.Length == numthreads
    requires |img| == w * h * 3 && fb.Length0 == h && fb.Length1 == w && fb.Length2 == 4
    modifies fb, parms
    ensures var done := TilesRendered(w, h, TileSize(numthreads), cancelAfter);
            rendered == !Canceled(cancelAfter, done)
            && progress == progress0 + AreaOfFirst(w, h, TileSize(numthreads), done)
    ensures var done := TilesRendered(w, h, TileSize(numthreads), cancelAfter);
            forall r, x, c :: 0 <= r < h && 0 <= x < w && 0 <= c < 4 ==>
              fb[r, x, c] == if TileIndexOf(w, TileSize(numthreads), h - 1 - r, x) < done
                             then Bgra(img, w, h, h - 1 - r, x, c) else old(fb[r, x, c])
    ensures var done := TilesRendered(w, h, TileSize(numthreads), cancelAfter);
            (done == 0 ==> parms[..] == old(parms[..]))
            && (done > 0 ==> forall thr :: 0 <= thr < numthreads ==>
                  parms[thr] == ParmsFor(TileAt(w, h, TileSize(numthreads), done - 1), numthreads, thr))
  {
    var tileSize := numthreads * 8;
    ghost var nx, ny := TilesAlong(w, tileSize), TilesAlong(h, tileSize);
    var done: nat := 0;
    progress := progress0;
    var ystart := 0;
    ghost var ty: nat := 0;
    while ystart < h && !Canceled(cancelAfter, done)
      invariant ystart == ty * tileSize && ty <= ny
      invariant done <= TileCount(w, h, tileSize)
      invariant done == ty * nx || Canceled(cancelAfter, done)
      invariant cancelAfter.Some? ==> done <= cancelAfter.value
      invariant progress == progress0 + AreaOfFirst(w, h, tileSize, done)
      invariant forall r, x, c :: 0 <= r < h && 0 <= x < w && 0 <= c < 4 ==>
        fb[r, x, c] == if TileIndexOf(w, tileSize, h - 1 - r, x) < done
                       then Bgra(img, w, h, h - 1 - r, x, c) else old(fb[r, x, c])
      invariant done == 0 ==> parms[..] == old(parms[..])
      invariant done > 0 ==> forall thr :: 0 <= thr < numthreads ==>
        parms[thr] == ParmsFor(TileAt(w, h, tileSize, done - 1), numthreads, thr)
      decreases h - ystart
    {
      CeilDiv(h, tileSize, ty);
      ghost var rowStart := done;
      label BeforeRow:
      done, progress := RenderTileRow(numthreads, w, h, img, fb, parms, cancelAfter, ystart, ty, done, progress);
      forall r, x, c | 0 <= r < h && 0 <= x < w && 0 <= c < 4
        ensures fb[r, x, c] == if TileIndexOf(w, tileSize, h - 1 - r, x) < done
                               then Bgra(img, w, h, h - 1 - r, x, c) else old(fb[r, x, c])
      {
        assert old@BeforeRow(fb[r, x, c]) == if TileIndexOf(w, tileSize, h - 1 - r, x) < rowStart
                                             then Bgra(img, w, h, h - 1 - r, x, c) else old(fb[r, x, c]);
      }
      assert (ty + 1) * nx == ty * nx + nx;
      assert (ty + 1) * tileSize == ty * tileSize + tileSize;
      ystart := ystart + tileSize;
      ty := ty + 1;
    }
    FrameLoopExit(w, h, tileSize, cancelAfter, done, ty);
    rendered := !Canceled(cancelAfter, done);
  }

  /** When the frame loop stops, the tiles it finished are TilesRendered. */
  lemma FrameLoopExit(w: nat, h: nat, ts: nat, cancelAfter: Option<nat>, done: nat, ty: nat)
    requires ts > 0 && done <= TileCount(w, h, ts) && ty <= TilesAlong(h, ts)
    requires done == ty * TilesAlong(w, ts) || Canceled(cancelAfter, done)
    requires cancelAfter.Some? ==> done <= cancelAfter.value
    requires h <= ty * ts || Canceled(cancelAfter, done)
    ensures done == TilesRendered(w, h, ts, cancelAfter)
  {
    if !Canceled(cancelAfter, done) {
      CeilDiv(h, ts, ty);
    }
  }

  /** Row ty of tiles lies inside the image, and the tiles before its end exist. */
  lemma TileRowInImage(w: nat, h: nat, ts: nat, ty: nat)
    requires ts > 0 && ty * ts < h
    ensures ty < TilesAlong(h, ts)
    ensures ty * TilesAlong(w, ts) + TilesAlong(w, ts) <= TileCount(w, h, ts)
  {
    var nx, ny := TilesAlong(w, ts), TilesAlong(h, ts);
    CeilDiv(h, ts, ty);
    if nx > 0 {
      MulMono(ty + 1, ny, nx);
      assert (ty + 1) * nx == ty * nx + nx;
    }
  }

  /** Tile (tx, ty) of the loops is tile number ty * nx + tx, and exists. */
  lemma TileIsNext(w: nat, h: nat, ts: nat, tx: nat, ty: nat, i: nat)
    requires ts > 0 && tx * ts < w && ty * ts < h && i == ty * TilesAlong(w, ts) + tx
    ensures i < TileCount(w, h, ts)
    ensures TileAt(w, h, ts, i) == Rect(tx * ts, ty * ts, Min(w, tx * ts + ts), Min(h, ty * ts + ts))
  {
    var nx, ny := TilesAlong(w, ts), TilesAlong(h, ts);
    CeilDiv(w, ts, tx);
    CeilDiv(h, ts, ty);
    DivModOf(ty, nx, tx);
    MulMono(ty + 1, ny, nx);
    assert (ty + 1) * nx == ty * nx + nx;
  }

  /**
   * A frame that is not cancelled is complete: every tile is done, the
   * progress grows by the image area, and every pixel holds its flipped,
   * channel-swapped source pixel.
   */
  lemma CompleteFrame(numthreads: nat, w: nat, h: nat, cancelAfter: Option<nat>)
    requires numthreads >= 1
    requires !Canceled(cancelAfter, TilesRendered(w, h, TileSize(numthreads), cancelAfter))
    ensures TilesRendered(w, h, TileSize(numthreads), cancelAfter) == TileCount(w, h, TileSize(numthreads))
    ensures AreaOfFirst(w, h, TileSize(numthreads), TilesRendered(w, h, TileSize(numthreads), cancelAfter)) == w * h
    ensures forall y, x :: 0 <= y < h && 0 <= x < w ==>
              TileIndexOf(w, TileSize(numthreads), y, x) < TilesRendered(w, h, TileSize(numthreads), cancelAfter)
  {
    var ts := TileSize(numthreads);
    AllTilesArea(w, h, ts);
    forall y, x | 0 <= y < h && 0 <= x < w
      ensures TileIndexOf(w, ts, y, x) < TileCount(w, h, ts)
    {
      PixelTileIndex(w, h, ts, y, x);
    }
  }
}
