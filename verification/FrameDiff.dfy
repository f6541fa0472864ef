/** Comparing two frames, and cutting a rectangle out of one. */
module FrameDiff {
  import opened Bytes
  import opened Grid
  import opened DirtyRects

  /** The pixel differs and lies in the block of grid cell c. */
  predicate DiffersIn(cur: seq<byte>, prev: seq<byte>, w: nat, h: nat, blockSize: nat, c: Cell, x: nat, y: nat)
    requires |cur| == h * (w * 4) && |prev| == |cur| && blockSize > 0
  {
    x < w && y < h && c == (x / blockSize, y / blockSize) && Differs(cur, prev, w, h, x, y)
  }

  /** The grid cells that contain a differing pixel. */
  ghost function DirtyCells(cur: seq<byte>, prev: seq<byte>, w: nat, h: nat, blockSize: nat): set<Cell>
    requires |cur| == h * (w * 4) && |prev| == |cur| && blockSize > 0
  {
    set cx, cy | 0 <= cx < Cells(w, blockSize) && 0 <= cy < Cells(h, blockSize)
                 && (exists x, y :: DiffersIn(cur, prev, w, h, blockSize, (cx, cy), x, y)) :: (cx, cy)
  }

  lemma PixelCell(blockSize: nat, w: nat, c: nat, x: nat)
    requires blockSize > 0
    ensures c * blockSize <= x < Min(c * blockSize + blockSize, w) <==> x < w && x / blockSize == c
  {
    BeforeCell(c, blockSize, x);
    BeforeCell(c + 1, blockSize, x);
    assert (c + 1) * blockSize == c * blockSize + blockSize;
  }

  lemma PixelInGrid(blockSize: nat, w: nat, x: nat)
    requires blockSize > 0 && x < w
    ensures x / blockSize < Cells(w, blockSize)
  {
    var c := x / blockSize;
    BeforeCell(c, blockSize, x);
    CellStarts(w, blockSize, c);
  }

  /** A block is equal exactly when its cell is not dirty. */
  lemma BlockIsCell(cur: seq<byte>, prev: seq<byte>, w: nat, h: nat, blockSize: nat, cx: nat, cy: nat)
    requires |cur| == h * (w * 4) && |prev| == |cur| && blockSize > 0
    requires cx < Cells(w, blockSize) && cy < Cells(h, blockSize)
    ensures (cx, cy) !in DirtyCells(cur, prev, w, h, blockSize) <==> forall x: nat, y: nat ::
              cx * blockSize <= x < Min(cx * blockSize + blockSize, w)
                  && cy * blockSize <= y < Min(cy * blockSize + blockSize, h)
              ==> !Differs(cur, prev, w, h, x, y)
  {
    forall x: nat, y: nat
      ensures (cx * blockSize <= x < Min(cx * blockSize + blockSize, w)
               && cy * blockSize <= y < Min(cy * blockSize + blockSize, h)
               && Differs(cur, prev, w, h, x, y)) <==> DiffersIn(cur, prev, w, h, blockSize, (cx, cy), x, y)
    {
      PixelCell(blockSize, w, cx, x);
      PixelCell(blockSize, h, cy, y);
    }
  }

  predicate Before(c: Cell, cx: int, cy: int) {
    c.1 < cy || (c.1 == cy && c.0 < cx)
  }

  /** The corner pixels of the cells the comparison has passed. */
  function Corners(d: set<Cell>, blockSize: nat, cx: int, cy: int): set<Block> {
    set c | c in d && Before(c, cx, cy) :: (c.0 * blockSize, c.1 * blockSize)
  }

  lemma CornersNext(d: set<Cell>, blockSize: nat, cx: int, cy: int)
    ensures Corners(d, blockSize, cx + 1, cy)
         == Corners(d, blockSize, cx, cy) + (if (cx, cy) in d then {(cx * blockSize, cy * blockSize)} else {})
  {
    forall b | b in Corners(d, blockSize, cx, cy)
      ensures b in Corners(d, blockSize, cx + 1, cy)
    {
      var c :| c in d && Before(c, cx, cy) && b == (c.0 * blockSize, c.1 * blockSize);
      assert Before(c, cx + 1, cy);
    }
    if (cx, cy) in d {
      assert Before((cx, cy), cx + 1, cy);
    }
  }

  lemma CornersRow(d: set<Cell>, blockSize: nat, gw: nat, gh: nat, cy: int)
    requires forall c :: c in d ==> InGrid(gw, gh, c)
    ensures Corners(d, blockSize, gw, cy) == Corners(d, blockSize, 0, cy + 1)
  {
    forall c | c in d
      ensures Before(c, gw, cy) <==> Before(c, 0, cy + 1)
    {
    }
  }

  /** The merge sees exactly the dirty cells. */
  lemma CornersBack(d: set<Cell>, blockSize: nat, gw: nat, gh: nat)
    requires blockSize > 0 && forall c :: c in d ==> InGrid(gw, gh, c)
    ensures BlockCells(Corners(d, blockSize, 0, gh), blockSize, gw, gh) == d
    ensures forall b :: b in Corners(d, blockSize, 0, gh) ==> b.0 >= 0 && b.1 >= 0
  {
    forall c: Cell | c in d
      ensures BlockCell((c.0 * blockSize, c.1 * blockSize), blockSize) == c
      ensures c.0 * blockSize >= 0 && c.1 * blockSize >= 0
    {
      CornerCell(blockSize, c.0);
      CornerCell(blockSize, c.1);
    }
    forall c | c in d
      ensures c in BlockCells(Corners(d, blockSize, 0, gh), blockSize, gw, gh)
    {
      assert Before(c, 0, gh);
      assert (c.0 * blockSize, c.1 * blockSize) in Corners(d, blockSize, 0, gh);
    }
  }

  lemma DirtyInGrid(cur: seq<byte>, prev: seq<byte>, w: nat, h: nat, blockSize: nat)
    requires |cur| == h * (w * 4) && |prev| == |cur| && blockSize > 0
    ensures forall c :: c in DirtyCells(cur, prev, w, h, blockSize) ==>
            InGrid(Cells(w, blockSize), Cells(h, blockSize), c)
  {
  }

  /** Compares the frames block by block. */
  method DirtyBlocks(pix: array<byte>, prevPix: array<byte>, blockSize: nat, w: nat, h: nat)
      returns (blocks: set<Block>)
    requires pix.Length == h * (w * 4) && prevPix.Length == pix.Length && blockSize > 0
    ensures blocks == Corners(DirtyCells(pix[..], prevPix[..], w, h, blockSize), blockSize, 0, Cells(h, blockSize))
  {
    blocks := {};
    ghost var d, gw, gh := DirtyCells(pix[..], prevPix[..], w, h, blockSize), Cells(w, blockSize), Cells(h, blockSize);
    DirtyInGrid(pix[..], prevPix[..], w, h, blockSize);
    ghost var cy := 0;
    var gy := 0;
    while gy < h
      invariant 0 <= cy && gy == cy * blockSize && cy <= gh
      invariant blocks == Corners(d, blockSize, 0, cy)
      decreases gh - cy
    {
      CellStarts(h, blockSize, cy);
      blocks := DirtyRow(pix, prevPix, blockSize, w, h, gy, blocks, cy);
      CornersRow(d, blockSize, gw, gh, cy);
      cy := cy + 1;
      gy := gy + blockSize;
    }
    CellStarts(h, blockSize, cy);
  }

  method DirtyRow(pix: array<byte>, prevPix: array<byte>, blockSize: nat, w: nat, h: nat, gy: nat, above: set<Block>,
                  ghost cy: nat)
    returns (blocks: set<Block>)
    requires pix.Length == h * (w * 4) && prevPix.Length == pix.Length && blockSize > 0
    requires gy < h && gy == cy * blockSize
    requires above == Corners(DirtyCells(pix[..], prevPix[..], w, h, blockSize), blockSize, 0, cy)
    ensures blocks == Corners(DirtyCells(pix[..], prevPix[..], w, h, blockSize), blockSize, Cells(w, blockSize), cy)
  {
    blocks := above;
    ghost var d, gw := DirtyCells(pix[..], prevPix[..], w, h, blockSize), Cells(w, blockSize);
    ghost var cx := 0;
    var gx := 0;
    CellStarts(h, blockSize, cy);
    while gx < w
      invariant 0 <= cx && gx == cx * blockSize && cx <= gw
      invariant blocks == Corners(d, blockSize, cx, cy)
      decreases gw - cx
    {
      CellStarts(w, blockSize, cx);
      BlockIsCell(pix[..], prevPix[..], w, h, blockSize, cx, cy);
      CornersNext(d, blockSize, cx, cy);
      var same := BlockEquals(pix, prevPix, gx, gy, blockSize, w, h);
      if !same {
        blocks := blocks + {(gx, gy)};
      }
      cx := cx + 1;
      gx := gx + blockSize;
    }
    CellStarts(w, blockSize, cx);
  }

  // ---- What the rectangles mean ----

  /** The rectangles are those of the dirty cells' components. */
  ghost predicate Exact(cur: seq<byte>, prev: seq<byte>, w: nat, h: nat, blockSize: nat,
                        rects: seq<Rect>, comps: seq<set<Cell>>, boxes: seq<Box>)
    requires |cur| == h * (w * 4) && |prev| == |cur| && blockSize > 0
  {
    var d := DirtyCells(cur, prev, w, h, blockSize);
    && Found(d, d, comps, boxes) && |rects| == |boxes|
    && (forall i :: 0 <= i < |rects| ==> rects[i] == Clamp(RawRect(boxes[i], blockSize), w, h))
  }

  lemma BoxInGrid(d: set<Cell>, gw: nat, gh: nat, c: set<Cell>, b: Box)
    requires Boxed(d, c, b) && forall x :: x in d ==> InGrid(gw, gh, x)
    ensures 0 <= b.minX <= b.maxX < gw && 0 <= b.minY <= b.maxY < gh
  {
    assert c <= d;
  }

  /** Every returned rectangle is non-empty and inside the frame. */
  lemma RectsInFrame(cur: seq<byte>, prev: seq<byte>, w: nat, h: nat, blockSize: nat,
                     rects: seq<Rect>, comps: seq<set<Cell>>, boxes: seq<Box>, i: nat)
    requires |cur| == h * (w * 4) && |prev| == |cur| && blockSize > 0
    requires Exact(cur, prev, w, h, blockSize, rects, comps, boxes) && i < |rects|
    ensures 0 <= rects[i].x && 0 <= rects[i].y && 0 < rects[i].w && 0 < rects[i].h
    ensures rects[i].x + rects[i].w <= w && rects[i].y + rects[i].h <= h
  {
    var d := DirtyCells(cur, prev, w, h, blockSize);
    assert Boxed(d, comps[i], boxes[i]);
    BoxInGrid(d, Cells(w, blockSize), Cells(h, blockSize), comps[i], boxes[i]);
    ClampedInFrame(boxes[i], blockSize, w, h);
  }

  /** Every differing pixel lies in one of the rectangles. */
  lemma DifferenceCovered(cur: seq<byte>, prev: seq<byte>, w: nat, h: nat, blockSize: nat,
                          rects: seq<Rect>, comps: seq<set<Cell>>, boxes: seq<Box>, x: nat, y: nat) returns (i: nat)
    requires |cur| == h * (w * 4) && |prev| == |cur| && blockSize > 0
    requires Exact(cur, prev, w, h, blockSize, rects, comps, boxes)
    requires x < w && y < h && Differs(cur, prev, w, h, x, y)
    ensures i < |rects| && Inside(rects[i], x, y)
  {
    var d, c := DirtyCells(cur, prev, w, h, blockSize), (x / blockSize, y / blockSize);
    PixelInGrid(blockSize, w, x);
    PixelInGrid(blockSize, h, y);
    assert DiffersIn(cur, prev, w, h, blockSize, c, x, y);
    assert c in d;
    i :| 0 <= i < |comps| && c in comps[i];
    assert Boxed(d, comps[i], boxes[i]);
    BoxInGrid(d, Cells(w, blockSize), Cells(h, blockSize), comps[i], boxes[i]);
    ClampedCovers(boxes[i], blockSize, w, h, x, y);
  }

  /** No rectangle is returned without a differing pixel inside it. */
  lemma RectHasDifference(cur: seq<byte>, prev: seq<byte>, w: nat, h: nat, blockSize: nat,
                          rects: seq<Rect>, comps: seq<set<Cell>>, boxes: seq<Box>, i: nat) returns (x: nat, y: nat)
    requires |cur| == h * (w * 4) && |prev| == |cur| && blockSize > 0
    requires Exact(cur, prev, w, h, blockSize, rects, comps, boxes) && i < |rects|
    ensures x < w && y < h && Differs(cur, prev, w, h, x, y) && Inside(rects[i], x, y)
  {
    var d := DirtyCells(cur, prev, w, h, blockSize);
    assert Boxed(d, comps[i], boxes[i]);
    BoxInGrid(d, Cells(w, blockSize), Cells(h, blockSize), comps[i], boxes[i]);
    x, y := DifferenceInBox(cur, prev, w, h, blockSize, comps[i], boxes[i]);
    ClampedCovers(boxes[i], blockSize, w, h, x, y);
  }

  lemma DifferenceInBox(cur: seq<byte>, prev: seq<byte>, w: nat, h: nat, blockSize: nat, c: set<Cell>, b: Box)
    returns (x: nat, y: nat)
    requires |cur| == h * (w * 4) && |prev| == |cur| && blockSize > 0
    requires Boxed(DirtyCells(cur, prev, w, h, blockSize), c, b)
    ensures x < w && y < h && Differs(cur, prev, w, h, x, y) && InBox(b, (x / blockSize, y / blockSize))
  {
    var a :| a in c && a.0 == b.minX;
    assert a in DirtyCells(cur, prev, w, h, blockSize);
    x, y :| DiffersIn(cur, prev, w, h, blockSize, a, x, y);
  }

  /** The dirty rectangles of two frames. Frames of different size make the whole frame dirty. For
      frames of equal size the rectangles are those of the connected components of differing blocks;
      there is none exactly when no pixel differs. */
  method DetectDirtyRects(current: Image?, previous: Image?, size: int)
    returns (rects: seq<Rect>, ghost comps: seq<set<Cell>>, ghost boxes: seq<Box>)
    requires (current != null ==> current.Packed()) && (previous != null ==> previous.Packed())
    ensures current == null || previous == null ==> rects == []
    ensures current != null && previous != null && !SameBounds(current, previous) ==>
              rects == [Rect(0, 0, current.w, current.h)]
    ensures current != null && previous != null && SameBounds(current, previous) ==>
              var blockSize := if size <= 0 then 8 else size;
              current.pix.Length == previous.pix.Length
              && Exact(current.pix[..], previous.pix[..], current.w, current.h, blockSize, rects, comps, boxes)
              && (rects == [] <==> forall x: nat, y: nat :: x < current.w && y < current.h ==>
                                     !Differs(current.pix[..], previous.pix[..], current.w, current.h, x, y))
  {
    rects, comps, boxes := [], [], [];
    if current == null || previous == null {
      return;
    }
    if !SameBounds(current, previous) {
      return [Rect(0, 0, current.w, current.h)], [], [];
    }
    var blockSize := if size <= 0 then 8 else size;
    var w, h := current.w, current.h;
    assert w == 0 || h == 0 ==> h * (w * 4) == 0;
    assert previous.w == 0 || previous.h == 0 ==> previous.h * (previous.w * 4) == 0;
    var dirty := DirtyBlocks(current.pix, previous.pix, blockSize, w, h);
    ghost var cur, prev := current.pix[..], previous.pix[..];
    DirtyInGrid(cur, prev, w, h, blockSize);
    CornersBack(DirtyCells(cur, prev, w, h, blockSize), blockSize, Cells(w, blockSize), Cells(h, blockSize));
    if dirty != {} {
      rects, comps, boxes := MergeBlocksToRects(dirty, blockSize, w, h);
    }
    EmptyIff(cur, prev, w, h, blockSize, rects, comps, boxes);
  }

  lemma EmptyIff(cur: seq<byte>, prev: seq<byte>, w: nat, h: nat, blockSize: nat,
                 rects: seq<Rect>, comps: seq<set<Cell>>, boxes: seq<Box>)
    requires |cur| == h * (w * 4) && |prev| == |cur| && blockSize > 0
    requires Exact(cur, prev, w, h, blockSize, rects, comps, boxes)
    ensures rects == [] <==> forall x: nat, y: nat :: x < w && y < h ==> !Differs(cur, prev, w, h, x, y)
    ensures rects == [] <==> forall k: nat :: k < |cur| && k % 4 != 3 ==> -10 <= cur[k] as int - prev[k] as int <= 10
  {
    NoneDiffersRaw(cur, prev, w, h);
    assert forall k: nat :: k < |cur| ==> (RawFar(cur, prev, k) <==> !(-10 <= cur[k] as int - prev[k] as int <= 10));
    if rects != [] {
      var x, y := RectHasDifference(cur, prev, w, h, blockSize, rects, comps, boxes, 0);
    }
    forall x: nat, y: nat | x < w && y < h && Differs(cur, prev, w, h, x, y)
      ensures rects != []
    {
      var i := DifferenceCovered(cur, prev, w, h, blockSize, rects, comps, boxes, x, y);
    }
  }

  // ---- Cutting out a rectangle ----

  /** The rectangle SubImage works with: a corner left of or above the frame moves onto its edge without
      shrinking the rectangle, which is then cut at the right and at the bottom. */
  function Cut(r: Rect, w: nat, h: nat): Rect {
    var x, y := Max(r.x, 0), Max(r.y, 0);
    Rect(x, y, Min(r.w, w - x), Min(r.h, h - y))
  }

  predicate InFrame(x: int, y: int, w: nat, h: nat) {
    0 <= x < w && 0 <= y < h
  }

  /** Nothing is left of the rectangle, or no corner is moved, or it reaches past the opposite edge. */
  predicate CutsClean(r: Rect, w: nat, h: nat) {
    || w == 0 || h == 0 || r.w <= 0 || r.h <= 0 || r.x >= w || r.y >= h
    || ((r.x >= 0 || r.x + r.w >= w) && (r.y >= 0 || r.y + r.h >= h))
  }

  /** What is cut out is the rectangle's part inside the frame exactly when that is so. A rectangle left of
      or above the frame, which has no such part, is therefore not cut clean: it yields pixels at the edge. */
  lemma CutIsIntersectionIff(r: Rect, w: nat, h: nat)
    ensures (forall x, y :: Inside(Cut(r, w, h), x, y) <==> Inside(r, x, y) && InFrame(x, y, w, h))
            <==> CutsClean(r, w, h)
  {
    var c := Cut(r, w, h);
    if !CutsClean(r, w, h) {
      if r.x < 0 && r.x + r.w < w {
        assert Inside(c, Max(r.x + r.w, 0), c.y) && !Inside(r, Max(r.x + r.w, 0), c.y);
      } else {
        assert Inside(c, c.x, Max(r.y + r.h, 0)) && !Inside(r, c.x, Max(r.y + r.h, 0));
      }
    }
  }

  /** Go's copy between two slices: as much as both hold. */
  method CopyInto(dst: array<byte>, to: nat, src: array<byte>, from: nat)
    requires dst != src && to <= dst.Length && from <= src.Length
    modifies dst
    ensures var n := Min(dst.Length - to, src.Length - from);
            dst[..] == old(dst[..to]) + src[from..from + n] + old(dst[to + n..])
  {
    var n := Min(dst.Length - to, src.Length - from);
    var i := 0;
    while i < n
      invariant 0 <= i <= n
      invariant dst[..to] == old(dst[..to]) && dst[to..to + i] == src[from..from + i]
      invariant dst[to + i..] == old(dst[to + i..])
    {
      assert dst[to + i..][1..] == dst[to + i + 1..];
      dst[to + i] := src[from + i];
      assert dst[to..to + i + 1] == dst[to..to + i] + [dst[to + i]];
      i := i + 1;
    }
    assert dst[..] == dst[..to] + dst[to..to + n] + dst[to + n..];
  }

  function Row(v: nat, stride: nat): nat {
    v * stride
  }

  /** Row v of the cut-out holds its row of the source. */
  predicate RowDone(dst: seq<byte>, src: seq<byte>, dstStride: nat, srcStride: nat, x: nat, y: nat, v: nat) {
    var to, from := Row(v, dstStride), Row(y + v, srcStride) + x * 4;
    to + dstStride <= |dst| && from + dstStride <= |src| && dst[to..to + dstStride] == src[from..from + dstStride]
  }

  lemma RowsAscend(u: nat, v: nat, stride: nat)
    requires u < v
    ensures Row(u, stride) + stride <= Row(v, stride)
  {
    assert (u + 1) * stride <= v * stride;
  }

  lemma RowStays(old': seq<byte>, dst: seq<byte>, src: seq<byte>, dstStride: nat, srcStride: nat, x: nat, y: nat,
                 u: nat, to: nat)
    requires RowDone(old', src, dstStride, srcStride, x, y, u) && Row(u, dstStride) + dstStride <= to <= |old'|
    requires |dst| == |old'| && dst[..to] == old'[..to]
    ensures RowDone(dst, src, dstStride, srcStride, x, y, u)
  {
    var from := Row(u, dstStride);
    assert dst[from..from + dstStride] == dst[..to][from..from + dstStride];
    assert old'[from..from + dstStride] == old'[..to][from..from + dstStride];
  }

  /** Cuts a rectangle out of a frame. Every row's copy runs on into the rows below it; the rows below
      are copied later, so in the end each row holds its own pixels. */
  method SubImage(src: Image, r: Rect) returns (dst: Image?)
    requires src.Packed()
    ensures var c := Cut(r, src.w, src.h);
            if c.w <= 0 || c.h <= 0 then dst == null
            else dst != null && fresh(dst) && fresh(dst.pix) && dst.Packed() && dst.w == c.w && dst.h == c.h
                 && forall x: nat, y: nat :: x < c.w && y < c.h ==>
                      SamePixel(dst.pix[..], dst.w, dst.h, x, y, src.pix[..], src.w, src.h, c.x, c.y)
  {
    var x, y := if r.x < 0 then 0 else r.x, if r.y < 0 then 0 else r.y;
    var w, h := r.w, r.h;
    if x + w > src.w {
      w := src.w - x;
    }
    if y + h > src.h {
      h := src.h - y;
    }
    if w <= 0 || h <= 0 {
      return null;
    }
    var pix := new byte[h * (w * 4)](_ => 0);
    CopyRows(pix, src.pix, x, y, w, h, src.w, src.h);
    dst := new Image(0, 0, w, h, pix);
    forall u: nat, v: nat | u < w && v < h
      ensures SamePixel(pix[..], w, h, u, v, src.pix[..], src.w, src.h, x, y)
    {
      PixelOfRow(pix[..], src.pix[..], x, y, w, h, src.w, src.h, u, v);
    }
  }

  /** The four bytes of pixel (x, y) of one frame are those of the pixel of another as far right of and
      below (left, top). */
  predicate SamePixel(a: seq<byte>, w: nat, h: nat, x: nat, y: nat, b: seq<byte>, w': nat, h': nat, left: nat, top: nat)
    requires |a| == h * (w * 4) && |b| == h' * (w' * 4) && x < w && y < h
  {
    && left + x < w' && top + y < h'
    && var i, j := At(w, h, x, y), At(w', h', left + x, top + y);
       a[i..i + 4] == b[j..j + 4]
  }

  lemma PixelOfRow(dst: seq<byte>, src: seq<byte>, x: nat, y: nat, w: nat, h: nat, srcW: nat, srcH: nat, u: nat, v: nat)
    requires |dst| == h * (w * 4) && |src| == srcH * (srcW * 4) && u < w && v < h && x + w <= srcW && y + h <= srcH
    requires RowDone(dst, src, w * 4, srcW * 4, x, y, v)
    ensures SamePixel(dst, w, h, u, v, src, srcW, srcH, x, y)
  {
    var to, from, p := Row(v, w * 4), Row(y + v, srcW * 4) + x * 4, u * 4;
    assert At(w, h, u, v) == to + p && At(srcW, srcH, x + u, y + v) == from + p;
    SliceOfSlice(dst, to, w * 4, p);
    SliceOfSlice(src, from, w * 4, p);
  }

  lemma SliceOfSlice(s: seq<byte>, from: nat, len: nat, p: nat)
    requires from + len <= |s| && p + 4 <= len
    ensures s[from + p..from + p + 4] == s[from..from + len][p..p + 4]
  {
    var part := s[from..from + len];
    assert part[p] == s[from + p] && part[p + 1] == s[from + p + 1];
    assert part[p + 2] == s[from + p + 2] && part[p + 3] == s[from + p + 3];
  }

  method CopyRows(pix: array<byte>, src: array<byte>, x: nat, y: nat, w: nat, h: nat, srcW: nat, srcH: nat)
    requires pix != src && pix.Length == Row(h, w * 4) && src.Length == Row(srcH, srcW * 4)
    requires 0 < w && x + w <= srcW && y + h <= srcH
    modifies pix
    ensures forall v: nat | v < h :: RowDone(pix[..], src[..], w * 4, srcW * 4, x, y, v)
  {
    var srcStride := srcW * 4;
    var dstStride := w * 4;
    var v := 0;
    while v < h
      invariant 0 <= v <= h
      invariant forall u: nat | u < v :: RowDone(pix[..], src[..], dstStride, srcStride, x, y, u)
    {
      RowsAscend(v, h, dstStride);
      RowsAscend(y + v, srcH, srcStride);
      var to, from := v * dstStride, (y + v) * srcStride + x * 4;
      assert to == Row(v, dstStride) && from == Row(y + v, srcStride) + x * 4;
      ghost var before := pix[..];
      CopyInto(pix, to, src, from);
      CopiedRow(before, pix[..], src[..], dstStride, srcStride, x, y, v);
      v := v + 1;
    }
  }

  /** The row just copied is done, and the rows above it stay done. */
  lemma CopiedRow(before: seq<byte>, dst: seq<byte>, src: seq<byte>, dstStride: nat, srcStride: nat, x: nat, y: nat,
                  v: nat)
    requires var to, from := Row(v, dstStride), Row(y + v, srcStride) + x * 4;
             && to + dstStride <= |before| && from + dstStride <= |src|
             && var n := Min(|before| - to, |src| - from);
                dst == before[..to] + src[from..from + n] + before[to + n..]
    requires forall u: nat | u < v :: RowDone(before, src, dstStride, srcStride, x, y, u)
    ensures forall u: nat | u <= v :: RowDone(dst, src, dstStride, srcStride, x, y, u)
  {
    var to, from := Row(v, dstStride), Row(y + v, srcStride) + x * 4;
    CopiedSlices(before, dst, src, to, from, dstStride);
    forall u: nat | u < v
      ensures RowDone(dst, src, dstStride, srcStride, x, y, u)
    {
      RowsAscend(u, v, dstStride);
      RowStays(before, dst, src, dstStride, srcStride, x, y, u, to);
    }
  }

  lemma CopiedSlices(before: seq<byte>, dst: seq<byte>, src: seq<byte>, to: nat, from: nat, len: nat)
    requires to + len <= |before| && from + len <= |src|
    requires var n := Min(|before| - to, |src| - from);
             dst == before[..to] + src[from..from + n] + before[to + n..]
    ensures |dst| == |before| && dst[to..to + len] == src[from..from + len] && dst[..to] == before[..to]
  {
    var n := Min(|before| - to, |src| - from);
    Middle(before[..to], src[from..from + n], before[to + n..], len);
    assert src[from..from + n][..len] == src[from..from + len];
  }

  lemma Middle(a: seq<byte>, b: seq<byte>, c: seq<byte>, len: nat)
    requires len <= |b|
    ensures var s := a + b + c; |s| == |a| + |b| + |c| && s[..|a|] == a && s[|a|..|a| + len] == b[..len]
  {
  }
}
