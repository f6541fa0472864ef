/** Dirty-rectangle detection: which parts of a frame changed. */
module DirtyRects {
  import opened Bytes
  import opened Grid

  datatype Rect = Rect(x: int, y: int, w: int, h: int)

  predicate Inside(r: Rect, x: int, y: int) {
    r.x <= x < r.x + r.w && r.y <= y < r.y + r.h
  }

  /** A packed frame: four bytes a pixel, rows end to end. */
  class Image {
    const minX: int
    const minY: int
    const w: nat
    const h: nat
    const pix: array<byte>

    constructor (minX: int, minY: int, w: nat, h: nat, pix: array<byte>)
      ensures this.minX == minX && this.minY == minY && this.w == w && this.h == h && this.pix == pix
    {
      this.minX, this.minY, this.w, this.h, this.pix := minX, minY, w, h, pix;
    }

    predicate Packed() {
      pix.Length == h * (w * 4)
    }
  }

  /** Two rectangles of bounds are equal when they cover the same pixels: empty ones always are. */
  predicate SameBounds(a: Image, b: Image) {
    || (a.minX == b.minX && a.minY == b.minY && a.w == b.w && a.h == b.h)
    || ((a.w == 0 || a.h == 0) && (b.w == 0 || b.h == 0))
  }

  function At(w: nat, h: nat, x: nat, y: nat): (o: nat)
    requires x < w && y < h
    ensures o + 3 < h * (w * 4)
  {
    assert (y + 1) * (w * 4) <= h * (w * 4);
    y * (w * 4) + x * 4
  }

  predicate Far(a: byte, b: byte) {
    a - b < -10 || a - b > 10
  }

  /** Red, green or blue of the pixel differ by more than the threshold. */
  predicate Differs(cur: seq<byte>, prev: seq<byte>, w: nat, h: nat, x: nat, y: nat)
    requires |cur| == h * (w * 4) && |prev| == |cur| && x < w && y < h
  {
    var o := At(w, h, x, y);
    Far(cur[o], prev[o]) || Far(cur[o + 1], prev[o + 1]) || Far(cur[o + 2], prev[o + 2])
  }

  /** On the raw bytes: a pixel differs exactly when its first, second or third byte does by more than ten. */
  lemma DiffersRaw(cur: seq<byte>, prev: seq<byte>, w: nat, h: nat, x: nat, y: nat)
    requires |cur| == h * (w * 4) && |prev| == |cur| && x < w && y < h
    ensures 4 * (y * w + x) + 3 < |cur|
    ensures Differs(cur, prev, w, h, x, y) <==>
            var o := 4 * (y * w + x); RawFar(cur, prev, o) || RawFar(cur, prev, o + 1) || RawFar(cur, prev, o + 2)
  {
    assert At(w, h, x, y) == 4 * (y * w + x) by { Times4(y, w, x); }
  }

  lemma Times4(y: nat, w: nat, x: nat)
    ensures y * (w * 4) + x * 4 == 4 * (y * w + x)
  {
    assert y * (w * 4) == (y * w) * 4;
  }

  predicate RawFar(cur: seq<byte>, prev: seq<byte>, k: nat)
    requires k < |cur| == |prev|
  {
    cur[k] as int - prev[k] as int > 10 || prev[k] as int - cur[k] as int > 10
  }

  /** No pixel differs exactly when no byte but the fourth of each pixel differs by more than ten. */
  lemma NoneDiffersRaw(cur: seq<byte>, prev: seq<byte>, w: nat, h: nat)
    requires |cur| == h * (w * 4) && |prev| == |cur|
    ensures (forall x: nat, y: nat :: x < w && y < h ==> !Differs(cur, prev, w, h, x, y)) <==>
            (forall k: nat :: k < |cur| && k % 4 != 3 ==> !RawFar(cur, prev, k))
  {
    if forall x: nat, y: nat :: x < w && y < h ==> !Differs(cur, prev, w, h, x, y) {
      forall k: nat | k < |cur| && k % 4 != 3
        ensures !RawFar(cur, prev, k)
      {
        var x, y := PixelOf(k, w, h);
        DiffersRaw(cur, prev, w, h, x, y);
        assert k == 4 * (y * w + x) + k % 4;
      }
    }
    if forall k: nat :: k < |cur| && k % 4 != 3 ==> !RawFar(cur, prev, k) {
      forall x: nat, y: nat | x < w && y < h
        ensures !Differs(cur, prev, w, h, x, y)
      {
        DiffersRaw(cur, prev, w, h, x, y);
        var o := 4 * (y * w + x);
        assert o % 4 == 0 && (o + 1) % 4 == 1 && (o + 2) % 4 == 2;
      }
    }
  }

  lemma RowsBefore(a: nat, b: nat, w: nat)
    requires a <= b
    ensures a * w <= b * w
  {
  }

  /** The pixel to which a byte belongs. */
  lemma PixelOf(k: nat, w: nat, h: nat) returns (x: nat, y: nat)
    requires k < h * (w * 4)
    ensures x < w && y < h && k / 4 == y * w + x
  {
    assert w > 0;
    var p := k / 4;
    assert h * (w * 4) == (h * w) * 4;
    x, y := p % w, p / w;
    assert p == y * w + x && p < h * w;
    RowsBefore(h, Max(h, y), w);
  }

  /** Compares the block whose corner is (x0, y0); blocks at the edge are cut to the frame. */
  method BlockEquals(pix: array<byte>, prevPix: array<byte>, x0: nat, y0: nat, blockSize: nat, w: nat, h: nat)
    returns (same: bool)
    requires pix.Length == h * (w * 4) && prevPix.Length == pix.Length
    requires x0 < w && y0 < h
    ensures same <==> forall x: nat, y: nat ::
              x0 <= x < Min(x0 + blockSize, w) && y0 <= y < Min(y0 + blockSize, h) ==>
                !Differs(pix[..], prevPix[..], w, h, x, y)
  {
    var endX, endY := Min(x0 + blockSize, w), Min(y0 + blockSize, h);
    var stride := w * 4;
    var y := y0;
    while y < endY
      invariant y0 <= y && (y <= endY || y == y0)
      invariant forall x: nat, v: nat :: x0 <= x < endX && y0 <= v < y ==> !Differs(pix[..], prevPix[..], w, h, x, v)
    {
      var offset := y * stride + x0 * 4;
      var x := x0;
      while x < endX
        invariant x0 <= x && (x <= endX || x == x0) && offset == y * stride + x * 4
        invariant forall u: nat :: x0 <= u < x ==> !Differs(pix[..], prevPix[..], w, h, u, y)
      {
        assert offset == At(w, h, x, y);
        var dr: int := pix[offset] as int - prevPix[offset] as int;
        var dg: int := pix[offset + 1] as int - prevPix[offset + 1] as int;
        var db: int := pix[offset + 2] as int - prevPix[offset + 2] as int;
        if dr < -10 || dr > 10 || dg < -10 || dg > 10 || db < -10 || db > 10 {
          assert Differs(pix[..], prevPix[..], w, h, x, y);
          return false;
        }
        offset := offset + 4;
        x := x + 1;
      }
      y := y + 1;
    }
    return true;
  }

  // ---- From blocks to grid cells ----

  function Cells(size: nat, blockSize: nat): nat
    requires blockSize > 0
  {
    (size + blockSize - 1) / blockSize
  }

  lemma CellStarts(size: nat, blockSize: nat, c: nat)
    requires blockSize > 0
    ensures c * blockSize < size <==> c < Cells(size, blockSize)
  {
    var n := Cells(size, blockSize);
    assert n * blockSize <= size + blockSize - 1 < (n + 1) * blockSize;
    if c < n {
      assert (c + 1) * blockSize <= n * blockSize;
    } else {
      assert n * blockSize <= c * blockSize;
    }
  }

  lemma CellOf(blockSize: nat, x: nat)
    requires blockSize > 0
    ensures x / blockSize * blockSize <= x < (x / blockSize + 1) * blockSize
  {
  }

  lemma CornerCell(blockSize: nat, c: nat)
    requires blockSize > 0
    ensures c * blockSize / blockSize == c
  {
    CellOf(blockSize, c * blockSize);
  }

  /** The pixel at the corner of a block. */
  type Block = (int, int)

  function BlockCell(b: Block, blockSize: nat): Cell
    requires blockSize > 0
  {
    (b.0 / blockSize, b.1 / blockSize)
  }

  /** The grid cells of the blocks that lie in the grid. */
  function BlockCells(blocks: set<Block>, blockSize: nat, gw: nat, gh: nat): set<Cell>
    requires blockSize > 0
  {
    set b | b in blocks && InGrid(gw, gh, BlockCell(b, blockSize)) :: BlockCell(b, blockSize)
  }

  lemma BlockCellsAdd(blocks: set<Block>, b: Block, blockSize: nat, gw: nat, gh: nat)
    requires blockSize > 0
    ensures var c := BlockCell(b, blockSize);
            BlockCells(blocks + {b}, blockSize, gw, gh)
            == BlockCells(blocks, blockSize, gw, gh) + (if InGrid(gw, gh, c) then {c} else {})
  {
  }

  method BuildGrid(blocks: set<Block>, blockSize: nat, gw: nat, gh: nat) returns (grid: array<bool>)
    requires blockSize > 0 && forall b :: b in blocks ==> b.0 >= 0 && b.1 >= 0
    ensures fresh(grid) && Shows(grid[..], gw, gh, BlockCells(blocks, blockSize, gw, gh))
  {
    grid := new bool[gw * gh](_ => false);
    var left := blocks;
    while left != {}
      invariant left <= blocks
      invariant fresh(grid) && Shows(grid[..], gw, gh, BlockCells(blocks - left, blockSize, gw, gh))
    {
      var b :| b in left;
      var gx := b.0 / blockSize;
      var gy := b.1 / blockSize;
      ghost var was := BlockCells(blocks - left, blockSize, gw, gh);
      assert blocks - (left - {b}) == (blocks - left) + {b};
      BlockCellsAdd(blocks - left, b, blockSize, gw, gh);
      if gx < gw && gy < gh {
        Mark(grid, gw, gh, (gx, gy), was);
      }
      left := left - {b};
    }
    assert blocks - left == blocks;
  }

  // ---- Components ----

  /** Cells of one component found so far, none of them in an earlier one. */
  ghost predicate Reached(d: set<Cell>, v: set<Cell>, start: Cell, c: set<Cell>) {
    start in c && c <= d && c !! v && forall a :: a in c ==> Linked(d, start, a)
  }

  function Elements(s: seq<Cell>): set<Cell> {
    set q | q in s
  }

  lemma ElementsAdd(s: seq<Cell>, n: Cell)
    ensures Elements(s + [n]) == Elements(s) + {n}
  {
  }

  /** The state of the walk: what is reached is what has been dealt with and what is queued, and the
      arrays show the dirty and the visited cells. */
  ghost predicate Walk(g: seq<bool>, seen: seq<bool>, gw: nat, gh: nat, d: set<Cell>, v: set<Cell>,
                       start: Cell, c: set<Cell>, done: set<Cell>, queue: seq<Cell>) {
    && Shows(g, gw, gh, d) && Shows(seen, gw, gh, v + c)
    && v <= d && Closed(d, v) && Reached(d, v, start, c)
    && c == done + Elements(queue)
  }

  /** Queues one neighbour if it is dirty and not visited yet. */
  method Visit(grid: array<bool>, visited: array<bool>, gw: nat, gh: nat, curr: Cell, n: Cell, queue: seq<Cell>,
               ghost d: set<Cell>, ghost v: set<Cell>, ghost start: Cell, ghost c: set<Cell>, ghost done: set<Cell>)
    returns (queue': seq<Cell>, ghost c': set<Cell>)
    requires grid != visited && Walk(grid[..], visited[..], gw, gh, d, v, start, c, done, queue)
    requires curr in c && Adjacent(curr, n)
    modifies visited
    ensures Walk(grid[..], visited[..], gw, gh, d, v, start, c', done, queue')
    ensures c <= c' && (c' == c ==> queue' == queue) && (n in d ==> n in c')
  {
    queue', c' := queue, c;
    ghost var g := grid[..];
    if 0 <= n.0 < gw && 0 <= n.1 < gh {
      assert Index(gw, gh, n) == n.1 * gw + n.0;
      if grid[n.1 * gw + n.0] && !visited[n.1 * gw + n.0] {
        queue', c' := queue + [n], c + {n};
        Mark(visited, gw, gh, n, v + c);
        assert grid[..] == g;
        VisitNew(g, visited[..], gw, gh, d, v, start, c, done, queue, curr, n);
      } else if n in d && n in v {
        assert Adjacent(n, curr);
      }
    }
  }

  lemma VisitNew(g: seq<bool>, seen: seq<bool>, gw: nat, gh: nat, d: set<Cell>, v: set<Cell>,
                 start: Cell, c: set<Cell>, done: set<Cell>, queue: seq<Cell>, curr: Cell, n: Cell)
    requires Shows(g, gw, gh, d) && Shows(seen, gw, gh, v + c + {n})
    requires v <= d && Closed(d, v) && Reached(d, v, start, c) && c == done + Elements(queue)
    requires curr in c && Adjacent(curr, n) && n in d && n !in v
    ensures Walk(g, seen, gw, gh, d, v, start, c + {n}, done, queue + [n])
  {
    assert (v + c) + {n} == v + (c + {n});
    LinkedStep(d, start, curr, n);
    ElementsAdd(queue, n);
  }

  /** Visits the four neighbours of a cell. */
  method Expand(grid: array<bool>, visited: array<bool>, gw: nat, gh: nat, curr: Cell, queue: seq<Cell>,
                ghost d: set<Cell>, ghost v: set<Cell>, ghost start: Cell, ghost c: set<Cell>, ghost done: set<Cell>)
    returns (queue': seq<Cell>, ghost c': set<Cell>)
    requires grid != visited && Walk(grid[..], visited[..], gw, gh, d, v, start, c, done, queue) && curr in c
    modifies visited
    ensures Walk(grid[..], visited[..], gw, gh, d, v, start, c', done, queue')
    ensures c <= c' && (c' == c ==> queue' == queue)
    ensures forall b :: b in d && Adjacent(curr, b) ==> b in c'
  {
    queue', c' := queue, c;
    var i := 0;
    while i < |DIRS|
      invariant 0 <= i <= |DIRS|
      invariant Walk(grid[..], visited[..], gw, gh, d, v, start, c', done, queue')
      invariant c <= c' && (c' == c ==> queue' == queue)
      invariant forall j :: 0 <= j < i ==> Neighbour(curr, j) in d ==> Neighbour(curr, j) in c'
    {
      queue', c' := Visit(grid, visited, gw, gh, curr, Neighbour(curr, i), queue', d, v, start, c', done);
      i := i + 1;
    }
    NeighboursAreAll(d, c', curr);
  }

  /** All dirty neighbours of the cells dealt with are reached. */
  ghost predicate Surrounded(d: set<Cell>, done: set<Cell>, c: set<Cell>) {
    forall a, b :: a in done && b in d && Adjacent(a, b) ==> b in c
  }

  /** Walks the component of a dirty, unvisited cell breadth first and marks it visited. */
  method Flood(grid: array<bool>, visited: array<bool>, gw: nat, gh: nat, gx: nat, gy: nat, ghost d: set<Cell>,
               ghost v: set<Cell>)
    returns (box: Box, ghost c: set<Cell>)
    requires grid != visited && Shows(grid[..], gw, gh, d) && Shows(visited[..], gw, gh, v)
    requires v <= d && Closed(d, v) && (gx, gy) in d && (gx, gy) !in v
    modifies visited
    ensures c == Component(d, (gx, gy)) && c !! v && c <= d && Closed(d, v + c)
    ensures Shows(visited[..], gw, gh, v + c)
    ensures Tight(c, box)
  {
    ghost var start := (gx, gy);
    c := {start};
    ghost var done: set<Cell> := {};
    box := Box(gx, gy, gx, gy);
    var queue: seq<Cell> := [(gx, gy)];
    ghost var order: seq<Cell> := [];
    ghost var g := grid[..];
    Mark(visited, gw, gh, (gx, gy), v);
    assert grid[..] == g;
    WalkStart(g, visited[..], gw, gh, d, v, start);
    while queue != []
      invariant Walk(grid[..], visited[..], gw, gh, d, v, start, c, done, queue)
      invariant Surrounded(d, done, c)
      invariant done == Elements(order) && box == BoxOf(start, order)
      decreases d - c, |queue|
    {
      var curr := queue[0];
      ghost var c0, done0 := c, done;
      Popped(g, visited[..], gw, gh, d, v, start, c, done, queue);
      ElementsAdd(order, curr);
      assert (order + [curr])[..|order|] == order;
      order := order + [curr];
      queue := queue[1..];
      box := Box(Min(box.minX, curr.0), Min(box.minY, curr.1), Max(box.maxX, curr.0), Max(box.maxY, curr.1));
      done := done + {curr};
      assert grid[..] == g;
      queue, c := Expand(grid, visited, gw, gh, curr, queue, d, v, start, c, done);
      Progress(d, c0, c);
      SurroundedAdd(d, done0, c0, curr, c);
    }
    WalkEnd(grid[..], visited[..], gw, gh, d, v, start, c, done, queue);
    BoxOfTight(start, order);
  }

  /** The box of a cell, stretched over further cells. */
  function BoxOf(start: Cell, order: seq<Cell>): Box {
    if order == [] then Box(start.0, start.1, start.0, start.1)
    else Stretched(BoxOf(start, order[..|order| - 1]), order[|order| - 1])
  }

  lemma {:induction false} BoxOfTight(start: Cell, order: seq<Cell>)
    ensures Tight({start} + Elements(order), BoxOf(start, order))
  {
    if order == [] {
      assert start in {start} + Elements(order);
    } else {
      var front, x := order[..|order| - 1], order[|order| - 1];
      assert order == front + [x];
      BoxOfTight(start, front);
      TightAdd({start} + Elements(front), BoxOf(start, front), x);
      ElementsAdd(front, x);
      assert {start} + Elements(order) == ({start} + Elements(front)) + {x};
    }
  }

  lemma WalkStart(g: seq<bool>, seen: seq<bool>, gw: nat, gh: nat, d: set<Cell>, v: set<Cell>, start: Cell)
    requires Shows(g, gw, gh, d) && Shows(seen, gw, gh, v + {start})
    requires v <= d && Closed(d, v) && start in d && start !in v
    ensures Walk(g, seen, gw, gh, d, v, start, {start}, {}, [start])
  {
    LinkedSelf(d, start);
    assert Elements([start]) == {start};
  }

  lemma SurroundedAdd(d: set<Cell>, done: set<Cell>, c: set<Cell>, curr: Cell, c': set<Cell>)
    requires Surrounded(d, done, c) && c <= c' && forall b :: b in d && Adjacent(curr, b) ==> b in c'
    ensures Surrounded(d, done + {curr}, c')
  {
  }

  lemma Popped(g: seq<bool>, seen: seq<bool>, gw: nat, gh: nat, d: set<Cell>, v: set<Cell>,
               start: Cell, c: set<Cell>, done: set<Cell>, queue: seq<Cell>)
    requires queue != [] && Walk(g, seen, gw, gh, d, v, start, c, done, queue)
    ensures Walk(g, seen, gw, gh, d, v, start, c, done + {queue[0]}, queue[1..]) && queue[0] in c
  {
    assert queue == [queue[0]] + queue[1..];
    assert Elements(queue) == {queue[0]} + Elements(queue[1..]);
  }

  lemma WalkEnd(g: seq<bool>, seen: seq<bool>, gw: nat, gh: nat, d: set<Cell>, v: set<Cell>,
                start: Cell, c: set<Cell>, done: set<Cell>, queue: seq<Cell>)
    requires Walk(g, seen, gw, gh, d, v, start, c, done, queue) && Surrounded(d, done, c) && queue == []
    ensures c == Component(d, start) && c !! v && c <= d && Closed(d, v + c) && {start} + done == c
  {
    assert done == c;
    ComponentIs(d, c, start);
  }

  lemma Progress(d: set<Cell>, c: set<Cell>, c': set<Cell>)
    requires c <= c' <= d
    ensures c == c' || d - c' < d - c
  {
    if c != c' {
      var x :| x in c' && x !in c;
      assert x in d - c && x !in d - c';
    }
  }

  function Neighbour(c: Cell, i: nat): (n: Cell)
    requires i < |DIRS|
    ensures Adjacent(c, n)
  {
    (c.0 + DIRS[i].0, c.1 + DIRS[i].1)
  }

  lemma NeighboursAreAll(d: set<Cell>, c: set<Cell>, a: Cell)
    requires forall j :: 0 <= j < |DIRS| ==> Neighbour(a, j) in d ==> Neighbour(a, j) in c
    ensures forall b :: b in d && Adjacent(a, b) ==> b in c
  {
    assert Neighbour(a, 0) == (a.0 - 1, a.1) && Neighbour(a, 1) == (a.0 + 1, a.1);
    assert Neighbour(a, 2) == (a.0, a.1 - 1) && Neighbour(a, 3) == (a.0, a.1 + 1);
  }

  lemma ComponentIs(d: set<Cell>, c: set<Cell>, start: Cell)
    requires start in c && c <= d && Closed(d, c) && forall a :: a in c ==> Linked(d, start, a)
    ensures c == Component(d, start)
  {
    forall b | b in Component(d, start)
      ensures b in c
    {
      ClosedKeepsLinked(d, c, start, b);
    }
  }

  method Mark(a: array<bool>, gw: nat, gh: nat, c: Cell, ghost s: set<Cell>)
    requires InGrid(gw, gh, c) && Shows(a[..], gw, gh, s)
    modifies a
    ensures Shows(a[..], gw, gh, s + {c})
  {
    ShowsAdd(a[..], gw, gh, s, c);
    ghost var before := a[..];
    a[Index(gw, gh, c)] := true;
    assert a[..] == before[Index(gw, gh, c) := true];
  }

  // ---- Rectangles ----

  function RawRect(b: Box, blockSize: nat): Rect {
    Rect(b.minX * blockSize, b.minY * blockSize, (b.maxX - b.minX + 1) * blockSize, (b.maxY - b.minY + 1) * blockSize)
  }

  function Clamp(r: Rect, w: nat, h: nat): Rect {
    var x, y := Min(r.x, w), Min(r.y, h);
    Rect(x, y, Min(r.w, w - x), Min(r.h, h - y))
  }

  /** A component and the smallest box around it. */
  ghost predicate Boxed(d: set<Cell>, c: set<Cell>, b: Box) {
    (exists a :: a in d && c == Component(d, a)) && Tight(c, b)
  }

  /** The sets are disjoint and make up v. */
  ghost predicate Splits(v: set<Cell>, comps: seq<set<Cell>>) {
    && (forall i :: 0 <= i < |comps| ==> comps[i] <= v)
    && (forall i, j :: 0 <= i < j < |comps| ==> comps[i] !! comps[j])
    && (forall c :: c in v ==> exists i :: 0 <= i < |comps| && c in comps[i])
  }

  /** The components found so far, each with its box: they are disjoint and make up v. */
  ghost predicate Found(d: set<Cell>, v: set<Cell>, comps: seq<set<Cell>>, boxes: seq<Box>) {
    && |comps| == |boxes|
    && (forall i {:trigger Boxed(d, comps[i], boxes[i])} :: 0 <= i < |comps| ==> Boxed(d, comps[i], boxes[i]))
    && Splits(v, comps)
  }

  lemma NoneFoundIff(d: set<Cell>, comps: seq<set<Cell>>, boxes: seq<Box>)
    requires Found(d, d, comps, boxes)
    ensures boxes == [] <==> d == {}
  {
    if boxes != [] {
      assert Boxed(d, comps[0], boxes[0]);
    } else {
      assert forall c :: c !in d;
    }
  }

  lemma SplitsAdd(v: set<Cell>, comps: seq<set<Cell>>, c: set<Cell>)
    requires Splits(v, comps) && c !! v
    ensures Splits(v + c, comps + [c])
  {
    var comps' := comps + [c];
    forall x | x in v + c
      ensures exists i :: 0 <= i < |comps'| && x in comps'[i]
    {
      if x in c {
        assert comps'[|comps|] == c;
      } else {
        var i :| 0 <= i < |comps| && x in comps[i];
        assert comps'[i] == comps[i];
      }
    }
  }

  lemma FoundAdd(d: set<Cell>, v: set<Cell>, comps: seq<set<Cell>>, boxes: seq<Box>, c: set<Cell>, b: Box)
    requires Found(d, v, comps, boxes) && Boxed(d, c, b) && c !! v
    ensures Found(d, v + c, comps + [c], boxes + [b])
  {
    SplitsAdd(v, comps, c);
    var comps', boxes' := comps + [c], boxes + [b];
    forall i | 0 <= i < |comps'|
      ensures Boxed(d, comps'[i], boxes'[i])
    {
      assert i < |comps| ==> Boxed(d, comps[i], boxes[i]);
    }
  }

  /** All cells of d above row gy, and in row gy left of gx, are in v. */
  ghost predicate Scanned(d: set<Cell>, v: set<Cell>, gx: int, gy: int) {
    forall c :: c in d && (c.1 < gy || (c.1 == gy && c.0 < gx)) ==> c in v
  }

  /** One cell of the scan: a dirty cell not visited yet starts a new component. */
  method ScanCell(grid: array<bool>, visited: array<bool>, gw: nat, gh: nat, gx: nat, gy: nat,
                  ghost d: set<Cell>, ghost v: set<Cell>, ghost comps: seq<set<Cell>>, ghost boxes: seq<Box>)
    returns (found: Option<Box>, ghost v': set<Cell>, ghost comps': seq<set<Cell>>, ghost boxes': seq<Box>)
    requires grid != visited && Shows(grid[..], gw, gh, d) && Shows(visited[..], gw, gh, v)
    requires InGrid(gw, gh, (gx, gy)) && v <= d && Closed(d, v) && Found(d, v, comps, boxes)
    modifies visited
    ensures Shows(visited[..], gw, gh, v')
    ensures v <= v' <= d && Closed(d, v') && Found(d, v', comps', boxes') && ((gx, gy) in d ==> (gx, gy) in v')
    ensures boxes' == boxes + (if found.Some? then [found.value] else [])
  {
    found, v', comps', boxes' := None, v, comps, boxes;
    var idx := gy * gw + gx;
    assert idx == Index(gw, gh, (gx, gy));
    if grid[idx] && !visited[idx] {
      ghost var c;
      var box;
      box, c := Flood(grid, visited, gw, gh, gx, gy, d, v);
      assert Boxed(d, c, box);
      FoundAdd(d, v, comps, boxes, c, box);
      LinkedSelf(d, (gx, gy));
      found, v', comps', boxes' := Some(box), v + c, comps + [c], boxes + [box];
    }
  }

  function RawRects(boxes: seq<Box>, blockSize: nat): seq<Rect> {
    seq(|boxes|, i requires 0 <= i < |boxes| => RawRect(boxes[i], blockSize))
  }

  /** The state of the scan when it has come to column gx of row gy. */
  ghost predicate Scan(seen: seq<bool>, gw: nat, gh: nat, d: set<Cell>, v: set<Cell>,
                       comps: seq<set<Cell>>, boxes: seq<Box>, gx: int, gy: int) {
    Shows(seen, gw, gh, v) && v <= d && Closed(d, v) && Scanned(d, v, gx, gy) && Found(d, v, comps, boxes)
  }

  method ScanRow(grid: array<bool>, visited: array<bool>, gw: nat, gh: nat, gy: nat, blockSize: nat, all: seq<Rect>,
                 ghost d: set<Cell>, ghost v: set<Cell>, ghost comps: seq<set<Cell>>, ghost boxes: seq<Box>)
    returns (rects: seq<Rect>, ghost v': set<Cell>, ghost comps': seq<set<Cell>>, ghost boxes': seq<Box>)
    requires grid != visited && Shows(grid[..], gw, gh, d) && gy < gh
    requires Scan(visited[..], gw, gh, d, v, comps, boxes, 0, gy) && all == RawRects(boxes, blockSize)
    modifies visited
    ensures Scan(visited[..], gw, gh, d, v', comps', boxes', 0, gy + 1) && rects == RawRects(boxes', blockSize)
  {
    rects, v', comps', boxes' := all, v, comps, boxes;
    ghost var g := grid[..];
    var gx := 0;
    while gx < gw
      invariant 0 <= gx <= gw && grid[..] == g
      invariant Scan(visited[..], gw, gh, d, v', comps', boxes', gx, gy) && rects == RawRects(boxes', blockSize)
    {
      var found;
      ghost var boxes0, v0 := boxes', v';
      found, v', comps', boxes' := ScanCell(grid, visited, gw, gh, gx, gy, d, v', comps', boxes');
      assert grid[..] == g;
      ScannedNext(d, v0, v', gx, gy);
      if found.Some? {
        var minX, minY, maxX, maxY := found.value.minX, found.value.minY, found.value.maxX, found.value.maxY;
        rects := rects + [Rect(minX * blockSize, minY * blockSize, (maxX - minX + 1) * blockSize,
                               (maxY - minY + 1) * blockSize)];
        RawRectsSnoc(boxes0, found.value, blockSize);
      } else {
        assert boxes0 + [] == boxes0;
      }
      gx := gx + 1;
    }
  }

  lemma ScannedNext(d: set<Cell>, v: set<Cell>, v': set<Cell>, gx: int, gy: int)
    requires Scanned(d, v, gx, gy) && v <= v' && ((gx, gy) in d ==> (gx, gy) in v')
    ensures Scanned(d, v', gx + 1, gy)
  {
  }

  lemma RawRectsSnoc(boxes: seq<Box>, b: Box, blockSize: nat)
    ensures RawRects(boxes + [b], blockSize) == RawRects(boxes, blockSize) + [RawRect(b, blockSize)]
  {
  }

  /** One rectangle for each connected component of the blocks' cells: the smallest that covers the
      component's blocks, cut to the frame. */
  method MergeBlocksToRects(blocks: set<Block>, blockSize: nat, w: nat, h: nat)
    returns (rects: seq<Rect>, ghost comps: seq<set<Cell>>, ghost boxes: seq<Box>)
    requires blockSize > 0 && forall b :: b in blocks ==> b.0 >= 0 && b.1 >= 0
    ensures var d := BlockCells(blocks, blockSize, Cells(w, blockSize), Cells(h, blockSize));
            Found(d, d, comps, boxes) && (rects == [] <==> d == {})
    ensures |rects| == |boxes| && forall i :: 0 <= i < |rects| ==> rects[i] == Clamp(RawRect(boxes[i], blockSize), w, h)
  {
    rects, comps, boxes := [], [], [];
    ghost var d := BlockCells(blocks, blockSize, Cells(w, blockSize), Cells(h, blockSize));
    if |blocks| == 0 {
      assert d == {};
      return;
    }
    var gw := (w + blockSize - 1) / blockSize;
    var gh := (h + blockSize - 1) / blockSize;
    var grid := BuildGrid(blocks, blockSize, gw, gh);
    var visited := new bool[gw * gh](_ => false);
    ghost var v: set<Cell> := {};
    ghost var g := grid[..];
    var gy := 0;
    while gy < gh
      invariant 0 <= gy <= gh && grid[..] == g
      invariant Scan(visited[..], gw, gh, d, v, comps, boxes, 0, gy) && rects == RawRects(boxes, blockSize)
    {
      rects, v, comps, boxes := ScanRow(grid, visited, gw, gh, gy, blockSize, rects, d, v, comps, boxes);
      assert grid[..] == g;
      gy := gy + 1;
    }
    assert v == d;
    NoneFoundIff(d, comps, boxes);
    rects := ClampAll(rects, w, h);
  }

  /** Cuts the rectangles to the frame, one after the other. */
  method ClampAll(all: seq<Rect>, w: nat, h: nat) returns (rects: seq<Rect>)
    ensures |rects| == |all| && forall i :: 0 <= i < |all| ==> rects[i] == Clamp(all[i], w, h)
  {
    rects := all;
    var i := 0;
    while i < |rects|
      invariant 0 <= i <= |rects| == |all|
      invariant forall j :: 0 <= j < i ==> rects[j] == Clamp(all[j], w, h)
      invariant forall j :: i <= j < |rects| ==> rects[j] == all[j]
    {
      var r := rects[i];
      r := r.(x := Min(r.x, w));
      r := r.(y := Min(r.y, h));
      r := r.(w := Min(r.w, w - r.x));
      r := r.(h := Min(r.h, h - r.y));
      rects := rects[i := r];
      i := i + 1;
    }
  }

  /** The clamped rectangle of a box of grid cells covers exactly the frame's pixels in those cells. */
  lemma ClampedCovers(b: Box, blockSize: nat, w: nat, h: nat, x: nat, y: nat)
    requires blockSize > 0 && x < w && y < h
    requires 0 <= b.minX <= b.maxX < Cells(w, blockSize) && 0 <= b.minY <= b.maxY < Cells(h, blockSize)
    ensures Inside(Clamp(RawRect(b, blockSize), w, h), x, y) <==> InBox(b, (x / blockSize, y / blockSize))
  {
    CellStarts(w, blockSize, b.minX);
    CellStarts(h, blockSize, b.minY);
    SpanCovers(b.minX, b.maxX, blockSize, x);
    SpanCovers(b.minY, b.maxY, blockSize, y);
  }

  lemma SpanCovers(lo: nat, hi: nat, blockSize: nat, x: nat)
    requires blockSize > 0 && lo <= hi
    ensures lo * blockSize <= x < lo * blockSize + (hi - lo + 1) * blockSize <==> lo <= x / blockSize <= hi
  {
    BeforeCell(lo, blockSize, x);
    BeforeCell(hi + 1, blockSize, x);
    assert lo * blockSize + (hi - lo + 1) * blockSize == (hi + 1) * blockSize;
  }

  lemma BeforeCell(n: nat, blockSize: nat, x: nat)
    requires blockSize > 0
    ensures x < n * blockSize <==> x / blockSize < n
  {
    var c := x / blockSize;
    CellOf(blockSize, x);
    if c < n {
      assert (c + 1) * blockSize <= n * blockSize;
    } else {
      assert n * blockSize <= c * blockSize;
    }
  }

  /** It is not empty and lies inside the frame. */
  lemma ClampedInFrame(b: Box, blockSize: nat, w: nat, h: nat)
    requires blockSize > 0
    requires 0 <= b.minX <= b.maxX < Cells(w, blockSize) && 0 <= b.minY <= b.maxY < Cells(h, blockSize)
    ensures var r := Clamp(RawRect(b, blockSize), w, h);
            0 <= r.x && 0 <= r.y && 0 < r.w && 0 < r.h && r.x + r.w <= w && r.y + r.h <= h
  {
    CellStarts(w, blockSize, b.minX);
    CellStarts(h, blockSize, b.minY);
    assert (b.maxX - b.minX + 1) * blockSize >= blockSize;
    assert (b.maxY - b.minY + 1) * blockSize >= blockSize;
  }
}
