/** Cells of a grid, connectedness in four directions, and boolean arrays that show sets of cells. */
module Grid {

  type Cell = (int, int)

  const DIRS: seq<Cell> := [(-1, 0), (1, 0), (0, -1), (0, 1)]

  predicate InGrid(gw: nat, gh: nat, c: Cell) {
    0 <= c.0 < gw && 0 <= c.1 < gh
  }

  predicate Adjacent(a: Cell, b: Cell) {
    b == (a.0 - 1, a.1) || b == (a.0 + 1, a.1) || b == (a.0, a.1 - 1) || b == (a.0, a.1 + 1)
  }

  /** A walk over neighbouring cells of d. */
  predicate Path(d: set<Cell>, p: seq<Cell>) {
    && p != []
    && (forall i :: 0 <= i < |p| ==> p[i] in d)
    && (forall i :: 0 < i < |p| ==> Adjacent(p[i - 1], p[i]))
  }

  ghost predicate Linked(d: set<Cell>, a: Cell, b: Cell) {
    exists p :: Path(d, p) && p[0] == a && p[|p| - 1] == b
  }

  /** The connected component of a cell. */
  ghost function Component(d: set<Cell>, a: Cell): set<Cell> {
    set b | b in d && Linked(d, a, b)
  }

  lemma LinkedSelf(d: set<Cell>, a: Cell)
    requires a in d
    ensures Linked(d, a, a)
  {
    assert Path(d, [a]);
  }

  lemma LinkedStep(d: set<Cell>, a: Cell, b: Cell, c: Cell)
    requires Linked(d, a, b) && Adjacent(b, c) && c in d
    ensures Linked(d, a, c)
  {
    var p :| Path(d, p) && p[0] == a && p[|p| - 1] == b;
    assert Path(d, p + [c]);
  }

  /** No link leaves a set that contains, with each of its cells, all the neighbours in d. */
  ghost predicate Closed(d: set<Cell>, s: set<Cell>) {
    forall a, b :: a in s && b in d && Adjacent(a, b) ==> b in s
  }

  lemma ClosedKeepsLinked(d: set<Cell>, s: set<Cell>, a: Cell, b: Cell)
    requires Closed(d, s) && a in s && Linked(d, a, b)
    ensures b in s
  {
    var p :| Path(d, p) && p[0] == a && p[|p| - 1] == b;
    for i := 1 to |p|
      invariant p[i - 1] in s
    {
      assert Adjacent(p[i - 1], p[i]);
    }
  }

  /** Components are classes: every cell of a component has that same component. */
  lemma ComponentOfMember(d: set<Cell>, a: Cell, b: Cell)
    requires a in d && b in Component(d, a)
    ensures Component(d, b) == Component(d, a)
  {
    Reverse(d, a, b);
    forall c | c in d
      ensures Linked(d, a, c) <==> Linked(d, b, c)
    {
      if Linked(d, a, c) {
        Compose(d, b, a, c);
      }
      if Linked(d, b, c) {
        Compose(d, a, b, c);
      }
    }
  }

  lemma Compose(d: set<Cell>, a: Cell, b: Cell, c: Cell)
    requires Linked(d, a, b) && Linked(d, b, c)
    ensures Linked(d, a, c)
  {
    var p :| Path(d, p) && p[0] == b && p[|p| - 1] == c;
    for i := 1 to |p|
      invariant Linked(d, a, p[i - 1])
    {
      assert Adjacent(p[i - 1], p[i]);
      LinkedStep(d, a, p[i - 1], p[i]);
    }
  }

  lemma Reverse(d: set<Cell>, a: Cell, b: Cell)
    requires Linked(d, a, b)
    ensures Linked(d, b, a)
  {
    var p :| Path(d, p) && p[0] == a && p[|p| - 1] == b;
    LinkedSelf(d, b);
    for i := 1 to |p|
      invariant Linked(d, b, p[|p| - i])
    {
      assert Adjacent(p[|p| - i - 1], p[|p| - i]);
      LinkedStep(d, b, p[|p| - i], p[|p| - i - 1]);
    }
  }

  // ---- Boolean arrays ----

  function Index(gw: nat, gh: nat, c: Cell): (i: nat)
    requires InGrid(gw, gh, c)
    ensures i < gw * gh
  {
    RowFits(gw, gh, c.0, c.1);
    c.1 * gw + c.0
  }

  lemma RowFits(gw: nat, gh: nat, x: nat, y: nat)
    requires x < gw && y < gh
    ensures 0 <= y * gw + x < gw * gh
  {
    assert (y + 1) * gw <= gh * gw;
  }

  lemma IndexInjective(gw: nat, gh: nat, a: Cell, b: Cell)
    requires InGrid(gw, gh, a) && InGrid(gw, gh, b) && a != b
    ensures Index(gw, gh, a) != Index(gw, gh, b)
  {
    if a.1 < b.1 {
      assert (a.1 + 1) * gw <= b.1 * gw;
    } else if b.1 < a.1 {
      assert (b.1 + 1) * gw <= a.1 * gw;
    }
  }

  /** The array, row by row, is true exactly at the cells of s. */
  ghost predicate Shows(a: seq<bool>, gw: nat, gh: nat, s: set<Cell>) {
    && |a| == gw * gh
    && (forall c | c in s :: InGrid(gw, gh, c))
    && (forall c: Cell | InGrid(gw, gh, c) :: a[Index(gw, gh, c)] <==> c in s)
  }

  lemma ShowsAdd(a: seq<bool>, gw: nat, gh: nat, s: set<Cell>, c: Cell)
    requires Shows(a, gw, gh, s) && InGrid(gw, gh, c)
    ensures Shows(a[Index(gw, gh, c) := true], gw, gh, s + {c})
  {
    var a' := a[Index(gw, gh, c) := true];
    forall b: Cell | InGrid(gw, gh, b)
      ensures a'[Index(gw, gh, b)] <==> b in s + {c}
    {
      if b != c {
        IndexInjective(gw, gh, b, c);
      }
    }
  }

  // ---- Bounding boxes ----

  datatype Box = Box(minX: int, minY: int, maxX: int, maxY: int)

  predicate InBox(b: Box, c: Cell) {
    b.minX <= c.0 <= b.maxX && b.minY <= c.1 <= b.maxY
  }

  /** The smallest box around the cells: it holds all of them and each side touches one. */
  ghost predicate Tight(s: set<Cell>, b: Box) {
    && (forall c | c in s :: InBox(b, c))
    && (exists c | c in s :: c.0 == b.minX)
    && (exists c | c in s :: c.0 == b.maxX)
    && (exists c | c in s :: c.1 == b.minY)
    && (exists c | c in s :: c.1 == b.maxY)
  }

  function Stretched(b: Box, c: Cell): Box {
    Box(if c.0 < b.minX then c.0 else b.minX, if c.1 < b.minY then c.1 else b.minY,
        if c.0 > b.maxX then c.0 else b.maxX, if c.1 > b.maxY then c.1 else b.maxY)
  }

  lemma TightAdd(s: set<Cell>, b: Box, c: Cell)
    requires Tight(s, b)
    ensures Tight(s + {c}, Stretched(b, c))
  {
    var t, r := s + {c}, Stretched(b, c);
    assert c in t;
    var x1 :| x1 in s && x1.0 == b.minX;
    var x2 :| x2 in s && x2.0 == b.maxX;
    var y1 :| y1 in s && y1.1 == b.minY;
    var y2 :| y2 in s && y2.1 == b.maxY;
    assert x1 in t && x2 in t && y1 in t && y2 in t;
  }

  /** There is only one such box. */
  lemma TightUnique(s: set<Cell>, a: Box, b: Box)
    requires Tight(s, a) && Tight(s, b)
    ensures a == b
  {
  }

  /** Cells that share an edge are in one component; cells that only touch at a corner are not. */
  lemma EdgesConnect(d: set<Cell>, x: int, y: int)
    requires (x, y) in d
    ensures (x + 1, y) in d ==> (x + 1, y) in Component(d, (x, y))
    ensures (x, y + 1) in d ==> (x, y + 1) in Component(d, (x, y))
  {
    LinkedSelf(d, (x, y));
    if (x + 1, y) in d {
      LinkedStep(d, (x, y), (x, y), (x + 1, y));
    }
    if (x, y + 1) in d {
      LinkedStep(d, (x, y), (x, y), (x, y + 1));
    }
  }

  lemma CornersDoNot(x: int, y: int)
    ensures (x + 1, y + 1) !in Component({(x, y), (x + 1, y + 1)}, (x, y))
    ensures (x - 1, y + 1) !in Component({(x, y), (x - 1, y + 1)}, (x, y))
  {
    if (x + 1, y + 1) in Component({(x, y), (x + 1, y + 1)}, (x, y)) {
      ClosedKeepsLinked({(x, y), (x + 1, y + 1)}, {(x, y)}, (x, y), (x + 1, y + 1));
    }
    if (x - 1, y + 1) in Component({(x, y), (x - 1, y + 1)}, (x, y)) {
      ClosedKeepsLinked({(x, y), (x - 1, y + 1)}, {(x, y)}, (x, y), (x - 1, y + 1));
    }
  }
}
