/** Regions of the last two (spatial) axes of an array, array content as the set of
    written cells, and the bounded-memory tile walk that both converters use to copy
    a large block piece by piece. */
module Grid {
  import opened Wrappers

  /** A position (row, column) in the last two axes of an array. */
  type Cell = (int, int)

  function Min(a: int, b: int): int { if a < b then a else b }

  /** The half-open block of cells [top, bottom) x [left, right). */
  datatype Rect = Rect(top: int, bottom: int, left: int, right: int) {

    predicate Contains(c: Cell) {
      top <= c.0 < bottom && left <= c.1 < right
    }

    function Cells(): (cs: set<Cell>)
      ensures forall c :: c in cs <==> Contains(c)
    {
      set r, k | top <= r < bottom && left <= k < right :: (r, k)
    }
  }

  /** The content of an array: each written cell with its value; a cell that was
      never written is absent. A freshly created array is the empty map. */
  type Store<T> = map<Cell, T>

  /** `array[..., rect] = data`: every cell of `rect` receives `src` at that cell,
      every other cell keeps its content. */
  function WriteRegion<T>(s: Store<T>, rect: Rect, src: Cell -> T): (r: Store<T>)
    ensures forall c :: c in r <==> c in s || rect.Contains(c)
    ensures forall c :: c in r ==> r[c] == if rect.Contains(c) then src(c) else s[c]
  {
    s + map c | c in rect.Cells() :: src(c)
  }

  /** `ceildiv(a, b)`: the least number of pieces of length `b` that together reach `a`. */
  function CeilDiv(a: nat, b: nat): (n: nat)
    requires b > 0
    ensures a <= n * b < a + b
  {
    var q := (a + b - 1) / b;
    assert a + b - 1 == q * b + (a + b - 1) % b;
    q
  }

  lemma MulLeft(a: int, b: int, m: nat)
    requires a <= b
    ensures a * m <= b * m
  {
  }

  /** Tile (i, j) of the walk over an h-by-w block whose first cell is (dt, dl):
      rows [i*m, min((i+1)*m, h)) and columns [j*m, min((j+1)*m, w)) of the block. */
  function Tile(i: nat, j: nat, m: nat, h: nat, w: nat, dt: int, dl: int): Rect {
    Rect(dt + i * m, dt + Min((i + 1) * m, h), dl + j * m, dl + Min((j + 1) * m, w))
  }

  /** Every tile of the walk is non-empty, at most m by m, and inside the block. */
  lemma TileShape(i: nat, j: nat, m: nat, h: nat, w: nat, dt: int, dl: int)
    requires m > 0 && i < CeilDiv(h, m) && j < CeilDiv(w, m)
    ensures var t := Tile(i, j, m, h, w, dt, dl);
      && 0 < t.bottom - t.top <= m && 0 < t.right - t.left <= m
      && dt <= t.top && t.bottom <= dt + h && dl <= t.left && t.right <= dl + w
  {
    MulLeft(i + 1, CeilDiv(h, m), m);
    MulLeft(j + 1, CeilDiv(w, m), m);
  }

  /** Two different tiles of the walk share no cell. */
  lemma TilesDisjoint(i: nat, j: nat, i2: nat, j2: nat, m: nat, h: nat, w: nat, dt: int, dl: int)
    requires m > 0 && (i, j) != (i2, j2)
    ensures forall c :: !(Tile(i, j, m, h, w, dt, dl).Contains(c) && Tile(i2, j2, m, h, w, dt, dl).Contains(c))
  {
    if i < i2 {
      MulLeft(i + 1, i2, m);
    } else if i2 < i {
      MulLeft(i2 + 1, i, m);
    } else if j < j2 {
      MulLeft(j + 1, j2, m);
    } else {
      MulLeft(j2 + 1, j, m);
    }
  }

  /** The load test of both converters: a block is written in one piece when there is
      no load limit or both of its extents are below the limit. */
  predicate WholePlane(h: nat, w: nat, maxLoad: Option<nat>) {
    maxLoad.None? || (h < maxLoad.value && w < maxLoad.value)
  }

  /** The tiles of the walk cover exactly the block: a cell is in the block iff it is
      in one of the ceildiv(h, m) x ceildiv(w, m) tiles. */
  lemma TilesCover(m: nat, h: nat, w: nat, dt: int, dl: int, c: Cell)
    requires m > 0
    ensures Rect(dt, dt + h, dl, dl + w).Contains(c) <==>
      exists i: nat, j: nat :: i < CeilDiv(h, m) && j < CeilDiv(w, m) && Tile(i, j, m, h, w, dt, dl).Contains(c)
  {
    if Rect(dt, dt + h, dl, dl + w).Contains(c) {
      var i := PieceIndex(c.0 - dt, h, m);
      var j := PieceIndex(c.1 - dl, w, m);
      TileCorners(i, j, m, h, w, dt, dl);
      assert Tile(i, j, m, h, w, dt, dl).Contains(c);
    }
    if exists i: nat, j: nat :: i < CeilDiv(h, m) && j < CeilDiv(w, m) && Tile(i, j, m, h, w, dt, dl).Contains(c) {
      var i: nat, j: nat :| i < CeilDiv(h, m) && j < CeilDiv(w, m) && Tile(i, j, m, h, w, dt, dl).Contains(c);
      TileShape(i, j, m, h, w, dt, dl);
    }
  }

  /** The index of the length-m piece that holds offset x of an extent n. */
  lemma PieceIndex(x: int, n: nat, m: nat) returns (i: nat)
    requires m > 0 && 0 <= x < n
    ensures i < CeilDiv(n, m) && i * m <= x < i * m + m
  {
    i := x / m;
    assert x == i * m + x % m;
    if i >= CeilDiv(n, m) {
      MulLeft(CeilDiv(n, m), i, m);
    }
  }

  /** The corners of tile (i, j) written with the row and column offsets i*m and j*m. */
  lemma TileCorners(i: nat, j: nat, m: nat, h: nat, w: nat, dt: int, dl: int)
    ensures Tile(i, j, m, h, w, dt, dl) == Rect(dt + i * m, dt + Min(i * m + m, h), dl + j * m, dl + Min(j * m + m, w))
  {
    assert (i + 1) * m == i * m + m && (j + 1) * m == j * m + m;
  }

  /** The cells of the block that the row-major walk has written before it reaches the
      tile whose first cell is at offset (r0, c0) of the block. */
  predicate WalkedBefore(c: Cell, r0: int, c0: int, m: int, h: int, w: int, dt: int, dl: int) {
    var x, y := c.0 - dt, c.1 - dl;
    0 <= x < h && 0 <= y < w && (x < r0 || (x < r0 + m && y < c0))
  }

  /** What the walk has produced so far: `s` with the walked cells overwritten by `src`. */
  ghost predicate WalkState<T>(r: Store<T>, s: Store<T>, src: Cell -> T, r0: int, c0: int, m: int, h: int, w: int, dt: int, dl: int) {
    && (forall c :: c in r <==> c in s || WalkedBefore(c, r0, c0, m, h, w, dt, dl))
    && (forall c :: c in r ==> r[c] == if WalkedBefore(c, r0, c0, m, h, w, dt, dl) then src(c) else s[c])
  }

  /** Writing the tile at offset (r0, c0) advances the walk by one tile. */
  lemma WalkStep<T>(r: Store<T>, s: Store<T>, src: Cell -> T, r0: int, c0: int, m: int, h: int, w: int, dt: int, dl: int)
    requires m > 0 && r0 >= 0 && c0 >= 0
    requires WalkState(r, s, src, r0, c0, m, h, w, dt, dl)
    ensures WalkState(WriteRegion(r, Rect(dt + r0, dt + Min(r0 + m, h), dl + c0, dl + Min(c0 + m, w)), src),
                      s, src, r0, c0 + m, m, h, w, dt, dl)
  {
  }

  /** Once the column offset passes the block's width, the walk moves to the next row of tiles. */
  lemma WalkNextRow<T>(r: Store<T>, s: Store<T>, src: Cell -> T, r0: int, c0: int, m: int, h: int, w: int, dt: int, dl: int)
    requires m > 0 && r0 >= 0 && c0 >= w
    requires WalkState(r, s, src, r0, c0, m, h, w, dt, dl)
    ensures WalkState(r, s, src, r0 + m, 0, m, h, w, dt, dl)
  {
    assert forall c :: WalkedBefore(c, r0, c0, m, h, w, dt, dl) <==> WalkedBefore(c, r0 + m, 0, m, h, w, dt, dl);
  }

  /** Once the row offset passes the block's height, the walk has written the whole block. */
  lemma WalkDone<T>(r: Store<T>, s: Store<T>, src: Cell -> T, r0: int, m: int, h: nat, w: nat, dt: int, dl: int)
    requires m > 0 && r0 >= h
    requires WalkState(r, s, src, r0, 0, m, h, w, dt, dl)
    ensures r == WriteRegion(s, Rect(dt, dt + h, dl, dl + w), src)
  {
    var whole := WriteRegion(s, Rect(dt, dt + h, dl, dl + w), src);
    assert forall c :: WalkedBefore(c, r0, 0, m, h, w, dt, dl) <==> Rect(dt, dt + h, dl, dl + w).Contains(c);
    assert r.Keys == whole.Keys;
  }

  /** Copies the h-by-w block at (dt, dl) tile by tile, in the row-major order of the
      source's nested loops, writing `src` into `s`. The result is the single write of
      the whole block; `count` is the number of tile writes. */
  method TiledCopy<T>(s: Store<T>, h: nat, w: nat, m: nat, dt: int, dl: int, src: Cell -> T)
    returns (r: Store<T>, count: nat)
    requires m > 0
    ensures r == WriteRegion(s, Rect(dt, dt + h, dl, dl + w), src)
    ensures count == CeilDiv(h, m) * CeilDiv(w, m)
  {
    var ni, nj := CeilDiv(h, m), CeilDiv(w, m);
    r, count := s, 0;
    var i, r0 := 0, 0;
    while i < ni
      invariant 0 <= i <= ni && r0 == i * m
      invariant count == i * nj
      invariant WalkState(r, s, src, r0, 0, m, h, w, dt, dl)
    {
      var j, c0 := 0, 0;
      while j < nj
        invariant 0 <= j <= nj && c0 == j * m
        invariant count == i * nj + j
        invariant WalkState(r, s, src, r0, c0, m, h, w, dt, dl)
      {
        TileCorners(i, j, m, h, w, dt, dl);
        WalkStep(r, s, src, r0, c0, m, h, w, dt, dl);
        r := WriteRegion(r, Tile(i, j, m, h, w, dt, dl), src);
        count := count + 1;
        assert c0 + m == (j + 1) * m;
        j, c0 := j + 1, c0 + m;
      }
      assert c0 == nj * m;
      assert c0 >= w;
      WalkNextRow(r, s, src, r0, c0, m, h, w, dt, dl);
      assert r0 + m == (i + 1) * m;
      i, r0 := i + 1, r0 + m;
    }
    assert r0 >= h;
    WalkDone(r, s, src, r0, m, h, w, dt, dl);
  }
}
