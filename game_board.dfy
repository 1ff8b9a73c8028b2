/**
 * `GameData`: a row-major board of tiles with an index-aligned cache of
 * per-cell adjacency records, bounds-checked cell access, cache invalidation
 * on writes followed by recomputation of the invalidated entries, and
 * stamping of shapes.
 */
module GameBoard {
  import opened Wrappers
  import opened Tiles
  import opened Coordinates
  import opened Enumeration
  import opened Shapes

  /** `BoardError::BoundsError { limit, exception }`. */
  datatype BoardError = BoundsError(limit: U16, exception: U16)

  /** `height * width` is computed in `u16` and panics on overflow, so a board has at most 0xFFFF cells. */
  predicate BoardFits(height: U16, width: U16)
  {
    height * width <= MaxU16
  }

  predicate InGrid(height: nat, width: nat, c: Coordinate)
  {
    c.x < width && c.y < height
  }

  /**
   * `in_bounds`: x is checked against the width before y is checked against
   * the height; the error names the limit and the value that reached it.
   */
  function InBounds(height: U16, width: U16, c: Coordinate): (r: Result<(), BoardError>)
    ensures r.Ok? <==> InGrid(height, width, c)
    ensures c.x >= width ==> r == Err(BoundsError(width, c.x))
    ensures c.x < width && c.y >= height ==> r == Err(BoundsError(height, c.y))
  {
    if c.x >= width then Err(BoundsError(width, c.x))
    else if c.y >= height then Err(BoundsError(height, c.y))
    else Ok(())
  }

  /** On a 4 by 4 board, (8, 8) is reported against the width, as `{limit: 4, exception: 8}`. */
  lemma InBoundsChecksWidthFirst()
    ensures InBounds(4, 4, Coordinate(8, 8)) == Err(BoundsError(4, 8))
    ensures InBounds(4, 4, Coordinate(3, 8)) == Err(BoundsError(4, 8))
    ensures InBounds(4, 4, Coordinate(3, 3)) == Ok(())
  {
  }

  /** The row-major position `x + y * width` of an on-board coordinate. */
  function Index(height: nat, width: nat, c: Coordinate): (i: nat)
    requires InGrid(height, width, c)
    ensures i < height * width
  {
    MulLeftMonotone(c.y, height - 1, width);
    c.x + c.y * width
  }

  lemma MulLeftMonotone(a: nat, b: nat, k: nat)
    requires a <= b
    ensures a * k <= b * k
  {
  }

  /** Distinct on-board coordinates have distinct positions. */
  lemma IndexInjective(height: nat, width: nat, a: Coordinate, b: Coordinate)
    requires InGrid(height, width, a) && InGrid(height, width, b)
    requires Index(height, width, a) == Index(height, width, b)
    ensures a == b
  {
    RowOrder(width, a, b);
    RowOrder(width, b, a);
  }

  /** A coordinate on a lower row has a smaller position. */
  lemma RowOrder(width: nat, a: Coordinate, b: Coordinate)
    requires a.x < width && b.x < width
    ensures a.y < b.y ==> a.x + a.y * width < b.x + b.y * width
  {
    if a.y < b.y {
      MulLeftMonotone(a.y + 1, b.y, width);
      assert (a.y + 1) * width == a.y * width + width;
    }
  }

  /**
   * `all_cords`: every on-board coordinate, y in the outer loop and x in the
   * inner one, so that element `i` is the coordinate whose position is `i`.
   */
  function AllCoords(height: U16, width: U16): (r: seq<Coordinate>)
    requires BoardFits(height, width)
    ensures |r| == height * width
    ensures forall i :: 0 <= i < |r| ==> InGrid(height, width, r[i]) && Index(height, width, r[i]) == i
  {
    var pairs := CartesianProduct(height, width);
    seq(|pairs|, i requires 0 <= i < |pairs| => Coordinate(pairs[i].1, pairs[i].0))
  }

  /** Every on-board coordinate is listed, at its own position. */
  lemma AllCoordsCovers(height: U16, width: U16, c: Coordinate)
    requires BoardFits(height, width) && InGrid(height, width, c)
    ensures AllCoords(height, width)[Index(height, width, c)] == c
    ensures c in AllCoords(height, width)
  {
    CartesianProductCovers(height, width, c.y, c.x);
  }

  /** `in_bounds` succeeds exactly on the coordinates `all_cords` lists. */
  lemma InBoundsIffListed(height: U16, width: U16, c: Coordinate)
    requires BoardFits(height, width)
    ensures InBounds(height, width, c).Ok? <==> c in AllCoords(height, width)
  {
    if InGrid(height, width, c) {
      AllCoordsCovers(height, width, c);
    }
  }

  /**
   * `cordinates_to_index`: the bounds error of `in_bounds`, or the position of
   * the coordinate, which `all_cords` lists at that very position.
   */
  function CoordinatesToIndex(height: U16, width: U16, c: Coordinate): (r: Result<nat, BoardError>)
    requires BoardFits(height, width)
    ensures r.Ok? <==> InGrid(height, width, c)
    ensures r.Err? ==> InBounds(height, width, c) == Err(r.error)
    ensures r.Ok? ==> r.value < height * width && AllCoords(height, width)[r.value] == c
  {
    var inside :- InBounds(height, width, c);
    AllCoordsCovers(height, width, c);
    Ok(Index(height, width, c))
  }

  /** `get_cell` and `get_adjacency_status`: read an index-aligned vector at a coordinate. */
  function Lookup<T>(height: U16, width: U16, v: seq<T>, c: Coordinate): (r: Result<T, BoardError>)
    requires BoardFits(height, width) && |v| == height * width
    ensures r.Ok? <==> InGrid(height, width, c)
    ensures r.Err? ==> InBounds(height, width, c) == Err(r.error)
    ensures r.Ok? ==> r.value == v[Index(height, width, c)]
  {
    var i :- CoordinatesToIndex(height, width, c);
    Ok(v[i])
  }

  /** Writing one cell is seen at that cell and nowhere else. */
  lemma LookupAfterWrite<T>(height: U16, width: U16, v: seq<T>, p: Coordinate, x: T, c: Coordinate)
    requires BoardFits(height, width) && |v| == height * width && InGrid(height, width, p)
    ensures Lookup(height, width, v[Index(height, width, p) := x], c)
         == if c == p then Ok(x) else Lookup(height, width, v, c)
  {
    if InGrid(height, width, c) && c != p && Index(height, width, c) == Index(height, width, p) {
      IndexInjective(height, width, c, p);
    }
  }

  /** The origin `(0, 0)` of a non-empty board is its first cell. */
  lemma LookupOrigin<T>(height: U16, width: U16, v: seq<T>)
    requires BoardFits(height, width) && |v| == height * width
    requires height > 0 && width > 0
    ensures Lookup(height, width, v, Coordinate(0, 0)) == Ok(v[0])
  {
  }

  /**
   * `AdjacentData`: one tri-state per direction. The renderer distinguishes
   * `None` in a direction, although the cache update never stores one.
   */
  datatype AdjacentData = AdjacentData(up: Option<bool>, down: Option<bool>, left: Option<bool>, right: Option<bool>)

  /**
   * Direction `d` of cell `c` is "same" when its neighbour in that direction
   * exists, lies on the board and holds an equal tile.
   */
  predicate SameNeighbour(height: U16, width: U16, tiles: seq<Tile>, c: Coordinate, d: nat)
    requires |tiles| == height * width && InGrid(height, width, c) && d < 4
  {
    match Adjacent(c)[d]
    case None => false
    case Some(n) => InGrid(height, width, n) && tiles[Index(height, width, n)] == tiles[Index(height, width, c)]
  }

  /** The record a recomputation stores for `c`: direction 0 is up, 1 right, 2 down, 3 left. */
  function ExpectedEntry(height: U16, width: U16, tiles: seq<Tile>, c: Coordinate): AdjacentData
    requires |tiles| == height * width && InGrid(height, width, c)
  {
    AdjacentData(
      up := Some(SameNeighbour(height, width, tiles, c, 0)),
      down := Some(SameNeighbour(height, width, tiles, c, 2)),
      left := Some(SameNeighbour(height, width, tiles, c, 3)),
      right := Some(SameNeighbour(height, width, tiles, c, 1)))
  }

  /** Adjacency is seen the same way from both cells of a neighbouring pair. */
  lemma SameNeighbourSymmetric(height: U16, width: U16, tiles: seq<Tile>, c: Coordinate, d: nat, n: Coordinate)
    requires |tiles| == height * width && InGrid(height, width, c) && d < 4
    requires Adjacent(c)[d] == Some(n) && InGrid(height, width, n)
    ensures SameNeighbour(height, width, tiles, c, d) == SameNeighbour(height, width, tiles, n, Opposite(d))
  {
    AdjacentSymmetric(c, d, n);
  }

  /** The complete cache for a board: entry `i` is the record of the cell at position `i`. */
  ghost function ExpectedCache(height: U16, width: U16, tiles: seq<Tile>): (r: seq<Option<AdjacentData>>)
    requires BoardFits(height, width) && |tiles| == height * width
    ensures |r| == height * width
    ensures forall i :: 0 <= i < |r| ==> r[i] == Some(ExpectedEntry(height, width, tiles, AllCoords(height, width)[i]))
  {
    var coords := AllCoords(height, width);
    seq(|coords|, i requires 0 <= i < |coords| => Some(ExpectedEntry(height, width, tiles, coords[i])))
  }

  /** A complete cache is in particular a sound one, with no absent entry. */
  lemma ExpectedCacheIsSound(height: U16, width: U16, tiles: seq<Tile>)
    requires BoardFits(height, width) && |tiles| == height * width
    ensures CacheSound(height, width, tiles, ExpectedCache(height, width, tiles))
    ensures !HasAbsent(ExpectedCache(height, width, tiles))
  {
  }

  /** Every entry present in the cache is the record the current tiles call for. */
  ghost predicate CacheSound(height: U16, width: U16, tiles: seq<Tile>, cache: seq<Option<AdjacentData>>)
    requires BoardFits(height, width) && |tiles| == height * width && |cache| == height * width
  {
    forall i :: 0 <= i < |cache| && cache[i].Some? ==>
      cache[i] == Some(ExpectedEntry(height, width, tiles, AllCoords(height, width)[i]))
  }

  /** `iter().any(|x| x.is_none())`. */
  function HasAbsent(cache: seq<Option<AdjacentData>>): (r: bool)
    ensures r <==> exists i :: 0 <= i < |cache| && cache[i].None?
  {
    if cache == [] then false
    else cache[0].None? || HasAbsent(cache[1..])
  }

  /**
   * The body of the `update_adjacent_cache` loop for one absent entry: start
   * with every direction `Some(false)` and flip direction `d` to `Some(true)`
   * when the `d`-th neighbour exists, is in bounds and holds an equal tile.
   */
  method ComputeEntry(height: U16, width: U16, tiles: seq<Tile>, top: Coordinate) returns (entry: AdjacentData)
    requires BoardFits(height, width) && |tiles| == height * width && InGrid(height, width, top)
    ensures entry == ExpectedEntry(height, width, tiles, top)
  {
    var up, down, left, right := Some(false), Some(false), Some(false), Some(false);
    var neighbours := Adjacent(top);
    var direction := 0;
    while direction < 4
      invariant 0 <= direction <= 4
      invariant up == Some(0 < direction && SameNeighbour(height, width, tiles, top, 0))
      invariant right == Some(1 < direction && SameNeighbour(height, width, tiles, top, 1))
      invariant down == Some(2 < direction && SameNeighbour(height, width, tiles, top, 2))
      invariant left == Some(3 < direction && SameNeighbour(height, width, tiles, top, 3))
    {
      var candidate := neighbours[direction];
      if candidate.Some? && InBounds(height, width, candidate.value).Ok?
        && Lookup(height, width, tiles, top).value == Lookup(height, width, tiles, candidate.value).value
      {
        if direction == 0 {
          up := Some(true);
        } else if direction == 1 {
          right := Some(true);
        } else if direction == 2 {
          down := Some(true);
        } else {
          // the `_ => panic!` arm: a fifth direction never occurs
          assert direction == 3;
          left := Some(true);
        }
      }
      direction := direction + 1;
    }
    entry := AdjacentData(up, down, left, right);
  }

  /**
   * The positions `set_cell` clears in the cache when it writes `c`: the cell
   * itself, then its neighbours among directions `0 .. k` that exist and lie
   * on the board.
   */
  function Invalidated(height: U16, width: U16, c: Coordinate, k: nat): set<nat>
    requires InGrid(height, width, c) && k <= 4
  {
    if k == 0 then {Index(height, width, c)}
    else
      Invalidated(height, width, c, k - 1) +
      match Adjacent(c)[k - 1]
      case Some(n) => if InGrid(height, width, n) then {Index(height, width, n)} else {}
      case None => {}
  }

  /** A neighbour on the board is among the positions invalidated by a write. */
  lemma InvalidatedCoversNeighbour(height: U16, width: U16, c: Coordinate, d: nat, n: Coordinate)
    requires InGrid(height, width, c) && d < 4
    requires Adjacent(c)[d] == Some(n) && InGrid(height, width, n)
    ensures Index(height, width, n) in Invalidated(height, width, c, 4)
  {
    assert Index(height, width, n) in Invalidated(height, width, c, d + 1);
    InvalidatedMonotone(height, width, c, d + 1, 4);
  }

  lemma {:induction false} InvalidatedMonotone(height: U16, width: U16, c: Coordinate, k: nat, l: nat)
    requires InGrid(height, width, c) && k <= l <= 4
    ensures Invalidated(height, width, c, k) <= Invalidated(height, width, c, l)
    decreases l
  {
    if k < l {
      InvalidatedMonotone(height, width, c, k, l - 1);
    }
  }

  /** A neighbour of `e` that sits at the written position means `e` was invalidated by the write. */
  lemma NeighbourOfWrittenIsInvalidated(height: U16, width: U16, c: Coordinate, e: Coordinate, d: nat, n: Coordinate)
    requires InGrid(height, width, c) && InGrid(height, width, e) && d < 4
    requires Adjacent(e)[d] == Some(n) && InGrid(height, width, n)
    ensures Index(height, width, n) == Index(height, width, c) ==> Index(height, width, e) in Invalidated(height, width, c, 4)
  {
    if Index(height, width, n) == Index(height, width, c) {
      IndexInjective(height, width, n, c);
      AdjacentSymmetric(e, d, n);
      InvalidatedCoversNeighbour(height, width, c, Opposite(d), e);
    }
  }

  /** One direction of a cell outside the invalidated positions compares the same tiles before and after the write. */
  lemma SameNeighbourUnaffected(height: U16, width: U16, tiles: seq<Tile>, c: Coordinate, t: Tile, e: Coordinate, d: nat)
    requires |tiles| == height * width && InGrid(height, width, c) && InGrid(height, width, e) && d < 4
    requires Index(height, width, e) !in Invalidated(height, width, c, 4)
    ensures SameNeighbour(height, width, tiles[Index(height, width, c) := t], e, d)
         == SameNeighbour(height, width, tiles, e, d)
  {
    assert Index(height, width, c) in Invalidated(height, width, c, 0);
    InvalidatedMonotone(height, width, c, 0, 4);
    match Adjacent(e)[d]
    case None =>
    case Some(n) =>
      if InGrid(height, width, n) {
        NeighbourOfWrittenIsInvalidated(height, width, c, e, d, n);
      }
  }

  /**
   * Writing `t` at `c` leaves the record of every cell outside the invalidated
   * positions as it was: neither the cell nor any neighbour it compares with changed.
   */
  lemma WriteKeepsOtherEntries(height: U16, width: U16, tiles: seq<Tile>, c: Coordinate, t: Tile, i: nat)
    requires BoardFits(height, width) && |tiles| == height * width && InGrid(height, width, c)
    requires i < height * width && i !in Invalidated(height, width, c, 4)
    ensures ExpectedEntry(height, width, tiles[Index(height, width, c) := t], AllCoords(height, width)[i])
         == ExpectedEntry(height, width, tiles, AllCoords(height, width)[i])
  {
    var e := AllCoords(height, width)[i];
    SameNeighbourUnaffected(height, width, tiles, c, t, e, 0);
    SameNeighbourUnaffected(height, width, tiles, c, t, e, 1);
    SameNeighbourUnaffected(height, width, tiles, c, t, e, 2);
    SameNeighbourUnaffected(height, width, tiles, c, t, e, 3);
  }

  /**
   * The covered cells after stamping `t` at `location + offset` for each
   * location in order: the sequence of `set_cell` writes `apply_shape` makes.
   */
  ghost function Stamped(height: U16, width: U16, tiles: seq<Tile>, locations: seq<Coordinate>, offset: Coordinate, t: Tile): (r: seq<Tile>)
    requires |tiles| == height * width
    requires forall j :: 0 <= j < |locations| ==>
      CanAdd(locations[j], offset) && InGrid(height, width, Add(locations[j], offset))
    ensures |r| == |tiles|
    decreases |locations|
  {
    if locations == [] then tiles
    else
      var last := Add(locations[|locations| - 1], offset);
      Stamped(height, width, tiles, locations[..|locations| - 1], offset, t)[Index(height, width, last) := t]
  }

  /** After stamping, a cell holds `t` exactly when some location lands on it; every other cell is unchanged. */
  lemma {:induction false} StampedCells(height: U16, width: U16, tiles: seq<Tile>, locations: seq<Coordinate>, offset: Coordinate, t: Tile, c: Coordinate)
    requires |tiles| == height * width && InGrid(height, width, c)
    requires forall j :: 0 <= j < |locations| ==>
      CanAdd(locations[j], offset) && InGrid(height, width, Add(locations[j], offset))
    ensures Stamped(height, width, tiles, locations, offset, t)[Index(height, width, c)]
         == if exists j :: 0 <= j < |locations| && Add(locations[j], offset) == c then t else tiles[Index(height, width, c)]
    decreases |locations|
  {
    if locations != [] {
      var front := locations[..|locations| - 1];
      var last := Add(locations[|locations| - 1], offset);
      StampedCells(height, width, tiles, front, offset, t, c);
      if last != c {
        if Index(height, width, last) == Index(height, width, c) {
          IndexInjective(height, width, last, c);
        }
        if exists j :: 0 <= j < |locations| && Add(locations[j], offset) == c {
          var j :| 0 <= j < |locations| && Add(locations[j], offset) == c;
          assert front[j] == locations[j];
        }
      } else {
        assert Add(locations[|locations| - 1], offset) == c;
      }
    }
  }

  /** Stamping one more location writes the tile at that location's cell on top of the earlier stamp. */
  lemma StampedStep(height: U16, width: U16, tiles: seq<Tile>, locations: seq<Coordinate>, offset: Coordinate, t: Tile, k: nat)
    requires |tiles| == height * width && k < |locations|
    requires forall j :: 0 <= j <= k ==>
      CanAdd(locations[j], offset) && InGrid(height, width, Add(locations[j], offset))
    ensures Stamped(height, width, tiles, locations[..k + 1], offset, t)
         == Stamped(height, width, tiles, locations[..k], offset, t)[Index(height, width, Add(locations[k], offset)) := t]
  {
    assert locations[..k + 1][..k] == locations[..k];
  }

  /** A shape that ends on its maximal corner fits on the board as soon as that corner does. */
  lemma MaximalCornerBoundsAll(height: U16, width: U16, shape: Shape, offset: Coordinate)
    requires |shape.locations| > 0
    requires forall j :: 0 <= j < |shape.locations| ==> CanAdd(shape.locations[j], offset)
    ensures LastIsMaximalCorner(shape) &&
            InGrid(height, width, Add(shape.locations[|shape.locations| - 1], offset)) ==>
      forall j :: 0 <= j < |shape.locations| ==> InGrid(height, width, Add(shape.locations[j], offset))
  {
  }

  /**
   * Stamping a rectangle whose far corner lies on the board sets exactly the
   * cells from `offset` to `offset + size - 1` and leaves every other cell.
   */
  lemma RectangleStamp(height: U16, width: U16, tiles: seq<Tile>, shapeType: ShapeType, offset: Coordinate, t: Tile, c: Coordinate)
    requires |tiles| == height * width && InGrid(height, width, c)
    requires SizeFits(shapeType)
    requires forall j :: 0 <= j < |NewShape(shapeType).locations| ==>
      CanAdd(NewShape(shapeType).locations[j], offset) &&
      InGrid(height, width, Add(NewShape(shapeType).locations[j], offset))
    ensures Stamped(height, width, tiles, NewShape(shapeType).locations, offset, t)[Index(height, width, c)]
         == if offset.x <= c.x < offset.x + shapeType.size.x && offset.y <= c.y < offset.y + shapeType.size.y
            then t else tiles[Index(height, width, c)]
  {
    var locations := NewShape(shapeType).locations;
    StampedCells(height, width, tiles, locations, offset, t, c);
    if offset.x <= c.x < offset.x + shapeType.size.x && offset.y <= c.y < offset.y + shapeType.size.y {
      var l := Coordinate(c.x - offset.x, c.y - offset.y);
      RectangleCovers(shapeType, l);
      var j :| 0 <= j < |locations| && locations[j] == l;
      assert Add(locations[j], offset) == c;
    }
  }

  /**
   * The board: `game_board` and `adjacent_cache` are vectors of `height * width`
   * entries that are written in place and never resized. The unused turn
   * counters are not modelled.
   */
  class GameData {
    const height: U16
    const width: U16
    const board: array<Tile>
    const cache: array<Option<AdjacentData>>

    ghost predicate WellSized()
      reads board, cache
    {
      BoardFits(height, width) && board.Length == height * width && cache.Length == height * width
    }

    /** The object invariant: sizes agree, and every cached record is up to date. */
    ghost predicate Valid()
      reads board, cache
    {
      WellSized() && CacheSound(height, width, board[..], cache[..])
    }

    /** `preset_new`: a board over the given tiles with every cache entry absent. */
    constructor Preset(height: U16, width: U16, tiles: seq<Tile>)
      requires BoardFits(height, width)
      requires |tiles| == height * width
      ensures Valid() && fresh(board) && fresh(cache)
      ensures this.height == height && this.width == width
      ensures board[..] == tiles
      ensures forall i :: 0 <= i < cache.Length ==> cache[i].None?
    {
      this.height := height;
      this.width := width;
      board := new Tile[|tiles|](i requires 0 <= i < |tiles| => tiles[i]);
      cache := new Option<AdjacentData>[height * width](_ => None);
    }

    /**
     * `new`: every cell is a block whose colour is drawn from 0..=3; `draws`
     * holds the value the generator produced for each cell, in board order.
     */
    constructor New(height: U16, width: U16, draws: seq<int>)
      requires BoardFits(height, width)
      requires |draws| == height * width
      ensures Valid() && fresh(board) && fresh(cache)
      ensures this.height == height && this.width == width
      ensures forall i :: 0 <= i < board.Length ==> board[i] == Block(SampleColor(draws[i]))
      ensures forall i :: 0 <= i < cache.Length ==> cache[i].None?
    {
      this.height := height;
      this.width := width;
      board := new Tile[|draws|](i requires 0 <= i < |draws| => Block(SampleColor(draws[i])));
      cache := new Option<AdjacentData>[height * width](_ => None);
    }

    /** `get_cell`: the tile at the location, or the bounds error of `in_bounds`. */
    function GetCell(location: Coordinate): (r: Result<Tile, BoardError>)
      reads board, cache
      requires WellSized()
      ensures r.Ok? <==> InGrid(height, width, location)
      ensures r.Err? ==> InBounds(height, width, location) == Err(r.error)
      ensures r.Ok? ==> r.value == board[Index(height, width, location)]
    {
      Lookup(height, width, board[..], location)
    }

    /** `get_adjacency_status`: the cache entry of the location, or the bounds error of `in_bounds`. */
    function GetAdjacencyStatus(location: Coordinate): (r: Result<Option<AdjacentData>, BoardError>)
      reads board, cache
      requires WellSized()
      ensures r.Ok? <==> InGrid(height, width, location)
      ensures r.Err? ==> InBounds(height, width, location) == Err(r.error)
      ensures r.Ok? ==> r.value == cache[Index(height, width, location)]
    {
      Lookup(height, width, cache[..], location)
    }

    /** `adjacent_cache_is_dirty`: some cache entry is absent. */
    function AdjacentCacheIsDirty(): (r: bool)
      reads cache
      ensures r <==> exists i :: 0 <= i < cache.Length && cache[i].None?
    {
      HasAbsent(cache[..])
    }

    /** `reset_adjacent_cache`: every entry becomes absent; the tiles stay. */
    method ResetAdjacentCache()
      requires Valid()
      modifies cache
      ensures Valid()
      ensures forall i :: 0 <= i < cache.Length ==> cache[i].None?
    {
      forall i | 0 <= i < cache.Length {
        cache[i] := None;
      }
    }

    /**
     * `update_adjacent_cache`: walk `all_cords` with its enumeration index,
     * keep every entry that is present, and store the recomputed record for
     * every absent one. The `?` inside never fires, so the result is `Ok`.
     */
    method UpdateAdjacentCache() returns (r: Result<(), BoardError>)
      requires Valid()
      modifies cache
      ensures Valid()
      ensures r == Ok(())
      ensures forall i :: 0 <= i < cache.Length && old(cache[i]).Some? ==> cache[i] == old(cache[i])
      ensures cache[..] == ExpectedCache(height, width, board[..])
    {
      ghost var before := cache[..];
      ghost var tiles := board[..];
      ghost var expected := ExpectedCache(height, width, tiles);
      var coords := AllCoords(height, width);
      var index := 0;
      while index < |coords|
        invariant 0 <= index <= |coords| == cache.Length
        invariant board[..] == tiles
        invariant forall i :: 0 <= i < index ==> cache[i] == expected[i]
        invariant forall i :: index <= i < cache.Length ==> cache[i] == before[i]
      {
        RefreshEntry(index, coords[index]);
        index := index + 1;
      }
      r := Ok(());
      assert cache[..] == expected;
      ExpectedCacheIsSound(height, width, tiles);
    }

    /**
     * One step of the `update_adjacent_cache` loop: the entry at `index`, whose
     * coordinate is `top`, is kept when present and recomputed when absent.
     */
    method RefreshEntry(index: nat, top: Coordinate)
      requires WellSized() && index < cache.Length && top == AllCoords(height, width)[index]
      requires cache[index].Some? ==> cache[index] == Some(ExpectedEntry(height, width, board[..], top))
      modifies cache
      ensures cache[..] == old(cache[..])[index := Some(ExpectedEntry(height, width, board[..], top))]
    {
      var status := GetAdjacencyStatus(top).value;
      if status.None? {
        var entry := ComputeEntry(height, width, board[..], top);
        cache[index] := Some(entry);
      }
    }

    /**
     * The invalidation step of `set_cell`: clear the entry of `location`, then
     * the entry of each neighbour `adjacent()` yields that is on the board.
     */
    method InvalidateAround(location: Coordinate, locationIndex: nat)
      requires WellSized() && InGrid(height, width, location)
      requires locationIndex == Index(height, width, location)
      modifies cache
      ensures forall i :: 0 <= i < cache.Length ==>
        cache[i] == if i in Invalidated(height, width, location, 4) then None else old(cache[i])
    {
      cache[locationIndex] := None;
      var neighbours := Adjacent(location);
      var d := 0;
      while d < 4
        invariant 0 <= d <= 4
        invariant forall i :: 0 <= i < cache.Length ==>
          cache[i] == if i in Invalidated(height, width, location, d) then None else old(cache[i])
      {
        match neighbours[d] {
          case None =>
          case Some(adjacentLocation) =>
            if InBounds(height, width, adjacentLocation).Ok? {
              var adjacentIndex := CoordinatesToIndex(height, width, adjacentLocation).value;
              cache[adjacentIndex] := None;
            }
        }
        d := d + 1;
      }
    }

    /**
     * `set_cell`: on a bounds error nothing changes; otherwise the cache entries
     * of the cell and of its on-board neighbours are cleared, the tile is
     * written and the cache is brought up to date again.
     */
    method SetCell(location: Coordinate, tile: Tile) returns (r: Result<(), BoardError>)
      requires Valid()
      modifies board, cache
      ensures Valid()
      ensures r == InBounds(height, width, location)
      ensures r.Err? ==> board[..] == old(board[..]) && cache[..] == old(cache[..])
      ensures r.Ok? ==> board[..] == old(board[..])[Index(height, width, location) := tile]
      ensures r.Ok? ==> cache[..] == ExpectedCache(height, width, board[..]) && !AdjacentCacheIsDirty()
      ensures r.Ok? ==> GetCell(location) == Ok(tile)
      ensures forall c :: c != location ==> GetCell(c) == old(GetCell(c))
    {
      var index := CoordinatesToIndex(height, width, location);
      if index.Err? {
        r := Err(index.error);
        return;
      }
      var locationIndex := index.value;
      InvalidateAround(location, locationIndex);
      ghost var tilesBefore := board[..];
      board[locationIndex] := tile;
      assert board[..] == tilesBefore[locationIndex := tile];
      forall i | 0 <= i < cache.Length && cache[i].Some?
        ensures cache[i] == Some(ExpectedEntry(height, width, board[..], AllCoords(height, width)[i]))
      {
        WriteKeepsOtherEntries(height, width, tilesBefore, location, tile, i);
      }
      r := UpdateAdjacentCache();
      forall c
        ensures GetCell(c) == if c == location then Ok(tile) else old(GetCell(c))
      {
        LookupAfterWrite(height, width, tilesBefore, location, tile, c);
      }
    }

    /**
     * `apply_shape`: only `offset + last location` is bounds-checked before
     * anything is written; then `set_cell` runs at `location + offset` for
     * every location in order, and its first error ends the stamp.
     */
    method ApplyShape(shape: Shape, offset: Coordinate, tile: Tile) returns (r: Result<(), BoardError>)
      requires Valid()
      requires |shape.locations| > 0
      requires forall j :: 0 <= j < |shape.locations| ==> CanAdd(shape.locations[j], offset)
      modifies board, cache
      ensures Valid()
      ensures InBounds(height, width, Add(shape.locations[|shape.locations| - 1], offset)).Err? ==>
        r == InBounds(height, width, Add(shape.locations[|shape.locations| - 1], offset)) &&
        board[..] == old(board[..]) && cache[..] == old(cache[..])
      ensures r.Ok? ==>
        (forall j :: 0 <= j < |shape.locations| ==> InGrid(height, width, Add(shape.locations[j], offset))) &&
        board[..] == Stamped(height, width, old(board[..]), shape.locations, offset, tile) &&
        cache[..] == ExpectedCache(height, width, board[..])
      ensures r.Err? && InBounds(height, width, Add(shape.locations[|shape.locations| - 1], offset)).Ok? ==>
        exists k :: 0 <= k < |shape.locations| &&
          r == InBounds(height, width, Add(shape.locations[k], offset)) &&
          (forall j :: 0 <= j < k ==> InGrid(height, width, Add(shape.locations[j], offset))) &&
          board[..] == Stamped(height, width, old(board[..]), shape.locations[..k], offset, tile) &&
          (k == 0 ==> cache[..] == old(cache[..])) &&
          (k > 0 ==> cache[..] == ExpectedCache(height, width, board[..]))
      ensures (LastIsMaximalCorner(shape) &&
               InBounds(height, width, Add(shape.locations[|shape.locations| - 1], offset)).Ok?) ==> r.Ok?
    {
      var locations := shape.locations;
      var last := locations[|locations| - 1];
      AddSubInverse(last, offset);
      r := InBounds(height, width, Add(offset, last));
      if r.Err? {
        return;
      }
      MaximalCornerBoundsAll(height, width, shape, offset);
      r := StampLocations(locations, offset, tile);
    }

    /**
     * The stamp loop of `apply_shape`: `set_cell` at `location + offset` for
     * every location in order, stopping at the first error.
     */
    method StampLocations(locations: seq<Coordinate>, offset: Coordinate, tile: Tile) returns (r: Result<(), BoardError>)
      requires Valid()
      requires |locations| > 0
      requires forall j :: 0 <= j < |locations| ==> CanAdd(locations[j], offset)
      modifies board, cache
      ensures Valid()
      ensures r.Ok? ==>
        (forall j :: 0 <= j < |locations| ==> InGrid(height, width, Add(locations[j], offset))) &&
        board[..] == Stamped(height, width, old(board[..]), locations, offset, tile) &&
        cache[..] == ExpectedCache(height, width, board[..])
      ensures r.Err? ==>
        exists k :: 0 <= k < |locations| &&
          r == InBounds(height, width, Add(locations[k], offset)) &&
          (forall j :: 0 <= j < k ==> InGrid(height, width, Add(locations[j], offset))) &&
          board[..] == Stamped(height, width, old(board[..]), locations[..k], offset, tile) &&
          (k == 0 ==> cache[..] == old(cache[..])) &&
          (k > 0 ==> cache[..] == ExpectedCache(height, width, board[..]))
      ensures (forall j :: 0 <= j < |locations| ==> InGrid(height, width, Add(locations[j], offset))) ==> r.Ok?
    {
      r := Ok(());
      ghost var tiles := board[..];
      var k := 0;
      while k < |locations|
        invariant 0 <= k <= |locations|
        invariant Valid()
        invariant r == Ok(())
        invariant forall j :: 0 <= j < k ==> InGrid(height, width, Add(locations[j], offset))
        invariant board[..] == Stamped(height, width, tiles, locations[..k], offset, tile)
        invariant k == 0 ==> cache[..] == old(cache[..])
        invariant k > 0 ==> cache[..] == ExpectedCache(height, width, board[..])
      {
        var location := Add(locations[k], offset);
        ghost var cacheBefore := cache[..];
        r := SetCell(location, tile);
        if r.Err? {
          assert r == InBounds(height, width, Add(locations[k], offset));
          assert cache[..] == cacheBefore;
          return;
        }
        StampedStep(height, width, tiles, locations, offset, tile, k);
        k := k + 1;
      }
      assert locations[..k] == locations;
    }
  }
}
