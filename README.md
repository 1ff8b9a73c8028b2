# blockconnector board model in Dafny

This project models the board core of blockconnector, a terminal game played on a
rectangular grid of coloured tiles:

- `Cordinate` is a pair of `u16` positions. It computes its four neighbours with
  checked arithmetic, and offsets a location by plain addition.
- `Shape` is a list of relative locations built from a `ShapeType`. The only kind
  is a solid rectangle.
- `GameData` holds a flat row-major vector of tiles and an index-aligned
  adjacency cache, with one optional `AdjacentData` record per cell. It offers
  bounds-checked `get_cell`/`set_cell`. A write clears the cache entries of the
  written cell and of its on-board neighbours, then recomputes every absent entry.
  `apply_shape` checks only the shape's last location and then writes every
  covered cell.
- `TileTypes` is the closed set of cell contents. The module also holds the
  colour drawn for a new block and what the `Display` implementation can render.
- `draw_info` picks border markers from the cache. Only that choice is modelled.

Files:

- `wrappers.dfy`: Option and Result.
- `tiles.dfy`: tiles, colours, colour sampling and glyphs.
- `coordinates.dfy`: coordinates, neighbours, `Add` and `Sub`.
- `enumeration.dfy`: the `cartesian_product` enumeration shared by `all_cords` and `Shape::new`.
- `shapes.dfy`: shapes.
- `game_board.dfy`: the `GameData` class and the specification of its cache.
- `markers.dfy`: the marker tables of `draw_info`.

`GameData` is a class whose two vectors are arrays. Its arrays are written in
place and never resized. Its invariant `Valid()` says three things:

- both arrays have `height * width` entries;
- `height * width` fits in a `u16`;
- every cache entry that is present equals the record the current tiles call for.

`update_adjacent_cache` fills every absent entry. So after every successful
`set_cell` and `apply_shape`, the cache equals `ExpectedCache`:

- it is complete, so `adjacent_cache_is_dirty` is false;
- no direction is `None`, so the panics at `src/game_board.rs:286` and `:296` in
  `draw_info` cannot fire (`UpToDateCacheRendersFully`).

The only panic in `update_adjacent_cache`, the `_ => panic!` arm at
`src/game_board.rs:224`, cannot fire for a different reason, whatever the cache
holds: `Adjacent` has exactly four entries, so the direction index is at most 3.

Random initialisation becomes a parameter: `GameData.New` takes the integer the
generator drew for each cell. `get_cell` and `get_adjacency_status` are both
`Lookup` on the corresponding vector.

Facts about the code that shape the model:

- The tile type has exactly the three variants of `src/tiles.rs:6-10`. The
  names `Gap` and `Empty` used at `src/game_loop.rs:15,17` do not exist there,
  and that file is not part of this model.
- `TileTypes` derives only `Clone` and `Copy`, yet `src/game_board.rs:216`
  compares tiles with `!=`. The model compares tiles by value.
- The only board error is `BoundsError { limit, exception }` (`src/game_board.rs:13-17`).
- Each direction of a cached record is an `Option<bool>` (`src/game_board.rs:27-33`).
  The update never stores `None` there, which `UpToDateCacheRendersFully` shows.

## Model

| member | source | states |
|---|---|---|
| `Tiles.DefaultTile` | src/tiles.rs:26-30 | the default tile is a blue block, and it is renderable |
| `Tiles.SampleColor` | src/tiles.rs:49-54 | the draw 0 alone gives Red, 1 alone Green, 2 alone Blue, and every other value (the wildcard arm) gives Yellow |
| `Tiles.ColorIndex` | src/tiles.rs:47-56 | every colour is drawn by exactly one value in 0..=3 (Red 0, Green 1, Blue 2, Yellow 3), so the draw is onto the four colours |
| `Tiles.SampleColorBijective` | src/tiles.rs:49-54 | on 0..=3 the sampling arms are injective and `ColorIndex` inverts them |
| `Tiles.Render` | src/tiles.rs:32-45 | rendering fails exactly for a firework; a disco ball is "*"; a block is its colour's background followed by "[]"; every rendered glyph reads back as its tile |
| `Tiles.RenderInjective` | src/tiles.rs:34-42 | two renderable tiles with the same glyph are the same tile |
| `Coordinates.CheckedAddSigned` | src/game_board.rs:51-55 | the step succeeds exactly when both components stay within 0..=0xFFFF, and then moves by exactly (dx, dy) |
| `Coordinates.CheckedAddSignedInverse` | src/game_board.rs:51-55 | stepping back by the negated offset returns to the start |
| `Coordinates.Adjacent` | src/game_board.rs:57-64 | exactly four neighbours, in the order up (x, y+1), right (x+1, y), down (x, y-1), left (x-1, y) |
| `Coordinates.AdjacentMissingOnlyOnOverflow` | src/game_board.rs:51-64 | a neighbour is missing only on `u16` under- or overflow, never because of a board; a present one is at Manhattan distance 1 |
| `Coordinates.AdjacentSymmetric` | src/game_board.rs:57-64 | if n is c's neighbour in direction d, then c is n's neighbour in the opposite direction |
| `Coordinates.Add` | src/game_board.rs:67-75 | the component-wise sum is at least each operand, and subtracting either operand gives back the other |
| `Coordinates.Sub` | src/game_board.rs:77-85 | the component-wise difference `r` of `a - b` is the coordinate with `r + b == a` |
| `Coordinates.AddSubInverse` | src/game_board.rs:67-85 | `Add` is commutative and subtracting either operand from the sum gives the other, within the no-overflow precondition |
| `Enumeration.CartesianProduct` | src/game_board.rs:93-95 | n*m pairs in range, outer component first, pair i being the one with i = a*m + b |
| `Enumeration.CartesianProductCovers` | src/game_board.rs:185-187 | every pair in range occurs, at position a*m + b |
| `Enumeration.CartesianProductLast` | src/game_board.rs:93-95 | a non-empty product ends on (n-1, m-1) |
| `Shapes.NewShape` | src/game_board.rs:88-99 | a rectangle stamp has size.x*size.y locations inside the rectangle, x outer and y inner |
| `Shapes.RectangleDistinct` | src/game_board.rs:93-95 | no location is listed twice |
| `Shapes.RectangleCovers` | src/game_board.rs:93-95 | every cell of the rectangle is listed |
| `Shapes.RectangleEndsOnCorner` | src/game_board.rs:88-99 | with both sides positive, the last location is (size.x-1, size.y-1) and bounds every location: the order `apply_shape` relies on |
| `GameBoard.InBounds` | src/game_board.rs:132-146 | Ok exactly on the board; x is checked first, giving `{limit: width, exception: x}`, then y, giving `{limit: height, exception: y}` |
| `GameBoard.InBoundsChecksWidthFirst` | src/game_board.rs:132-146 | on a 4x4 board, (8, 8) fails with `{4, 8}` |
| `GameBoard.Index` | src/game_board.rs:150 | the row-major position of an on-board coordinate is below height*width |
| `GameBoard.IndexInjective` | src/game_board.rs:148-151 | distinct on-board coordinates have distinct positions |
| `GameBoard.AllCoords` | src/game_board.rs:182-189 | height*width on-board coordinates, y-major and x-minor, element i having position i (why the cache can be written at the enumeration index) |
| `GameBoard.AllCoordsCovers` | src/game_board.rs:182-189 | every on-board coordinate is listed, at its own position |
| `GameBoard.InBoundsIffListed` | src/game_board.rs:132-146 | `in_bounds` succeeds exactly on the coordinates `all_cords` lists |
| `GameBoard.CoordinatesToIndex` | src/game_board.rs:148-151 | fails with the bounds error of `in_bounds`, else yields a position below height*width whose listed coordinate is the input |
| `GameBoard.Lookup` | src/game_board.rs:153-155 | `get_cell` / `get_adjacency_status`: Ok exactly on the board, the bounds error otherwise, and the entry at the coordinate's position |
| `GameBoard.LookupAfterWrite` | src/game_board.rs:157-173 | after writing t at p, reading p gives t and reading any other coordinate gives what it gave before |
| `GameBoard.LookupOrigin` | src/test.rs:20-27 | on any non-empty board, reading `(0, 0)` returns the first tile of the vector |
| `GameBoard.SameNeighbourSymmetric` | src/game_board.rs:207-226 | the two cells of a neighbouring pair record the same "same/different" state for each other |
| `GameBoard.ExpectedCacheIsSound` | src/game_board.rs:191-193 | an up-to-date cache has no absent entry |
| `GameBoard.HasAbsent` | src/game_board.rs:191-193 | `any(is_none)`: true exactly when some entry is absent |
| `GameBoard.ComputeEntry` | src/game_board.rs:205-226 | the record built for a cell has direction d `Some(true)` exactly when the d-th neighbour exists, is on the board and holds an equal tile, and `Some(false)` otherwise |
| `GameBoard.InvalidatedCoversNeighbour` | src/game_board.rs:164-169 | every on-board neighbour of the written cell has its entry cleared |
| `GameBoard.NeighbourOfWrittenIsInvalidated` | src/game_board.rs:163-169 | a cell that has the written cell as a neighbour is itself cleared |
| `GameBoard.SameNeighbourUnaffected` | src/game_board.rs:163-170 | for a cell that is not cleared, each direction compares the same tiles before and after the write |
| `GameBoard.WriteKeepsOtherEntries` | src/game_board.rs:163-171 | every cache entry a write does not clear stays correct for the new tiles |
| `GameBoard.StampedCells` | src/game_board.rs:332-335 | after the stamp loop, a cell holds the tile exactly when some location plus offset lands on it; every other cell is unchanged |
| `GameBoard.MaximalCornerBoundsAll` | src/game_board.rs:331 | for a shape ending on its maximal corner, an on-board corner puts every location on the board |
| `GameBoard.RectangleStamp` | src/game_board.rs:325-337 | stamping a rectangle sets exactly the cells from offset to offset + size - 1 and leaves all others |
| `GameBoard.GameData.Preset` | src/game_board.rs:120-130 | the board holds the given tiles, the cache has height*width entries, all absent |
| `GameBoard.GameData.New` | src/game_board.rs:103-115 | every cell is a block of the colour sampled from its draw; every cache entry is absent |
| `GameBoard.GameData.GetCell` | src/game_board.rs:153-155 | Ok exactly on the board, with the tile at the row-major position; otherwise the bounds error of `in_bounds` |
| `GameBoard.GameData.GetAdjacencyStatus` | src/game_board.rs:175-180 | Ok exactly on the board, with the cache entry at the row-major position; otherwise the bounds error of `in_bounds` |
| `GameBoard.GameData.AdjacentCacheIsDirty` | src/game_board.rs:191-193 | true exactly when some cache entry is absent |
| `GameBoard.GameData.ResetAdjacentCache` | src/game_board.rs:195-197 | every cache entry becomes absent; the tiles and the invariant are kept |
| `GameBoard.GameData.UpdateAdjacentCache` | src/game_board.rs:199-235 | present entries are kept; afterwards the cache is exactly the up-to-date cache for the tiles; the result is Ok |
| `GameBoard.GameData.RefreshEntry` | src/game_board.rs:200-232 | one loop step: a present entry stays, an absent one becomes the record its cell calls for, and no other entry changes |
| `GameBoard.GameData.InvalidateAround` | src/game_board.rs:163-169 | clears the entries of the cell and of its on-board neighbours and no others |
| `GameBoard.GameData.SetCell` | src/game_board.rs:157-173 | out of bounds: the bounds error and nothing changes; otherwise only that cell changes, `get_cell` there returns the new tile, the cache is complete and up to date, and `adjacent_cache_is_dirty` is false |
| `GameBoard.GameData.ApplyShape` | src/game_board.rs:325-337 | a last location off the board gives its bounds error with nothing changed; success stamps every location, with the cache up to date; a later failure leaves exactly the earlier locations stamped, with the cache untouched if the first write failed and up to date otherwise; a shape ending on its maximal corner never fails after the check |
| `GameBoard.GameData.StampLocations` | src/game_board.rs:332-336 | runs `set_cell` at every location plus offset in order: success stamps all of them with the cache up to date; the first failing location k gives its bounds error with exactly locations 0..k-1 stamped and the cache untouched (k = 0) or up to date; if every location lands on the board it succeeds |
| `Markers.SideMarker` | src/game_board.rs:254-272 | one side of a cell shows a bar exactly for an unknown direction, "=" exactly for same, ":" exactly for different |
| `Markers.StateMarker` | src/game_board.rs:283-287 | between rows, same gives a bar, different gives ":", and exactly an unknown direction panics |
| `Markers.UpperMarker` | src/game_board.rs:281-290 | the upper cell's half: "X" exactly for an absent entry, a panic exactly when its `down` is unknown, else the marker of `down` |
| `Markers.LowerMarker` | src/game_board.rs:291-300 | the lower cell's half: "X" exactly for an absent entry, a panic exactly when its `up` is unknown, else the marker of `up` |
| `Markers.HorizontalMarkers` | src/game_board.rs:254-272 | the nine-arm table is the pair of independent side markers of `left` and `right`; an absent entry gives ("X", "X") |
| `Markers.UpToDateCacheRendersFully` | src/game_board.rs:281-300 | over an up-to-date cache, no between-rows marker panics or shows "X", and no side marker is the unknown "|" |
| `Markers.HorizontalMarkersAgree` | src/game_board.rs:254-272 | two cells side by side print the same marker at their common border |
| `Markers.VerticalMarkersAgree` | src/game_board.rs:279-300 | the upper cell's `down` marker equals the lower cell's `up` marker |

## Left out

- Random generation is left out. `rand::random` and the `Distribution` plumbing become the `draws` parameter of `GameData.New`. Only the integer-to-colour mapping is modelled.
- Printing is left out, because it is standard-output I/O: `draw_raw`, `draw_board`, the row and column labels of `draw_info`, and the termion colour escapes. `Render` keeps only which colour's background precedes the text.
- `src/player_input.rs`, `src/game_loop.rs` and `src/main.rs` are left out. They are input history, start-up wiring and printing, with no board logic.
- The unused `_turn_number` and `_max_turns` fields are not modelled.
- `u16` overflow panics are preconditions, not wrap-around: `CanAdd` guards `Add`, `Sub` requires no underflow, `BoardFits` guards `height * width`, and `SizeFits` guards `size.x * size.y`. `x + y * width` cannot overflow once `BoardFits` holds.
- `GameBoard.GameData.Preset` requires `|tiles| == height * width`. `preset_new` does not check this, and the unit tests pass a one-element vector for an 8x8 board. Any access past index 0 of such a board panics.
- `GameBoard.GameData.ApplyShape` requires a non-empty shape, because `.last().unwrap()` panics on an empty one. It also requires every `location + offset` to be representable, because the additions panic otherwise.
- A firework's `todo!()` becomes the error result `Unimplemented` rather than an abort.
- The dead `?` and `unwrap` calls are not modelled as error paths, because none of them can fail. They are the neighbour index inside `set_cell`, the `get_adjacency_status(...).unwrap()` at `src/game_board.rs:201`, `get_cell` inside the cache update, and `update_adjacent_cache()?` in `set_cell`. The model reads the value directly.
