/**
 * The marker choice of `draw_info`: which characters stand between two cells
 * of a row and between two rows, chosen from the adjacency cache. The
 * printing itself is not modelled.
 */
module Markers {
  import opened Wrappers
  import opened Coordinates
  import opened Tiles
  import opened GameBoard

  /** One side of a cell: an unknown direction is "|", same is "=", different is ":". */
  function SideMarker(state: Option<bool>): (m: string)
    ensures m == "|" <==> state.None?
    ensures m == "=" <==> state == Some(true)
    ensures m == ":" <==> state == Some(false)
  {
    match state
    case None => "|"
    case Some(true) => "="
    case Some(false) => ":"
  }

  /**
   * The (left, right) markers printed around a cell. The source spells out
   * all nine (left, right) combinations; they are the side markers of the two
   * directions taken independently. An absent entry gives "X" on both sides.
   */
  function HorizontalMarkers(entry: Option<AdjacentData>): (r: (string, string))
    ensures entry.None? ==> r == ("X", "X")
    ensures entry.Some? ==> r == (SideMarker(entry.value.left), SideMarker(entry.value.right))
  {
    match entry
    case Some(data) => (
      match (data.left, data.right)
      case (None, None) => ("|", "|")
      case (None, Some(true)) => ("|", "=")
      case (None, Some(false)) => ("|", ":")
      case (Some(true), None) => ("=", "|")
      case (Some(false), None) => (":", "|")
      case (Some(true), Some(true)) => ("=", "=")
      case (Some(false), Some(true)) => (":", "=")
      case (Some(true), Some(false)) => ("=", ":")
      case (Some(false), Some(false)) => (":", ":"))
    case None => ("X", "X")
  }

  /** One direction between rows: same is "|", different is ":", and an unknown direction panics (`None` here). */
  function StateMarker(state: Option<bool>): (m: Option<string>)
    ensures m.None? <==> state.None?
    ensures m == Some("|") <==> state == Some(true)
    ensures m == Some(":") <==> state == Some(false)
  {
    match state
    case Some(true) => Some("|")
    case Some(false) => Some(":")
    case None => None
  }

  /** The upper cell's half of a between-rows marker: its `down` state, or "X" for an absent entry. */
  function UpperMarker(entry: Option<AdjacentData>): (m: Option<string>)
    ensures m.None? <==> entry.Some? && entry.value.down.None?
    ensures m == Some("X") <==> entry.None?
    ensures entry.Some? ==> m == StateMarker(entry.value.down)
  {
    match entry
    case Some(data) => StateMarker(data.down)
    case None => Some("X")
  }

  /** The lower cell's half of a between-rows marker: its `up` state, or "X" for an absent entry. */
  function LowerMarker(entry: Option<AdjacentData>): (m: Option<string>)
    ensures m.None? <==> entry.Some? && entry.value.up.None?
    ensures m == Some("X") <==> entry.None?
    ensures entry.Some? ==> m == StateMarker(entry.value.up)
  {
    match entry
    case Some(data) => StateMarker(data.up)
    case None => Some("X")
  }

  /**
   * Over an up-to-date cache the info view never panics and never falls back:
   * no entry is absent ("X") and no direction is unknown ("|" at the sides).
   */
  lemma UpToDateCacheRendersFully(height: U16, width: U16, tiles: seq<Tile>, i: nat)
    requires BoardFits(height, width) && |tiles| == height * width && i < height * width
    ensures var entry := ExpectedCache(height, width, tiles)[i];
      UpperMarker(entry).Some? && UpperMarker(entry) != Some("X") &&
      LowerMarker(entry).Some? && LowerMarker(entry) != Some("X") &&
      HorizontalMarkers(entry).0 in {"=", ":"} && HorizontalMarkers(entry).1 in {"=", ":"}
  {
  }

  /**
   * Two cells side by side print matching markers at their common border:
   * the right marker of the left cell equals the left marker of the right cell.
   */
  lemma {:induction false} HorizontalMarkersAgree(height: U16, width: U16, tiles: seq<Tile>, c: Coordinate)
    requires BoardFits(height, width) && |tiles| == height * width
    requires c.x + 1 < width && c.y < height
    ensures var cache := ExpectedCache(height, width, tiles);
      HorizontalMarkers(cache[Index(height, width, c)]).1
      == HorizontalMarkers(cache[Index(height, width, Coordinate(c.x + 1, c.y))]).0
  {
    var n := Coordinate(c.x + 1, c.y);
    AllCoordsCovers(height, width, c);
    AllCoordsCovers(height, width, n);
    SameNeighbourSymmetric(height, width, tiles, c, 1, n);
  }

  /**
   * The two halves of a between-rows marker agree: the upper cell's `down`
   * and the lower cell's `up` describe the same pair of cells.
   */
  lemma {:induction false} VerticalMarkersAgree(height: U16, width: U16, tiles: seq<Tile>, c: Coordinate)
    requires BoardFits(height, width) && |tiles| == height * width
    requires c.x < width && 0 < c.y < height
    ensures var cache := ExpectedCache(height, width, tiles);
      UpperMarker(cache[Index(height, width, c)])
      == LowerMarker(cache[Index(height, width, Coordinate(c.x, c.y - 1))])
  {
    var n := Coordinate(c.x, c.y - 1);
    AllCoordsCovers(height, width, c);
    AllCoordsCovers(height, width, n);
    SameNeighbourSymmetric(height, width, tiles, c, 2, n);
  }
}
