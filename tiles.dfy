/**
 * The tile values a board cell holds, the colour drawn for a freshly
 * generated block, and which tiles the `Display` implementation can render.
 */
module Tiles {
  import opened Wrappers

  datatype BlockColor = Red | Blue | Green | Yellow

  datatype Direction = Vertical | Horizontal

  /** The closed set of cell contents; equality is structural. */
  datatype Tile = Block(color: BlockColor) | Firework(direction: Direction) | DiscoBall

  /** `TileTypes::new`: the tile a board vector is pre-filled with. */
  function DefaultTile(): (t: Tile)
    ensures t.Block? && t.color == Blue
    ensures Render(t).Ok?
  {
    Block(Blue)
  }

  /**
   * The colour for the integer `rng.gen_range(0..=3)` produced. The arms are
   * not in declaration order (Green is drawn for 1, Blue for 2), and every
   * value that is not 0, 1 or 2 falls through to Yellow.
   */
  function SampleColor(n: int): (c: BlockColor)
    ensures c == Red <==> n == 0
    ensures c == Green <==> n == 1
    ensures c == Blue <==> n == 2
    ensures c == Yellow <==> n != 0 && n != 1 && n != 2
  {
    match n
    case 0 => Red
    case 1 => Green
    case 2 => Blue
    case _ => Yellow
  }

  /** The unique draw in 0..=3 that yields colour `c`. */
  function ColorIndex(c: BlockColor): (n: int)
    ensures 0 <= n <= 3
    ensures SampleColor(n) == c
  {
    match c
    case Red => 0
    case Green => 1
    case Blue => 2
    case Yellow => 3
  }

  /** On 0..=3 the sampling arms are a bijection onto the four colours. */
  lemma SampleColorBijective(n: int, m: int)
    requires 0 <= n <= 3 && 0 <= m <= 3
    ensures SampleColor(n) == SampleColor(m) ==> n == m
    ensures ColorIndex(SampleColor(n)) == n
  {
  }

  /** Why a tile cannot be displayed. */
  datatype RenderError = Unimplemented

  /**
   * What `Display` writes for a tile: an optional background-colour escape
   * (kept abstract: the colour it selects) followed by the visible text.
   */
  datatype Glyph = Glyph(background: Option<BlockColor>, text: string)

  /** Reads a glyph back as the tile that renders to it, if any. */
  function GlyphTile(g: Glyph): Option<Tile>
  {
    if g.background.None? && g.text == "*" then Some(DiscoBall)
    else if g.background.Some? && g.text == "[]" then Some(Block(g.background.value))
    else None
  }

  /**
   * `Display for TileTypes`: a disco ball is "*", a block is its colour's
   * background escape followed by "[]", and a firework is `todo!()`, which
   * aborts; here that is the error result.
   */
  function Render(t: Tile): (r: Result<Glyph, RenderError>)
    ensures r.Err? <==> t.Firework?
    ensures r.Ok? ==> GlyphTile(r.value) == Some(t)
    ensures t.DiscoBall? ==> r == Ok(Glyph(None, "*"))
    ensures t.Block? ==> r.Ok? && r.value.text == "[]" && r.value.background == Some(t.color)
  {
    match t
    case DiscoBall => Ok(Glyph(None, "*"))
    case Firework(_) => Err(Unimplemented)
    case Block(color) => Ok(Glyph(Some(color), "[]"))
  }

  /** Different renderable tiles never render the same way. */
  lemma RenderInjective(t: Tile, u: Tile)
    requires Render(t).Ok? && Render(t) == Render(u)
    ensures t == u
  {
    assert GlyphTile(Render(t).value) == Some(t);
  }
}
