/**
 * The text forms of colours and pieces: `Display for Color`, and the
 * glyph table of `Display for Piece` with its inverse `FromStr for Piece`.
 */
module Display {
  import opened Wrappers
  import opened ChessBoard
  import opened Text

  /** `Display for Color` */
  function ColorName(c: Color): string {
    match c
    case White => "White"
    case Black => "Black"
  }

  /** The two colour names differ. */
  lemma ColorNamesDistinct(c: Color, d: Color)
    ensures ColorName(c) == ColorName(d) ==> c == d
  {
  }

  /** `Display for Piece`: the chess symbols of Unicode's Miscellaneous Symbols block. */
  function Glyph(p: Piece): (s: string)
    ensures |s| == 1 && !IsWhitespace(s[0])
  {
    match p
    case Piece(Pawn, White) => "\U{2659}"
    case Piece(Pawn, Black) => "\U{265F}"
    case Piece(Rook, White) => "\U{2656}"
    case Piece(Rook, Black) => "\U{265C}"
    case Piece(Knight, White) => "\U{2658}"
    case Piece(Knight, Black) => "\U{265E}"
    case Piece(Bishop, White) => "\U{2657}"
    case Piece(Bishop, Black) => "\U{265D}"
    case Piece(Queen, White) => "\U{2655}"
    case Piece(Queen, Black) => "\U{265B}"
    case Piece(King, White) => "\U{2654}"
    case Piece(King, Black) => "\U{265A}"
  }

  /** No two pieces share a glyph. */
  lemma GlyphInjective(p: Piece, q: Piece)
    ensures Glyph(p) == Glyph(q) ==> p == q
  {
  }

  /** The single error of `FromStr for Piece`. */
  datatype PieceError = UnrecognizedPiece

  /** The piece whose glyph is `t`, if any; every glyph is a single character. */
  function FromGlyph(t: string): Option<Piece> {
    if |t| != 1 then None
    else
      match t[0]
      case '\U{2659}' => Some(Piece(Pawn, White))
      case '\U{265F}' => Some(Piece(Pawn, Black))
      case '\U{2656}' => Some(Piece(Rook, White))
      case '\U{265C}' => Some(Piece(Rook, Black))
      case '\U{2658}' => Some(Piece(Knight, White))
      case '\U{265E}' => Some(Piece(Knight, Black))
      case '\U{2657}' => Some(Piece(Bishop, White))
      case '\U{265D}' => Some(Piece(Bishop, Black))
      case '\U{2655}' => Some(Piece(Queen, White))
      case '\U{265B}' => Some(Piece(Queen, Black))
      case '\U{2654}' => Some(Piece(King, White))
      case '\U{265A}' => Some(Piece(King, Black))
      case _ => None
  }

  /**
   * `FromStr for Piece`: the string, trimmed, must be one of the twelve
   * glyphs; the piece returned is the one with that glyph.
   */
  function ParsePiece(s: string): Result<Piece, PieceError> {
    match FromGlyph(Trim(s))
    case Some(p) => Ok(p)
    case None => Err(UnrecognizedPiece)
  }

  /** A string parses to the piece whose glyph it is once trimmed, and is an error when it is no piece's glyph. */
  lemma ParsePieceGlyph(s: string)
    ensures ParsePiece(s).Ok? ==> Glyph(ParsePiece(s).value) == Trim(s)
    ensures ParsePiece(s).Err? ==> forall p :: Glyph(p) != Trim(s)
  {
  }

  /** Every piece's glyph parses back to the piece, also with whitespace around it. */
  lemma ParseGlyph(p: Piece, before: string, after: string)
    requires AllWhitespace(before) && AllWhitespace(after)
    ensures ParsePiece(Glyph(p)) == Ok(p)
    ensures ParsePiece(before + Glyph(p) + after) == Ok(p)
  {
    TrimUnpadded(Glyph(p));
    TrimPadded(before, Glyph(p), after);
    GlyphInjective(p, ParsePiece(Glyph(p)).value);
    GlyphInjective(p, ParsePiece(before + Glyph(p) + after).value);
  }

  /** The underscore the board display uses for an empty square is not a piece. */
  lemma PlaceholderIsNoPiece()
    ensures ParsePiece("_").Err?
  {
    TrimUnpadded("_");
    assert Trim("_")[0] == '_';
  }
}
