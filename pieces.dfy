/** Pieces of kingdom_chess: `PieceType`, `Color`, `Piece`. */
module Pieces {
  import opened Common

  datatype PieceType = King | Queen | Rook | Bishop | Knight | Pawn

  /** `PromotionTarget`: the piece types a pawn may become. */
  type PromotionTarget = t: PieceType | t.Queen? || t.Rook? || t.Bishop? || t.Knight? witness Queen

  datatype Color = White | Black

  /** `Color.opposite`. */
  function Opposite(c: Color): (r: Color)
    ensures r != c
  {
    if c == White then Black else White
  }

  lemma OppositeInvolutive(c: Color)
    ensures Opposite(Opposite(c)) == c
  {
  }

  datatype Piece = Piece(typ: PieceType, color: Color)

  /** The lower-case letter naming a piece type in move notation. */
  function Letter(t: PieceType): char {
    match t
    case King => 'k'
    case Queen => 'q'
    case Rook => 'r'
    case Bishop => 'b'
    case Knight => 'n'
    case Pawn => 'p'
  }

  /** Upper-case ASCII letter of a lower-case one. */
  function Upper(c: char): char
    requires 'a' <= c <= 'z'
  {
    (c as int - 32) as char
  }

  /**
   * Characters whose Python `str.lower()` is the one-character string
   * `[Letter(t)]`: the letter, its capital, and for the king also
   * U+212A KELVIN SIGN, which Python lower-cases to "k".
   */
  predicate LowersTo(c: char, t: PieceType) {
    c == Letter(t) || c == Upper(Letter(t)) || (t == King && c == '\U{212A}')
  }

  /**
   * `PieceType.from_char`: match on `char.lower()`; anything else raises
   * ValueError(char). A string of two or more characters never lowers to
   * a single character, so only one-character strings are accepted.
   */
  function FromChar(s: string): (r: Result<PieceType, string>)
    ensures r.Ok? <==> |s| == 1 && exists t :: LowersTo(s[0], t)
    ensures r.Ok? ==> LowersTo(s[0], r.value)
    ensures r.Err? ==> r.error == s
  {
    if |s| != 1 then Err(s)
    else
      var c := s[0];
      if c == 'k' || c == 'K' || c == '\U{212A}' then
        assert LowersTo(c, King);
        Ok(King)
      else if c == 'q' || c == 'Q' then
        assert LowersTo(c, Queen);
        Ok(Queen)
      else if c == 'r' || c == 'R' then
        assert LowersTo(c, Rook);
        Ok(Rook)
      else if c == 'b' || c == 'B' then
        assert LowersTo(c, Bishop);
        Ok(Bishop)
      else if c == 'n' || c == 'N' then
        assert LowersTo(c, Knight);
        Ok(Knight)
      else if c == 'p' || c == 'P' then
        assert LowersTo(c, Pawn);
        Ok(Pawn)
      else
        assert forall t :: !LowersTo(c, t);
        Err(s)
  }

  /** The notation letter of every piece type maps back to it. */
  lemma FromCharOfLetter(t: PieceType)
    ensures FromChar([Letter(t)]) == Ok(t)
    ensures FromChar([Upper(Letter(t))]) == Ok(t)
  {
  }
}
