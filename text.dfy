/**
 * The glyph tables `unicode_to_piece` / `piece_to_unicode` (identical in
 * kingdom_chess and chesspy) and the text helpers the board renderers and
 * parsers use: `str.split()`-style whitespace removal and `str.join`.
 */
module Text {
  import opened Common
  import opened Pieces

  const EmptyGlyph: char := '\U{22C5}'

  /**
   * `unicode_to_piece[c]`: the dot is an empty square, then the white and the
   * black pieces. None stands for the KeyError of a character not in the table.
   */
  function PieceOfGlyph(c: char): Option<Option<Piece>> {
    if c == '\U{22C5}' then Some(None)
    else if c == '\U{2654}' then Some(Some(Piece(King, White)))
    else if c == '\U{2655}' then Some(Some(Piece(Queen, White)))
    else if c == '\U{2656}' then Some(Some(Piece(Rook, White)))
    else if c == '\U{2657}' then Some(Some(Piece(Bishop, White)))
    else if c == '\U{2658}' then Some(Some(Piece(Knight, White)))
    else if c == '\U{2659}' then Some(Some(Piece(Pawn, White)))
    else if c == '\U{265A}' then Some(Some(Piece(King, Black)))
    else if c == '\U{265B}' then Some(Some(Piece(Queen, Black)))
    else if c == '\U{265C}' then Some(Some(Piece(Rook, Black)))
    else if c == '\U{265D}' then Some(Some(Piece(Bishop, Black)))
    else if c == '\U{265E}' then Some(Some(Piece(Knight, Black)))
    else if c == '\U{265F}' then Some(Some(Piece(Pawn, Black)))
    else None
  }

  /** `piece_to_unicode[element]`: the table above read backwards; every cell content has a glyph. */
  function GlyphOf(p: Option<Piece>): (c: char)
    ensures PieceOfGlyph(c) == Some(p)
  {
    match p
    case None => '\U{22C5}'
    case Some(Piece(King, White)) => '\U{2654}'
    case Some(Piece(Queen, White)) => '\U{2655}'
    case Some(Piece(Rook, White)) => '\U{2656}'
    case Some(Piece(Bishop, White)) => '\U{2657}'
    case Some(Piece(Knight, White)) => '\U{2658}'
    case Some(Piece(Pawn, White)) => '\U{2659}'
    case Some(Piece(King, Black)) => '\U{265A}'
    case Some(Piece(Queen, Black)) => '\U{265B}'
    case Some(Piece(Rook, Black)) => '\U{265C}'
    case Some(Piece(Bishop, Black)) => '\U{265D}'
    case Some(Piece(Knight, Black)) => '\U{265E}'
    case Some(Piece(Pawn, Black)) => '\U{265F}'
  }

  /** The inverted table is exact: a known glyph is the glyph of what it decodes to. */
  lemma GlyphOfPieceOfGlyph(c: char)
    requires PieceOfGlyph(c).Some?
    ensures GlyphOf(PieceOfGlyph(c).value) == c
  {
  }

  /** Characters that Python's `str.split()` treats as whitespace. */
  predicate IsWhitespace(c: char) {
    || ('\t' <= c <= '\r')
    || ('\U{1C}' <= c <= ' ')
    || c == '\U{85}' || c == '\U{A0}' || c == '\U{1680}'
    || ('\U{2000}' <= c <= '\U{200A}')
    || c == '\U{2028}' || c == '\U{2029}' || c == '\U{202F}' || c == '\U{205F}' || c == '\U{3000}'
  }

  /** No glyph is whitespace, so stripping whitespace keeps every glyph. */
  lemma GlyphsAreNotWhitespace(c: char)
    requires PieceOfGlyph(c).Some?
    ensures !IsWhitespace(c)
  {
  }

  /** `"".join(s.split())`: the characters of `s` that are not whitespace, in order. */
  function StripWhitespace(s: string): (r: string)
    ensures |r| <= |s|
    ensures forall i | 0 <= i < |r| :: !IsWhitespace(r[i])
    ensures (forall i | 0 <= i < |s| :: !IsWhitespace(s[i])) ==> r == s
    ensures (forall i | 0 <= i < |s| :: IsWhitespace(s[i])) ==> r == []
  {
    if s == [] then []
    else if IsWhitespace(s[0]) then StripWhitespace(s[1..])
    else [s[0]] + StripWhitespace(s[1..])
  }

  lemma {:induction false} StripWhitespaceAppend(a: string, b: string)
    ensures StripWhitespace(a + b) == StripWhitespace(a) + StripWhitespace(b)
  {
    if a == [] {
      assert a + b == b;
    } else {
      assert (a + b)[1..] == a[1..] + b;
      StripWhitespaceAppend(a[1..], b);
    }
  }

  /** `sep.join(parts)`. */
  function Join(sep: string, parts: seq<string>): string {
    if |parts| == 0 then ""
    else if |parts| == 1 then parts[0]
    else parts[0] + sep + Join(sep, parts[1..])
  }

  /** Where the i-th part starts in a join of parts that are each `width` long, with a one-character separator. */
  function BlockStart(width: nat, i: nat): nat {
    if i == 0 then 0 else BlockStart(width, i - 1) + width + 1
  }

  lemma {:induction false} BlockStartIs(width: nat, i: nat)
    ensures BlockStart(width, i) == (width + 1) * i
  {
    if i > 0 {
      BlockStartIs(width, i - 1);
    }
  }

  /** Parts of equal length joined by a one-character separator fill whole blocks but the last separator. */
  lemma {:induction false} JoinLength(sep: string, parts: seq<string>, width: nat)
    requires |sep| == 1 && |parts| >= 1
    requires forall k | 0 <= k < |parts| :: |parts[k]| == width
    ensures |Join(sep, parts)| == BlockStart(width, |parts|) - 1
  {
    if |parts| > 1 {
      JoinLength(sep, parts[1..], width);
      BlockShift(width, |parts| - 1);
    }
  }

  /** Shifting by one block: the blocks after the first start one block later. */
  lemma {:induction false} BlockShift(width: nat, i: nat)
    ensures BlockStart(width, i + 1) == width + 1 + BlockStart(width, i)
  {
    if i > 0 {
      BlockShift(width, i - 1);
    }
  }

  /** In such a join, the j-th character of the i-th part sits at offset j of block i. */
  lemma {:induction false} JoinCell(sep: string, parts: seq<string>, width: nat, i: nat, j: nat)
    requires |sep| == 1 && i < |parts| && j < width
    requires forall k | 0 <= k < |parts| :: |parts[k]| == width
    ensures BlockStart(width, i) + j < |Join(sep, parts)|
    ensures Join(sep, parts)[BlockStart(width, i) + j] == parts[i][j]
  {
    JoinLength(sep, parts, width);
    if |parts| > 1 {
      var tail := Join(sep, parts[1..]);
      assert Join(sep, parts) == parts[0] + sep + tail;
      if i > 0 {
        JoinCell(sep, parts[1..], width, i - 1, j);
        BlockShift(width, i - 1);
      }
    }
  }

  /** In such a join, the separator follows every block but the last. */
  lemma {:induction false} JoinSeparator(sep: string, parts: seq<string>, width: nat, i: nat)
    requires |sep| == 1 && i + 1 < |parts|
    requires forall k | 0 <= k < |parts| :: |parts[k]| == width
    ensures BlockStart(width, i) + width < |Join(sep, parts)|
    ensures Join(sep, parts)[BlockStart(width, i) + width] == sep[0]
  {
    JoinLength(sep, parts, width);
    var tail := Join(sep, parts[1..]);
    assert Join(sep, parts) == parts[0] + sep + tail;
    if i > 0 {
      JoinSeparator(sep, parts[1..], width, i - 1);
      BlockShift(width, i - 1);
    }
  }

  /** Concatenation of a sequence of strings. */
  function Concat(parts: seq<string>): string {
    if |parts| == 0 then "" else parts[0] + Concat(parts[1..])
  }

  /** Joining with a whitespace separator and stripping equals stripping each part. */
  lemma {:induction false} StripJoin(sep: string, parts: seq<string>)
    requires StripWhitespace(sep) == ""
    ensures StripWhitespace(Join(sep, parts)) == Concat(seq(|parts|, i requires 0 <= i < |parts| => StripWhitespace(parts[i])))
  {
    var stripped := seq(|parts|, i requires 0 <= i < |parts| => StripWhitespace(parts[i]));
    if |parts| == 0 {
    } else if |parts| == 1 {
      assert Concat(stripped) == stripped[0] + Concat([]);
    } else {
      var rest := seq(|parts| - 1, i requires 0 <= i < |parts| - 1 => StripWhitespace(parts[1..][i]));
      assert stripped[1..] == rest;
      var tail := Join(sep, parts[1..]);
      calc {
        StripWhitespace(Join(sep, parts));
        StripWhitespace(parts[0] + sep + tail);
        { StripWhitespaceAppend(parts[0] + sep, tail); }
        StripWhitespace(parts[0] + sep) + StripWhitespace(tail);
        { StripWhitespaceAppend(parts[0], sep); }
        StripWhitespace(parts[0]) + StripWhitespace(sep) + StripWhitespace(tail);
        { StripJoin(sep, parts[1..]); }
        stripped[0] + "" + Concat(rest);
        { assert stripped[0] + "" == stripped[0]; }
        Concat(stripped);
      }
    }
  }

  /** Indexing into a concatenation of equal-length blocks. */
  lemma {:induction false} ConcatBlocks(parts: seq<string>, i: nat, j: nat)
    requires forall k | 0 <= k < |parts| :: |parts[k]| == 8
    requires i < |parts| && j < 8
    ensures |Concat(parts)| == 8 * |parts|
    ensures Concat(parts)[8 * i + j] == parts[i][j]
  {
    ConcatLength(parts);
    if i > 0 {
      ConcatBlocks(parts[1..], i - 1, j);
    }
  }

  lemma {:induction false} ConcatLength(parts: seq<string>)
    requires forall k | 0 <= k < |parts| :: |parts[k]| == 8
    ensures |Concat(parts)| == 8 * |parts|
  {
    if |parts| > 0 {
      ConcatLength(parts[1..]);
    }
  }
}
