/**
 * The move notation of kingdom_chess, `[piece][file][rank]destination[/promotion]`,
 * as the verbose regular expression of `Game.parse_move_notation` reads it
 * after lower-casing: the five named groups it captures, with the
 * leftmost-greedy choice the regular-expression engine makes when a letter
 * could belong to two groups ("b" is both a bishop and a file).
 */
module Notation {
  import opened Common
  import opened Layout

  const PieceLetters: string := "kqrbnp"
  const RankDigits: string := "12345678"
  const PromotionLetters: string := "qrbn"

  /**
   * Python's `str.lower()` on one character, for the characters it can turn
   * into a character of the notation: ASCII capitals, and U+212A KELVIN SIGN,
   * which lower-cases to "k". Any other character is kept; since neither it
   * nor its lower-case form can take part in a match, the outcome is the same.
   */
  function LowerChar(c: char): (r: char)
    ensures 'A' <= c <= 'Z' ==> 'a' <= r <= 'z' && r as int == c as int + 32
    ensures !('A' <= c <= 'Z') && c != '\U{212A}' ==> r == c
    ensures c == '\U{212A}' ==> r == 'k'
  {
    if 'A' <= c <= 'Z' then (c as int + 32) as char
    else if c == '\U{212A}' then 'k'
    else c
  }

  /** `notation.lower()`, character by character. */
  function Lower(s: string): (r: string)
    ensures |r| == |s|
    ensures forall i | 0 <= i < |s| :: r[i] == LowerChar(s[i])
  {
    seq(|s|, i requires 0 <= i < |s| => LowerChar(s[i]))
  }

  /** The five named groups of a match; an optional group that took nothing is "". */
  datatype Groups = Groups(
    piece: string,
    departureFile: string,
    departureRank: string,
    destination: string,
    promotionTo: string)

  /** An optional one-character group: empty, or one character of the class. */
  predicate InClass(s: string, letters: string) {
    s == "" || (|s| == 1 && s[0] in letters)
  }

  /** The text a set of groups spells out, the "/" before a promotion included. */
  function Spelled(m: Groups): string {
    m.piece + m.departureFile + m.departureRank + m.destination + Suffix(m.promotionTo)
  }

  /** Every group within its character class. */
  predicate WellFormed(m: Groups) {
    && InClass(m.piece, PieceLetters)
    && InClass(m.departureFile, Files)
    && InClass(m.departureRank, RankDigits)
    && |m.destination| == 2 && m.destination[0] in Files && m.destination[1] in RankDigits
    && InClass(m.promotionTo, PromotionLetters)
  }

  /** The pattern matches all of s with these groups. */
  predicate Fits(s: string, m: Groups) {
    WellFormed(m) && s == Spelled(m)
  }

  /** `[a-h]?[1-8]?` taking all of pr, the file group tried first. */
  function SplitFileRank(pr: string): (r: Option<(string, string)>)
    ensures r.Some? ==> InClass(r.value.0, Files) && InClass(r.value.1, RankDigits) && r.value.0 + r.value.1 == pr
  {
    if |pr| >= 1 && pr[0] in Files && InClass(pr[1..], RankDigits) then
      assert pr[..1] + pr[1..] == pr;
      Some((pr[..1], pr[1..]))
    else if InClass(pr, RankDigits) then Some(("", pr))
    else None
  }

  /** `[kqrbnp]?[a-h]?[1-8]?` taking all of pr, the piece group tried first. */
  function SplitPrefix(pr: string): (r: Option<(string, string, string)>)
    ensures r.Some? ==> && InClass(r.value.0, PieceLetters) && InClass(r.value.1, Files)
                        && InClass(r.value.2, RankDigits) && r.value.0 + r.value.1 + r.value.2 == pr
  {
    if |pr| >= 1 && pr[0] in PieceLetters && SplitFileRank(pr[1..]).Some? then
      var fr := SplitFileRank(pr[1..]).value;
      assert pr[..1] + (fr.0 + fr.1) == pr;
      Some((pr[..1], fr.0, fr.1))
    else
      match SplitFileRank(pr)
      case None => None
      case Some(fr) => Some(("", fr.0, fr.1))
  }

  /** Any split of pr into a file and a rank group is found, the file taken if that split takes it. */
  lemma SplitFileRankComplete(pr: string, f: string, k: string)
    requires InClass(f, Files) && InClass(k, RankDigits) && pr == f + k
    ensures SplitFileRank(pr).Some?
    ensures f != "" ==> SplitFileRank(pr).value.0 != ""
  {
    if f != "" {
      assert pr[0] == f[0];
      assert pr[1..] == k;
    } else {
      assert pr == k;
    }
  }

  /** Any split of pr into the three prefix groups is found, greedy in the piece and then the file. */
  lemma SplitPrefixComplete(pr: string, m: Groups)
    requires InClass(m.piece, PieceLetters) && InClass(m.departureFile, Files) && InClass(m.departureRank, RankDigits)
    requires pr == m.piece + m.departureFile + m.departureRank
    ensures SplitPrefix(pr).Some?
    ensures m.piece != "" ==> SplitPrefix(pr).value.0 != ""
    ensures SplitPrefix(pr).value.0 == m.piece && m.departureFile != "" ==> SplitPrefix(pr).value.1 != ""
  {
    var rest := m.departureFile + m.departureRank;
    SplitFileRankComplete(rest, m.departureFile, m.departureRank);
    if m.piece != "" {
      assert pr[0] == m.piece[0];
      assert pr[1..] == rest;
    } else {
      assert pr == rest;
      if SplitPrefix(pr).value.0 == "" {
        assert SplitPrefix(pr).value.1 == SplitFileRank(pr).value.0;
      }
    }
  }

  /** The text after the "/" of the promotion group, when the notation ends with one. */
  function Suffix(promotion: string): string {
    if promotion == "" then "" else "/" + promotion
  }

  /**
   * The optional `(/[qrbn])` group at the end: a trailing "/" and promotion
   * letter can only be that group, since no other group takes a "/".
   */
  function SplitPromotion(s: string): (r: (string, string))
    ensures s == r.0 + Suffix(r.1)
    ensures InClass(r.1, PromotionLetters)
  {
    var n := |s|;
    if n >= 2 && s[n - 2] == '/' && s[n - 1] in PromotionLetters then
      assert s == s[..n - 2] + ("/" + s[n - 1..]);
      (s[..n - 2], s[n - 1..])
    else (s, "")
  }

  /** The destination `[a-h][1-8]` ends the text before the promotion group. */
  function MatchCore(core: string, promotion: string): (r: Option<Groups>)
    requires InClass(promotion, PromotionLetters)
    ensures r.Some? ==> Fits(core + Suffix(promotion), r.value)
  {
    var c := |core|;
    if c < 2 || core[c - 2] !in Files || core[c - 1] !in RankDigits then None
    else
      var prefix := core[..c - 2];
      var destination := core[c - 2..];
      assert core == prefix + destination;
      match SplitPrefix(prefix)
      case None => None
      case Some(pfr) => Some(Groups(pfr.0, pfr.1, pfr.2, destination, promotion))
  }

  /**
   * `re.fullmatch` of the notation pattern: the promotion group, then the
   * destination, and what precedes them split among the optional groups,
   * each taken when the rest can still match.
   */
  function MatchNotation(s: string): (r: Option<Groups>)
    ensures r.Some? ==> Fits(s, r.value)
  {
    var split := SplitPromotion(s);
    MatchCore(split.0, split.1)
  }

  /** A text ending in a rank digit, with or without a promotion group, splits back into the two. */
  lemma SplitPromotionOf(core: string, promotion: string)
    requires |core| >= 1 && core[|core| - 1] in RankDigits
    requires InClass(promotion, PromotionLetters)
    ensures SplitPromotion(core + Suffix(promotion)) == (core, promotion)
  {
    if promotion == "" {
      assert core + Suffix(promotion) == core;
      NoPromotionSplit(core);
    } else {
      assert core + Suffix(promotion) == core + ['/', promotion[0]];
      assert [promotion[0]] == promotion;
      PromotionSplit(core, promotion[0]);
    }
  }

  /** Without a promotion group the text stays whole: a rank digit is no promotion letter. */
  lemma NoPromotionSplit(core: string)
    requires |core| >= 1 && core[|core| - 1] in RankDigits
    ensures SplitPromotion(core) == (core, "")
  {
    assert core[|core| - 1] !in PromotionLetters;
  }

  /** A trailing "/" and promotion letter are split off. */
  lemma PromotionSplit(core: string, letter: char)
    requires letter in PromotionLetters
    ensures SplitPromotion(core + ['/', letter]) == (core, [letter])
  {
    var s := core + ['/', letter];
    var n := |s|;
    assert s[n - 2] == '/' && s[n - 1] == letter;
    assert s[..n - 2] == core;
    assert s[n - 1..] == [letter];
  }

  /**
   * Whenever the pattern can match s at all, `fullmatch` finds a match, and
   * it is the greedy one: the destination and promotion are those of any
   * fit, a piece letter is taken whenever some fit takes one, and with the
   * same piece group a file letter is taken whenever that fit takes one.
   */
  lemma MatchComplete(s: string, m: Groups)
    requires Fits(s, m)
    ensures MatchNotation(s).Some?
    ensures MatchNotation(s).value.destination == m.destination
    ensures MatchNotation(s).value.promotionTo == m.promotionTo
    ensures m.piece != "" ==> MatchNotation(s).value.piece != ""
    ensures MatchNotation(s).value.piece == m.piece && m.departureFile != "" ==> MatchNotation(s).value.departureFile != ""
  {
    var pr := m.piece + m.departureFile + m.departureRank;
    SplitPrefixComplete(pr, m);
    var body := pr + m.destination;
    assert s == body + Suffix(m.promotionTo);
    BodyParts(body, pr, m.destination);
    SplitPromotionOf(body, m.promotionTo);
  }

  lemma BodyParts(body: string, pr: string, destination: string)
    requires |destination| == 2 && body == pr + destination
    ensures |body| >= 2 && body[..|body| - 2] == pr && body[|body| - 2..] == destination
    ensures body[|body| - 2] == destination[0] && body[|body| - 1] == destination[1]
  {
  }

  /** Greedy choice: "b4" is a pawn move to b4. */
  lemma PawnToB4Example()
    ensures MatchNotation("b4") == Some(Groups("", "", "", "b4", ""))
  {
    NoPromotionSplit("b4");
  }

  /** Greedy choice: "bc4" is a bishop move to c4. */
  lemma BishopToC4Example()
    ensures MatchNotation("bc4") == Some(Groups("b", "", "", "c4", ""))
  {
    NoPromotionSplit("bc4");
    assert "bc4"[..1] == "b";
  }

  /** Greedy choice: "bb4" is a bishop move to b4, not a pawn from file b. */
  lemma BishopToB4Example()
    ensures MatchNotation("bb4") == Some(Groups("b", "", "", "b4", ""))
  {
    NoPromotionSplit("bb4");
    assert "bb4"[..1] == "b";
  }

  /** A departure square and a promotion: "e7e8/q". */
  lemma PromotionExample()
    ensures MatchNotation("e7e8/q") == Some(Groups("", "e", "7", "e8", "q"))
  {
    PromotionExampleSplit();
    PromotionExampleCore();
  }

  lemma PromotionExampleSplit()
    ensures SplitPromotion("e7e8/q") == ("e7e8", "q")
  {
    assert "e7e8/q" == "e7e8" + ['/', 'q'];
    PromotionSplit("e7e8", 'q');
  }

  lemma PromotionExampleCore()
    ensures MatchCore("e7e8", "q") == Some(Groups("", "e", "7", "e8", "q"))
  {
    assert "e7e8"[..2] == "e7" && "e7e8"[2..] == "e8";
    PrefixExample();
  }

  lemma PrefixExample()
    ensures SplitPrefix("e7") == Some(("", "e", "7"))
  {
    assert "e7"[..1] == "e" && "e7"[1..] == "7";
    assert SplitFileRank("e7") == Some(("e", "7"));
  }

  /** A rank outside 1-8 does not match. */
  lemma RankNineExample()
    ensures MatchNotation("e9").None?
  {
    assert SplitPromotion("e9") == ("e9", "");
  }
}
