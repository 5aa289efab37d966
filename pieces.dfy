/** The contents of one square. The source stores a square as a string: "" for an
    empty square, a single letter otherwise, upper case for white and lower case
    for black (p pawn, n knight, b bishop, r rook, q queen, k king). */
module Pieces {

  datatype Option<T> = None | Some(value: T)

  datatype Kind = Pawn | Knight | Bishop | Rook | Queen | King

  datatype Cell = Empty | Piece(white: bool, kind: Kind)

  /** The lower-case letter that names a kind. */
  function Letter(k: Kind): char
  {
    match k
    case Pawn => 'p'
    case Knight => 'n'
    case Bishop => 'b'
    case Rook => 'r'
    case Queen => 'q'
    case King => 'k'
  }

  predicate IsAsciiLower(ch: char) { 'a' <= ch <= 'z' }

  predicate IsAsciiUpper(ch: char) { 'A' <= ch <= 'Z' }

  function UpperChar(ch: char): (r: char)
    ensures IsAsciiLower(ch) ==> IsAsciiUpper(r)
    ensures !IsAsciiLower(ch) ==> r == ch
  {
    if IsAsciiLower(ch) then (ch as int - 32) as char else ch
  }

  function LowerChar(ch: char): (r: char)
    ensures IsAsciiUpper(ch) ==> IsAsciiLower(r)
    ensures !IsAsciiUpper(ch) ==> r == ch
  {
    if IsAsciiUpper(ch) then (ch as int + 32) as char else ch
  }

  /** `String.prototype.toUpperCase`, on ASCII letters. */
  function ToUpper(s: string): (r: string)
    ensures |r| == |s|
  {
    if s == [] then [] else [UpperChar(s[0])] + ToUpper(s[1..])
  }

  /** `String.prototype.toLowerCase`, on ASCII letters. */
  function ToLower(s: string): (r: string)
    ensures |r| == |s|
  {
    if s == [] then [] else [LowerChar(s[0])] + ToLower(s[1..])
  }

  /** `isWhite`: the code is non-empty and unchanged by upper-casing. */
  predicate IsWhite(piece: string)
  {
    piece == ToUpper(piece) && piece != ""
  }

  /** `isBlack`: the code is non-empty and unchanged by lower-casing. */
  predicate IsBlack(piece: string)
  {
    piece == ToLower(piece) && piece != ""
  }

  /** The string the source stores for a cell. */
  function Code(c: Cell): (s: string)
    ensures |s| <= 1
  {
    match c
    case Empty => ""
    case Piece(w, k) => if w then [UpperChar(Letter(k))] else [Letter(k)]
  }

  /** Reads a square's string back; anything but "" and the twelve letters is rejected. */
  function Decode(s: string): (r: Option<Cell>)
    ensures r.Some? ==> Code(r.value) == s
  {
    if s == "" then Some(Empty)
    else if |s| != 1 then None
    else
      var ch := s[0];
      var w := IsAsciiUpper(ch);
      var l := LowerChar(ch);
      if l == 'p' then Some(Piece(w, Pawn))
      else if l == 'n' then Some(Piece(w, Knight))
      else if l == 'b' then Some(Piece(w, Bishop))
      else if l == 'r' then Some(Piece(w, Rook))
      else if l == 'q' then Some(Piece(w, Queen))
      else if l == 'k' then Some(Piece(w, King))
      else None
  }

  /** Only the empty cell is stored as the empty string. */
  lemma CodeEmpty(c: Cell)
    ensures Code(c) == "" <==> c == Empty
  {
    if c.Piece? {
      assert |Code(c)| == 1;
    }
  }

  lemma DecodeCode(c: Cell)
    ensures Decode(Code(c)) == Some(c)
  {
  }

  /** On the codes the board holds, `isWhite` and `isBlack` classify by colour, and
      the empty string is neither. */
  lemma CodeColour(c: Cell)
    ensures IsWhite(Code(c)) <==> c.Piece? && c.white
    ensures IsBlack(Code(c)) <==> c.Piece? && !c.white
  {
  }

  /** Upper- and lower-casing leave a string without ASCII letters unchanged. */
  lemma {:induction false} CaselessFixed(s: string)
    requires forall i | 0 <= i < |s| :: !IsAsciiLower(s[i]) && !IsAsciiUpper(s[i])
    ensures ToUpper(s) == s && ToLower(s) == s
  {
    if s != [] {
      CaselessFixed(s[1..]);
    }
  }

  /** So a non-empty ASCII string without letters (a digit, say) is both white and black. */
  lemma CaselessIsBoth(s: string)
    requires s != ""
    requires forall i | 0 <= i < |s| :: s[i] < 128 as char
    requires forall i | 0 <= i < |s| :: !IsAsciiLower(s[i]) && !IsAsciiUpper(s[i])
    ensures IsWhite(s) && IsBlack(s)
  {
    CaselessFixed(s);
  }

  /** `side` owns the cell: a piece of that colour. */
  predicate OwnedBy(c: Cell, whiteSide: bool)
  {
    c.Piece? && c.white == whiteSide
  }

  /** Ownership is the side test of `getAllLegalMoves` on the stored codes:
      `(isWhiteTurn && isWhite(piece)) || (!isWhiteTurn && isBlack(piece))`. */
  lemma OwnedBySideTest(c: Cell, whiteSide: bool)
    ensures OwnedBy(c, whiteSide) <==>
      (whiteSide && IsWhite(Code(c))) || (!whiteSide && IsBlack(Code(c)))
  {
    CodeColour(c);
  }

  /** `findKing`'s target: "K" for white, "k" for black, names exactly that king. */
  lemma KingCode(c: Cell, whiteSide: bool)
    ensures Code(c) == (if whiteSide then "K" else "k") <==> c == Piece(whiteSide, King)
  {
  }
}
