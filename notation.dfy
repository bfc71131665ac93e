// Decoding of the move text a player types: a small subset of algebraic notation
// ("e4", "exd5", "Nbd7", "R1e2", "e8=Q", "O-O", "O-O-O", with "+", "#" and "x"
// markers). The decoder only reads the text; what a request does to the board is
// in module Games.

module Notation {
  import opened Pieces

  /** What a move text asks for. `UnknownPiece` is text whose first character names no piece
      ("Invalid piece notation"); `Malformed` is text on which a lookup, a conversion to a number
      or an index fails ("Invalid move syntax"). */
  datatype Request =
    | CastleRequest(kingside: bool)
    | PawnPush(to: Square, promotion: Option<PieceType>)
    | PawnCapture(srcFile: int, to: Square)
    | PieceMove(kind: PieceType, from: FromPos, to: Square, capture: bool)
    | UnknownPiece
    | Malformed

  // ================================================================ characters

  /** The column of file letter `ch`, 'a' to 'h'. */
  function FileIndex(ch: char): Option<int>
  {
    if 'a' <= ch <= 'h' then Some(ch as int - 'a' as int) else None
  }

  /** The value of a decimal digit. */
  function Digit(ch: char): Option<int>
  {
    if '0' <= ch <= '9' then Some(ch as int - '0' as int) else None
  }

  /** The lower-case form of an ASCII letter; every other character is unchanged. */
  function Lower(ch: char): char
  {
    if 'A' <= ch <= 'Z' then (ch as int + 32) as char else ch
  }

  predicate IsAlpha(ch: char)
  {
    'a' <= ch <= 'z' || 'A' <= ch <= 'Z'
  }

  /** The piece letters of the non-pawn branch. */
  function PieceLetter(ch: char): Option<PieceType>
  {
    if ch == 'K' then Some(King)
    else if ch == 'Q' then Some(Queen)
    else if ch == 'R' then Some(Rook)
    else if ch == 'B' then Some(Bishop)
    else if ch == 'N' then Some(Knight)
    else None
  }

  /** The promotion table: the whole text after '=' must be one of the letters Q, R, B, N. */
  function PromotionKind(s: string): Option<PieceType>
  {
    if |s| != 1 then None
    else if s[0] == 'Q' then Some(Queen)
    else if s[0] == 'R' then Some(Rook)
    else if s[0] == 'B' then Some(Bishop)
    else if s[0] == 'N' then Some(Knight)
    else None
  }

  /** The row a rank digit `d` denotes: row 0 is rank 8. */
  function RankRow(d: int): int
  {
    8 - d
  }

  // ================================================================ strings

  /** `s` with every occurrence of `ch` removed. */
  function Remove(s: string, ch: char): (r: string)
    ensures |r| <= |s| && ch !in r
  {
    if s == [] then [] else (if s[0] == ch then [] else [s[0]]) + Remove(s[1..], ch)
  }

  /** Removing `ch` keeps every other character. */
  lemma {:induction false} RemoveMember(s: string, ch: char, c: char)
    ensures c in Remove(s, ch) <==> c in s && c != ch
  {
    if s != [] {
      RemoveMember(s[1..], ch, c);
      assert s == [s[0]] + s[1..];
    }
  }

  /** The index of the first `ch` in `s`, or -1. */
  function IndexOf(s: string, ch: char): (i: int)
    ensures -1 <= i < |s|
    ensures i == -1 <==> ch !in s
    ensures i >= 0 ==> s[i] == ch && ch !in s[..i]
  {
    if s == [] then -1
    else if s[0] == ch then 0
    else
      var j := IndexOf(s[1..], ch);
      assert j >= 0 ==> s[1..][..j] == s[1..j + 1];
      if j < 0 then -1 else j + 1
  }

  // ================================================================ decoding

  /** The squares a decoded request may name: files 0..7, rows RankRow(0..9) = -1..8 (a rank
      digit 0 or 9 is accepted and names a row off the board). */
  predicate FileOk(f: int) { 0 <= f < 8 }

  predicate RowOk(r: int) { -1 <= r <= 8 }

  /** The shape of every request the decoder produces. */
  predicate Canonical(r: Request)
  {
    match r
    case CastleRequest(_) => true
    case PawnPush(to, promotion) =>
      FileOk(to.col) && RowOk(to.row) &&
      (promotion.Some? ==> promotion.value in {Queen, Rook, Bishop, Knight})
    case PawnCapture(srcFile, to) => FileOk(srcFile) && FileOk(to.col) && RowOk(to.row)
    case PieceMove(kind, from, to, _) =>
      kind != Pawn && FileOk(to.col) && RowOk(to.row) &&
      (from == FromPos(None, None) ||
       (from.first.Some? && from.second.None? && RowOk(from.first.value)) ||
       (from.first.None? && from.second.Some? && FileOk(from.second.value)))
    case UnknownPiece => true
    case Malformed => true
  }

  /** `play_move`'s reading of the text: "O-O" and "O-O-O" exactly; otherwise every '+' and '#'
      is dropped, an "=X" suffix is split off (more than one '=' or an X outside Q, R, B, N is
      malformed), and the rest is read by DecodeBody. */
  function Decode(text: string): (r: Request)
    ensures Canonical(r)
    ensures r.CastleRequest? <==> text == "O-O" || text == "O-O-O"
  {
    if text == "O-O" then CastleRequest(true)
    else if text == "O-O-O" then CastleRequest(false)
    else DecodeMarked(Unmarked(text))
  }

  /** The text without its check ('+') and mate ('#') marks, wherever they stand. */
  function Unmarked(text: string): (t: string)
    ensures '+' !in t && '#' !in t
  {
    RemoveMember(Remove(text, '+'), '#', '+');
    Remove(Remove(text, '+'), '#')
  }

  /** Splits an "=X" promotion suffix off the unmarked text. */
  function DecodeMarked(t: string): (r: Request)
    ensures Canonical(r) && !r.CastleRequest?
  {
    var k := IndexOf(t, '=');
    if k < 0 then DecodeBody(t, None)
    else
      var suffix := t[k + 1..];
      if '=' in suffix then Malformed
      else match PromotionKind(suffix)
        case None => Malformed
        case Some(kind) => DecodeBody(t[..k], Some(kind))
  }

  /** The text after the suffixes are gone: a capture is marked by an 'x' anywhere (every 'x' is
      dropped); then two characters are a pawn push (file letter in either case), three
      characters starting with a lower-case file are a pawn capture when marked, and anything
      else must start with a piece letter and end with a square, with one optional
      disambiguating file or rank in between when the text has four characters. A promotion
      only survives on the pawn-push branch. */
  function DecodeBody(t0: string, promotion: Option<PieceType>): (r: Request)
    requires promotion.Some? ==> promotion.value in {Queen, Rook, Bishop, Knight}
    ensures Canonical(r) && !r.CastleRequest?
  {
    Classify(Remove(t0, 'x'), 'x' in t0, promotion)
  }

  /** The branches of DecodeBody on the text `t` without its 'x' characters; `capture` says
      whether there were any. */
  function Classify(t: string, capture: bool, promotion: Option<PieceType>): (r: Request)
    requires promotion.Some? ==> promotion.value in {Queen, Rook, Bishop, Knight}
    ensures Canonical(r) && !r.CastleRequest?
  {
    if |t| == 2 && FileIndex(Lower(t[0])).Some? then
      match Digit(t[1])
      case None => Malformed
      case Some(d) => PawnPush(Square(RankRow(d), FileIndex(Lower(t[0])).value), promotion)
    else if |t| == 3 && FileIndex(t[0]).Some? && capture then
      if FileIndex(t[1]).None? || Digit(t[2]).None? then Malformed
      else PawnCapture(FileIndex(t[0]).value, Square(RankRow(Digit(t[2]).value), FileIndex(t[1]).value))
    else if |t| == 0 then Malformed
    else if PieceLetter(t[0]).None? then UnknownPiece
    else if |t| < 2 || FileIndex(t[|t| - 2]).None? || Digit(t[|t| - 1]).None? then Malformed
    else
      var to := Square(RankRow(Digit(t[|t| - 1]).value), FileIndex(t[|t| - 2]).value);
      if |t| != 4 then PieceMove(PieceLetter(t[0]).value, FromPos(None, None), to, capture)
      else if IsAlpha(t[1]) then
        if FileIndex(Lower(t[1])).None? then Malformed
        else PieceMove(PieceLetter(t[0]).value, FromPos(None, FileIndex(Lower(t[1]))), to, capture)
      else if Digit(t[1]).None? then Malformed
      else PieceMove(PieceLetter(t[0]).value, FromPos(Some(RankRow(Digit(t[1]).value)), None), to, capture)
  }

  // ================================================================ rendering

  function FileChar(f: int): char
    requires FileOk(f)
  {
    ('a' as int + f) as char
  }

  /** The rank digit of row `r`. */
  function RankChar(r: int): char
    requires RowOk(r)
  {
    ('0' as int + 8 - r) as char
  }

  function PieceChar(kind: PieceType): char
  {
    match kind
    case King => 'K'
    case Queen => 'Q'
    case Rook => 'R'
    case Bishop => 'B'
    case Knight => 'N'
    case Pawn => 'P'
  }

  /** A text for every canonical request, in the shortest form the decoder reads back. */
  function Render(r: Request): string
    requires Canonical(r)
  {
    match r
    case CastleRequest(kingside) => if kingside then "O-O" else "O-O-O"
    case PawnPush(to, promotion) =>
      [FileChar(to.col), RankChar(to.row)] + (if promotion.Some? then ['=', PieceChar(promotion.value)] else [])
    case PawnCapture(srcFile, to) => [FileChar(srcFile), 'x', FileChar(to.col), RankChar(to.row)]
    case PieceMove(kind, from, to, capture) =>
      PieceHead(kind, from) + (if capture then ['x'] else []) + [FileChar(to.col), RankChar(to.row)]
    case UnknownPiece => "P"
    case Malformed => ""
  }

  // ================================================================ lemmas

  lemma {:induction false} RemoveAbsent(s: string, ch: char)
    requires ch !in s
    ensures Remove(s, ch) == s
  {
    if s != [] {
      assert s == [s[0]] + s[1..];
      RemoveAbsent(s[1..], ch);
    }
  }

  lemma {:induction false} RemoveAppend(a: string, b: string, ch: char)
    ensures Remove(a + b, ch) == Remove(a, ch) + Remove(b, ch)
  {
    if a != [] {
      assert (a + b)[1..] == a[1..] + b;
      RemoveAppend(a[1..], b, ch);
    } else {
      assert a + b == b;
    }
  }

  /** The characters Render writes decode as intended. */
  lemma CharFacts(f: int, r: int)
    requires FileOk(f) && RowOk(r)
    ensures Lower(FileChar(f)) == FileChar(f) && FileIndex(FileChar(f)) == Some(f) && IsAlpha(FileChar(f))
    ensures FileChar(f) !in "+#x=" && PieceLetter(FileChar(f)).None?
    ensures Digit(RankChar(r)) == Some(8 - r) && RankRow(8 - r) == r && !IsAlpha(RankChar(r))
    ensures RankChar(r) !in "+#x=" && FileIndex(Lower(RankChar(r))).None? && FileIndex(RankChar(r)).None?
  {
  }

  lemma PieceCharFacts(kind: PieceType)
    ensures PieceChar(kind) !in "+#x=" && FileIndex(PieceChar(kind)).None?
    ensures kind != Pawn ==> PieceLetter(PieceChar(kind)) == Some(kind)
    ensures kind != Pawn ==> FileIndex(Lower(PieceChar(kind))).None? || kind == Bishop
    ensures kind in {Queen, Rook, Bishop, Knight} ==> PromotionKind([PieceChar(kind)]) == Some(kind)
  {
  }

  lemma RemoveSingle(c: char, ch: char)
    ensures Remove([c], ch) == if c == ch then [] else [c]
  {
    assert [c][1..] == [];
  }

  /** Unmarked text distributes over concatenation. */
  lemma UnmarkedAppend(a: string, b: string)
    ensures Unmarked(a + b) == Unmarked(a) + Unmarked(b)
  {
    RemoveAppend(a, b, '+');
    RemoveAppend(Remove(a, '+'), Remove(b, '+'), '#');
  }

  lemma UnmarkedPlain(t: string)
    requires '+' !in t && '#' !in t
    ensures Unmarked(t) == t
  {
    RemoveAbsent(t, '+');
    RemoveAbsent(t, '#');
  }

  /** Decoding the rendering of a canonical request gives the request back. */
  lemma RenderDecode(r: Request)
    requires Canonical(r)
    ensures Decode(Render(r)) == r
  {
    match r
    case CastleRequest(_) =>
    case PawnPush(to, promotion) => RenderDecodePush(to, promotion);
    case PawnCapture(srcFile, to) => RenderDecodeCapture(srcFile, to);
    case PieceMove(kind, from, to, capture) => RenderDecodePiece(kind, from, to, capture);
    case UnknownPiece =>
      UnmarkedPlain("P");
      RemoveAbsent("P", 'x');
    case Malformed =>
  }

  lemma RenderDecodePush(to: Square, promotion: Option<PieceType>)
    requires Canonical(PawnPush(to, promotion))
    ensures Decode(Render(PawnPush(to, promotion))) == PawnPush(to, promotion)
  {
    var text := Render(PawnPush(to, promotion));
    var body := [FileChar(to.col), RankChar(to.row)];
    assert '+' !in body && '#' !in body && '=' !in body && body[0] != 'O' by {
      CharFacts(to.col, to.row);
    }
    assert DecodeBody(body, promotion) == PawnPush(to, promotion) by {
      CharFacts(to.col, to.row);
      RemoveAbsent(body, 'x');
    }
    if promotion.Some? {
      var letter := PieceChar(promotion.value);
      assert text == body + ['='] + [letter];
      assert '+' !in text && '#' !in text && text[0] != 'O' && letter != '=' && PromotionKind([letter]) == promotion by {
        PieceCharFacts(promotion.value);
      }
      UnmarkedPlain(text);
      MarkedSplit(body, [letter]);
    } else {
      assert text == body;
      UnmarkedPlain(text);
    }
  }

  lemma RenderDecodeCapture(srcFile: int, to: Square)
    requires Canonical(PawnCapture(srcFile, to))
    ensures Decode(Render(PawnCapture(srcFile, to))) == PawnCapture(srcFile, to)
  {
    var text := Render(PawnCapture(srcFile, to));
    var head, square := [FileChar(srcFile)], [FileChar(to.col), RankChar(to.row)];
    assert text == head + ['x'] + square;
    assert '+' !in text && '#' !in text && '=' !in text && text[0] != 'O' &&
           'x' !in head && 'x' !in square by {
      CharFacts(srcFile, to.row);
      CharFacts(to.col, to.row);
    }
    UnmarkedPlain(text);
    RemoveMark(head, square, true);
    assert Classify(head + square, true, None) == PawnCapture(srcFile, to) by {
      CharFacts(srcFile, to.row);
      CharFacts(to.col, to.row);
      assert head + square == [FileChar(srcFile), FileChar(to.col), RankChar(to.row)];
    }
    assert DecodeMarked(text) == DecodeBody(text, None);
  }

  lemma RenderDecodePiece(kind: PieceType, from: FromPos, to: Square, capture: bool)
    requires Canonical(PieceMove(kind, from, to, capture))
    ensures Decode(Render(PieceMove(kind, from, to, capture))) == PieceMove(kind, from, to, capture)
  {
    var r := PieceMove(kind, from, to, capture);
    var text := Render(r);
    var head, square := PieceHead(kind, from), [FileChar(to.col), RankChar(to.row)];
    var mark: string := if capture then ['x'] else [];
    assert text == head + mark + square;
    PieceHeadFacts(kind, from);
    CharFacts(to.col, to.row);
    RemoveMark(head, square, capture);
    UnmarkedPlain(text);
    ClassifyPiece(kind, from, to, capture);
    assert DecodeMarked(text) == DecodeBody(text, None);
  }

  /** The piece letter and the disambiguator Render writes. */
  function PieceHead(kind: PieceType, from: FromPos): string
    requires (from.first.Some? ==> RowOk(from.first.value)) && (from.second.Some? ==> FileOk(from.second.value))
  {
    [PieceChar(kind)] +
    (if from.first.Some? then [RankChar(from.first.value)]
     else if from.second.Some? then [FileChar(from.second.value)] else [])
  }

  lemma PieceHeadFacts(kind: PieceType, from: FromPos)
    requires (from.first.Some? ==> RowOk(from.first.value)) && (from.second.Some? ==> FileOk(from.second.value))
    ensures var h := PieceHead(kind, from);
      1 <= |h| <= 2 && h[0] == PieceChar(kind) && 'x' !in h && '+' !in h && '#' !in h && '=' !in h
  {
    PieceCharFacts(kind);
    if from.first.Some? {
      CharFacts(0, from.first.value);
    } else if from.second.Some? {
      CharFacts(from.second.value, 0);
    }
  }

  /** Dropping the capture mark between a head and a square without marks. */
  lemma RemoveMark(head: string, square: string, capture: bool)
    requires 'x' !in head && 'x' !in square
    ensures var text := head + (if capture then ['x'] else []) + square;
      Remove(text, 'x') == head + square && ('x' in text <==> capture)
  {
    var mark: string := if capture then ['x'] else [];
    RemoveAppend(head + mark, square, 'x');
    RemoveAppend(head, mark, 'x');
    RemoveAbsent(head, 'x');
    RemoveAbsent(square, 'x');
    if capture {
      RemoveSingle('x', 'x');
      assert (head + mark + square)[|head|] == 'x';
    } else {
      assert mark == [];
      assert head + mark == head;
    }
    assert Remove(mark, 'x') == [];
    assert Remove(head + mark, 'x') == head;
  }

  lemma ClassifyPiece(kind: PieceType, from: FromPos, to: Square, capture: bool)
    requires Canonical(PieceMove(kind, from, to, capture))
    ensures Classify(PieceHead(kind, from) + [FileChar(to.col), RankChar(to.row)], capture, None)
      == PieceMove(kind, from, to, capture)
  {
    var body := PieceHead(kind, from) + [FileChar(to.col), RankChar(to.row)];
    PieceCharFacts(kind);
    CharFacts(to.col, to.row);
    assert body[0] == PieceChar(kind);
    assert body[|body| - 2] == FileChar(to.col) && body[|body| - 1] == RankChar(to.row);
    if from.first.Some? {
      CharFacts(0, from.first.value);
      assert |body| == 4 && body[1] == RankChar(from.first.value);
    } else if from.second.Some? {
      CharFacts(from.second.value, 0);
      assert |body| == 4 && body[1] == FileChar(from.second.value);
    } else {
      assert |body| == 3;
    }
  }

  /** "e4" asks for a pawn push to row 4, column 4. */
  lemma DecodePawnPushExample()
    ensures Decode("e4") == PawnPush(Square(4, 4), None)
  {
    assert Render(PawnPush(Square(4, 4), None)) == "e4";
    RenderDecode(PawnPush(Square(4, 4), None));
  }

  /** "Nbd7" asks for the knight on column 1 to go to row 1, column 3. */
  lemma DecodeDisambiguationExample()
    ensures Decode("Nbd7") == PieceMove(Knight, FromPos(None, Some(1)), Square(1, 3), false)
  {
    assert Render(PieceMove(Knight, FromPos(None, Some(1)), Square(1, 3), false)) == "Nbd7";
    RenderDecode(PieceMove(Knight, FromPos(None, Some(1)), Square(1, 3), false));
  }

  /** A trailing '+' or '#' is ignored, except that it turns "O-O" and "O-O-O" into text that
      no longer matches castling. */
  lemma DecodeIgnoresCheckMark(text: string, mark: char)
    requires mark == '+' || mark == '#'
    requires text != "O-O" && text != "O-O-O"
    ensures Decode(text + [mark]) == Decode(text)
  {
    var t := text + [mark];
    assert t != "O-O" && t != "O-O-O" by {
      assert t[|t| - 1] == mark;
    }
    UnmarkedAppend(text, [mark]);
    assert Unmarked([mark]) == [];
    assert Unmarked(text) + [] == Unmarked(text);
  }

  /** Text that starts with the letter 'O' names no piece, so castling followed by a check or
      mate mark ("O-O+", "O-O-O#") is not read as castling. */
  lemma MarkedCastleNamesNoPiece(t: string, mark: char)
    requires |t| >= 1 && t[0] == 'O' && (mark == '+' || mark == '#')
    requires '+' !in t && '#' !in t && '=' !in t && 'x' !in t
    ensures Decode(t + [mark]) == UnknownPiece
  {
    var text := t + [mark];
    assert text != "O-O" && text != "O-O-O" by {
      assert text[|text| - 1] == mark;
    }
    UnmarkedAppend(t, [mark]);
    UnmarkedPlain(t);
    assert Unmarked([mark]) == [];
    assert Unmarked(text) == t;
    RemoveAbsent(t, 'x');
  }

  /** A promotion suffix whose letter is not Q, R, B or N makes the text malformed, before any
      move is looked for. */
  lemma UnknownPromotionMalformed(t: string, ch: char)
    requires '=' !in t && ch != '=' && ch != 'Q' && ch != 'R' && ch != 'B' && ch != 'N'
    ensures Decode(t + ['=', ch]) == Malformed
  {
    var text := t + ['=', ch];
    assert text != "O-O" && text != "O-O-O" by {
      assert text[|text| - 2] == '=';
    }
    var s, rest := Unmarked(t), Unmarked([ch]);
    assert Unmarked(text) == s + ['='] + rest by {
      assert text == t + ['='] + [ch];
      UnmarkedAppend(t + ['='], [ch]);
      UnmarkedAppend(t, ['=']);
      UnmarkedPlain(['=']);
    }
    assert '=' !in s by {
      RemoveMember(t, '+', '=');
      RemoveMember(Remove(t, '+'), '#', '=');
    }
    assert rest == [] || rest == [ch] by {
      RemoveSingle(ch, '+');
      RemoveSingle(ch, '#');
      assert Remove([], '#') == [];
    }
    MarkedSplit(s, rest);
  }

  /** Marked text without a promotion is read by Classify on the text without its capture mark. */
  lemma PlainDecode(head: string, square: string, capture: bool)
    requires |head| >= 1 && head[0] != 'O'
    requires forall ch :: ch in head + square ==> ch !in "+#=x"
    ensures var text := head + (if capture then ['x'] else []) + square;
      Decode(text) == Classify(head + square, capture, None)
  {
    var text := head + (if capture then ['x'] else []) + square;
    assert text[0] == head[0];
    assert forall ch :: ch in text ==> ch == 'x' || ch in head + square;
    assert '+' !in text && '#' !in text && '=' !in text;
    assert "+#=x"[3] == 'x';
    forall c | c in head
      ensures c != 'x'
    {
      assert c in head + square;
    }
    forall c | c in square
      ensures c != 'x'
    {
      assert c in head + square;
    }
    UnmarkedPlain(text);
    RemoveMark(head, square, capture);
  }

  /** A pawn push whose rank is not a digit is malformed. */
  lemma PushRankNotDigit(f: char, ch: char)
    requires FileIndex(Lower(f)).Some? && Digit(ch).None? && ch !in "+#=x"
    ensures Decode([f, ch]) == Malformed
  {
    PlainDecode([f], [ch], false);
    assert [f] + [ch] == [f, ch];
  }

  /** A pawn capture whose rank is not a digit is malformed. */
  lemma CaptureRankNotDigit(a: char, b: char, ch: char)
    requires FileIndex(a).Some? && Digit(ch).None? && b !in "+#=x" && ch !in "+#=x"
    ensures Decode([a, 'x', b, ch]) == Malformed
  {
    PlainDecode([a], [b, ch], true);
    assert [a] + ['x'] + [b, ch] == [a, 'x', b, ch];
    assert [a] + [b, ch] == [a, b, ch];
  }

  /** A piece move whose last character is not a digit is malformed, whatever stands between
      the piece letter and the destination. */
  lemma PieceRankNotDigit(head: string, f: char, ch: char, capture: bool)
    requires |head| >= 1 && PieceLetter(head[0]).Some? && Digit(ch).None?
    requires forall c :: c in head + [f, ch] ==> c !in "+#=x"
    ensures Decode(head + (if capture then ['x'] else []) + [f, ch]) == Malformed
  {
    PlainDecode(head, [f, ch], capture);
    var t := head + [f, ch];
    assert t[0] == head[0] && t[|t| - 1] == ch;
  }

  /** In a four-character piece move, a disambiguator that is neither a letter nor a digit is
      malformed even when the destination is a square. */
  lemma DisambiguatorNotRank(k: char, d: char, f: char, r: char, capture: bool)
    requires PieceLetter(k).Some? && !IsAlpha(d) && Digit(d).None? && d !in "+#=x"
    requires FileIndex(f).Some? && Digit(r).Some?
    ensures Decode([k, d] + (if capture then ['x'] else []) + [f, r]) == Malformed
  {
    PlainDecode([k, d], [f, r], capture);
    assert [k, d] + [f, r] == [k, d, f, r];
  }

  /** Text with one '=' decodes through the promotion table. */
  lemma MarkedSplit(s: string, rest: string)
    requires '=' !in s && '=' !in rest
    ensures DecodeMarked(s + ['='] + rest) ==
      if PromotionKind(rest).None? then Malformed else DecodeBody(s, PromotionKind(rest))
  {
    var full := s + ['='] + rest;
    assert full[..|s|] == s && full[|s| + 1..] == rest;
    assert IndexOf(full, '=') == |s| by {
      assert full[|s|] == '=';
    }
  }

  /** Text with two '=' characters is malformed. */
  lemma TwoPromotionsMalformed(a: string, b: string, c: string)
    ensures Decode(a + ['='] + b + ['='] + c) == Malformed
  {
    var text := a + ['='] + b + ['='] + c;
    assert text != "O-O" && text != "O-O-O" by {
      assert text[|a|] == '=';
    }
    var t := Remove(Remove(text, '+'), '#');
    assert Count(text) >= 2 by { TwoEquals(a, b, c); }
    CountRemove(text, '+');
    CountRemove(Remove(text, '+'), '#');
    var k := IndexOf(t, '=');
    CountSplit(t, k);
  }

  /** The number of '=' characters of `s`. */
  function Count(s: string): nat
  {
    if s == [] then 0 else (if s[0] == '=' then 1 else 0) + Count(s[1..])
  }

  lemma {:induction false} CountAppend(a: string, b: string)
    ensures Count(a + b) == Count(a) + Count(b)
  {
    if a != [] {
      assert (a + b)[1..] == a[1..] + b;
      CountAppend(a[1..], b);
    } else {
      assert a + b == b;
    }
  }

  lemma TwoEquals(a: string, b: string, c: string)
    ensures Count(a + ['='] + b + ['='] + c) >= 2
  {
    CountAppend(a + ['='] + b + ['='], c);
    CountAppend(a + ['='] + b, ['=']);
    CountAppend(a + ['='], b);
    CountAppend(a, ['=']);
  }

  lemma {:induction false} CountRemove(s: string, ch: char)
    requires ch != '='
    ensures Count(Remove(s, ch)) == Count(s)
  {
    if s != [] {
      CountRemove(s[1..], ch);
      CountAppend(if s[0] == ch then [] else [s[0]], Remove(s[1..], ch));
    }
  }

  /** With two '=' characters, the part after the first one still holds one. */
  lemma CountSplit(t: string, k: int)
    requires Count(t) >= 2 && k == IndexOf(t, '=')
    ensures k >= 0 && '=' in t[k + 1..]
  {
    if k < 0 {
      NoEqualsCount(t);
    } else {
      assert t == t[..k] + [t[k]] + t[k + 1..];
      CountAppend(t[..k] + [t[k]], t[k + 1..]);
      CountAppend(t[..k], [t[k]]);
      NoEqualsCount(t[..k]);
      if '=' !in t[k + 1..] {
        NoEqualsCount(t[k + 1..]);
      }
    }
  }

  lemma {:induction false} NoEqualsCount(s: string)
    requires '=' !in s
    ensures Count(s) == 0
  {
    if s != [] {
      assert s[1..] <= s[1..];
      assert forall i :: 0 <= i < |s[1..]| ==> s[1..][i] == s[i + 1];
      NoEqualsCount(s[1..]);
    }
  }
}
