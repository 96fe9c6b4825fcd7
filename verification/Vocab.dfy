/**
  Vocabulary tables, built and validated from the embedded tokenizer payload.
  `Consistent` is what the encoder and decoder rest on.
 */
module Vocabs {
  import opened Utf8
  import opened Bpe

  datatype TokenType = Undefined | Normal | Unknown | Control | UserDefined | Unused | ByteToken

  datatype VocabError =
    | WrongModel
    | UnsupportedFlag
    | ArrayLengths
    | DuplicatePiece(piece: string)
    | BadTokenType(id: nat)
    | BadByteToken(piece: string)
    | IncompleteByteTable(count: nat)
    | BadMergeFormat(index: nat)
    | MergePieceMissing(index: nat)
    | SpecialIdMismatch(expected: string)
    | IdOutOfRange(id: nat)

  datatype Result<+T> = Ok(value: T) | Err(error: VocabError)

  /** The typed metadata fields the constructor reads. */
  datatype Meta = Meta(
    model: string, addBos: bool, addSpacePrefix: bool,
    tokens: seq<string>, scores: nat, types: seq<int>, merges: seq<string>,
    bos: nat, eos: nat, pad: nat, unk: nat)

  datatype Vocab = Vocab(
    pieces: seq<string>,
    pieceToId: map<string, nat>,
    merges: MergeTable,
    byteToId: seq<nat>,
    idToByte: map<nat, byte>,
    specials: seq<(string, nat)>,
    eos: nat, eot: nat)

  /** `u32::MAX`: a byte with no token yet, and a bound on ids. */
  const NO_ID: nat := 0xFFFF_FFFF

  predicate KnownType(raw: int) {
    0 <= raw <= 6
  }

  function FromRaw(raw: int): TokenType
    requires KnownType(raw)
  {
    if raw == 0 then Undefined
    else if raw == 1 then Normal
    else if raw == 2 then Unknown
    else if raw == 3 then Control
    else if raw == 4 then UserDefined
    else if raw == 5 then Unused
    else ByteToken
  }

  function HexDigit(c: char): int {
    if '0' <= c <= '9' then c as int - '0' as int
    else if 'a' <= c <= 'f' then c as int - 'a' as int + 10
    else if 'A' <= c <= 'F' then c as int - 'A' as int + 10
    else -1
  }

  /** `<0xXX>` with two hex digits; a leading `+` is accepted as the number parser accepts it. -1 if not a byte piece. */
  function ParseBytePiece(piece: string): (b: int)
    ensures -1 <= b < 256
  {
    if |piece| != 6 || piece[..3] != "<0x" || piece[5] != '>' then -1
    else if piece[3] == '+' then HexDigit(piece[4])
    else if HexDigit(piece[3]) < 0 || HexDigit(piece[4]) < 0 then -1
    else HexDigit(piece[3]) * 16 + HexDigit(piece[4])
  }

  const UPPER: string := "0123456789ABCDEF"
  const LOWER: string := "0123456789abcdef"

  /** `c` is the hex digit `d`, in either letter case. */
  predicate IsHex(c: char, d: nat)
    requires d < 16
  {
    c == UPPER[d] || c == LOWER[d]
  }

  /** `<0xXX>` with the two hex digits of `b`. */
  predicate Spells(piece: string, b: byte) {
    |piece| == 6 && piece[..3] == "<0x" && IsHex(piece[3], b / 16) && IsHex(piece[4], b % 16) && piece[5] == '>'
  }

  /** `<0x+X>`: a sign where the first digit would be. */
  predicate SpellsSigned(piece: string, b: byte) {
    |piece| == 6 && piece[..3] == "<0x" && piece[3] == '+' && b < 16 && IsHex(piece[4], b) && piece[5] == '>'
  }

  lemma HexDigitIff(c: char, d: nat)
    requires d < 16
    ensures HexDigit(c) == d <==> IsHex(c, d)
  {
  }

  /** A piece names the byte whose two hex digits it spells, or one below 16 behind a sign; no other piece names it. */
  lemma ByteNameIff(piece: string, b: byte)
    ensures ParseBytePiece(piece) == b <==> Spells(piece, b) || SpellsSigned(piece, b)
  {
    if |piece| == 6 && piece[..3] == "<0x" && piece[5] == '>' {
      assert b == b / 16 * 16 + b % 16;
      HexDigitIff(piece[3], b / 16);
      HexDigitIff(piece[4], b % 16);
      if b < 16 {
        HexDigitIff(piece[4], b);
      }
      var h, l := HexDigit(piece[3]), HexDigit(piece[4]);
      assert -1 <= h < 16 && -1 <= l < 16;
      assert piece[3] == '+' ==> h == -1;
      hide HexDigit, IsHex;
    }
  }

  function PrintedByte(b: byte, digits: string): string
    requires |digits| == 16
  {
    "<0x" + [digits[b / 16], digits[b % 16]] + ">"
  }

  /** Every byte is read back from its two digits, in upper or lower case. */
  lemma PrintedByteBack(b: byte)
    ensures ParseBytePiece(PrintedByte(b, UPPER)) == b && ParseBytePiece(PrintedByte(b, LOWER)) == b
  {
    var u, l := PrintedByte(b, UPPER), PrintedByte(b, LOWER);
    ByteNameIff(u, b);
    ByteNameIff(l, b);
    assert u[..3] == "<0x" && l[..3] == "<0x" && u[3] == UPPER[b / 16] && l[3] == LOWER[b / 16] && u[4] == UPPER[b % 16] && l[4] == LOWER[b % 16];
    hide ParseBytePiece;
  }

  // ------------------------------------------------------------ the tables

  /** Tables under construction. */
  datatype Tables = Tables(
    pieces: seq<string>,
    pieceToId: map<string, nat>,
    byteToId: seq<nat>,
    idToByte: map<nat, byte>,
    specials: seq<(string, nat)>,
    byteCount: nat)

  ghost predicate PiecesIndexed(pieces: seq<string>, pieceToId: map<string, nat>) {
    && (forall i | 0 <= i < |pieces| :: pieces[i] in pieceToId && pieceToId[pieces[i]] == i)
    && (forall p | p in pieceToId :: pieceToId[p] < |pieces| && pieces[pieceToId[p]] == p)
  }

  /** Byte tokens name the byte they spell, and each table slot names a token for its byte. */
  ghost predicate BytesIndexed(t: Tables) {
    && |t.byteToId| == 256
    && (forall id | id in t.idToByte :: id < |t.pieces| && ParseBytePiece(t.pieces[id]) == t.idToByte[id])
    && (forall b | 0 <= b < 256 && t.byteToId[b] != NO_ID :: t.byteToId[b] in t.idToByte && t.idToByte[t.byteToId[b]] == b)
    && |t.idToByte| == t.byteCount
  }

  /** Every byte that some token spells has its slot filled. */
  ghost predicate SlotsFilled(t: Tables) {
    |t.byteToId| == 256 && forall id | id in t.idToByte :: t.byteToId[t.idToByte[id]] != NO_ID
  }

  /** Specials are tokens of their own, never byte tokens. */
  ghost predicate SpecialsIndexed(pieces: seq<string>, idToByte: map<nat, byte>, specials: seq<(string, nat)>) {
    forall k | 0 <= k < |specials| ::
      specials[k].1 < |pieces| && pieces[specials[k].1] == specials[k].0 && specials[k].1 !in idToByte
  }

  ghost predicate Built(t: Tables) {
    && PiecesIndexed(t.pieces, t.pieceToId) && BytesIndexed(t) && SlotsFilled(t)
    && SpecialsIndexed(t.pieces, t.idToByte, t.specials)
  }

  const NO_TOKENS := Tables([], map[], seq(256, _ => NO_ID), map[], [], 0)

  type GoodTables = t: Tables | Built(t) witness NO_TOKENS

  /** A token that is neither byte nor special; the piece must be new. */
  method AddPiece(t: GoodTables, piece: string) returns (r: GoodTables)
    requires |t.pieces| < NO_ID && piece !in t.pieceToId
    ensures r.pieces == t.pieces + [piece] && r.specials == t.specials
    ensures |t.pieces| !in r.idToByte && r.idToByte == t.idToByte
  {
    r := t.(pieces := t.pieces + [piece], pieceToId := t.pieceToId[piece := |t.pieces|]);
  }

  /** Record that the last token spells byte `b`. */
  method MarkByte(t: GoodTables, id: nat, b: byte) returns (r: GoodTables)
    requires |t.pieces| == id + 1 <= NO_ID && id !in t.idToByte && ParseBytePiece(t.pieces[id]) == b
    requires forall k | 0 <= k < |t.specials| :: t.specials[k].1 != id
    ensures r.pieces == t.pieces && r.specials == t.specials && r.idToByte.Keys == t.idToByte.Keys + {id}
  {
    var u := t.(byteToId := t.byteToId[b := id], idToByte := t.idToByte[id := b], byteCount := t.byteCount + 1);
    BytesMarked(t, id, b, u);
    SlotsStayFilled(t, id, b, u);
    SpecialsStay(t, id, b, u);
    hide PiecesIndexed, BytesIndexed, SlotsFilled, SpecialsIndexed, ParseBytePiece;
    r := u;
  }

  lemma BytesMarked(t: Tables, id: nat, b: byte, u: Tables)
    requires BytesIndexed(t) && |t.pieces| == id + 1 <= NO_ID && id !in t.idToByte && ParseBytePiece(t.pieces[id]) == b
    requires u == t.(byteToId := t.byteToId[b := id], idToByte := t.idToByte[id := b], byteCount := t.byteCount + 1)
    ensures BytesIndexed(u) && u.idToByte.Keys == t.idToByte.Keys + {id}
  {
    hide ParseBytePiece;
    assert u.idToByte.Keys == t.idToByte.Keys + {id};
  }

  lemma SpecialsStay(t: Tables, id: nat, b: byte, u: Tables)
    requires SpecialsIndexed(t.pieces, t.idToByte, t.specials) && forall k | 0 <= k < |t.specials| :: t.specials[k].1 != id
    requires b < |t.byteToId| && u == t.(byteToId := t.byteToId[b := id], idToByte := t.idToByte[id := b], byteCount := t.byteCount + 1)
    ensures SpecialsIndexed(u.pieces, u.idToByte, u.specials)
  {
  }

  lemma SlotsStayFilled(t: Tables, id: nat, b: byte, u: Tables)
    requires SlotsFilled(t) && id < NO_ID
    requires u == t.(byteToId := t.byteToId[b := id], idToByte := t.idToByte[id := b], byteCount := t.byteCount + 1)
    ensures SlotsFilled(u)
  {
  }

  method MarkSpecial(t: GoodTables, piece: string, id: nat) returns (r: GoodTables)
    requires id < |t.pieces| && t.pieces[id] == piece && id !in t.idToByte
    ensures r == t.(specials := t.specials + [(piece, id)])
  {
    r := t.(specials := t.specials + [(piece, id)]);
  }

  /** A type the table knows, and a byte token only where the piece spells a byte. */
  predicate TypeOk(piece: string, raw: int) {
    0 <= raw <= 6 && (raw == 6 ==> ParseBytePiece(piece) >= 0)
  }

  /** A control (3) or user-defined (4) token is a special. */
  function SpecialOf(piece: string, raw: int, id: nat): seq<(string, nat)> {
    if raw == 3 || raw == 4 then [(piece, id)] else []
  }

  function NewByteToken(raw: int, id: nat): set<nat> {
    if raw == 6 then {id} else {}
  }

  /** One token of the payload. */
  method AddToken(t: GoodTables, piece: string, raw: int) returns (r: Result<GoodTables>)
    requires |t.pieces| < NO_ID
    ensures r.Ok? <==> TypeOk(piece, raw) && piece !in t.pieceToId
    ensures r.Ok? ==> r.value.pieces == t.pieces + [piece]
    ensures r.Ok? ==> r.value.specials == t.specials + SpecialOf(piece, raw, |t.pieces|)
    ensures r.Ok? ==> r.value.idToByte.Keys == t.idToByte.Keys + NewByteToken(raw, |t.pieces|)
  {
    hide PiecesIndexed, BytesIndexed, SlotsFilled, ParseBytePiece, SpecialsIndexed;
    var id := |t.pieces|;
    assert t.idToByte.Keys + {} == t.idToByte.Keys && t.specials + [] == t.specials;
    if !KnownType(raw) {
      return Err(BadTokenType(id));
    }
    if piece in t.pieceToId {
      return Err(DuplicatePiece(piece));
    }
    SpecialsAreOld(t);
    var u := AddPiece(t, piece);
    match FromRaw(raw) {
      case ByteToken =>
        var b := ParseBytePiece(piece);
        if b < 0 {
          return Err(BadByteToken(piece));
        }
        u := MarkByte(u, id, b);
      case Control =>
        u := MarkSpecial(u, piece, id);
      case UserDefined =>
        u := MarkSpecial(u, piece, id);
      case _ =>
    }
    r := Ok(u);
  }

  lemma SpecialsAreOld(t: GoodTables)
    ensures forall k | 0 <= k < |t.specials| :: t.specials[k].1 < |t.pieces|
  {
  }

  /** A payload that passes the token checks: known types, byte tokens that spell bytes, no piece twice. */
  predicate TokensOk(tokens: seq<string>, types: seq<int>)
    requires |tokens| == |types|
  {
    && (forall i | 0 <= i < |tokens| :: TypeOk(tokens[i], types[i]))
    && (forall i, j | 0 <= i < j < |tokens| :: tokens[i] != tokens[j])
  }

  /** The control and user-defined tokens, in the payload's order. */
  function ListedSpecials(tokens: seq<string>, types: seq<int>): (r: seq<(string, nat)>)
    requires |tokens| == |types| && TokensOk(tokens, types)
    ensures forall s :: s in r <==> s.1 < |tokens| && tokens[s.1] == s.0 && (types[s.1] == 3 || types[s.1] == 4)
    ensures forall i, j | 0 <= i < j < |r| :: r[i].1 < r[j].1
    decreases |tokens|
  {
    if tokens == [] then []
    else
      var n := |tokens| - 1;
      var r := ListedSpecials(tokens[..n], types[..n]);
      assert forall i | 0 <= i < |r| :: r[i] in r;
      r + SpecialOf(tokens[n], types[n], n)
  }

  /** The ids of the byte tokens. */
  function ByteTokens(types: seq<int>): (r: set<nat>) {
    set id: nat | id < |types| && types[id] == 6
  }

  method AddTokens(tokens: seq<string>, types: seq<int>) returns (r: Result<GoodTables>)
    requires |tokens| == |types| <= NO_ID
    ensures r.Ok? <==> TokensOk(tokens, types)
    ensures r.Ok? ==> r.value.pieces == tokens && r.value.specials == ListedSpecials(tokens, types)
    ensures r.Ok? ==> r.value.idToByte.Keys == ByteTokens(types)
  {
    hide Built, TokensOk, ListedSpecials, ByteTokens, SpecialOf, NewByteToken, TypeOk;
    NothingListed();
    var t: GoodTables := NO_TOKENS;
    var i := 0;
    while i < |tokens|
      invariant i <= |tokens| && t.pieces == tokens[..i] && TokensOk(tokens[..i], types[..i])
      invariant t.specials == ListedSpecials(tokens[..i], types[..i])
      invariant t.idToByte.Keys == ByteTokens(types[..i])
    {
      var added := AddToken(t, tokens[i], types[i]);
      OneMoreToken(tokens, types, i);
      KnownPieces(t, tokens[i]);
      if added.Err? {
        return added;
      }
      t := added.value;
      i := i + 1;
    }
    assert tokens[..i] == tokens && types[..i] == types;
    r := Ok(t);
  }

  lemma NothingListed()
    ensures Built(NO_TOKENS) && TokensOk([], []) && ListedSpecials([], []) == [] && ByteTokens([]) == {}
  {
  }

  lemma KnownPieces(t: GoodTables, piece: string)
    ensures piece in t.pieceToId <==> piece in t.pieces
  {
  }

  /** What one more token adds. */
  lemma OneMoreToken(tokens: seq<string>, types: seq<int>, i: nat)
    requires |tokens| == |types| && i < |tokens| && TokensOk(tokens[..i], types[..i])
    ensures var ok := TypeOk(tokens[i], types[i]) && tokens[i] !in tokens[..i];
            && (!ok ==> !TokensOk(tokens, types))
            && (ok ==>
                  && TokensOk(tokens[..i + 1], types[..i + 1])
                  && ListedSpecials(tokens[..i + 1], types[..i + 1]) == ListedSpecials(tokens[..i], types[..i]) + SpecialOf(tokens[i], types[i], i)
                  && ByteTokens(types[..i + 1]) == ByteTokens(types[..i]) + NewByteToken(types[i], i))
  {
    var ts, ys := tokens[..i + 1], types[..i + 1];
    assert ts[..i] == tokens[..i] && ys[..i] == types[..i] && ts[i] == tokens[i] && ys[i] == types[i];
    TokensGrow(tokens, types, i);
    BytesGrow(ys, i);
    hide TypeOk, ByteTokens, NewByteToken, SpecialOf;
  }

  lemma BytesGrow(types: seq<int>, i: nat)
    requires |types| == i + 1
    ensures ByteTokens(types) == ByteTokens(types[..i]) + NewByteToken(types[i], i)
  {
    assert forall j | 0 <= j < i :: types[..i][j] == types[j];
  }

  lemma TokensGrow(tokens: seq<string>, types: seq<int>, i: nat)
    requires |tokens| == |types| && i < |tokens| && TokensOk(tokens[..i], types[..i])
    ensures var ok := TypeOk(tokens[i], types[i]) && tokens[i] !in tokens[..i];
            (!ok ==> !TokensOk(tokens, types)) && (ok ==> TokensOk(tokens[..i + 1], types[..i + 1]))
  {
    hide TypeOk;
    var ts, ys := tokens[..i + 1], types[..i + 1];
    assert forall j | 0 <= j < i :: tokens[..i][j] == ts[j] == tokens[j] && types[..i][j] == ys[j] == types[j];
    assert ts[i] == tokens[i] && ys[i] == types[i];
    if tokens[i] in tokens[..i] {
      var j :| 0 <= j < i && tokens[..i][j] == tokens[i];
      assert tokens[j] == tokens[i];
    }
  }

  // ----------------------------------------------- the byte table is exact

  /** Ids of the byte table as a set. */
  function SlotIds(s: seq<nat>): (r: set<nat>)
    ensures forall x :: x in r <==> x in s
  {
    if s == [] then {} else SlotIds(s[..|s| - 1]) + {s[|s| - 1]}
  }

  lemma {:induction false} DistinctCount(s: seq<nat>)
    requires forall i, j | 0 <= i < j < |s| :: s[i] != s[j]
    ensures |SlotIds(s)| == |s|
    decreases |s|
  {
    if s != [] {
      DistinctCount(s[..|s| - 1]);
      assert s[|s| - 1] !in s[..|s| - 1];
    }
  }

  lemma {:induction false} EqualBySize(a: set<nat>, b: set<nat>)
    requires a <= b && |a| == |b|
    ensures a == b
    decreases |a|
  {
    if a == {} {
      assert b == {};
    } else {
      var x :| x in a;
      EqualBySize(a - {x}, b - {x});
      assert a == (a - {x}) + {x} && b == (b - {x}) + {x};
    }
  }

  lemma SlotsAreAllIds(t: Tables)
    requires BytesIndexed(t) && t.byteCount == 256 && NO_ID !in t.byteToId
    ensures SlotIds(t.byteToId) == t.idToByte.Keys
  {
    var s := t.byteToId;
    forall b | 0 <= b < 256
      ensures s[b] in t.idToByte && t.idToByte[s[b]] == b
    {
      assert s[b] in s;
    }
    DistinctCount(s);
    EqualBySize(SlotIds(s), t.idToByte.Keys);
  }

  /** With every slot filled by exactly 256 byte tokens, byte values and byte tokens correspond one to one. */
  lemma ByteTableIsBijective(t: Tables)
    requires BytesIndexed(t) && t.byteCount == 256 && NO_ID !in t.byteToId
    ensures forall b: byte :: t.byteToId[b] in t.idToByte && t.idToByte[t.byteToId[b]] == b
    ensures forall id | id in t.idToByte :: t.byteToId[t.idToByte[id]] == id
  {
    SlotsAreAllIds(t);
    hide SlotIds;
    var s := t.byteToId;
    assert forall b | 0 <= b < 256 :: s[b] in s;
    forall id | id in t.idToByte
      ensures s[t.idToByte[id]] == id
    {
      assert id in SlotIds(s);
      var b :| 0 <= b < |s| && s[b] == id;
    }
  }

  // ------------------------------------------------------------- specials

  function ByteLen(s: string): nat {
    |EncodeAll(s)|
  }

  ghost predicate LongestFirst(s: seq<(string, nat)>) {
    forall i, j | 0 <= i < j < |s| :: ByteLen(s[i].0) >= ByteLen(s[j].0)
  }

  /** Place `x` behind everything at least as long: the stable position. */
  function InsertByLen(x: (string, nat), s: seq<(string, nat)>): (r: seq<(string, nat)>)
    ensures multiset(r) == multiset(s) + multiset{x}
    decreases |s|
  {
    if s == [] then [x]
    else
      var last := s[|s| - 1];
      assert s == s[..|s| - 1] + [last];
      if ByteLen(last.0) >= ByteLen(x.0) then s + [x] else InsertByLen(x, s[..|s| - 1]) + [last]
  }

  lemma {:induction false} InsertKeepsOrder(x: (string, nat), s: seq<(string, nat)>)
    requires LongestFirst(s)
    ensures LongestFirst(InsertByLen(x, s))
    decreases |s|
  {
    if s != [] && ByteLen(s[|s| - 1].0) < ByteLen(x.0) {
      var last, q := s[|s| - 1], InsertByLen(x, s[..|s| - 1]);
      InsertKeepsOrder(x, s[..|s| - 1]);
      forall i | 0 <= i < |q|
        ensures ByteLen(q[i].0) >= ByteLen(last.0)
      {
        assert q[i] in multiset(q);
        assert q[i] == x || q[i] in s[..|s| - 1];
      }
    }
  }

  /** `sort_by_key(Reverse(len))`. */
  function SortByLen(s: seq<(string, nat)>): (r: seq<(string, nat)>)
    ensures LongestFirst(r) && multiset(r) == multiset(s)
    decreases |s|
  {
    if s == [] then []
    else
      assert s == s[..|s| - 1] + [s[|s| - 1]];
      InsertKeepsOrder(s[|s| - 1], SortByLen(s[..|s| - 1]));
      InsertByLen(s[|s| - 1], SortByLen(s[..|s| - 1]))
  }

  lemma SortedSameMembers(s: seq<(string, nat)>)
    ensures forall x :: x in SortByLen(s) <==> x in s
  {
    assert forall x :: x in SortByLen(s) <==> x in multiset(SortByLen(s));
    assert forall x :: x in s <==> x in multiset(s);
  }

  // --------------------------------------------------------------- merges

  /** Every merge joins two pieces into the piece spelled by both. */
  ghost predicate MergesSpell(pieces: seq<string>, merges: MergeTable) {
    forall p | p in merges ::
      p.0 < |pieces| && p.1 < |pieces| && merges[p].1 < |pieces| && pieces[merges[p].1] == pieces[p.0] + pieces[p.1]
  }

  /** A rank names one pair: ties can only be between occurrences of the same pair. */
  ghost predicate RanksDistinct(merges: MergeTable) {
    forall p, q | p in merges && q in merges && merges[p].0 == merges[q].0 :: p == q
  }

  function SpaceAt(s: string): (i: nat)
    ensures i <= |s| && (i < |s| ==> s[i] == ' ')
  {
    if s == [] || s[0] == ' ' then 0 else 1 + SpaceAt(s[1..])
  }

  /** A merge entry, cut at its only space. */
  datatype Parts = Parts(left: string, right: string) | NoParts

  function PartsOf(merge: string): (r: Parts)
    ensures forall l, o :: r == Parts(l, o) <==> merge == l + " " + o && l != [] && o != [] && ' ' !in l && ' ' !in o
  {
    var at := SpaceAt(merge);
    FirstSpace(merge);
    if at == |merge| || merge[..at] == [] || merge[at + 1..] == [] || ' ' in merge[at + 1..] then NoParts
    else Parts(merge[..at], merge[at + 1..])
  }

  lemma {:induction false} FirstSpace(merge: string)
    ensures ' ' !in merge[..SpaceAt(merge)]
    ensures forall l: string, o: string | merge == l + " " + o && ' ' !in l :: SpaceAt(merge) == |l| && merge[..|l|] == l && merge[|l| + 1..] == o
    decreases |merge|
  {
    if merge != [] && merge[0] != ' ' {
      FirstSpace(merge[1..]);
      assert merge[..SpaceAt(merge)] == [merge[0]] + merge[1..][..SpaceAt(merge[1..])];
    }
    forall l: string, o: string | merge == l + " " + o && ' ' !in l
      ensures SpaceAt(merge) == |l| && merge[..|l|] == l && merge[|l| + 1..] == o
    {
      assert merge[|l|] == ' ';
      if l != [] {
        assert merge[0] == l[0] && l[0] in l;
        assert merge[1..] == l[1..] + " " + o;
      }
    }
  }

  /** An entry the table takes: two pieces whose joint spelling is a piece. */
  predicate MergeOk(pieces: seq<string>, merge: string) {
    var m := PartsOf(merge);
    m.Parts? && m.left in pieces && m.right in pieces && m.left + m.right in pieces
  }

  /** `merge` joins the pieces of `p`. */
  predicate Lists(pieces: seq<string>, merge: string, p: (nat, nat)) {
    p.0 < |pieces| && p.1 < |pieces| && PartsOf(merge) == Parts(pieces[p.0], pieces[p.1])
  }

  /** Exactly the listed pairs are in the table, each with the index of its last entry for a rank. */
  ghost predicate TableOf(pieces: seq<string>, merges: seq<string>, table: MergeTable) {
    && (forall i, p | 0 <= i < |merges| && Lists(pieces, merges[i], p) :: p in table && i <= table[p].0)
    && (forall p | p in table :: table[p].0 < |merges| && Lists(pieces, merges[table[p].0], p))
  }

  method AddMerges(pieces: seq<string>, pieceToId: map<string, nat>, merges: seq<string>) returns (r: Result<MergeTable>)
    requires PiecesIndexed(pieces, pieceToId)
    ensures r.Ok? <==> forall i | 0 <= i < |merges| :: MergeOk(pieces, merges[i])
    ensures r.Ok? ==> MergesSpell(pieces, r.value) && RanksDistinct(r.value) && TableOf(pieces, merges, r.value)
  {
    hide PiecesIndexed, MergesSpell, RanksDistinct, TableOf, MergeOk, PartsOf;
    var table: MergeTable := map[];
    NoMerges(pieces);
    var i := 0;
    while i < |merges|
      invariant i <= |merges| && MergesSpell(pieces, table) && RanksDistinct(table)
      invariant TableOf(pieces, merges[..i], table)
      invariant forall j | 0 <= j < i :: MergeOk(pieces, merges[j])
    {
      var m := PartsOf(merges[i]);
      if m.NoParts? {
        IndexedPieces(pieces, pieceToId, merges[i]);
        return Err(BadMergeFormat(i));
      }
      if m.left !in pieceToId || m.right !in pieceToId || m.left + m.right !in pieceToId {
        IndexedPieces(pieces, pieceToId, merges[i]);
        return Err(MergePieceMissing(i));
      }
      ghost var before := table;
      var p := (pieceToId[m.left], pieceToId[m.right]);
      table := table[p := (i, pieceToId[m.left + m.right])];
      OneMoreMerge(pieces, pieceToId, merges, i, before, p);
      RankIsNew(pieces, merges, i, before, p, pieceToId[m.left + m.right]);
      SpellsOn(pieces, pieceToId, merges[i], before, i);
      i := i + 1;
    }
    assert merges[..i] == merges;
    r := Ok(table);
  }

  lemma NoMerges(pieces: seq<string>)
    ensures MergesSpell(pieces, map[]) && RanksDistinct(map[]) && TableOf(pieces, [], map[])
  {
  }

  lemma IndexedPieces(pieces: seq<string>, pieceToId: map<string, nat>, merge: string)
    requires PiecesIndexed(pieces, pieceToId)
    ensures var m := PartsOf(merge);
            MergeOk(pieces, merge) <==> m.Parts? && m.left in pieceToId && m.right in pieceToId && m.left + m.right in pieceToId
  {
    hide PartsOf;
    assert forall p | p in pieceToId :: pieces[pieceToId[p]] == p;
  }

  /** The entry's pair, with the piece it spells, keeps the table spelling. */
  lemma SpellsOn(pieces: seq<string>, pieceToId: map<string, nat>, merge: string, table: MergeTable, i: nat)
    requires PiecesIndexed(pieces, pieceToId) && MergesSpell(pieces, table)
    requires var m := PartsOf(merge);
             m.Parts? && m.left in pieceToId && m.right in pieceToId && m.left + m.right in pieceToId
    ensures var m := PartsOf(merge);
            MergesSpell(pieces, table[(pieceToId[m.left], pieceToId[m.right]) := (i, pieceToId[m.left + m.right])])
  {
    hide PartsOf;
  }

  lemma OneMoreMerge(pieces: seq<string>, pieceToId: map<string, nat>, merges: seq<string>, i: nat, table: MergeTable, p: (nat, nat))
    requires PiecesIndexed(pieces, pieceToId) && i < |merges| && TableOf(pieces, merges[..i], table)
    requires var m := PartsOf(merges[i]);
             && m.Parts? && m.left in pieceToId && m.right in pieceToId && m.left + m.right in pieceToId
             && p == (pieceToId[m.left], pieceToId[m.right])
    ensures var m := PartsOf(merges[i]);
            TableOf(pieces, merges[..i + 1], table[p := (i, pieceToId[m.left + m.right])]) && MergeOk(pieces, merges[i])
  {
    hide PartsOf;
    var more := merges[..i + 1];
    assert forall j | 0 <= j < i :: more[j] == merges[..i][j];
    assert more[i] == merges[i];
    forall q | Lists(pieces, merges[i], q)
      ensures q == p
    {
    }
  }

  /** The index of a new entry is no rank in the table yet. */
  lemma RankIsNew(pieces: seq<string>, merges: seq<string>, i: nat, table: MergeTable, p: (nat, nat), id: nat)
    requires i <= |merges| && TableOf(pieces, merges[..i], table) && RanksDistinct(table)
    ensures RanksDistinct(table[p := (i, id)])
  {
  }

  // ----------------------------------------------------------- the vocabulary

  ghost predicate Consistent(v: Vocab) {
    && PiecesIndexed(v.pieces, v.pieceToId)
    && MergesSpell(v.pieces, v.merges) && RanksDistinct(v.merges)
    && |v.byteToId| == 256
    && (forall b: byte :: v.byteToId[b] in v.idToByte && v.idToByte[v.byteToId[b]] == b)
    && (forall id | id in v.idToByte :: id < |v.pieces| && v.byteToId[v.idToByte[id]] == id && ParseBytePiece(v.pieces[id]) == v.idToByte[id])
    && SpecialsIndexed(v.pieces, v.idToByte, v.specials) && LongestFirst(v.specials)
    && v.eos < |v.pieces| && v.eot < |v.pieces|
  }

  function CheckSpecial(pieces: seq<string>, id: nat, expected: string): Result<nat> {
    if id >= |pieces| then Err(IdOutOfRange(id))
    else if pieces[id] != expected then Err(SpecialIdMismatch(expected))
    else Ok(id)
  }

  ghost predicate HasByte(tokens: seq<string>, types: seq<int>, b: byte)
    requires |tokens| == |types|
  {
    exists id :: id in ByteTokens(types) && ParseBytePiece(tokens[id]) == b
  }

  /** 256 byte tokens, and one for every byte. */
  ghost predicate BytesComplete(tokens: seq<string>, types: seq<int>)
    requires |tokens| == |types|
  {
    |ByteTokens(types)| == 256 && forall b: byte :: HasByte(tokens, types, b)
  }

  predicate Names(tokens: seq<string>, id: nat, piece: string) {
    id < |tokens| && tokens[id] == piece
  }

  /** The metadata that make a vocabulary. */
  ghost predicate Accepts(meta: Meta) {
    && meta.model == "gemma4" && !meta.addBos && !meta.addSpacePrefix
    && |meta.tokens| == meta.scores && |meta.tokens| == |meta.types|
    && TokensOk(meta.tokens, meta.types) && Finishes(meta)
  }

  /** What is checked once the tokens are read. */
  ghost predicate Finishes(meta: Meta)
    requires |meta.tokens| == |meta.types|
  {
    && BytesComplete(meta.tokens, meta.types)
    && (forall i | 0 <= i < |meta.merges| :: MergeOk(meta.tokens, meta.merges[i]))
    && Names(meta.tokens, meta.bos, "<bos>") && Names(meta.tokens, meta.eos, "<eos>")
    && Names(meta.tokens, meta.pad, "<pad>") && Names(meta.tokens, meta.unk, "<unk>")
    && "<turn|>" in meta.tokens
  }

  /** The tables hold what the metadata list. */
  ghost predicate Describes(meta: Meta, v: Vocab) {
    && |meta.tokens| == |meta.types| && TokensOk(meta.tokens, meta.types)
    && v.pieces == meta.tokens && v.idToByte.Keys == ByteTokens(meta.types)
    && v.specials == SortByLen(ListedSpecials(meta.tokens, meta.types))
    && TableOf(v.pieces, meta.merges, v.merges)
    && v.eos == meta.eos < |v.pieces| && v.pieces[v.eos] == "<eos>"
    && v.eot < |v.pieces| && v.pieces[v.eot] == "<turn|>"
  }

  /** `Vocab::from_metadata`. */
  method FromMetadata(meta: Meta) returns (r: Result<Vocab>)
    requires |meta.tokens| <= 0xFFFF_FFFF
    ensures r.Ok? <==> Accepts(meta)
    ensures r.Ok? ==> Consistent(r.value) && Describes(meta, r.value)
  {
    hide TokensOk, Finishes, Consistent, Describes;
    if meta.model != "gemma4" {
      return Err(WrongModel);
    }
    if meta.addBos || meta.addSpacePrefix {
      return Err(UnsupportedFlag);
    }
    if |meta.tokens| != meta.scores || |meta.tokens| != |meta.types| {
      return Err(ArrayLengths);
    }
    var built := AddTokens(meta.tokens, meta.types);
    if built.Err? {
      return Err(built.error);
    }
    r := FinishVocab(meta, built.value);
  }

  /** The byte table is full exactly when the payload has 256 byte tokens, one for every byte. */
  lemma FullTable(meta: Meta, t: GoodTables)
    requires t.pieces == meta.tokens && |meta.tokens| == |meta.types| && t.idToByte.Keys == ByteTokens(meta.types)
    ensures t.byteCount == 256 && NO_ID !in t.byteToId <==> BytesComplete(meta.tokens, meta.types)
  {
    hide ParseBytePiece, PiecesIndexed, SpecialsIndexed, ByteTokens;
    assert |t.idToByte.Keys| == |t.idToByte| == t.byteCount;
    if NO_ID !in t.byteToId {
      forall b: byte
        ensures HasByte(meta.tokens, meta.types, b)
      {
        assert t.byteToId[b] in t.byteToId;
        assert t.byteToId[b] in t.idToByte.Keys;
      }
    } else {
      var b :| 0 <= b < |t.byteToId| && t.byteToId[b] == NO_ID;
      var missing: byte := b;
      forall id | id in ByteTokens(meta.types)
        ensures ParseBytePiece(meta.tokens[id]) != missing
      {
        assert id in t.idToByte.Keys && t.byteToId[t.idToByte[id]] != NO_ID;
      }
      assert !HasByte(meta.tokens, meta.types, missing);
    }
  }

  method FinishVocab(meta: Meta, t: GoodTables) returns (r: Result<Vocab>)
    requires |meta.tokens| == |meta.types| && TokensOk(meta.tokens, meta.types)
    requires t.pieces == meta.tokens && t.specials == ListedSpecials(meta.tokens, meta.types)
    requires t.idToByte.Keys == ByteTokens(meta.types)
    ensures r.Ok? <==> Finishes(meta)
    ensures r.Ok? ==> Consistent(r.value) && Describes(meta, r.value)
  {
    hide BytesComplete, TokensOk, MergeOk, TableOf, ListedSpecials, ByteTokens, SortByLen;
    FullTable(meta, t);
    if t.byteCount != 256 || NO_ID in t.byteToId {
      return Err(IncompleteByteTable(t.byteCount));
    }
    ByteTableIsBijective(t);
    var merges := AddMerges(t.pieces, t.pieceToId, meta.merges);
    if merges.Err? {
      return Err(merges.error);
    }
    var bos, eos := CheckSpecial(t.pieces, meta.bos, "<bos>"), CheckSpecial(t.pieces, meta.eos, "<eos>");
    var pad, unk := CheckSpecial(t.pieces, meta.pad, "<pad>"), CheckSpecial(t.pieces, meta.unk, "<unk>");
    if bos.Err? || eos.Err? || pad.Err? || unk.Err? {
      return Err(if bos.Err? then bos.error else if eos.Err? then eos.error else if pad.Err? then pad.error else unk.error);
    }
    KnownPieces(t, "<turn|>");
    if "<turn|>" !in t.pieceToId {
      return Err(SpecialIdMismatch("<turn|>"));
    }
    var sorted := SortByLen(t.specials);
    SortedIndexed(t, sorted);
    r := Ok(Vocab(t.pieces, t.pieceToId, merges.value, t.byteToId, t.idToByte, sorted, eos.value, t.pieceToId["<turn|>"]));
  }

  /** In every vocabulary a byte's token spells that byte in hex, in either letter case, or behind a sign. */
  lemma ByteTokensSpell(v: Vocab, b: byte)
    requires Consistent(v)
    ensures v.byteToId[b] < |v.pieces|
    ensures Spells(v.pieces[v.byteToId[b]], b) || SpellsSigned(v.pieces[v.byteToId[b]], b)
  {
    ByteNameIff(v.pieces[v.byteToId[b]], b);
    hide ParseBytePiece, Spells, SpellsSigned;
  }

  /** The metadata leave no choice: there is one vocabulary they describe. */
  lemma VocabIsDetermined(meta: Meta, v: Vocab, u: Vocab)
    requires Consistent(v) && Consistent(u) && Describes(meta, v) && Describes(meta, u)
    ensures v == u
  {
    SameIndex(v, u);
    SameMerges(v.pieces, meta.merges, v.merges, u.merges);
    SameBytes(v, u);
    hide Consistent, Describes;
  }

  lemma SameIndex(v: Vocab, u: Vocab)
    requires PiecesIndexed(v.pieces, v.pieceToId) && PiecesIndexed(u.pieces, u.pieceToId) && v.pieces == u.pieces
    ensures v.pieceToId == u.pieceToId
    ensures forall i, j | 0 <= i < j < |v.pieces| :: v.pieces[i] != v.pieces[j]
  {
    assert forall p | p in v.pieceToId :: v.pieces[v.pieceToId[p]] == p;
    assert forall p | p in u.pieceToId :: u.pieces[u.pieceToId[p]] == p;
    assert v.pieceToId.Keys == u.pieceToId.Keys;
  }

  lemma SameMerge(pieces: seq<string>, merges: seq<string>, a: MergeTable, b: MergeTable, p: (nat, nat))
    requires forall i, j | 0 <= i < j < |pieces| :: pieces[i] != pieces[j]
    requires MergesSpell(pieces, a) && MergesSpell(pieces, b) && TableOf(pieces, merges, a) && TableOf(pieces, merges, b)
    requires p in a
    ensures p in b && a[p] == b[p]
  {
    hide PartsOf, Lists;
    assert Lists(pieces, merges[a[p].0], p);
    assert Lists(pieces, merges[b[p].0], p);
    assert pieces[a[p].1] == pieces[b[p].1];
  }

  lemma SameMerges(pieces: seq<string>, merges: seq<string>, a: MergeTable, b: MergeTable)
    requires forall i, j | 0 <= i < j < |pieces| :: pieces[i] != pieces[j]
    requires MergesSpell(pieces, a) && MergesSpell(pieces, b) && TableOf(pieces, merges, a) && TableOf(pieces, merges, b)
    ensures a == b
  {
    hide MergesSpell, TableOf;
    forall p | p in a
      ensures p in b && a[p] == b[p]
    {
      SameMerge(pieces, merges, a, b, p);
    }
    forall p | p in b
      ensures p in a
    {
      SameMerge(pieces, merges, b, a, p);
    }
  }

  lemma SameBytes(v: Vocab, u: Vocab)
    requires Consistent(v) && Consistent(u) && v.pieces == u.pieces && v.idToByte.Keys == u.idToByte.Keys
    ensures v.idToByte == u.idToByte && v.byteToId == u.byteToId
  {
    hide ParseBytePiece;
    forall id | id in v.idToByte
      ensures id in u.idToByte && v.idToByte[id] == u.idToByte[id]
    {
      assert id in v.idToByte.Keys;
    }
    assert v.idToByte == u.idToByte;
    forall b: byte
      ensures v.byteToId[b] == u.byteToId[b]
    {
      assert v.byteToId[b] in v.idToByte;
    }
  }

  lemma SortedIndexed(t: Tables, sorted: seq<(string, nat)>)
    requires Built(t) && sorted == SortByLen(t.specials)
    ensures SpecialsIndexed(t.pieces, t.idToByte, sorted)
  {
    SortedSameMembers(t.specials);
    forall k | 0 <= k < |sorted|
      ensures sorted[k] in t.specials
    {
      assert sorted[k] in sorted;
    }
  }
}
