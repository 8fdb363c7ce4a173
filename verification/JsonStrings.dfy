/** Which texts the decoder reads as strings, and as what: exactly the string literals of section 7 of RFC 8259,
    written out from their characters and escapes. */
module JsonStrings {
  import opened Options
  import opened Basics
  import opened Utf8
  import opened Arith
  import opened Json

  // ----- literals, piece by piece -----

  /** One byte as it is, a two-character escape, a scalar in four hexadecimal digits, or one above 0xFFFF as a
      surrogate pair. */
  datatype Piece = Raw(c: Byte) | Short(c: Byte) | Unit(cp: nat, h: Bytes) | Pair(cp: nat, high: Bytes, low: Bytes)

  /** What stands after the backslash, and what is meant: quotation mark, backslash, slash, backspace, form feed,
      line feed, carriage return, tab. */
  const SHORTS: map<Byte, Byte> := map[
                                     0x22 := 0x22, 0x5C := 0x5C, 0x2F := 0x2F, 0x62 := 0x08, 0x66 := 0x0C, 0x6E := 0x0A,
                                     0x72 := 0x0D, 0x74 := 0x09]

  const LOWER := "0123456789abcdef"
  const UPPER := "0123456789ABCDEF"

  predicate HexIs(c: Byte, d: nat) {
    d < 16 && (c == LOWER[d] as int || c == UPPER[d] as int)
  }

  /** Four hexadecimal digits, in either case. */
  predicate IsHex(h: Bytes, v: nat) {
    |h| == 4 && v <= 0xFFFF &&
    HexIs(h[0], v / 0x1000) && HexIs(h[1], v / 0x100 % 0x10) && HexIs(h[2], v / 0x10 % 0x10) && HexIs(h[3], v % 0x10)
  }

  predicate IsPiece(p: Piece) {
    match p
    case Raw(c) => c >= 0x20 && c != QUOTE && c != BACKSLASH
    case Short(c) => c in SHORTS
    case Unit(cp, h) => IsHex(h, cp) && !(0xD800 <= cp <= 0xDFFF)
    case Pair(cp, high, low) =>
      0x10000 <= cp <= 0x10FFFF && IsHex(high, HighOf(cp)) && IsHex(low, LowOf(cp))
  }

  /** The two surrogates of a scalar above 0xFFFF: ten bits each. */
  function HighOf(cp: nat): nat
    requires 0x10000 <= cp <= 0x10FFFF
  {
    0xD800 + (cp - 0x10000) / 0x400
  }

  function LowOf(cp: nat): nat
    requires 0x10000 <= cp <= 0x10FFFF
  {
    0xDC00 + (cp - 0x10000) % 0x400
  }

  predicate ArePieces(ps: seq<Piece>) {
    forall k :: 0 <= k < |ps| ==> IsPiece(ps[k])
  }

  function PieceText(p: Piece): (t: Bytes)
    ensures t != []
  {
    match p
    case Raw(c) => [c]
    case Short(c) => [BACKSLASH, c]
    case Unit(_, h) => [BACKSLASH, 0x75] + h
    case Pair(_, high, low) => [BACKSLASH, 0x75] + (high + ([BACKSLASH, 0x75] + low))
  }

  function PieceBytes(p: Piece): Bytes
    requires IsPiece(p)
  {
    match p
    case Raw(c) => [c]
    case Short(c) => [SHORTS[c]]
    case Unit(cp, _) => Utf8Of(cp)
    case Pair(cp, _, _) => Utf8Of(cp)
  }

  /** The literal after its opening quotation mark. */
  function LiteralText(ps: seq<Piece>): Bytes {
    if ps == [] then [QUOTE] else PieceText(ps[0]) + LiteralText(ps[1..])
  }

  function LiteralBytes(ps: seq<Piece>): Bytes
    requires ArePieces(ps)
  {
    if ps == [] then [] else PieceBytes(ps[0]) + LiteralBytes(ps[1..])
  }

  /** How a literal for `s` ends: with the string, with a panic if it is no UTF-8, or outside a full block. */
  function Ended(s: Bytes, rest: Bytes): Parsed<Bytes> {
    if FullBlock(|s|) then Overrun else if Valid(s) then Parsed(s, rest) else Crashed
  }

  // ----- hexadecimal digits -----

  lemma HexDigitIs(c: Byte, d: nat)
    ensures HexDigit(c) == Some(d) <==> HexIs(c, d)
  {
    assert forall k :: 0 <= k < 10 ==> LOWER[k] as int == 0x30 + k == UPPER[k] as int;
    assert forall k :: 10 <= k < 16 ==> LOWER[k] as int == 0x61 + k - 10 && UPPER[k] as int == 0x41 + k - 10;
  }

  lemma HexSplit(v: nat, a: nat, b: nat, c: nat, d: nat)
    requires a < 16 && b < 16 && c < 16 && d < 16 && v == a * 0x1000 + b * 0x100 + c * 0x10 + d
    ensures v <= 0xFFFF && v / 0x1000 == a && v / 0x100 % 0x10 == b && v / 0x10 % 0x10 == c && v % 0x10 == d
  {
    DivUnique(v, 0x1000, a, b * 0x100 + c * 0x10 + d);
    DivUnique(v, 0x100, a * 0x10 + b, c * 0x10 + d);
    DivUnique(a * 0x10 + b, 0x10, a, b);
    DivUnique(v, 0x10, a * 0x100 + b * 0x10 + c, d);
    DivUnique(a * 0x100 + b * 0x10 + c, 0x10, a * 0x10 + b, c);
  }

  lemma HexSum(v: nat)
    requires v <= 0xFFFF
    ensures v == v / 0x1000 * 0x1000 + v / 0x100 % 0x10 * 0x100 + v / 0x10 % 0x10 * 0x10 + v % 0x10
  {
    var x, y := v / 0x10, v / 0x10 / 0x10;
    DivIs(v, 0x10);
    DivIs(x, 0x10);
    DivIs(y, 0x10);
    DivUnique(v, 0x100, y, x % 0x10 * 0x10 + v % 0x10);
    DivUnique(v, 0x1000, y / 0x10, y % 0x10 * 0x100 + x % 0x10 * 0x10 + v % 0x10);
  }

  lemma Hex4Is(t: Bytes, v: nat)
    ensures Hex4(t) == Some(v) <==> |t| >= 4 && IsHex(t[..4], v)
  {
    if |t| >= 4 {
      HexForth(t, v);
      if Hex4(t) == Some(v) { HexBack(t, v); }
    }
  }

  lemma HexForth(t: Bytes, v: nat)
    requires |t| >= 4
    ensures IsHex(t[..4], v) ==> Hex4(t) == Some(v)
  {
    if IsHex(t[..4], v) {
      HexDigitIs(t[0], v / 0x1000);
      HexDigitIs(t[1], v / 0x100 % 0x10);
      HexDigitIs(t[2], v / 0x10 % 0x10);
      HexDigitIs(t[3], v % 0x10);
      Hex4Sum(t, v / 0x1000, v / 0x100 % 0x10, v / 0x10 % 0x10, v % 0x10);
      hide *;
      HexSum(v);
    }
  }

  lemma Hex4Sum(t: Bytes, a: nat, b: nat, c: nat, d: nat)
    requires |t| >= 4 && HexDigit(t[0]) == Some(a) && HexDigit(t[1]) == Some(b) && HexDigit(t[2]) == Some(c) &&
             HexDigit(t[3]) == Some(d)
    ensures Hex4(t) == Some(a * 0x1000 + b * 0x100 + c * 0x10 + d)
  {
    hide HexDigit;
  }

  lemma HexBack(t: Bytes, v: nat)
    requires |t| >= 4 && Hex4(t) == Some(v)
    ensures IsHex(t[..4], v)
  {
    hide *;
    var a, b, c, d := Hex4Parts(t, v);
    HexMade(t[..4], v, a, b, c, d);
  }

  lemma HexMade(h: Bytes, v: nat, a: nat, b: nat, c: nat, d: nat)
    requires |h| == 4 && HexIs(h[0], a) && HexIs(h[1], b) && HexIs(h[2], c) && HexIs(h[3], d)
    requires v == a * 0x1000 + b * 0x100 + c * 0x10 + d
    ensures IsHex(h, v)
  {
    HexBound(h[0], a);
    HexBound(h[1], b);
    HexBound(h[2], c);
    HexBound(h[3], d);
    hide HexIs;
    HexSplit(v, a, b, c, d);
  }

  lemma Hex4Parts(t: Bytes, v: nat) returns (a: nat, b: nat, c: nat, d: nat)
    requires |t| >= 4 && Hex4(t) == Some(v)
    ensures v == a * 0x1000 + b * 0x100 + c * 0x10 + d
    ensures var h := t[..4]; HexIs(h[0], a) && HexIs(h[1], b) && HexIs(h[2], c) && HexIs(h[3], d)
  {
    a, b, c, d := HexDigit(t[0]).value, HexDigit(t[1]).value, HexDigit(t[2]).value, HexDigit(t[3]).value;
    Hex4Sum(t, a, b, c, d);
    HexDigitIs(t[0], a);
    HexDigitIs(t[1], b);
    HexDigitIs(t[2], c);
    HexDigitIs(t[3], d);
    hide HexDigit;
    hide HexIs;
  }

  lemma HexBound(c: Byte, d: nat)
    requires HexIs(c, d)
    ensures d < 16
  {
  }

  // ----- escapes -----

  lemma ShortIs(c: Byte)
    ensures SimpleEscape(c) == if c in SHORTS then Some(SHORTS[c]) else None
  {
  }

  lemma SurrogateSum(cp: nat)
    requires 0x10000 <= cp <= 0x10FFFF
    ensures 0xD800 <= HighOf(cp) <= 0xDBFF && 0xDC00 <= LowOf(cp) <= 0xDFFF
    ensures 0x10000 + (HighOf(cp) - 0xD800) * 0x400 + (LowOf(cp) - 0xDC00) == cp
  {
  }

  lemma SurrogateSplit(high: nat, low: nat)
    requires 0xD800 <= high <= 0xDBFF && 0xDC00 <= low <= 0xDFFF
    ensures var cp := 0x10000 + (high - 0xD800) * 0x400 + (low - 0xDC00);
            0x10000 <= cp <= 0x10FFFF && HighOf(cp) == high && LowOf(cp) == low
  {
  }

  lemma HexLength(t: Bytes)
    ensures Hex4(t).Some? ==> |t| >= 4
  {
  }

  lemma EscapeUnit(t: Bytes, v: nat)
    requires Hex4(t) == Some(v) && !(0xD800 <= v <= 0xDFFF)
    ensures |t| >= 4 && UnicodeEscape(t) == Parsed(v, t[4..])
  {
    HexLength(t);
    hide Hex4;
  }

  lemma EscapePair(t: Bytes, cp: nat)
    requires |t| >= 10 && t[4] == BACKSLASH && t[5] == 0x75 && 0x10000 <= cp <= 0x10FFFF
    requires Hex4(t) == Some(HighOf(cp)) && Hex4(t[6..]) == Some(LowOf(cp))
    ensures UnicodeEscape(t) == Parsed(cp, t[10..])
  {
    SurrogateSum(cp);
    hide Hex4;
    hide HighOf;
    hide LowOf;
  }

  /** The other way round. */
  lemma EscapeParts(t: Bytes)
    requires UnicodeEscape(t).Parsed?
    ensures |t| >= 4 && Hex4(t).Some?
    ensures var v, cp := Hex4(t).value, UnicodeEscape(t).value;
            if 0xD800 <= v <= 0xDFFF then
              |t| >= 10 && t[4] == BACKSLASH && t[5] == 0x75 && 0x10000 <= cp <= 0x10FFFF && v == HighOf(cp) &&
              Hex4(t[6..]) == Some(LowOf(cp)) && UnicodeEscape(t).rest == t[10..]
            else UnicodeEscape(t) == Parsed(v, t[4..])
  {
    HexLength(t);
    var v := Hex4(t).value;
    if 0xD800 <= v <= 0xDFFF {
      HexLength(t[6..]);
      SurrogateSplit(v, Hex4(t[6..]).value);
    }
    hide Hex4;
    hide HighOf;
    hide LowOf;
  }

  lemma UnitRead(cp: nat, h: Bytes, rest: Bytes)
    requires IsPiece(Unit(cp, h))
    ensures UnicodeEscape(h + rest) == Parsed(cp, rest)
  {
    var t := h + rest;
    FourRest(h, rest);
    Hex4Is(t, cp);
    hide IsHex;
    EscapeUnit(t, cp);
  }

  lemma PairRead(cp: nat, high: Bytes, low: Bytes, rest: Bytes)
    requires IsPiece(Pair(cp, high, low))
    ensures UnicodeEscape(high + ([BACKSLASH, 0x75] + (low + rest))) == Parsed(cp, rest)
  {
    PairParts(cp, high, low);
    hide *;
    var u := low + rest;
    var t := high + ([BACKSLASH, 0x75] + u);
    FourSix(high, u);
    FourRest(low, rest);
    Hex4Is(t, HighOf(cp));
    Hex4Is(u, LowOf(cp));
    SixTen(t, u, rest);
    EscapePair(t, cp);
  }

  lemma SixTen(t: Bytes, u: Bytes, rest: Bytes)
    requires |t| >= 6 && t[6..] == u && |u| >= 4 && u[4..] == rest
    ensures |t| >= 10 && t[10..] == rest
  {
  }

  lemma PairParts(cp: nat, high: Bytes, low: Bytes)
    requires IsPiece(Pair(cp, high, low))
    ensures 0x10000 <= cp <= 0x10FFFF && IsHex(high, HighOf(cp)) && IsHex(low, LowOf(cp)) && |high| == 4 == |low|
  {
  }

  lemma FourRest(h: Bytes, rest: Bytes)
    requires |h| == 4
    ensures (h + rest)[..4] == h && (h + rest)[4..] == rest
  {
  }

  lemma FourSix(h: Bytes, u: Bytes)
    requires |h| == 4
    ensures var t := h + ([BACKSLASH, 0x75] + u);
            t[..4] == h && t[4] == BACKSLASH && t[5] == 0x75 && t[6..] == u
  {
  }

  /** What an escape that is read was written as. */
  lemma EscapeWritten(t: Bytes) returns (p: Piece)
    requires UnicodeEscape(t).Parsed?
    ensures IsPiece(p) && (p.Unit? || p.Pair?)
    ensures var r := UnicodeEscape(t);
            [BACKSLASH, 0x75] + t == PieceText(p) + r.rest && PieceBytes(p) == Utf8Of(r.value)
  {
    EscapeParts(t);
    hide *;
    var v := Hex4(t).value;
    Hex4Is(t, v);
    if 0xD800 <= v <= 0xDFFF {
      var cp := UnicodeEscape(t).value;
      Hex4Is(t[6..], LowOf(cp));
      p := PairMade(cp, t);
    } else {
      p := UnitMade(v, t);
    }
  }

  lemma UnitMade(v: nat, t: Bytes) returns (p: Piece)
    requires |t| >= 4 && IsHex(t[..4], v) && !(0xD800 <= v <= 0xDFFF)
    ensures IsPiece(p) && p.Unit? && [BACKSLASH, 0x75] + t == PieceText(p) + t[4..]
    ensures Scalar(v) && PieceBytes(p) == Utf8Of(v)
  {
    p := Unit(v, t[..4]);
    hide HexIs;
    assert t == t[..4] + t[4..];
  }

  lemma PairMade(cp: nat, t: Bytes) returns (p: Piece)
    requires 0x10000 <= cp <= 0x10FFFF && |t| >= 10 && t[4] == BACKSLASH && t[5] == 0x75
    requires IsHex(t[..4], HighOf(cp)) && IsHex(t[6..][..4], LowOf(cp))
    ensures IsPiece(p) && p.Pair? && [BACKSLASH, 0x75] + t == PieceText(p) + t[10..]
    ensures Scalar(cp) && PieceBytes(p) == Utf8Of(cp)
  {
    p := Pair(cp, t[..4], t[6..][..4]);
    hide IsHex;
    hide HighOf;
    hide LowOf;
    TenSplit(t);
  }

  lemma TenSplit(t: Bytes)
    requires |t| >= 10 && t[4] == BACKSLASH && t[5] == 0x75
    ensures [BACKSLASH, 0x75] + t == [BACKSLASH, 0x75] + (t[..4] + ([BACKSLASH, 0x75] + t[6..][..4])) + t[10..]
  {
    assert t == t[..4] + [t[4], t[5]] + t[6..10] + t[10..];
    assert t[6..][..4] == t[6..10];
  }

  // ----- one piece -----

  lemma PieceRead(p: Piece, rest: Bytes, buf: Bytes)
    requires IsPiece(p)
    ensures ParseChars(PieceText(p) + rest, buf) == ParseChars(rest, buf + PieceBytes(p))
  {
    var t := PieceText(p) + rest;
    match p {
      case Raw(c) =>
        hide Valid;
        hide FullBlock;
        assert t[0] == c && t[1..] == rest;
      case Short(c) =>
        ShortIs(c);
        NoUnicode(c);
        assert t[0] == BACKSLASH && t[1] == c && t[2..] == rest;
        EscapeStep(t, buf);
      case Unit(cp, h) =>
        UnitRead(cp, h, rest);
        UnitText(h, rest);
        EscapeStep(t, buf);
      case Pair(cp, high, low) =>
        PairRead(cp, high, low, rest);
        PairText(high, low, rest);
        EscapeStep(t, buf);
    }
  }

  lemma UnitText(h: Bytes, rest: Bytes)
    ensures var t := [BACKSLASH, 0x75] + h + rest; t[0] == BACKSLASH && t[1] == 0x75 && t[2..] == h + rest
  {
  }

  lemma PairText(high: Bytes, low: Bytes, rest: Bytes)
    ensures var t := [BACKSLASH, 0x75] + (high + ([BACKSLASH, 0x75] + low)) + rest;
            t[0] == BACKSLASH && t[1] == 0x75 && t[2..] == high + ([BACKSLASH, 0x75] + (low + rest))
  {
    assert (high + ([BACKSLASH, 0x75] + low)) + rest == high + ([BACKSLASH, 0x75] + (low + rest));
  }

  /** How the decoder goes on after a backslash. */
  lemma EscapeStep(t: Bytes, buf: Bytes)
    requires |t| >= 2 && t[0] == BACKSLASH
    ensures t[1] != 0x75 ==>
              ParseChars(t, buf) ==
              match SimpleEscape(t[1]) case Some(e) => ParseChars(t[2..], buf + [e]) case None => Failed
    ensures t[1] == 0x75 ==>
              var r := UnicodeEscape(t[2..]);
              if r.Parsed? then ParseChars(t, buf) == ParseChars(r.rest, buf + Utf8Of(r.value))
              else ParseChars(t, buf).Failed?
  {
    NeverCrashes(t[2..]);
    hide Valid;
    hide FullBlock;
    hide UnicodeEscape;
    hide SimpleEscape;
  }

  lemma NeverCrashes(t: Bytes)
    ensures UnicodeEscape(t).Parsed? || UnicodeEscape(t).Failed?
  {
    hide Hex4;
  }

  lemma NoUnicode(c: Byte)
    requires c in SHORTS
    ensures c != 0x75
  {
  }

  /** Every literal is read as its bytes, whatever follows. */
  lemma {:induction false} LiteralRead(ps: seq<Piece>, rest: Bytes, buf: Bytes)
    requires ArePieces(ps)
    ensures ParseChars(LiteralText(ps) + rest, buf) == Ended(buf + LiteralBytes(ps), rest)
  {
    if ps == [] {
      QuoteEnds(rest, buf);
      assert buf + [] == buf;
    } else {
      Unfold(ps);
      hide *;
      var p, more := ps[0], ps[1..];
      PieceRead(p, LiteralText(more) + rest, buf);
      LiteralRead(more, rest, buf + PieceBytes(p));
      Associate(PieceText(p), LiteralText(more), rest);
      Associate(buf, PieceBytes(p), LiteralBytes(more));
    }
  }

  lemma QuoteEnds(rest: Bytes, buf: Bytes)
    ensures ParseChars([QUOTE] + rest, buf) == Ended(buf, rest)
  {
    hide Valid;
    hide FullBlock;
    var t := [QUOTE] + rest;
    assert t[0] == QUOTE && t[1..] == rest;
  }

  lemma Unfold(ps: seq<Piece>)
    requires ps != [] && ArePieces(ps)
    ensures IsPiece(ps[0]) && ArePieces(ps[1..])
    ensures LiteralText(ps) == PieceText(ps[0]) + LiteralText(ps[1..])
    ensures LiteralBytes(ps) == PieceBytes(ps[0]) + LiteralBytes(ps[1..])
  {
    hide IsPiece;
  }

  /** And whatever does not fail is a literal. */
  lemma {:induction false} LiteralWritten(t: Bytes, buf: Bytes) returns (ps: seq<Piece>, rest: Bytes)
    requires !ParseChars(t, buf).Failed?
    ensures ArePieces(ps) && t == LiteralText(ps) + rest
    ensures ParseChars(t, buf) == Ended(buf + LiteralBytes(ps), rest)
    decreases |t|
  {
    if t[0] == QUOTE {
      ps, rest := [], t[1..];
      assert t == [QUOTE] + rest && buf + [] == buf;
      QuoteEnds(rest, buf);
    } else {
      var p, u := PieceWritten(t, buf);
      hide *;
      var more;
      more, rest := LiteralWritten(u, buf + PieceBytes(p));
      ps := [p] + more;
      OneMore(p, more);
      Unfold(ps);
      Associate(PieceText(p), LiteralText(more), rest);
      Associate(buf, PieceBytes(p), LiteralBytes(more));
    }
  }

  lemma OneMore(p: Piece, more: seq<Piece>)
    requires IsPiece(p) && ArePieces(more)
    ensures var ps := [p] + more; ps[0] == p && ps[1..] == more && ArePieces(ps)
  {
    hide IsPiece;
  }

  /** The first piece, and what follows it. */
  lemma PieceWritten(t: Bytes, buf: Bytes) returns (p: Piece, u: Bytes)
    requires !ParseChars(t, buf).Failed? && t[0] != QUOTE
    ensures IsPiece(p) && t == PieceText(p) + u && |u| < |t|
    ensures ParseChars(t, buf) == ParseChars(u, buf + PieceBytes(p))
  {
    hide Valid;
    hide FullBlock;
    if t[0] != BACKSLASH {
      p, u := Raw(t[0]), t[1..];
    } else if t[1] == 0x75 {
      p := EscapeWritten(t[2..]);
      u := UnicodeEscape(t[2..]).rest;
      hide UnicodeEscape;
      hide IsPiece;
      assert t == [BACKSLASH, 0x75] + t[2..];
    } else {
      ShortIs(t[1]);
      p, u := Short(t[1]), t[2..];
      assert t == [BACKSLASH, t[1]] + u;
    }
  }

  // ----- every sequence of scalars, escaped or not -----

  /** The ways to write one scalar: as it is, unless it must be escaped; with two characters, if there are such; or
      with hexadecimal digits. */
  predicate Spells(ps: seq<Piece>, cp: nat) {
    ArePieces(ps) && Scalar(cp) &&
    (if |ps| == 1 && !ps[0].Raw? then
       match ps[0] case Short(c) => SHORTS[c] == cp case Unit(v, _) => v == cp case Pair(v, _, _) => v == cp
     else cp >= 0x20 && cp != QUOTE && cp != BACKSLASH && ps == Raws(Utf8Of(cp)))
  }

  function Raws(b: Bytes): (ps: seq<Piece>)
    ensures |ps| == |b| && forall k :: 0 <= k < |ps| ==> ps[k] == Raw(b[k])
  {
    seq(|b|, i requires 0 <= i < |b| => Raw(b[i]))
  }

  function Flat(pss: seq<seq<Piece>>): seq<Piece> {
    if pss == [] then [] else pss[0] + Flat(pss[1..])
  }

  lemma {:induction false} RawBytes(b: Bytes)
    requires ArePieces(Raws(b))
    ensures LiteralBytes(Raws(b)) == b
  {
    if b != [] {
      var ps, more := Raws(b), Raws(b[1..]);
      assert ps[1..] == more;
      forall k | 0 <= k < |more|
        ensures IsPiece(more[k])
      {
        assert more[k] == ps[k + 1];
      }
      RawBytes(b[1..]);
    }
  }

  lemma {:induction false} BytesAppend(ps: seq<Piece>, more: seq<Piece>)
    requires ArePieces(ps) && ArePieces(more)
    ensures ArePieces(ps + more) && LiteralBytes(ps + more) == LiteralBytes(ps) + LiteralBytes(more)
  {
    hide IsPiece;
    hide PieceBytes;
    if ps == [] {
      assert ps + more == more;
    } else {
      assert (ps + more)[1..] == ps[1..] + more;
      BytesAppend(ps[1..], more);
    }
  }

  lemma SpelledBytes(ps: seq<Piece>, cp: nat)
    requires Spells(ps, cp)
    ensures LiteralBytes(ps) == Utf8Of(cp)
  {
    if |ps| == 1 && !ps[0].Raw? {
      assert |ps[1..]| == 0 && LiteralBytes(ps) == PieceBytes(ps[0]) + LiteralBytes(ps[1..]) == PieceBytes(ps[0]);
      if ps[0].Short? { ShortAscii(ps[0].c); }
    } else {
      RawBytes(Utf8Of(cp));
    }
  }

  lemma ShortAscii(c: Byte)
    requires c in SHORTS
    ensures SHORTS[c] <= 0x7F && Utf8Of(SHORTS[c]) == [SHORTS[c]]
  {
  }

  lemma {:induction false} SpelledAll(pss: seq<seq<Piece>>, cps: seq<nat>)
    requires |pss| == |cps| && forall k :: 0 <= k < |cps| ==> Spells(pss[k], cps[k])
    ensures Scalars(cps) && ArePieces(Flat(pss)) && LiteralBytes(Flat(pss)) == EncodeAll(cps)
  {
    if pss != [] {
      assert Spells(pss[0], cps[0]);
      SpelledAll(pss[1..], cps[1..]);
      SpelledBytes(pss[0], cps[0]);
      BytesAppend(pss[0], Flat(pss[1..]));
      ScalarsMore(cps);
      hide Spells;
      hide LiteralBytes;
    }
  }

  lemma ScalarsMore(cps: seq<nat>)
    requires cps != [] && Scalar(cps[0]) && Scalars(cps[1..])
    ensures Scalars(cps) && EncodeAll(cps) == Utf8Of(cps[0]) + EncodeAll(cps[1..])
  {
    hide Encode;
    assert Scalars(cps) by {
      forall k | 0 <= k < |cps|
        ensures Scalar(cps[k])
      {
        if k > 0 { assert cps[k] == cps[1..][k - 1]; }
      }
    }
  }

  /** A literal that spells scalars, each in any way, is read as their UTF-8 bytes, unless these fill a block. */
  lemma EscapesRead(pss: seq<seq<Piece>>, cps: seq<nat>, rest: Bytes)
    requires |pss| == |cps| && forall k :: 0 <= k < |cps| ==> Spells(pss[k], cps[k])
    ensures Scalars(cps) && ArePieces(Flat(pss))
    ensures var s := EncodeAll(cps);
            ParseChars(LiteralText(Flat(pss)) + rest, []) == if FullBlock(|s|) then Overrun else Parsed(s, rest)
  {
    SpelledAll(pss, cps);
    hide Spells;
    var s := EncodeAll(cps);
    LiteralRead(Flat(pss), rest, []);
    assert [] + s == s;
    Utf8Bijective(s, cps);
    hide ParseChars;
  }

  /** `"\n"` is a line feed. */
  lemma LineFeed(num: Numbers)
    ensures DecodeJson([QUOTE, BACKSLASH, 0x6E, QUOTE], num) == Decoded(Str([0x0A]))
  {
    var ps := [Short(0x6E)];
    assert Spells(ps, 0x0A);
    assert Flat([ps]) == ps + Flat([]) == ps;
    EscapesRead([ps], [0x0A], []);
    assert LiteralText(ps) == [BACKSLASH, 0x6E, QUOTE] by { assert |ps[1..]| == 0; }
    assert EncodeAll([0x0A]) == [0x0A] by { assert EncodeAll([]) == []; }
    var t: Bytes := [QUOTE, BACKSLASH, 0x6E, QUOTE];
    assert t[1..] == LiteralText(ps) + [];
    assert FullBlock(1) == false;
    hide ParseChars;
    assert SkipWs(t) == t && SkipWs([]) == [];
  }
}
