/** UTF-8 as the runtime decodes and encodes it, against the table of section 4 of RFC 3629. */
module Utf8 {
  import opened Options
  import opened Basics
  import opened Arith

  type Byte = x: int | 0 <= x < 0x100

  type Bytes = seq<Byte>

  // ----- the runtime's decoder and encoder -----

  datatype Glyph = Glyph(cp: nat, adv: nat)

  /** `(c & 0xC0) == 0x80`. */
  predicate Continues(c: Byte) {
    0x80 <= c <= 0xBF
  }

  /** `c & 0x3F` of a continuation byte. */
  function Low(c: Byte): int {
    c - 0x80
  }

  /** The glyph at the start of `s`; `None` where the runtime returns 0. */
  function Next(s: Bytes): (r: Option<Glyph>)
    ensures r.Some? ==> 0 < r.value.adv <= |s|
  {
    if s == [] then None
    else
      var c0: int := s[0];
      if c0 <= 0x7F then Some(Glyph(c0, 1))
      else if 0xC2 <= c0 <= 0xDF then
        if 1 >= |s| || !Continues(s[1]) then None
        else Some(Glyph((c0 - 0xC0) * 0x40 + Low(s[1]), 2))
      else if 0xE0 <= c0 <= 0xEF then
        if 2 >= |s| || !Continues(s[1]) || !Continues(s[2]) then None
        else if c0 == 0xE0 && s[1] < 0xA0 then None
        else if c0 == 0xED && s[1] > 0x9F then None
        else
          var cp := (c0 - 0xE0) * 0x1000 + Low(s[1]) * 0x40 + Low(s[2]);
          if 0xD800 <= cp <= 0xDFFF then None else Some(Glyph(cp, 3))
      else if 0xF0 <= c0 <= 0xF4 then
        if 3 >= |s| || !Continues(s[1]) || !Continues(s[2]) || !Continues(s[3]) then None
        else if c0 == 0xF0 && s[1] < 0x90 then None
        else if c0 == 0xF4 && s[1] > 0x8F then None
        else
          var cp := (c0 - 0xF0) * 0x4_0000 + Low(s[1]) * 0x1000 + Low(s[2]) * 0x40 + Low(s[3]);
          if cp > 0x10FFFF then None else Some(Glyph(cp, 4))
      else None
  }

  /** The bytes of a glyph; `None` where the runtime panics and the frontend gives up. */
  function Encode(cp: nat): (r: Option<Bytes>)
    ensures r.Some? ==> 1 <= |r.value| <= 4
  {
    if cp <= 0x7F then Some([cp])
    else if cp <= 0x7FF then Some([0xC0 + cp / 0x40, 0x80 + cp % 0x40])
    else if cp <= 0xFFFF then
      if 0xD800 <= cp <= 0xDFFF then None
      else Some([0xE0 + cp / 0x1000, 0x80 + cp / 0x40 % 0x40, 0x80 + cp % 0x40])
    else if cp <= 0x10FFFF then
      Some([0xF0 + cp / 0x4_0000, 0x80 + cp / 0x1000 % 0x40, 0x80 + cp / 0x40 % 0x40, 0x80 + cp % 0x40])
    else None
  }

  // ----- one glyph -----

  predicate Scalar(cp: int) {
    0 <= cp <= 0x10FFFF && !(0xD800 <= cp <= 0xDFFF)
  }

  /** The well-formed sequences of section 4 of RFC 3629, row by row. */
  predicate WellFormed(b: Bytes) {
    (|b| == 1 && b[0] <= 0x7F) ||
    (|b| == 2 && 0xC2 <= b[0] <= 0xDF && Continues(b[1])) ||
    (|b| == 3 && Continues(b[2]) &&
     ((b[0] == 0xE0 && 0xA0 <= b[1] <= 0xBF) || (0xE1 <= b[0] <= 0xEC && Continues(b[1])) ||
      (b[0] == 0xED && 0x80 <= b[1] <= 0x9F) || (0xEE <= b[0] <= 0xEF && Continues(b[1])))) ||
    (|b| == 4 && Continues(b[2]) && Continues(b[3]) &&
     ((b[0] == 0xF0 && 0x90 <= b[1] <= 0xBF) || (0xF1 <= b[0] <= 0xF3 && Continues(b[1])) ||
      (b[0] == 0xF4 && 0x80 <= b[1] <= 0x8F)))
  }

  /** The decoder accepts exactly the well-formed sequences. */
  lemma NextIffWellFormed(s: Bytes)
    ensures Next(s).Some? <==> exists n: nat :: n <= |s| && WellFormed(s[..n])
    ensures Next(s).Some? ==> WellFormed(s[..Next(s).value.adv])
  {
    if Next(s).Some? { assert WellFormed(s[..Next(s).value.adv]); }
    if n: nat :| n <= |s| && WellFormed(s[..n]) {
      assert s[..n][0] == s[0];
      assert n > 1 ==> s[..n][1] == s[1];
      assert n > 2 ==> s[..n][2] == s[2];
      assert n > 3 ==> s[..n][3] == s[3];
    }
  }

  lemma EncodeIffScalar(cp: nat)
    ensures Encode(cp).Some? <==> Scalar(cp)
    ensures Encode(cp).Some? ==> WellFormed(Encode(cp).value)
  {
  }

  /** Decoding what was encoded gives the scalar back, whatever follows. */
  lemma DecodeEncode(cp: nat, rest: Bytes)
    requires Scalar(cp)
    ensures Next(Encode(cp).value + rest) == Some(Glyph(cp, |Encode(cp).value|))
  {
    EncodeIffScalar(cp);
    DecodeOne(cp);
    hide Encode;
    hide Next;
    NextReads(Encode(cp).value, rest);
  }

  lemma DecodeOne(cp: nat)
    requires Scalar(cp)
    ensures Encode(cp).Some? && Next(Encode(cp).value) == Some(Glyph(cp, |Encode(cp).value|))
  {
    Digits(cp);
    if cp <= 0x7F {
    } else if cp <= 0x7FF {
    } else if cp <= 0xFFFF {
    } else {
    }
  }

  /** The decoder looks at the glyph's own bytes only. */
  lemma NextReads(a: Bytes, rest: Bytes)
    requires Next(a).Some? && Next(a).value.adv == |a|
    ensures Next(a + rest) == Next(a)
  {
    var s := a + rest;
    assert s[0] == a[0] && (|a| > 1 ==> s[1] == a[1]) && (|a| > 2 ==> s[2] == a[2]) && (|a| > 3 ==> s[3] == a[3]);
  }

  /** The six-bit groups of a number. */
  lemma Digits(cp: nat)
    ensures cp == cp / 0x40 * 0x40 + cp % 0x40
    ensures cp == cp / 0x1000 * 0x1000 + cp / 0x40 % 0x40 * 0x40 + cp % 0x40
    ensures cp == cp / 0x4_0000 * 0x4_0000 + cp / 0x1000 % 0x40 * 0x1000 + cp / 0x40 % 0x40 * 0x40 + cp % 0x40
  {
    DivIs(cp, 0x40);
    DivIs(cp / 0x40, 0x40);
    DivIs(cp / 0x1000, 0x40);
    assert cp / 0x1000 == cp / 0x40 / 0x40;
    assert cp / 0x4_0000 == cp / 0x1000 / 0x40;
  }

  lemma Split2(a: int, b: int)
    requires 0 <= b < 0x40
    ensures (a * 0x40 + b) / 0x40 == a && (a * 0x40 + b) % 0x40 == b
  {
    DivUnique(a * 0x40 + b, 0x40, a, b);
  }

  lemma Split3(a: int, b: int, c: int)
    requires 0 <= b < 0x40 && 0 <= c < 0x40
    ensures var n := a * 0x1000 + b * 0x40 + c; n / 0x1000 == a && n / 0x40 % 0x40 == b && n % 0x40 == c
  {
    Split2(a * 0x40 + b, c);
    Split2(a, b);
    DivUnique(a * 0x1000 + b * 0x40 + c, 0x1000, a, b * 0x40 + c);
  }

  lemma Split4(a: int, b: int, c: int, d: int)
    requires 0 <= b < 0x40 && 0 <= c < 0x40 && 0 <= d < 0x40
    ensures var n := a * 0x4_0000 + b * 0x1000 + c * 0x40 + d;
            n / 0x4_0000 == a && n / 0x1000 % 0x40 == b && n / 0x40 % 0x40 == c && n % 0x40 == d
  {
    var n := a * 0x4_0000 + b * 0x1000 + c * 0x40 + d;
    Split3(a * 0x40 + b, c, d);
    Split2(a, b);
    DivUnique(n, 0x4_0000, a, b * 0x1000 + c * 0x40 + d);
    assert n == (a * 0x40 + b) * 0x1000 + c * 0x40 + d;
  }

  /** Encoding what was decoded gives the bytes back. */
  lemma EncodeDecode(s: Bytes)
    requires Next(s).Some?
    ensures var g := Next(s).value; Scalar(g.cp) && Encode(g.cp) == Some(s[..g.adv])
  {
    var g := Next(s).value;
    if g.adv == 1 {
      assert s[..1] == [s[0]];
    } else if g.adv == 2 {
      Split2(s[0] - 0xC0, Low(s[1]));
      assert s[..2] == [s[0], s[1]];
    } else if g.adv == 3 {
      Split3(s[0] - 0xE0, Low(s[1]), Low(s[2]));
      assert s[..3] == [s[0], s[1], s[2]];
    } else {
      Split4(s[0] - 0xF0, Low(s[1]), Low(s[2]), Low(s[3]));
      assert s[..4] == [s[0], s[1], s[2], s[3]];
    }
  }

  // ----- whole strings -----

  /** The glyphs of a string, or `None` if it is not valid UTF-8. */
  function Decode(s: Bytes): Option<seq<nat>>
    decreases |s|
  {
    if s == [] then Some([])
    else
      match Next(s)
      case None => None
      case Some(g) =>
        match Decode(s[g.adv..])
        case None => None
        case Some(rest) => Some([g.cp] + rest)
  }

  predicate Scalars(gs: seq<nat>) {
    forall k :: 0 <= k < |gs| ==> Scalar(gs[k])
  }

  function EncodeAll(gs: seq<nat>): Bytes
    requires Scalars(gs)
    decreases |gs|
  {
    if gs == [] then [] else EncodeIffScalar(gs[0]); Encode(gs[0]).value + EncodeAll(gs[1..])
  }

  predicate Valid(s: Bytes) {
    Decode(s).Some?
  }

  /** The glyph at byte `i`: `ps_utf8_next`. */
  function NextAt(s: Bytes, i: nat): (r: Option<Glyph>)
    requires i <= |s|
    ensures r.Some? ==> 0 < r.value.adv && i + r.value.adv <= |s|
  {
    Next(s[i..])
  }

  /** Decoding goes on after the first glyph. */
  lemma DecodeStep(s: Bytes, i: nat)
    requires i < |s|
    ensures var r := NextAt(s, i);
            if r.None? then Decode(s[i..]).None?
            else
              (Decode(s[i..]).Some? <==> Decode(s[i + r.value.adv..]).Some?) &&
              (Decode(s[i..]).Some? ==> Decode(s[i..]).value == [r.value.cp] + Decode(s[i + r.value.adv..]).value)
  {
    hide Next;
    var r := NextAt(s, i);
    if r.Some? { assert s[i..][r.value.adv..] == s[i + r.value.adv..]; }
  }

  // ----- walking over the bytes -----

  predicate ValidFrom(s: Bytes, i: nat)
    requires i <= |s|
  {
    Valid(s[i..])
  }

  /** The number of glyphs from byte `i` on. */
  function CountFrom(s: Bytes, i: nat): Option<nat>
    requires i <= |s|
  {
    match Decode(s[i..]) case Some(gs) => Some(|gs|) case None => None
  }

  function Plus(n: Option<nat>, k: nat): Option<nat> {
    match n case Some(m) => Some(m + k) case None => None
  }

  lemma PlusIs(n: Option<nat>, k: nat)
    ensures n.Some? ==> Plus(n, k) == Some(n.value + k)
    ensures n.None? ==> Plus(n, k).None?
    ensures Plus(n, 0) == n
  {
  }

  lemma PlusMore(n: Option<nat>, k: nat)
    ensures Plus(Plus(n, 1), k) == Plus(n, k + 1)
  {
  }

  lemma WholeFrom(s: Bytes)
    ensures ValidFrom(s, 0) == Valid(s)
    ensures CountFrom(s, 0) == match Decode(s) case Some(gs) => Some(|gs|) case None => None
    ensures ValidFrom(s, |s|)
  {
    assert s[0..] == s && s[|s|..] == [];
  }

  lemma ValidStep(s: Bytes, i: nat)
    requires i < |s|
    ensures ValidFrom(s, i) <==> NextAt(s, i).Some? && ValidFrom(s, i + NextAt(s, i).value.adv)
  {
    hide NextAt;
    hide Decode;
    DecodeStep(s, i);
  }

  lemma CountFromStep(s: Bytes, i: nat)
    requires i <= |s|
    ensures CountFrom(s, i) ==
            if i == |s| then Some(0) else if NextAt(s, i).None? then None
            else Plus(CountFrom(s, i + NextAt(s, i).value.adv), 1)
  {
    if i < |s| {
      hide NextAt;
      hide Decode;
      DecodeStep(s, i);
    }
  }

  /** `ps_utf8_validate`. */
  method Validate(s: Bytes) returns (ok: bool)
    ensures ok <==> Valid(s)
  {
    hide *;
    var i: nat := 0;
    WholeFrom(s);
    while i < |s|
      invariant i <= |s| && (ValidFrom(s, i) <==> Valid(s))
    {
      ValidStep(s, i);
      var r := NextAt(s, i);
      if r.None? { return false; }
      i := i + r.value.adv;
    }
    return true;
  }

  /** `ps_utf8_glyph_len`; `None` is the invalid UTF-8 panic. */
  method GlyphLen(s: Bytes) returns (n: Option<nat>)
    ensures n == match Decode(s) case Some(gs) => Some(|gs|) case None => None
  {
    hide *;
    var i: nat, count: nat := 0, 0;
    WholeFrom(s);
    PlusIs(CountFrom(s, 0), 0);
    while i < |s|
      invariant i <= |s| && CountFrom(s, 0) == Plus(CountFrom(s, i), count)
    {
      CountFromStep(s, i);
      PlusIs(CountFrom(s, i), count);
      var r := NextAt(s, i);
      if r.None? { return None; }
      PlusMore(CountFrom(s, i + r.value.adv), count);
      i, count := i + r.value.adv, count + 1;
    }
    CountFromStep(s, i);
    PlusIs(CountFrom(s, i), count);
    return Some(count);
  }

  lemma {:induction false} DecodeAllEncode(gs: seq<nat>)
    requires Scalars(gs)
    ensures Decode(EncodeAll(gs)) == Some(gs)
    decreases |gs|
  {
    hide Next;
    hide Encode;
    if gs != [] {
      EncodeIffScalar(gs[0]);
      var e, rest := Encode(gs[0]).value, EncodeAll(gs[1..]);
      DecodeEncode(gs[0], rest);
      assert (e + rest)[|e|..] == rest && e + rest != [];
      DecodeAllEncode(gs[1..]);
      assert [gs[0]] + gs[1..] == gs;
    }
  }

  lemma {:induction false} EncodeAllDecode(s: Bytes)
    requires Valid(s)
    ensures Scalars(Decode(s).value) && EncodeAll(Decode(s).value) == s
    decreases |s|
  {
    hide Next;
    hide Encode;
    hide Scalar;
    if s != [] {
      var g := Next(s).value;
      EncodeDecode(s);
      EncodeAllDecode(s[g.adv..]);
      assert s == s[..g.adv] + s[g.adv..];
      var gs := Decode(s).value;
      assert gs[1..] == Decode(s[g.adv..]).value;
    }
  }

  /** Valid strings and sequences of scalars correspond one to one. */
  lemma Utf8Bijective(s: Bytes, gs: seq<nat>)
    ensures Decode(s) == Some(gs) <==> Scalars(gs) && EncodeAll(gs) == s
  {
    if Decode(s) == Some(gs) { EncodeAllDecode(s); }
    if Scalars(gs) { DecodeAllEncode(gs); }
  }

  lemma {:induction false} EncodeAllConcat(a: seq<nat>, b: seq<nat>)
    requires Scalars(a) && Scalars(b)
    ensures Scalars(a + b) && EncodeAll(a + b) == EncodeAll(a) + EncodeAll(b)
    decreases |a|
  {
    assert Scalars(a + b);
    if a == [] {
      assert a + b == b && EncodeAll(a) == [] && [] + EncodeAll(b) == EncodeAll(b);
    } else {
      EncodeAllConcat(a[1..], b);
      assert a + b == [a[0]] + (a[1..] + b) && a == [a[0]] + a[1..];
      EncodeCons(a[0], a[1..] + b);
      EncodeCons(a[0], a[1..]);
      hide EncodeAll;
      hide Encode;
      Associate(Encode(a[0]).value, EncodeAll(a[1..]), EncodeAll(b));
    }
  }

  lemma EncodeCons(cp: nat, gs: seq<nat>)
    requires Scalar(cp) && Scalars(gs)
    ensures Scalars([cp] + gs) && Encode(cp).Some? && EncodeAll([cp] + gs) == Encode(cp).value + EncodeAll(gs)
  {
    hide Encode;
    EncodeIffScalar(cp);
    assert ([cp] + gs)[1..] == gs;
  }

  // ----- glyph boundaries -----

  /** Only the first byte of a glyph is not a continuation byte. */
  lemma LeadByte(cp: nat)
    requires Scalar(cp)
    ensures var e := Encode(cp).value; !Continues(e[0]) && forall k :: 1 <= k < |e| ==> Continues(e[k])
  {
  }

  /** A lead byte after the start of a glyph lies beyond it. */
  lemma LeadOutside(cp: nat, rest: Bytes, k: nat)
    requires Scalar(cp) && 0 < k < |Encode(cp).value + rest| && !Continues((Encode(cp).value + rest)[k])
    ensures |Encode(cp).value| <= k
  {
    hide Encode;
    hide Continues;
    EncodeIffScalar(cp);
    LeadByte(cp);
    var e := Encode(cp).value;
    assert (e + rest)[..|e|] == e;
  }

  lemma SplitAfter(e: Bytes, rest: Bytes, x: Bytes, n: Bytes, y: Bytes)
    requires e + rest == x + n + y && |e| <= |x|
    ensures x == e + x[|e|..] && rest == x[|e|..] + n + y
  {
    var all := e + rest;
    assert all[..|x|] == x && all[..|e|] == e;
    assert x[..|e|] == all[..|x|][..|e|];
    assert rest == all[|e|..];
  }

  lemma FirstByte(ns: seq<nat>)
    requires Scalars(ns) && ns != []
    ensures |EncodeAll(ns)| > 0 && !Continues(EncodeAll(ns)[0])
  {
    hide Encode;
    hide Continues;
    EncodeIffScalar(ns[0]);
    LeadByte(ns[0]);
  }

  /** A valid string inside a valid string lies on glyph boundaries: what comes before it is valid. */
  lemma {:induction false} Boundary(gs: seq<nat>, ns: seq<nat>, x: Bytes, y: Bytes)
    requires Scalars(gs) && Scalars(ns) && ns != [] && EncodeAll(gs) == x + EncodeAll(ns) + y
    ensures exists k :: 0 <= k <= |gs| && EncodeAll(gs[..k]) == x && EncodeAll(gs[k..]) == EncodeAll(ns) + y
    decreases |gs|
  {
    hide Encode;
    hide Continues;
    hide Scalar;
    var n := EncodeAll(ns);
    FirstByte(ns);
    if x == [] {
      assert gs[..0] == [] && gs[0..] == gs && x + n + y == n + y;
    } else {
      assert gs != [];
      EncodeIffScalar(gs[0]);
      var e, rest := Encode(gs[0]).value, EncodeAll(gs[1..]);
      assert (x + n + y)[|x|] == n[0];
      LeadOutside(gs[0], rest, |x|);
      SplitAfter(e, rest, x, n, y);
      var x1 := x[|e|..];
      Boundary(gs[1..], ns, x1, y);
      var k :| 0 <= k <= |gs| - 1 && EncodeAll(gs[1..][..k]) == x1 && EncodeAll(gs[1..][k..]) == n + y;
      assert gs[..k + 1][1..] == gs[1..][..k] && gs[1..][k..] == gs[k + 1..];
      assert EncodeAll(gs[..k + 1]) == x;
    }
  }

  lemma TailPrefix(e: Bytes, rest: Bytes, all: Bytes)
    requires e + rest <= all
    ensures |e| <= |all| && all == e + all[|e|..] && rest <= all[|e|..]
  {
    assert (e + rest)[|e|..] == rest && all[|e|..][..|rest|] == all[..|e| + |rest|][|e|..];
  }

  lemma TailOf(e: Bytes, rest: Bytes)
    ensures (e + rest)[|e|..] == rest
  {
  }

  /** Encodings are prefix-free. */
  lemma {:induction false} PrefixIff(gs: seq<nat>, ns: seq<nat>)
    requires Scalars(gs) && Scalars(ns)
    ensures EncodeAll(ns) <= EncodeAll(gs) <==> ns <= gs
    decreases |ns|
  {
    hide Encode;
    hide Next;
    hide Scalar;
    if ns <= gs {
      EncodeAllConcat(ns, gs[|ns|..]);
      assert gs == ns + gs[|ns|..];
    }
    if EncodeAll(ns) <= EncodeAll(gs) && ns != [] {
      EncodeIffScalar(ns[0]);
      var e, rest := Encode(ns[0]).value, EncodeAll(ns[1..]);
      var all := EncodeAll(gs);
      TailPrefix(e, rest, all);
      DecodeEncode(ns[0], all[|e|..]);
      assert gs != [];
      EncodeIffScalar(gs[0]);
      DecodeEncode(gs[0], EncodeAll(gs[1..]));
      TailOf(e, EncodeAll(gs[1..]));
      PrefixIff(gs[1..], ns[1..]);
    }
  }
}
