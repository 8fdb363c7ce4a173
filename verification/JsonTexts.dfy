/** Which texts the decoder accepts, and what it makes of them: a grammar of its texts, written out with white
    space, and the equivalence.  The grammar is that of RFC 8259, except that numbers need no digits and have no
    exponents, and that an array or object may break off after a comma at the end of the text, an array also after
    its bracket. */
module JsonTexts {
  import opened Options
  import opened Basics
  import opened Utf8
  import opened Json
  import opened JsonStrings
  import P = JsonParser

  const BLANKS: set<Byte> := {0x20, 0x09, 0x0A, 0x0D}

  predicate IsBlank(b: Bytes) {
    forall k :: 0 <= k < |b| ==> b[k] in BLANKS
  }

  datatype Doc =
    | DNull
    | DBool(b: bool)
    | DNumber(minus: bool, whole: Bytes, fraction: Option<Bytes>, v: real)
    | DStr(ps: seq<Piece>)
    | DArr(before: Bytes, items: seq<Item>, closed: bool)
    | DObj(before: Bytes, members: seq<Entry>, closed: bool)

  /** A value with the white space after it, and that after the comma that follows, if there is one. */
  datatype Item = Item(doc: Doc, after: Bytes, next: Bytes)
  datatype Entry = Entry(key: seq<Piece>, colon: Bytes, space: Bytes, doc: Doc, after: Bytes, next: Bytes)

  predicate AreDigits(b: Bytes) {
    forall k :: 0 <= k < |b| ==> 0x30 <= b[k] <= 0x39
  }

  function NumberText(minus: bool, whole: Bytes, fraction: Option<Bytes>): Bytes {
    (if minus then [0x2D] else []) + (whole + if fraction.Some? then [0x2E] + fraction.value else [])
  }

  predicate IsLiteral(ps: seq<Piece>) {
    ArePieces(ps) && Valid(LiteralBytes(ps)) && !FullBlock(|LiteralBytes(ps)|)
  }

  predicate Open(d: Doc) {
    (d.DArr? || d.DObj?) && !d.closed
  }

  predicate IsDoc(d: Doc, num: Numbers)
    decreases d, 0
  {
    match d
    case DNumber(minus, whole, fraction, v) =>
      AreDigits(whole) && (minus || whole != []) && (fraction.Some? ==> AreDigits(fraction.value)) &&
      num.read(NumberText(minus, whole, fraction)) == Some(v)
    case DStr(ps) => IsLiteral(ps)
    case DArr(before, items, _) => IsBlank(before) && AreItems(items, num)
    case DObj(before, members, closed) => IsBlank(before) && AreEntries(members, num) && (members == [] ==> closed)
    case _ => true
  }

  predicate AreItems(items: seq<Item>, num: Numbers)
    decreases items, 0
  {
    items == [] || (IsItem(items[0], num) && AreItems(items[1..], num))
  }

  predicate IsItem(x: Item, num: Numbers)
    decreases x, 1
  {
    IsDoc(x.doc, num) && !Open(x.doc) && IsBlank(x.after) && IsBlank(x.next)
  }

  predicate AreEntries(members: seq<Entry>, num: Numbers)
    decreases members, 0
  {
    members == [] || (IsEntry(members[0], num) && AreEntries(members[1..], num))
  }

  predicate IsEntry(x: Entry, num: Numbers)
    decreases x, 1
  {
    IsLiteral(x.key) && IsBlank(x.colon) && IsBlank(x.space) && IsDoc(x.doc, num) && !Open(x.doc) && IsBlank(x.after) &&
    IsBlank(x.next)
  }

  function DocText(d: Doc): Bytes
    decreases d, 0
  {
    match d
    case DNull => NULL
    case DBool(b) => if b then TRUE else FALSE
    case DNumber(minus, whole, fraction, _) => NumberText(minus, whole, fraction)
    case DStr(ps) => [QUOTE] + LiteralText(ps)
    case DArr(before, items, closed) =>
      [OPEN] + (before + if items == [] && closed then [CLOSE] else ItemsText(items, closed))
    case DObj(before, members, closed) =>
      [OPENOBJ] + (before + if members == [] then [CLOSEOBJ] else EntriesText(members, closed))
  }

  /** Without its closing bracket the text ends after a comma. */
  function ItemsText(items: seq<Item>, closed: bool): Bytes
    decreases items, 0
  {
    if items == [] then []
    else if |items| == 1 && closed then ItemText(items[0]) + [CLOSE]
    else ItemText(items[0]) + ([COMMA] + (items[0].next + ItemsText(items[1..], closed)))
  }

  function ItemText(x: Item): Bytes
    decreases x, 1
  {
    DocText(x.doc) + x.after
  }

  function EntriesText(members: seq<Entry>, closed: bool): Bytes
    decreases members, 0
  {
    if members == [] then []
    else if |members| == 1 && closed then EntryText(members[0]) + [CLOSEOBJ]
    else EntryText(members[0]) + ([COMMA] + (members[0].next + EntriesText(members[1..], closed)))
  }

  function EntryText(x: Entry): Bytes
    decreases x, 1
  {
    [QUOTE] + (LiteralText(x.key) + (x.colon + ([COLON] + (x.space + (DocText(x.doc) + x.after)))))
  }

  function DocValue(d: Doc, num: Numbers): Json
    requires IsDoc(d, num)
    decreases d, 0
  {
    match d
    case DNull => Null
    case DBool(b) => Bool(b)
    case DNumber(_, _, _, v) => Number(v)
    case DStr(ps) => Str(LiteralBytes(ps))
    case DArr(_, items, _) => Arr(ItemValues(items, num))
    case DObj(_, members, _) => Obj(EntryValues(members, [], num))
  }

  function ItemValues(items: seq<Item>, num: Numbers): seq<Json>
    requires AreItems(items, num)
    decreases items, 0
  {
    if items == [] then [] else [ItemValue(items[0], num)] + ItemValues(items[1..], num)
  }

  function ItemValue(x: Item, num: Numbers): Json
    requires IsItem(x, num)
    decreases x, 1
  {
    DocValue(x.doc, num)
  }

  /** A later member with the same key takes the place of the earlier one. */
  function EntryValues(members: seq<Entry>, acc: seq<Member>, num: Numbers): seq<Member>
    requires AreEntries(members, num)
    decreases members, 0
  {
    if members == [] then acc
    else
      var m := EntryValue(members[0], num);
      EntryValues(members[1..], SetMember(acc, m.key, m.value), num)
  }

  function EntryValue(x: Entry, num: Numbers): Member
    requires IsEntry(x, num)
    decreases x, 1
  {
    Member(LiteralBytes(x.key), DocValue(x.doc, num))
  }

  // ----- what setting a member does -----

  function ValueFor(members: seq<Member>, key: Bytes): Option<Json> {
    if members == [] then None
    else if members[0].key == key then Some(members[0].value) else ValueFor(members[1..], key)
  }

  function Keys(members: seq<Member>): seq<Bytes> {
    seq(|members|, k requires 0 <= k < |members| => members[k].key)
  }

  /** The key has that value then, other keys keep theirs, and a new key comes last. */
  lemma SetMemberIs(members: seq<Member>, key: Bytes, v: Json)
    ensures var r := SetMember(members, key, v);
            ValueFor(r, key) == Some(v) && (forall k :: k != key ==> ValueFor(r, k) == ValueFor(members, k)) &&
            Keys(r) == Keys(members) + (if ValueFor(members, key).None? then [key] else [])
  {
    forall k: Bytes
      ensures ValueFor(SetMember(members, key, v), k) == if k == key then Some(v) else ValueFor(members, k)
    {
      SetValue(members, key, v, k);
    }
    SetKeys(members, key, v);
  }

  lemma {:induction false} SetValue(members: seq<Member>, key: Bytes, v: Json, k: Bytes)
    ensures ValueFor(SetMember(members, key, v), k) == if k == key then Some(v) else ValueFor(members, k)
  {
    if members != [] { SetValue(members[1..], key, v, k); }
  }

  lemma {:induction false} SetKeys(members: seq<Member>, key: Bytes, v: Json)
    ensures Keys(SetMember(members, key, v)) ==
            Keys(members) + (if ValueFor(members, key).None? then [key] else [])
  {
    if members != [] {
      SetKeys(members[1..], key, v);
      FirstKey(members);
      FirstKey(SetMember(members, key, v));
      hide Keys;
    }
  }

  lemma FirstKey(members: seq<Member>)
    requires members != []
    ensures Keys(members) == [members[0].key] + Keys(members[1..])
  {
  }

  // ----- white space and numbers -----

  lemma BlankIs(c: Byte)
    ensures IsWs(c) <==> c in BLANKS
  {
  }

  lemma {:induction false} SkipBlank(b: Bytes, t: Bytes)
    requires IsBlank(b)
    ensures SkipWs(b + t) == SkipWs(t)
  {
    if b == [] {
      assert b + t == t;
    } else {
      BlankIs(b[0]);
      assert (b + t)[0] == b[0] && (b + t)[1..] == b[1..] + t;
      SkipBlank(b[1..], t);
    }
  }

  lemma {:induction false} BlankBefore(t: Bytes) returns (b: Bytes)
    ensures IsBlank(b) && t == b + SkipWs(t)
  {
    if t != [] && IsWs(t[0]) {
      BlankIs(t[0]);
      var more := BlankBefore(t[1..]);
      b := [t[0]] + more;
      assert t == [t[0]] + t[1..];
    } else {
      b := [];
      assert t == [] + t;
    }
  }

  /** What may follow a number: nothing that would be part of it. */
  predicate NumberEnds(fraction: Option<Bytes>, rest: Bytes) {
    rest == [] || (!(0x30 <= rest[0] <= 0x39) && (fraction.None? ==> rest[0] != 0x2E))
  }

  predicate MayFollow(d: Doc, rest: Bytes) {
    (Open(d) ==> rest == []) && (d.DNumber? ==> NumberEnds(d.fraction, rest))
  }

  lemma {:induction false} DigitsCounted(b: Bytes, rest: Bytes)
    requires AreDigits(b) && (rest == [] || !IsDigitByte(rest[0]))
    ensures DigitCount(b + rest) == |b|
  {
    if b == [] {
      assert b + rest == rest;
    } else {
      assert (b + rest)[0] == b[0] && (b + rest)[1..] == b[1..] + rest;
      DigitsCounted(b[1..], rest);
    }
  }

  lemma NumberMeasured(minus: bool, whole: Bytes, fraction: Option<Bytes>, rest: Bytes)
    requires AreDigits(whole) && (fraction.Some? ==> AreDigits(fraction.value)) && NumberEnds(fraction, rest)
    requires minus || whole != []
    ensures var t := NumberText(minus, whole, fraction);
            t != [] && NumberLength(t + rest) == |t| && (t[0] == 0x2D || IsDigitByte(t[0]))
  {
    hide *;
    var s, tail := if minus then [0x2D] else [], if fraction.Some? then [0x2E] + fraction.value else [];
    var t := NumberText(minus, whole, fraction);
    NumberIs(minus, whole, fraction, s);
    NumberHead(minus, whole, tail, rest);
    CutNumber(s, whole, tail, rest);
    TailStops(fraction, rest);
    DigitsCounted(whole, tail + rest);
    MeasureIs(t + rest, |s|, whole, tail + rest, fraction, rest);
  }

  lemma NumberHead(minus: bool, whole: Bytes, tail: Bytes, rest: Bytes)
    requires AreDigits(whole) && (minus || whole != [])
    ensures var t := (if minus then [0x2D] else []) + (whole + tail);
            t != [] && (t + rest)[0] == t[0] && (t[0] == 0x2D <==> minus) && (t[0] == 0x2D || IsDigitByte(t[0])) &&
            |t| == (if minus then 1 else 0) + |whole| + |tail|
  {
  }

  lemma MeasureIs(all: Bytes, sign: nat, whole: Bytes, u: Bytes, fraction: Option<Bytes>, rest: Bytes)
    requires all != [] && sign == (if all[0] == 0x2D then 1 else 0) && sign + |whole| <= |all|
    requires DigitCount(all[sign..]) == |whole| && all[sign + |whole|..] == u
    requires u == (if fraction.Some? then [0x2E] + fraction.value else []) + rest
    requires (fraction.Some? ==> AreDigits(fraction.value)) && NumberEnds(fraction, rest)
    ensures NumberLength(all) == sign + |whole| + if fraction.Some? then 1 + |fraction.value| else 0
  {
    hide *;
    LengthWith(all, sign, |whole|);
    AfterCut(all, sign + |whole|, u);
    TailStops(fraction, rest);
    if fraction.Some? {
      TailRest(fraction.value, rest);
      DigitsCounted(fraction.value, rest);
    }
  }

  lemma TailRest(f: Bytes, rest: Bytes)
    ensures var u := ([0x2E] + f) + rest; u != [] && u[1..] == f + rest
  {
  }

  lemma TailStops(fraction: Option<Bytes>, rest: Bytes)
    requires NumberEnds(fraction, rest)
    ensures var u := (if fraction.Some? then [0x2E] + fraction.value else []) + rest;
            (u == [] || !IsDigitByte(u[0])) && (fraction.None? ==> u == rest && (u == [] || u[0] != 0x2E)) &&
            (fraction.Some? ==> u != [] && u[0] == 0x2E) && (rest == [] || !IsDigitByte(rest[0]))
  {
  }

  lemma CutNumber(s: Bytes, whole: Bytes, tail: Bytes, rest: Bytes)
    ensures var all := (s + (whole + tail)) + rest;
            all[|s|..] == whole + (tail + rest) && all[|s| + |whole|..] == tail + rest
  {
  }

  lemma AfterCut(all: Bytes, k: nat, u: Bytes)
    requires k <= |all| && all[k..] == u
    ensures |all| == k + |u| && (u != [] ==> all[k] == u[0] && all[k + 1..] == u[1..])
  {
  }

  lemma LengthWith(t: Bytes, sign: nat, w: nat)
    requires t != [] && sign == (if t[0] == 0x2D then 1 else 0) && DigitCount(t[sign..]) == w
    ensures sign + w <= |t|
    ensures NumberLength(t) == if sign + w < |t| && t[sign + w] == 0x2E then
                                 sign + w + 1 + DigitCount(t[sign + w + 1..]) else sign + w
  {
    hide DigitCount;
  }

  /** The parts of a number that is read. */
  lemma NumberSplit(t: Bytes) returns (minus: bool, whole: Bytes, fraction: Option<Bytes>)
    requires t != [] && (t[0] == 0x2D || IsDigitByte(t[0]))
    ensures AreDigits(whole) && (fraction.Some? ==> AreDigits(fraction.value)) && (minus || whole != [])
    ensures var n := NumberLength(t); NumberText(minus, whole, fraction) == t[..n] && NumberEnds(fraction, t[n..])
  {
    hide *;
    var sign, w := if t[0] == 0x2D then 1 else 0, DigitCount(t[if t[0] == 0x2D then 1 else 0..]);
    var k, n := sign + w, NumberLength(t);
    LengthWith(t, sign, w);
    DigitsThere(t, sign);
    minus, whole := t[0] == 0x2D, t[sign..k];
    if k < |t| && t[k] == 0x2E {
      DigitsThere(t, k + 1);
      fraction := Some(t[k + 1..n]);
    } else {
      fraction := None;
    }
    CutText(t, sign, k, n);
    NumberIs(minus, whole, fraction, t[..sign]);
    EndsHere(t, n, fraction);
    WholeThere(t, sign, k);
  }

  lemma WholeThere(t: Bytes, sign: nat, k: nat)
    requires sign <= k <= |t|
    ensures k > sign ==> t[sign..k] != []
  {
  }

  lemma NumberIs(minus: bool, whole: Bytes, fraction: Option<Bytes>, s: Bytes)
    requires s == if minus then [0x2D] else []
    ensures NumberText(minus, whole, fraction) == s + (whole + if fraction.Some? then [0x2E] + fraction.value else [])
  {
  }

  lemma EndsHere(t: Bytes, n: nat, fraction: Option<Bytes>)
    requires n <= |t| && (n < |t| ==> !IsDigitByte(t[n]) && (fraction.None? ==> t[n] != 0x2E))
    ensures NumberEnds(fraction, t[n..])
  {
  }

  lemma CutText(t: Bytes, sign: nat, k: nat, n: nat)
    requires sign <= 1 && sign <= k <= n <= |t| && t != [] && sign == if t[0] == 0x2D then 1 else 0
    ensures t[..sign] == if t[0] == 0x2D then [0x2D] else []
    ensures k == n ==> t[..n] == t[..sign] + (t[sign..k] + [])
    ensures k < n && t[k] == 0x2E ==> t[..n] == t[..sign] + (t[sign..k] + ([0x2E] + t[k + 1..n]))
  {
  }

  lemma DigitsThere(t: Bytes, i: nat)
    requires i <= |t|
    ensures var k := i + DigitCount(t[i..]);
            k <= |t| && AreDigits(t[i..k]) && (k < |t| ==> !IsDigitByte(t[k])) &&
            (i < |t| && IsDigitByte(t[i]) ==> k > i)
  {
  }

  // ----- what the grammar writes is read -----

  lemma NoBlank(t: Bytes)
    requires t == [] || t[0] !in BLANKS
    ensures SkipWs(t) == t
  {
    if t != [] { BlankIs(t[0]); }
  }

  /** What a value can start with. */
  predicate ValueByte(c: Byte) {
    c == 0x74 || c == 0x66 || c == 0x6E || c == OPEN || c == OPENOBJ || c == QUOTE || c == 0x2D || 0x30 <= c <= 0x39
  }

  lemma DocStarts(d: Doc, num: Numbers, rest: Bytes)
    requires IsDoc(d, num)
    ensures var t := DocText(d) + rest;
            t != [] && ValueByte(t[0]) && t[0] !in BLANKS &&
            match d
            case DNull => t[0] == 0x6E
            case DBool(b) => t[0] == if b then 0x74 else 0x66
            case DNumber(_, _, _, _) => t[0] == 0x2D || 0x30 <= t[0] <= 0x39
            case DStr(_) => t[0] == QUOTE
            case DArr(_, _, _) => t[0] == OPEN
            case DObj(_, _, _) => t[0] == OPENOBJ
  {
    hide ItemsText;
    hide EntriesText;
    hide LiteralText;
    hide IsLiteral;
    hide AreItems;
    hide AreEntries;
  }

  /** A text of a value, after any white space, is read as that value, and what follows it is left. */
  lemma {:induction false} DocRead(d: Doc, b: Bytes, rest: Bytes, num: Numbers)
    requires IsDoc(d, num) && IsBlank(b) && MayFollow(d, rest)
    ensures ParseValue(b + (DocText(d) + rest), num) == Parsed(DocValue(d, num), rest)
    decreases d, 1
  {
    hide *;
    var t := DocText(d) + rest;
    SkipBlank(b, t);
    DocStarts(d, num, rest);
    NoBlank(t);
    P.ValueStep(b + t, num);
    FirstBytesDiffer();
    match d {
      case DNull => WordsRead(d, rest, num);
      case DBool(_) => WordsRead(d, rest, num);
      case DNumber(_, _, _, _) => NumberRead(d, rest, num);
      case DStr(_) => StringIs(d, rest, num);
      case DArr(_, _, _) => ArrayRead(d, rest, num);
      case DObj(_, _, _) => ObjectRead(d, rest, num);
    }
  }

  lemma FirstBytesDiffer()
    ensures OPEN == 0x5B && OPENOBJ == 0x7B && QUOTE == 0x22 && CLOSE == 0x5D && CLOSEOBJ == 0x7D && COMMA == 0x2C
    ensures COLON == 0x3A && forall c: Byte :: IsDigitByte(c) <==> 0x30 <= c <= 0x39
  {
  }

  lemma WordsRead(d: Doc, rest: Bytes, num: Numbers)
    requires (d.DNull? || d.DBool?) && IsDoc(d, num)
    ensures var t, w := DocText(d) + rest, DocText(d);
            w <= t && t[|w|..] == rest && DocValue(d, num) == (if d.DNull? then Null else Bool(d.b)) &&
            w == (if d.DNull? then NULL else if d.b then TRUE else FALSE) &&
            |NULL| == 4 && |TRUE| == 4 && |FALSE| == 5
  {
  }

  lemma NumberRead(d: Doc, rest: Bytes, num: Numbers)
    requires d.DNumber? && IsDoc(d, num) && MayFollow(d, rest)
    ensures var t := DocText(d) + rest; t != [] && ParseNumber(t, num) == Parsed(DocValue(d, num), rest)
  {
    var w := NumberText(d.minus, d.whole, d.fraction);
    NumberMeasured(d.minus, d.whole, d.fraction, rest);
    hide NumberText;
    hide NumberLength;
    var t := w + rest;
    assert t[..|w|] == w && t[|w|..] == rest;
  }

  lemma StringIs(d: Doc, rest: Bytes, num: Numbers)
    requires d.DStr? && IsDoc(d, num)
    ensures var t := DocText(d) + rest; t != [] && P.StringText(t) == Parsed(DocValue(d, num), rest)
  {
    hide *;
    StringParts(d, num);
    LiteralEnds(d.ps, rest);
    LiteralRead(d.ps, rest, []);
    var t := DocText(d) + rest;
    Associate([QUOTE], LiteralText(d.ps), rest);
    HeadAndTail(QUOTE, LiteralText(d.ps) + rest);
    StringTextIs(t);
  }

  lemma StringParts(d: Doc, num: Numbers)
    requires d.DStr? && IsDoc(d, num)
    ensures IsLiteral(d.ps) && ArePieces(d.ps)
    ensures DocText(d) == [QUOTE] + LiteralText(d.ps) && DocValue(d, num) == Str(LiteralBytes(d.ps))
  {
    hide LiteralText;
    hide LiteralBytes;
    hide ArePieces;
  }

  lemma StringTextIs(t: Bytes)
    requires t != []
    ensures var p := ParseChars(t[1..], []);
            P.StringText(t) == if p.Parsed? then Parsed(Str(p.value), p.rest) else if p.Failed? then Failed
            else if p.Crashed? then Crashed else Overrun
  {
    hide ParseChars;
  }

  lemma {:induction false} ArrayRead(d: Doc, rest: Bytes, num: Numbers)
    requires d.DArr? && IsDoc(d, num) && MayFollow(d, rest)
    ensures var t := DocText(d) + rest; t != [] && P.ArrayText(t, num) == Parsed(DocValue(d, num), rest)
    decreases d, 0
  {
    ArrayParts(d, rest, num);
    hide *;
    var t := DocText(d) + rest;
    P.ArrayStep(t, num);
    var x := (if d.items == [] && d.closed then [CLOSE] else ItemsText(d.items, d.closed)) + rest;
    SkipBlank(d.before, x);
    FirstBytesDiffer();
    if d.items == [] {
      NoBlank(x);
      if d.closed { HeadAndTail(CLOSE, rest); } else { P.ItemsEnd(x, [], num); }
    } else {
      ItemsStart(d.items, d.closed, rest, num);
      NoBlank(x);
      ItemsRead(d.items, d.closed, [], rest, num);
      assert [] + ItemValues(d.items, num) == ItemValues(d.items, num);
    }
  }

  lemma ArrayParts(d: Doc, rest: Bytes, num: Numbers)
    requires d.DArr? && IsDoc(d, num) && MayFollow(d, rest)
    ensures IsBlank(d.before) && AreItems(d.items, num) && (!d.closed ==> rest == [])
    ensures var t := DocText(d) + rest;
            t != [] && t[1..] == d.before + ((if d.items == [] && d.closed then [CLOSE]
                                              else ItemsText(d.items, d.closed)) + rest)
    ensures DocValue(d, num) == Arr(ItemValues(d.items, num))
    ensures d.items == [] ==> ItemValues(d.items, num) == [] && ItemsText(d.items, d.closed) == []
  {
    hide ItemsText;
    hide AreItems;
    hide ItemValues;
    var y := if d.items == [] && d.closed then [CLOSE] else ItemsText(d.items, d.closed);
    assert DocText(d) == [OPEN] + (d.before + y);
    assert (DocText(d) + rest)[1..] == d.before + (y + rest);
    NoItems(d.closed, num);
  }

  lemma NoItems(closed: bool, num: Numbers)
    ensures AreItems([], num) && ItemValues([], num) == [] && ItemsText([], closed) == []
  {
  }

  lemma HeadAndTail(c: Byte, rest: Bytes)
    ensures var x := [c] + rest; x != [] && x[0] == c && x[1..] == rest
  {
  }

  lemma ItemsStart(items: seq<Item>, closed: bool, rest: Bytes, num: Numbers)
    requires AreItems(items, num) && items != [] && (!closed ==> rest == [])
    ensures var x := ItemsText(items, closed) + rest; x != [] && ValueByte(x[0]) && x[0] !in BLANKS
  {
    ItemsParts(items, closed, rest, num);
    hide *;
    DocStarts(items[0].doc, num, items[0].after + ItemsSep(items, closed, rest));
  }

  /** What comes after an element: white space, and then a comma or a bracket. */
  lemma SeparatorFollows(d: Doc, after: Bytes, sep: Bytes)
    requires IsBlank(after) && !Open(d) && sep != [] && (sep[0] == COMMA || sep[0] == CLOSE || sep[0] == CLOSEOBJ)
    ensures MayFollow(d, after + sep) && SkipWs(after + sep) == sep
  {
    SkipBlank(after, sep);
    NoBlank(sep);
    assert (after + sep)[0] == if after == [] then sep[0] else after[0];
  }

  lemma {:induction false} ItemsRead(items: seq<Item>, closed: bool, acc: seq<Json>, rest: Bytes, num: Numbers)
    requires AreItems(items, num) && items != [] && (!closed ==> rest == [])
    ensures ParseItems(ItemsText(items, closed) + rest, acc, num) == Parsed(Arr(acc + ItemValues(items, num)), rest)
    decreases items, 2
  {
    hide *;
    var x, more := items[0], items[1..];
    ItemsParts(items, closed, rest, num);
    var t, sep := ItemsText(items, closed) + rest, ItemsSep(items, closed, rest);
    SeparatorFollows(x.doc, x.after, sep);
    EmptyBlank();
    DocRead(x.doc, [], x.after + sep, num);
    assert [] + (DocText(x.doc) + (x.after + sep)) == t;
    P.ItemsOne(t, acc, num);
    FirstBytesDiffer();
    var v := ItemValue(x, num);
    Associate(acc, [v], ItemValues(more, num));
    if |items| == 1 { assert [v] + [] == [v]; }
    if !(|items| == 1 && closed) {
      var y := ItemsText(more, closed) + rest;
      SkipBlank(x.next, y);
      if more == [] {
        NoBlank(y);
        P.ItemsEnd(y, acc + [v], num);
      } else {
        ItemsStart(more, closed, rest, num);
        NoBlank(y);
        ItemsRead(more, closed, acc + [v], rest, num);
      }
    }
  }

  lemma EmptyBlank()
    ensures IsBlank([])
  {
  }

  /** From the separator after the first element on. */
  function ItemsSep(items: seq<Item>, closed: bool, rest: Bytes): Bytes
    requires items != []
  {
    if |items| == 1 && closed then [CLOSE] + rest
    else [COMMA] + (items[0].next + (ItemsText(items[1..], closed) + rest))
  }

  lemma ItemsParts(items: seq<Item>, closed: bool, rest: Bytes, num: Numbers)
    requires AreItems(items, num) && items != [] && (!closed ==> rest == [])
    ensures var x, sep := items[0], ItemsSep(items, closed, rest);
            IsDoc(x.doc, num) && IsItem(x, num) && !Open(x.doc) && IsBlank(x.after) && IsBlank(x.next) &&
            AreItems(items[1..], num) &&
            ItemsText(items, closed) + rest == DocText(x.doc) + (x.after + sep) && sep != [] &&
            ItemsText(items, closed) + rest != [] &&
            sep[0] == (if |items| == 1 && closed then CLOSE else COMMA) &&
            sep[1..] == (if |items| == 1 && closed then rest else x.next + (ItemsText(items[1..], closed) + rest)) &&
            ItemValue(x, num) == DocValue(x.doc, num) &&
            ItemValues(items, num) == [ItemValue(x, num)] + ItemValues(items[1..], num)
    ensures |items| == 1 ==> items[1..] == [] && ItemValues(items[1..], num) == []
    ensures items[1..] == [] && |items| > 1 ==> false
    ensures |items| == 1 && !closed ==> ItemsText(items[1..], closed) + rest == [] == rest
  {
    var x, sep := items[0], ItemsSep(items, closed, rest);
    DocStarts(x.doc, num, x.after + sep);
    var a := DocText(x.doc);
    hide DocText;
    hide IsDoc;
    hide DocValue;
    if |items| == 1 && closed {
      assert ((a + x.after) + [CLOSE]) + rest == a + (x.after + ([CLOSE] + rest));
    } else {
      var y := ItemsText(items[1..], closed);
      assert ItemsText(items, closed) == (a + x.after) + ([COMMA] + (x.next + y));
      hide ItemsText;
      Regroup(a, x.after, COMMA, x.next, y, rest);
    }
  }

  lemma Regroup(a: Bytes, b: Bytes, c: Byte, d: Bytes, y: Bytes, rest: Bytes)
    ensures ((a + b) + ([c] + (d + y))) + rest == a + (b + ([c] + (d + (y + rest))))
  {
    assert ([c] + (d + y)) + rest == [c] + (d + (y + rest));
    assert ((a + b) + ([c] + (d + y))) + rest == (a + b) + (([c] + (d + y)) + rest);
  }

  lemma {:induction false} ObjectRead(d: Doc, rest: Bytes, num: Numbers)
    requires d.DObj? && IsDoc(d, num) && MayFollow(d, rest)
    ensures var t := DocText(d) + rest; t != [] && P.ObjectText(t, num) == Parsed(DocValue(d, num), rest)
    decreases d, 0
  {
    ObjectParts(d, rest, num);
    hide *;
    var t := DocText(d) + rest;
    P.ObjectStep(t, num);
    var x := (if d.members == [] then [CLOSEOBJ] else EntriesText(d.members, d.closed)) + rest;
    SkipBlank(d.before, x);
    FirstBytesDiffer();
    if d.members == [] {
      NoBlank(x);
      HeadAndTail(CLOSEOBJ, rest);
    } else {
      EntriesStart(d.members, d.closed, rest, num);
      NoBlank(x);
      EntriesRead(d.members, d.closed, [], rest, num);
    }
  }

  lemma ObjectParts(d: Doc, rest: Bytes, num: Numbers)
    requires d.DObj? && IsDoc(d, num) && MayFollow(d, rest)
    ensures IsBlank(d.before) && AreEntries(d.members, num) && (!d.closed ==> rest == [])
    ensures var t := DocText(d) + rest;
            t != [] && t[1..] == d.before + ((if d.members == [] then [CLOSEOBJ]
                                              else EntriesText(d.members, d.closed)) + rest)
    ensures DocValue(d, num) == Obj(EntryValues(d.members, [], num))
    ensures d.members == [] ==> EntryValues(d.members, [], num) == []
  {
    hide EntriesText;
    hide AreEntries;
    hide EntryValues;
    NoEntries(num);
    var y := if d.members == [] then [CLOSEOBJ] else EntriesText(d.members, d.closed);
    assert DocText(d) == [OPENOBJ] + (d.before + y);
    hide *;
    AfterFirst(OPENOBJ, d.before, y, rest);
  }

  lemma AfterFirst(c: Byte, a: Bytes, b: Bytes, rest: Bytes)
    ensures var t := ([c] + (a + b)) + rest; t != [] && t[1..] == a + (b + rest)
  {
  }

  lemma NoEntries(num: Numbers)
    ensures AreEntries([], num) && EntryValues([], [], num) == []
  {
  }

  lemma EntriesStart(members: seq<Entry>, closed: bool, rest: Bytes, num: Numbers)
    requires AreEntries(members, num) && members != []
    ensures var x := EntriesText(members, closed) + rest; x != [] && x[0] == QUOTE && x[0] !in BLANKS
  {
    hide DocText;
    hide LiteralText;
  }

  /** One member, in front of a separator. */
  lemma {:induction false} EntryRead(x: Entry, sep: Bytes, num: Numbers)
    requires IsEntry(x, num) && sep != [] && (sep[0] == COMMA || sep[0] == CLOSEOBJ)
    ensures var t := EntryText(x) + sep;
            t != [] && P.MemberText(t, num) == Parsed(EntryValue(x, num), x.after + sep)
    decreases x, 1
  {
    EntryParts(x, sep, num);
    hide *;
    var t, tail := EntryText(x) + sep, x.after + sep;
    P.MemberStep(t, num);
    var u := x.space + (DocText(x.doc) + tail);
    var w := x.colon + ([COLON] + u);
    KeyRead(x.key, w);
    ColonRead(x.colon, u);
    SeparatorFollows(x.doc, x.after, sep);
    DocRead(x.doc, x.space, tail, num);
  }

  lemma KeyRead(ps: seq<Piece>, rest: Bytes)
    requires IsLiteral(ps)
    ensures ParseChars(LiteralText(ps) + rest, []) == Parsed(LiteralBytes(ps), rest)
  {
    LiteralEnds(ps, rest);
    hide *;
    LiteralRead(ps, rest, []);
  }

  lemma ColonRead(colon: Bytes, u: Bytes)
    requires IsBlank(colon)
    ensures var s := SkipWs(colon + ([COLON] + u)); s != [] && s[0] == COLON && s[1..] == u
  {
    hide SkipWs;
    HeadAndTail(COLON, u);
    NoBlank([COLON] + u);
    SkipBlank(colon, [COLON] + u);
  }

  lemma LiteralEnds(ps: seq<Piece>, rest: Bytes)
    requires IsLiteral(ps)
    ensures ArePieces(ps) && Ended([] + LiteralBytes(ps), rest) == Parsed(LiteralBytes(ps), rest)
  {
    assert [] + LiteralBytes(ps) == LiteralBytes(ps);
  }

  lemma EntryParts(x: Entry, sep: Bytes, num: Numbers)
    requires IsEntry(x, num)
    ensures IsLiteral(x.key) && ArePieces(x.key) && IsBlank(x.colon) && IsBlank(x.space) && IsDoc(x.doc, num) &&
            !Open(x.doc) && IsBlank(x.after) && IsBlank(x.next)
    ensures var t, w := EntryText(x) + sep, x.colon + ([COLON] + (x.space + (DocText(x.doc) + (x.after + sep))));
            t != [] && t[0] == QUOTE && t[1..] == LiteralText(x.key) + w
    ensures EntryValue(x, num) == Member(LiteralBytes(x.key), DocValue(x.doc, num))
  {
    var k, v := LiteralText(x.key), DocText(x.doc);
    hide LiteralText;
    hide DocText;
    hide IsDoc;
    hide DocValue;
    hide Valid;
    hide FullBlock;
    assert EntryText(x) == [QUOTE] + (k + (x.colon + ([COLON] + (x.space + (v + x.after)))));
    Deep(k, x.colon, COLON, x.space, v, x.after, sep);
  }

  lemma Deep(k: Bytes, a: Bytes, c: Byte, b: Bytes, v: Bytes, d: Bytes, sep: Bytes)
    ensures var t := ([QUOTE] + (k + (a + ([c] + (b + (v + d)))))) + sep;
            t != [] && t[0] == QUOTE && t[1..] == k + (a + ([c] + (b + (v + (d + sep)))))
  {
    assert (b + (v + d)) + sep == b + (v + (d + sep));
    assert (a + ([c] + (b + (v + d)))) + sep == a + ([c] + ((b + (v + d)) + sep));
    assert (k + (a + ([c] + (b + (v + d))))) + sep == k + ((a + ([c] + (b + (v + d)))) + sep);
  }

  lemma {:induction false} EntriesRead(members: seq<Entry>, closed: bool, acc: seq<Member>, rest: Bytes, num: Numbers)
    requires AreEntries(members, num) && members != [] && (!closed ==> rest == [])
    ensures ParseMembers(EntriesText(members, closed) + rest, acc, num) ==
            Parsed(Obj(EntryValues(members, acc, num)), rest)
    decreases members, 2
  {
    hide *;
    var x, more := members[0], members[1..];
    EntriesParts(members, closed, acc, rest, num);
    var t, sep := EntriesText(members, closed) + rest, EntriesSep(members, closed, rest);
    EntryRead(x, sep, num);
    P.MembersOne(t, acc, num);
    FirstBytesDiffer();
    var m := EntryValue(x, num);
    EntryFollows(x, sep, num);
    if !(|members| == 1 && closed) {
      var y, next := EntriesText(more, closed) + rest, SetMember(acc, m.key, m.value);
      SkipBlank(x.next, y);
      if more == [] {
        NoBlank(y);
        P.MembersEnd(y, next, num);
      } else {
        EntriesStart(more, closed, rest, num);
        NoBlank(y);
        EntriesRead(more, closed, next, rest, num);
      }
    }
  }

  lemma EntryFollows(x: Entry, sep: Bytes, num: Numbers)
    requires IsEntry(x, num) && sep != [] && (sep[0] == COMMA || sep[0] == CLOSEOBJ)
    ensures SkipWs(x.after + sep) == sep
  {
    hide IsDoc;
    hide IsLiteral;
    SeparatorFollows(x.doc, x.after, sep);
  }

  /** From the separator after the first member on. */
  function EntriesSep(members: seq<Entry>, closed: bool, rest: Bytes): Bytes
    requires members != []
  {
    if |members| == 1 && closed then [CLOSEOBJ] + rest
    else [COMMA] + (members[0].next + (EntriesText(members[1..], closed) + rest))
  }

  lemma EntriesParts(members: seq<Entry>, closed: bool, acc: seq<Member>, rest: Bytes, num: Numbers)
    requires AreEntries(members, num) && members != [] && (!closed ==> rest == [])
    ensures var x, sep := members[0], EntriesSep(members, closed, rest);
            IsEntry(x, num) && IsBlank(x.next) && AreEntries(members[1..], num) &&
            EntriesText(members, closed) + rest == EntryText(x) + sep && sep != [] &&
            EntriesText(members, closed) + rest != [] &&
            sep[0] == (if |members| == 1 && closed then CLOSEOBJ else COMMA) &&
            sep[1..] == (if |members| == 1 && closed then rest else x.next + (EntriesText(members[1..], closed) + rest))
    ensures var m := EntryValue(members[0], num);
            EntryValues(members, acc, num) == EntryValues(members[1..], SetMember(acc, m.key, m.value), num)
    ensures |members| == 1 ==>
              var m := EntryValue(members[0], num);
              members[1..] == [] && EntryValues(members, acc, num) == SetMember(acc, m.key, m.value)
    ensures |members| == 1 && !closed ==> EntriesText(members[1..], closed) + rest == [] == rest
  {
    var x, a := members[0], EntryText(members[0]);
    assert a != [];
    hide EntryText;
    hide IsEntry;
    hide EntryValue;
    if |members| == 1 && closed {
      assert (a + [CLOSEOBJ]) + rest == a + ([CLOSEOBJ] + rest);
    } else {
      var y := EntriesText(members[1..], closed);
      assert EntriesText(members, closed) == a + ([COMMA] + (x.next + y));
      hide EntriesText;
      assert ([COMMA] + (x.next + y)) + rest == [COMMA] + (x.next + (y + rest));
      Associate(a, [COMMA] + (x.next + y), rest);
    }
  }

  // ----- and nothing else is read -----

  /** A text that is read starts with white space and a text of the value. */
  lemma {:induction false} DocWritten(text: Bytes, num: Numbers) returns (b: Bytes, d: Doc)
    requires ParseValue(text, num).Parsed?
    ensures IsBlank(b) && IsDoc(d, num) && MayFollow(d, ParseValue(text, num).rest)
    ensures var p := ParseValue(text, num);
            text == b + (DocText(d) + p.rest) && DocValue(d, num) == p.value
    decreases |text|, 4
  {
    hide *;
    b := BlankBefore(text);
    var t := SkipWs(text);
    P.ValueStep(text, num);
    FirstBytesDiffer();
    if t[0] == 0x74 || t[0] == 0x66 || t[0] == 0x6E {
      d := WordWritten(t, ParseValue(text, num), num);
    } else if t[0] == OPEN {
      Shorter(b, t);
      d := ArrayWritten(t, num);
    } else if t[0] == OPENOBJ {
      Shorter(b, t);
      d := ObjectWritten(t, num);
    } else if t[0] == QUOTE {
      d := StringDoc(t, num);
    } else {
      d := NumberDoc(t, num);
    }
  }

  lemma Shorter(b: Bytes, t: Bytes)
    ensures |t| <= |b + t|
  {
  }

  lemma WordWritten(t: Bytes, p: Parsed<Json>, num: Numbers) returns (d: Doc)
    requires p.Parsed? && t != []
    requires p == if t[0] == 0x74 then (if TRUE <= t then Parsed(Bool(true), t[4..]) else Failed)
                  else if t[0] == 0x66 then (if FALSE <= t then Parsed(Bool(false), t[5..]) else Failed)
                  else if t[0] == 0x6E then (if NULL <= t then Parsed(Null, t[4..]) else Failed)
                  else Failed
    ensures IsDoc(d, num) && MayFollow(d, p.rest) && t == DocText(d) + p.rest && DocValue(d, num) == p.value
  {
    if t[0] == 0x74 {
      d := DBool(true);
      assert t == t[..4] + t[4..];
    } else if t[0] == 0x66 {
      d := DBool(false);
      assert t == t[..5] + t[5..];
    } else {
      d := DNull;
      assert t == t[..4] + t[4..];
    }
  }

  lemma StringDoc(t: Bytes, num: Numbers) returns (d: Doc)
    requires t != [] && t[0] == QUOTE && P.StringText(t).Parsed?
    ensures IsDoc(d, num) && MayFollow(d, P.StringText(t).rest)
    ensures var p := P.StringText(t); t == DocText(d) + p.rest && DocValue(d, num) == p.value
  {
    StringTextIs(t);
    hide *;
    var ps, rest := LiteralWritten(t[1..], []);
    LiteralBack(ps, rest);
    d := DStr(ps);
    DStrIs(ps, rest, num);
    assert t == [QUOTE] + t[1..];
    Associate([QUOTE], LiteralText(ps), rest);
  }

  lemma DStrIs(ps: seq<Piece>, rest: Bytes, num: Numbers)
    requires ArePieces(ps) && IsLiteral(ps)
    ensures var d := DStr(ps);
            DocText(d) == [QUOTE] + LiteralText(ps) && IsDoc(d, num) && MayFollow(d, rest) &&
            DocValue(d, num) == Str(LiteralBytes(ps))
  {
  }

  lemma LiteralBack(ps: seq<Piece>, rest: Bytes)
    requires ArePieces(ps)
    ensures var r := Ended([] + LiteralBytes(ps), rest);
            r.Parsed? ==> IsLiteral(ps) && r == Parsed(LiteralBytes(ps), rest)
  {
    assert [] + LiteralBytes(ps) == LiteralBytes(ps);
  }

  lemma NumberDoc(t: Bytes, num: Numbers) returns (d: Doc)
    requires t != [] && (t[0] == 0x2D || IsDigitByte(t[0])) && ParseNumber(t, num).Parsed?
    ensures IsDoc(d, num) && MayFollow(d, ParseNumber(t, num).rest)
    ensures var p := ParseNumber(t, num); t == DocText(d) + p.rest && DocValue(d, num) == p.value
  {
    var minus, whole, fraction := NumberSplit(t);
    var n := NumberLength(t);
    hide NumberLength;
    hide NumberText;
    hide AreDigits;
    d := DNumber(minus, whole, fraction, num.read(t[..n]).value);
    assert t == t[..n] + t[n..];
  }

  lemma {:induction false} ArrayWritten(t: Bytes, num: Numbers) returns (d: Doc)
    requires t != [] && t[0] == OPEN && P.ArrayText(t, num).Parsed?
    ensures d.DArr? && IsDoc(d, num) && MayFollow(d, P.ArrayText(t, num).rest)
    ensures var p := P.ArrayText(t, num); t == DocText(d) + p.rest && DocValue(d, num) == p.value
    decreases |t|, 3
  {
    hide *;
    P.ArrayStep(t, num);
    var before := BlankBefore(t[1..]);
    var u := SkipWs(t[1..]);
    Shorter(before, u);
    Tail(t, OPEN);
    if u != [] && u[0] == CLOSE {
      d := DArr(before, [], true);
      EmptyArray(t, before, u, num);
    } else {
      Skipped(t[1..]);
      var items, closed := ItemsWritten(u, [], num);
      d := DArr(before, items, closed);
      ArrayMade(d, t, u, ParseItems(u, [], num).rest, num);
    }
  }

  lemma Tail(t: Bytes, c: Byte)
    requires t != [] && t[0] == c
    ensures t == [c] + t[1..] && |t[1..]| < |t|
  {
  }

  lemma {:induction false} Skipped(t: Bytes)
    ensures SkipWs(SkipWs(t)) == SkipWs(t)
  {
    if t != [] && IsWs(t[0]) { Skipped(t[1..]); }
  }

  lemma EmptyArray(t: Bytes, before: Bytes, u: Bytes, num: Numbers)
    requires IsBlank(before) && t == [OPEN] + (before + u) && u != [] && u[0] == CLOSE
    ensures var d := DArr(before, [], true);
            IsDoc(d, num) && MayFollow(d, u[1..]) && t == DocText(d) + u[1..] && DocValue(d, num) == Arr([])
  {
    NoItems(true, num);
    Tail(u, CLOSE);
    var d := DArr(before, [], true);
    assert DocText(d) == [OPEN] + (before + [CLOSE]);
    assert IsDoc(d, num) && MayFollow(d, u[1..]) && DocValue(d, num) == Arr([]);
    hide *;
    ThreeOn([OPEN], before, [CLOSE], u[1..]);
  }

  lemma ThreeOn(a: Bytes, b: Bytes, c: Bytes, rest: Bytes)
    ensures a + (b + (c + rest)) == (a + (b + c)) + rest
  {
  }

  lemma ArrayMade(d: Doc, t: Bytes, u: Bytes, rest: Bytes, num: Numbers)
    requires d.DArr? && IsBlank(d.before) && AreItems(d.items, num) && (d.items == [] ==> !d.closed)
    requires !d.closed ==> rest == []
    requires t == [OPEN] + (d.before + u) && u == ItemsText(d.items, d.closed) + rest
    ensures IsDoc(d, num) && MayFollow(d, rest) && t == DocText(d) + rest
    ensures DocValue(d, num) == Arr([] + ItemValues(d.items, num))
  {
    var x := ItemsText(d.items, d.closed);
    assert DocText(d) == [OPEN] + (d.before + x);
    assert [] + ItemValues(d.items, num) == ItemValues(d.items, num);
    assert IsDoc(d, num) && MayFollow(d, rest) && DocValue(d, num) == Arr(ItemValues(d.items, num));
    hide *;
    ThreeOn([OPEN], d.before, x, rest);
  }

  /** Elements up to the bracket, or up to the end of the text after a comma. */
  lemma {:induction false} ItemsWritten(t: Bytes, acc: seq<Json>, num: Numbers) returns (items: seq<Item>, closed: bool)
    requires SkipWs(t) == t && ParseItems(t, acc, num).Parsed?
    ensures AreItems(items, num) && (items == [] ==> !closed) && (!closed ==> ParseItems(t, acc, num).rest == [])
    ensures var p := ParseItems(t, acc, num);
            t == ItemsText(items, closed) + p.rest && p.value == Arr(acc + ItemValues(items, num))
    decreases |t|, 5
  {
    hide *;
    if t == [] {
      P.ItemsEnd(t, acc, num);
      NoItems(false, num);
      items, closed := [], false;
      assert acc + [] == acc;
    } else {
      P.ItemsOne(t, acc, num);
      FirstBytesDiffer();
      var b, d := DocWritten(t, num);
      NoneBefore(t, b, d, ParseValue(t, num).rest, num);
      var q := ParseValue(t, num);
      var after := BlankBefore(q.rest);
      var u := SkipWs(q.rest);
      Shorter(after, u);
      CannotBeOpen(d, q.rest, after, u);
      if u[0] == COMMA {
        Tail(u, COMMA);
        var next := BlankBefore(u[1..]);
        var v := SkipWs(u[1..]);
        Shorter(next, v);
        Shorter(DocText(d), q.rest);
        Skipped(u[1..]);
        var more;
        more, closed := ItemsWritten(v, acc + [q.value], num);
        var x := ItemOf(d, after, next, num);
        items := [x] + more;
        MoreItems(x, more, closed, acc, ParseItems(t, acc, num).rest, num);
      } else {
        Tail(u, CLOSE);
        EmptyBlank();
        var x := ItemOf(d, after, [], num);
        items, closed := [x], true;
        LastItem(x, acc, u[1..], num);
      }
    }
  }

  lemma ItemOf(d: Doc, after: Bytes, next: Bytes, num: Numbers) returns (x: Item)
    requires IsDoc(d, num) && !Open(d) && IsBlank(after) && IsBlank(next)
    ensures x == Item(d, after, next) && IsItem(x, num)
  {
    hide IsDoc;
    x := Item(d, after, next);
  }

  /** A text that starts with no white space has none in front of its value. */
  lemma NoneBefore(t: Bytes, b: Bytes, d: Doc, rest: Bytes, num: Numbers)
    requires SkipWs(t) == t && IsBlank(b) && t == b + (DocText(d) + rest) && IsDoc(d, num)
    ensures t == DocText(d) + rest
  {
    hide *;
    DocStarts(d, num, rest);
    SkipBlank(b, DocText(d) + rest);
    NoBlank(DocText(d) + rest);
  }

  lemma CannotBeOpen(d: Doc, rest: Bytes, after: Bytes, u: Bytes)
    requires MayFollow(d, rest) && rest == after + u && u != []
    ensures !Open(d)
  {
  }

  lemma MoreItems(x: Item, more: seq<Item>, closed: bool, acc: seq<Json>, rest: Bytes, num: Numbers)
    requires IsItem(x, num) && AreItems(more, num) && (more == [] ==> !closed)
    ensures var items := [x] + more;
            AreItems(items, num) && items != [] &&
            ItemsText(items, closed) + rest ==
            DocText(x.doc) + (x.after + ([COMMA] + (x.next + (ItemsText(more, closed) + rest)))) &&
            (acc + [DocValue(x.doc, num)]) + ItemValues(more, num) == acc + ItemValues(items, num)
  {
    var items := [x] + more;
    assert items[0] == x && items[1..] == more;
    var a, y := DocText(x.doc), ItemsText(more, closed);
    assert AreItems(items, num);
    assert ItemsText(items, closed) == (a + x.after) + ([COMMA] + (x.next + y));
    assert ItemValues(items, num) == [DocValue(x.doc, num)] + ItemValues(more, num);
    hide *;
    Regroup(a, x.after, COMMA, x.next, y, rest);
    Associate(acc, [DocValue(x.doc, num)], ItemValues(more, num));
  }

  lemma LastItem(x: Item, acc: seq<Json>, rest: Bytes, num: Numbers)
    requires IsItem(x, num)
    ensures AreItems([x], num)
    ensures ItemsText([x], true) + rest == DocText(x.doc) + (x.after + ([CLOSE] + rest))
    ensures acc + [DocValue(x.doc, num)] == acc + ItemValues([x], num)
  {
    NoItems(true, num);
    assert [x][1..] == [];
    var a := DocText(x.doc);
    assert AreItems([x], num) && ItemsText([x], true) == (a + x.after) + [CLOSE];
    assert ItemValues([x], num) == [DocValue(x.doc, num)];
    hide *;
    assert ((a + x.after) + [CLOSE]) + rest == a + (x.after + ([CLOSE] + rest));
  }

  lemma {:induction false} ObjectWritten(t: Bytes, num: Numbers) returns (d: Doc)
    requires t != [] && t[0] == OPENOBJ && P.ObjectText(t, num).Parsed?
    ensures d.DObj? && IsDoc(d, num) && MayFollow(d, P.ObjectText(t, num).rest)
    ensures var p := P.ObjectText(t, num); t == DocText(d) + p.rest && DocValue(d, num) == p.value
    decreases |t|, 3
  {
    hide *;
    P.ObjectStep(t, num);
    var before := BlankBefore(t[1..]);
    var u := SkipWs(t[1..]);
    Shorter(before, u);
    Tail(t, OPENOBJ);
    if u[0] == CLOSEOBJ {
      d := DObj(before, [], true);
      EmptyObject(t, before, u, num);
    } else {
      var members, closed := EntriesWritten(u, [], num);
      d := DObj(before, members, closed);
      ObjectMade(d, t, u, ParseMembers(u, [], num).rest, num);
    }
  }

  lemma EmptyObject(t: Bytes, before: Bytes, u: Bytes, num: Numbers)
    requires IsBlank(before) && t == [OPENOBJ] + (before + u) && u != [] && u[0] == CLOSEOBJ
    ensures var d := DObj(before, [], true);
            IsDoc(d, num) && MayFollow(d, u[1..]) && t == DocText(d) + u[1..] && DocValue(d, num) == Obj([])
  {
    NoEntries(num);
    Tail(u, CLOSEOBJ);
    var d := DObj(before, [], true);
    assert DocText(d) == [OPENOBJ] + (before + [CLOSEOBJ]);
    assert IsDoc(d, num) && MayFollow(d, u[1..]) && DocValue(d, num) == Obj([]);
    hide *;
    ThreeOn([OPENOBJ], before, [CLOSEOBJ], u[1..]);
  }

  lemma ObjectMade(d: Doc, t: Bytes, u: Bytes, rest: Bytes, num: Numbers)
    requires d.DObj? && IsBlank(d.before) && AreEntries(d.members, num) && d.members != []
    requires !d.closed ==> rest == []
    requires t == [OPENOBJ] + (d.before + u) && u == EntriesText(d.members, d.closed) + rest
    ensures IsDoc(d, num) && MayFollow(d, rest) && t == DocText(d) + rest
    ensures DocValue(d, num) == Obj(EntryValues(d.members, [], num))
  {
    var x := EntriesText(d.members, d.closed);
    assert DocText(d) == [OPENOBJ] + (d.before + x);
    assert IsDoc(d, num) && MayFollow(d, rest) && DocValue(d, num) == Obj(EntryValues(d.members, [], num));
    hide *;
    ThreeOn([OPENOBJ], d.before, x, rest);
  }

  /** One member. */
  lemma {:induction false} EntryWritten(t: Bytes, num: Numbers) returns (x: Entry)
    requires t != [] && P.MemberText(t, num).Parsed?
    ensures var p := P.MemberText(t, num);
            x.after == [] == x.next && IsLiteral(x.key) && IsBlank(x.colon) && IsBlank(x.space) && IsDoc(x.doc, num) &&
            MayFollow(x.doc, p.rest) && t == EntryText(x) + p.rest && |p.rest| < |t| &&
            p.value == Member(LiteralBytes(x.key), DocValue(x.doc, num))
    decreases |t|, 4
  {
    hide *;
    P.MemberStep(t, num);
    Tail(t, QUOTE);
    var ps, r := LiteralWritten(t[1..], []);
    LiteralBack(ps, r);
    var colon := BlankBefore(r);
    var u := SkipWs(r);
    Shorter(colon, u);
    Shorter(LiteralText(ps), r);
    Tail(u, COLON);
    var space, d := DocWritten(u[1..], num);
    x := Entry(ps, colon, space, d, [], []);
    EntryMade(x, t, ParseValue(u[1..], num).rest);
  }

  lemma EntryMade(x: Entry, t: Bytes, rest: Bytes)
    requires x.after == []
    requires t == [QUOTE] + (LiteralText(x.key) + (x.colon + ([COLON] + (x.space + (DocText(x.doc) + rest)))))
    ensures t == EntryText(x) + rest && |rest| < |t|
  {
    var k, v := LiteralText(x.key), DocText(x.doc);
    assert EntryText(x) == [QUOTE] + (k + (x.colon + ([COLON] + (x.space + (v + [])))));
    hide *;
    Deep(k, x.colon, COLON, x.space, v, [], rest);
    assert [] + rest == rest;
    Tail(([QUOTE] + (k + (x.colon + ([COLON] + (x.space + (v + [])))))) + rest, QUOTE);
  }

  lemma {:induction false} EntriesWritten(t: Bytes, acc: seq<Member>, num: Numbers)
    returns (members: seq<Entry>, closed: bool)
    requires t != [] && ParseMembers(t, acc, num).Parsed?
    ensures AreEntries(members, num) && members != [] && (!closed ==> ParseMembers(t, acc, num).rest == [])
    ensures var p := ParseMembers(t, acc, num);
            t == EntriesText(members, closed) + p.rest && p.value == Obj(EntryValues(members, acc, num))
    decreases |t|, 5
  {
    hide *;
    P.MembersOne(t, acc, num);
    FirstBytesDiffer();
    var e := EntryWritten(t, num);
    var q := P.MemberText(t, num);
    var after := BlankBefore(q.rest);
    var u := SkipWs(q.rest);
    Shorter(after, u);
    CannotBeOpen(e.doc, q.rest, after, u);
    var now := SetMember(acc, q.value.key, q.value.value);
    if u[0] == COMMA {
      Tail(u, COMMA);
      var next := BlankBefore(u[1..]);
      var v := SkipWs(u[1..]);
      Shorter(next, v);
      var x := e.(after := after, next := next);
      EntryAfter(e, x, t, q.rest, u, num);
      var more: seq<Entry>;
      if v == [] {
        P.MembersEnd(v, now, num);
        NoEntries(num);
        more, closed := [], false;
        NoEntriesText(now, num);
      } else {
        more, closed := EntriesWritten(v, now, num);
      }
      members := [x] + more;
      MoreEntries(x, more, closed, acc, ParseMembers(t, acc, num).rest, num);
    } else {
      Tail(u, CLOSEOBJ);
      EmptyBlank();
      var x := e.(after := after);
      EntryAfter(e, x, t, q.rest, u, num);
      members, closed := [x], true;
      LastEntry(x, acc, u[1..], num);
    }
  }

  lemma NoEntriesText(acc: seq<Member>, num: Numbers)
    ensures EntriesText([], false) == [] && AreEntries([], num) && EntryValues([], acc, num) == acc
  {
  }

  /** The white space after a member belongs to it. */
  lemma EntryAfter(e: Entry, x: Entry, t: Bytes, rest: Bytes, u: Bytes, num: Numbers)
    requires e.after == [] && x == e.(after := x.after, next := x.next) && IsBlank(x.after) && IsBlank(x.next)
    requires IsLiteral(e.key) && IsBlank(e.colon) && IsBlank(e.space) && IsDoc(e.doc, num) && !Open(e.doc)
    requires t == EntryText(e) + rest && rest == x.after + u
    ensures IsEntry(x, num) && t == EntryText(x) + u
    ensures EntryValue(x, num) == Member(LiteralBytes(e.key), DocValue(e.doc, num))
  {
    var k, v := LiteralText(e.key), DocText(e.doc);
    assert EntryText(e) == [QUOTE] + (k + (e.colon + ([COLON] + (e.space + (v + [])))));
    assert EntryText(x) == [QUOTE] + (k + (e.colon + ([COLON] + (e.space + (v + x.after)))));
    assert IsEntry(x, num) && EntryValue(x, num) == Member(LiteralBytes(e.key), DocValue(e.doc, num));
    hide *;
    Deep(k, e.colon, COLON, e.space, v, [], rest);
    Deep(k, e.colon, COLON, e.space, v, x.after, u);
    assert [] + rest == rest;
    var p, q := ([QUOTE] + (k + (e.colon + ([COLON] + (e.space + (v + [])))))) + rest,
                ([QUOTE] + (k + (e.colon + ([COLON] + (e.space + (v + x.after)))))) + u;
    Tail(p, QUOTE);
    Tail(q, QUOTE);
  }

  lemma MoreEntries(x: Entry, more: seq<Entry>, closed: bool, acc: seq<Member>, rest: Bytes, num: Numbers)
    requires IsEntry(x, num) && AreEntries(more, num) && (more == [] ==> !closed)
    ensures var members := [x] + more;
            AreEntries(members, num) && members != [] &&
            EntriesText(members, closed) + rest ==
            EntryText(x) + ([COMMA] + (x.next + (EntriesText(more, closed) + rest))) &&
            var m := EntryValue(x, num);
            EntryValues(members, acc, num) == EntryValues(more, SetMember(acc, m.key, m.value), num)
  {
    MoreAre(x, more, closed, acc, num);
    hide *;
    var a, y := EntryText(x), EntriesText(more, closed);
    Associate([COMMA], x.next + y, rest);
    Associate(x.next, y, rest);
    Associate(a, [COMMA] + (x.next + y), rest);
  }

  lemma MoreAre(x: Entry, more: seq<Entry>, closed: bool, acc: seq<Member>, num: Numbers)
    requires IsEntry(x, num) && AreEntries(more, num) && (more == [] ==> !closed)
    ensures var members := [x] + more;
            AreEntries(members, num) && members != [] &&
            EntriesText(members, closed) == EntryText(x) + ([COMMA] + (x.next + EntriesText(more, closed))) &&
            var m := EntryValue(x, num);
            EntryValues(members, acc, num) == EntryValues(more, SetMember(acc, m.key, m.value), num)
  {
    hide EntryText;
    hide IsEntry;
    hide EntryValue;
    var members := [x] + more;
    assert members[0] == x && members[1..] == more && |members| > 0 && (|members| == 1 ==> more == []);
  }

  lemma LastEntry(x: Entry, acc: seq<Member>, rest: Bytes, num: Numbers)
    requires IsEntry(x, num)
    ensures AreEntries([x], num) && EntriesText([x], true) + rest == EntryText(x) + ([CLOSEOBJ] + rest)
    ensures var m := EntryValue(x, num); EntryValues([x], acc, num) == SetMember(acc, m.key, m.value)
  {
    NoEntries(num);
    assert [x][1..] == [];
    var a, m := EntryText(x), EntryValue(x, num);
    assert EntriesText([x], true) == a + [CLOSEOBJ];
    NoEntriesText(SetMember(acc, m.key, m.value), num);
    hide EntryText;
    hide IsEntry;
    hide EntryValue;
    Associate(a, [CLOSEOBJ], rest);
  }

  // ----- the decoder -----

  /** `text` is a text of `v` with white space around it. */
  ghost predicate Spelled(text: Bytes, v: Json, num: Numbers) {
    exists b: Bytes, d: Doc, e: Bytes :: SpelledAs(text, b, d, e, v, num)
  }

  predicate SpelledAs(text: Bytes, b: Bytes, d: Doc, e: Bytes, v: Json, num: Numbers) {
    IsBlank(b) && IsDoc(d, num) && IsBlank(e) && (Open(d) ==> e == []) && text == b + (DocText(d) + e) &&
    DocValue(d, num) == v
  }

  /** For every text and every value: the text is decoded as the value if and only if it is one of its texts. */
  lemma DecodesTheGrammar(text: Bytes, v: Json, num: Numbers)
    ensures DecodeJson(text, num) == Decoded(v) <==> Spelled(text, v, num)
  {
    hide *;
    if DecodeJson(text, num) == Decoded(v) {
      DecodedParts(text, num);
      var b, d := DocWritten(text, num);
      var rest := ParseValue(text, num).rest;
      var e := BlankBefore(rest);
      assert e + [] == e;
      FollowsOpen(d, rest);
      SpelledIs(text, b, d, e, v, num);
    }
    if Spelled(text, v, num) {
      var b, d, e := SpelledParts(text, v, num);
      BlankFollows(d, e);
      DocRead(d, b, e, num);
      SkipBlank(e, []);
      assert e + [] == e;
      NoBlank([]);
      DecodedIs(text, num);
    }
  }

  lemma DecodedParts(text: Bytes, num: Numbers)
    requires DecodeJson(text, num).Decoded?
    ensures var p := ParseValue(text, num);
            p.Parsed? && SkipWs(p.rest) == [] && DecodeJson(text, num) == Decoded(p.value)
  {
    hide ParseValue;
  }

  lemma DecodedIs(text: Bytes, num: Numbers)
    requires var p := ParseValue(text, num); p.Parsed? && SkipWs(p.rest) == []
    ensures DecodeJson(text, num) == Decoded(ParseValue(text, num).value)
  {
    hide ParseValue;
  }

  lemma FollowsOpen(d: Doc, rest: Bytes)
    requires MayFollow(d, rest)
    ensures Open(d) ==> rest == []
  {
  }

  lemma BlankFollows(d: Doc, e: Bytes)
    requires IsBlank(e) && (Open(d) ==> e == [])
    ensures MayFollow(d, e)
  {
  }

  lemma SpelledIs(text: Bytes, b: Bytes, d: Doc, e: Bytes, v: Json, num: Numbers)
    requires IsBlank(b) && IsDoc(d, num) && IsBlank(e) && (Open(d) ==> e == []) && text == b + (DocText(d) + e)
    requires DocValue(d, num) == v
    ensures Spelled(text, v, num)
  {
    hide IsDoc;
    hide DocText;
    hide DocValue;
    assert SpelledAs(text, b, d, e, v, num);
  }

  lemma SpelledParts(text: Bytes, v: Json, num: Numbers) returns (b: Bytes, d: Doc, e: Bytes)
    requires Spelled(text, v, num)
    ensures IsBlank(b) && IsDoc(d, num) && IsBlank(e) && (Open(d) ==> e == []) && text == b + (DocText(d) + e)
    ensures DocValue(d, num) == v
  {
    hide IsDoc;
    hide DocText;
    hide DocValue;
    b, d, e :| SpelledAs(text, b, d, e, v, num);
  }

  function Ascii(s: string): Bytes {
    seq(|s|, i requires 0 <= i < |s| => s[i] as int % 256)
  }

  /** The words and symbols of the grammar. */
  lemma WordsSpelled()
    ensures TRUE == Ascii("true") && FALSE == Ascii("false") && NULL == Ascii("null")
    ensures [OPEN, CLOSE, OPENOBJ, CLOSEOBJ, COMMA, COLON] == Ascii("[]{},:")
    ensures [QUOTE] == Ascii("\"") && [BACKSLASH] == Ascii("\\")
  {
  }
}
