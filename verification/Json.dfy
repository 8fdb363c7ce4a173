/** JSON values, their encoding and the runtime's recursive-descent decoder. */
module Json {
  import opened Options
  import opened Basics
  import opened Utf8
  import opened Arith

  datatype Json =
    | Null
    | Bool(b: bool)
    | Number(n: real)
    | Str(s: Bytes)
    | Arr(items: seq<Json>)
    | Obj(members: seq<Member>)

  datatype Member = Member(key: Bytes, value: Json)

  /** `snprintf("%.17g")` and `strtod`; `None` is an infinity.  Only whole numbers matter here. */
  datatype Numbers = Numbers(show: real -> Bytes, read: Bytes -> Option<real>)

  const QUOTE: Byte := 0x22
  const BACKSLASH: Byte := 0x5C
  const COMMA: Byte := 0x2C
  const COLON: Byte := 0x3A
  const OPEN: Byte := 0x5B
  const CLOSE: Byte := 0x5D
  const OPENOBJ: Byte := 0x7B
  const CLOSEOBJ: Byte := 0x7D
  const TRUE: Bytes := [0x74, 0x72, 0x75, 0x65]
  const FALSE: Bytes := [0x66, 0x61, 0x6C, 0x73, 0x65]
  const NULL: Bytes := [0x6E, 0x75, 0x6C, 0x6C]

  // ----- encoding: strings are written as they are -----

  function EncodeJson(v: Json, num: Numbers): Bytes
    decreases v, 0
  {
    match v
    case Null => NULL
    case Bool(b) => if b then TRUE else FALSE
    case Number(n) => num.show(n)
    case Str(s) => [QUOTE] + s + [QUOTE]
    case Arr(items) => [OPEN] + EncodeItems(items, num) + [CLOSE]
    case Obj(members) => [OPENOBJ] + EncodeMembers(members, num) + [CLOSEOBJ]
  }

  function EncodeItems(items: seq<Json>, num: Numbers): Bytes
    decreases items, 0
  {
    if items == [] then []
    else EncodeJson(items[0], num) + (if |items| > 1 then [COMMA] else []) + EncodeItems(items[1..], num)
  }

  function EncodeMember(m: Member, num: Numbers): Bytes
    decreases m, 0
  {
    [QUOTE] + m.key + [QUOTE] + [COLON] + EncodeJson(m.value, num)
  }

  function EncodeMembers(members: seq<Member>, num: Numbers): Bytes
    decreases members, 0
  {
    if members == [] then []
    else EncodeMember(members[0], num) + (if |members| > 1 then [COMMA] else []) + EncodeMembers(members[1..], num)
  }

  // ----- decoding -----

  /** What is read and what is left; `Failed` is malformed text, `Crashed` a panic on the way, and
      `Overrun` a write past the end of the block that holds a string, which C leaves undefined. */
  datatype Parsed<+T> = Parsed(value: T, rest: Bytes) | Failed | Crashed | Overrun

  // ----- the block that a string is read into -----

  /** `c`, doubled until it is at least `n`. */
  function Doubled(c: nat, n: nat): (r: nat)
    requires c > 0
    ensures n <= r
    decreases n - c
  {
    if n <= c then c else Doubled(2 * c, n)
  }

  /** How large the block is after `n` bytes have been pushed, one at a time. */
  function Capacity(n: nat): (r: nat)
    ensures n <= r
  {
    if n == 0 then 0 else Doubled(64, n)
  }

  /** Then the terminating zero goes past the block. */
  predicate FullBlock(n: nat) {
    n > 0 && Capacity(n) == n
  }

  lemma {:induction false} DoubledIs(c: nat, n: nat)
    requires c > 0
    ensures Doubled(c, n) == n <==> c <= n && exists k: nat :: n == c * Pow2(k)
    decreases n - c
  {
    if n <= c {
      if k: nat :| n == c * Pow2(k) { MulMono(1, Pow2(k), c); }
      if n == c { assert n == c * Pow2(0); }
    } else {
      DoubledIs(2 * c, n);
      if 2 * c <= n && exists k: nat :: n == 2 * c * Pow2(k) {
        var k: nat :| n == 2 * c * Pow2(k);
        TwiceC(c, k);
      }
      if k: nat :| n == c * Pow2(k) {
        assert k > 0;
        TwiceC(c, k - 1);
        MulMono(1, Pow2(k - 1), 2 * c);
      }
    }
  }

  lemma TwiceC(c: nat, k: nat)
    ensures 2 * c * Pow2(k) == c * Pow2(k + 1)
  {
  }

  /** The lengths at which that happens: 64, 128, 256 and so on. */
  lemma FullBlockIff(n: nat)
    ensures FullBlock(n) <==> exists k: nat :: n == 64 * Pow2(k)
  {
    DoubledIs(64, n);
    if k: nat :| n == 64 * Pow2(k) { MulMono(1, Pow2(k), 64); }
  }

  lemma {:induction false} DoubledNext(c: nat, n: nat)
    requires c > 0
    ensures Doubled(c, n + 1) == if n + 1 <= Doubled(c, n) then Doubled(c, n) else 2 * Doubled(c, n)
    decreases n - c
  {
    if n > c { DoubledNext(2 * c, n); }
  }

  /** One more byte: the block is doubled when it is full. */
  lemma CapacityNext(n: nat)
    ensures Capacity(n + 1) == if n + 1 <= Capacity(n) then Capacity(n) else if Capacity(n) == 0 then 64
                               else 2 * Capacity(n)
  {
    if n > 0 { DoubledNext(64, n); }
  }

  predicate IsWs(c: Byte) {
    c == 0x20 || c == 0x0A || c == 0x0D || c == 0x09
  }

  function SkipWs(t: Bytes): (r: Bytes)
    ensures |r| <= |t| && (r != [] ==> !IsWs(r[0]))
  {
    if t != [] && IsWs(t[0]) then SkipWs(t[1..]) else t
  }

  predicate IsDigitByte(c: Byte) {
    0x30 <= c <= 0x39
  }

  function HexDigit(c: Byte): Option<nat> {
    if IsDigitByte(c) then Some(c - 0x30)
    else if 0x61 <= c <= 0x66 then Some(c - 0x61 + 10)
    else if 0x41 <= c <= 0x46 then Some(c - 0x41 + 10)
    else None
  }

  function Hex4(t: Bytes): Option<nat> {
    if |t| < 4 then None
    else
      match (HexDigit(t[0]), HexDigit(t[1]), HexDigit(t[2]), HexDigit(t[3]))
      case (Some(a), Some(b), Some(c), Some(d)) => Some(a * 0x1000 + b * 0x100 + c * 0x10 + d)
      case _ => None
  }

  function SimpleEscape(c: Byte): Option<Byte> {
    if c == QUOTE || c == BACKSLASH || c == 0x2F then Some(c)
    else if c == 0x62 then Some(0x08)
    else if c == 0x66 then Some(0x0C)
    else if c == 0x6E then Some(0x0A)
    else if c == 0x72 then Some(0x0D)
    else if c == 0x74 then Some(0x09)
    else None
  }

  /** After `\\u`: one or two groups of four digits. */
  function UnicodeEscape(t: Bytes): (r: Parsed<nat>)
    ensures r.Parsed? ==> Scalar(r.value) && |r.rest| + 4 <= |t| && (r.value > 0xFFFF ==> |r.rest| + 10 <= |t|)
  {
    match Hex4(t)
    case None => Failed
    case Some(cp) =>
      if 0xD800 <= cp <= 0xDBFF then
        if |t| < 6 || t[4] != BACKSLASH || t[5] != 0x75 then Failed
        else
          match Hex4(t[6..])
          case None => Failed
          case Some(low) =>
            if low < 0xDC00 || low > 0xDFFF then Failed
            else Parsed(0x10000 + (cp - 0xD800) * 0x400 + (low - 0xDC00), t[10..])
      else if 0xDC00 <= cp <= 0xDFFF then Failed
      else HexRange(t); Parsed(cp, t[4..])
  }

  lemma HexRange(t: Bytes)
    ensures Hex4(t).Some? ==> Hex4(t).value <= 0xFFFF
  {
  }

  function Utf8Of(cp: nat): (b: Bytes)
    requires Scalar(cp)
    ensures 1 <= |b| <= 4 && (cp <= 0xFFFF ==> |b| <= 3)
  {
    EncodeIffScalar(cp);
    Encode(cp).value
  }

  /** The rest of a string literal; `buf` holds what has been read of it. */
  function ParseChars(t: Bytes, buf: Bytes): (r: Parsed<Bytes>)
    ensures r.Parsed? ==> |r.rest| < |t|
    decreases |t|
  {
    if t == [] then Failed
    else
      var c := t[0];
      if c == QUOTE then (if FullBlock(|buf|) then Overrun else if Valid(buf) then Parsed(buf, t[1..]) else Crashed)
      else if c < 0x20 then Failed
      else if c == BACKSLASH then
        if |t| == 1 then Failed
        else if t[1] == 0x75 then
          match UnicodeEscape(t[2..])
          case Parsed(cp, rest) => ParseChars(rest, buf + Utf8Of(cp))
          case Failed => Failed
          case Crashed => Crashed
          case Overrun => Overrun
        else
          match SimpleEscape(t[1])
          case Some(e) => ParseChars(t[2..], buf + [e])
          case None => Failed
      else ParseChars(t[1..], buf + [c])
  }

  function DigitCount(t: Bytes): (n: nat)
    ensures n <= |t| && forall k :: 0 <= k < n ==> IsDigitByte(t[k])
    ensures n < |t| ==> !IsDigitByte(t[n])
  {
    if t != [] && IsDigitByte(t[0]) then 1 + DigitCount(t[1..]) else 0
  }

  /** The length of the number at the start of `t`: an optional sign, digits, an optional fraction. */
  function NumberLength(t: Bytes): (n: nat)
    requires t != []
    ensures n <= |t|
  {
    var sign := if t[0] == 0x2D then 1 else 0;
    var whole := sign + DigitCount(t[sign..]);
    if whole < |t| && t[whole] == 0x2E then whole + 1 + DigitCount(t[whole + 1..]) else whole
  }

  function ParseNumber(t: Bytes, num: Numbers): (r: Parsed<Json>)
    requires t != []
    ensures r.Parsed? ==> |r.rest| < |t|
  {
    var n := NumberLength(t);
    if n == 0 then Failed
    else
      match num.read(t[..n])
      case Some(v) => Parsed(Number(v), t[n..])
      case None => Crashed
  }

  function ParseValue(text: Bytes, num: Numbers): (r: Parsed<Json>)
    ensures r.Parsed? ==> |r.rest| < |text|
    decreases |text|, 2
  {
    var t := SkipWs(text);
    if t == [] then Failed
    else if TRUE <= t then Parsed(Bool(true), t[4..])
    else if FALSE <= t then Parsed(Bool(false), t[5..])
    else if NULL <= t then Parsed(Null, t[4..])
    else if t[0] == OPEN then
      var u := SkipWs(t[1..]);
      if u != [] && u[0] == CLOSE then Parsed(Arr([]), u[1..]) else ParseItems(u, [], num)
    else if t[0] == OPENOBJ then
      var u := SkipWs(t[1..]);
      if u == [] then Failed
      else if u[0] == CLOSEOBJ then Parsed(Obj([]), u[1..])
      else ParseMembers(u, [], num)
    else if t[0] == QUOTE then
      match ParseChars(t[1..], [])
      case Parsed(s, rest) => Parsed(Str(s), rest)
      case Failed => Failed
      case Crashed => Crashed
      case Overrun => Overrun
    else if IsDigitByte(t[0]) || t[0] == 0x2D then ParseNumber(t, num)
    else Failed
  }

  /** The rest of an array.  Text that ends where an element should start ends the array too. */
  function ParseItems(t: Bytes, items: seq<Json>, num: Numbers): (r: Parsed<Json>)
    ensures r.Parsed? ==> |r.rest| <= |t|
    decreases |t|, 3
  {
    if t == [] then Parsed(Arr(items), [])
    else
      match ParseValue(t, num)
      case Failed => Failed
      case Crashed => Crashed
      case Overrun => Overrun
      case Parsed(v, rest) =>
        var u := SkipWs(rest);
        if u != [] && u[0] == COMMA then ParseItems(SkipWs(u[1..]), items + [v], num)
        else if u != [] && u[0] == CLOSE then Parsed(Arr(items + [v]), u[1..])
        else Failed
  }

  function SetMember(members: seq<Member>, key: Bytes, v: Json): seq<Member> {
    if members == [] then [Member(key, v)]
    else if members[0].key == key then [Member(key, v)] + members[1..]
    else [members[0]] + SetMember(members[1..], key, v)
  }

  function ParseMembers(t: Bytes, members: seq<Member>, num: Numbers): (r: Parsed<Json>)
    ensures r.Parsed? ==> |r.rest| <= |t|
    decreases |t|, 3
  {
    if t == [] then Parsed(Obj(members), [])
    else if t[0] != QUOTE then Failed
    else
      match ParseChars(t[1..], [])
      case Failed => Failed
      case Crashed => Crashed
      case Overrun => Overrun
      case Parsed(key, rest) =>
        var u := SkipWs(rest);
        if u == [] || u[0] != COLON then Failed
        else
          match ParseValue(u[1..], num)
          case Failed => Failed
          case Crashed => Crashed
          case Overrun => Overrun
          case Parsed(v, rest1) =>
            var w := SkipWs(rest1);
            if w != [] && w[0] == COMMA then ParseMembers(SkipWs(w[1..]), SetMember(members, key, v), num)
            else if w != [] && w[0] == CLOSEOBJ then Parsed(Obj(SetMember(members, key, v)), w[1..])
            else Failed
  }

  datatype Decoding = Decoded(value: Json) | Panics | Undefined

  /** `JSON_decode`; every failure is a panic. */
  function DecodeJson(text: Bytes, num: Numbers): Decoding {
    match ParseValue(text, num)
    case Parsed(v, rest) => if SkipWs(rest) == [] then Decoded(v) else Panics
    case Failed => Panics
    case Crashed => Panics
    case Overrun => Undefined
  }

  // ----- values that survive -----

  /** Nothing that a JSON string would have to escape (section 7 of RFC 8259). */
  predicate Clean(s: Bytes) {
    forall k :: 0 <= k < |s| ==> s[k] >= 0x20 && s[k] != QUOTE && s[k] != BACKSLASH
  }

  /** Doubles hold every whole number up to 2^53. */
  predicate HeldExactly(n: int) {
    -0x20_0000_0000_0000 <= n <= 0x20_0000_0000_0000
  }

  function Digits(n: nat): (s: Bytes)
    ensures s != [] && forall k :: 0 <= k < |s| ==> IsDigitByte(s[k])
  {
    if n < 10 then [0x30 + n] else Digits(n / 10) + [0x30 + n % 10]
  }

  function IntText(n: int): (s: Bytes)
    ensures s != []
  {
    if n < 0 then [0x2D] + Digits(-n) else Digits(n)
  }

  /** Whole numbers up to 2^53 are printed and read exactly. */
  ghost predicate Faithful(num: Numbers) {
    forall n: int :: HeldExactly(n) ==> num.show(n as real) == IntText(n) && num.read(IntText(n)) == Some(n as real)
  }

  predicate WholeNumber(r: real) {
    r == r.Floor as real && HeldExactly(r.Floor)
  }

  predicate UniqueKeys(members: seq<Member>) {
    forall i, j :: 0 <= i < j < |members| ==> members[i].key != members[j].key
  }

  predicate Ready(v: Json)
    decreases v, 0
  {
    match v
    case Number(n) => WholeNumber(n)
    case Str(s) => Clean(s) && Valid(s)
    case Arr(items) => forall k :: 0 <= k < |items| ==> Ready(items[k])
    case Obj(members) => UniqueKeys(members) && forall k :: 0 <= k < |members| ==> ReadyMember(members[k])
    case _ => true
  }

  predicate ReadyMember(m: Member)
    decreases m, 1
  {
    Clean(m.key) && Valid(m.key) && Ready(m.value)
  }

  /** No string and no key fills its block. */
  predicate Fits(v: Json)
    decreases v, 0
  {
    match v
    case Str(s) => !FullBlock(|s|)
    case Arr(items) => forall k :: 0 <= k < |items| ==> Fits(items[k])
    case Obj(members) => forall k :: 0 <= k < |members| ==> FitsMember(members[k])
    case _ => true
  }

  predicate FitsMember(m: Member)
    decreases m, 1
  {
    !FullBlock(|m.key|) && Fits(m.value)
  }

  predicate FitAll(items: seq<Json>) {
    forall k :: 0 <= k < |items| ==> Fits(items[k])
  }

  predicate FitMembers(members: seq<Member>) {
    forall k :: 0 <= k < |members| ==> FitsMember(members[k])
  }

  lemma FitFirst(items: seq<Json>)
    requires items != []
    ensures FitAll(items) <==> Fits(items[0]) && FitAll(items[1..])
  {
    hide Fits;
    if Fits(items[0]) && FitAll(items[1..]) {
      forall k | 0 <= k < |items|
        ensures Fits(items[k])
      {
        assert k > 0 ==> items[k] == items[1..][k - 1];
      }
    }
    if FitAll(items) {
      forall k | 0 <= k < |items| - 1
        ensures Fits(items[1..][k])
      {
        assert items[1..][k] == items[k + 1];
      }
    }
  }

  lemma FitFirstMember(members: seq<Member>)
    requires members != []
    ensures FitMembers(members) <==> FitsMember(members[0]) && FitMembers(members[1..])
  {
    hide FitsMember;
    if FitsMember(members[0]) && FitMembers(members[1..]) {
      forall k | 0 <= k < |members|
        ensures FitsMember(members[k])
      {
        assert k > 0 ==> members[k] == members[1..][k - 1];
      }
    }
    if FitMembers(members) {
      forall k | 0 <= k < |members| - 1
        ensures FitsMember(members[1..][k])
      {
        assert members[1..][k] == members[k + 1];
      }
    }
  }

  lemma FitsParts(v: Json)
    ensures v.Arr? ==> (Fits(v) <==> FitAll(v.items))
    ensures v.Obj? ==> (Fits(v) <==> FitMembers(v.members))
  {
  }

  /** A value, or a block overrun if one of its strings does not fit. */
  function Back<T>(fits: bool, v: T, rest: Bytes): Parsed<T> {
    if fits then Parsed(v, rest) else Overrun
  }

  /** What may follow a value: anything that cannot continue a number. */
  predicate Ends(post: Bytes) {
    post == [] || (!IsDigitByte(post[0]) && post[0] != 0x2E)
  }

  // ----- strings and numbers -----

  lemma {:induction false} CharsBack(s: Bytes, buf: Bytes, post: Bytes)
    requires Clean(s) && Valid(buf + s)
    ensures ParseChars(s + [QUOTE] + post, buf) == Back(!FullBlock(|buf + s|), buf + s, post)
    decreases |s|
  {
    hide Valid;
    hide FullBlock;
    var t := s + [QUOTE] + post;
    if s == [] {
      assert t[0] == QUOTE && t[1..] == post && buf + s == buf;
    } else {
      assert t[0] == s[0] && t[1..] == s[1..] + [QUOTE] + post;
      assert (buf + [s[0]]) + s[1..] == buf + s;
      CharsBack(s[1..], buf + [s[0]], post);
    }
  }

  lemma {:induction false} DigitCountOf(s: Bytes, post: Bytes)
    requires (forall k :: 0 <= k < |s| ==> IsDigitByte(s[k])) && (post == [] || !IsDigitByte(post[0]))
    ensures DigitCount(s + post) == |s|
  {
    if s == [] {
      assert s + post == post;
    } else {
      assert (s + post)[0] == s[0] && (s + post)[1..] == s[1..] + post;
      DigitCountOf(s[1..], post);
    }
  }

  lemma NumberBack(n: int, post: Bytes, num: Numbers)
    requires HeldExactly(n) && Faithful(num) && Ends(post)
    ensures ParseNumber(IntText(n) + post, num) == Parsed(Number(n as real), post)
  {
    var s := IntText(n);
    var t := s + post;
    var d := if n < 0 then Digits(-n) else Digits(n);
    DigitCountOf(d, post);
    assert s[0] == if n < 0 then 0x2D else d[0];
    assert IsDigitByte(d[0]) && t[0] == s[0];
    if n < 0 { assert t[1..] == d + post; } else { assert t[0..] == d + post; }
    assert NumberLength(t) == |s|;
    assert t[..|s|] == s && t[|s|..] == post;
    assert num.read(IntText(n)) == Some(n as real);
  }

  // ----- nested values -----

  lemma BackIs<T>(fits: bool, v: T, rest: Bytes)
    ensures Back(fits, v, rest) == if fits then Parsed(v, rest) else Overrun
  {
  }

  lemma NoneFit()
    ensures FitAll([]) && FitMembers([])
  {
  }

  /** How an encoding starts. */
  predicate Starts(t: Bytes) {
    t != [] && !IsWs(t[0]) && t[0] != CLOSE && t[0] != CLOSEOBJ
  }

  lemma IntTextStarts(n: int)
    ensures Starts(IntText(n)) && (IsDigitByte(IntText(n)[0]) || IntText(n)[0] == 0x2D)
  {
    if n >= 0 { assert IsDigitByte(Digits(n)[0]); }
  }

  lemma EncodeStarts(v: Json, num: Numbers)
    requires Ready(v) && Faithful(num)
    ensures Starts(EncodeJson(v, num))
  {
    if v.Number? { IntTextStarts(v.n.Floor); }
  }

  lemma StartsWith(a: Bytes, b: Bytes)
    requires Starts(a)
    ensures Starts(a + b) && SkipWs(a + b) == a + b && (a + b)[0] == a[0]
  {
  }

  lemma NumberValue(n: int, post: Bytes, num: Numbers)
    requires HeldExactly(n) && Faithful(num) && Ends(post)
    ensures ParseValue(IntText(n) + post, num) == Parsed(Number(n as real), post)
  {
    IntTextStarts(n);
    StartsWith(IntText(n), post);
    NumberBack(n, post, num);
    hide ParseNumber;
  }

  lemma WordValue(v: Json, post: Bytes, num: Numbers)
    requires v.Null? || v.Bool?
    ensures ParseValue(EncodeJson(v, num) + post, num) == Parsed(v, post)
  {
    var e := EncodeJson(v, num);
    StartsWith(e, post);
    assert (e + post)[..|e|] == e && (e + post)[|e|..] == post;
    assert (e + post)[0] == e[0];
  }

  lemma StringValue(s: Bytes, post: Bytes, num: Numbers)
    requires Clean(s) && Valid(s)
    ensures ParseValue([QUOTE] + s + [QUOTE] + post, num) == Back(!FullBlock(|s|), Str(s), post)
  {
    hide Valid;
    hide FullBlock;
    var t := [QUOTE] + s + [QUOTE] + post;
    StartsWith([QUOTE], s + [QUOTE] + post);
    assert t == [QUOTE] + (s + [QUOTE] + post) && t[0] == QUOTE && t[1..] == s + [QUOTE] + post;
    assert [] + s == s;
    CharsBack(s, [], post);
    hide ParseChars;
  }

  /** Decoding an encoding gives the value back and leaves what follows, unless a string fills its
      block. */
  lemma {:induction false} ValueBack(v: Json, post: Bytes, num: Numbers)
    requires Ready(v) && Faithful(num) && Ends(post)
    ensures ParseValue(EncodeJson(v, num) + post, num) == Back(Fits(v), v, post)
    decreases v, 0
  {
    match v {
      case Number(n) => NumberValue(n.Floor, post, num);
      case Str(s) => StringValue(s, post, num);
      case Arr(items) => ArrayBack(v, post, num);
      case Obj(members) => ObjectBack(v, post, num);
      case _ => WordValue(v, post, num);
    }
  }

  /** The decoder at an opening bracket. */
  lemma ArrayOpens(inner: Bytes, num: Numbers)
    requires inner != [] && !IsWs(inner[0])
    ensures ParseValue([OPEN] + inner, num) == if inner[0] == CLOSE then Parsed(Arr([]), inner[1..])
                                               else ParseItems(inner, [], num)
  {
    hide ParseItems;
    var t := [OPEN] + inner;
    assert t[0] == OPEN && t[1..] == inner && SkipWs(t) == t;
  }

  lemma ObjectOpens(inner: Bytes, num: Numbers)
    requires inner != [] && !IsWs(inner[0])
    ensures ParseValue([OPENOBJ] + inner, num) == if inner[0] == CLOSEOBJ then Parsed(Obj([]), inner[1..])
                                                  else ParseMembers(inner, [], num)
  {
    hide ParseMembers;
    var t := [OPENOBJ] + inner;
    assert t[0] == OPENOBJ && t[1..] == inner && SkipWs(t) == t;
  }

  lemma StartsParts(t: Bytes)
    requires Starts(t)
    ensures t != [] && !IsWs(t[0]) && t[0] != CLOSE && t[0] != CLOSEOBJ
  {
  }

  lemma {:induction false} ArrayBack(v: Json, post: Bytes, num: Numbers)
    requires v.Arr? && Ready(v) && Faithful(num)
    ensures ParseValue(EncodeJson(v, num) + post, num) == Back(Fits(v), v, post)
    decreases v, 0, 0
  {
    var items := v.items;
    var inner := EncodeItems(items, num) + [CLOSE] + post;
    assert EncodeJson(v, num) + post == [OPEN] + inner;
    assert forall k :: 0 <= k < |items| ==> Ready(items[k]);
    assert items == [] ==> EncodeItems(items, num) == [];
    FitsParts(v);
    BackIs(Fits(v), v, post);
    hide *;
    if items == [] {
      assert inner == [CLOSE] + post && inner[1..] == post;
      CloseIsNoWs();
      NoneFit();
      ArrayOpens(inner, num);
    } else {
      ItemsStart(items, num);
      StartsWith(EncodeItems(items, num), [CLOSE] + post);
      assert inner == EncodeItems(items, num) + ([CLOSE] + post);
      StartsParts(inner);
      ArrayOpens(inner, num);
      ItemsBack(items, [], post, num);
      assert [] + items == items;
    }
  }

  lemma CloseIsNoWs()
    ensures !IsWs(CLOSE) && !IsWs(CLOSEOBJ) && !IsWs(COMMA) && !IsWs(COLON)
    ensures CLOSE != COMMA && CLOSEOBJ != COMMA
  {
  }

  lemma NoSkip(t: Bytes)
    requires t != [] && !IsWs(t[0])
    ensures SkipWs(t) == t
  {
  }

  lemma ItemsStart(items: seq<Json>, num: Numbers)
    requires items != [] && Ready(items[0]) && Faithful(num)
    ensures Starts(EncodeItems(items, num))
  {
    EncodeStarts(items[0], num);
    hide EncodeJson;
  }

  lemma ItemsText(items: seq<Json>, post: Bytes, num: Numbers) returns (after: Bytes)
    requires items != []
    ensures after == (if |items| == 1 then [CLOSE] + post
                      else [COMMA] + (EncodeItems(items[1..], num) + [CLOSE] + post))
    ensures EncodeItems(items, num) + [CLOSE] + post == EncodeJson(items[0], num) + after
  {
    hide EncodeJson;
    after := if |items| == 1 then [CLOSE] + post else [COMMA] + (EncodeItems(items[1..], num) + [CLOSE] + post);
    if |items| == 1 { assert EncodeItems(items[1..], num) == []; }
  }

  /** One element has been read. */
  lemma ItemsStep(t: Bytes, acc: seq<Json>, v: Json, after: Bytes, num: Numbers)
    requires t != [] && ParseValue(t, num) == Back(Fits(v), v, after) && after != [] && !IsWs(after[0])
    ensures !Fits(v) ==> ParseItems(t, acc, num) == Overrun
    ensures Fits(v) && after[0] == COMMA ==> ParseItems(t, acc, num) == ParseItems(SkipWs(after[1..]), acc + [v], num)
    ensures Fits(v) && after[0] == CLOSE ==> ParseItems(t, acc, num) == Parsed(Arr(acc + [v]), after[1..])
  {
    hide ParseValue;
    hide Fits;
    NoSkip(after);
  }

  lemma NextText(text: Bytes, close: Byte, post: Bytes, after: Bytes)
    requires Starts(text) && after == [COMMA] + (text + [close] + post)
    ensures SkipWs(after[1..]) == text + [close] + post
  {
    var more := text + [close] + post;
    assert after[1..] == more && more == text + ([close] + post);
    StartsWith(text, [close] + post);
  }

  lemma EndsAfter(c: Byte, post: Bytes)
    requires c == CLOSE || c == CLOSEOBJ || c == COMMA
    ensures Ends([c] + post)
  {
  }

  lemma {:induction false} ItemsBack(items: seq<Json>, acc: seq<Json>, post: Bytes, num: Numbers)
    requires items != [] && (forall k :: 0 <= k < |items| ==> Ready(items[k])) && Faithful(num)
    ensures ParseItems(EncodeItems(items, num) + [CLOSE] + post, acc, num) ==
            Back(FitAll(items), Arr(acc + items), post)
    decreases items
  {
    hide *;
    FitFirst(items);
    BackIs(FitAll(items), Arr(acc + items), post);
    var v, rest := items[0], items[1..];
    var after := ItemsText(items, post, num);
    var t := EncodeJson(v, num) + after;
    CloseIsNoWs();
    if |items| == 1 { EndsAfter(CLOSE, post); } else { EndsAfter(COMMA, EncodeItems(rest, num) + [CLOSE] + post); }
    ValueBack(v, after, num);
    EncodeStarts(v, num);
    StartsParts(EncodeJson(v, num));
    ItemsStep(t, acc, v, after, num);
    if |items| == 1 {
      assert after[1..] == post && items == [v];
      NoneFit();
    } else {
      ItemsStart(rest, num);
      NextText(EncodeItems(rest, num), CLOSE, post, after);
      ItemsBack(rest, acc + [v], post, num);
      assert (acc + [v]) + rest == acc + items;
      BackIs(FitAll(rest), Arr(acc + items), post);
    }
  }

  lemma {:induction false} SetNew(members: seq<Member>, key: Bytes, v: Json)
    requires forall k :: 0 <= k < |members| ==> members[k].key != key
    ensures SetMember(members, key, v) == members + [Member(key, v)]
  {
    if members != [] {
      SetNew(members[1..], key, v);
      assert [members[0]] + (members[1..] + [Member(key, v)]) == members + [Member(key, v)];
    }
  }

  lemma ObjectParts(v: Json, post: Bytes, num: Numbers)
    requires v.Obj? && Ready(v)
    ensures EncodeJson(v, num) + post == [OPENOBJ] + (EncodeMembers(v.members, num) + [CLOSEOBJ] + post)
    ensures UniqueKeys(v.members) && forall k :: 0 <= k < |v.members| ==> ReadyMember(v.members[k])
    ensures v.members == [] ==> EncodeMembers(v.members, num) == []
    ensures v == Obj(v.members)
  {
    hide EncodeMember;
    Associate([OPENOBJ], EncodeMembers(v.members, num) + [CLOSEOBJ], post);
    Associate([OPENOBJ], EncodeMembers(v.members, num), [CLOSEOBJ]);
  }

  lemma {:induction false} ObjectBack(v: Json, post: Bytes, num: Numbers)
    requires v.Obj? && Ready(v) && Faithful(num)
    ensures ParseValue(EncodeJson(v, num) + post, num) == Back(Fits(v), v, post)
    decreases v, 0, 0
  {
    var members := v.members;
    var inner := EncodeMembers(members, num) + [CLOSEOBJ] + post;
    ObjectParts(v, post, num);
    FitsParts(v);
    BackIs(Fits(v), v, post);
    hide *;
    if members == [] {
      assert inner == [CLOSEOBJ] + post && inner[1..] == post;
      CloseIsNoWs();
      NoneFit();
      ObjectOpens(inner, num);
    } else {
      MembersStart(members, num);
      StartsWith(EncodeMembers(members, num), [CLOSEOBJ] + post);
      assert inner == EncodeMembers(members, num) + ([CLOSEOBJ] + post);
      StartsParts(inner);
      ObjectOpens(inner, num);
      assert [] + members == members;
      MembersBack(members, [], post, num);
    }
  }

  lemma MembersStart(members: seq<Member>, num: Numbers)
    requires members != []
    ensures Starts(EncodeMembers(members, num)) && EncodeMembers(members, num)[0] == QUOTE
  {
    hide EncodeJson;
    assert EncodeMember(members[0], num)[0] == QUOTE;
  }

  lemma MembersText(members: seq<Member>, post: Bytes, num: Numbers) returns (after: Bytes)
    requires members != []
    ensures after == (if |members| == 1 then [CLOSEOBJ] + post
                      else [COMMA] + (EncodeMembers(members[1..], num) + [CLOSEOBJ] + post))
    ensures var m := members[0];
            EncodeMembers(members, num) + [CLOSEOBJ] + post ==
            [QUOTE] + (m.key + [QUOTE] + ([COLON] + (EncodeJson(m.value, num) + after)))
  {
    after := if |members| == 1 then [CLOSEOBJ] + post
    else [COMMA] + (EncodeMembers(members[1..], num) + [CLOSEOBJ] + post);
    var m := members[0];
    MemberThen(members, post, num, after);
    hide EncodeMembers;
    hide EncodeJson;
    var body := EncodeJson(m.value, num);
    MemberIs(m, num);
    Associate([QUOTE], m.key + [QUOTE] + ([COLON] + body), after);
    Associate(m.key + [QUOTE], [COLON] + body, after);
    Associate([COLON], body, after);
  }

  lemma MemberIs(m: Member, num: Numbers)
    ensures EncodeMember(m, num) == [QUOTE] + (m.key + [QUOTE] + ([COLON] + EncodeJson(m.value, num)))
  {
    hide EncodeJson;
  }

  lemma MemberThen(members: seq<Member>, post: Bytes, num: Numbers, after: Bytes)
    requires members != []
    requires after == if |members| == 1 then [CLOSEOBJ] + post
                      else [COMMA] + (EncodeMembers(members[1..], num) + [CLOSEOBJ] + post)
    ensures EncodeMembers(members, num) + [CLOSEOBJ] + post == EncodeMember(members[0], num) + after
  {
    var first, rest := EncodeMember(members[0], num), EncodeMembers(members[1..], num);
    if |members| == 1 {
      assert rest == [] && EncodeMembers(members, num) == first;
      Associate(first, [CLOSEOBJ], post);
    } else {
      assert EncodeMembers(members, num) == first + [COMMA] + rest;
      Associate(first + [COMMA], rest, [CLOSEOBJ]);
      Associate(first + [COMMA], rest + [CLOSEOBJ], post);
      Associate(first, [COMMA], rest + [CLOSEOBJ] + post);
    }
  }

  /** One member has been read. */
  lemma MembersStep(t: Bytes, acc: seq<Member>, key: Bytes, body: Bytes, v: Json, after: Bytes, num: Numbers)
    requires t != [] && t[0] == QUOTE && ParseChars(t[1..], []) == Back(!FullBlock(|key|), key, [COLON] + body)
    requires ParseValue(body, num) == Back(Fits(v), v, after) && after != [] && !IsWs(after[0])
    ensures FullBlock(|key|) || !Fits(v) ==> ParseMembers(t, acc, num) == Overrun
    ensures !FullBlock(|key|) && Fits(v) && after[0] == COMMA ==>
              ParseMembers(t, acc, num) == ParseMembers(SkipWs(after[1..]), SetMember(acc, key, v), num)
    ensures !FullBlock(|key|) && Fits(v) && after[0] == CLOSEOBJ ==>
              ParseMembers(t, acc, num) == Parsed(Obj(SetMember(acc, key, v)), after[1..])
  {
    hide ParseValue;
    hide Fits;
    hide FullBlock;
    hide ParseChars;
    NoSkip(after);
    var u := [COLON] + body;
    assert u[0] == COLON && u[1..] == body && SkipWs(u) == u;
  }

  lemma NewKey(acc: seq<Member>, members: seq<Member>)
    requires members != [] && UniqueKeys(acc + members)
    ensures SetMember(acc, members[0].key, members[0].value) == acc + [members[0]]
  {
    var m := members[0];
    forall k | 0 <= k < |acc|
      ensures acc[k].key != m.key
    {
      assert (acc + members)[k] == acc[k] && (acc + members)[|acc|] == m;
    }
    SetNew(acc, m.key, m.value);
    assert Member(m.key, m.value) == m;
  }

  lemma KeyBack(key: Bytes, post: Bytes)
    requires Clean(key) && Valid(key)
    ensures ParseChars(key + [QUOTE] + post, []) == Back(!FullBlock(|key|), key, post)
  {
    assert [] + key == key;
    CharsBack(key, [], post);
  }

  lemma ReadyParts(m: Member)
    requires ReadyMember(m)
    ensures Clean(m.key) && Valid(m.key) && Ready(m.value)
  {
  }

  lemma FitsMemberIs(m: Member)
    ensures FitsMember(m) <==> !FullBlock(|m.key|) && Fits(m.value)
  {
  }

  lemma {:induction false} MembersBack(members: seq<Member>, acc: seq<Member>, post: Bytes, num: Numbers)
    requires members != [] && UniqueKeys(acc + members) &&
             (forall k :: 0 <= k < |members| ==> ReadyMember(members[k])) && Faithful(num)
    ensures ParseMembers(EncodeMembers(members, num) + [CLOSEOBJ] + post, acc, num) ==
            Back(FitMembers(members), Obj(acc + members), post)
    decreases members
  {
    hide *;
    FitFirstMember(members);
    FitsMemberIs(members[0]);
    BackIs(FitMembers(members), Obj(acc + members), post);
    var m, rest := members[0], members[1..];
    var after := MembersText(members, post, num);
    var body := EncodeJson(m.value, num) + after;
    var t := [QUOTE] + (m.key + [QUOTE] + ([COLON] + body));
    CloseIsNoWs();
    ReadyParts(m);
    KeyBack(m.key, [COLON] + body);
    assert t[0] == QUOTE && t[1..] == m.key + [QUOTE] + ([COLON] + body);
    if |members| == 1 { EndsAfter(CLOSEOBJ, post); }
    else { EndsAfter(COMMA, EncodeMembers(rest, num) + [CLOSEOBJ] + post); }
    ValueBack(m.value, after, num);
    NewKey(acc, members);
    MembersStep(t, acc, m.key, body, m.value, after, num);
    if |members| == 1 {
      assert after[1..] == post && members == [m];
      NoneFit();
    } else {
      MembersStart(rest, num);
      NextText(EncodeMembers(rest, num), CLOSEOBJ, post, after);
      assert (acc + [m]) + rest == acc + members;
      MembersBack(rest, acc + [m], post, num);
      BackIs(FitMembers(rest), Obj(acc + members), post);
    }
  }

  /** Decoding the encoding of any nested value gives that value back and consumes everything, if and
      only if no string and no key in it has a length of 64, 128, 256 or so on: there the terminating
      zero is written past the block. */
  lemma JsonRoundTrip(v: Json, num: Numbers)
    requires Ready(v) && Faithful(num)
    ensures DecodeJson(EncodeJson(v, num), num) == if Fits(v) then Decoded(v) else Undefined
  {
    hide ParseValue;
    hide EncodeJson;
    hide Fits;
    assert EncodeJson(v, num) + [] == EncodeJson(v, num);
    ValueBack(v, [], num);
  }

  /** A string of 64 letters does not come back. */
  lemma SixtyFourBytes(num: Numbers)
    requires Faithful(num)
    ensures var s := seq(64, i => 0x61); Clean(s) && Valid(s) && DecodeJson(EncodeJson(Str(s), num), num) == Undefined
  {
    var s: Bytes := seq(64, i => 0x61);
    LettersValid(s);
    assert Doubled(64, 64) == 64;
    JsonRoundTrip(Str(s), num);
  }

  lemma {:induction false} LettersValid(s: Bytes)
    requires forall k :: 0 <= k < |s| ==> s[k] == 0x61
    ensures Valid(s)
    decreases |s|
  {
    if s != [] { LettersValid(s[1..]); }
  }

  // ----- strings: exactly when they survive -----

  /** Every byte of the result and of the rest comes from a byte of the text; an escape costs more. */
  lemma {:induction false} CharsLength(t: Bytes, buf: Bytes)
    requires ParseChars(t, buf).Parsed?
    ensures var r := ParseChars(t, buf);
            |r.value| + |r.rest| + 1 <= |buf| + |t| && Valid(r.value) && !FullBlock(|r.value|) &&
            (|r.value| + |r.rest| + 1 == |buf| + |t| ==>
               exists u :: Clean(u) && t == u + [QUOTE] + r.rest && r.value == buf + u)
    decreases |t|
  {
    hide FullBlock;
    hide Valid;
    hide SimpleEscape;
    hide Utf8Of;
    var c, r := t[0], ParseChars(t, buf);
    if c == QUOTE {
      assert Clean([]) && t == [] + [QUOTE] + r.rest && r.value == buf + [];
    } else if c == BACKSLASH {
      if t[1] == 0x75 {
        var x := UnicodeEscape(t[2..]);
        CharsLength(x.rest, buf + Utf8Of(x.value));
      } else {
        CharsLength(t[2..], buf + [SimpleEscape(t[1]).value]);
      }
    } else {
      CharsLength(t[1..], buf + [c]);
      if |r.value| + |r.rest| + 1 == |buf| + |t| {
        var u :| Clean(u) && t[1..] == u + [QUOTE] + r.rest && r.value == buf + [c] + u;
        var w := [c] + u;
        assert Clean(w) && t == w + [QUOTE] + r.rest && r.value == buf + w;
      }
    }
  }

  /** A string survives encoding and decoding if and only if it is valid UTF-8, holds nothing to escape
      (the encoder escapes nothing), and does not fill its block. */
  lemma StringRoundTripIff(s: Bytes, num: Numbers)
    ensures DecodeJson(EncodeJson(Str(s), num), num) == Decoded(Str(s)) <==> Clean(s) && Valid(s) && !FullBlock(|s|)
  {
    hide Valid;
    var t := EncodeJson(Str(s), num);
    assert t == [QUOTE] + s + [QUOTE] + [];
    if Clean(s) && Valid(s) { StringValue(s, [], num); }
    hide FullBlock;
    if DecodeJson(t, num) == Decoded(Str(s)) {
      assert t[0] == QUOTE && SkipWs(t) == t && t[1..] == s + [QUOTE];
      var r := ParseChars(t[1..], []);
      CharsLength(t[1..], []);
      var u :| Clean(u) && t[1..] == u + [QUOTE] + r.rest && r.value == [] + u;
      assert u == s;
    }
  }

  /** Text that breaks off after a comma is taken for a whole array. */
  lemma BrokenArrayAccepted(num: Numbers)
    ensures DecodeJson([OPEN] + NULL + [COMMA], num) == Decoded(Arr([Null]))
  {
    var t := [OPEN] + NULL + [COMMA];
    var u := NULL + [COMMA];
    assert t[1..] == u && SkipWs(t) == t && SkipWs(u) == u;
    WordValue(Null, [COMMA], num);
    assert [COMMA][1..] == [] && SkipWs([COMMA]) == [COMMA];
    assert ParseItems([], [Null], num) == Parsed(Arr([Null]), []);
    assert [] + [Null] == [Null];
    assert ParseItems(u, [], num) == Parsed(Arr([Null]), []);
  }
}
